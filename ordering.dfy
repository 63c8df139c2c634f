/** The order in which Python compares strings and pathlib paths, and
    `sorted(..., reverse=True)` over paths. */
module Ordering {
  import opened Common

  /** `a < b` on Python strings: code point by code point, a proper prefix first. */
  predicate StrLt(a: string, b: string)
    decreases |a|
  {
    |b| > 0 && (|a| == 0 || a[0] < b[0] || (a[0] == b[0] && StrLt(a[1..], b[1..])))
  }

  lemma {:induction false} StrLtIrreflexive(a: string)
    ensures !StrLt(a, a)
    decreases |a|
  {
    if |a| > 0 {
      StrLtIrreflexive(a[1..]);
    }
  }

  lemma {:induction false} StrLtTransitive(a: string, b: string, c: string)
    requires StrLt(a, b) && StrLt(b, c)
    ensures StrLt(a, c)
    decreases |a|
  {
    if |a| > 0 && a[0] == b[0] && b[0] == c[0] {
      StrLtTransitive(a[1..], b[1..], c[1..]);
    }
  }

  lemma {:induction false} StrLtTotal(a: string, b: string)
    ensures a == b || StrLt(a, b) || StrLt(b, a)
    decreases |a|
  {
    if |a| > 0 && |b| > 0 && a[0] == b[0] {
      StrLtTotal(a[1..], b[1..]);
      if a[1..] == b[1..] {
        assert a == [a[0]] + a[1..] && b == [b[0]] + b[1..];
      }
    }
  }

  /** `a < b` on Python lists of strings: the first differing item decides, a
      proper prefix first. */
  predicate PartsLt(a: seq<string>, b: seq<string>)
    decreases |a|
  {
    |b| > 0 && (|a| == 0 || StrLt(a[0], b[0]) || (a[0] == b[0] && PartsLt(a[1..], b[1..])))
  }

  lemma {:induction false} PartsLtIrreflexive(a: seq<string>)
    ensures !PartsLt(a, a)
    decreases |a|
  {
    if |a| > 0 {
      StrLtIrreflexive(a[0]);
      PartsLtIrreflexive(a[1..]);
    }
  }

  lemma {:induction false} PartsLtTransitive(a: seq<string>, b: seq<string>, c: seq<string>)
    requires PartsLt(a, b) && PartsLt(b, c)
    ensures PartsLt(a, c)
    decreases |a|
  {
    if |a| > 0 {
      if StrLt(a[0], b[0]) && StrLt(b[0], c[0]) {
        StrLtTransitive(a[0], b[0], c[0]);
      } else if a[0] == b[0] && b[0] == c[0] {
        PartsLtTransitive(a[1..], b[1..], c[1..]);
      }
    }
  }

  lemma {:induction false} PartsLtTotal(a: seq<string>, b: seq<string>)
    ensures a == b || PartsLt(a, b) || PartsLt(b, a)
    decreases |a|
  {
    if |a| > 0 && |b| > 0 {
      StrLtTotal(a[0], b[0]);
      if a[0] == b[0] {
        PartsLtTotal(a[1..], b[1..]);
        if a[1..] == b[1..] {
          assert a == [a[0]] + a[1..] && b == [b[0]] + b[1..];
        }
      }
    }
  }

  /** The key pathlib compares paths by: the POSIX text split at '/'. */
  function Key(p: Path): seq<string> {
    Split(Posix(p), '/')
  }

  /** `p < q` on pathlib paths. */
  predicate PathLt(p: Path, q: Path) {
    PartsLt(Key(p), Key(q))
  }

  /** Paths with the same key print the same. */
  lemma SameKey(p: Path, q: Path)
    requires Key(p) == Key(q)
    ensures Posix(p) == Posix(q)
  {
    SplitJoin(Posix(p), '/');
    SplitJoin(Posix(q), '/');
  }

  /** The path order is a strict total order on keys. */
  lemma PathLtOrder(p: Path, q: Path, r: Path)
    ensures !PathLt(p, p)
    ensures Key(p) == Key(q) || PathLt(p, q) || PathLt(q, p)
    ensures PathLt(p, q) && PathLt(q, r) ==> PathLt(p, r)
  {
    PartsLtIrreflexive(Key(p));
    PartsLtTotal(Key(p), Key(q));
    if PathLt(p, q) && PathLt(q, r) {
      PartsLtTransitive(Key(p), Key(q), Key(r));
    }
  }

  /** Not smaller: `!(p < q)`, the relation a descending list keeps. */
  predicate NotBelow(p: Path, q: Path) {
    !PathLt(p, q)
  }

  lemma NotBelowTransitive(p: Path, q: Path, r: Path)
    requires NotBelow(p, q) && NotBelow(q, r)
    ensures NotBelow(p, r)
  {
    PathLtOrder(q, r, q);
    PathLtOrder(p, r, q);
  }

  lemma PathLtAsymmetric(p: Path, q: Path)
    requires PathLt(p, q)
    ensures NotBelow(q, p)
  {
    PathLtOrder(q, p, q);
  }

  /** Each path is not smaller than any that follows it. */
  predicate Descending(s: seq<Path>) {
    forall i, j :: 0 <= i < j < |s| ==> NotBelow(s[i], s[j])
  }

  /** Puts `x` in front of the first path of a descending list that it is not
      smaller than. */
  function Insert(x: Path, s: seq<Path>): seq<Path>
    decreases |s|
  {
    if |s| == 0 || NotBelow(x, s[0]) then [x] + s else [s[0]] + Insert(x, s[1..])
  }

  /** Insertion adds `x` and keeps the list descending; the result starts with
      `x` or with the old first path. */
  lemma {:induction false} InsertSpec(x: Path, s: seq<Path>)
    requires Descending(s)
    ensures multiset(Insert(x, s)) == multiset(s) + multiset{x}
    ensures Descending(Insert(x, s))
    ensures |Insert(x, s)| > 0 && (Insert(x, s)[0] == x || (|s| > 0 && Insert(x, s)[0] == s[0]))
    decreases |s|
  {
    if |s| == 0 || NotBelow(x, s[0]) {
      InsertFront(x, s);
    } else {
      var rest := Insert(x, s[1..]);
      DescendingTail(s);
      InsertSpec(x, s[1..]);
      assert Insert(x, s) == [s[0]] + rest;
      assert multiset(s) == multiset{s[0]} + multiset(s[1..]) by { assert s == [s[0]] + s[1..]; }
      assert multiset([s[0]] + rest) == multiset{s[0]} + multiset(rest);
      InsertBehind(x, s, rest);
    }
  }

  lemma DescendingTail(s: seq<Path>)
    requires |s| > 0 && Descending(s)
    ensures Descending(s[1..])
  {
    forall i, j | 0 <= i < j < |s| - 1 ensures NotBelow(s[1..][i], s[1..][j]) {
      assert s[1..][i] == s[i + 1] && s[1..][j] == s[j + 1];
    }
  }

  /** Putting `x` in front keeps the list descending when it is not smaller
      than the first path. */
  lemma InsertFront(x: Path, s: seq<Path>)
    requires Descending(s)
    requires |s| == 0 || NotBelow(x, s[0])
    ensures Descending([x] + s)
  {
    var r := [x] + s;
    forall i, j | 0 <= i < j < |r| ensures NotBelow(r[i], r[j]) {
      if i == 0 && j > 1 {
        NotBelowTransitive(x, s[0], s[j - 1]);
      }
    }
  }

  /** The first path of a descending list is not below anything that holds
      the rest of the list and a smaller `x`. */
  lemma AboveAll(x: Path, s: seq<Path>, rest: seq<Path>)
    requires |s| > 0 && Descending(s) && PathLt(x, s[0])
    requires multiset(rest) == multiset(s[1..]) + multiset{x}
    ensures forall y :: y in rest ==> NotBelow(s[0], y)
  {
    PathLtAsymmetric(x, s[0]);
    forall y | y in rest ensures NotBelow(s[0], y) {
      assert y in multiset(rest);
      if y != x {
        assert y in multiset(s[1..]);
        var k :| 0 <= k < |s[1..]| && s[1..][k] == y;
        assert s[k + 1] == y;
      }
    }
  }

  /** Keeping the first path in front of the rest, which starts with `x` or with
      the second path, keeps the list descending when `x` is smaller. */
  lemma InsertBehind(x: Path, s: seq<Path>, rest: seq<Path>)
    requires |s| > 0 && Descending(s) && PathLt(x, s[0])
    requires Descending(rest) && multiset(rest) == multiset(s[1..]) + multiset{x}
    ensures Descending([s[0]] + rest)
  {
    AboveAll(x, s, rest);
    PrependAbove(s[0], rest);
  }

  lemma PrependAbove(y: Path, rest: seq<Path>)
    requires Descending(rest)
    requires forall z :: z in rest ==> NotBelow(y, z)
    ensures Descending([y] + rest)
  {
    var r := [y] + rest;
    forall i, j | 0 <= i < j < |r| ensures NotBelow(r[i], r[j]) {
      assert r[j] == rest[j - 1] && rest[j - 1] in rest;
      if i > 0 {
        assert r[i] == rest[i - 1];
      }
    }
  }

  /** `sorted(s, reverse=True)`: the same paths, largest first. */
  function SortDesc(s: seq<Path>): (r: seq<Path>)
    ensures multiset(r) == multiset(s)
    ensures Descending(r)
    decreases |s|
  {
    if |s| == 0 then []
    else
      assert s == [s[0]] + s[1..];
      InsertSpec(s[0], SortDesc(s[1..]));
      Insert(s[0], SortDesc(s[1..]))
  }
}
