/** Values shared by the three tools: optional and failing results, table cells,
    pathlib paths, the exceptions the tools raise, and the string operations of
    Python that they rely on (str.split, the `in` test, pathlib's suffix rules,
    decimal formatting). */
module Common {

  datatype Option<T> = None | Some(value: T)

  datatype Result<T, E> = Success(value: T) | Failure(error: E)

  /** A table cell or a JSON value. Null stands for pandas' NaN, JSON null and
      Python's None alike. */
  datatype Value = Null | Str(text: string) | Num(number: real) | Flag(flag: bool) | List(items: seq<Value>)

  /** A pathlib path: its anchor ("/" when absolute, "" when relative) and its
      components, none of them empty. */
  datatype Path = Path(anchor: string, parts: seq<string>) {

    /** `path.name`: the last component, or "" for a bare anchor. */
    function Name(): string {
      if |parts| == 0 then "" else parts[|parts| - 1]
    }

    /** `path.parent`; a bare anchor is its own parent. */
    function Parent(): Path {
      if |parts| == 0 then this else Path(anchor, parts[..|parts| - 1])
    }

    /** `path / name` for a single component; joining "" leaves the path as it is. */
    function Div(name: string): (r: Path)
      ensures name != "" ==> r.Name() == name && r.Parent() == this
      ensures name == "" ==> r == this
    {
      if name == "" then this
      else
        assert (parts + [name])[..|parts|] == parts;
        Path(anchor, parts + [name])
    }
  }

  /** `path.as_posix()`. */
  function Posix(p: Path): string {
    if |p.parts| == 0 then (if p.anchor == "" then "." else p.anchor)
    else p.anchor + Join(p.parts, '/')
  }

  /** The exceptions the tools raise, by kind. */
  datatype Error =
    | External(text: string)        // raised inside a tool this model does not see
    | IndexOutOfRange               // IndexError from indexing past the end of a list
    | NotEnoughValues(got: nat)     // ValueError from unpacking a list of fewer than two items
    | FileNotFound(path: Path)      // reading or copying a file that is not there
    | FileExists(path: Path)        // copytree onto a folder that is already there
    | NotADirectory(path: Path)     // iterdir on something that is not a folder
    | KeyMissing(key: string)       // KeyError from a table lookup
    | IndexColumnMissing(column: string)  // read_csv with an index column the file lacks
    | DuplicateKeys(column: string) // set_index(..., verify_integrity=True) over repeated keys
    | ColumnsMissing(column: string)  // set_index on a column the table lacks

  /** `str(error)` as Python prints it. */
  function Message(e: Error): string {
    match e
    case External(text) => text
    case IndexOutOfRange => "list index out of range"
    case NotEnoughValues(got) => "not enough values to unpack (expected 2, got " + Decimal(got) + ")"
    case FileNotFound(p) => "[Errno 2] No such file or directory: '" + Posix(p) + "'"
    case FileExists(p) => "[Errno 17] File exists: '" + Posix(p) + "'"
    case NotADirectory(p) => "[Errno 20] Not a directory: '" + Posix(p) + "'"
    case KeyMissing(key) => "'" + key + "'"
    case IndexColumnMissing(column) => "Index " + column + " invalid"
    case DuplicateKeys(column) => "Index has duplicate keys in column " + column
    case ColumnsMissing(column) => "\"None of ['" + column + "'] are in the columns\""
  }

  // ---------------------------------------------------------------- strings

  predicate StartsWith(s: string, prefix: string) {
    |prefix| <= |s| && s[..|prefix|] == prefix
  }

  predicate EndsWith(s: string, suffix: string) {
    |suffix| <= |s| && s[|s| - |suffix|..] == suffix
  }

  /** Python's `sub in s` on two strings. */
  predicate Contains(s: string, sub: string)
    decreases |s|
  {
    StartsWith(s, sub) || (|s| > 0 && Contains(s[1..], sub))
  }

  /** `s.split(d)` for a one-character separator. */
  function Split(s: string, d: char): (r: seq<string>)
    ensures |r| >= 1
    ensures forall i :: 0 <= i < |r| ==> d !in r[i]
    decreases |s|
  {
    if |s| == 0 then [""]
    else
      var rest := Split(s[1..], d);
      if s[0] == d then [""] + rest else [[s[0]] + rest[0]] + rest[1..]
  }

  /** `d.join(parts)`. */
  function Join(parts: seq<string>, d: char): string
    decreases |parts|
  {
    if |parts| == 0 then ""
    else if |parts| == 1 then parts[0]
    else parts[0] + [d] + Join(parts[1..], d)
  }

  /** Joining the pieces of a split gives back the string. */
  lemma {:induction false} SplitJoin(s: string, d: char)
    ensures Join(Split(s, d), d) == s
    decreases |s|
  {
    if |s| > 0 {
      var rest := Split(s[1..], d);
      SplitJoin(s[1..], d);
      if s[0] == d {
        assert Split(s, d) == [""] + rest;
        assert ([""] + rest)[1..] == rest;
        assert s == [d] + s[1..];
      } else if |rest| == 1 {
        assert Split(s, d) == [[s[0]] + rest[0]];
        assert s == [s[0]] + s[1..];
      } else {
        var r := Split(s, d);
        assert r == [[s[0]] + rest[0]] + rest[1..];
        assert r[1..] == rest[1..];
        assert Join(rest, d) == rest[0] + [d] + Join(rest[1..], d);
        assert s == [s[0]] + s[1..];
      }
    }
  }

  /** A string without the separator splits into itself alone. */
  lemma {:induction false} SplitWithout(a: string, d: char)
    requires d !in a
    ensures Split(a, d) == [a]
    decreases |a|
  {
    if |a| > 0 {
      assert d !in a[1..] by {
        forall k | 0 <= k < |a| - 1 ensures a[1..][k] != d { assert a[1..][k] == a[k + 1]; }
      }
      SplitWithout(a[1..], d);
      assert a == [a[0]] + a[1..];
    }
  }

  /** The first piece of a split is everything before the first separator. */
  lemma {:induction false} SplitAt(a: string, r: string, d: char)
    requires d !in a
    ensures Split(a + [d] + r, d) == [a] + Split(r, d)
    decreases |a|
  {
    var s := a + [d] + r;
    if |a| == 0 {
      assert s[1..] == r;
    } else {
      assert s[1..] == a[1..] + [d] + r;
      assert d !in a[1..] by {
        forall k | 0 <= k < |a| - 1 ensures a[1..][k] != d { assert a[1..][k] == a[k + 1]; }
      }
      SplitAt(a[1..], r, d);
      assert [a[0]] + a[1..] == a;
    }
  }

  /** Splitting what was joined from separator-free pieces gives back the pieces. */
  lemma {:induction false} JoinSplit(parts: seq<string>, d: char)
    requires |parts| >= 1
    requires forall i :: 0 <= i < |parts| ==> d !in parts[i]
    ensures Split(Join(parts, d), d) == parts
    decreases |parts|
  {
    if |parts| == 1 {
      SplitWithout(parts[0], d);
    } else {
      JoinSplit(parts[1..], d);
      SplitAt(parts[0], Join(parts[1..], d), d);
      assert [parts[0]] + parts[1..] == parts;
    }
  }

  /** Index of the last occurrence of `c` in `s`, or -1 (`str.rfind`). */
  function LastIndexOf(s: string, c: char): (r: int)
    ensures -1 <= r < |s|
    ensures r >= 0 ==> s[r] == c
    ensures forall j :: r < j < |s| ==> s[j] != c
    decreases |s|
  {
    if |s| == 0 then -1
    else if s[|s| - 1] == c then |s| - 1
    else LastIndexOf(s[..|s| - 1], c)
  }

  /** `s.lstrip(c)` for one character. */
  function LStrip(s: string, c: char): (r: string)
    decreases |s|
  {
    if |s| > 0 && s[0] == c then LStrip(s[1..], c) else s
  }

  /** `PurePath.suffix` of a name: the name from its last dot on, unless that
      dot starts the name or ends it. */
  function Suffix(name: string): string {
    var i := LastIndexOf(name, '.');
    if 0 < i < |name| - 1 then name[i..] else ""
  }

  /** `PurePath.stem`, which is also the name that `with_suffix('')` leaves. */
  function Stem(name: string): string {
    var i := LastIndexOf(name, '.');
    if 0 < i < |name| - 1 then name[..i] else name
  }

  /** `PurePath.suffixes`: the dotted pieces after the first one, once leading
      dots are stripped; none when the name ends with a dot. */
  function Suffixes(name: string): seq<string> {
    if |name| > 0 && name[|name| - 1] == '.' then [] else Dotted(Split(LStrip(name, '.'), '.')[1..])
  }

  /** Each piece with a dot in front. */
  function Dotted(pieces: seq<string>): (r: seq<string>)
    ensures |r| == |pieces|
    ensures forall i :: 0 <= i < |r| ==> r[i] == "." + pieces[i]
    decreases |pieces|
  {
    if |pieces| == 0 then [] else ["." + pieces[0]] + Dotted(pieces[1..])
  }

  /** The stem and the suffix of a name are the two halves of the name. */
  lemma StemSuffix(name: string)
    ensures Stem(name) + Suffix(name) == name
    ensures Suffix(name) == "" || (Suffix(name)[0] == '.' && '.' !in Suffix(name)[1..] && |Suffix(name)| >= 2)
  {
    var i := LastIndexOf(name, '.');
    if 0 < i < |name| - 1 {
      assert name[..i] + name[i..] == name;
      forall k | 0 <= k < |name[i..]| - 1 ensures name[i..][1..][k] != '.' {
        assert name[i..][1..][k] == name[i + 1 + k];
      }
    }
  }

  // ---------------------------------------------------------------- numbers

  function DigitChar(d: nat): char
    requires d < 10
  {
    ('0' as int + d) as char
  }

  /** `str(n)` for a natural number. */
  function Decimal(n: nat): (r: string)
    ensures |r| >= 1
    ensures forall i :: 0 <= i < |r| ==> '0' <= r[i] <= '9'
  {
    if n < 10 then [DigitChar(n)] else Decimal(n / 10) + [DigitChar(n % 10)]
  }

  /** The number that a string of decimal digits denotes (`int(s)`). */
  function DigitsValue(s: string): int
    decreases |s|
  {
    if |s| == 0 then 0 else DigitsValue(s[..|s| - 1]) * 10 + (s[|s| - 1] as int - '0' as int)
  }

  /** Reading back a printed number gives the number. */
  lemma {:induction false} DecimalRoundTrip(n: nat)
    ensures DigitsValue(Decimal(n)) == n
  {
    if n >= 10 {
      var s := Decimal(n);
      assert s[..|s| - 1] == Decimal(n / 10);
      DecimalRoundTrip(n / 10);
    }
  }

  /** `f"{n:02d}"` for n below 100: two digits that read back as n. */
  function Pad2(n: nat): (r: string)
    requires n < 100
    ensures |r| == 2
    ensures forall i :: 0 <= i < |r| ==> '0' <= r[i] <= '9'
    ensures DigitsValue(r) == n
  {
    DecimalRoundTrip(n);
    if n < 10 then
      var r := "0" + Decimal(n);
      assert r[..1] == "0";
      r
    else
      assert Decimal(n) == Decimal(n / 10) + [DigitChar(n % 10)];
      Decimal(n)
  }
}
