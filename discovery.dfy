/** `run_mriqc_all` of mriqc_all.py: which raw data folders of the catch-all
    collection are converted and run through MRIQC, in what order, and under
    which names. The converter, MRIQC and the date parsers are not modelled;
    the parsers' answers come in as values. */
module MriqcAll {
  import opened Common
  import opened Ordering

  /** The root of the catch-all collection. */
  const RawRoot: Path := Path("/", ["project", "3055010.01", "raw"])

  /** The file system as the function sees it: the entries of each folder, in
      the order `iterdir` and `glob` list them, the set of plain files, and
      the folder `tempfile.mkdtemp()` returns (its random name is an input). */
  datatype Fs = Fs(folders: map<Path, seq<string>>, files: set<Path>, scratch: Path)

  // ---------------------------------------------------------------- date folders

  /** `folder.glob('20*')`: the entries whose name starts with "20"; nothing for
      a path that is not a folder. */
  function Glob(fs: Fs, folder: Path): seq<Path> {
    if folder in fs.folders then GlobNames(folder, fs.folders[folder]) else []
  }

  function GlobNames(folder: Path, names: seq<string>): seq<Path>
    decreases |names|
  {
    if |names| == 0 then []
    else (if StartsWith(names[0], "20") then [folder.Div(names[0])] else []) + GlobNames(folder, names[1..])
  }

  lemma {:induction false} GlobNamesSpec(folder: Path, names: seq<string>, p: Path)
    ensures p in GlobNames(folder, names) <==> exists n :: n in names && StartsWith(n, "20") && p == folder.Div(n)
    decreases |names|
  {
    if |names| > 0 {
      GlobNamesSpec(folder, names[1..], p);
      assert forall n :: n in names <==> n == names[0] || n in names[1..];
    }
  }

  /** The date folders of the given years, year by year. */
  function DatesOf(fs: Fs, years: seq<Path>): seq<Path>
    decreases |years|
  {
    if |years| == 0 then [] else Glob(fs, years[0]) + DatesOf(fs, years[1..])
  }

  lemma {:induction false} DatesOfSpec(fs: Fs, years: seq<Path>, p: Path)
    ensures p in DatesOf(fs, years) <==> exists y :: y in years && p in Glob(fs, y)
    decreases |years|
  {
    if |years| > 0 {
      DatesOfSpec(fs, years[1..], p);
      assert forall y :: y in years <==> y == years[0] || y in years[1..];
    }
  }

  /** The folders that `date == 'all'` collects, in the order it collects them. */
  function AllDateFolders(fs: Fs): seq<Path> {
    DatesOf(fs, Glob(fs, RawRoot))
  }

  /** 'all' selects exactly the `20*` entries of the `20*` year folders of the root. */
  lemma AllDateFoldersSpec(fs: Fs, p: Path)
    ensures p in AllDateFolders(fs) <==>
              RawRoot in fs.folders &&
              exists y, n :: y in fs.folders[RawRoot] && StartsWith(y, "20") &&
                             RawRoot.Div(y) in fs.folders &&
                             n in fs.folders[RawRoot.Div(y)] && StartsWith(n, "20") &&
                             p == RawRoot.Div(y).Div(n)
  {
    DatesOfSpec(fs, Glob(fs, RawRoot), p);
    if p in AllDateFolders(fs) {
      var year :| year in Glob(fs, RawRoot) && p in Glob(fs, year);
      GlobNamesSpec(RawRoot, fs.folders[RawRoot], year);
      var y :| y in fs.folders[RawRoot] && StartsWith(y, "20") && year == RawRoot.Div(y);
      GlobNamesSpec(year, fs.folders[year], p);
      var n :| n in fs.folders[year] && StartsWith(n, "20") && p == year.Div(n);
    }
    if RawRoot in fs.folders &&
       exists y, n :: y in fs.folders[RawRoot] && StartsWith(y, "20") &&
                      RawRoot.Div(y) in fs.folders &&
                      n in fs.folders[RawRoot.Div(y)] && StartsWith(n, "20") &&
                      p == RawRoot.Div(y).Div(n)
    {
      var y, n :| y in fs.folders[RawRoot] && StartsWith(y, "20") &&
                  RawRoot.Div(y) in fs.folders &&
                  n in fs.folders[RawRoot.Div(y)] && StartsWith(n, "20") &&
                  p == RawRoot.Div(y).Div(n);
      GlobNamesSpec(RawRoot, fs.folders[RawRoot], RawRoot.Div(y));
      GlobNamesSpec(RawRoot.Div(y), fs.folders[RawRoot.Div(y)], p);
    }
  }

  /** The nested loops that append every date folder of every year folder. */
  method CollectAll(fs: Fs) returns (datefolders: seq<Path>)
    ensures datefolders == AllDateFolders(fs)
  {
    datefolders := [];
    var years := Glob(fs, RawRoot);
    var i := 0;
    while i < |years|
      invariant 0 <= i <= |years|
      invariant datefolders + DatesOf(fs, years[i..]) == AllDateFolders(fs)
    {
      var dates := Glob(fs, years[i]);
      ghost var rest := DatesOf(fs, years[i + 1..]);
      DatesOfStep(fs, years, i);
      assert dates[0..] == dates;
      var j := 0;
      while j < |dates|
        invariant 0 <= j <= |dates|
        invariant datefolders + (dates[j..] + rest) == AllDateFolders(fs)
      {
        AppendStep(datefolders, dates, j, rest);
        datefolders := datefolders + [dates[j]];
        j := j + 1;
      }
      assert dates[j..] + rest == rest;
      i := i + 1;
    }
    assert datefolders + [] == datefolders;
  }

  lemma DatesOfStep(fs: Fs, years: seq<Path>, i: nat)
    requires i < |years|
    ensures DatesOf(fs, years[i..]) == Glob(fs, years[i]) + DatesOf(fs, years[i + 1..])
  {
    assert years[i..][1..] == years[i + 1..];
  }

  /** Moving the next item of `xs` to the end of `acc` keeps the concatenation. */
  lemma AppendStep<T>(acc: seq<T>, xs: seq<T>, j: nat, rest: seq<T>)
    requires j < |xs|
    ensures acc + (xs[j..] + rest) == (acc + [xs[j]]) + (xs[j + 1..] + rest)
  {
    assert xs[j..] == [xs[j]] + xs[j + 1..];
  }

  // ---------------------------------------------------------------- a single date

  datatype Ymd = Ymd(year: nat, month: nat, day: nat)

  /** The date of a Python `datetime`. */
  type Date = d: Ymd | 1 <= d.year <= 9999 && 1 <= d.month <= 12 && 1 <= d.day <= 31
    witness Ymd(2000, 1, 1)

  /** `f"{year}{month:02d}{day:02d}"`. */
  function DateName(d: Date): (r: string)
    ensures |r| == |Decimal(d.year)| + 4 && StartsWith(r, Decimal(d.year))
    ensures forall i :: 0 <= i < |r| ==> '0' <= r[i] <= '9'
  {
    var r := Decimal(d.year) + Pad2(d.month) + Pad2(d.day);
    assert r[..|Decimal(d.year)|] == Decimal(d.year);
    r
  }

  /** `rootfolder / f"{year}" / f"{year}{month:02d}{day:02d}"`. */
  function DateFolder(d: Date): (r: Path)
    ensures r.Name() == DateName(d) && r.Parent().Name() == Decimal(d.year) && r.Parent().Parent() == RawRoot
  {
    RawRoot.Div(Decimal(d.year)).Div(DateName(d))
  }

  /** Year, month and day read back from a date folder name. */
  function ReadDateName(s: string): (int, int, int)
    requires |s| >= 5
  {
    (DigitsValue(s[..|s| - 4]), DigitsValue(s[|s| - 4..|s| - 2]), DigitsValue(s[|s| - 2..]))
  }

  /** A date folder name gives back its date. */
  lemma DateNameRoundTrip(d: Date)
    ensures ReadDateName(DateName(d)) == (d.year, d.month, d.day)
  {
    var y := Decimal(d.year);
    var s := DateName(d);
    DecimalRoundTrip(d.year);
    assert s[..|s| - 4] == y;
    assert s[|s| - 4..|s| - 2] == Pad2(d.month);
    assert s[|s| - 2..] == Pad2(d.day);
  }

  /** Different dates never share a folder. */
  lemma DateFolderInjective(d1: Date, d2: Date)
    requires DateFolder(d1) == DateFolder(d2)
    ensures d1 == d2
  {
    DateNameRoundTrip(d1);
    DateNameRoundTrip(d2);
  }

  /** The date that `dateutil` gives, or, when it cannot parse the text,
      the one `parsedatetime` finds. */
  function Resolve(parsed: Option<Date>, natural: Option<Date>): (r: Option<Date>)
    ensures r.Some? <==> parsed.Some? || natural.Some?
    ensures parsed.Some? ==> r == parsed
  {
    if parsed.Some? then parsed else natural
  }

  // ---------------------------------------------------------------- units

  /** How an archive is unpacked into its temporary folder. */
  datatype Unpack = Zip | Tar | NoUnpack

  /** Where the raw data of a unit comes from. */
  datatype Source = InPlace(folder: Path) | Extracted(archive: Path, unpack: Unpack)

  /** What the unit loop does with an entry of a date folder. */
  datatype Unit = Process(source: Source, name: string) | Skipped | Crash(error: Error)

  const ArchiveSuffixes: seq<string> := [".zip", ".gz", ".tar"]

  /** An entry that is not a plain file is processed where it is; a file with
      an archive suffix is unpacked under its name without two suffixes; any
      other file is skipped. A name whose suffix list is empty ("..zip")
      raises IndexError at `ext[-1]`. */
  function Classify(fs: Fs, entry: Path): Unit {
    if entry !in fs.files then Process(InPlace(entry), entry.Name())
    else if Suffix(entry.Name()) !in ArchiveSuffixes then Skipped
    else
      var ext := Suffixes(entry.Name());
      if |ext| == 0 then Crash(IndexOutOfRange)
      else
        var unpack := if ext[|ext| - 1] == ".zip" then Zip else if ".tar" in ext then Tar else NoUnpack;
        Process(Extracted(entry, unpack), Stem(Stem(entry.Name())))
  }

  /** A name with one more suffix: the suffix is the last dotted piece and the
      stem is the rest. */
  lemma DottedName(base: string, ext: string)
    requires base != "" && ext != "" && '.' !in ext
    ensures Suffix(base + "." + ext) == "." + ext
    ensures Stem(base + "." + ext) == base
  {
    var s := base + "." + ext;
    assert s[|base|] == '.';
    assert forall k :: |base| < k < |s| ==> s[k] == ext[k - |base| - 1];
    assert LastIndexOf(s, '.') == |base|;
    assert s[|base|..] == "." + ext;
  }

  /** Splitting dot-free pieces joined by dots gives the pieces back. */
  lemma SplitDotted(base: string, a: string, b: string)
    requires '.' !in base && '.' !in a && '.' !in b
    ensures Split(base + "." + a + "." + b, '.') == [base, a, b]
  {
    var tail := a + "." + b;
    var n := base + "." + a + "." + b;
    assert n == base + ['.'] + tail;
    SplitPair(a, b);
    SplitAt(base, tail, '.');
    assert Split(n, '.') == [base] + [a, b];
  }

  lemma SplitPair(base: string, a: string)
    requires '.' !in base && '.' !in a
    ensures Split(base + "." + a, '.') == [base, a]
  {
    SplitWithout(a, '.');
    SplitAt(base, a, '.');
    assert base + "." + a == base + ['.'] + a;
  }

  /** The suffix list of a name that neither starts nor ends with a dot is
      every dotted piece after the first. */
  lemma SuffixesOfPlain(s: string)
    requires |s| > 0 && s[0] != '.' && s[|s| - 1] != '.'
    ensures |Suffixes(s)| == |Split(s, '.')| - 1
    ensures forall i :: 0 <= i < |Suffixes(s)| ==> Suffixes(s)[i] == "." + Split(s, '.')[i + 1]
  {
    assert LStrip(s, '.') == s;
  }

  /** `x.tar.gz` with a dot-free `x` is unpacked as tar into a folder `x`. */
  lemma TarGzArchive(fs: Fs, p: Path, base: string)
    requires base != "" && '.' !in base
    requires p in fs.files && p.Name() == base + ".tar.gz"
    ensures Classify(fs, p) == Process(Extracted(p, Tar), base)
  {
    TarGzName(base);
  }

  /** The suffixes and the double stem of `x.tar.gz`. */
  lemma TarGzName(base: string)
    requires base != "" && '.' !in base
    ensures Suffix(base + ".tar.gz") == ".gz"
    ensures Suffixes(base + ".tar.gz") == [".tar", ".gz"]
    ensures Stem(Stem(base + ".tar.gz")) == base
  {
    var n := base + ".tar.gz";
    var stem := base + "." + "tar";
    assert n == stem + "." + "gz";
    DottedName(stem, "gz");
    DottedName(base, "tar");
    TarGzSuffixes(base);
  }

  lemma TarGzSuffixes(base: string)
    requires base != "" && '.' !in base
    ensures Suffixes(base + ".tar.gz") == [".tar", ".gz"]
  {
    var n := base + ".tar.gz";
    assert n == base + "." + "tar" + "." + "gz";
    SplitDotted(base, "tar", "gz");
    assert n[0] == base[0] && n[|n| - 1] == 'z';
    assert Split(n, '.') == [base, "tar", "gz"];
    SuffixesOfPlain(n);
    assert Suffixes(n)[0] == ".tar" && Suffixes(n)[1] == ".gz";
  }

  /** `x.ext` with a dot-free `x` and an archive suffix is unpacked into a
      folder `x`: as zip for ".zip", as tar for ".tar", not at all for ".gz". */
  lemma SingleSuffixArchive(fs: Fs, p: Path, base: string, ext: string)
    requires base != "" && '.' !in base && ext in ["zip", "tar", "gz"]
    requires p in fs.files && p.Name() == base + "." + ext
    ensures Classify(fs, p) ==
            Process(Extracted(p, if ext == "zip" then Zip else if ext == "tar" then Tar else NoUnpack), base)
  {
    SingleSuffixName(base, ext);
    var sfx := "." + ext;
    assert sfx == if ext == "zip" then ".zip" else if ext == "tar" then ".tar" else ".gz";
    ClassifyOneSuffix(fs, p, sfx);
  }

  /** A file with a single archive suffix is unpacked by that suffix. */
  lemma ClassifyOneSuffix(fs: Fs, p: Path, sfx: string)
    requires p in fs.files && sfx in ArchiveSuffixes
    requires Suffix(p.Name()) == sfx && Suffixes(p.Name()) == [sfx]
    ensures Classify(fs, p) ==
            Process(Extracted(p, if sfx == ".zip" then Zip else if sfx == ".tar" then Tar else NoUnpack), Stem(Stem(p.Name())))
  {
  }

  /** The suffix, the suffix list and the double stem of `x.ext`. */
  lemma SingleSuffixName(base: string, ext: string)
    requires base != "" && '.' !in base && ext != "" && '.' !in ext
    ensures Suffix(base + "." + ext) == "." + ext
    ensures Suffixes(base + "." + ext) == ["." + ext]
    ensures Stem(Stem(base + "." + ext)) == base
  {
    var n := base + "." + ext;
    DottedName(base, ext);
    SplitPair(base, ext);
    assert n[0] == base[0] && n[|n| - 1] == ext[|ext| - 1];
    SuffixesOfPlain(n);
  }

  /** A plain file whose suffix is not an archive suffix is skipped. */
  lemma OtherFileSkipped(fs: Fs, p: Path)
    requires p in fs.files && Suffix(p.Name()) !in ArchiveSuffixes
    ensures Classify(fs, p) == Skipped
  {
  }

  /** A unit to convert and run: the date folder it was found in, its source,
      its name, the MRIQC and BIDS output folders, and whether its temporary
      folder is removed afterwards. */
  datatype Job = Job(dateFolder: Path, source: Source, name: string, mriqc: Path, bids: Path, cleanup: bool)

  /** The output folders `outfolder/name` and `outfolder/bids/name`. */
  function MakeJob(dateFolder: Path, source: Source, name: string, out: Path): Job {
    Job(dateFolder, source, name, out.Div(name), out.Div("bids").Div(name), source.Extracted?)
  }

  /** `(jobs, error)` extended at the front by jobs already done. */
  function Then(done: seq<Job>, r: (seq<Job>, Option<Error>)): (seq<Job>, Option<Error>) {
    (done + r.0, r.1)
  }

  /** An archive that neither unpacker opens (a plain ".gz"): its temporary
      folder is never made. */
  predicate Unextracted(source: Source) {
    source.Extracted? && source.unpack == NoUnpack
  }

  /** The unit loop over the entries of one date folder. After a unit from an
      archive, `shutil.rmtree` removes its temporary folder; for a plain ".gz"
      that folder was never made, so it raises FileNotFoundError and ends the
      function. */
  function VisitEntries(fs: Fs, folder: Path, names: seq<string>, out: Path): (seq<Job>, Option<Error>)
    decreases |names|
  {
    if |names| == 0 then ([], None)
    else
      match Classify(fs, folder.Div(names[0]))
      case Skipped => VisitEntries(fs, folder, names[1..], out)
      case Crash(e) => ([], Some(e))
      case Process(source, name) =>
        if Unextracted(source) then ([MakeJob(folder, source, name, out)], Some(FileNotFound(fs.scratch.Div(name))))
        else Then([MakeJob(folder, source, name, out)], VisitEntries(fs, folder, names[1..], out))
  }

  /** `datefolder.iterdir()` raises on anything but a folder. */
  function VisitFolder(fs: Fs, folder: Path, out: Path): (seq<Job>, Option<Error>) {
    if folder in fs.folders then VisitEntries(fs, folder, fs.folders[folder], out)
    else if folder in fs.files then ([], Some(NotADirectory(folder)))
    else ([], Some(FileNotFound(folder)))
  }

  /** The loop over the date folders; an exception ends it. */
  function Visit(fs: Fs, folders: seq<Path>, out: Path): (seq<Job>, Option<Error>)
    decreases |folders|
  {
    if |folders| == 0 then ([], None)
    else
      var e := VisitFolder(fs, folders[0], out);
      if e.1.Some? then e else Then(e.0, Visit(fs, folders[1..], out))
  }

  /** `run_mriqc_all(date, outfolder)`: the units it starts processing and the
      exception it ends with, if any. */
  function Outcome(date: string, out: Path, fs: Fs, parsed: Option<Date>, natural: Option<Date>)
    : (seq<Job>, Option<Error>)
  {
    if date == "all" then Visit(fs, SortDesc(AllDateFolders(fs)), out)
    else
      match Resolve(parsed, natural)
      case None => ([], None)
      case Some(d) =>
        if DateFolder(d) in fs.folders then Visit(fs, SortDesc([DateFolder(d)]), out) else ([], None)
  }

  /** The date folders to visit, or none when the function returns early. */
  function Selected(date: string, fs: Fs, parsed: Option<Date>, natural: Option<Date>): seq<Path> {
    if date == "all" then AllDateFolders(fs)
    else
      match Resolve(parsed, natural)
      case None => []
      case Some(d) => if DateFolder(d) in fs.folders then [DateFolder(d)] else []
  }

  /** `run_mriqc_all` visits the selected folders, newest first. */
  lemma OutcomeVisits(date: string, out: Path, fs: Fs, parsed: Option<Date>, natural: Option<Date>)
    ensures Outcome(date, out, fs, parsed, natural) == Visit(fs, SortDesc(Selected(date, fs, parsed, natural)), out)
  {
  }

  /** One turn of the date folder loop. */
  lemma VisitStep(fs: Fs, folders: seq<Path>, i: nat, out: Path)
    requires i < |folders|
    ensures var e := VisitFolder(fs, folders[i], out);
            var rest := Visit(fs, folders[i + 1..], out);
            Visit(fs, folders[i..], out) == if e.1.Some? then e else (e.0 + rest.0, rest.1)
  {
    assert folders[i..][0] == folders[i] && folders[i..][1..] == folders[i + 1..];
  }

  // ---------------------------------------------------------------- what the function does

  /** A unit as the loop builds it: output folders `out/name` and
      `out/bids/name`, cleanup exactly for archives, and a source that is an
      entry of its date folder: a non-file processed under its own name, or a
      file with an archive suffix unpacked under its name without two
      suffixes, as zip when its last suffix is ".zip" and as tar when another
      suffix is ".tar". */
  predicate WellFormedJob(fs: Fs, out: Path, j: Job) {
    j.mriqc == out.Div(j.name) && j.bids == out.Div("bids").Div(j.name) &&
    (j.cleanup <==> j.source.Extracted?) &&
    j.dateFolder in fs.folders &&
    match j.source
    case InPlace(folder) =>
      folder !in fs.files && folder.Name() == j.name &&
      exists n :: n in fs.folders[j.dateFolder] && folder == j.dateFolder.Div(n)
    case Extracted(archive, unpack) =>
      var ext := Suffixes(archive.Name());
      archive in fs.files && Suffix(archive.Name()) in ArchiveSuffixes &&
      j.name == Stem(Stem(archive.Name())) &&
      |ext| > 0 && (unpack == Zip <==> ext[|ext| - 1] == ".zip") &&
      (unpack == Tar <==> ext[|ext| - 1] != ".zip" && ".tar" in ext) &&
      exists n :: n in fs.folders[j.dateFolder] && archive == j.dateFolder.Div(n)
  }

  /** The exceptions the function raises itself. */
  predicate OwnError(e: Error) {
    e.NotADirectory? || e.FileNotFound? || e == IndexOutOfRange
  }

  /** A processed entry of a folder makes a well-formed unit. */
  lemma ClassifySound(fs: Fs, folder: Path, n: string, out: Path)
    requires folder in fs.folders && n in fs.folders[folder]
    requires Classify(fs, folder.Div(n)).Process?
    ensures WellFormedJob(fs, out, MakeJob(folder, Classify(fs, folder.Div(n)).source, Classify(fs, folder.Div(n)).name, out))
  {
    var entry := folder.Div(n);
    var u := Classify(fs, entry);
    var j := MakeJob(folder, u.source, u.name, out);
    if entry in fs.files {
      var ext := Suffixes(entry.Name());
      assert u.source == Extracted(entry, j.source.unpack);
      assert j.source.archive == folder.Div(n);
    } else {
      assert u.source == InPlace(entry);
    }
  }

  lemma {:induction false} VisitEntriesSound(fs: Fs, folder: Path, names: seq<string>, out: Path)
    requires folder in fs.folders
    requires forall n :: n in names ==> n in fs.folders[folder]
    ensures forall j :: j in VisitEntries(fs, folder, names, out).0 ==> j.dateFolder == folder && WellFormedJob(fs, out, j)
    ensures VisitEntries(fs, folder, names, out).1.Some? ==> OwnError(VisitEntries(fs, folder, names, out).1.value)
    decreases |names|
  {
    if |names| > 0 {
      VisitEntriesSound(fs, folder, names[1..], out);
      VisitEntriesStep(fs, folder, names, 0, out);
      assert names[0..] == names;
      assert names[0] in fs.folders[folder];
      if Classify(fs, folder.Div(names[0])).Process? {
        ClassifySound(fs, folder, names[0], out);
      }
    }
  }

  lemma {:induction false} VisitSound(fs: Fs, folders: seq<Path>, out: Path)
    ensures forall j :: j in Visit(fs, folders, out).0 ==> j.dateFolder in folders && WellFormedJob(fs, out, j)
    ensures Visit(fs, folders, out).1.Some? ==> OwnError(Visit(fs, folders, out).1.value)
    decreases |folders|
  {
    if |folders| > 0 {
      VisitSound(fs, folders[1..], out);
      if folders[0] in fs.folders {
        VisitEntriesSound(fs, folders[0], fs.folders[folders[0]], out);
      }
    }
  }

  lemma {:induction false} VisitEntriesComplete(fs: Fs, folder: Path, names: seq<string>, out: Path)
    ensures VisitEntries(fs, folder, names, out).1.None? ==>
              forall n :: n in names && Classify(fs, folder.Div(n)).Process? ==>
                MakeJob(folder, Classify(fs, folder.Div(n)).source, Classify(fs, folder.Div(n)).name, out)
                  in VisitEntries(fs, folder, names, out).0
    ensures VisitEntries(fs, folder, names, out).1.None? ==>
              forall j :: j in VisitEntries(fs, folder, names, out).0 ==> !Unextracted(j.source)
    decreases |names|
  {
    if |names| > 0 {
      var rest := VisitEntries(fs, folder, names[1..], out);
      VisitEntriesComplete(fs, folder, names[1..], out);
      assert forall n :: n in names <==> n == names[0] || n in names[1..];
      match Classify(fs, folder.Div(names[0]))
      case Skipped =>
        assert VisitEntries(fs, folder, names, out) == rest;
      case Crash(e) =>
      case Process(source, name) =>
        if !Unextracted(source) {
          var job := MakeJob(folder, source, name, out);
          assert VisitEntries(fs, folder, names, out) == ([job] + rest.0, rest.1);
          assert forall j :: j in [job] + rest.0 <==> j == job || j in rest.0;
        }
    }
  }

  lemma {:induction false} VisitComplete(fs: Fs, folders: seq<Path>, out: Path)
    ensures Visit(fs, folders, out).1.None? ==> forall f :: f in folders ==> f in fs.folders
    ensures Visit(fs, folders, out).1.None? ==>
              forall f, n :: f in folders && f in fs.folders && n in fs.folders[f] && Classify(fs, f.Div(n)).Process? ==>
                MakeJob(f, Classify(fs, f.Div(n)).source, Classify(fs, f.Div(n)).name, out) in Visit(fs, folders, out).0
    ensures Visit(fs, folders, out).1.None? ==>
              forall j :: j in Visit(fs, folders, out).0 ==> !Unextracted(j.source)
    decreases |folders|
  {
    if |folders| > 0 {
      VisitComplete(fs, folders[1..], out);
      assert forall f :: f in folders <==> f == folders[0] || f in folders[1..];
      if folders[0] in fs.folders {
        VisitEntriesComplete(fs, folders[0], fs.folders[folders[0]], out);
      }
    }
  }

  /** Every job from one folder's entries belongs to that folder. */
  lemma {:induction false} VisitEntriesFolder(fs: Fs, folder: Path, names: seq<string>, out: Path)
    ensures forall j :: j in VisitEntries(fs, folder, names, out).0 ==> j.dateFolder == folder
    decreases |names|
  {
    if |names| > 0 {
      VisitEntriesFolder(fs, folder, names[1..], out);
    }
  }

  /** Jobs ordered by date folder, newest first. */
  predicate NewestFirst(jobs: seq<Job>) {
    forall a, b :: 0 <= a < b < |jobs| ==> NotBelow(jobs[a].dateFolder, jobs[b].dateFolder)
  }

  lemma ConcatNewestFirst(head: seq<Job>, rest: seq<Job>, top: Path)
    requires forall j :: j in head ==> j.dateFolder == top
    requires forall j :: j in rest ==> NotBelow(top, j.dateFolder)
    requires NewestFirst(rest)
    ensures NewestFirst(head + rest)
  {
    PathLtOrder(top, top, top);
    var jobs := head + rest;
    forall a, b | 0 <= a < b < |jobs| ensures NotBelow(jobs[a].dateFolder, jobs[b].dateFolder) {
      if b < |head| {
        assert jobs[a] in head && jobs[b] in head;
      } else if a < |head| {
        assert jobs[a] in head;
        assert jobs[b] == rest[b - |head|];
      } else {
        assert jobs[a] == rest[a - |head|] && jobs[b] == rest[b - |head|];
      }
    }
  }

  lemma {:induction false} VisitFolders(fs: Fs, folders: seq<Path>, out: Path)
    ensures forall j :: j in Visit(fs, folders, out).0 ==> j.dateFolder in folders
    decreases |folders|
  {
    if |folders| > 0 {
      VisitFolders(fs, folders[1..], out);
      if folders[0] in fs.folders {
        VisitEntriesFolder(fs, folders[0], fs.folders[folders[0]], out);
      }
    }
  }

  /** Jobs come in the order of their date folders. */
  lemma {:induction false} VisitOrder(fs: Fs, folders: seq<Path>, out: Path)
    requires Descending(folders)
    ensures NewestFirst(Visit(fs, folders, out).0)
    decreases |folders|
  {
    if |folders| > 0 {
      var e := VisitFolder(fs, folders[0], out);
      if folders[0] in fs.folders {
        VisitEntriesFolder(fs, folders[0], fs.folders[folders[0]], out);
      }
      PathLtOrder(folders[0], folders[0], folders[0]);
      if e.1.None? {
        assert Descending(folders[1..]);
        VisitOrder(fs, folders[1..], out);
        VisitFolders(fs, folders[1..], out);
        var rest := Visit(fs, folders[1..], out).0;
        forall j | j in rest ensures NotBelow(folders[0], j.dateFolder) {
          var k :| 0 <= k < |folders[1..]| && folders[1..][k] == j.dateFolder;
          assert folders[k + 1] == j.dateFolder;
        }
        ConcatNewestFirst(e.0, rest, folders[0]);
      } else {
        ConcatNewestFirst(e.0, [], folders[0]);
        assert e.0 + [] == e.0;
      }
    }
  }

  /** An unparsable date or a date without its folder processes nothing and
      raises nothing. */
  lemma NothingWithoutDateFolder(date: string, out: Path, fs: Fs, parsed: Option<Date>, natural: Option<Date>)
    requires date != "all"
    requires Resolve(parsed, natural).None? || DateFolder(Resolve(parsed, natural).value) !in fs.folders
    ensures Outcome(date, out, fs, parsed, natural) == ([], None)
  {
  }

  /** A resolved date with its folder present processes the entries of that
      one folder: `dateutil`'s date when it has one, `parsedatetime`'s otherwise. */
  lemma SingleDate(date: string, out: Path, fs: Fs, parsed: Option<Date>, natural: Option<Date>, d: Date)
    requires date != "all"
    requires parsed == Some(d) || (parsed.None? && natural == Some(d))
    requires DateFolder(d) in fs.folders
    ensures Outcome(date, out, fs, parsed, natural) == VisitEntries(fs, DateFolder(d), fs.folders[DateFolder(d)], out)
    ensures forall j :: j in Outcome(date, out, fs, parsed, natural).0 ==> j.dateFolder == DateFolder(d)
  {
    var f := DateFolder(d);
    assert Selected(date, fs, parsed, natural) == [f];
    OutcomeVisits(date, out, fs, parsed, natural);
    assert SortDesc([f]) == [f];
    VisitStep(fs, [f], 0, out);
    assert [f][0..] == [f] && [f][1..] == [];
    var r := VisitEntries(fs, f, fs.folders[f], out);
    assert r.0 + [] == r.0;
    VisitEntriesFolder(fs, f, fs.folders[f], out);
  }

  /** What the function processes: well-formed units of the selected date
      folders, newest date folder first; it raises only its own exceptions;
      and when it raises none, every selected folder is a folder, every
      entry that is not a skipped file was processed, and none of them was a
      plain ".gz" archive. */
  lemma OutcomeSpec(date: string, out: Path, fs: Fs, parsed: Option<Date>, natural: Option<Date>)
    ensures NewestFirst(Outcome(date, out, fs, parsed, natural).0)
    ensures forall j :: j in Outcome(date, out, fs, parsed, natural).0 ==>
              j.dateFolder in Selected(date, fs, parsed, natural) && WellFormedJob(fs, out, j)
    ensures Outcome(date, out, fs, parsed, natural).1.Some? ==> OwnError(Outcome(date, out, fs, parsed, natural).1.value)
    ensures Outcome(date, out, fs, parsed, natural).1.None? ==>
              forall f, n :: f in Selected(date, fs, parsed, natural) && f in fs.folders && n in fs.folders[f] &&
                             Classify(fs, f.Div(n)).Process? ==>
                MakeJob(f, Classify(fs, f.Div(n)).source, Classify(fs, f.Div(n)).name, out)
                  in Outcome(date, out, fs, parsed, natural).0
    ensures Outcome(date, out, fs, parsed, natural).1.None? ==>
              forall j :: j in Outcome(date, out, fs, parsed, natural).0 ==> !Unextracted(j.source)
  {
    var selected := Selected(date, fs, parsed, natural);
    var ordered := SortDesc(selected);
    OutcomeVisits(date, out, fs, parsed, natural);
    VisitOrder(fs, ordered, out);
    VisitFolders(fs, ordered, out);
    VisitSound(fs, ordered, out);
    VisitComplete(fs, ordered, out);
    forall f | f in selected ensures f in ordered {
      assert f in multiset(selected);
    }
    forall f | f in ordered ensures f in selected {
      assert f in multiset(ordered);
    }
  }

  /** The function itself: select the date folders, then visit them newest first. */
  method RunAll(date: string, out: Path, fs: Fs, parsed: Option<Date>, natural: Option<Date>)
    returns (jobs: seq<Job>, error: Option<Error>)
    ensures (jobs, error) == Outcome(date, out, fs, parsed, natural)
  {
    OutcomeVisits(date, out, fs, parsed, natural);
    var datefolders := SelectFolders(date, fs, parsed, natural);
    jobs, error := VisitAll(fs, SortDesc(datefolders), out);
  }

  /** The date folder selection; an unparsable date or a missing folder ends
      the function before anything is visited. */
  method SelectFolders(date: string, fs: Fs, parsed: Option<Date>, natural: Option<Date>)
    returns (datefolders: seq<Path>)
    ensures datefolders == Selected(date, fs, parsed, natural)
  {
    if date == "all" {
      datefolders := CollectAll(fs);
    } else {
      var when := Resolve(parsed, natural);
      if when.None? {
        return [];
      }
      datefolders := [DateFolder(when.value)];
      if datefolders[0] !in fs.folders {
        return [];
      }
    }
  }

  /** The loop over the sorted date folders. */
  method VisitAll(fs: Fs, ordered: seq<Path>, out: Path) returns (jobs: seq<Job>, error: Option<Error>)
    ensures (jobs, error) == Visit(fs, ordered, out)
  {
    jobs, error := [], None;
    ghost var total := Visit(fs, ordered, out);
    assert ordered[0..] == ordered;
    var i := 0;
    while i < |ordered|
      invariant 0 <= i <= |ordered|
      invariant jobs + Visit(fs, ordered[i..], out).0 == total.0
      invariant Visit(fs, ordered[i..], out).1 == total.1
    {
      ghost var rest := Visit(fs, ordered[i + 1..], out);
      VisitStep(fs, ordered, i, out);
      var found, raised := ProcessFolder(fs, ordered[i], out);
      if raised.Some? {
        jobs, error := jobs + found, raised;
        return;
      }
      assert Visit(fs, ordered[i..], out) == (found + rest.0, rest.1);
      assert jobs + (found + rest.0) == (jobs + found) + rest.0;
      jobs := jobs + found;
      i := i + 1;
    }
    assert jobs + [] == jobs;
  }

  /** One turn of the unit loop. */
  lemma VisitEntriesStep(fs: Fs, folder: Path, names: seq<string>, k: nat, out: Path)
    requires k < |names|
    ensures var u := Classify(fs, folder.Div(names[k]));
            var rest := VisitEntries(fs, folder, names[k + 1..], out);
            VisitEntries(fs, folder, names[k..], out) ==
              if u.Skipped? then rest
              else if u.Crash? then ([], Some(u.error))
              else if Unextracted(u.source) then
                ([MakeJob(folder, u.source, u.name, out)], Some(FileNotFound(fs.scratch.Div(u.name))))
              else ([MakeJob(folder, u.source, u.name, out)] + rest.0, rest.1)
  {
    assert names[k..][0] == names[k] && names[k..][1..] == names[k + 1..];
  }

  /** The unit loop over one date folder. */
  method ProcessFolder(fs: Fs, folder: Path, out: Path) returns (jobs: seq<Job>, error: Option<Error>)
    ensures (jobs, error) == VisitFolder(fs, folder, out)
  {
    jobs, error := [], None;
    if folder !in fs.folders {
      error := Some(if folder in fs.files then NotADirectory(folder) else FileNotFound(folder));
      return;
    }
    var names := fs.folders[folder];
    ghost var total := VisitEntries(fs, folder, names, out);
    assert names[0..] == names;
    var k := 0;
    while k < |names|
      invariant 0 <= k <= |names|
      invariant jobs + VisitEntries(fs, folder, names[k..], out).0 == total.0
      invariant VisitEntries(fs, folder, names[k..], out).1 == total.1
    {
      VisitEntriesStep(fs, folder, names, k, out);
      ghost var rest := VisitEntries(fs, folder, names[k + 1..], out);
      var unit := Classify(fs, folder.Div(names[k]));
      if unit.Crash? {
        assert jobs + [] == jobs;
        error := Some(unit.error);
        return;
      } else if unit.Process? {
        var job := MakeJob(folder, unit.source, unit.name, out);
        if Unextracted(unit.source) {
          jobs := jobs + [job];
          error := Some(FileNotFound(fs.scratch.Div(unit.name)));
          return;
        }
        assert (jobs + [job]) + rest.0 == jobs + ([job] + rest.0);
        jobs := jobs + [job];
      }
      k := k + 1;
    }
    assert names[k..] == [];
    assert jobs + [] == jobs;
  }
}
