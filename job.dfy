/** mriqc_job.py `main`: the job that converts one acquisition unit to BIDS,
    runs MRIQC on it, copies the result into the unit's BIDS folder and leaves
    a marker file in the logs folder saying how it ended. */
module MriqcJob {
  import opened Common
  import opened Tables

  /** A file in the root of a BIDS folder: plain text, or a table that reads
      with `participant_id` as its index. */
  datatype File = Text(text: string) | Tsv(table: Table)

  const ParticipantsTsv: string := "participants.tsv"

  /** The root files copied into the BIDS folder when it lacks them, in order. */
  const RootFiles: seq<string> := ["README", "dataset_description.json", ParticipantsTsv]

  /** A `sub-*` entry found by glob, with its `ses-*` entries in sorted order. */
  datatype SubjectDir = SubjectDir(name: string, sessions: seq<string>)

  /** The BIDS work folder that the conversion left behind. */
  datatype WorkFolder = WorkFolder(
    subjects: seq<SubjectDir>,        // the `sub-*` entries of the work folder
    derivatives: seq<SubjectDir>,     // the `sub-*` entries of its derivatives/qsiprep folder
    root: map<string, File>,          // the files in its root
    files: map<seq<string>, string>)  // every file below it, by relative path, with its content

  /** What the external tools did, as seen from the job. */
  datatype Tools = Tools(
    conversion: Result<WorkFolder, string>,  // bidscoiner: the work folder, or the text of what it raised
    mriqc: Option<string>,                   // what mriqc_run raised, if it raised
    qsiprep: Option<string>,                 // what qsiprep_run raised, if it runs and raises
    reports: set<string>)                    // names of the files in the MRIQC folder after the runs

  /** The arguments of `main`, and the machine's temporary folder. */
  datatype JobArgs = JobArgs(raw: Path, bids: Path, mriqc: Path, qsiprep: string, tmp: Path)

  /** Everything on disk that one job reads or writes. */
  datatype Disk = Disk(
    logs: map<string, string>,              // marker files in <mriqcfolder.parent>/logs
    root: map<string, File>,                // root files of the BIDS folder
    tree: map<string, set<string>>,         // its `sub-*` folders and their `ses-*` folders
    derivatives: map<string, set<string>>,  // the same for its derivatives/qsiprep folder
    work: map<seq<string>, string>,         // files of the BIDS work folder
    bidsFolder: bool)                       // whether the BIDS folder itself exists

  /** A BIDS folder that does not exist holds no root files and no folders. */
  predicate Consistent(d: Disk) {
    !d.bidsFolder ==> d.root == map[] && d.tree == map[] && d.derivatives == map[]
  }

  // ---------------------------------------------------------------- markers

  /** `<rawfolder.parent.name>_<rawfolder.name>.<state>` */
  function UnitMarker(raw: Path, state: string): string {
    raw.Parent().Name() + "_" + raw.Name() + "." + state
  }

  function Running(raw: Path): string { UnitMarker(raw, "running") }
  function Empty(raw: Path): string { UnitMarker(raw, "empty") }
  function Failed(raw: Path): string { UnitMarker(raw, "failed") }

  /** `<mriqcfolder.name>.meta`: the project awaits its metadata. */
  function MetaMarker(mriqc: Path): string { mriqc.Name() + ".meta" }

  /** What a failed marker holds. */
  function FailureText(bids: Path, e: Error): string {
    "Error(s) from processing " + Posix(bids) + ":\n" + Message(e)
  }

  /** `Path.rename`: the file moves to its new name with its content. */
  function Rename(files: map<string, string>, from: string, to: string): map<string, string>
    requires from in files
  {
    (files - {from})[to := files[from]]
  }

  /** The four marker names a job touches are four different files. */
  lemma MarkersDistinct(raw: Path, mriqc: Path)
    ensures Running(raw) != Empty(raw) && Running(raw) != Failed(raw) && Empty(raw) != Failed(raw)
    ensures MetaMarker(mriqc) != Running(raw) && MetaMarker(mriqc) != Empty(raw)
    ensures MetaMarker(mriqc) != Failed(raw)
  {
    var stem := raw.Parent().Name() + "_" + raw.Name() + ".";
    assert Running(raw) == stem + "running" && Running(raw)[|Running(raw)| - 1] == 'g';
    assert Empty(raw) == stem + "empty" && Empty(raw)[|Empty(raw)| - 1] == 'y';
    assert Failed(raw) == stem + "failed" && Failed(raw)[|Failed(raw)| - 1] == 'd';
    assert MetaMarker(mriqc)[|MetaMarker(mriqc)| - 1] == 'a';
  }

  // ---------------------------------------------------------------- shadow

  /** The dummy subject and session labels made for an unstructured folder,
      one whose name holds '^': the subject is the whole name and the session
      the piece after its first '_' (IndexError when there is none). Other
      folders get none. */
  function Shadow(name: string): Result<Option<(string, string)>, Error> {
    if '^' !in name then Success(None)
    else
      var pieces := Split(name, '_');
      if |pieces| < 2 then Failure(IndexOutOfRange) else Success(Some((name, pieces[1])))
  }

  /** The shadow session is the text between the first and the second '_'. */
  lemma ShadowLabels(a: string, b: string, rest: string)
    requires '_' !in a && '_' !in b
    requires rest == "" || rest[0] == '_'
    requires '^' in a + "_" + b + rest
    ensures Shadow(a + "_" + b + rest) == Success(Some((a + "_" + b + rest, b)))
  {
    var name := a + "_" + b + rest;
    assert name == a + ['_'] + (b + rest);
    SplitAt(a, b + rest, '_');
    if rest == "" {
      SplitWithout(b, '_');
      assert b + rest == b;
    } else {
      assert b + rest == b + ['_'] + rest[1..];
      SplitAt(b, rest[1..], '_');
    }
  }

  /** A shadow split fails exactly for a '^' name without any '_'. */
  lemma ShadowFails(name: string)
    ensures Shadow(name).Failure? <==> '^' in name && '_' !in name
    ensures Shadow(name).Failure? ==> Shadow(name).error == IndexOutOfRange
  {
    var pieces := Split(name, '_');
    SplitJoin(name, '_');
    if '_' !in name {
      SplitWithout(name, '_');
    }
  }

  // ---------------------------------------------------------------- work folder

  /** The glob `sub-*.nii*`. */
  predicate IsNiftiName(name: string) {
    StartsWith(name, "sub-") && Contains(name[4..], ".nii")
  }

  predicate IsNifti(path: seq<string>) {
    |path| > 0 && IsNiftiName(path[|path| - 1])
  }

  /** The work folder once every NIfTI image is replaced by an empty dummy. */
  function Blanked(files: map<seq<string>, string>): map<seq<string>, string> {
    map p | p in files :: if IsNifti(p) then "" else files[p]
  }

  /** The glob `sub-*.html` finds a file. */
  predicate HasReport(names: set<string>) {
    exists n | n in names :: |n| >= 9 && StartsWith(n, "sub-") && EndsWith(n, ".html")
  }

  function WorkPath(a: JobArgs): Path { a.tmp.Div(a.bids.Name()) }

  function QsiprepPath(bids: Path): Path { bids.Div("derivatives").Div("qsiprep") }

  // ---------------------------------------------------------------- participants

  /** `pd.read_csv(..., index_col='participant_id')` of a root file. */
  function ReadParticipants(f: File): Result<Table, Error> {
    match f
    case Tsv(t) => Success(t)
    case Text(_) => Failure(IndexColumnMissing("participant_id"))
  }

  /** The participants update: only when the BIDS folder has a participants
      file, the work folder's participants are merged into it. */
  function MergeParticipants(root: map<string, File>, w: WorkFolder, workPath: Path): Result<map<string, File>, Error> {
    if ParticipantsTsv !in root then Success(root)
    else
      match ReadParticipants(root[ParticipantsTsv])
      case Failure(e) => Failure(e)
      case Success(existing) =>
        if ParticipantsTsv !in w.root then Failure(FileNotFound(workPath.Div(ParticipantsTsv)))
        else
          match ReadParticipants(w.root[ParticipantsTsv])
          case Failure(e) => Failure(e)
          case Success(incoming) => Success(root[ParticipantsTsv := Tsv(Merge(existing, incoming))])
  }

  // ---------------------------------------------------------------- copies

  /** The root-file loop: each name the BIDS folder lacks is copied from the
      work folder. `shutil.copy` opens the source first, so a name missing
      there raises FileNotFoundError on the source; a BIDS folder that does
      not exist makes it raise on the destination. The copies made so far
      are kept. */
  function CopyAbsent(root: map<string, File>, src: map<string, File>, srcDir: Path,
                      destDir: Path, destExists: bool, names: seq<string>)
    : (map<string, File>, Option<Error>)
    decreases |names|
  {
    if |names| == 0 then (root, None)
    else if names[0] in root then CopyAbsent(root, src, srcDir, destDir, destExists, names[1..])
    else if names[0] !in src then (root, Some(FileNotFound(srcDir.Div(names[0]))))
    else if !destExists then (root, Some(FileNotFound(destDir.Div(names[0]))))
    else CopyAbsent(root[names[0] := src[names[0]]], src, srcDir, destDir, destExists, names[1..])
  }

  /** The copy of the three root files from the work folder into the BIDS folder. */
  function RootCopy(root: map<string, File>, a: JobArgs, w: WorkFolder, bidsFolder: bool): (map<string, File>, Option<Error>) {
    CopyAbsent(root, w.root, WorkPath(a), a.bids, bidsFolder, RootFiles)
  }

  /** Files already present are never overwritten; every new file is the
      source's; nothing is copied into a folder that does not exist; the copy
      completes every name unless a source file or the destination folder is
      missing, and the error names the file that could not be opened. */
  lemma {:induction false} CopyAbsentSpec(root: map<string, File>, src: map<string, File>, srcDir: Path,
                                          destDir: Path, destExists: bool, names: seq<string>)
    ensures var (r, e) := CopyAbsent(root, src, srcDir, destDir, destExists, names);
            forall n :: n in root ==> n in r && r[n] == root[n]
    ensures var (r, e) := CopyAbsent(root, src, srcDir, destDir, destExists, names);
            forall n :: n in r && n !in root ==> n in names && n in src && r[n] == src[n]
    ensures !destExists ==> CopyAbsent(root, src, srcDir, destDir, destExists, names).0 == root
    ensures var (r, e) := CopyAbsent(root, src, srcDir, destDir, destExists, names);
            e.None? <==> forall n :: n in names ==> n in r
    ensures var (r, e) := CopyAbsent(root, src, srcDir, destDir, destExists, names);
            e.Some? ==>
              exists n :: n in names && n !in root &&
                          ((n !in src && e.value == FileNotFound(srcDir.Div(n))) ||
                           (n in src && !destExists && e.value == FileNotFound(destDir.Div(n))))
    decreases |names|
  {
    if |names| > 0 {
      assert forall n :: n in names <==> n == names[0] || n in names[1..];
      if names[0] in root {
        CopyAbsentSpec(root, src, srcDir, destDir, destExists, names[1..]);
      } else if names[0] in src && destExists {
        CopyAbsentSpec(root[names[0] := src[names[0]]], src, srcDir, destDir, destExists, names[1..]);
      }
    }
  }

  /** The copy of one subject's sessions: copytree raises FileExistsError on a
      session folder that is already there, keeping the copies made so far. */
  function CopySessions(tree: map<string, set<string>>, sub: string, sessions: seq<string>, dest: Path)
    : (r: (map<string, set<string>>, Option<Error>))
    requires sub in tree
    ensures sub in r.0
    decreases |sessions|
  {
    if |sessions| == 0 then (tree, None)
    else if sessions[0] in tree[sub] then (tree, Some(FileExists(dest.Div(sub).Div(sessions[0]))))
    else CopySessions(tree[sub := tree[sub] + {sessions[0]}], sub, sessions[1..], dest)
  }

  /** The copy loop over `sub-*` entries: each gets its folder (an existing one
      is kept) and then its sessions. */
  function CopySubjects(tree: map<string, set<string>>, subjects: seq<SubjectDir>, dest: Path)
    : (map<string, set<string>>, Option<Error>)
    decreases |subjects|
  {
    if |subjects| == 0 then (tree, None)
    else
      var s := subjects[0];
      var withSub := tree[s.name := if s.name in tree then tree[s.name] else {}];
      var r := CopySessions(withSub, s.name, s.sessions, dest);
      if r.1.Some? then r else CopySubjects(r.0, subjects[1..], dest)
  }

  /** A folder tree only grows: no subject and no session is ever removed. */
  predicate Grows(before: map<string, set<string>>, after: map<string, set<string>>) {
    forall k :: k in before ==> k in after && before[k] <= after[k]
  }

  lemma {:induction false} CopySessionsSpec(tree: map<string, set<string>>, sub: string, sessions: seq<string>, dest: Path)
    requires sub in tree
    ensures Grows(tree, CopySessions(tree, sub, sessions, dest).0)
    ensures CopySessions(tree, sub, sessions, dest).1.None? ==>
              forall s :: s in sessions ==> s in CopySessions(tree, sub, sessions, dest).0[sub]
    ensures CopySessions(tree, sub, sessions, dest).1.Some? ==>
              exists s :: s in sessions && s in CopySessions(tree, sub, sessions, dest).0[sub] &&
                          CopySessions(tree, sub, sessions, dest).1.value == FileExists(dest.Div(sub).Div(s))
    decreases |sessions|
  {
    if |sessions| > 0 && sessions[0] !in tree[sub] {
      CopySessionsSpec(tree[sub := tree[sub] + {sessions[0]}], sub, sessions[1..], dest);
      assert forall s :: s in sessions <==> s == sessions[0] || s in sessions[1..];
    }
  }

  /** The copies never remove anything; a copy that completes holds every
      session of every subject; a copy stops only on a session already there. */
  lemma {:induction false} CopySubjectsSpec(tree: map<string, set<string>>, subjects: seq<SubjectDir>, dest: Path)
    ensures Grows(tree, CopySubjects(tree, subjects, dest).0)
    ensures CopySubjects(tree, subjects, dest).1.None? ==>
              forall i, s :: 0 <= i < |subjects| && s in subjects[i].sessions ==>
                subjects[i].name in CopySubjects(tree, subjects, dest).0 &&
                s in CopySubjects(tree, subjects, dest).0[subjects[i].name]
    ensures CopySubjects(tree, subjects, dest).1.Some? ==> CopySubjects(tree, subjects, dest).1.value.FileExists?
    decreases |subjects|
  {
    if |subjects| > 0 {
      var s := subjects[0];
      var withSub := tree[s.name := if s.name in tree then tree[s.name] else {}];
      CopySessionsSpec(withSub, s.name, s.sessions, dest);
      var r := CopySessions(withSub, s.name, s.sessions, dest);
      if r.1.None? {
        CopySubjectsSpec(r.0, subjects[1..], dest);
        var final := CopySubjects(tree, subjects, dest).0;
        assert CopySubjects(tree, subjects, dest) == CopySubjects(r.0, subjects[1..], dest);
        if CopySubjects(tree, subjects, dest).1.None? {
          forall i, x | 0 <= i < |subjects| && x in subjects[i].sessions
            ensures subjects[i].name in final && x in final[subjects[i].name]
          {
            if i > 0 {
              assert subjects[1..][i - 1] == subjects[i];
              assert x in subjects[1..][i - 1].sessions;
            } else {
              assert x in s.sessions;
              assert Grows(r.0, final);
            }
          }
        }
      }
    }
  }

  /** The root-file loop as written. */
  method CopyRootFiles(root: map<string, File>, src: map<string, File>, srcDir: Path, destDir: Path, destExists: bool)
    returns (result: map<string, File>, error: Option<Error>)
    ensures (result, error) == CopyAbsent(root, src, srcDir, destDir, destExists, RootFiles)
  {
    result := root;
    var i := 0;
    while i < |RootFiles|
      invariant 0 <= i <= |RootFiles|
      invariant CopyAbsent(result, src, srcDir, destDir, destExists, RootFiles[i..]) ==
                CopyAbsent(root, src, srcDir, destDir, destExists, RootFiles)
    {
      var name := RootFiles[i];
      assert RootFiles[i..][1..] == RootFiles[i + 1..];
      if name !in result {
        if name !in src {
          return result, Some(FileNotFound(srcDir.Div(name)));
        }
        if !destExists {
          return result, Some(FileNotFound(destDir.Div(name)));
        }
        result := result[name := src[name]];
      }
      i := i + 1;
    }
    error := None;
  }

  /** The session copy loops as written: one loop over subjects, one over
      each subject's sessions. */
  method CopySubjectTrees(tree: map<string, set<string>>, subjects: seq<SubjectDir>, dest: Path)
    returns (result: map<string, set<string>>, error: Option<Error>)
    ensures (result, error) == CopySubjects(tree, subjects, dest)
  {
    result := tree;
    var i := 0;
    while i < |subjects|
      invariant 0 <= i <= |subjects|
      invariant CopySubjects(result, subjects[i..], dest) == CopySubjects(tree, subjects, dest)
    {
      var sub := subjects[i].name;
      assert subjects[i..][1..] == subjects[i + 1..];
      result := result[sub := if sub in result then result[sub] else {}];
      var sessions := subjects[i].sessions;
      var j := 0;
      while j < |sessions|
        invariant 0 <= j <= |sessions|
        invariant sub in result
        invariant var r := CopySessions(result, sub, sessions[j..], dest);
                  (if r.1.Some? then r else CopySubjects(r.0, subjects[i + 1..], dest)) ==
                  CopySubjects(tree, subjects, dest)
      {
        var ses := sessions[j];
        assert sessions[j..][1..] == sessions[j + 1..];
        if ses in result[sub] {
          return result, Some(FileExists(dest.Div(sub).Div(ses)));
        }
        result := result[sub := result[sub] + {ses}];
        j := j + 1;
      }
      i := i + 1;
    }
    error := None;
  }

  // ---------------------------------------------------------------- the job

  /** How the try block ends: normally, or by raising with the disk as it was then. */
  datatype Step = Finished(disk: Disk) | Raised(disk: Disk, error: Error)

  /** The try block of `main`, run with the running marker in place. */
  function Attempt(d: Disk, a: JobArgs, t: Tools): Step
    requires Running(a.raw) in d.logs
  {
    match Shadow(a.raw.Name())
    case Failure(e) => Raised(d, e)
    case Success(_) =>
      match t.conversion
      case Failure(text) => Raised(d, External(text))
      case Success(w) =>
        var d1 := d.(work := w.files);
        if |w.subjects| == 0 then
          Finished(d1.(logs := Rename(d1.logs, Running(a.raw), Empty(a.raw))))
        else if t.mriqc.Some? then Raised(d1, External(t.mriqc.value))
        else if a.qsiprep == "True" && t.qsiprep.Some? then Raised(d1, External(t.qsiprep.value))
        else Publish(d1.(work := Blanked(w.files)), a, t, w)
  }

  /** The second half of the try block, once MRIQC has run and the images are
      blanked: the participants merge and the copy of the root files. */
  function Publish(d: Disk, a: JobArgs, t: Tools, w: WorkFolder): Step
    requires Running(a.raw) in d.logs
  {
    match MergeParticipants(d.root, w, WorkPath(a))
    case Failure(e) => Raised(d, e)
    case Success(merged) =>
      var c := RootCopy(merged, a, w, d.bidsFolder);
      if c.1.Some? then Raised(d.(root := c.0), c.1.value)
      else Deliver(d.(root := c.0), a, t, w)
  }

  /** The end of the try block: the subject and derivative folders are copied
      and the marker is settled. */
  function Deliver(d: Disk, a: JobArgs, t: Tools, w: WorkFolder): Step
    requires Running(a.raw) in d.logs
  {
    var s := CopySubjects(d.tree, w.subjects, a.bids);
    if s.1.Some? then Raised(d.(tree := s.0), s.1.value)
    else
      var q := CopySubjects(d.derivatives, w.derivatives, QsiprepPath(a.bids));
      var d5 := d.(tree := s.0, derivatives := q.0);
      if q.1.Some? then Raised(d5, q.1.value)
      else if HasReport(t.reports) then
        Finished(d5.(logs := d5.logs[MetaMarker(a.mriqc) := ""] - {Running(a.raw)}))
      else
        Finished(d5.(logs := Rename(d5.logs, Running(a.raw), Empty(a.raw))))
  }

  /** The disk once the running marker holds the BIDS folder. */
  function Started(d: Disk, a: JobArgs): Disk {
    d.(logs := d.logs[Running(a.raw) := Posix(a.bids)])
  }

  /** The except clause: the running marker becomes the failed one, holding
      the error. */
  function FailedLogs(logs: map<string, string>, a: JobArgs, e: Error): map<string, string> {
    (logs - {Running(a.raw)})[Failed(a.raw) := FailureText(a.bids, e)]
  }

  /** `main`: write the running marker, run the try block, and on an
      exception turn the marker into a failed one holding the error. */
  function Run(d: Disk, a: JobArgs, t: Tools): Disk {
    var d0 := Started(d, a);
    match Attempt(d0, a, t)
    case Finished(d1) => d1
    case Raised(d1, e) => d1.(logs := FailedLogs(d1.logs, a, e))
  }

  /** Every exception of the try block ends the job with the failed marker
      holding that exception, the rest of the disk as the raise left it; a
      raise adds no empty marker and a normal end adds no failed one. */
  lemma RaiseEndsFailed(d: Disk, a: JobArgs, t: Tools)
    ensures var step := Attempt(Started(d, a), a, t);
            step.Raised? ==> Run(d, a, t) == step.disk.(logs := FailedLogs(d.logs, a, step.error))
    ensures Attempt(Started(d, a), a, t).Raised? ==> (Empty(a.raw) in Run(d, a, t).logs <==> Empty(a.raw) in d.logs)
    ensures Attempt(Started(d, a), a, t).Finished? ==> (Failed(a.raw) in Run(d, a, t).logs <==> Failed(a.raw) in d.logs)
  {
    MarkersDistinct(a.raw, a.mriqc);
    var d0 := Started(d, a);
    var step := Attempt(d0, a, t);
    AttemptSpec(d0, a, t);
    var running := Running(a.raw);
    assert d0.logs - {running} == d.logs - {running};
    if step.Raised? {
      assert step.disk.logs == d0.logs;
      assert FailedLogs(step.disk.logs, a, step.error) == FailedLogs(d.logs, a, step.error);
    }
  }

  /** The tools' exceptions: a failed conversion fails the job with the disk
      as it was; a failed MRIQC run, or a failed QSIPrep run when it was asked
      for, fails it with the work folder converted and nothing copied. */
  lemma ToolFailuresEndFailed(d: Disk, a: JobArgs, t: Tools)
    requires Shadow(a.raw.Name()).Success?
    ensures t.conversion.Failure? ==>
              Run(d, a, t) == d.(logs := FailedLogs(d.logs, a, External(t.conversion.error)))
    ensures t.conversion.Success? && |t.conversion.value.subjects| > 0 && t.mriqc.Some? ==>
              Run(d, a, t) ==
              d.(work := t.conversion.value.files, logs := FailedLogs(d.logs, a, External(t.mriqc.value)))
    ensures t.conversion.Success? && |t.conversion.value.subjects| > 0 && t.mriqc.None? &&
            a.qsiprep == "True" && t.qsiprep.Some? ==>
              Run(d, a, t) ==
              d.(work := t.conversion.value.files, logs := FailedLogs(d.logs, a, External(t.qsiprep.value)))
  {
    RaiseEndsFailed(d, a, t);
  }

  // ---------------------------------------------------------------- what a job leaves behind

  /** The logs end in one of two ways, all other fields as `d`'s at most grown. */
  predicate SettlesLogs(d: Disk, step: Step, a: JobArgs, t: Tools)
    requires Running(a.raw) in d.logs
  {
    (step.Raised? ==> step.disk.logs == d.logs) &&
    (step.Finished? ==>
       step.disk.logs == Rename(d.logs, Running(a.raw), Empty(a.raw)) ||
       (HasReport(t.reports) && step.disk.logs == d.logs[MetaMarker(a.mriqc) := ""] - {Running(a.raw)}))
  }

  /** How the end of the try block leaves the logs: untouched when it raises;
      with a `sub-*.html` report, the project's meta marker is written empty
      and the running marker removed; without one, the running marker becomes
      the empty marker. */
  predicate Concludes(d: Disk, step: Step, a: JobArgs, t: Tools)
    requires Running(a.raw) in d.logs
  {
    (step.Raised? ==> step.disk.logs == d.logs) &&
    (step.Finished? && HasReport(t.reports) ==>
       step.disk.logs == d.logs[MetaMarker(a.mriqc) := ""] - {Running(a.raw)}) &&
    (step.Finished? && !HasReport(t.reports) ==>
       step.disk.logs == Rename(d.logs, Running(a.raw), Empty(a.raw)))
  }

  /** The tree copies keep the root files and the work folder, only grow the
      folders, and conclude the logs by the report; when they finish, every
      session is copied. */
  lemma DeliverSpec(d: Disk, a: JobArgs, t: Tools, w: WorkFolder)
    requires Running(a.raw) in d.logs
    ensures Deliver(d, a, t, w).disk.root == d.root && Deliver(d, a, t, w).disk.work == d.work
    ensures Grows(d.tree, Deliver(d, a, t, w).disk.tree)
    ensures Grows(d.derivatives, Deliver(d, a, t, w).disk.derivatives)
    ensures Deliver(d, a, t, w).disk.bidsFolder == d.bidsFolder
    ensures Concludes(d, Deliver(d, a, t, w), a, t)
    ensures Deliver(d, a, t, w).Finished? ==>
              forall i, s :: 0 <= i < |w.subjects| && s in w.subjects[i].sessions ==>
                w.subjects[i].name in Deliver(d, a, t, w).disk.tree &&
                s in Deliver(d, a, t, w).disk.tree[w.subjects[i].name]
  {
    CopySubjectsSpec(d.tree, w.subjects, a.bids);
    CopySubjectsSpec(d.derivatives, w.derivatives, QsiprepPath(a.bids));
  }

  /** The merge and the root copies keep the work folder; the root either
      stays or becomes the copy over the merged participants. */
  lemma PublishSpec(d: Disk, a: JobArgs, t: Tools, w: WorkFolder)
    requires Running(a.raw) in d.logs
    ensures Publish(d, a, t, w).disk.work == d.work
    ensures Grows(d.tree, Publish(d, a, t, w).disk.tree)
    ensures Grows(d.derivatives, Publish(d, a, t, w).disk.derivatives)
    ensures Publish(d, a, t, w).disk.bidsFolder == d.bidsFolder
    ensures Concludes(d, Publish(d, a, t, w), a, t)
    ensures Publish(d, a, t, w).disk.root == d.root ||
            (MergeParticipants(d.root, w, WorkPath(a)).Success? &&
             Publish(d, a, t, w).disk.root ==
               RootCopy(MergeParticipants(d.root, w, WorkPath(a)).value, a, w, d.bidsFolder).0)
    ensures Publish(d, a, t, w).Finished? ==>
              MergeParticipants(d.root, w, WorkPath(a)).Success? &&
              RootCopy(MergeParticipants(d.root, w, WorkPath(a)).value, a, w, d.bidsFolder).1.None? &&
              Publish(d, a, t, w).disk.root ==
                RootCopy(MergeParticipants(d.root, w, WorkPath(a)).value, a, w, d.bidsFolder).0 &&
              forall i, s :: 0 <= i < |w.subjects| && s in w.subjects[i].sessions ==>
                w.subjects[i].name in Publish(d, a, t, w).disk.tree &&
                s in Publish(d, a, t, w).disk.tree[w.subjects[i].name]
  {
    match MergeParticipants(d.root, w, WorkPath(a))
    case Failure(e) =>
    case Success(merged) =>
      var c := RootCopy(merged, a, w, d.bidsFolder);
      if c.1.None? {
        DeliverSpec(d.(root := c.0), a, t, w);
      }
  }

  /** The try block touches the logs only at its two normal ends; once
      subjects were converted, the report decides which end. */
  lemma AttemptSpec(d: Disk, a: JobArgs, t: Tools)
    requires Running(a.raw) in d.logs
    ensures SettlesLogs(d, Attempt(d, a, t), a, t)
    ensures Shadow(a.raw.Name()).Success? && t.conversion.Success? && |t.conversion.value.subjects| > 0 ==>
              Concludes(d, Attempt(d, a, t), a, t)
    ensures Attempt(d, a, t).disk.bidsFolder == d.bidsFolder
    ensures Grows(d.tree, Attempt(d, a, t).disk.tree)
    ensures Grows(d.derivatives, Attempt(d, a, t).disk.derivatives)
  {
    if Shadow(a.raw.Name()).Success? && t.conversion.Success? {
      var w := t.conversion.value;
      if |w.subjects| > 0 && t.mriqc.None? && !(a.qsiprep == "True" && t.qsiprep.Some?) {
        PublishSpec(d.(work := Blanked(w.files)), a, t, w);
      }
    }
  }

  /** Every job ends without its running marker; an empty marker keeps the
      BIDS folder written at the start, a failed one holds the error text, and
      terminal markers of earlier runs stay. Markers of other units and
      projects are untouched. */
  lemma RunMarkers(d: Disk, a: JobArgs, t: Tools)
    ensures Running(a.raw) !in Run(d, a, t).logs
    ensures Empty(a.raw) in Run(d, a, t).logs && Empty(a.raw) !in d.logs ==>
              Run(d, a, t).logs[Empty(a.raw)] == Posix(a.bids)
    ensures Failed(a.raw) in Run(d, a, t).logs && Failed(a.raw) !in d.logs ==>
              Attempt(Started(d, a), a, t).Raised? &&
              Run(d, a, t).logs[Failed(a.raw)] == FailureText(a.bids, Attempt(Started(d, a), a, t).error)
    ensures Empty(a.raw) in d.logs ==> Empty(a.raw) in Run(d, a, t).logs
    ensures Failed(a.raw) in d.logs ==> Failed(a.raw) in Run(d, a, t).logs
    ensures forall k :: k != Running(a.raw) && k != Empty(a.raw) && k != Failed(a.raw) && k != MetaMarker(a.mriqc) ==>
              (k in Run(d, a, t).logs <==> k in d.logs) &&
              (k in d.logs ==> Run(d, a, t).logs[k] == d.logs[k])
  {
    MarkersDistinct(a.raw, a.mriqc);
    var d0 := Started(d, a);
    AttemptSpec(d0, a, t);
    RaiseEndsFailed(d, a, t);
  }

  /** A unit that starts without a terminal marker ends with at most one of
      running, empty and failed; with none of them it completed: a `sub-*.html`
      report exists and the project's meta marker is written, empty. Conversely
      a finished job with converted subjects and a report ends with the meta
      marker and neither an empty nor a failed one. */
  lemma AtMostOneMarker(d: Disk, a: JobArgs, t: Tools)
    requires Empty(a.raw) !in d.logs && Failed(a.raw) !in d.logs
    ensures Running(a.raw) !in Run(d, a, t).logs
    ensures !(Empty(a.raw) in Run(d, a, t).logs && Failed(a.raw) in Run(d, a, t).logs)
    ensures Empty(a.raw) !in Run(d, a, t).logs && Failed(a.raw) !in Run(d, a, t).logs ==>
              HasReport(t.reports) && MetaMarker(a.mriqc) in Run(d, a, t).logs &&
              Run(d, a, t).logs[MetaMarker(a.mriqc)] == ""
    ensures Shadow(a.raw.Name()).Success? && t.conversion.Success? && |t.conversion.value.subjects| > 0 &&
            Attempt(Started(d, a), a, t).Finished? && HasReport(t.reports) ==>
              Empty(a.raw) !in Run(d, a, t).logs && Failed(a.raw) !in Run(d, a, t).logs &&
              MetaMarker(a.mriqc) in Run(d, a, t).logs && Run(d, a, t).logs[MetaMarker(a.mriqc)] == ""
  {
    MarkersDistinct(a.raw, a.mriqc);
    var d0 := Started(d, a);
    AttemptSpec(d0, a, t);
    if Shadow(a.raw.Name()).Success? && t.conversion.Success? && |t.conversion.value.subjects| > 0 &&
       Attempt(d0, a, t).Finished? && HasReport(t.reports) {
      FinalMarker(d, a, t);
    }
  }

  /** Once subjects were converted and the try block raised nothing, the
      report alone decides the marker: with a `sub-*.html` report the running
      marker is removed and the project's meta marker written empty, and no
      empty marker appears; without one the running marker becomes the empty
      marker holding the BIDS folder. */
  lemma FinalMarker(d: Disk, a: JobArgs, t: Tools)
    requires Shadow(a.raw.Name()).Success? && t.conversion.Success? && |t.conversion.value.subjects| > 0
    requires Attempt(Started(d, a), a, t).Finished?
    ensures HasReport(t.reports) ==>
              Run(d, a, t).logs == (d.logs - {Running(a.raw)})[MetaMarker(a.mriqc) := ""]
    ensures !HasReport(t.reports) ==>
              Run(d, a, t).logs == (d.logs - {Running(a.raw)})[Empty(a.raw) := Posix(a.bids)]
  {
    var step := Attempt(Started(d, a), a, t);
    AttemptSpec(Started(d, a), a, t);
    assert Run(d, a, t) == step.disk;
    ConcludedLogs(d, a, t, step);
  }

  /** The map arithmetic behind `FinalMarker`: a finished step that concludes
      the logs of the started disk. */
  lemma ConcludedLogs(d: Disk, a: JobArgs, t: Tools, step: Step)
    requires step.Finished? && Concludes(Started(d, a), step, a, t)
    ensures HasReport(t.reports) ==>
              step.disk.logs == (d.logs - {Running(a.raw)})[MetaMarker(a.mriqc) := ""]
    ensures !HasReport(t.reports) ==>
              step.disk.logs == (d.logs - {Running(a.raw)})[Empty(a.raw) := Posix(a.bids)]
  {
    MarkersDistinct(a.raw, a.mriqc);
    var d0 := Started(d, a);
    var running := Running(a.raw);
    assert d0.logs - {running} == d.logs - {running};
    if HasReport(t.reports) {
      assert d0.logs[MetaMarker(a.mriqc) := ""] - {running} == (d0.logs - {running})[MetaMarker(a.mriqc) := ""];
    }
  }

  /** The first root-file copy into a missing BIDS folder: README is missing
      in the work folder, or else in the BIDS folder that is not there. */
  function MissingReadme(a: JobArgs, w: WorkFolder): Error {
    if "README" in w.root then FileNotFound(a.bids.Div("README")) else FileNotFound(WorkPath(a).Div("README"))
  }

  /** A unit of a BIDS folder that does not exist yet never completes: the
      first root file cannot be copied into it, nothing is copied, the folder
      is not made, and the job ends with a failed or an empty marker. */
  lemma MissingBidsFolderFails(d: Disk, a: JobArgs, t: Tools)
    requires !d.bidsFolder && d.root == map[]
    ensures Run(d, a, t).root == map[] && !Run(d, a, t).bidsFolder
    ensures Run(d, a, t).tree == d.tree && Run(d, a, t).derivatives == d.derivatives
    ensures Failed(a.raw) in Run(d, a, t).logs || Empty(a.raw) in Run(d, a, t).logs
    ensures Shadow(a.raw.Name()).Success? && t.conversion.Success? && |t.conversion.value.subjects| > 0 &&
            t.mriqc.None? && !(a.qsiprep == "True" && t.qsiprep.Some?) ==>
              Run(d, a, t).logs == FailedLogs(d.logs, a, MissingReadme(a, t.conversion.value))
  {
    var d0 := Started(d, a);
    AttemptSpec(d0, a, t);
    RaiseEndsFailed(d, a, t);
    if Shadow(a.raw.Name()).Success? && t.conversion.Success? {
      var w := t.conversion.value;
      if |w.subjects| > 0 && t.mriqc.None? && !(a.qsiprep == "True" && t.qsiprep.Some?) {
        var d2 := d0.(work := Blanked(w.files));
        assert Attempt(d0, a, t) == Publish(d2, a, t, w);
        assert MergeParticipants(d2.root, w, WorkPath(a)) == Success(d.root);
        CopyAbsentSpec(d.root, w.root, WorkPath(a), a.bids, false, RootFiles);
        assert RootFiles[0] == "README";
        assert RootCopy(d.root, a, w, false).1 == Some(MissingReadme(a, w));
        assert Publish(d2, a, t, w).Raised?;
      }
    }
  }

  /** A job keeps the disk consistent: it only makes subject folders after
      the root files were copied into an existing BIDS folder. */
  lemma RunConsistent(d: Disk, a: JobArgs, t: Tools)
    requires Consistent(d)
    ensures Consistent(Run(d, a, t))
    ensures Run(d, a, t).bidsFolder == d.bidsFolder
  {
    AttemptSpec(Started(d, a), a, t);
    if !d.bidsFolder {
      MissingBidsFolderFails(d, a, t);
    }
  }

  /** Markers left by an earlier run are not cleared: a unit that failed
      before and now converts to no subject carries both a failed and an empty
      marker. */
  lemma StaleMarkerKept(d: Disk, a: JobArgs, t: Tools, w: WorkFolder)
    requires Failed(a.raw) in d.logs
    requires Shadow(a.raw.Name()).Success? && t.conversion == Success(w) && |w.subjects| == 0
    ensures Failed(a.raw) in Run(d, a, t).logs && Empty(a.raw) in Run(d, a, t).logs
  {
    MarkersDistinct(a.raw, a.mriqc);
  }

  /** A conversion without subject data turns the running marker into an
      empty one with the same content and returns before MRIQC and before any
      copy: the BIDS folder is left as it was. */
  lemma NoSubjectsEndsEmpty(d: Disk, a: JobArgs, t: Tools, w: WorkFolder)
    requires Shadow(a.raw.Name()).Success? && t.conversion == Success(w) && |w.subjects| == 0
    ensures Run(d, a, t) ==
            d.(work := w.files, logs := (d.logs - {Running(a.raw)})[Empty(a.raw) := Posix(a.bids)])
  {
    var running := Running(a.raw);
    assert d.logs[running := Posix(a.bids)] - {running} == d.logs - {running};
  }

  /** An unstructured folder name without '_' fails the job before anything
      else happens: the marker becomes a failed one holding the IndexError. */
  lemma UnderscorelessShadowFails(d: Disk, a: JobArgs, t: Tools)
    requires '^' in a.raw.Name() && '_' !in a.raw.Name()
    ensures Run(d, a, t) == d.(logs := FailedLogs(d.logs, a, IndexOutOfRange))
  {
    ShadowFails(a.raw.Name());
    var running := Running(a.raw);
    assert d.logs[running := Posix(a.bids)] - {running} == d.logs - {running};
  }

  /** Once MRIQC has run, every `sub-*.nii*` file of the work folder is an
      empty dummy and every other file is as the conversion left it. */
  lemma WorkFolderBlanked(d: Disk, a: JobArgs, t: Tools, w: WorkFolder)
    requires Shadow(a.raw.Name()).Success? && t.conversion == Success(w) && |w.subjects| > 0
    requires t.mriqc.None? && (a.qsiprep == "True" ==> t.qsiprep.None?)
    ensures Run(d, a, t).work == Blanked(w.files)
  {
    var d0 := Started(d, a);
    var d2 := d0.(work := Blanked(w.files));
    PublishSpec(d2, a, t, w);
    assert Attempt(d0, a, t) == Publish(d2, a, t, w);
  }

  /** Blanking keeps every file, empties the NIfTI images and leaves the
      others as they were. */
  lemma BlankedSpec(files: map<seq<string>, string>)
    ensures Blanked(files).Keys == files.Keys
    ensures forall p :: p in files ==> Blanked(files)[p] == if IsNifti(p) then "" else files[p]
  {
  }

  /** The root after a job is the old root, or the root-file copy over the
      merged participants of the work folder. */
  lemma RunRoot(d: Disk, a: JobArgs, t: Tools)
    ensures Run(d, a, t).root == d.root ||
            (t.conversion.Success? &&
             MergeParticipants(d.root, t.conversion.value, WorkPath(a)).Success? &&
             Run(d, a, t).root ==
               RootCopy(MergeParticipants(d.root, t.conversion.value, WorkPath(a)).value,
                        a, t.conversion.value, d.bidsFolder).0)
  {
    var d0 := Started(d, a);
    if Shadow(a.raw.Name()).Success? && t.conversion.Success? {
      var w := t.conversion.value;
      if |w.subjects| > 0 && t.mriqc.None? && !(a.qsiprep == "True" && t.qsiprep.Some?) {
        var d2 := d0.(work := Blanked(w.files));
        PublishSpec(d2, a, t, w);
        assert Attempt(d0, a, t) == Publish(d2, a, t, w);
      }
    }
  }

  /** The BIDS folder's own root files other than the participants table are
      never overwritten. */
  lemma RootFilesKept(d: Disk, a: JobArgs, t: Tools)
    ensures forall n :: n in d.root && n != ParticipantsTsv ==>
              n in Run(d, a, t).root && Run(d, a, t).root[n] == d.root[n]
  {
    RunRoot(d, a, t);
    if Run(d, a, t).root != d.root {
      var w := t.conversion.value;
      var merged := MergeParticipants(d.root, w, WorkPath(a)).value;
      CopyAbsentSpec(merged, w.root, WorkPath(a), a.bids, d.bidsFolder, RootFiles);
    }
  }

  /** An existing participants table stays; when it is a table, it only gains
      the new participants, its own rows unchanged. */
  lemma ParticipantsKept(d: Disk, a: JobArgs, t: Tools)
    requires ParticipantsTsv in d.root
    ensures ParticipantsTsv in Run(d, a, t).root
    ensures d.root[ParticipantsTsv].Text? ==> Run(d, a, t).root[ParticipantsTsv] == d.root[ParticipantsTsv]
    ensures d.root[ParticipantsTsv].Tsv? ==>
              Run(d, a, t).root[ParticipantsTsv].Tsv? &&
              forall k :: k in d.root[ParticipantsTsv].table.rows ==>
                k in Run(d, a, t).root[ParticipantsTsv].table.rows &&
                Run(d, a, t).root[ParticipantsTsv].table.rows[k] == d.root[ParticipantsTsv].table.rows[k]
  {
    RunRoot(d, a, t);
    if Run(d, a, t).root != d.root {
      var w := t.conversion.value;
      var merged := MergeParticipants(d.root, w, WorkPath(a)).value;
      CopyAbsentSpec(merged, w.root, WorkPath(a), a.bids, d.bidsFolder, RootFiles);
      MergeSpec(d.root[ParticipantsTsv].table, w.root[ParticipantsTsv].table);
    }
  }

  /** A root file the BIDS folder lacked can only be the work folder's copy. */
  lemma AbsentRootFilesCopied(d: Disk, a: JobArgs, t: Tools)
    ensures forall n :: n in Run(d, a, t).root && n !in d.root ==>
              n in RootFiles && t.conversion.Success? && n in t.conversion.value.root &&
              Run(d, a, t).root[n] == t.conversion.value.root[n]
  {
    RunRoot(d, a, t);
    if Run(d, a, t).root != d.root {
      var w := t.conversion.value;
      var merged := MergeParticipants(d.root, w, WorkPath(a)).value;
      CopyAbsentSpec(merged, w.root, WorkPath(a), a.bids, d.bidsFolder, RootFiles);
      assert merged.Keys == d.root.Keys;
    }
  }

  /** No subject or session folder of the BIDS folder is ever removed. */
  lemma FoldersOnlyGrow(d: Disk, a: JobArgs, t: Tools)
    ensures Grows(d.tree, Run(d, a, t).tree)
    ensures Grows(d.derivatives, Run(d, a, t).derivatives)
  {
    var d0 := Started(d, a);
    AttemptSpec(d0, a, t);
  }

  /** A job that ends with no terminal marker copied everything: all three
      root files are present and every converted session is in the BIDS folder. */
  lemma CompletedJobCopiedAll(d: Disk, a: JobArgs, t: Tools)
    requires Empty(a.raw) !in d.logs && Failed(a.raw) !in d.logs
    requires Empty(a.raw) !in Run(d, a, t).logs && Failed(a.raw) !in Run(d, a, t).logs
    ensures t.conversion.Success? && HasReport(t.reports)
    ensures forall n :: n in RootFiles ==> n in Run(d, a, t).root
    ensures forall i, s :: 0 <= i < |t.conversion.value.subjects| && s in t.conversion.value.subjects[i].sessions ==>
              var sub := t.conversion.value.subjects[i].name;
              sub in Run(d, a, t).tree && s in Run(d, a, t).tree[sub]
  {
    var d0 := Started(d, a);
    CompletedJobFinished(d, a, t);
    FinishedAttemptPublished(d0, a, t);
    var w := t.conversion.value;
    var d2 := d0.(work := Blanked(w.files));
    PublishSpec(d2, a, t, w);
    var merged := MergeParticipants(d.root, w, WorkPath(a)).value;
    CopyAbsentSpec(merged, w.root, WorkPath(a), a.bids, d.bidsFolder, RootFiles);
  }

  /** With no terminal marker before or after, the try block finished with a
      report and left no Empty marker. */
  lemma CompletedJobFinished(d: Disk, a: JobArgs, t: Tools)
    requires Empty(a.raw) !in d.logs && Failed(a.raw) !in d.logs
    requires Empty(a.raw) !in Run(d, a, t).logs && Failed(a.raw) !in Run(d, a, t).logs
    ensures var d0 := Started(d, a);
            Attempt(d0, a, t).Finished? && Empty(a.raw) !in Attempt(d0, a, t).disk.logs &&
            Run(d, a, t) == Attempt(d0, a, t).disk && HasReport(t.reports)
  {
    MarkersDistinct(a.raw, a.mriqc);
    var d0 := Started(d, a);
    AttemptSpec(d0, a, t);
  }

  /** A try block that finished without an Empty marker went through the
      participants merge and the copies. */
  lemma FinishedAttemptPublished(d: Disk, a: JobArgs, t: Tools)
    requires Running(a.raw) in d.logs
    requires Attempt(d, a, t).Finished? && Empty(a.raw) !in Attempt(d, a, t).disk.logs
    ensures t.conversion.Success?
    ensures Attempt(d, a, t) == Publish(d.(work := Blanked(t.conversion.value.files)), a, t, t.conversion.value)
  {
    assert Empty(a.raw) in Rename(d.logs, Running(a.raw), Empty(a.raw));
  }

  /** The disk a job works on; `main` updates it step by step. */
  class Site {
    var logs: map<string, string>
    var root: map<string, File>
    var tree: map<string, set<string>>
    var derivatives: map<string, set<string>>
    var work: map<seq<string>, string>
    var bidsFolder: bool

    function Snapshot(): Disk
      reads this
    {
      Disk(logs, root, tree, derivatives, work, bidsFolder)
    }

    constructor (d: Disk)
      ensures Snapshot() == d
    {
      logs, root, tree, derivatives, work, bidsFolder := d.logs, d.root, d.tree, d.derivatives, d.work, d.bidsFolder;
    }

    /** `main(rawfolder, bidsfolder, bidsmapfile, mriqcfolder, qsiprep)`. */
    method RunJob(a: JobArgs, t: Tools)
      modifies this
      ensures Snapshot() == Run(old(Snapshot()), a, t)
    {
      logs := logs[Running(a.raw) := Posix(a.bids)];
      var raised := Process(a, t);
      if raised.Some? {
        logs := FailedLogs(logs, a, raised.value);
      }
    }

    /** The try block; returns what it raised. */
    method Process(a: JobArgs, t: Tools) returns (raised: Option<Error>)
      requires Running(a.raw) in logs
      modifies this
      ensures Attempt(old(Snapshot()), a, t) ==
              if raised.None? then Finished(Snapshot()) else Raised(Snapshot(), raised.value)
    {
      // The shadow folder and its symlink are made in the temporary folder only.
      var labels := Shadow(a.raw.Name());
      if labels.Failure? {
        return Some(labels.error);
      }
      if t.conversion.Failure? {
        return Some(External(t.conversion.error));
      }
      var w := t.conversion.value;
      work := w.files;
      if |w.subjects| == 0 {
        logs := Rename(logs, Running(a.raw), Empty(a.raw));
        return None;
      }
      if t.mriqc.Some? {
        return Some(External(t.mriqc.value));
      }
      if a.qsiprep == "True" && t.qsiprep.Some? {
        return Some(External(t.qsiprep.value));
      }
      BlankNiftis();
      raised := PublishFiles(a, t, w);
    }

    /** The participants merge and the copy of the root files. */
    method PublishFiles(a: JobArgs, t: Tools, w: WorkFolder) returns (raised: Option<Error>)
      requires Running(a.raw) in logs
      modifies this
      ensures Publish(old(Snapshot()), a, t, w) ==
              if raised.None? then Finished(Snapshot()) else Raised(Snapshot(), raised.value)
    {
      raised := None;
      if ParticipantsTsv in root {
        var existing := ReadParticipants(root[ParticipantsTsv]);
        if existing.Failure? {
          return Some(existing.error);
        }
        if ParticipantsTsv !in w.root {
          return Some(FileNotFound(WorkPath(a).Div(ParticipantsTsv)));
        }
        var incoming := ReadParticipants(w.root[ParticipantsTsv]);
        if incoming.Failure? {
          return Some(incoming.error);
        }
        var merged := MergeTables(existing.value, incoming.value);
        root := root[ParticipantsTsv := Tsv(merged)];
      }
      root, raised := CopyRootFiles(root, w.root, WorkPath(a), a.bids, bidsFolder);
      if raised.Some? {
        return;
      }
      raised := DeliverFolders(a, t, w);
    }

    /** The copies of the subject and derivative folders, and the marker. */
    method DeliverFolders(a: JobArgs, t: Tools, w: WorkFolder) returns (raised: Option<Error>)
      requires Running(a.raw) in logs
      modifies this
      ensures Deliver(old(Snapshot()), a, t, w) ==
              if raised.None? then Finished(Snapshot()) else Raised(Snapshot(), raised.value)
    {
      tree, raised := CopySubjectTrees(tree, w.subjects, a.bids);
      if raised.Some? {
        return;
      }
      derivatives, raised := CopySubjectTrees(derivatives, w.derivatives, QsiprepPath(a.bids));
      if raised.Some? {
        return;
      }
      if HasReport(t.reports) {
        logs := logs[MetaMarker(a.mriqc) := ""];
        logs := logs - {Running(a.raw)};
      } else {
        logs := Rename(logs, Running(a.raw), Empty(a.raw));
      }
    }

    method BlankNiftis()
      modifies this
      ensures work == Blanked(old(work))
      ensures logs == old(logs) && root == old(root) && tree == old(tree) && derivatives == old(derivatives)
      ensures bidsFolder == old(bidsFolder)
    {
      work := BlankFiles(work);
    }
  }

  /** The loop that overwrites every NIfTI image of the work folder, one at a
      time, with an empty file. */
  method BlankFiles(files: map<seq<string>, string>) returns (blanked: map<seq<string>, string>)
    ensures blanked == Blanked(files)
  {
    blanked := files;
    var todo := set p | p in files && IsNifti(p);
    ghost var niftis := todo;
    while todo != {}
      invariant todo <= niftis
      invariant blanked.Keys == files.Keys
      invariant forall p :: p in blanked ==> blanked[p] == if p in niftis && p !in todo then "" else files[p]
      decreases todo
    {
      var p :| p in todo;
      blanked := blanked[p := ""];
      todo := todo - {p};
    }
    forall p | p in files ensures blanked[p] == Blanked(files)[p] {
      assert p in niftis <==> IsNifti(p);
    }
  }
}
