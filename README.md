# mriqc_all in Dafny

A model of the three tools of the mriqc_all repository that decide what the
catch-all MRI collection pipeline does, with proofs of what they promise.

- `run_mriqc_all` (mriqc_all.py) picks the date folders of the raw collection
  under `/project/3055010.01/raw`. It picks every `20*/20*` entry for `all`,
  and otherwise the folder `<YYYY>/<YYYYMMDD>` of a parsed date. It walks them
  newest first. It turns each entry into a unit to convert and run. A folder
  is processed in place. A file whose last suffix is `.zip`, `.gz` or `.tar` is
  given a temporary folder named after the file without two suffixes. A `.zip`
  is unpacked there, and so is any other name whose suffixes hold `.tar`. A
  plain `.gz` is not unpacked, so its folder never exists and removing it
  raises FileNotFoundError, which ends the run. Any other file is skipped.
  Module `MriqcAll` (discovery.dfy).
- `main` of mriqc_job.py runs one unit. It writes a `.running` marker. It
  converts the unit (through a shadow `sub-`/`ses-` layout when the folder
  name holds `^`). It runs MRIQC. It blanks every NIfTI image of the work
  folder, merges the participants table, copies the missing root files and the
  session folders, and turns the marker into `.empty`, `.failed` or the
  project's `.meta` marker. Module `MriqcJob` (job.dfy). The disk is the class
  `Site`. Each stage is a method proved equal to a specification function
  (`Run`, `Attempt`, `Publish`, `Deliver`), and the lemmas state what these
  functions guarantee.
- `copymetadata` and `mriqc_meta` of mriqc_meta.py fill the MRIQC group
  reports (`group_T1w.tsv`, `group_bold.tsv`). Each line gets `meta.Sex` and
  `meta.Age` from participants.tsv, `meta.AcquisitionTime` from the scans
  table, and one `meta.<attribute>` per JSON sidecar attribute. Module
  `MriqcMeta` (meta.dfy). The reports on disk are the class `ReportStore`.

Shared pieces:

- `Common` (common.dfy) holds the Python and pathlib behaviour the tools rely
  on: `str.split`, `in`, `suffix`, `stem`, `suffixes`, `as_posix`, decimal
  formatting, and the exceptions with their message texts.
- `Tables` (tables.dfy) holds pandas tables read with an index column, `.loc`,
  and the participants merge.
- `Ordering` (ordering.dfy) holds Python's order on paths and
  `sorted(..., reverse=True)`.

Outside effects are values passed in:

- The date parsers' answers.
- What bidscoiner, MRIQC and QSIPrep produced or raised (`Tools`).
- The directory listings (`Fs`).
- The source tables and sidecars (`Sources`).

Notable behaviour of the code:

- `copymetadata` raises on a missing subject, scans table, scan line or
  sidecar. It does not skip the line. The exception ends `mriqc_meta` with the
  reports written so far.
- Stale terminal markers are not cleared. A unit that failed before and now
  converts to no subject carries both `.failed` and `.empty`
  (`MriqcJob.StaleMarkerKept`). "At most one marker" holds only for a unit
  that starts without one (`MriqcJob.AtMostOneMarker`).
- An unparseable date or a missing date folder makes `run_mriqc_all` return
  with nothing processed. It does not raise.
- `mriqc_meta` does not remove the `.meta` marker.
- A job that converted at least one subject and whose try block finishes
  with a `sub-*.html` report writes the project's `.meta` marker and adds neither `.empty` nor `.failed`
  (`MriqcJob.FinalMarker`). Any exception of the try block, even after MRIQC
  wrote its report, ends in `.failed` holding that exception
  (`MriqcJob.RaiseEndsFailed`). A conversion without subjects ends `.empty`
  before the report is looked at, even when the MRIQC folder already holds a
  report from an earlier run (`MriqcJob.NoSubjectsEndsEmpty`).
- A unit whose BIDS folder does not exist cannot copy README, so it ends
  `.failed` or `.empty` (`MriqcJob.MissingBidsFolderFails`).
- A plain `.gz` file ends `run_mriqc_all` with FileNotFoundError when its
  never-made folder is removed (`MriqcAll.OutcomeSpec`).
- For `all`, a file matching `20*/20*` is selected like a folder, and listing
  it raises NotADirectoryError, which ends `run_mriqc_all`
  (`MriqcAll.ProcessFolder`).

## Model

| member | source | states |
|---|---|---|
| Common.Div | mriqc_all/mriqc_all.py:69-70 | `path / name` with a non-empty name gives a path whose name is `name` and whose parent is `path` |
| Common.SplitJoin | mriqc_all/mriqc_meta.py:28 | joining the pieces of `s.split(d)` with `d` gives back `s` |
| Common.JoinSplit | mriqc_all/mriqc_meta.py:28 | splitting separator-free pieces joined by `d` gives back the pieces |
| Common.StemSuffix | mriqc_all/mriqc_all.py:54-55 | a name is its stem followed by its suffix; a suffix is empty or a dot followed by at least one dot-free character |
| Common.DecimalRoundTrip | mriqc_all/mriqc_all.py:41 | reading back the printed year gives the year |
| Common.Pad2 | mriqc_all/mriqc_all.py:41 | `{n:02d}` is two digits that read back as `n` |
| Tables.Loc | mriqc_all/mriqc_meta.py:33-35 | `.loc[id, column]` succeeds exactly when the row and the column exist, with the row's cell; a missing key raises KeyError on that key |
| Tables.Conform | mriqc_all/mriqc_job.py:64 | an assigned row keeps only the table's columns, each with the incoming cell or NaN |
| Tables.MergeSpec | mriqc_all/mriqc_job.py:62-64 | the merged participants are the old ones plus the new ones; old rows are unchanged; new rows are conformed to the old columns; the columns stay; the old order is a prefix of the new one |
| Tables.MergeIdempotent | mriqc_all/mriqc_job.py:62-64 | merging the same work table twice is the same as merging it once |
| Tables.MergeTables | mriqc_all/mriqc_job.py:62-64 | the merge loop computes `Merge` |
| Ordering.PathLtOrder | mriqc_all/mriqc_all.py:47 | pathlib's `<` is irreflexive, transitive and total on path keys |
| Ordering.InsertSpec | mriqc_all/mriqc_all.py:47 | inserting into a descending list adds exactly that path and keeps the list descending |
| Ordering.SortDesc | mriqc_all/mriqc_all.py:47 | `sorted(..., reverse=True)` is a permutation of its input, largest first |
| MriqcAll.GlobNamesSpec | mriqc_all/mriqc_all.py:28-29 | `glob('20*')` yields exactly the entries whose name starts with "20" |
| MriqcAll.DatesOfSpec | mriqc_all/mriqc_all.py:28-30 | the collected dates are exactly the `20*` entries of the years |
| MriqcAll.AllDateFoldersSpec | mriqc_all/mriqc_all.py:26-30 | for `all`, a path is selected exactly when it is `<root>/<20*>/<20*>` with both levels present |
| MriqcAll.CollectAll | mriqc_all/mriqc_all.py:26-30 | the nested glob loops compute `AllDateFolders` |
| MriqcAll.DateName | mriqc_all/mriqc_all.py:41 | the date folder name is the year followed by four digits |
| MriqcAll.DateFolder | mriqc_all/mriqc_all.py:41 | a date maps to `<root>/<YYYY>/<YYYYMMDD>` |
| MriqcAll.DateNameRoundTrip | mriqc_all/mriqc_all.py:41 | the folder name reads back as year, month and day |
| MriqcAll.DateFolderInjective | mriqc_all/mriqc_all.py:41 | two dates with the same folder are the same date |
| MriqcAll.Resolve | mriqc_all/mriqc_all.py:32-40 | the structured parse wins when it succeeds; there is no date exactly when both parsers fail |
| MriqcAll.NothingWithoutDateFolder | mriqc_all/mriqc_all.py:36-44 | an unparseable date or a missing date folder returns early with nothing processed and nothing raised |
| MriqcAll.SingleDate | mriqc_all/mriqc_all.py:41-48 | a parsed date visits exactly the entries of its one date folder |
| MriqcAll.TarGzName | mriqc_all/mriqc_all.py:54-56 | `x.tar.gz` has suffix `.gz`, suffixes `[.tar, .gz]` and double stem `x` |
| MriqcAll.SingleSuffixName | mriqc_all/mriqc_all.py:54-56 | `x.ext` has suffix `.ext`, suffixes `[.ext]` and double stem `x` |
| MriqcAll.ClassifyOneSuffix | mriqc_all/mriqc_all.py:54-63 | a file whose only suffix is an archive suffix is unpacked as zip for `.zip`, as tar for `.tar`, and not at all for `.gz`, whose folder is then never made |
| MriqcAll.TarGzArchive | mriqc_all/mriqc_all.py:54-63 | `x.tar.gz` is unpacked as tar into a folder named `x` |
| MriqcAll.SingleSuffixArchive | mriqc_all/mriqc_all.py:54-63 | `x.zip`, `x.tar` and `x.gz` get a folder named `x`, unpacked as zip, as tar, or not at all |
| MriqcAll.OtherFileSkipped | mriqc_all/mriqc_all.py:64-66 | a file without an archive suffix is skipped |
| MriqcAll.ClassifySound | mriqc_all/mriqc_all.py:52-70 | a processed entry makes a unit with output folders `out/name` and `out/bids/name`, removal exactly for archives, and the unpack rule of its suffixes |
| MriqcAll.VisitEntriesSound | mriqc_all/mriqc_all.py:48-76 | every unit from one date folder is well formed and belongs to that folder; the only errors are the function's own |
| MriqcAll.VisitSound | mriqc_all/mriqc_all.py:47-76 | every unit comes from a visited folder and is well formed; the only errors are the function's own |
| MriqcAll.VisitEntriesComplete | mriqc_all/mriqc_all.py:48-76 | when nothing raises, every processed entry of the folder yields its unit, and no unit is a plain `.gz`, whose removal would have raised |
| MriqcAll.VisitComplete | mriqc_all/mriqc_all.py:47-76 | when nothing raises, every visited path is a folder, every processed entry of every folder yields its unit, and no unit is a plain `.gz` |
| MriqcAll.VisitOrder | mriqc_all/mriqc_all.py:47-48 | over descending folders, units come newest date folder first |
| MriqcAll.OutcomeVisits | mriqc_all/mriqc_all.py:26-47 | the run visits the selected folders sorted descending |
| MriqcAll.OutcomeSpec | mriqc_all/mriqc_all.py:19-76 | units come newest first, are well formed and come from selected folders; errors are the function's own; without an error every processed entry is run and none is a plain `.gz` |
| MriqcAll.RunAll | mriqc_all/mriqc_all.py:19-76 | `run_mriqc_all` computes `Outcome` |
| MriqcAll.SelectFolders | mriqc_all/mriqc_all.py:26-44 | the date selection computes `Selected` |
| MriqcAll.VisitAll | mriqc_all/mriqc_all.py:47-76 | the date folder loop computes `Visit` |
| MriqcAll.ProcessFolder | mriqc_all/mriqc_all.py:48-76 | the entry loop of one folder computes `VisitFolder`; `iterdir` on a file or a missing path raises; removing the never-made folder of a plain `.gz` raises FileNotFoundError after its unit |
| MriqcJob.MarkersDistinct | mriqc_all/mriqc_job.py:22 | the running, empty, failed and meta marker names are four different files |
| MriqcJob.ShadowLabels | mriqc_all/mriqc_job.py:28-30 | for a `^` name, the shadow subject is the whole name and the session is the text between the first and the second `_` |
| MriqcJob.ShadowFails | mriqc_all/mriqc_job.py:28-30 | the shadow split raises IndexError exactly for a `^` name without `_` |
| MriqcJob.CopyAbsentSpec | mriqc_all/mriqc_job.py:68-70 | existing root files are never overwritten; new ones are the work folder's; without the BIDS folder nothing is copied; a finished copy holds every name; an error names the first absent file's missing source, or its destination when the BIDS folder is missing |
| MriqcJob.CopyRootFiles | mriqc_all/mriqc_job.py:68-70 | the root-file loop computes `CopyAbsent`, raising on a missing source or a missing BIDS folder |
| MriqcJob.CopySessionsSpec | mriqc_all/mriqc_job.py:76-78 | session copies only add; a finished copy holds every session; copytree raises FileExistsError only on a session already there |
| MriqcJob.CopySubjectsSpec | mriqc_all/mriqc_job.py:73-86 | the folder tree only grows; a finished copy holds every session of every subject; the only error is FileExistsError |
| MriqcJob.CopySubjectTrees | mriqc_all/mriqc_job.py:73-86 | the nested subject and session loops compute `CopySubjects` |
| MriqcJob.DeliverSpec | mriqc_all/mriqc_job.py:72-95 | the tree copies keep root, work folder and BIDS folder, only grow the folders, and when finished hold every session; a raise leaves the logs, a finish with a `sub-*.html` report writes the empty meta marker and removes the running marker, and a finish without one renames the running marker to `.empty` |
| MriqcJob.PublishSpec | mriqc_all/mriqc_job.py:57-95 | the root is kept or becomes the root-file copy over the merged participants; the logs end as in `DeliverSpec`; when finished, merge and copy succeeded and every session is copied |
| MriqcJob.AttemptSpec | mriqc_all/mriqc_job.py:25-95 | the try block changes the logs only at its two normal ends and only grows the folders; once subjects were converted, a raise leaves the logs and a finish ends them by the report as in `DeliverSpec` |
| MriqcJob.RunMarkers | mriqc_all/mriqc_job.py:22-100 | no job leaves its running marker; a new empty marker holds the BIDS path; a new failed marker comes only from a raise and holds that raise's text; existing terminal markers stay; other markers are untouched |
| MriqcJob.RaiseEndsFailed | mriqc_all/mriqc_job.py:97-100 | an exception of the try block gives exactly the failed marker with `Error(s) from processing <bids>:` and that exception, the rest of the disk as the raise left it; a raise adds no `.empty` and a normal end adds no `.failed` |
| MriqcJob.ToolFailuresEndFailed | mriqc_all/mriqc_job.py:37-51 | a failed conversion fails the job with nothing else changed; a failed MRIQC run, or a failed QSIPrep run when asked for, fails it with only the work folder converted |
| MriqcJob.AtMostOneMarker | mriqc_all/mriqc_job.py:22-100 | from no terminal marker a job ends with at most one, and with none only after a `sub-*.html` report, with the empty meta marker written; conversely a job that converted at least one subject and whose try block finished with a report ends with no terminal marker and the meta marker |
| MriqcJob.FinalMarker | mriqc_all/mriqc_job.py:88-95 | once subjects were converted and the try block finished, a `sub-*.html` report replaces the running marker with the empty meta marker, and otherwise the running marker becomes `.empty` holding the BIDS path; no other log changes |
| MriqcJob.MissingBidsFolderFails | mriqc_all/mriqc_job.py:67-70 | with no BIDS folder and no root file, nothing is copied, no folder is made, and the job ends `.failed` or `.empty`; once subjects were converted and no tool raised, `.failed` holds the FileNotFoundError for README |
| MriqcJob.RunConsistent | mriqc_all/mriqc_job.py:67-86 | a job keeps a missing BIDS folder empty, so subject folders exist only in an existing BIDS folder |
| MriqcJob.StaleMarkerKept | mriqc_all/mriqc_job.py:41-44 | a failed marker from an earlier run survives a run that ends empty, so both exist |
| MriqcJob.NoSubjectsEndsEmpty | mriqc_all/mriqc_job.py:41-44 | a conversion without subjects renames the marker to `.empty` and changes nothing else but the work folder |
| MriqcJob.UnderscorelessShadowFails | mriqc_all/mriqc_job.py:28-30 | a `^` name without `_` leaves a failed marker with the IndexError text and nothing else changed |
| MriqcJob.WorkFolderBlanked | mriqc_all/mriqc_job.py:53-55 | once MRIQC has run, the work folder is the blanked conversion output |
| MriqcJob.BlankedSpec | mriqc_all/mriqc_job.py:54-55 | blanking keeps every file, empties every `sub-*.nii*` file and keeps the others |
| MriqcJob.BlankFiles | mriqc_all/mriqc_job.py:54-55 | the blanking loop computes `Blanked` |
| MriqcJob.RunRoot | mriqc_all/mriqc_job.py:57-70 | the BIDS root after a job is the old root or the root-file copy over the merged participants |
| MriqcJob.RootFilesKept | mriqc_all/mriqc_job.py:67-70 | root files other than participants.tsv are never overwritten |
| MriqcJob.ParticipantsKept | mriqc_all/mriqc_job.py:57-65 | an existing participants.tsv stays; as a table it keeps every row unchanged |
| MriqcJob.AbsentRootFilesCopied | mriqc_all/mriqc_job.py:67-70 | a root file the BIDS folder lacked is one of the three root files, copied from the work folder |
| MriqcJob.FoldersOnlyGrow | mriqc_all/mriqc_job.py:72-86 | no subject or session folder is ever removed |
| MriqcJob.CompletedJobCopiedAll | mriqc_all/mriqc_job.py:67-92 | a job ending without a terminal marker had a report, and copied all three root files and every converted session |
| MriqcJob.CompletedJobFinished | mriqc_all/mriqc_job.py:88-92 | with no terminal marker before or after, the try block finished through the report branch |
| MriqcJob.FinishedAttemptPublished | mriqc_all/mriqc_job.py:41-65 | a try block that finished without an empty marker went through blanking, the merge and the copies |
| MriqcJob.Site.RunJob | mriqc_all/mriqc_job.py:16-100 | `main` changes the disk exactly as `Run` says |
| MriqcJob.Site.Process | mriqc_all/mriqc_job.py:25-95 | the try block changes the disk as `Attempt` says and returns what it raised |
| MriqcJob.Site.PublishFiles | mriqc_all/mriqc_job.py:57-95 | the merge and the copies change the disk as `Publish` says |
| MriqcJob.Site.DeliverFolders | mriqc_all/mriqc_job.py:72-95 | the tree copies and the final marker change the disk as `Deliver` says |
| MriqcJob.Site.BlankNiftis | mriqc_all/mriqc_job.py:53-55 | only the work folder changes, and it becomes `Blanked` |
| MriqcMeta.IndexReport | mriqc_all/mriqc_meta.py:18-19 | `set_index(['bids_name'], verify_integrity=True)` fails without the column, raises on a repeated name, and otherwise indexes every line by its name in file order |
| MriqcMeta.IndexWritten | mriqc_all/mriqc_meta.py:51-53 | writing an indexed report and indexing it again gives the same table |
| MriqcMeta.WrittenIndex | mriqc_all/mriqc_meta.py:51-53 | indexing a well-formed report and writing it back gives the same file |
| MriqcMeta.ReadTable | mriqc_all/mriqc_meta.py:33 | reading a table succeeds exactly when the file exists, and otherwise raises FileNotFoundError on its path |
| MriqcMeta.ReadDocument | mriqc_all/mriqc_meta.py:44-46 | reading a sidecar succeeds exactly when the file exists, and otherwise raises FileNotFoundError on its path |
| MriqcMeta.LabelsFail | mriqc_all/mriqc_meta.py:28 | the label unpacking fails exactly for a name without `_`, as an unpacking of one value |
| MriqcMeta.LabelsOf | mriqc_all/mriqc_meta.py:28-30 | the subject is the text before the first `_`; the session is the second piece if it holds `ses-`, else empty |
| MriqcMeta.BidsFolder | mriqc_all/mriqc_meta.py:27 | the BIDS folder is `sourcedata/<project>` for the report's project folder |
| MriqcMeta.ScansPath | mriqc_all/mriqc_meta.py:38 | without a session the scans table is `<sub>/<sub>_scans.tsv`; with one it is `<sub>/<ses>/<sub>_<ses>_scans.tsv` |
| MriqcMeta.JsonPath | mriqc_all/mriqc_meta.py:44 | without a session the sidecar lies directly in `<sub>/<modality>`, with no empty session level |
| MriqcMeta.SetAttributesSpec | mriqc_all/mriqc_meta.py:47-48 | every requested attribute's cell holds the sidecar's value or null; no other cell changes |
| MriqcMeta.FillCellsSucceeds | mriqc_all/mriqc_meta.py:26-48 | a line raises exactly when one of its sources is missing |
| MriqcMeta.FillCellsValue | mriqc_all/mriqc_meta.py:32-48 | a line with all its sources gets sex, age, acquisition time and then the attributes |
| MriqcMeta.FillCellsSpec | mriqc_all/mriqc_meta.py:26-48 | attributes come from the sidecar; sex and age come from the subject's participants row; the acquisition time comes from the scan's row, unless a same-named attribute overwrites it; other cells are kept |
| MriqcMeta.FixedCells | mriqc_all/mriqc_meta.py:34-48 | the sex, age and acquisition-time cells survive the attribute loop unless an attribute of the same name overwrites them |
| MriqcMeta.FillAllSucceeds | mriqc_all/mriqc_meta.py:24-48 | the report loop raises exactly when some line's sources are incomplete |
| MriqcMeta.FillAllSpec | mriqc_all/mriqc_meta.py:24-48 | the loop keeps the index and the row set; each line is filled from its own sources; the columns grow by the meta columns |
| MriqcMeta.CopyMetadataFrame | mriqc_all/mriqc_meta.py:13-53 | only the given report can change; a missing report, a raise or a dry run changes nothing |
| MriqcMeta.CopyMetadataLines | mriqc_all/mriqc_meta.py:13-53 | a written report keeps its line names, their order and its columns, and each line is filled from its own sources |
| MriqcMeta.WrittenLines | mriqc_all/mriqc_meta.py:51-53 | the written lines are the filled rows in the report's original order |
| MriqcMeta.CopyMetadataRaises | mriqc_all/mriqc_meta.py:13-48 | a call raises exactly when the report exists but cannot be indexed or some line lacks a source |
| MriqcMeta.DuplicateNamesRaise | mriqc_all/mriqc_meta.py:19 | a report with a repeated `bids_name` raises and is not written |
| MriqcMeta.CopyMetadataConfined | mriqc_all/mriqc_meta.py:13-53 | one call changes at most its own report, keeping line names; a dry run changes nothing |
| MriqcMeta.ChildPaths | mriqc_all/mriqc_meta.py:63 | every child path lies in the MRIQC data folder under its own name |
| MriqcMeta.Projects | mriqc_all/mriqc_meta.py:58-63 | a path with a name selects only itself; a non-empty string selects only that folder of the MRIQC data folder; otherwise every child of the MRIQC data folder is selected, in listing order |
| MriqcMeta.ProjectReportsEffect | mriqc_all/mriqc_meta.py:69-71 | a project folder changes only its T1w and bold reports; a dry run changes nothing |
| MriqcMeta.ProjectReportsFilled | mriqc_all/mriqc_meta.py:69-71 | without a raise or dry run, the T1w report's lines are filled as `anat` and the bold report's as `func` data from the project's BIDS folder |
| MriqcMeta.GroupReports | mriqc_all/mriqc_meta.py:66-73 | the reports that may change are exactly the two group reports of each selected folder |
| MriqcMeta.MetaSpecEffect | mriqc_all/mriqc_meta.py:66-73 | only group reports of selected folders change; every report keeps its line names; a dry run changes nothing |
| MriqcMeta.MetaSpecFilled | mriqc_all/mriqc_meta.py:66-73 | without a raise or dry run, every selected folder's T1w report is filled as `anat` and its bold report as `func` data |
| MriqcMeta.UnselectedUnchanged | mriqc_all/mriqc_meta.py:66-73 | a project that is not an existing folder keeps both its reports |
| MriqcMeta.ReportStore.CopyMetadata | mriqc_all/mriqc_meta.py:13-53 | `copymetadata` changes the reports exactly as `CopyMetadataSpec` says |
| MriqcMeta.ReportStore.MriqcMeta | mriqc_all/mriqc_meta.py:56-73 | `mriqc_meta` changes the reports exactly as `MetaSpec` says over the selected projects |
| MriqcMeta.FillLine | mriqc_all/mriqc_meta.py:26-48 | the body of the report loop computes one `FillStep` |
| MriqcMeta.WriteLine | mriqc_all/mriqc_meta.py:34-48 | the cell writes of one line give the row with sex, age, acquisition time and attributes |
| MriqcMeta.FixedWrites | mriqc_all/mriqc_meta.py:34-41 | the three fixed writes add their columns and set their cells in the line's row only |
| MriqcMeta.FillAttributes | mriqc_all/mriqc_meta.py:47-48 | the attribute loop sets `meta.<attribute>` cell by cell as `SetAttributes` |

## Left out

- bidscoiner, MRIQC (`mriqc_sub`) and QSIPrep are not modelled. In mriqc_job.py their results and exceptions are inputs (`Tools`). In mriqc_all.py the calls to bidscoiner and `mriqc_sub` are left out; the model returns the list of units they would be called for, and their exceptions are not modelled.
- The date parsers (`dateutil`, `parsedatetime`) are left out. Their answers come in as values.
- Archive extraction, `tempfile.mkdtemp` and the contents of the unpacked folders are left out. A unit records how it is unpacked and whether its folder is removed. `shutil.rmtree` is modelled only for the plain `.gz`, whose folder is never made. A `.zip` or `.tar` that unpacks to nothing, so that the removal would also raise, is not modelled.
- The singularity group command string is left out. It only depends on the environment.
- `print` output is left out.
- The argparse `main` functions are left out. Their defaults are `yesterday` for the date and `DefaultAttributes` for the attributes.
- cleanup_bids.py is not part of this model.
- The mkdir and symlink of the shadow folder are left out. Only the label split and its IndexError are modelled.
- Copied files and folders are modelled by name. Their contents are not.
- A participants.tsv that does not read as a table is modelled as text. Reading it raises.
- Directory listing order (`iterdir`, `glob`) is an input: the order of each folder's entry list.
- The source tables of `copymetadata` are given already indexed. A participants or scans file that lacks its index column is not modelled.
- `bids_name` cells are modelled as text. Non-text cells are not modelled.
- A project string containing `/` is not modelled.
- Duplicate participant ids are not modelled.
- A JSON sidecar that is not an object is not modelled.
- pandas' own error texts are approximated by `Message`.
- MriqcAll.ClassifySound: names whose double stem is `.` (for example `..a.zip`) are not covered. pathlib collapses such a name into the temporary folder itself.
- MriqcMeta.Projects: `mriqcdata.iterdir()` order and contents are an input (`children`). The paths in `dirs` are the ones `is_dir()` accepts.
- MriqcJob.Run: a missing logs folder is not modelled. Writing the running marker then raises before the try block, `main` ends with no marker at all, and the model assumes the logs folder exists.
- MriqcMeta.SetAttributes: a sidecar attribute whose value is a list is stored in its cell, where pandas raises ValueError on the assignment. Object values have no `Value` case and are not modelled.
- Tables.Conform: pandas turns an integer column into floats once a NaN enters it. Cells are modelled as values, without dtypes.
- Columns are modelled as a set. Their order is not: pandas appends the `meta.*` columns and writes `bids_name` first.
