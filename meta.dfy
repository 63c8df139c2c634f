/** mriqc_meta.py: copies subject, session and acquisition metadata from the
    BIDS source data into the MRIQC group reports (`group_T1w.tsv`,
    `group_bold.tsv`). A report is a table indexed by `bids_name`; every row
    gains the cells `meta.Sex`, `meta.Age`, `meta.AcquisitionTime` and one
    `meta.<attribute>` per requested sidecar attribute. */
module MriqcMeta {
  import opened Common
  import opened Tables

  const MriqcData: Path := Path("/", ["project", "3015999.02", "mriqc_data"])
  const SourceData: Path := MriqcData.Div("sourcedata")

  /** The sidecar attributes copied when the caller names none. */
  const DefaultAttributes: seq<string> :=
    ["MagneticFieldStrength", "ManufacturersModelName", "StationName", "SoftwareVersions"]

  const T1wReport := "group_T1w.tsv"
  const BoldReport := "group_bold.tsv"

  // ------------------------------------------------------------ report files

  /** One line of a group report: the text of its `bids_name` cell and the
      cells of its other columns. */
  datatype Record = Record(name: string, cells: Row)

  /** A group report as it lies on disk: its header and its lines in order. */
  datatype ReportFile = ReportFile(columns: set<string>, records: seq<Record>)

  /** The `bids_name` of every line, in order. */
  function Names(records: seq<Record>): (r: seq<string>)
    ensures |r| == |records|
    ensures forall i :: 0 <= i < |r| ==> r[i] == records[i].name
    decreases |records|
  {
    if |records| == 0 then [] else [records[0].name] + Names(records[1..])
  }

  predicate Distinct(s: seq<string>) {
    forall i, j :: 0 <= i < j < |s| ==> s[i] != s[j]
  }

  /** A report table keyed by its index: no key twice, every key has a row and
      every row a key, and the index column is not among the data columns. */
  ghost predicate Indexed(t: Table) {
    Distinct(t.ids) && (forall k :: k in t.rows <==> k in t.ids) && "bids_name" !in t.columns
  }

  /** The rows of the lines by name; an earlier line wins over a later one of
      the same name. */
  function RowsOf(records: seq<Record>): (r: map<string, Row>)
    ensures forall k :: k in r <==> k in Names(records)
    decreases |records|
  {
    if |records| == 0 then map[]
    else
      var rest := RowsOf(records[1..]);
      assert forall k :: k in Names(records) <==> k == records[0].name || k in Names(records[1..]) by {
        assert Names(records) == [records[0].name] + Names(records[1..]);
      }
      rest[records[0].name := records[0].cells]
  }

  /** With distinct names every line's row is its own cells. */
  lemma {:induction false} RowsOfDistinct(records: seq<Record>)
    requires Distinct(Names(records))
    ensures forall i :: 0 <= i < |records| ==> RowsOf(records)[records[i].name] == records[i].cells
    decreases |records|
  {
    if |records| > 0 {
      assert Distinct(Names(records[1..])) by {
        forall i, j | 0 <= i < j < |records| - 1
          ensures Names(records[1..])[i] != Names(records[1..])[j]
        {
          assert Names(records)[i + 1] != Names(records)[j + 1];
        }
      }
      RowsOfDistinct(records[1..]);
      forall i | 0 < i < |records|
        ensures RowsOf(records)[records[i].name] == records[i].cells
      {
        assert Names(records)[0] != Names(records)[i];
        assert records[1..][i - 1] == records[i];
      }
    }
  }

  /** `read_csv(report)` followed by `set_index(['bids_name'],
      verify_integrity=True)`: a KeyError when the column is absent, a
      ValueError when a name occurs twice. */
  function IndexReport(f: ReportFile): (r: Result<Table, Error>)
    ensures r.Success? <==> "bids_name" in f.columns && Distinct(Names(f.records))
    ensures "bids_name" !in f.columns ==> r == Failure(ColumnsMissing("bids_name"))
    ensures "bids_name" in f.columns && !Distinct(Names(f.records)) ==> r == Failure(DuplicateKeys("bids_name"))
    ensures r.Success? ==> Indexed(r.value) && r.value.ids == Names(f.records)
    ensures r.Success? ==> r.value.columns == f.columns - {"bids_name"}
    ensures r.Success? ==> forall i :: 0 <= i < |f.records| ==> r.value.rows[f.records[i].name] == f.records[i].cells
  {
    if "bids_name" !in f.columns then Failure(ColumnsMissing("bids_name"))
    else if !Distinct(Names(f.records)) then Failure(DuplicateKeys("bids_name"))
    else
      RowsOfDistinct(f.records);
      Success(Table(f.columns - {"bids_name"}, Names(f.records), RowsOf(f.records)))
  }

  /** The lines that `to_csv` writes for the given keys: the key as
      `bids_name`, then the row. */
  function RecordsOf(t: Table, ids: seq<string>): (r: seq<Record>)
    ensures |r| == |ids|
    ensures forall i :: 0 <= i < |r| ==> r[i] == Record(ids[i], RowOf(t, ids[i]))
    decreases |ids|
  {
    if |ids| == 0 then [] else [Record(ids[0], RowOf(t, ids[0]))] + RecordsOf(t, ids[1..])
  }

  /** `report.to_csv(report_tsv)`: the index is written back as the
      `bids_name` column. */
  function WriteReport(t: Table): ReportFile {
    ReportFile(t.columns + {"bids_name"}, RecordsOf(t, t.ids))
  }

  /** Writing an indexed report and reading it back gives the same table. */
  lemma IndexWritten(t: Table)
    requires Indexed(t)
    ensures IndexReport(WriteReport(t)) == Success(t)
  {
    var f := WriteReport(t);
    assert Names(f.records) == t.ids;
    assert f.columns - {"bids_name"} == t.columns;
    RowsOfRecords(t);
  }

  /** The rows of the written lines are the rows of the table. */
  lemma RowsOfRecords(t: Table)
    requires Indexed(t)
    ensures RowsOf(RecordsOf(t, t.ids)) == t.rows
  {
    var records := RecordsOf(t, t.ids);
    var rows := RowsOf(records);
    assert Names(records) == t.ids;
    RowsOfDistinct(records);
    forall k | k in t.rows ensures k in rows && rows[k] == t.rows[k] {
      var i :| 0 <= i < |t.ids| && t.ids[i] == k;
      assert records[i].name == k;
    }
  }

  /** Reading a well-formed report and writing it back gives the same file. */
  lemma WrittenIndex(f: ReportFile)
    requires IndexReport(f).Success?
    ensures WriteReport(IndexReport(f).value) == f
  {
    var t := IndexReport(f).value;
    assert WriteReport(t).records == f.records;
  }

  // ------------------------------------------------------------ the sources

  /** What the model reads besides the reports: tables by path (a
      participants.tsv already indexed by `participant_id`, a scans.tsv by
      `filename`) and JSON sidecars by path. A path missing from a map is a
      file that is not there. */
  datatype Sources = Sources(tables: map<Path, Table>, documents: map<Path, map<string, Value>>)

  function ReadTable(sources: Sources, p: Path): (r: Result<Table, Error>)
    ensures r.Success? <==> p in sources.tables
    ensures r.Failure? ==> r.error == FileNotFound(p)
  {
    if p in sources.tables then Success(sources.tables[p]) else Failure(FileNotFound(p))
  }

  function ReadDocument(sources: Sources, p: Path): (r: Result<map<string, Value>, Error>)
    ensures r.Success? <==> p in sources.documents
    ensures r.Failure? ==> r.error == FileNotFound(p)
  {
    if p in sources.documents then Success(sources.documents[p]) else Failure(FileNotFound(p))
  }

  /** `metadata.get(attribute)`: None when the sidecar lacks it. */
  function Get(doc: map<string, Value>, attribute: string): Value {
    if attribute in doc then doc[attribute] else Null
  }

  // ------------------------------------------------------------ one report line

  /** The subject and session labels of a BIDS name: the first two '_' pieces,
      the second kept only when it holds "ses-". A name without '_' cannot be
      unpacked into two labels. */
  function Labels(bidsname: string): (r: Result<(string, string), Error>)
  {
    var pieces := Split(bidsname, '_');
    if |pieces| < 2 then Failure(NotEnoughValues(|pieces|))
    else Success((pieces[0], if Contains(pieces[1], "ses-") then pieces[1] else ""))
  }

  /** Only a name without '_' fails, and it fails as an unpacking of one value. */
  lemma LabelsFail(bidsname: string)
    ensures Labels(bidsname).Failure? <==> '_' !in bidsname
    ensures Labels(bidsname).Failure? ==> Labels(bidsname).error == NotEnoughValues(1)
  {
    if '_' in bidsname {
      var k :| 0 <= k < |bidsname| && bidsname[k] == '_';
      var a := bidsname[..k];
      var b := bidsname[k + 1..];
      assert bidsname == a + ['_'] + b;
      if '_' in a {
        var m :| 0 <= m < |a| && a[m] == '_';
        FirstSeparator(bidsname, m);
      } else {
        SplitAt(a, b, '_');
      }
    } else {
      SplitWithout(bidsname, '_');
    }
  }

  /** A string with the separator at `m` splits into at least two pieces. */
  lemma {:induction false} FirstSeparator(s: string, m: nat)
    requires m < |s| && s[m] == '_'
    ensures |Split(s, '_')| >= 2
    decreases m
  {
    if m > 0 {
      FirstSeparator(s[1..], m - 1);
    }
  }

  /** The labels of `sub_ses..._rest` style names: the subject is everything
      before the first '_', and the session is the second piece if it holds
      "ses-" and empty otherwise. */
  lemma LabelsOf(sub: string, second: string, rest: string)
    requires '_' !in sub && '_' !in second
    requires rest == "" || rest[0] == '_'
    ensures Labels(sub + "_" + second + rest)
         == Success((sub, if Contains(second, "ses-") then second else ""))
  {
    if rest == "" {
      assert sub + "_" + second + rest == sub + ['_'] + second;
      SplitWithout(second, '_');
      SplitAt(sub, second, '_');
    } else {
      assert sub + "_" + second + rest == sub + ['_'] + (second + ['_'] + rest[1..]);
      SplitAt(second, rest[1..], '_');
      SplitAt(sub, second + ['_'] + rest[1..], '_');
    }
  }

  /** The BIDS folder of a report: the source-data folder of the project the
      report lies in. */
  function BidsFolder(reportTsv: Path): (r: Path)
    ensures reportTsv.Parent().Name() != "" ==> r.Parent() == SourceData && r.Name() == reportTsv.Parent().Name()
  {
    SourceData.Div(reportTsv.Parent().Name())
  }

  function ParticipantsFile(bidsfolder: Path): Path {
    bidsfolder.Div("participants.tsv")
  }

  /** The scans table of a subject or a session; with no session it lies in the
      subject folder and its name has no session part. */
  function ScansPath(bidsfolder: Path, sub: string, ses: string): (r: Path)
    ensures ses == "" ==> r == bidsfolder.Div(sub).Div(sub + "_scans.tsv")
    ensures ses != "" ==> r == bidsfolder.Div(sub).Div(ses).Div(sub + "_" + ses + "_scans.tsv")
  {
    var name := sub + (if ses != "" then "_" else "") + ses + "_scans.tsv";
    assert ses == "" ==> name == sub + "_scans.tsv";
    bidsfolder.Div(sub).Div(ses).Div(name)
  }

  /** The `filename` key of a scan in its scans table. */
  function ScanKey(modality: string, bidsname: string): string {
    modality + "/" + bidsname + ".nii"
  }

  /** The JSON sidecar of a scan. */
  function JsonPath(bidsfolder: Path, sub: string, ses: string, modality: string, bidsname: string): (r: Path)
    ensures ses == "" ==> r == bidsfolder.Div(sub).Div(modality).Div(bidsname + ".json")
  {
    bidsfolder.Div(sub).Div(ses).Div(modality).Div(bidsname + ".json")
  }

  /** The fixed arguments of one `copymetadata` call. */
  datatype Request = Request(attributes: seq<string>, modality: string, bidsfolder: Path, sources: Sources)

  function AttributeColumns(attributes: seq<string>): set<string> {
    set a | a in attributes :: "meta." + a
  }

  /** The cells a filled line gets. */
  function MetaColumns(attributes: seq<string>): set<string> {
    {"meta.Sex", "meta.Age", "meta.AcquisitionTime"} + AttributeColumns(attributes)
  }

  /** Each `meta.<attribute>` cell set to the sidecar's value, in order. */
  function SetAttributes(row: Row, attributes: seq<string>, doc: map<string, Value>): Row
    decreases |attributes|
  {
    if |attributes| == 0 then row
    else SetAttributes(row["meta." + attributes[0] := Get(doc, attributes[0])], attributes[1..], doc)
  }

  lemma MetaPrefix(a: string, b: string)
    requires "meta." + a == "meta." + b
    ensures a == b
  {
    assert a == ("meta." + a)[5..];
    assert b == ("meta." + b)[5..];
  }

  /** Every requested attribute's cell holds the sidecar's value (null when the
      sidecar lacks it), and no other cell changes. */
  lemma {:induction false} SetAttributesSpec(row: Row, attributes: seq<string>, doc: map<string, Value>)
    ensures forall a :: a in attributes ==> Cell(SetAttributes(row, attributes, doc), "meta." + a) == Get(doc, a)
    ensures forall c :: c !in AttributeColumns(attributes) ==> Cell(SetAttributes(row, attributes, doc), c) == Cell(row, c)
    decreases |attributes|
  {
    if |attributes| > 0 {
      var a0 := attributes[0];
      var row1 := row["meta." + a0 := Get(doc, a0)];
      var tail := attributes[1..];
      SetAttributesSpec(row1, tail, doc);
      assert forall a :: a in attributes <==> a == a0 || a in tail;
      forall a | a in attributes
        ensures Cell(SetAttributes(row, attributes, doc), "meta." + a) == Get(doc, a)
      {
        if a !in tail && "meta." + a in AttributeColumns(tail) {
          var b :| b in tail && "meta." + b == "meta." + a;
          MetaPrefix(a, b);
        }
      }
      forall c | c !in AttributeColumns(attributes)
        ensures Cell(SetAttributes(row, attributes, doc), c) == Cell(row, c)
      {
        assert c != "meta." + a0;
        assert c !in AttributeColumns(tail);
      }
    }
  }

  /** Everything one line reads is there: the name has two labels, the
      participants table lists the subject with `sex` and `age`, the scans
      table lists the scan with `acq_time`, and the sidecar exists. */
  predicate SourcesComplete(bidsname: string, q: Request) {
    var labels := Labels(bidsname);
    labels.Success? &&
    var sub := labels.value.0;
    var ses := labels.value.1;
    var people := ParticipantsFile(q.bidsfolder);
    var scans := ScansPath(q.bidsfolder, sub, ses);
    people in q.sources.tables && sub in q.sources.tables[people].rows
    && "sex" in q.sources.tables[people].columns && "age" in q.sources.tables[people].columns
    && scans in q.sources.tables && ScanKey(q.modality, bidsname) in q.sources.tables[scans].rows
    && "acq_time" in q.sources.tables[scans].columns
    && JsonPath(q.bidsfolder, sub, ses, q.modality, bidsname) in q.sources.documents
  }

  /** One pass of the report loop on the row of `bidsname`: the first missing
      source raises, otherwise the row gains its metadata cells. */
  function FillCells(row: Row, bidsname: string, q: Request): Result<Row, Error> {
    var labels := Labels(bidsname);
    if labels.Failure? then Failure(labels.error) else
    var sub := labels.value.0;
    var ses := labels.value.1;
    var people := ReadTable(q.sources, ParticipantsFile(q.bidsfolder));
    if people.Failure? then Failure(people.error) else
    var sex := Loc(people.value, sub, "sex");
    if sex.Failure? then Failure(sex.error) else
    var age := Loc(people.value, sub, "age");
    if age.Failure? then Failure(age.error) else
    var scans := ReadTable(q.sources, ScansPath(q.bidsfolder, sub, ses));
    if scans.Failure? then Failure(scans.error) else
    var acq := Loc(scans.value, ScanKey(q.modality, bidsname), "acq_time");
    if acq.Failure? then Failure(acq.error) else
    var doc := ReadDocument(q.sources, JsonPath(q.bidsfolder, sub, ses, q.modality, bidsname));
    if doc.Failure? then Failure(doc.error) else
    Success(SetAttributes(row["meta.Sex" := sex.value]["meta.Age" := age.value]["meta.AcquisitionTime" := acq.value],
                          q.attributes, doc.value))
  }

  /** A line raises exactly when one of its sources is missing: no line is
      skipped. */
  lemma FillCellsSucceeds(row: Row, bidsname: string, q: Request)
    ensures FillCells(row, bidsname, q).Success? <==> SourcesComplete(bidsname, q)
  {
  }

  /** The participants row of a line's subject. */
  function ParticipantRow(bidsname: string, q: Request): Row
    requires SourcesComplete(bidsname, q)
  {
    q.sources.tables[ParticipantsFile(q.bidsfolder)].rows[Labels(bidsname).value.0]
  }

  /** The row of a line's scan in its scans table. */
  function ScanRow(bidsname: string, q: Request): Row
    requires SourcesComplete(bidsname, q)
  {
    var labels := Labels(bidsname).value;
    q.sources.tables[ScansPath(q.bidsfolder, labels.0, labels.1)].rows[ScanKey(q.modality, bidsname)]
  }

  /** The JSON sidecar of a line's scan. */
  function Sidecar(bidsname: string, q: Request): map<string, Value>
    requires SourcesComplete(bidsname, q)
  {
    var labels := Labels(bidsname).value;
    q.sources.documents[JsonPath(q.bidsfolder, labels.0, labels.1, q.modality, bidsname)]
  }

  lemma FillCellsValue(row: Row, bidsname: string, q: Request)
    requires SourcesComplete(bidsname, q)
    ensures FillCells(row, bidsname, q)
         == Success(SetAttributes(row["meta.Sex" := Cell(ParticipantRow(bidsname, q), "sex")]
                                     ["meta.Age" := Cell(ParticipantRow(bidsname, q), "age")]
                                     ["meta.AcquisitionTime" := Cell(ScanRow(bidsname, q), "acq_time")],
                                  q.attributes, Sidecar(bidsname, q)))
  {
  }

  lemma NotAttributeColumn(name: string, attributes: seq<string>)
    requires name !in attributes
    ensures "meta." + name !in AttributeColumns(attributes)
  {
    if "meta." + name in AttributeColumns(attributes) {
      var b :| b in attributes && "meta." + b == "meta." + name;
      MetaPrefix(b, name);
    }
  }

  /** The cells a line gets: each requested attribute from the sidecar, sex
      and age from the subject's participants row, the acquisition time from
      the scan's row of the scans table (a same-named attribute written later
      wins), and every other cell kept. */
  lemma FillCellsSpec(row: Row, bidsname: string, q: Request)
    requires SourcesComplete(bidsname, q)
    ensures FillCells(row, bidsname, q).Success?
    ensures var r := FillCells(row, bidsname, q).value;
            && (forall a :: a in q.attributes ==> Cell(r, "meta." + a) == Get(Sidecar(bidsname, q), a))
            && ("Sex" !in q.attributes ==> Cell(r, "meta.Sex") == Cell(ParticipantRow(bidsname, q), "sex"))
            && ("Age" !in q.attributes ==> Cell(r, "meta.Age") == Cell(ParticipantRow(bidsname, q), "age"))
            && ("AcquisitionTime" !in q.attributes ==> Cell(r, "meta.AcquisitionTime") == Cell(ScanRow(bidsname, q), "acq_time"))
            && (forall c :: c !in MetaColumns(q.attributes) ==> Cell(r, c) == Cell(row, c))
  {
    var base := row["meta.Sex" := Cell(ParticipantRow(bidsname, q), "sex")]
                   ["meta.Age" := Cell(ParticipantRow(bidsname, q), "age")]
                   ["meta.AcquisitionTime" := Cell(ScanRow(bidsname, q), "acq_time")];
    FillCellsValue(row, bidsname, q);
    SetAttributesSpec(base, q.attributes, Sidecar(bidsname, q));
    FixedCells(base, q.attributes, Sidecar(bidsname, q));
  }

  /** The three fixed cells survive the attribute loop unless an attribute
      of the same name overwrites them. */
  lemma FixedCells(base: Row, attributes: seq<string>, doc: map<string, Value>)
    ensures "Sex" !in attributes ==> Cell(SetAttributes(base, attributes, doc), "meta.Sex") == Cell(base, "meta.Sex")
    ensures "Age" !in attributes ==> Cell(SetAttributes(base, attributes, doc), "meta.Age") == Cell(base, "meta.Age")
    ensures "AcquisitionTime" !in attributes ==>
              Cell(SetAttributes(base, attributes, doc), "meta.AcquisitionTime") == Cell(base, "meta.AcquisitionTime")
  {
    SetAttributesSpec(base, attributes, doc);
    if "Sex" !in attributes {
      NotAttributeColumn("Sex", attributes);
      assert "meta." + "Sex" == "meta.Sex";
    }
    if "Age" !in attributes {
      NotAttributeColumn("Age", attributes);
      assert "meta." + "Age" == "meta.Age";
    }
    if "AcquisitionTime" !in attributes {
      NotAttributeColumn("AcquisitionTime", attributes);
      assert "meta." + "AcquisitionTime" == "meta.AcquisitionTime";
    }
  }

  // ------------------------------------------------------------ the whole report

  /** `report.loc[bidsname, column] = v`: the column is added to the table if
      it is new. */
  function SetCell(t: Table, id: string, column: string, v: Value): Table {
    Table(t.columns + {column}, t.ids, t.rows[id := RowOf(t, id)[column := v]])
  }

  /** One pass of the report loop: the row of `id` filled, and the metadata
      columns added to the table. */
  function FillStep(t: Table, id: string, q: Request): Result<Table, Error> {
    var row := FillCells(RowOf(t, id), id, q);
    if row.Failure? then Failure(row.error)
    else Success(Table(t.columns + MetaColumns(q.attributes), t.ids, t.rows[id := row.value]))
  }

  /** The report loop over the given keys: the first line that raises ends it. */
  function FillAll(t: Table, ids: seq<string>, q: Request): Result<Table, Error>
    decreases |ids|
  {
    if |ids| == 0 then Success(t)
    else
      var step := FillStep(t, ids[0], q);
      if step.Failure? then step else FillAll(step.value, ids[1..], q)
  }

  /** The loop raises exactly when some line's sources are incomplete. */
  lemma {:induction false} FillAllSucceeds(t: Table, ids: seq<string>, q: Request)
    ensures FillAll(t, ids, q).Success? <==> forall k :: k in ids ==> SourcesComplete(k, q)
    decreases |ids|
  {
    if |ids| > 0 {
      var row := FillCells(RowOf(t, ids[0]), ids[0], q);
      FillCellsSucceeds(RowOf(t, ids[0]), ids[0], q);
      assert forall k :: k in ids <==> k == ids[0] || k in ids[1..];
      if row.Success? {
        FillAllSucceeds(Table(t.columns + MetaColumns(q.attributes), t.ids, t.rows[ids[0] := row.value]), ids[1..], q);
      }
    }
  }

  /** When the loop does not raise, the index and the key set are unchanged,
      each visited row is filled from its own sources alone, and the other
      rows are kept. */
  lemma {:induction false} FillAllSpec(t: Table, ids: seq<string>, q: Request)
    requires Distinct(ids)
    requires forall k :: k in ids ==> k in t.rows
    requires FillAll(t, ids, q).Success?
    ensures var r := FillAll(t, ids, q).value;
            && r.ids == t.ids
            && (forall k :: k in r.rows <==> k in t.rows)
            && (forall k :: k in ids ==> FillCells(t.rows[k], k, q) == Success(r.rows[k]))
            && (forall k :: k in t.rows && k !in ids ==> r.rows[k] == t.rows[k])
            && r.columns == (if |ids| == 0 then t.columns else t.columns + MetaColumns(q.attributes))
    decreases |ids|
  {
    if |ids| > 0 {
      var k0 := ids[0];
      var tail := ids[1..];
      var row := FillCells(t.rows[k0], k0, q);
      var t1 := Table(t.columns + MetaColumns(q.attributes), t.ids, t.rows[k0 := row.value]);
      assert FillAll(t, ids, q) == FillAll(t1, tail, q);
      assert forall k :: k in ids <==> k == k0 || k in tail;
      assert k0 !in tail by {
        forall i | 0 <= i < |tail| ensures tail[i] != k0 {
          assert ids[i + 1] != ids[0];
        }
      }
      assert Distinct(tail) by {
        forall i, j | 0 <= i < j < |tail| ensures tail[i] != tail[j] {
          assert ids[i + 1] != ids[j + 1];
        }
      }
      FillAllSpec(t1, tail, q);
      var r := FillAll(t1, tail, q).value;
      forall k | k in tail ensures FillCells(t.rows[k], k, q) == Success(r.rows[k]) {
        assert t1.rows[k] == t.rows[k];
      }
    }
  }

  /** `copymetadata` on the reports held by path: nothing when the report is
      not there, a raised error with nothing written, or the filled report
      written back unless this is a dry run. */
  function CopyMetadataSpec(files: map<Path, ReportFile>, attributes: seq<string>, reportTsv: Path,
                            modality: string, dryrun: bool, sources: Sources): (map<Path, ReportFile>, Option<Error>)
  {
    if reportTsv !in files then (files, None)
    else
      var indexed := IndexReport(files[reportTsv]);
      if indexed.Failure? then (files, Some(indexed.error))
      else
        var q := Request(attributes, modality, BidsFolder(reportTsv), sources);
        var filled := FillAll(indexed.value, indexed.value.ids, q);
        if filled.Failure? then (files, Some(filled.error))
        else if dryrun then (files, None)
        else (files[reportTsv := WriteReport(filled.value)], None)
  }

  /** What one call does to the reports: only the given report can change,
      and it changes only when nothing was raised and this is not a dry run. */
  lemma CopyMetadataFrame(files: map<Path, ReportFile>, attributes: seq<string>, reportTsv: Path,
                          modality: string, dryrun: bool, sources: Sources)
    ensures var (after, error) := CopyMetadataSpec(files, attributes, reportTsv, modality, dryrun, sources);
            && after.Keys == files.Keys
            && (forall k :: k in files && k != reportTsv ==> after[k] == files[k])
            && (error.Some? || dryrun || reportTsv !in files ==> after == files)
  {
  }

  /** A report that is written keeps its lines, their order, their names and
      its old columns, and each line is filled from its own sources. */
  lemma CopyMetadataLines(files: map<Path, ReportFile>, attributes: seq<string>, reportTsv: Path,
                          modality: string, dryrun: bool, sources: Sources)
    requires reportTsv in files
    ensures var (after, error) := CopyMetadataSpec(files, attributes, reportTsv, modality, dryrun, sources);
            && reportTsv in after
            && Names(after[reportTsv].records) == Names(files[reportTsv].records)
            && files[reportTsv].columns <= after[reportTsv].columns
            && (error.None? && !dryrun ==>
                  forall i :: 0 <= i < |files[reportTsv].records| ==>
                    FillCells(files[reportTsv].records[i].cells, files[reportTsv].records[i].name,
                              Request(attributes, modality, BidsFolder(reportTsv), sources))
                    == Success(after[reportTsv].records[i].cells))
  {
    var f := files[reportTsv];
    var indexed := IndexReport(f);
    if indexed.Success? {
      var t := indexed.value;
      var q := Request(attributes, modality, BidsFolder(reportTsv), sources);
      var filled := FillAll(t, t.ids, q);
      if filled.Success? && !dryrun {
        FillAllSpec(t, t.ids, q);
        WrittenLines(f, t, filled.value, q);
      }
    }
  }

  /** The lines written for a filled report. */
  lemma WrittenLines(f: ReportFile, t: Table, filled: Table, q: Request)
    requires IndexReport(f) == Success(t)
    requires filled.ids == t.ids && t.columns <= filled.columns
    requires forall k :: k in t.ids ==> k in filled.rows && FillCells(t.rows[k], k, q) == Success(filled.rows[k])
    ensures Names(WriteReport(filled).records) == Names(f.records)
    ensures f.columns <= WriteReport(filled).columns
    ensures forall i :: 0 <= i < |f.records| ==>
              FillCells(f.records[i].cells, f.records[i].name, q) == Success(WriteReport(filled).records[i].cells)
  {
    var w := WriteReport(filled);
    forall i | 0 <= i < |f.records|
      ensures FillCells(f.records[i].cells, f.records[i].name, q) == Success(w.records[i].cells)
    {
      assert t.ids[i] == f.records[i].name;
      assert t.ids[i] in t.ids;
    }
  }

  /** A call raises exactly when the report is there but cannot be indexed, or
      when some line's sources are incomplete. */
  lemma CopyMetadataRaises(files: map<Path, ReportFile>, attributes: seq<string>, reportTsv: Path,
                           modality: string, dryrun: bool, sources: Sources)
    ensures CopyMetadataSpec(files, attributes, reportTsv, modality, dryrun, sources).1.None?
        <==> (reportTsv !in files ||
              (IndexReport(files[reportTsv]).Success? &&
               forall i :: 0 <= i < |files[reportTsv].records| ==>
                 SourcesComplete(files[reportTsv].records[i].name,
                                 Request(attributes, modality, BidsFolder(reportTsv), sources))))
  {
    if reportTsv in files {
      var f := files[reportTsv];
      var indexed := IndexReport(f);
      if indexed.Success? {
        var q := Request(attributes, modality, BidsFolder(reportTsv), sources);
        FillAllSucceeds(indexed.value, indexed.value.ids, q);
        NamesComplete(f.records, q);
      }
    }
  }

  /** Every name of a report has complete sources when every line has. */
  lemma NamesComplete(records: seq<Record>, q: Request)
    ensures (forall k :: k in Names(records) ==> SourcesComplete(k, q))
        <==> (forall i :: 0 <= i < |records| ==> SourcesComplete(records[i].name, q))
  {
    var names := Names(records);
    if forall i :: 0 <= i < |records| ==> SourcesComplete(records[i].name, q) {
      forall k | k in names ensures SourcesComplete(k, q) {
        var i :| 0 <= i < |names| && names[i] == k;
      }
    }
    if forall k :: k in names ==> SourcesComplete(k, q) {
      forall i | 0 <= i < |records| ensures SourcesComplete(records[i].name, q) {
        assert names[i] in names;
      }
    }
  }

  /** A report with a repeated name raises and is left as it is. */
  lemma DuplicateNamesRaise(files: map<Path, ReportFile>, attributes: seq<string>, reportTsv: Path,
                            modality: string, dryrun: bool, sources: Sources)
    requires reportTsv in files && "bids_name" in files[reportTsv].columns
    requires !Distinct(Names(files[reportTsv].records))
    ensures CopyMetadataSpec(files, attributes, reportTsv, modality, dryrun, sources)
         == (files, Some(DuplicateKeys("bids_name")))
  {
  }

  // ------------------------------------------------------------ projects

  /** The `project` argument of `mriqc_meta`: a path, a folder name inside the
      MRIQC data folder, or nothing. */
  datatype Selector = PathArg(path: Path) | TextArg(text: string) | NoArg

  /** The children of the MRIQC data folder, given by name. */
  function ChildPaths(names: seq<string>): (r: seq<Path>)
    ensures |r| == |names|
    ensures forall i :: 0 <= i < |r| ==> r[i] == MriqcData.Div(names[i])
    decreases |names|
  {
    if |names| == 0 then [] else [MriqcData.Div(names[0])] + ChildPaths(names[1..])
  }

  /** The projects to visit: a path that has a name, the named folder inside
      the MRIQC data folder, or else every child of that folder. */
  function Projects(project: Selector, children: seq<string>): (r: seq<Path>)
    ensures project.PathArg? && project.path.Name() != "" ==> r == [project.path]
    ensures project.TextArg? && project.text != "" ==> |r| == 1 && r[0].Parent() == MriqcData && r[0].Name() == project.text
    ensures (forall n :: n in children ==> n != "") && !(project.PathArg? && project.path.Name() != "") ==>
              forall p :: p in r ==> p.Parent() == MriqcData
    ensures !(project.PathArg? && project.path.Name() != "") && !(project.TextArg? && project.text != "") ==>
              r == ChildPaths(children)
  {
    assert (forall n :: n in children ==> n != "") ==> forall p :: p in ChildPaths(children) ==> p.Parent() == MriqcData by {
      if forall n :: n in children ==> n != "" {
        forall p | p in ChildPaths(children) ensures p.Parent() == MriqcData {
          var i :| 0 <= i < |children| && ChildPaths(children)[i] == p;
          assert children[i] in children;
        }
      }
    }
    match project
    case PathArg(p) => if p.Name() != "" then [p] else ChildPaths(children)
    case TextArg(s) => if s != "" then [MriqcData.Div(s)] else ChildPaths(children)
    case NoArg => ChildPaths(children)
  }

  /** The two reports of one project folder: the anatomical one, then, unless
      that raised, the functional one. */
  function ProjectReports(files: map<Path, ReportFile>, project: Path, attributes: seq<string>, dryrun: bool,
                          sources: Sources): (map<Path, ReportFile>, Option<Error>)
  {
    var anat := CopyMetadataSpec(files, attributes, project.Div(T1wReport), "anat", dryrun, sources);
    if anat.1.Some? then anat
    else CopyMetadataSpec(anat.0, attributes, project.Div(BoldReport), "func", dryrun, sources)
  }

  /** The reports after a step are the reports before it, with the same line
      names, except the ones in `changeable`. */
  ghost predicate Confined(before: map<Path, ReportFile>, after: map<Path, ReportFile>, changeable: set<Path>) {
    && after.Keys == before.Keys
    && (forall k :: k in before ==> Names(after[k].records) == Names(before[k].records))
    && (forall k :: k in before && after[k] != before[k] ==> k in changeable)
  }

  lemma ConfinedTransitive(a: map<Path, ReportFile>, b: map<Path, ReportFile>, c: map<Path, ReportFile>,
                           s1: set<Path>, s2: set<Path>)
    requires Confined(a, b, s1) && Confined(b, c, s2)
    ensures Confined(a, c, s1 + s2)
  {
  }

  /** One call changes at most its own report, keeping its line names, and a
      dry run changes nothing. */
  lemma CopyMetadataConfined(files: map<Path, ReportFile>, attributes: seq<string>, reportTsv: Path,
                             modality: string, dryrun: bool, sources: Sources)
    ensures Confined(files, CopyMetadataSpec(files, attributes, reportTsv, modality, dryrun, sources).0, {reportTsv})
    ensures dryrun ==> CopyMetadataSpec(files, attributes, reportTsv, modality, dryrun, sources).0 == files
  {
    CopyMetadataFrame(files, attributes, reportTsv, modality, dryrun, sources);
    if reportTsv in files {
      CopyMetadataLines(files, attributes, reportTsv, modality, dryrun, sources);
    }
  }

  /** Only the project's two reports can change, every report keeps its line
      names, and a dry run changes nothing. */
  lemma ProjectReportsEffect(files: map<Path, ReportFile>, project: Path, attributes: seq<string>, dryrun: bool,
                             sources: Sources)
    ensures Confined(files, ProjectReports(files, project, attributes, dryrun, sources).0,
                     {project.Div(T1wReport), project.Div(BoldReport)})
    ensures dryrun ==> ProjectReports(files, project, attributes, dryrun, sources).0 == files
  {
    var t1w := project.Div(T1wReport);
    var bold := project.Div(BoldReport);
    var anat := CopyMetadataSpec(files, attributes, t1w, "anat", dryrun, sources);
    CopyMetadataConfined(files, attributes, t1w, "anat", dryrun, sources);
    if anat.1.None? {
      CopyMetadataConfined(anat.0, attributes, bold, "func", dryrun, sources);
      ConfinedTransitive(files, anat.0, ProjectReports(files, project, attributes, dryrun, sources).0, {t1w}, {bold});
    }
  }

  /** A report whose lines were each filled from their own sources: the same
      line names in the same order, the old columns kept, and each line's
      cells what `FillCells` makes of the old ones. */
  predicate Filled(before: ReportFile, after: ReportFile, q: Request) {
    && Names(after.records) == Names(before.records)
    && before.columns <= after.columns
    && forall i :: 0 <= i < |before.records| ==>
         FillCells(before.records[i].cells, before.records[i].name, q) == Success(after.records[i].cells)
  }

  /** The request of one report: its BIDS folder and its modality. */
  function ReportRequest(report: Path, modality: string, attributes: seq<string>, sources: Sources): Request {
    Request(attributes, modality, BidsFolder(report), sources)
  }

  /** A project's two reports are different files, and different projects
      have different reports. */
  lemma ReportPathsDistinct(p: Path, q: Path)
    ensures p.Div(T1wReport) != q.Div(BoldReport)
    ensures p.Div(T1wReport) == q.Div(T1wReport) ==> p == q
    ensures p.Div(BoldReport) == q.Div(BoldReport) ==> p == q
  {
  }

  /** When the project raises nothing and this is not a dry run, its T1w
      report is filled as anatomical data and its bold report as functional
      data. */
  lemma ProjectReportsFilled(files: map<Path, ReportFile>, project: Path, attributes: seq<string>, dryrun: bool,
                             sources: Sources)
    ensures var (after, error) := ProjectReports(files, project, attributes, dryrun, sources);
            var t1w := project.Div(T1wReport);
            error.None? && !dryrun && t1w in files ==>
              t1w in after && Filled(files[t1w], after[t1w], ReportRequest(t1w, "anat", attributes, sources))
    ensures var (after, error) := ProjectReports(files, project, attributes, dryrun, sources);
            var bold := project.Div(BoldReport);
            error.None? && !dryrun && bold in files ==>
              bold in after && Filled(files[bold], after[bold], ReportRequest(bold, "func", attributes, sources))
  {
    var t1w := project.Div(T1wReport);
    var bold := project.Div(BoldReport);
    ReportPathsDistinct(project, project);
    var anat := CopyMetadataSpec(files, attributes, t1w, "anat", dryrun, sources);
    CopyMetadataFrame(files, attributes, t1w, "anat", dryrun, sources);
    if t1w in files {
      CopyMetadataLines(files, attributes, t1w, "anat", dryrun, sources);
    }
    if anat.1.None? {
      CopyMetadataFrame(anat.0, attributes, bold, "func", dryrun, sources);
      if bold in anat.0 {
        CopyMetadataLines(anat.0, attributes, bold, "func", dryrun, sources);
      }
    }
  }

  /** The project loop of `mriqc_meta`: a folder gets its two reports filled,
      anything else only a warning; the first error ends the loop with the
      reports written so far. */
  function MetaSpec(files: map<Path, ReportFile>, projects: seq<Path>, attributes: seq<string>, dryrun: bool,
                    dirs: set<Path>, sources: Sources): (map<Path, ReportFile>, Option<Error>)
    decreases |projects|
  {
    if |projects| == 0 then (files, None)
    else if projects[0] !in dirs then MetaSpec(files, projects[1..], attributes, dryrun, dirs, sources)
    else
      var step := ProjectReports(files, projects[0], attributes, dryrun, sources);
      if step.1.Some? then step
      else MetaSpec(step.0, projects[1..], attributes, dryrun, dirs, sources)
  }

  /** The group reports of the selected folders among `projects`. */
  function GroupReports(projects: seq<Path>, dirs: set<Path>): (r: set<Path>)
    ensures forall k :: k in r <==>
              exists p :: p in projects && p in dirs && (k == p.Div(T1wReport) || k == p.Div(BoldReport))
    decreases |projects|
  {
    if |projects| == 0 then {}
    else
      var rest := GroupReports(projects[1..], dirs);
      assert forall p :: p in projects <==> p == projects[0] || p in projects[1..];
      (if projects[0] in dirs then {projects[0].Div(T1wReport), projects[0].Div(BoldReport)} else {}) + rest
  }

  /** Only the two group reports of a selected folder can change; every report
      keeps its line names in order; a dry run changes nothing. */
  lemma {:induction false} MetaSpecEffect(files: map<Path, ReportFile>, projects: seq<Path>, attributes: seq<string>,
                                          dryrun: bool, dirs: set<Path>, sources: Sources)
    ensures Confined(files, MetaSpec(files, projects, attributes, dryrun, dirs, sources).0, GroupReports(projects, dirs))
    ensures dryrun ==> MetaSpec(files, projects, attributes, dryrun, dirs, sources).0 == files
    decreases |projects|
  {
    if |projects| > 0 {
      var p := projects[0];
      var rest := projects[1..];
      var after := MetaSpec(files, projects, attributes, dryrun, dirs, sources).0;
      if p !in dirs {
        MetaSpecEffect(files, rest, attributes, dryrun, dirs, sources);
        assert GroupReports(projects, dirs) == GroupReports(rest, dirs);
      } else {
        var step := ProjectReports(files, p, attributes, dryrun, sources);
        var own := {p.Div(T1wReport), p.Div(BoldReport)};
        ProjectReportsEffect(files, p, attributes, dryrun, sources);
        assert GroupReports(projects, dirs) == own + GroupReports(rest, dirs);
        if step.1.None? {
          MetaSpecEffect(step.0, rest, attributes, dryrun, dirs, sources);
          ConfinedTransitive(files, step.0, after, own, GroupReports(rest, dirs));
        }
      }
    }
  }

  /** The reports of a project that is not among the selected folders are
      not group reports of the loop. */
  lemma OutsideGroup(p: Path, projects: seq<Path>, dirs: set<Path>)
    requires p !in projects || p !in dirs
    ensures p.Div(T1wReport) !in GroupReports(projects, dirs)
    ensures p.Div(BoldReport) !in GroupReports(projects, dirs)
  {
    forall q | q in projects && q in dirs
      ensures p.Div(T1wReport) != q.Div(T1wReport) && p.Div(T1wReport) != q.Div(BoldReport)
      ensures p.Div(BoldReport) != q.Div(T1wReport) && p.Div(BoldReport) != q.Div(BoldReport)
    {
      ReportPathsDistinct(p, q);
      ReportPathsDistinct(q, p);
    }
  }

  /** A path that is not an existing folder only gets a warning: its reports
      are left as they are. */
  lemma UnselectedUnchanged(files: map<Path, ReportFile>, projects: seq<Path>, attributes: seq<string>,
                            dryrun: bool, dirs: set<Path>, sources: Sources, p: Path)
    requires p !in dirs
    ensures var after := MetaSpec(files, projects, attributes, dryrun, dirs, sources).0;
            p.Div(T1wReport) in files ==> p.Div(T1wReport) in after && after[p.Div(T1wReport)] == files[p.Div(T1wReport)]
    ensures var after := MetaSpec(files, projects, attributes, dryrun, dirs, sources).0;
            p.Div(BoldReport) in files ==> p.Div(BoldReport) in after && after[p.Div(BoldReport)] == files[p.Div(BoldReport)]
  {
    MetaSpecEffect(files, projects, attributes, dryrun, dirs, sources);
    OutsideGroup(p, projects, dirs);
  }

  /** When the loop raises nothing and this is not a dry run, every selected
      project has its T1w report filled as anatomical data and its bold report
      as functional data. The projects are distinct, as `iterdir` lists each
      child once. */
  lemma {:induction false} MetaSpecFilled(files: map<Path, ReportFile>, projects: seq<Path>, attributes: seq<string>,
                                          dryrun: bool, dirs: set<Path>, sources: Sources, p: Path)
    requires forall i, j :: 0 <= i < j < |projects| ==> projects[i] != projects[j]
    requires p in projects && p in dirs
    ensures var (after, error) := MetaSpec(files, projects, attributes, dryrun, dirs, sources);
            var t1w := p.Div(T1wReport);
            error.None? && !dryrun && t1w in files ==>
              t1w in after && Filled(files[t1w], after[t1w], ReportRequest(t1w, "anat", attributes, sources))
    ensures var (after, error) := MetaSpec(files, projects, attributes, dryrun, dirs, sources);
            var bold := p.Div(BoldReport);
            error.None? && !dryrun && bold in files ==>
              bold in after && Filled(files[bold], after[bold], ReportRequest(bold, "func", attributes, sources))
    decreases |projects|
  {
    var head := projects[0];
    var rest := projects[1..];
    assert forall i, j :: 0 <= i < j < |rest| ==> rest[i] != rest[j] by {
      forall i, j | 0 <= i < j < |rest| ensures rest[i] != rest[j] {
        assert rest[i] == projects[i + 1] && rest[j] == projects[j + 1];
      }
    }
    if head !in dirs {
      assert p in rest;
      MetaSpecFilled(files, rest, attributes, dryrun, dirs, sources, p);
    } else {
      var step := ProjectReports(files, head, attributes, dryrun, sources);
      if step.1.None? && !dryrun {
        assert MetaSpec(files, projects, attributes, dryrun, dirs, sources)
            == MetaSpec(step.0, rest, attributes, dryrun, dirs, sources);
        if head == p {
          assert p !in rest;
          ProjectReportsFilled(files, p, attributes, dryrun, sources);
          LaterProjectsKeep(step.0, rest, attributes, dryrun, dirs, sources, p);
        } else {
          assert p in rest;
          EarlierProjectKeeps(files, head, attributes, dryrun, sources, p);
          MetaSpecFilled(step.0, rest, attributes, dryrun, dirs, sources, p);
        }
      }
    }
  }

  /** The loop over the projects after `p` leaves `p`'s reports as they are. */
  lemma LaterProjectsKeep(files: map<Path, ReportFile>, rest: seq<Path>, attributes: seq<string>, dryrun: bool,
                          dirs: set<Path>, sources: Sources, p: Path)
    requires p !in rest
    ensures var after := MetaSpec(files, rest, attributes, dryrun, dirs, sources).0;
            (p.Div(T1wReport) in files ==> p.Div(T1wReport) in after && after[p.Div(T1wReport)] == files[p.Div(T1wReport)])
            && (p.Div(BoldReport) in files ==> p.Div(BoldReport) in after && after[p.Div(BoldReport)] == files[p.Div(BoldReport)])
  {
    MetaSpecEffect(files, rest, attributes, dryrun, dirs, sources);
    OutsideGroup(p, rest, dirs);
  }

  /** Another project leaves `p`'s reports as they are. */
  lemma EarlierProjectKeeps(files: map<Path, ReportFile>, head: Path, attributes: seq<string>, dryrun: bool,
                            sources: Sources, p: Path)
    requires head != p
    ensures var after := ProjectReports(files, head, attributes, dryrun, sources).0;
            && (p.Div(T1wReport) in files <==> p.Div(T1wReport) in after)
            && (p.Div(T1wReport) in files ==> after[p.Div(T1wReport)] == files[p.Div(T1wReport)])
            && (p.Div(BoldReport) in files <==> p.Div(BoldReport) in after)
            && (p.Div(BoldReport) in files ==> after[p.Div(BoldReport)] == files[p.Div(BoldReport)])
  {
    ProjectReportsEffect(files, head, attributes, dryrun, sources);
    ReportPathsDistinct(p, head);
    ReportPathsDistinct(head, p);
  }

  // ------------------------------------------------------------ the reports on disk

  /** The group reports on disk, by path; the tools read and rewrite them in
      place. */
  class ReportStore {
    var files: map<Path, ReportFile>

    constructor(files0: map<Path, ReportFile>)
      ensures files == files0
    {
      files := files0;
    }

    /** `copymetadata(attributes, report_tsv, modality, dryrun)`: the report is
        filled cell by cell and written back at the end. */
    method CopyMetadata(attributes: seq<string>, reportTsv: Path, modality: string, dryrun: bool, sources: Sources)
      returns (error: Option<Error>)
      modifies this
      ensures (files, error) == CopyMetadataSpec(old(files), attributes, reportTsv, modality, dryrun, sources)
    {
      error := None;
      if reportTsv !in files {
        return;
      }
      var indexed := IndexReport(files[reportTsv]);
      if indexed.Failure? {
        error := Some(indexed.error);
        return;
      }
      var report := indexed.value;
      var ids := report.ids;
      var q := Request(attributes, modality, BidsFolder(reportTsv), sources);
      var i := 0;
      while i < |ids|
        invariant 0 <= i <= |ids|
        invariant report.ids == ids
        invariant forall k :: k in report.rows <==> k in ids
        invariant FillAll(report, ids[i..], q) == FillAll(indexed.value, ids, q)
        invariant files == old(files) && error.None?
      {
        var step := FillLine(report, ids[i], q);
        if step.Failure? {
          error := Some(step.error);
          return;
        }
        report := step.value;
        assert ids[i..][1..] == ids[i + 1..];
        i := i + 1;
      }
      if !dryrun {
        files := files[reportTsv := WriteReport(report)];
      }
    }

    /** `mriqc_meta(project, meta, dryrun)` over the folders in `dirs` and the
        MRIQC data folder whose children are `children`. */
    method MriqcMeta(project: Selector, attributes: seq<string>, dryrun: bool, dirs: set<Path>,
                     children: seq<string>, sources: Sources)
      returns (error: Option<Error>)
      modifies this
      ensures (files, error) == MetaSpec(old(files), Projects(project, children), attributes, dryrun, dirs, sources)
    {
      error := None;
      var projects := Projects(project, children);
      var i := 0;
      while i < |projects|
        invariant 0 <= i <= |projects|
        invariant MetaSpec(files, projects[i..], attributes, dryrun, dirs, sources)
               == MetaSpec(old(files), projects, attributes, dryrun, dirs, sources)
        invariant error.None?
      {
        var p := projects[i];
        assert projects[i..][1..] == projects[i + 1..];
        if p in dirs {
          ghost var before := files;
          error := CopyMetadata(attributes, p.Div(T1wReport), "anat", dryrun, sources);
          if error.Some? {
            return;
          }
          error := CopyMetadata(attributes, p.Div(BoldReport), "func", dryrun, sources);
          assert (files, error) == ProjectReports(before, p, attributes, dryrun, sources);
          if error.Some? {
            return;
          }
        }
        i := i + 1;
      }
    }
  }

  /** The body of the report loop for the line `bidsname`: sex and age, then
      the acquisition time, then the sidecar attributes, each read from its
      file and set in the report. */
  method FillLine(report: Table, bidsname: string, q: Request) returns (result: Result<Table, Error>)
    requires bidsname in report.rows
    ensures result == FillStep(report, bidsname, q)
  {
    var labels := Labels(bidsname);
    if labels.Failure? {
      return Failure(labels.error);
    }
    var sub := labels.value.0;
    var ses := labels.value.1;
    var people := ReadTable(q.sources, ParticipantsFile(q.bidsfolder));
    if people.Failure? {
      return Failure(people.error);
    }
    var sex := Loc(people.value, sub, "sex");
    if sex.Failure? {
      return Failure(sex.error);
    }
    var age := Loc(people.value, sub, "age");
    if age.Failure? {
      return Failure(age.error);
    }
    var scans := ReadTable(q.sources, ScansPath(q.bidsfolder, sub, ses));
    if scans.Failure? {
      return Failure(scans.error);
    }
    var acq := Loc(scans.value, ScanKey(q.modality, bidsname), "acq_time");
    if acq.Failure? {
      return Failure(acq.error);
    }
    var doc := ReadDocument(q.sources, JsonPath(q.bidsfolder, sub, ses, q.modality, bidsname));
    if doc.Failure? {
      return Failure(doc.error);
    }
    var t := WriteLine(report, bidsname, q.attributes, sex.value, age.value, acq.value, doc.value);
    FillCellsValue(report.rows[bidsname], bidsname, q);
    return Success(t);
  }

  /** The writes of one line: `meta.Sex`, `meta.Age` and
      `meta.AcquisitionTime`, then one cell per attribute. */
  method WriteLine(report: Table, bidsname: string, attributes: seq<string>, sex: Value, age: Value, acq: Value,
                   doc: map<string, Value>) returns (t: Table)
    requires bidsname in report.rows
    ensures t == Table(report.columns + MetaColumns(attributes), report.ids,
                       report.rows[bidsname := SetAttributes(report.rows[bidsname]["meta.Sex" := sex]["meta.Age" := age]
                                                                 ["meta.AcquisitionTime" := acq], attributes, doc)])
  {
    t := SetCell(report, bidsname, "meta.Sex", sex);
    t := SetCell(t, bidsname, "meta.Age", age);
    t := SetCell(t, bidsname, "meta.AcquisitionTime", acq);
    FixedWrites(report, bidsname, sex, age, acq);
    ghost var fixed := t;
    t := FillAttributes(t, bidsname, attributes, doc);
    assert t.columns == report.columns + MetaColumns(attributes);
    assert t.rows == report.rows[bidsname := SetAttributes(fixed.rows[bidsname], attributes, doc)];
  }

  /** The three fixed cells written one after the other. */
  lemma FixedWrites(report: Table, bidsname: string, sex: Value, age: Value, acq: Value)
    requires bidsname in report.rows
    ensures var t := SetCell(SetCell(SetCell(report, bidsname, "meta.Sex", sex), bidsname, "meta.Age", age),
                             bidsname, "meta.AcquisitionTime", acq);
            && t.ids == report.ids
            && t.columns == report.columns + {"meta.Sex", "meta.Age", "meta.AcquisitionTime"}
            && t.rows == report.rows[bidsname := report.rows[bidsname]["meta.Sex" := sex]["meta.Age" := age]
                                                                     ["meta.AcquisitionTime" := acq]]
  {
  }

  /** The attribute loop of one line: `meta.<attribute>` set cell by cell. */
  method FillAttributes(t: Table, bidsname: string, attributes: seq<string>, doc: map<string, Value>)
    returns (r: Table)
    requires bidsname in t.rows
    ensures r == Table(t.columns + AttributeColumns(attributes), t.ids,
                       t.rows[bidsname := SetAttributes(t.rows[bidsname], attributes, doc)])
  {
    r := t;
    var j := 0;
    while j < |attributes|
      invariant 0 <= j <= |attributes|
      invariant r.ids == t.ids && bidsname in r.rows
      invariant r.columns == t.columns + AttributeColumns(attributes[..j])
      invariant r.rows == t.rows[bidsname := r.rows[bidsname]]
      invariant SetAttributes(r.rows[bidsname], attributes[j..], doc) == SetAttributes(t.rows[bidsname], attributes, doc)
    {
      var a := attributes[j];
      r := SetCell(r, bidsname, "meta." + a, Get(doc, a));
      assert attributes[j..][1..] == attributes[j + 1..];
      assert attributes[..j + 1] == attributes[..j] + [a];
      assert AttributeColumns(attributes[..j + 1]) == AttributeColumns(attributes[..j]) + {"meta." + a};
      j := j + 1;
    }
    assert attributes[..j] == attributes;
  }
}
