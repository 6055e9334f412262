/** process_documents_by_tag, prepare_tag_directory_for_export,
    has_file_from_today, the naming loop of export_to_excel and
    export_for_tags, as methods of the export directory they change. */
module Exporter {
  import opened Wrappers
  import opened Strings
  import opened Dicts
  import opened Dates
  import opened Sanitize
  import opened CustomFields
  import opened Rows
  import opened Folders

  /** What the document loop asks the server for besides the documents
      list: the `custom_fields` list of a document's detail record (None when
      the record has none) and the status of its PDF download. */
  datatype Remote = Remote(customFields: int -> Option<seq<Entry>>, download: int -> int)

  /** The arguments of one process_documents_by_tag call, with the clock read once. */
  datatype Job = Job(
    tagName: string,
    tagId: int,
    isAllDocs: bool,
    defs: map<int, FieldDef>,
    ctx: Context,
    remote: Remote,
    now: Timestamp)

  /** How a process_documents_by_tag call ends: skipped for a same-day
      ALLDocs export, done with the number of rows it logs, or raising. */
  datatype Outcome = Skipped | Exported(rows: nat) | Failed(error: string)

  /** A tag from the tags list. */
  datatype Tag = Tag(id: int, name: string)

  /** The state of the document loop: the tag folder, document_data,
      currency_columns, and the error that ended it, if one did. */
  datatype Progress = Progress(folder: Folder, data: seq<Dict<string, Cell>>, currency: seq<string>, error: Option<string>)

  function CustomOf(defs: map<int, FieldDef>, entries: Option<seq<Entry>>): Result<Fields, string> {
    if entries.None? then Success(NoFields) else ResolveAll(defs, entries.value)
  }

  function FolderOr(dirs: map<string, Folder>, name: string): Folder {
    if name in dirs then dirs[name] else map[]
  }

  /** The folder after export_pdf: the download saved as <sanitised
      title>.pdf when the server answers 200, the folder unchanged otherwise. */
  function WithPdf(folder: Folder, doc: Document, status: int, today: Date): (r: Folder)
    ensures status == 200 ==> SanitizeFilename(doc.title) + ".pdf" in r
    ensures status != 200 ==> r == folder
    ensures forall n :: n in folder && n != SanitizeFilename(doc.title) + ".pdf" ==> n in r && r[n] == folder[n]
  {
    if status == 200 then folder[SanitizeFilename(doc.title) + ".pdf" := File(today, Pdf(doc.id))] else folder
  }

  /** The folder after export_json: <sanitised title>.json written or replaced. */
  function WithJson(folder: Folder, doc: Document, today: Date): (r: Folder)
    ensures r.Keys == folder.Keys + {SanitizeFilename(doc.title) + ".json"}
    ensures r[SanitizeFilename(doc.title) + ".json"] == File(today, Metadata(doc.id))
    ensures forall n :: n in folder && n != SanitizeFilename(doc.title) + ".json" ==> r[n] == folder[n]
  {
    folder[SanitizeFilename(doc.title) + ".json" := File(today, Metadata(doc.id))]
  }

  /** export_pdf then export_json for one document. */
  function WriteFiles(job: Job, folder: Folder, doc: Document): (r: Folder)
    ensures folder.Keys <= r.Keys
    ensures SanitizeFilename(doc.title) + ".json" in r
    ensures job.remote.download(doc.id) == 200 ==> SanitizeFilename(doc.title) + ".pdf" in r
  {
    WithJson(WithPdf(folder, doc, job.remote.download(doc.id), job.now.Day()), doc, job.now.Day())
  }

  /** A selected document's custom fields, as process_custom_fields gives them. */
  function FieldsOf(job: Job, doc: Document): Result<Fields, string> {
    CustomOf(job.defs, job.remote.customFields(doc.id))
  }

  /** One turn of the document loop. */
  function Step(job: Job, p: Progress, doc: Document): Progress
    requires p.error.None?
  {
    if !Selected(doc, job.tagId, job.isAllDocs) then p
    else
      match FieldsOf(job, doc)
      case Failure(err) => p.(error := Some(err))
      case Success(fields) =>
        var row := Row(doc, job.ctx, fields.cells);
        Progress(WriteFiles(job, p.folder, doc), p.data + [row, row], p.currency + fields.currency, None)
  }

  lemma StepWrites(job: Job, p: Progress, doc: Document, fields: Fields)
    requires p.error.None? && Selected(doc, job.tagId, job.isAllDocs) && FieldsOf(job, doc) == Success(fields)
    ensures Step(job, p, doc) ==
      var row := Row(doc, job.ctx, fields.cells);
      Progress(WriteFiles(job, p.folder, doc), p.data + [row, row], p.currency + fields.currency, None)
  {
  }

  /** The document loop over a list, from the folder it starts in. */
  function RunDocs(job: Job, start: Folder, docs: seq<Document>): Progress {
    if docs == [] then Progress(start, [], [], None)
    else
      var p := RunDocs(job, start, docs[..|docs| - 1]);
      if p.error.Some? then p else Step(job, p, docs[|docs| - 1])
  }

  lemma RunSnoc(job: Job, start: Folder, docs: seq<Document>, d: Document)
    ensures RunDocs(job, start, docs + [d]) ==
      if RunDocs(job, start, docs).error.Some? then RunDocs(job, start, docs)
      else Step(job, RunDocs(job, start, docs), d)
  {
    assert (docs + [d])[..|docs|] == docs;
  }

  lemma RunStep(job: Job, start: Folder, docs: seq<Document>, i: nat)
    requires i < |docs|
    requires RunDocs(job, start, docs[..i]).error.None?
    ensures RunDocs(job, start, docs[..i + 1]) == Step(job, RunDocs(job, start, docs[..i]), docs[i])
  {
    assert docs[..i + 1] == docs[..i] + [docs[i]];
    RunSnoc(job, start, docs[..i], docs[i]);
  }

  /** Once the loop raises, the rest of the documents change nothing. */
  lemma {:induction false} ErrorSticks(job: Job, start: Folder, docs: seq<Document>, n: nat)
    requires n <= |docs|
    requires RunDocs(job, start, docs[..n]).error.Some?
    ensures RunDocs(job, start, docs) == RunDocs(job, start, docs[..n])
  {
    if n < |docs| {
      var init := docs[..|docs| - 1];
      assert init[..n] == docs[..n];
      ErrorSticks(job, start, init, n);
      assert docs == init + [docs[|docs| - 1]];
      RunSnoc(job, start, init, docs[|docs| - 1]);
    } else {
      assert docs[..n] == docs;
    }
  }

  /** The loop stops at the end of the list or at the first error, and
      either way has its final state. */
  lemma RunEnds(job: Job, start: Folder, docs: seq<Document>, i: nat)
    requires i <= |docs|
    requires i == |docs| || RunDocs(job, start, docs[..i]).error.Some?
    ensures RunDocs(job, start, docs) == RunDocs(job, start, docs[..i])
  {
    if i == |docs| {
      assert docs[..i] == docs;
    } else {
      ErrorSticks(job, start, docs, i);
    }
  }

  /** The documents the loop keeps. */
  function SelectedDocs(job: Job, docs: seq<Document>): (r: seq<Document>)
    ensures forall d :: d in r <==> d in docs && Selected(d, job.tagId, job.isAllDocs)
  {
    if docs == [] then []
    else
      var d := docs[|docs| - 1];
      assert forall e :: e in docs <==> e in docs[..|docs| - 1] || e == d;
      SelectedDocs(job, docs[..|docs| - 1]) + if Selected(d, job.tagId, job.isAllDocs) then [d] else []
  }

  /** Each element given twice in a row. */
  function Twice<T>(s: seq<T>): (r: seq<T>)
    ensures |r| == 2 * |s|
    ensures forall i :: 0 <= i < |s| ==> r[2 * i] == s[i] && r[2 * i + 1] == s[i]
  {
    if s == [] then [] else Twice(s[..|s| - 1]) + [s[|s| - 1], s[|s| - 1]]
  }

  lemma TwiceSnoc<T>(s: seq<T>, x: T)
    ensures Twice(s + [x]) == Twice(s) + [x, x]
  {
    assert (s + [x])[..|s|] == s;
  }

  /** The row of each selected document whose custom fields resolve, in order. */
  function ExpectedRows(job: Job, docs: seq<Document>): seq<Dict<string, Cell>> {
    if docs == [] then []
    else
      var d := docs[|docs| - 1];
      ExpectedRows(job, docs[..|docs| - 1])
        + if Selected(d, job.tagId, job.isAllDocs) && FieldsOf(job, d).Success?
          then [Row(d, job.ctx, FieldsOf(job, d).value.cells)] else []
  }

  /** A selected document whose custom fields raise. */
  predicate Raising(job: Job, d: Document) {
    Selected(d, job.tagId, job.isAllDocs) && FieldsOf(job, d).Failure?
  }

  lemma StepError(job: Job, p: Progress, d: Document)
    requires p.error.None?
    ensures Step(job, p, d).error.Some? <==> Raising(job, d)
  {
  }

  /** The loop raises exactly when a selected document's custom fields do. */
  lemma RunFailsIff(job: Job, start: Folder, docs: seq<Document>)
    ensures RunDocs(job, start, docs).error.Some? <==> exists i :: 0 <= i < |docs| && Raising(job, docs[i])
  {
    RunFailsAny(job, start, docs);
    AnyRaisingIndex(job, docs);
  }

  /** Some document of the list raises. */
  predicate AnyRaising(job: Job, docs: seq<Document>) {
    docs != [] && (AnyRaising(job, docs[..|docs| - 1]) || Raising(job, docs[|docs| - 1]))
  }

  lemma {:induction false} RunFailsAny(job: Job, start: Folder, docs: seq<Document>)
    ensures RunDocs(job, start, docs).error.Some? <==> AnyRaising(job, docs)
  {
    if docs != [] {
      var init := docs[..|docs| - 1];
      RunFailsAny(job, start, init);
      if RunDocs(job, start, init).error.None? {
        StepError(job, RunDocs(job, start, init), docs[|docs| - 1]);
      }
    }
  }

  lemma {:induction false} AnyRaisingIndex(job: Job, docs: seq<Document>)
    ensures AnyRaising(job, docs) <==> exists i :: 0 <= i < |docs| && Raising(job, docs[i])
  {
    if docs != [] {
      var init := docs[..|docs| - 1];
      AnyRaisingIndex(job, init);
      assert forall i :: 0 <= i < |init| ==> init[i] == docs[i];
      if (exists i :: 0 <= i < |docs| && Raising(job, docs[i])) && !AnyRaising(job, init) {
        assert Raising(job, docs[|docs| - 1]);
      }
    }
  }

  lemma StepRows(job: Job, p: Progress, d: Document)
    requires p.error.None? && Step(job, p, d).error.None?
    ensures Selected(d, job.tagId, job.isAllDocs) ==>
      FieldsOf(job, d).Success? &&
      var row := Row(d, job.ctx, FieldsOf(job, d).value.cells);
      Step(job, p, d).data == p.data + [row, row]
    ensures !Selected(d, job.tagId, job.isAllDocs) ==> Step(job, p, d) == p
  {
  }

  /** When nothing raises, document_data holds each selected document's row
      twice over, in document order. */
  lemma {:induction false} RunRows(job: Job, start: Folder, docs: seq<Document>)
    requires RunDocs(job, start, docs).error.None?
    ensures RunDocs(job, start, docs).data == Twice(ExpectedRows(job, docs))
    ensures |ExpectedRows(job, docs)| == |SelectedDocs(job, docs)|
  {
    if docs != [] {
      var init := docs[..|docs| - 1];
      var last := docs[|docs| - 1];
      assert docs == init + [last];
      RunSnoc(job, start, init, last);
      RunRows(job, start, init);
      StepRows(job, RunDocs(job, start, init), last);
      if Selected(last, job.tagId, job.isAllDocs) {
        var row := Row(last, job.ctx, FieldsOf(job, last).value.cells);
        assert ExpectedRows(job, docs) == ExpectedRows(job, init) + [row];
        TwiceSnoc(ExpectedRows(job, init), row);
      } else {
        assert ExpectedRows(job, docs) == ExpectedRows(job, init);
      }
    }
  }

  /** The logged count is twice the number of selected documents. */
  lemma LoggedCount(job: Job, start: Folder, docs: seq<Document>)
    requires RunDocs(job, start, docs).error.None?
    ensures |RunDocs(job, start, docs).data| == 2 * |SelectedDocs(job, docs)|
  {
    RunRows(job, start, docs);
  }

  lemma StepFolder(job: Job, p: Progress, d: Document)
    requires p.error.None? && Step(job, p, d).error.None?
    ensures Step(job, p, d).folder == if Selected(d, job.tagId, job.isAllDocs) then WriteFiles(job, p.folder, d) else p.folder
  {
  }

  /** When nothing raises, every file that was there is still there, every
      selected document has its JSON file, and its PDF when the download
      answered 200. */
  lemma {:induction false} RunWritesFiles(job: Job, start: Folder, docs: seq<Document>)
    requires RunDocs(job, start, docs).error.None?
    ensures start.Keys <= RunDocs(job, start, docs).folder.Keys
    ensures forall d :: d in docs && Selected(d, job.tagId, job.isAllDocs) ==>
      SanitizeFilename(d.title) + ".json" in RunDocs(job, start, docs).folder
    ensures forall d :: d in docs && Selected(d, job.tagId, job.isAllDocs) && job.remote.download(d.id) == 200 ==>
      SanitizeFilename(d.title) + ".pdf" in RunDocs(job, start, docs).folder
  {
    if docs != [] {
      var init := docs[..|docs| - 1];
      var last := docs[|docs| - 1];
      assert docs == init + [last];
      RunSnoc(job, start, init, last);
      RunWritesFiles(job, start, init);
      StepFolder(job, RunDocs(job, start, init), last);
      assert forall d :: d in docs ==> d in init || d == last;
    }
  }

  lemma AppendedTwice<T>(s: seq<T>, x: T)
    ensures s + [x] + [x] == s + [x, x]
  {
  }

  /** What process_documents_by_tag reports once the loop has run. */
  function OutcomeOf(run: Progress): (r: Outcome)
    ensures r.Failed? <==> run.error.Some?
  {
    if run.error.Some? then Failed(run.error.value) else Exported(|run.data|)
  }

  /** The tag folder at the end: the spreadsheet added under `sheet` when
      the loop did not raise. */
  function Finished(run: Progress, sheet: string, day: Date): Folder {
    if run.error.Some? then run.folder else run.folder[sheet := File(day, Sheet(run.data, run.currency))]
  }

  /** The tag folder after process_documents_by_tag exported into `before`:
      the document loop's folder, plus the spreadsheet under the first free
      name when the loop did not raise. */
  ghost predicate ExportedInto(job: Job, before: Folder, documents: seq<Document>, after: Folder) {
    var run := RunDocs(job, before, documents);
    exists sheet :: after == Finished(run, sheet, job.now.Day())
      && (run.error.None? ==> FirstFree(run.folder, SheetBase(job.tagName, job.now), sheet))
  }

  /** The job export_for_tags runs for one of the listed tags. */
  function TagJob(tag: Tag, defs: map<int, FieldDef>, ctx: Context, remote: Remote, now: Timestamp): (job: Job)
    ensures job.tagName == tag.name && job.tagId == tag.id && !job.isAllDocs
  {
    Job(tag.name, tag.id, false, defs, ctx, remote, now)
  }

  /** The names of the tags. */
  function Names(tags: seq<Tag>): (r: set<string>)
    ensures forall n :: n in r <==> exists t :: t in tags && t.name == n
  {
    set t | t in tags :: t.name
  }

  lemma NamesSnoc(tags: seq<Tag>, i: nat)
    requires i < |tags|
    ensures Names(tags[..i + 1]) == Names(tags[..i]) + {tags[i].name}
  {
    assert tags[..i + 1] == tags[..i] + [tags[i]];
  }

  /** No other tag of the list has the name of the tag at position j. */
  predicate NamedOnce(tags: seq<Tag>, j: int)
    requires 0 <= j < |tags|
  {
    forall k :: 0 <= k < |tags| && k != j ==> tags[k].name != tags[j].name
  }

  lemma NamedOnceNotBefore(tags: seq<Tag>, i: nat)
    requires i < |tags| && NamedOnce(tags, i)
    ensures tags[i].name !in Names(tags[..i])
  {
  }

  /** Every tag among the first n that is the only one of its name and had
      a directory in `before` is archived and exported into in `after`. */
  ghost predicate TagsExported(tags: seq<Tag>, n: nat, before: map<string, Folder>, after: map<string, Folder>,
                               documents: seq<Document>, defs: map<int, FieldDef>, ctx: Context, remote: Remote, now: Timestamp)
    requires n <= |tags|
  {
    forall j :: 0 <= j < n && NamedOnce(tags, j) && tags[j].name in before ==>
      tags[j].name in after
      && ExportedInto(TagJob(tags[j], defs, ctx, remote, now),
                      Prepared(before[tags[j].name], tags[j].name, now), documents, after[tags[j].name])
  }

  /** One more turn of the tag loop: the tags before it keep their
      directories, and the tag of the turn is exported into if it is the only
      one of its name. */
  lemma TagsExportedSnoc(tags: seq<Tag>, i: nat, root: map<string, Folder>, before: map<string, Folder>,
                         after: map<string, Folder>, documents: seq<Document>, defs: map<int, FieldDef>,
                         ctx: Context, remote: Remote, now: Timestamp)
    requires i < |tags| && before.Keys == after.Keys
    requires TagsExported(tags, i, root, before, documents, defs, ctx, remote, now)
    requires forall n :: n in before && n != tags[i].name ==> after[n] == before[n]
    requires NamedOnce(tags, i) && tags[i].name in root ==>
      tags[i].name in after
      && ExportedInto(TagJob(tags[i], defs, ctx, remote, now),
                      Prepared(root[tags[i].name], tags[i].name, now), documents, after[tags[i].name])
    ensures TagsExported(tags, i + 1, root, after, documents, defs, ctx, remote, now)
  {
    forall j | 0 <= j < i && NamedOnce(tags, j) && tags[j].name in root
      ensures tags[j].name in after
      ensures ExportedInto(TagJob(tags[j], defs, ctx, remote, now),
                           Prepared(root[tags[j].name], tags[j].name, now), documents, after[tags[j].name])
    {
      assert tags[i].name != tags[j].name;
    }
  }

  /** What holds from `mid` holds from any `before` that agrees with it on
      the names it holds. */
  lemma TagsExportedFrom(tags: seq<Tag>, before: map<string, Folder>, mid: map<string, Folder>, after: map<string, Folder>,
                         documents: seq<Document>, defs: map<int, FieldDef>, ctx: Context, remote: Remote, now: Timestamp)
    requires forall n :: n in before ==> n in mid && mid[n] == before[n]
    requires TagsExported(tags, |tags|, mid, after, documents, defs, ctx, remote, now)
    ensures TagsExported(tags, |tags|, before, after, documents, defs, ctx, remote, now)
  {
  }

  /** The names of the tags whose directory is missing, in tag order. */
  function Missing(tags: seq<Tag>, present: set<string>): (r: seq<string>)
    ensures forall n :: n in r <==> exists t :: t in tags && t.name == n && n !in present
  {
    if tags == [] then []
    else
      var t := tags[|tags| - 1];
      assert forall u :: u in tags <==> u in tags[..|tags| - 1] || u == t;
      Missing(tags[..|tags| - 1], present) + if t.name in present then [] else [t.name]
  }

  lemma MissingSnoc(tags: seq<Tag>, i: nat, present: set<string>)
    requires i < |tags|
    ensures Missing(tags[..i + 1], present) ==
      Missing(tags[..i], present) + if tags[i].name in present then [] else [tags[i].name]
  {
    assert tags[..i + 1][..i] == tags[..i];
  }

  /** The export directory: one folder per subdirectory. */
  class ExportRoot {
    var dirs: map<string, Folder>

    constructor (dirs0: map<string, Folder>)
      ensures dirs == dirs0
    {
      dirs := dirs0;
    }

    /** has_file_from_today(<export_dir>/<tagName>) */
    method HasFileFromToday(tagName: string, today: Date) returns (found: bool)
      ensures found <==> tagName in dirs && HasFileFrom(dirs[tagName], today)
    {
      if tagName !in dirs {
        return false;
      }
      var folder := dirs[tagName];
      var names := folder.Keys;
      while names != {}
        invariant names <= folder.Keys
        invariant forall n :: n in folder && n !in names ==> folder[n].modified != today
        decreases names
      {
        var n :| n in names;
        if folder[n].modified == today {
          return true;
        }
        names := names - {n};
      }
      return false;
    }

    /** prepare_tag_directory_for_export(tagName, <export_dir>/<tagName>):
        pack every non-.zip file into a new archive, then delete them. */
    method PrepareTagDirectory(tagName: string, now: Timestamp)
      requires tagName in dirs
      modifies this
      ensures dirs == old(dirs)[tagName := Prepared(old(dirs)[tagName], tagName, now)]
    {
      var folder := dirs[tagName];
      var packed: set<string> := {};
      var kept: Folder := map[];
      var names := folder.Keys;
      while names != {}
        invariant names <= folder.Keys
        invariant packed == set n | n in folder && n !in names && !IsZip(n)
        invariant kept == map n | n in folder && n !in names && IsZip(n) :: folder[n]
        decreases names
      {
        var n :| n in names;
        if IsZip(n) {
          kept := kept[n := folder[n]];
        } else {
          packed := packed + {n};
        }
        names := names - {n};
      }
      assert kept == map n | n in folder && IsZip(n) :: folder[n];
      assert packed == Packed(folder);
      dirs := dirs[tagName := kept[ArchiveName(tagName, now) := File(now.Day(), Zip(packed))]];
    }

    /** The file-name loop of export_to_excel: the first of
        ##export-<tag>-<yyyymmdd>.xlsx, then -1, -2, ... that does not exist. */
    method SpreadsheetName(tagName: string, now: Timestamp) returns (name: string, tries: nat)
      requires tagName in dirs
      ensures name == Candidate(SheetBase(tagName, now), tries) && name !in dirs[tagName]
      ensures forall j :: 0 <= j < tries ==> Candidate(SheetBase(tagName, now), j) in dirs[tagName]
    {
      var folder := dirs[tagName];
      var base := SheetBase(tagName, now);
      var counter := 1;
      name := Candidate(base, 0);
      while name in folder
        invariant 1 <= counter
        invariant name == Candidate(base, counter - 1)
        invariant forall j :: 0 <= j < counter - 1 ==> Candidate(base, j) in folder
        decreases |folder.Keys| - (counter - 1)
      {
        CandidatesFit(folder, base, counter);
        name := Candidate(base, counter);
        counter := counter + 1;
      }
      tries := counter - 1;
    }

    /** export_pdf(doc_id, doc_title, tag_dir, ...), given the status of the
        download request. */
    method ExportPdf(tagName: string, doc: Document, status: int, today: Date)
      requires tagName in dirs
      modifies this
      ensures dirs == old(dirs)[tagName := WithPdf(old(dirs)[tagName], doc, status, today)]
    {
      if status == 200 {
        var path := SanitizeFilename(doc.title) + ".pdf";
        dirs := dirs[tagName := dirs[tagName][path := File(today, Pdf(doc.id))]];
      }
    }

    /** export_json(detailed_doc, doc_title, tag_dir) */
    method ExportJson(tagName: string, doc: Document, today: Date)
      requires tagName in dirs
      modifies this
      ensures dirs == old(dirs)[tagName := WithJson(old(dirs)[tagName], doc, today)]
    {
      var path := SanitizeFilename(doc.title) + ".json";
      dirs := dirs[tagName := dirs[tagName][path := File(today, Metadata(doc.id))]];
    }

    /** One turn of the document loop: a document outside the tag is passed
        over; otherwise its custom fields are resolved, its row is appended,
        its files are written and its row is appended again. */
    method ExportDocument(job: Job, doc: Document, data: seq<Dict<string, Cell>>, currency: seq<string>)
      returns (p: Progress)
      requires job.tagName in dirs
      modifies this
      ensures p == Step(job, Progress(old(dirs)[job.tagName], data, currency, None), doc)
      ensures dirs == old(dirs)[job.tagName := p.folder]
    {
      var start := Progress(dirs[job.tagName], data, currency, None);
      if !Selected(doc, job.tagId, job.isAllDocs) {
        return start;
      }
      var fields := ProcessCustomFields(job.defs, job.remote.customFields(doc.id));
      if fields.Failure? {
        return start.(error := Some(fields.error));
      }
      StepWrites(job, start, doc, fields.value);
      p := ExportRow(job, doc, fields.value, data, currency);
    }

    /** The rest of a turn for a document whose custom fields resolved: the
        row goes into document_data, the PDF and JSON files are written, and
        the row goes in a second time. */
    method ExportRow(job: Job, doc: Document, fields: Fields, data: seq<Dict<string, Cell>>, currency: seq<string>)
      returns (p: Progress)
      requires job.tagName in dirs
      modifies this
      ensures var row := Row(doc, job.ctx, fields.cells);
        p == Progress(WriteFiles(job, old(dirs)[job.tagName], doc), data + [row, row], currency + fields.currency, None)
      ensures dirs == old(dirs)[job.tagName := p.folder]
    {
      var row := Row(doc, job.ctx, fields.cells);
      var rows := data + [row];
      WriteDocumentFiles(job, doc);
      rows := rows + [row];
      AppendedTwice(data, row);
      p := Progress(dirs[job.tagName], rows, currency + fields.currency, None);
    }

    /** export_pdf, then export_json, into the tag directory. */
    method WriteDocumentFiles(job: Job, doc: Document)
      requires job.tagName in dirs
      modifies this
      ensures dirs == old(dirs)[job.tagName := WriteFiles(job, old(dirs)[job.tagName], doc)]
    {
      ExportPdf(job.tagName, doc, job.remote.download(doc.id), job.now.Day());
      ExportJson(job.tagName, doc, job.now.Day());
    }

    /** The document loop of process_documents_by_tag, in an existing tag
        directory: returns document_data and currency_columns, or the error
        that ended the loop. */
    method ExportDocuments(job: Job, documents: seq<Document>) returns (run: Progress)
      requires job.tagName in dirs
      modifies this
      ensures run == RunDocs(job, old(dirs)[job.tagName], documents)
      ensures dirs == old(dirs)[job.tagName := run.folder]
    {
      ghost var root := dirs;
      ghost var start := dirs[job.tagName];
      run := Progress(dirs[job.tagName], [], [], None);
      var i := 0;
      while i < |documents| && run.error.None?
        invariant i <= |documents| && job.tagName in dirs
        invariant dirs == root[job.tagName := run.folder]
        invariant run == RunDocs(job, start, documents[..i])
      {
        run := ExportNext(job, start, documents, i, run);
        i := i + 1;
      }
      RunEnds(job, start, documents, i);
    }

    method ExportNext(job: Job, ghost start: Folder, documents: seq<Document>, i: nat, run: Progress)
      returns (p: Progress)
      requires job.tagName in dirs && i < |documents|
      requires run == RunDocs(job, start, documents[..i]) && run.error.None? && dirs[job.tagName] == run.folder
      modifies this
      ensures p == RunDocs(job, start, documents[..i + 1])
      ensures dirs == old(dirs)[job.tagName := p.folder]
    {
      RunStep(job, start, documents, i);
      p := ExportDocument(job, documents[i], run.data, run.currency);
    }

    /** The export into a tag directory that exists: the document loop, then
        on success the spreadsheet under the first free name. */
    method ExportTag(job: Job, documents: seq<Document>) returns (outcome: Outcome, sheet: string)
      requires job.tagName in dirs
      modifies this
      ensures var run := RunDocs(job, old(dirs)[job.tagName], documents);
        outcome == OutcomeOf(run)
        && (run.error.None? ==> FirstFree(run.folder, SheetBase(job.tagName, job.now), sheet))
        && dirs == old(dirs)[job.tagName := Finished(run, sheet, job.now.Day())]
    {
      var run := ExportDocuments(job, documents);
      if run.error.Some? {
        return Failed(run.error.value), "";
      }
      sheet := SaveSheet(job.tagName, job.now, run.data, run.currency);
      return Exported(|run.data|), sheet;
    }

    /** The end of export_to_excel: the spreadsheet written under the first
        free name. */
    method SaveSheet(tagName: string, now: Timestamp, data: seq<Dict<string, Cell>>, currency: seq<string>)
      returns (sheet: string)
      requires tagName in dirs
      modifies this
      ensures FirstFree(old(dirs)[tagName], SheetBase(tagName, now), sheet)
      ensures dirs == old(dirs)[tagName := old(dirs)[tagName][sheet := File(now.Day(), Sheet(data, currency))]]
    {
      var tries;
      sheet, tries := SpreadsheetName(tagName, now);
      dirs := dirs[tagName := dirs[tagName][sheet := File(now.Day(), Sheet(data, currency))]];
    }

    /** process_documents_by_tag(documents, tag_name, tag_id, ...,
        is_all_docs): an ALLDocs export is skipped when its directory already
        holds a file from today; otherwise the directory is created when
        missing and the tag is exported into it. A raise leaves the files
        written so far. */
    method ProcessDocumentsByTag(job: Job, documents: seq<Document>) returns (outcome: Outcome, sheet: string)
      modifies this
      ensures dirs.Keys == old(dirs).Keys + {job.tagName}
      ensures outcome.Skipped? <==>
        job.isAllDocs && job.tagName in old(dirs) && HasFileFrom(old(dirs)[job.tagName], job.now.Day())
      ensures outcome.Skipped? ==> dirs == old(dirs)
      ensures !outcome.Skipped? ==>
        var run := RunDocs(job, FolderOr(old(dirs), job.tagName), documents);
        outcome == OutcomeOf(run)
        && (run.error.None? ==> FirstFree(run.folder, SheetBase(job.tagName, job.now), sheet))
        && dirs == old(dirs)[job.tagName := Finished(run, sheet, job.now.Day())]
    {
      var skip := false;
      if job.isAllDocs {
        skip := HasFileFromToday(job.tagName, job.now.Day());
      }
      if skip {
        return Skipped, "";
      }
      outcome, sheet := ExportIntoDirectory(job, documents);
    }

    /** os.makedirs(tag_dir, exist_ok=True), then the export. */
    method ExportIntoDirectory(job: Job, documents: seq<Document>) returns (outcome: Outcome, sheet: string)
      modifies this
      ensures !outcome.Skipped?
      ensures var run := RunDocs(job, FolderOr(old(dirs), job.tagName), documents);
        outcome == OutcomeOf(run)
        && (run.error.None? ==> FirstFree(run.folder, SheetBase(job.tagName, job.now), sheet))
        && dirs == old(dirs)[job.tagName := Finished(run, sheet, job.now.Day())]
    {
      if job.tagName !in dirs {
        dirs := dirs[job.tagName := map[]];
      }
      ghost var mid := dirs;
      assert mid == old(dirs)[job.tagName := FolderOr(old(dirs), job.tagName)];
      outcome, sheet := ExportTag(job, documents);
    }

    /** One call of process_documents_by_tag as export_for_tags sees it: the
        tag's directory exists afterwards, no other directory changes, and a
        raise is passed on. */
    method ExportJob(job: Job, documents: seq<Document>) returns (failure: Option<string>)
      modifies this
      ensures dirs.Keys == old(dirs).Keys + {job.tagName}
      ensures forall n :: n in old(dirs) && n != job.tagName ==> dirs[n] == old(dirs)[n]
      ensures job.isAllDocs && job.tagName in old(dirs) && HasFileFrom(old(dirs)[job.tagName], job.now.Day()) ==>
        dirs == old(dirs) && failure.None?
      ensures !(job.isAllDocs && job.tagName in old(dirs) && HasFileFrom(old(dirs)[job.tagName], job.now.Day())) ==>
        failure == RunDocs(job, FolderOr(old(dirs), job.tagName), documents).error
        && ExportedInto(job, FolderOr(old(dirs), job.tagName), documents, dirs[job.tagName])
    {
      var outcome, sheet := ProcessDocumentsByTag(job, documents);
      failure := if outcome.Failed? then Some(outcome.error) else None;
    }

    /** One turn of the tag loop of export_for_tags: a tag without a
        directory is reported missing; otherwise its directory is prepared
        and the tag exported. */
    method ExportIfPresent(tag: Tag, documents: seq<Document>, defs: map<int, FieldDef>,
                           ctx: Context, remote: Remote, now: Timestamp)
      returns (missing: bool, failure: Option<string>)
      modifies this
      ensures dirs.Keys == old(dirs).Keys
      ensures missing <==> tag.name !in old(dirs)
      ensures missing ==> dirs == old(dirs) && failure.None?
      ensures forall n :: n in old(dirs) && n != tag.name ==> dirs[n] == old(dirs)[n]
      ensures !missing ==>
        var job := TagJob(tag, defs, ctx, remote, now);
        var prepared := Prepared(old(dirs)[tag.name], tag.name, now);
        failure == RunDocs(job, prepared, documents).error
        && ExportedInto(job, prepared, documents, dirs[tag.name])
    {
      missing, failure := tag.name !in dirs, None;
      if !missing {
        failure := ArchiveAndExport(tag, documents, defs, ctx, remote, now);
      }
    }

    /** The present-directory branch of the tag loop:
        prepare_tag_directory_for_export, then process_documents_by_tag. */
    method ArchiveAndExport(tag: Tag, documents: seq<Document>, defs: map<int, FieldDef>,
                            ctx: Context, remote: Remote, now: Timestamp)
      returns (failure: Option<string>)
      requires tag.name in dirs
      modifies this
      ensures tag.name in dirs && dirs.Keys == old(dirs).Keys
      ensures forall n :: n in old(dirs) && n != tag.name ==> dirs[n] == old(dirs)[n]
      ensures var job := TagJob(tag, defs, ctx, remote, now);
        var prepared := Prepared(old(dirs)[tag.name], tag.name, now);
        failure == RunDocs(job, prepared, documents).error
        && ExportedInto(job, prepared, documents, dirs[tag.name])
    {
      PrepareTagDirectory(tag.name, now);
      ghost var prepared := dirs;
      var job := TagJob(tag, defs, ctx, remote, now);
      assert FolderOr(prepared, tag.name) == Prepared(old(dirs)[tag.name], tag.name, now);
      assert prepared.Keys + {tag.name} == old(dirs).Keys;
      failure := ExportJob(job, documents);
      assert forall n :: n in old(dirs) && n != tag.name ==> dirs[n] == prepared[n] == old(dirs)[n];
    }

    /** export_for_tags: the ALLDocs export of every document, then each tag
        whose directory exists, archived first. Returns the tags skipped for
        a missing directory, or the error that ended the run. Only ALLDocs
        and the directories of listed tags change. */
    method ExportForTags(tags: seq<Tag>, documents: seq<Document>, defs: map<int, FieldDef>,
                         ctx: Context, remote: Remote, now: Timestamp)
      returns (r: Result<seq<string>, string>)
      modifies this
      ensures dirs.Keys == old(dirs).Keys + {"ALLDocs"}
      ensures r.Success? ==> r.value == Missing(tags, old(dirs).Keys + {"ALLDocs"})
      ensures forall n :: n in old(dirs) && n != "ALLDocs" && n !in Names(tags) ==> dirs[n] == old(dirs)[n]
      ensures r.Success? ==> TagsExported(tags, |tags|, old(dirs) - {"ALLDocs"}, dirs, documents, defs, ctx, remote, now)
    {
      var failure := ExportJob(Job("ALLDocs", -1, true, defs, ctx, remote, now), documents);
      if failure.Some? {
        return Failure(failure.value);
      }
      ghost var mid := dirs;
      r := ExportTags(tags, documents, defs, ctx, remote, now);
      if r.Success? {
        TagsExportedFrom(tags, old(dirs) - {"ALLDocs"}, mid, dirs, documents, defs, ctx, remote, now);
      }
    }

    /** The tag loop of export_for_tags. A tag that is the only one of its
        name and has a directory ends archived and exported into. */
    method ExportTags(tags: seq<Tag>, documents: seq<Document>, defs: map<int, FieldDef>,
                      ctx: Context, remote: Remote, now: Timestamp)
      returns (r: Result<seq<string>, string>)
      modifies this
      ensures dirs.Keys == old(dirs).Keys
      ensures r.Success? ==> r.value == Missing(tags, old(dirs).Keys)
      ensures forall n :: n in old(dirs) && n !in Names(tags) ==> dirs[n] == old(dirs)[n]
      ensures r.Success? ==> TagsExported(tags, |tags|, old(dirs), dirs, documents, defs, ctx, remote, now)
    {
      ghost var root := dirs;
      var skipped: seq<string> := [];
      for i := 0 to |tags|
        invariant dirs.Keys == root.Keys
        invariant skipped == Missing(tags[..i], root.Keys)
        invariant forall n :: n in root && n !in Names(tags[..i]) ==> dirs[n] == root[n]
        invariant TagsExported(tags, i, root, dirs, documents, defs, ctx, remote, now)
      {
        MissingSnoc(tags, i, root.Keys);
        var missing, failure := ExportTagAt(tags, i, documents, defs, ctx, remote, now, root);
        if failure.Some? {
          return Failure(failure.value);
        }
        if missing {
          skipped := skipped + [tags[i].name];
        }
      }
      assert tags[..|tags|] == tags;
      return Success(skipped);
    }

    /** Turn i of the tag loop, in terms of the directories before the loop. */
    method ExportTagAt(tags: seq<Tag>, i: nat, documents: seq<Document>, defs: map<int, FieldDef>,
                       ctx: Context, remote: Remote, now: Timestamp, ghost root: map<string, Folder>)
      returns (missing: bool, failure: Option<string>)
      requires i < |tags| && dirs.Keys == root.Keys
      requires forall n :: n in root && n !in Names(tags[..i]) ==> dirs[n] == root[n]
      requires TagsExported(tags, i, root, dirs, documents, defs, ctx, remote, now)
      modifies this
      ensures dirs.Keys == root.Keys
      ensures missing <==> tags[i].name !in root
      ensures forall n :: n in root && n !in Names(tags[..i + 1]) ==> dirs[n] == root[n]
      ensures failure.None? ==> TagsExported(tags, i + 1, root, dirs, documents, defs, ctx, remote, now)
    {
      NamesSnoc(tags, i);
      if NamedOnce(tags, i) {
        NamedOnceNotBefore(tags, i);
      }
      ghost var before := dirs;
      missing, failure := ExportIfPresent(tags[i], documents, defs, ctx, remote, now);
      if failure.None? {
        TagsExportedSnoc(tags, i, root, before, dirs, documents, defs, ctx, remote, now);
      }
    }
  }
}
