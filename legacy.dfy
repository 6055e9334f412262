/** The legacy exporter (paperless-ngx-tag-exporter.a.py): every
    subdirectory of the export directory names a tag, matched without regard
    to case; a directory that names no tag gets a line in its own
    tag_not_found.log, and a tag's documents go into export-<directory>/
    with one spreadsheet row per document. Its fetch_data and
    get_name_from_id are the same code as the current exporter's and share
    their model (Fetch). Its export_pdf and export_json call a
    sanitize_filename that the legacy script never defines, so as written
    they raise NameError; the model runs the current exporter's export_pdf
    and export_json (Exporter.ExportRoot) in their place, with its
    sanitize_filename (Sanitize.SanitizeFilename). */
module Legacy {
  import opened Wrappers
  import opened Strings
  import opened Dicts
  import opened Dates
  import opened Sanitize
  import opened Rows
  import opened Folders
  import opened Exporter

  /** tname.lower() == tag_name.lower(), for ASCII letters. */
  predicate SameName(a: string, b: string) {
    Lower(a) == Lower(b)
  }

  /** The position of the first tag whose name matches, or |tagDict|. */
  function MatchAt(tagDict: Dict<int, string>, name: string): (i: nat)
    ensures i <= |tagDict|
    ensures i < |tagDict| ==> SameName(tagDict[i].1, name)
    ensures forall j :: 0 <= j < i ==> !SameName(tagDict[j].1, name)
  {
    if tagDict == [] || SameName(tagDict[0].1, name) then 0
    else
      var i := 1 + MatchAt(tagDict[1..], name);
      assert forall j :: 1 <= j < i ==> tagDict[j] == tagDict[1..][j - 1];
      i
  }

  /** next((tid for tid, tname in tag_dict.items() if tname.lower() ==
      tag_name.lower()), None): the id of the first matching tag in
      tag_dict order. */
  function FirstMatch(tagDict: Dict<int, string>, name: string): (r: Option<int>)
    ensures r.None? <==> forall i :: 0 <= i < |tagDict| ==> !SameName(tagDict[i].1, name)
    ensures r.Some? ==> exists i :: (0 <= i < |tagDict| && tagDict[i].0 == r.value && SameName(tagDict[i].1, name)
      && forall j :: 0 <= j < i ==> !SameName(tagDict[j].1, name))
  {
    var i := MatchAt(tagDict, name);
    if i < |tagDict| then Some(tagDict[i].0) else None
  }

  /** The tag a directory resolves to; `if not tag_id` also turns the id 0
      away. */
  function ResolveTag(tagDict: Dict<int, string>, name: string): (r: Option<int>)
    ensures r.Some? <==> FirstMatch(tagDict, name).Some? && FirstMatch(tagDict, name).value != 0
    ensures r.Some? ==> r == FirstMatch(tagDict, name)
  {
    match FirstMatch(tagDict, name)
    case Some(id) => if id == 0 then None else Some(id)
    case None => None
  }

  lemma LowerTwice(s: string)
    ensures Lower(Lower(s)) == Lower(s)
  {
  }

  /** Directory names that differ only in case resolve to the same tag. */
  lemma {:induction false} MatchIgnoresCase(tagDict: Dict<int, string>, a: string, b: string)
    requires Lower(a) == Lower(b)
    ensures MatchAt(tagDict, a) == MatchAt(tagDict, b)
  {
    if tagDict != [] && !SameName(tagDict[0].1, a) {
      MatchIgnoresCase(tagDict[1..], a, b);
    }
  }

  lemma ResolveIgnoresCase(tagDict: Dict<int, string>, a: string, b: string)
    requires Lower(a) == Lower(b)
    ensures ResolveTag(tagDict, a) == ResolveTag(tagDict, b)
    ensures ResolveTag(tagDict, a) == ResolveTag(tagDict, Lower(a))
  {
    MatchIgnoresCase(tagDict, a, b);
    LowerTwice(a);
    MatchIgnoresCase(tagDict, a, Lower(a));
  }

  /** German tag names match their lower-case directories. */
  lemma UmlautIgnoresCase()
    ensures SameName("\U{C4}rzte", "\U{E4}rzte")
  {
    assert Lower("\U{C4}rzte")[0] == '\U{E4}';
    assert Lower("\U{C4}rzte") == "\U{E4}rzte";
    assert Lower("\U{E4}rzte") == "\U{E4}rzte";
  }

  /** The documents the legacy loop keeps: those carrying the tag, in order. */
  function Selection(docs: seq<Document>, tagId: int): seq<Document> {
    if docs == [] then []
    else
      var last := docs[|docs| - 1];
      Selection(docs[..|docs| - 1], tagId) + if tagId in last.tags then [last] else []
  }

  /** A document gets a row exactly when it carries the tag, and no more
      often than it occurs in the documents list. */
  lemma {:induction false} SelectionMembers(docs: seq<Document>, tagId: int)
    ensures |Selection(docs, tagId)| <= |docs|
    ensures multiset(Selection(docs, tagId)) <= multiset(docs)
    ensures forall d :: d in Selection(docs, tagId) <==> d in docs && tagId in d.tags
  {
    if docs != [] {
      var last := docs[|docs| - 1];
      SelectionMembers(docs[..|docs| - 1], tagId);
      assert docs == docs[..|docs| - 1] + [last];
      assert forall d :: d in docs <==> d in docs[..|docs| - 1] || d == last;
    }
  }

  /** The document ids of the rows, in order. */
  function Ids(docs: seq<Document>): (r: seq<int>)
    ensures |r| == |docs| && forall i :: 0 <= i < |docs| ==> r[i] == docs[i].id
  {
    seq(|docs|, i requires 0 <= i < |docs| => docs[i].id)
  }

  /** export-<tag_name>: the directory a tag's files go into. */
  function TagDir(tagName: string): string {
    "export-" + tagName
  }

  /** export-<tag_name>-<yyyymmdd>.xlsx; an earlier file of that name is replaced. */
  function SheetName(tagName: string, now: Timestamp): string {
    "export-" + tagName + "-" + Stamp(now) + ".xlsx"
  }

  /** f"{paperless_url}/documents/{doc['ID']}" */
  function Link(url: string, id: int): string {
    url + "/documents/" + IntToString(id)
  }

  /** The hyperlinks of column B: links[k] belongs to spreadsheet row k + 2,
      which holds data row k. */
  function Links(url: string, ids: seq<int>): (r: seq<string>)
    ensures |r| == |ids| && forall k :: 0 <= k < |ids| ==> r[k] == Link(url, ids[k])
  {
    seq(|ids|, k requires 0 <= k < |ids| => Link(url, ids[k]))
  }

  lemma IntToStringInjective(a: int, b: int)
    requires IntToString(a) == IntToString(b)
    ensures a == b
  {
    SignShown(a);
    SignShown(b);
    if a < 0 {
      assert NatToString(-a) == NatToString(-b) by {
        assert b < 0;
        assert IntToString(a)[1..] == NatToString(-a);
        assert IntToString(b)[1..] == NatToString(-b);
      }
      NatToStringInjective(-a, -b);
    } else {
      assert b >= 0;
      NatToStringInjective(a, b);
    }
  }

  /** Only a negative number's text starts with '-'. */
  lemma SignShown(a: int)
    ensures |IntToString(a)| > 0 && (a < 0 <==> IntToString(a)[0] == '-')
  {
    if a >= 0 {
      assert IsDigit(NatToString(a)[0]);
    }
  }

  /** Different documents get different links. */
  lemma LinkInjective(url: string, a: int, b: int)
    requires Link(url, a) == Link(url, b)
    ensures a == b
  {
    var prefix := url + "/documents/";
    assert Link(url, a)[|prefix|..] == IntToString(a);
    assert Link(url, b)[|prefix|..] == IntToString(b);
    IntToStringInjective(a, b);
  }

  /** Rows of different documents never share a link. */
  lemma LinksDistinct(url: string, ids: seq<int>, i: nat, j: nat)
    requires i < |ids| && j < |ids| && ids[i] != ids[j]
    ensures Links(url, ids)[i] != Links(url, ids)[j]
  {
    if Links(url, ids)[i] == Links(url, ids)[j] {
      LinkInjective(url, ids[i], ids[j]);
    }
  }

  /** The hyperlink loop of export_to_excel: for idx, doc in
      enumerate(data, start=2), cell B<idx> links the document of data row
      idx - 2. */
  method HyperlinkColumn(url: string, ids: seq<int>) returns (links: seq<string>)
    ensures links == Links(url, ids)
  {
    links := [];
    for idx := 2 to |ids| + 2
      invariant links == Links(url, ids[..idx - 2])
    {
      links := AddLink(url, ids, idx - 2, links);
    }
    assert ids[..|ids|] == ids;
  }

  /** ws.cell(row=n + 2, column=2).hyperlink = the link of ids[n] */
  method AddLink(url: string, ids: seq<int>, n: nat, links: seq<string>) returns (r: seq<string>)
    requires n < |ids| && links == Links(url, ids[..n])
    ensures r == Links(url, ids[..n + 1])
  {
    LinksSnoc(url, ids, n);
    r := links + [Link(url, ids[n])];
  }

  lemma LinksSnoc(url: string, ids: seq<int>, n: nat)
    requires n < |ids|
    ensures Links(url, ids[..n + 1]) == Links(url, ids[..n]) + [Link(url, ids[n])]
  {
  }

  /** The tag folder after the document loop has passed the given documents:
      each selected document's PDF (when the download answers 200) and JSON,
      named with the current exporter's sanitize_filename. */
  function Written(folder: Folder, docs: seq<Document>, tagId: int, download: int -> int, today: Date): Folder {
    if docs == [] then folder
    else
      var last := docs[|docs| - 1];
      var before := Written(folder, docs[..|docs| - 1], tagId, download, today);
      if tagId in last.tags then WithJson(WithPdf(before, last, download(last.id), today), last, today) else before
  }

  /** The loop keeps every file already there, writes the JSON of every
      document carrying the tag, and adds no file but those documents' PDF
      and JSON. */
  lemma {:induction false} WrittenFiles(folder: Folder, docs: seq<Document>, tagId: int, download: int -> int, today: Date)
    ensures folder.Keys <= Written(folder, docs, tagId, download, today).Keys
    ensures forall d :: d in docs && tagId in d.tags ==> SanitizeFilename(d.title) + ".json" in Written(folder, docs, tagId, download, today)
    ensures forall n :: n in Written(folder, docs, tagId, download, today) && n !in folder ==>
      exists d :: d in docs && tagId in d.tags && (n == SanitizeFilename(d.title) + ".pdf" || n == SanitizeFilename(d.title) + ".json")
  {
    if docs != [] {
      var last := docs[|docs| - 1];
      WrittenFiles(folder, docs[..|docs| - 1], tagId, download, today);
      assert forall d :: d in docs <==> d in docs[..|docs| - 1] || d == last;
    }
  }

  lemma WrittenSnoc(folder: Folder, docs: seq<Document>, i: nat, tagId: int, download: int -> int, today: Date)
    requires i < |docs|
    ensures Written(folder, docs[..i + 1], tagId, download, today) ==
      var before := Written(folder, docs[..i], tagId, download, today);
      if tagId in docs[i].tags then WithJson(WithPdf(before, docs[i], download(docs[i].id), today), docs[i], today) else before
  {
    assert docs[..i + 1][..i] == docs[..i];
  }

  lemma SelectionSnoc(docs: seq<Document>, i: nat, tagId: int)
    requires i < |docs|
    ensures tagId in docs[i].tags ==> Selection(docs[..i + 1], tagId) == Selection(docs[..i], tagId) + [docs[i]]
    ensures tagId !in docs[i].tags ==> Selection(docs[..i + 1], tagId) == Selection(docs[..i], tagId)
  {
    assert docs[..i + 1][..i] == docs[..i];
  }

  /** The tag folder after process_documents_by_tag: the documents' files,
      and the spreadsheet with one row per selected document. */
  function TagExport(folder: Folder, docs: seq<Document>, tagName: string, tagId: int,
                     url: string, download: int -> int, now: Timestamp): Folder
  {
    var ids := Ids(Selection(docs, tagId));
    Written(folder, docs, tagId, download, now.Day())[SheetName(tagName, now) := File(now.Day(), Workbook(ids, Links(url, ids)))]
  }

  /** The spreadsheet holds exactly one row per document carrying the tag,
      in document order, and links each of them. */
  lemma TagExportSheet(folder: Folder, docs: seq<Document>, tagName: string, tagId: int,
                       url: string, download: int -> int, now: Timestamp)
    ensures var r := TagExport(folder, docs, tagName, tagId, url, download, now);
      var book := Workbook(Ids(Selection(docs, tagId)), Links(url, Ids(Selection(docs, tagId))));
      SheetName(tagName, now) in r && r[SheetName(tagName, now)].content == book
      && |book.ids| == |Selection(docs, tagId)| == |book.links|
      && (forall k :: 0 <= k < |book.ids| ==> book.ids[k] == Selection(docs, tagId)[k].id)
      && forall k :: 0 <= k < |book.ids| ==> book.links[k] == Link(url, book.ids[k])
  {
  }

  /** process_documents_by_tag of the legacy script: export-<tag_name> is
      created when missing; every document carrying the tag has its PDF and
      JSON written and one row; the spreadsheet is written last. The row's
      cells are not modelled: a row stands for its document, and the
      spreadsheet keeps the rows' ids. */
  method ProcessDocumentsByTag(fs: ExportRoot, documents: seq<Document>, tagName: string, tagId: int,
                               url: string, download: int -> int, now: Timestamp)
    modifies fs
    ensures fs.dirs == old(fs.dirs)[TagDir(tagName) :=
      TagExport(FolderOr(old(fs.dirs), TagDir(tagName)), documents, tagName, tagId, url, download, now)]
  {
    var tagDir := TagDir(tagName);
    MakeDirs(fs, tagDir);
    var data := ExportSelected(fs, tagDir, documents, tagId, download, now.Day());
    var ids := Ids(data);
    var links := HyperlinkColumn(url, ids);
    WriteSheet(fs, tagDir, SheetName(tagName, now), ids, links, now.Day());
    UpdateTwice(old(fs.dirs), tagDir, FolderOr(old(fs.dirs), tagDir),
      Written(FolderOr(old(fs.dirs), tagDir), documents, tagId, download, now.Day()));
  }

  /** export_to_excel: the spreadsheet written, replacing a file of that name. */
  method WriteSheet(fs: ExportRoot, tagDir: string, name: string, ids: seq<int>, links: seq<string>, today: Date)
    requires tagDir in fs.dirs
    modifies fs
    ensures fs.dirs == old(fs.dirs)[tagDir := old(fs.dirs)[tagDir][name := File(today, Workbook(ids, links))]]
  {
    fs.dirs := fs.dirs[tagDir := fs.dirs[tagDir][name := File(today, Workbook(ids, links))]];
  }

  lemma UpdateTwice<K, V>(m: map<K, V>, k: K, a: V, b: V)
    ensures m[k := a][k := b] == m[k := b]
  {
  }

  /** os.makedirs(tag_dir, exist_ok=True) */
  method MakeDirs(fs: ExportRoot, tagDir: string)
    modifies fs
    ensures fs.dirs == old(fs.dirs)[tagDir := FolderOr(old(fs.dirs), tagDir)]
  {
    if tagDir !in fs.dirs {
      fs.dirs := fs.dirs[tagDir := map[]];
    }
  }

  /** The document loop: document_data gets one row per document carrying
      the tag, whose files are written in the same turn. */
  method ExportSelected(fs: ExportRoot, tagDir: string, documents: seq<Document>, tagId: int,
                        download: int -> int, today: Date)
    returns (data: seq<Document>)
    requires tagDir in fs.dirs
    modifies fs
    ensures data == Selection(documents, tagId)
    ensures fs.dirs == old(fs.dirs)[tagDir := Written(old(fs.dirs)[tagDir], documents, tagId, download, today)]
  {
    ghost var start := fs.dirs[tagDir];
    data := [];
    for i := 0 to |documents|
      invariant fs.dirs == old(fs.dirs)[tagDir := Written(start, documents[..i], tagId, download, today)]
      invariant data == Selection(documents[..i], tagId)
    {
      WrittenSnoc(start, documents, i, tagId, download, today);
      SelectionSnoc(documents, i, tagId);
      var doc := documents[i];
      if tagId !in doc.tags {
        continue;
      }
      ExportFiles(fs, tagDir, doc, download(doc.id), today);
      data := data + [doc];
    }
    assert documents[..|documents|] == documents;
  }

  /** export_pdf, then export_json, into the tag directory, naming the files
      with the current exporter's sanitize_filename. */
  method ExportFiles(fs: ExportRoot, tagDir: string, doc: Document, status: int, today: Date)
    requires tagDir in fs.dirs
    modifies fs
    ensures fs.dirs == old(fs.dirs)[tagDir := WithJson(WithPdf(old(fs.dirs)[tagDir], doc, status, today), doc, today)]
  {
    fs.ExportPdf(tagDir, doc, status, today);
    fs.ExportJson(tagDir, doc, today);
  }

  /** What the not-found line records besides the tag: str(datetime.now()),
      os.uname().nodename and os.getlogin(). */
  datatype Env = Env(clock: string, host: string, user: string)

  const NotFoundLog := "tag_not_found.log"

  /** f"{datetime.now()} - Tag '{tag_name}' not found on {hostname} by {user}\n" */
  function NotFoundLine(env: Env, tagName: string): string {
    env.clock + " - Tag '" + tagName + "' not found on " + env.host + " by " + env.user + "\n"
  }

  /** The lines of tag_not_found.log this model knows of: none when the file
      is missing or was not written by the model. */
  function LogLines(folder: Folder): seq<string> {
    if NotFoundLog in folder && folder[NotFoundLog].content.Log? then folder[NotFoundLog].content.lines else []
  }

  /** open(error_log, "a").write(line) */
  function WithLogLine(folder: Folder, line: string, today: Date): (r: Folder)
    ensures r.Keys == folder.Keys + {NotFoundLog}
    ensures LogLines(r) == LogLines(folder) + [line]
    ensures forall n :: n in folder && n != NotFoundLog ==> r[n] == folder[n]
  {
    folder[NotFoundLog := File(today, Log(LogLines(folder) + [line]))]
  }

  /** Everything one process_tags_from_directories call works with. */
  datatype Run = Run(
    documents: seq<Document>,
    tagDict: Dict<int, string>,
    url: string,
    download: int -> int,
    now: Timestamp,
    env: Env)

  /** One entry of the listing: a name that is not a directory is passed
      over; a directory whose name resolves to no tag gets a line in its
      tag_not_found.log; otherwise the tag is exported. */
  function Visit(dirs: map<string, Folder>, name: string, run: Run): map<string, Folder> {
    if name !in dirs then dirs
    else
      match ResolveTag(run.tagDict, name)
      case None => dirs[name := WithLogLine(dirs[name], NotFoundLine(run.env, name), run.now.Day())]
      case Some(tagId) =>
        dirs[TagDir(name) := TagExport(FolderOr(dirs, TagDir(name)), run.documents, name, tagId, run.url, run.download, run.now)]
  }

  /** The export directory after the listed names have been visited in order. */
  function VisitAll(dirs: map<string, Folder>, names: seq<string>, run: Run): map<string, Folder> {
    if names == [] then dirs
    else Visit(VisitAll(dirs, names[..|names| - 1], run), names[|names| - 1], run)
  }

  lemma VisitAllSnoc(dirs: map<string, Folder>, names: seq<string>, i: nat, run: Run)
    requires i < |names|
    ensures VisitAll(dirs, names[..i + 1], run) == Visit(VisitAll(dirs, names[..i], run), names[i], run)
  {
    assert names[..i + 1][..i] == names[..i];
  }

  /** process_tags_from_directories. `listing` is what os.listdir returned
      before the loop; whether an entry is a directory is asked when the
      loop reaches it. */
  method ProcessTagsFromDirectories(fs: ExportRoot, listing: seq<string>, run: Run)
    modifies fs
    ensures fs.dirs == VisitAll(old(fs.dirs), listing, run)
  {
    for i := 0 to |listing|
      invariant fs.dirs == VisitAll(old(fs.dirs), listing[..i], run)
    {
      VisitAllSnoc(old(fs.dirs), listing, i, run);
      var name := listing[i];
      if name !in fs.dirs {
        continue;
      }
      var tagId := ResolveTag(run.tagDict, name);
      if tagId.None? {
        fs.dirs := fs.dirs[name := WithLogLine(fs.dirs[name], NotFoundLine(run.env, name), run.now.Day())];
        continue;
      }
      ProcessDocumentsByTag(fs, run.documents, name, tagId.value, run.url, run.download, run.now);
    }
    assert listing[..|listing|] == listing;
  }

  /** Visiting never removes a directory, and every directory it adds is
      export-<a listed name>. */
  lemma {:induction false} VisitAllKeys(dirs: map<string, Folder>, names: seq<string>, run: Run)
    ensures dirs.Keys <= VisitAll(dirs, names, run).Keys
    ensures forall k :: k in VisitAll(dirs, names, run) && k !in dirs ==> exists n :: n in names && k == TagDir(n)
  {
    if names != [] {
      var init := names[..|names| - 1];
      VisitAllKeys(dirs, init, run);
      assert forall n :: n in init ==> n in names;
    }
  }

  /** The log name is none of the names the export writes. */
  lemma NotAFile(x: string)
    ensures NotFoundLog != x + ".pdf" && NotFoundLog != x + ".json"
  {
    assert NotFoundLog[|NotFoundLog| - 1] == 'g';
    assert (x + ".pdf")[|x + ".pdf"| - 1] == 'f';
    assert (x + ".json")[|x + ".json"| - 1] == 'n';
  }

  lemma NotASheet(tagName: string, now: Timestamp)
    ensures NotFoundLog != SheetName(tagName, now)
  {
    assert NotFoundLog[|NotFoundLog| - 1] == 'g';
    assert SheetName(tagName, now)[|SheetName(tagName, now)| - 1] == 'x';
  }

  /** The document loop leaves tag_not_found.log as it was. */
  lemma {:induction false} WrittenKeepsLog(folder: Folder, docs: seq<Document>, tagId: int, download: int -> int, today: Date)
    requires NotFoundLog in folder
    ensures NotFoundLog in Written(folder, docs, tagId, download, today)
    ensures Written(folder, docs, tagId, download, today)[NotFoundLog] == folder[NotFoundLog]
  {
    if docs != [] {
      var last := docs[|docs| - 1];
      WrittenKeepsLog(folder, docs[..|docs| - 1], tagId, download, today);
      NotAFile(SanitizeFilename(last.title));
    }
  }

  /** One visit keeps every directory, and the lines of its log. */
  lemma VisitKeepsLines(dirs: map<string, Folder>, name: string, run: Run, k: string)
    requires k in dirs
    ensures k in Visit(dirs, name, run)
    ensures LogLines(dirs[k]) <= LogLines(Visit(dirs, name, run)[k])
  {
    var r := Visit(dirs, name, run);
    if name !in dirs {
    } else if ResolveTag(run.tagDict, name).None? {
      if k == name {
        assert r[k] == WithLogLine(dirs[k], NotFoundLine(run.env, name), run.now.Day());
      } else {
        assert r[k] == dirs[k];
      }
    } else if k == TagDir(name) {
      var tagId := ResolveTag(run.tagDict, name).value;
      var written := Written(dirs[k], run.documents, tagId, run.download, run.now.Day());
      assert r[k] == TagExport(dirs[k], run.documents, name, tagId, run.url, run.download, run.now);
      NotASheet(name, run.now);
      if NotFoundLog in dirs[k] {
        WrittenKeepsLog(dirs[k], run.documents, tagId, run.download, run.now.Day());
        assert r[k][NotFoundLog] == written[NotFoundLog];
      }
    } else {
      assert r[k] == dirs[k];
    }
  }

  lemma {:induction false} VisitAllAppend(dirs: map<string, Folder>, a: seq<string>, b: seq<string>, run: Run)
    ensures VisitAll(dirs, a + b, run) == VisitAll(VisitAll(dirs, a, run), b, run)
    decreases |b|
  {
    if b == [] {
      assert a + b == a;
    } else {
      var init := b[..|b| - 1];
      VisitAllAppend(dirs, a, init, run);
      assert (a + b)[..|a + b| - 1] == a + init;
    }
  }

  /** The rest of the listing keeps every directory, and the lines of its log. */
  lemma {:induction false} VisitAllKeepsLines(dirs: map<string, Folder>, names: seq<string>, run: Run, k: string)
    requires k in dirs
    ensures k in VisitAll(dirs, names, run)
    ensures LogLines(dirs[k]) <= LogLines(VisitAll(dirs, names, run)[k])
  {
    if names != [] {
      var before := VisitAll(dirs, names[..|names| - 1], run);
      VisitAllKeepsLines(dirs, names[..|names| - 1], run, k);
      VisitKeepsLines(before, names[|names| - 1], run, k);
    }
  }

  /** The run splits at any point of the listing. */
  lemma VisitAllSplit(dirs: map<string, Folder>, names: seq<string>, j: nat, run: Run)
    requires j <= |names|
    ensures VisitAll(dirs, names, run) == VisitAll(VisitAll(dirs, names[..j], run), names[j..], run)
  {
    VisitAllAppend(dirs, names[..j], names[j..], run);
    assert names[..j] + names[j..] == names;
  }

  /** Visiting a present directory that resolves to no tag logs its line. */
  lemma VisitLogs(dirs: map<string, Folder>, name: string, run: Run)
    requires name in dirs && ResolveTag(run.tagDict, name).None?
    ensures name in Visit(dirs, name, run)
    ensures NotFoundLine(run.env, name) in LogLines(Visit(dirs, name, run)[name])
  {
    var r := Visit(dirs, name, run);
    assert r[name] == WithLogLine(dirs[name], NotFoundLine(run.env, name), run.now.Day());
    assert LogLines(r[name]) == LogLines(dirs[name]) + [NotFoundLine(run.env, name)];
  }

  /** A directory present from the start whose name resolves to no tag, or
      to the id 0, ends with the not-found line in its tag_not_found.log. */
  lemma UnresolvedLogged(dirs: map<string, Folder>, names: seq<string>, run: Run, i: nat)
    requires i < |names| && names[i] in dirs && ResolveTag(run.tagDict, names[i]).None?
    ensures names[i] in VisitAll(dirs, names, run)
    ensures NotFoundLine(run.env, names[i]) in LogLines(VisitAll(dirs, names, run)[names[i]])
  {
    var name := names[i];
    var before := VisitAll(dirs, names[..i], run);
    VisitAllKeepsLines(dirs, names[..i], run, name);
    VisitLogs(before, name, run);
    VisitAllSnoc(dirs, names, i, run);
    var after := VisitAll(dirs, names[..i + 1], run);
    VisitAllKeepsLines(after, names[i + 1..], run, name);
    VisitAllSplit(dirs, names, i + 1, run);
  }
}
