/** The spreadsheet row process_documents_by_tag assembles for one document,
    the tag filter it applies before, and the document links export_to_excel
    writes into the ID column. */
module Rows {
  import opened Wrappers
  import opened Strings
  import opened Json
  import opened Dicts
  import opened Dates
  import opened Fetch
  import opened CustomFields

  /** The fields of one record of the documents list that a row reads. */
  datatype Document = Document(
    id: int,
    title: string,
    tags: seq<int>,
    correspondent: Value,
    documentType: Value,
    storagePath: Value,
    added: Option<string>,
    created: Option<string>,
    modified: Option<string>,
    pageCount: Value,
    originalFileName: Value,
    archivedFileName: Value,
    // The values under the keys "Owner" and "Notes", capitalised as the row
    // reads them; the API's own keys are lower-case, so both are usually None.
    owner: Value,
    notes: Value)

  /** What the row needs from outside: the tag names, and the answer of
      GET <endpoint>/<id>/ for the name lookups. */
  datatype Context = Context(
    tagDict: map<int, string>,
    names: (string, Value) -> NameResponse,
    isoparse: string -> Option<Timestamp>)

  /** The per-tag loop skips a document unless the export covers all
      documents or the tag is among the document's tags. */
  predicate Selected(doc: Document, tagId: int, isAllDocs: bool) {
    isAllDocs || tagId in doc.tags
  }

  /** tag_dict.get(tag_id, "Tag <id>") */
  function TagLabel(tagDict: map<int, string>, t: int): (r: string)
    ensures t in tagDict ==> r == tagDict[t]
    ensures t !in tagDict ==> r == "Tag " + IntToString(t)
  {
    if t in tagDict then tagDict[t] else "Tag " + IntToString(t)
  }

  /** The label of each of the document's tags, in order. */
  function TagLabels(tagDict: map<int, string>, tags: seq<int>): (r: seq<string>)
    ensures |r| == |tags|
    ensures forall i :: 0 <= i < |tags| ==> r[i] == TagLabel(tagDict, tags[i])
  {
    seq(|tags|, i requires 0 <= i < |tags| => TagLabel(tagDict, tags[i]))
  }

  /** A date string or None, as the cell holds it. */
  function DateCell(o: Option<string>): Cell {
    if o.Some? then Raw(Text(o.value)) else Raw(Null)
  }

  function Name(ctx: Context, endpoint: string, id: Value): Cell {
    Raw(Text(GetNameFromId(ctx.names(endpoint, id))))
  }

  const LeadingNames: seq<string> := ["ID", "AddDateFull", "Korrespondent", "Titel", "Tags"]

  const TrailingNames: seq<string> := [
    "ArchivDate", "ArchivedDateMonth", "ArchivedDateFull",
    "ModifyDate", "ModifyDateMonth", "ModifyDateFull",
    "AddedDate", "AddDateMonth", "AddDateFull",
    "Seiten", "Dokumenttyp", "Speicherpfad",
    "OriginalName", "ArchivedName", "Owner", "Notes"]

  /** The cells of the columns before the custom fields, in LeadingNames order. */
  function LeadingCells(doc: Document, ctx: Context): (r: seq<Cell>)
    ensures |r| == |LeadingNames|
  {
    [Raw(Int(doc.id)),
     DateCell(FormatDate(ParseDate(doc.added, ctx.isoparse), "yyyy-mm-dd")),
     Name(ctx, "correspondents", doc.correspondent),
     Raw(Text(doc.title)),
     Raw(Text(Join(TagLabels(ctx.tagDict, doc.tags), ", ")))]
  }

  /** The cells of the columns after the custom fields, in TrailingNames
      order: the three renderings of each date, then the remaining document
      attributes. */
  function TrailingCells(doc: Document, ctx: Context): (r: seq<Cell>)
    ensures |r| == |TrailingNames|
  {
    var created := ParseDate(doc.created, ctx.isoparse);
    var modified := ParseDate(doc.modified, ctx.isoparse);
    var added := ParseDate(doc.added, ctx.isoparse);
    [DateCell(created), DateCell(FormatDate(created, "yyyy-mm")), DateCell(FormatDate(created, "yyyy-mm-dd")),
     DateCell(modified), DateCell(FormatDate(modified, "yyyy-mm")), DateCell(FormatDate(modified, "yyyy-mm-dd")),
     DateCell(added), DateCell(FormatDate(added, "yyyy-mm")), DateCell(FormatDate(added, "yyyy-mm-dd")),
     Raw(doc.pageCount),
     Name(ctx, "document_types", doc.documentType),
     Name(ctx, "storage_paths", doc.storagePath),
     Raw(doc.originalFileName),
     Raw(doc.archivedFileName),
     Raw(doc.owner),
     Raw(doc.notes)]
  }

  /** The OrderedDict of the leading pairs, the custom fields, then the
      trailing pairs. */
  function Assemble(lead: seq<Cell>, custom: Dict<string, Cell>, trail: seq<Cell>): Dict<string, Cell>
    requires |lead| == |LeadingNames| && |trail| == |TrailingNames|
  {
    FromPairs(Zip(LeadingNames, lead) + custom + Zip(TrailingNames, trail))
  }

  /** The OrderedDict built for one document, the custom fields spliced in
      after "Tags". */
  function Row(doc: Document, ctx: Context, custom: Dict<string, Cell>): Dict<string, Cell> {
    Assemble(LeadingCells(doc, ctx), custom, TrailingCells(doc, ctx))
  }

  lemma KeysConcat<K, V>(a: Dict<K, V>, b: Dict<K, V>)
    ensures Keys(a + b) == Keys(a) + Keys(b)
  {
    var l := Keys(a + b);
    var r := Keys(a) + Keys(b);
    forall i | 0 <= i < |l|
      ensures l[i] == r[i]
    {
      if i < |a| {
        assert (a + b)[i] == a[i];
      } else {
        assert (a + b)[i] == b[i - |a|];
      }
    }
  }

  lemma LeadingNamesDiffer(lead: seq<Cell>)
    requires |lead| == |LeadingNames|
    ensures KeysDifferBelow(Zip(LeadingNames, lead), 5)
  {
    assert LeadingNames[0][0] == 'I' && LeadingNames[1][0] == 'A' && LeadingNames[2][0] == 'K';
    assert LeadingNames[3] != LeadingNames[4] by {
      assert LeadingNames[3][1] != LeadingNames[4][1];
    }
  }

  /** The keys of the assembled pairs, in order. */
  lemma AssembleKeys(lead: seq<Cell>, custom: Dict<string, Cell>, trail: seq<Cell>)
    requires |lead| == |LeadingNames| && |trail| == |TrailingNames|
    ensures Keys(Zip(LeadingNames, lead) + custom + Zip(TrailingNames, trail)) == LeadingNames + Keys(custom) + TrailingNames
  {
    KeysConcat(Zip(LeadingNames, lead) + custom, Zip(TrailingNames, trail));
    KeysConcat(Zip(LeadingNames, lead), custom);
  }

  /** The row's columns: the five leading names, the custom fields and the
      sixteen trailing names, nothing else; ID, AddDateFull, Korrespondent,
      Titel, Tags come first in that order (AddDateFull is given twice and
      keeps its first place). */
  lemma {:induction false} RowColumns(doc: Document, ctx: Context, custom: Dict<string, Cell>)
    ensures forall k :: k in Keys(Row(doc, ctx, custom)) <==> k in LeadingNames || k in Keys(custom) || k in TrailingNames
    ensures 5 <= |Keys(Row(doc, ctx, custom))| && Keys(Row(doc, ctx, custom))[..5] == LeadingNames
  {
    AssembleColumns(LeadingCells(doc, ctx), custom, TrailingCells(doc, ctx));
  }

  lemma AssembleColumns(lead: seq<Cell>, custom: Dict<string, Cell>, trail: seq<Cell>)
    requires |lead| == |LeadingNames| && |trail| == |TrailingNames|
    ensures forall k :: k in Keys(Assemble(lead, custom, trail)) <==> k in LeadingNames || k in Keys(custom) || k in TrailingNames
    ensures 5 <= |Keys(Assemble(lead, custom, trail))| && Keys(Assemble(lead, custom, trail))[..5] == LeadingNames
  {
    AssembleKeySet(lead, custom, trail);
    AssembleLeading(lead, custom, trail);
  }

  lemma AssembleKeySet(lead: seq<Cell>, custom: Dict<string, Cell>, trail: seq<Cell>)
    requires |lead| == |LeadingNames| && |trail| == |TrailingNames|
    ensures forall k :: k in Keys(Assemble(lead, custom, trail)) <==> k in LeadingNames || k in Keys(custom) || k in TrailingNames
  {
    var pairs := Zip(LeadingNames, lead) + custom + Zip(TrailingNames, trail);
    assert Assemble(lead, custom, trail) == FromPairs(pairs);
    FromPairsKeys(pairs);
    AssembleKeys(lead, custom, trail);
  }

  lemma AssembleLeading(lead: seq<Cell>, custom: Dict<string, Cell>, trail: seq<Cell>)
    requires |lead| == |LeadingNames| && |trail| == |TrailingNames|
    ensures 5 <= |Keys(Assemble(lead, custom, trail))| && Keys(Assemble(lead, custom, trail))[..5] == LeadingNames
  {
    var d := Assemble(lead, custom, trail);
    AssembleRegroup(lead, custom, trail);
    LeadingPlaces(lead, custom + Zip(TrailingNames, trail));
    KeysStartWith(d, LeadingNames);
  }

  lemma AssembleRegroup(lead: seq<Cell>, custom: Dict<string, Cell>, trail: seq<Cell>)
    requires |lead| == |LeadingNames| && |trail| == |TrailingNames|
    ensures Assemble(lead, custom, trail) == FromPairs(Zip(LeadingNames, lead) + (custom + Zip(TrailingNames, trail)))
  {
    AppendAssoc(Zip(LeadingNames, lead), custom, Zip(TrailingNames, trail));
  }

  /** The five leading columns keep their places whatever follows them. */
  lemma LeadingPlaces(lead: seq<Cell>, back: Dict<string, Cell>)
    requires |lead| == |LeadingNames|
    ensures 5 <= |FromPairs(Zip(LeadingNames, lead) + back)|
    ensures forall i :: 0 <= i < 5 ==> FromPairs(Zip(LeadingNames, lead) + back)[i].0 == LeadingNames[i]
  {
    LeadingNamesDiffer(lead);
    FromPairsKeepsPrefix(Zip(LeadingNames, lead), back);
  }

  /** A custom field keeps its value unless a trailing column has its name;
      one named like a leading column replaces that column's value. */
  lemma {:induction false} RowCustomValue(doc: Document, ctx: Context, custom: Dict<string, Cell>, k: string)
    requires DistinctKeys(custom)
    requires k in Keys(custom) && k !in TrailingNames
    ensures Get(Row(doc, ctx, custom), k) == Get(custom, k)
  {
    AssembleCustomValue(LeadingCells(doc, ctx), custom, TrailingCells(doc, ctx), k);
  }

  lemma {:induction false} AssembleCustomValue(lead: seq<Cell>, custom: Dict<string, Cell>, trail: seq<Cell>, k: string)
    requires |lead| == |LeadingNames| && |trail| == |TrailingNames|
    requires DistinctKeys(custom)
    requires k in Keys(custom) && k !in TrailingNames
    ensures Get(Assemble(lead, custom, trail), k) == Get(custom, k)
  {
    var pairs := Zip(LeadingNames, lead) + custom + Zip(TrailingNames, trail);
    var c :| 0 <= c < |custom| && custom[c].0 == k;
    DistinctKeysByIndex(custom);
    GetDistinct(custom, c);
    var i := 5 + c;
    assert pairs[i] == custom[c] by {
      assert (Zip(LeadingNames, lead) + custom)[i] == custom[c];
    }
    assert forall j :: i < j < |pairs| ==> pairs[j].0 != k by {
      AssembleKeys(lead, custom, trail);
      CustomKeyNotLater(custom, c);
      assert forall j :: 0 <= j < |pairs| ==> pairs[j].0 == Keys(pairs)[j];
    }
    FromPairsLastWins(pairs, i);
  }

  /** In the key list of a row, a custom key that no trailing column
      repeats occurs nowhere after its own place. */
  lemma CustomKeyNotLater(custom: Dict<string, Cell>, c: nat)
    requires c < |custom| && KeysDifferBelow(custom, |custom|) && custom[c].0 !in TrailingNames
    ensures var ks := LeadingNames + Keys(custom) + TrailingNames;
      forall j :: 5 + c < j < |ks| ==> ks[j] != custom[c].0
  {
    var ks := LeadingNames + Keys(custom) + TrailingNames;
    forall j | 5 + c < j < |ks|
      ensures ks[j] != custom[c].0
    {
      if j < 5 + |custom| {
        assert ks[j] == Keys(custom)[j - 5];
      } else {
        assert ks[j] == TrailingNames[j - 5 - |custom|];
      }
    }
  }

  lemma {:induction false} GetDistinct<K(!new), V>(d: Dict<K, V>, i: nat)
    requires i < |d| && KeysDifferBelow(d, |d|)
    ensures Get(d, d[i].0) == Some(d[i].1)
  {
    if i > 0 {
      assert d[1..][i - 1] == d[i];
      assert KeysDifferBelow(d[1..], |d| - 1) by {
        forall a, b | 0 <= a < b < |d| - 1
          ensures d[1..][a].0 != d[1..][b].0
        {
          assert d[1..][a] == d[a + 1] && d[1..][b] == d[b + 1];
        }
      }
      GetDistinct(d[1..], i - 1);
    }
  }

  /** The last column holds the document's value under the key "Notes",
      whatever the custom fields are called. */
  lemma {:induction false} RowNotesLast(doc: Document, ctx: Context, custom: Dict<string, Cell>)
    ensures Get(Row(doc, ctx, custom), "Notes") == Some(Raw(doc.notes))
  {
    var trail := TrailingCells(doc, ctx);
    var pairs := Zip(LeadingNames, LeadingCells(doc, ctx)) + custom + Zip(TrailingNames, trail);
    assert pairs[|pairs| - 1] == ("Notes", trail[15]);
    FromPairsLastWins(pairs, |pairs| - 1);
  }

  /** api_url.rstrip("/api"): every trailing '/', 'a', 'p' and 'i' goes, not
      the suffix "/api". */
  function RStripChars(s: string, chars: string): (r: string)
    ensures |r| <= |s| && r == s[..|r|]
    ensures r == [] || r[|r| - 1] !in chars
    ensures forall i :: |r| <= i < |s| ==> s[i] in chars
  {
    if s != [] && s[|s| - 1] in chars then RStripChars(s[..|s| - 1], chars) else s
  }

  /** The base URL as export_to_excel computes it. */
  function AsWrittenBaseUrl(apiUrl: string): string {
    RStripChars(apiUrl, "/api")
  }

  /** The base URL the comment beside it asks for: the API URL without its
      "/api" ending. */
  function BaseUrl(apiUrl: string): (r: string)
    ensures EndsWith(apiUrl, "/api") ==> r + "/api" == apiUrl
    ensures !EndsWith(apiUrl, "/api") ==> r == apiUrl
  {
    if EndsWith(apiUrl, "/api") then apiUrl[..|apiUrl| - 4] else apiUrl
  }

  lemma BaseUrlDropsApi(base: string)
    ensures BaseUrl(base + "/api") == base
  {
    assert (base + "/api")[|base|..] == "/api";
    assert (base + "/api")[..|base|] == base;
  }

  /** The two agree when the server part does not end in one of '/', 'a',
      'p', 'i'. */
  lemma {:induction false} AsWrittenAgrees(base: string)
    requires base != [] && base[|base| - 1] !in "/api"
    ensures AsWrittenBaseUrl(base + "/api") == BaseUrl(base + "/api")
  {
    BaseUrlDropsApi(base);
    var s := base + "/api";
    assert s[|base| - 1] == base[|base| - 1];
    assert s[|base|..] == "/api";
    assert AsWrittenBaseUrl(s) == s[..|base|];
  }

  /** A server whose name ends in 'i' loses more than "/api". */
  lemma AsWrittenCutsHostName()
    ensures AsWrittenBaseUrl("http://raspi/api") == "http://ras"
    ensures BaseUrl("http://raspi/api") == "http://raspi"
  {
    var s := "http://raspi/api";
    assert s[..12] + "/api" == s;
    BaseUrlDropsApi(s[..12]);
    var r := AsWrittenBaseUrl(s);
    assert s[9] == 's';
    assert |r| >= 10;
    assert |r| <= 10;
    assert r == s[..10];
  }

  /** The formula export_to_excel writes into a truthy ID cell:
      =HYPERLINK("<base>/documents/<id>/details", "<id>"). */
  function LinkFormula(base: string, id: int): (r: string)
    ensures var url := base + "/documents/" + IntToString(id) + "/details";
      |r| > 12 + |url| && r[..12] == "=HYPERLINK(\"" && r[12..12 + |url|] == url
  {
    var url := base + "/documents/" + IntToString(id) + "/details";
    var caption := "\", \"" + IntToString(id) + "\")";
    PartsOfConcat("=HYPERLINK(\"", url, caption);
    "=HYPERLINK(\"" + url + caption
  }

  /** The ID cell of a data row after export_to_excel, as written: a
      HYPERLINK formula through the rstrip base URL when the id is truthy,
      the id itself otherwise. */
  function DetailsLink(apiUrl: string, id: int): (r: Value)
    ensures id == 0 ==> r == Int(0)
    ensures id != 0 ==> r.Text? && |r.s| > 12 && r.s[..12] == "=HYPERLINK(\""
    ensures id != 0 ==> var url := AsWrittenBaseUrl(apiUrl) + "/documents/" + IntToString(id) + "/details";
      |r.s| > 12 + |url| && r.s[12..12 + |url|] == url
  {
    if id == 0 then Int(0) else Text(LinkFormula(AsWrittenBaseUrl(apiUrl), id))
  }

  /** The ID cell as the comment beside base_url intends it: the link goes
      through the API URL without its "/api" ending. */
  function CorrectedDetailsLink(apiUrl: string, id: int): (r: Value)
    ensures id == 0 ==> r == Int(0)
    ensures id != 0 ==> r.Text? && |r.s| > 12 && r.s[..12] == "=HYPERLINK(\""
    ensures id != 0 ==> var url := BaseUrl(apiUrl) + "/documents/" + IntToString(id) + "/details";
      |r.s| > 12 + |url| && r.s[12..12 + |url|] == url
  {
    if id == 0 then Int(0) else Text(LinkFormula(BaseUrl(apiUrl), id))
  }

  /** Corrected, the link goes to <server>/documents/<id>/details for every
      API URL <server>/api. */
  lemma LinkTarget(base: string, id: int)
    requires id != 0
    ensures var url := base + "/documents/" + IntToString(id) + "/details";
      CorrectedDetailsLink(base + "/api", id).s[12..12 + |url|] == url
  {
    BaseUrlDropsApi(base);
  }

  /** As written, the link is the intended one whenever the server part
      ends in none of '/', 'a', 'p', 'i'. */
  lemma {:induction false} DetailsLinksAgree(base: string, id: int)
    requires base != [] && base[|base| - 1] !in "/api"
    ensures DetailsLink(base + "/api", id) == CorrectedDetailsLink(base + "/api", id)
  {
    AsWrittenAgrees(base);
  }

  /** As written, a server whose name ends in 'i' gets links to another
      host: the link of document 7 starts "http://ras/" instead of
      "http://raspi/". */
  lemma LinkCutsHostName()
    ensures DetailsLink("http://raspi/api", 7) == Text(LinkFormula("http://ras", 7))
    ensures CorrectedDetailsLink("http://raspi/api", 7) == Text(LinkFormula("http://raspi", 7))
    ensures DetailsLink("http://raspi/api", 7).s[12..23] == "http://ras/"
    ensures CorrectedDetailsLink("http://raspi/api", 7).s[12..25] == "http://raspi/"
  {
    AsWrittenCutsHostName();
    var a := LinkFormula("http://ras", 7);
    var b := LinkFormula("http://raspi", 7);
    assert a[12..23] == ("http://ras" + "/documents/")[..11];
    assert b[12..25] == ("http://raspi" + "/documents/")[..13];
  }
}
