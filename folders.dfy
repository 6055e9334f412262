/** The export directory as the exporter sees it: each tag directory is a
    flat folder, a map from file name to the file's modification day and
    what the exporter knows of its content. This module holds what the
    directory operations promise; the operations themselves are methods of
    Exporter.ExportRoot. */
module Folders {
  import opened Strings
  import opened Dicts
  import opened Dates
  import opened CustomFields

  datatype Content =
    | Existing                  // a file the exporter did not write in this run
    | Pdf(doc: int)             // the document's download
    | Metadata(doc: int)        // the document's detail record as JSON
    | Zip(members: set<string>) // an archive and the names packed into it
    | Sheet(rows: seq<Dict<string, Cell>>, currency: seq<string>)
    | Log(lines: seq<string>)    // a text log, line by line
    | Workbook(ids: seq<int>, links: seq<string>) // the legacy spreadsheet: one row per document id; links[k] is cell B<k + 2>'s hyperlink

  datatype File = File(modified: Date, content: Content)

  type Folder = map<string, File>

  /** has_file_from_today, for a folder that exists: some file in it was
      last modified on that day. */
  predicate HasFileFrom(folder: Folder, today: Date) {
    exists name :: name in folder && folder[name].modified == today
  }

  /** file.endswith(".zip"), case-sensitive. */
  predicate IsZip(name: string) {
    EndsWith(name, ".zip")
  }

  /** ##<tag>_<yyyymmdd_HHMMSS>.zip */
  function ArchiveName(tagName: string, now: Timestamp): (r: string)
    ensures IsZip(r)
  {
    var r := "##" + tagName + "_" + SecondStamp(now) + ".zip";
    assert r[|r| - 4..] == ".zip";
    r
  }

  /** The names prepare_tag_directory_for_export packs into the archive. */
  function Packed(folder: Folder): set<string> {
    set n | n in folder && !IsZip(n)
  }

  /** The folder after prepare_tag_directory_for_export: the .zip files it
      held, and the new archive of everything else. */
  function Prepared(folder: Folder, tagName: string, now: Timestamp): Folder {
    (map n | n in folder && IsZip(n) :: folder[n])[ArchiveName(tagName, now) := File(now.Day(), Zip(Packed(folder)))]
  }

  /** After preparing, only .zip files remain; the earlier ones are
      untouched, and the new archive holds exactly the other files. */
  lemma PreparedFolder(folder: Folder, tagName: string, now: Timestamp)
    ensures forall n :: n in Prepared(folder, tagName, now) ==> IsZip(n)
    ensures forall n :: n in folder && IsZip(n) && n != ArchiveName(tagName, now) ==>
      n in Prepared(folder, tagName, now) && Prepared(folder, tagName, now)[n] == folder[n]
    ensures ArchiveName(tagName, now) in Prepared(folder, tagName, now)
    ensures forall n :: n in Prepared(folder, tagName, now)[ArchiveName(tagName, now)].content.members <==>
      n in folder && !IsZip(n)
  {
  }

  /** The first name export_to_excel tries: ##export-<tag>-<yyyymmdd> */
  function SheetBase(tagName: string, now: Timestamp): string {
    "##export-" + tagName + "-" + Stamp(now)
  }

  /** The k-th name tried: <base>.xlsx, then <base>-1.xlsx, <base>-2.xlsx, ... */
  function Candidate(base: string, k: nat): (r: string)
    ensures |r| > |base| && r[..|base|] == base
    ensures EndsWith(r, ".xlsx")
  {
    var r := if k == 0 then base + ".xlsx" else base + "-" + NatToString(k) + ".xlsx";
    assert r[|r| - 5..] == ".xlsx";
    r
  }

  /** Different counters give different names, so the loop never retries one. */
  lemma CandidateInjective(base: string, i: nat, j: nat)
    requires Candidate(base, i) == Candidate(base, j)
    ensures i == j
  {
    var a := Candidate(base, i);
    if i != 0 && j != 0 {
      var ni := NatToString(i);
      var nj := NatToString(j);
      assert a[|base| + 1..|a| - 5] == ni;
      assert Candidate(base, j)[|base| + 1..|a| - 5] == nj;
      NatToStringInjective(i, j);
    }
  }

  /** The names tried before the counter reaches n. */
  ghost function Tried(base: string, n: nat): set<string> {
    if n == 0 then {} else Tried(base, n - 1) + {Candidate(base, n - 1)}
  }

  lemma {:induction false} TriedCount(base: string, n: nat)
    ensures |Tried(base, n)| == n
  {
    if n > 0 {
      TriedCount(base, n - 1);
      TriedMisses(base, n - 1, n - 1);
    }
  }

  /** A candidate not yet reached is not among those tried. */
  lemma {:induction false} TriedMisses(base: string, n: nat, m: nat)
    requires n <= m
    ensures Candidate(base, m) !in Tried(base, n)
  {
    if n > 0 {
      TriedMisses(base, n - 1, m);
      if Candidate(base, m) == Candidate(base, n - 1) {
        CandidateInjective(base, m, n - 1);
      }
    }
  }

  lemma {:induction false} TriedWithin(folder: Folder, base: string, n: nat)
    requires forall j :: 0 <= j < n ==> Candidate(base, j) in folder
    ensures Tried(base, n) <= folder.Keys
  {
    if n > 0 {
      TriedWithin(folder, base, n - 1);
    }
  }

  lemma SubsetCard<T>(a: set<T>, b: set<T>)
    requires a <= b
    ensures |a| <= |b|
  {
    assert b == a + (b - a);
  }

  /** A folder holding the first n candidates holds at least n files, so
      the naming loop ends. */
  lemma CandidatesFit(folder: Folder, base: string, n: nat)
    requires forall j :: 0 <= j < n ==> Candidate(base, j) in folder
    ensures n <= |folder.Keys|
  {
    TriedCount(base, n);
    TriedWithin(folder, base, n);
    SubsetCard(Tried(base, n), folder.Keys);
  }

  /** name is the first candidate absent from the folder. */
  ghost predicate FirstFree(folder: Folder, base: string, name: string) {
    exists k: nat :: name == Candidate(base, k) && name !in folder
      && forall j :: 0 <= j < k ==> Candidate(base, j) in folder
  }

  /** The chosen name is determined by the folder, and overwrites nothing. */
  lemma FirstFreeUnique(folder: Folder, base: string, a: string, b: string)
    requires FirstFree(folder, base, a) && FirstFree(folder, base, b)
    ensures a == b && a !in folder
  {
    var ka: nat :| a == Candidate(base, ka) && a !in folder && forall j :: 0 <= j < ka ==> Candidate(base, j) in folder;
    var kb: nat :| b == Candidate(base, kb) && b !in folder && forall j :: 0 <= j < kb ==> Candidate(base, j) in folder;
  }
}
