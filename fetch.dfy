/** fetch_data and get_name_from_id: the paginated collection fetch and the
    best-effort reverse lookup. HTTP is replaced by the responses the server
    gives: a finite run of pages, after which every page number answers 404
    (the API's answer to a page past the end). */
module Fetch {
  import opened Wrappers

  /** The decoded JSON of one page: `results`, and whether `next` is truthy. */
  datatype Body<T> = Body(results: seq<T>, hasNext: bool)

  /** The response to one page request: its status, and its body when the
      body decodes as JSON. */
  datatype Page<T> = Page(status: int, body: Option<Body<T>>)

  datatype FetchError = BadStatus(page: nat, status: int) | NotJson(page: nat)

  /** The response to page n (pages are numbered from 1). */
  function Respond<T>(pages: seq<Page<T>>, n: nat): Page<T>
    requires n >= 1
  {
    if n <= |pages| then pages[n - 1] else Page(404, None)
  }

  /** The loop goes on to the next page after this response. */
  predicate Continues<T>(p: Page<T>) {
    p.status == 200 && p.body.Some? && p.body.value.hasNext
  }

  /** The first page from n on after which the loop requests nothing more. */
  function LastPage<T>(pages: seq<Page<T>>, n: nat): (k: nat)
    requires n >= 1
    ensures n <= k
    ensures Respond(pages, k).status == 200 ==> k <= |pages|
    ensures !Continues(Respond(pages, k))
    ensures forall j :: n <= j < k ==> Continues(Respond(pages, j))
    decreases |pages| + 1 - n
  {
    if !Continues(Respond(pages, n)) then n else LastPage(pages, n + 1)
  }

  function ResultsOf<T>(p: Page<T>): seq<T> {
    if p.body.Some? then p.body.value.results else []
  }

  /** The results of pages 1..k, in page order. */
  function Gathered<T>(pages: seq<Page<T>>, k: nat): seq<T>
    requires k <= |pages|
  {
    if k == 0 then [] else Gathered(pages, k - 1) + ResultsOf(pages[k - 1])
  }

  /** 1, 2, ..., k */
  function UpTo(k: nat): (r: seq<nat>)
    ensures |r| == k && forall i :: 0 <= i < k ==> r[i] == i + 1
  {
    if k == 0 then [] else UpTo(k - 1) + [k]
  }

  /** fetch_data(url, headers, endpoint). `requested` lists the page numbers
      asked for, in order: exactly 1 up to the first page that is not a
      success with a `next`. A failing page ends the fetch with an error and
      nothing gathered; otherwise the result is every page's results in order. */
  method FetchData<T>(pages: seq<Page<T>>) returns (r: Result<seq<T>, FetchError>, requested: seq<nat>)
    ensures requested == UpTo(LastPage(pages, 1))
    ensures var k := LastPage(pages, 1);
      var p := Respond(pages, k);
      r == if p.status != 200 then Failure(BadStatus(k, p.status))
           else if p.body.None? then Failure(NotJson(k))
           else Success(Gathered(pages, k))
  {
    var data: seq<T> := [];
    var page := 1;
    requested := [];
    while true
      invariant 1 <= page <= LastPage(pages, 1)
      invariant LastPage(pages, page) == LastPage(pages, 1)
      invariant page - 1 <= |pages|
      invariant data == Gathered(pages, page - 1)
      invariant requested == UpTo(page - 1)
      decreases |pages| + 1 - page
    {
      var response := Respond(pages, page);
      requested := requested + [page];
      if response.status != 200 {
        return Failure(BadStatus(page, response.status)), requested;
      }
      if response.body.None? {
        return Failure(NotJson(page)), requested;
      }
      data := data + response.body.value.results;
      if !response.body.value.hasNext {
        return Success(data), requested;
      }
      page := page + 1;
    }
  }

  /** When every page but the last has a `next` and the last one has none,
      the fetch returns every page's results and asks for no other page. */
  lemma {:induction false} WholeRunGathered<T>(pages: seq<Page<T>>)
    requires |pages| >= 1
    requires forall i :: 0 <= i < |pages| ==> pages[i].status == 200 && pages[i].body.Some?
    requires forall i :: 0 <= i < |pages| - 1 ==> pages[i].body.value.hasNext
    requires !pages[|pages| - 1].body.value.hasNext
    ensures LastPage(pages, 1) == |pages|
  {
    var k := LastPage(pages, 1);
    assert !Continues(Respond(pages, |pages|));
    assert k <= |pages|;
    assert forall j :: 1 <= j < |pages| ==> Continues(Respond(pages, j));
  }

  /** A page that fails is the last one asked for, once every page before
      it went on to a next page. */
  lemma {:induction false} FailureEndsFetch<T>(pages: seq<Page<T>>, n: nat)
    requires 1 <= n
    requires Respond(pages, n).status != 200
    requires forall j :: 1 <= j < n ==> Continues(Respond(pages, j))
    ensures LastPage(pages, 1) == n
  {
    LastPageFrom(pages, 1, n);
  }

  lemma {:induction false} LastPageFrom<T>(pages: seq<Page<T>>, m: nat, n: nat)
    requires 1 <= m <= n
    requires !Continues(Respond(pages, n))
    requires forall j :: m <= j < n ==> Continues(Respond(pages, j))
    ensures LastPage(pages, m) == n
    decreases n - m
  {
    if m < n {
      assert Continues(Respond(pages, m));
      LastPageFrom(pages, m + 1, n);
    }
  }

  /** The response to GET <endpoint>/<id>/: its status and, when the status
      is 200, the record's `name` if it has one. */
  datatype NameResponse = NameResponse(status: int, name: Option<string>)

  /** get_name_from_id: the name (empty when the record has none) on 200, the
      placeholder "Unknown" on any other status; it never fails on status. */
  function GetNameFromId(response: NameResponse): (r: string)
    ensures response.status == 200 ==> r == response.name.GetOr("")
    ensures response.status != 200 ==> r == "Unknown"
  {
    if response.status == 200 then response.name.GetOr("") else "Unknown"
  }
}
