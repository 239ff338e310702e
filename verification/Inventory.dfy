/** Paginated inventories: a transcript is complete or refused, and the loop that collects one. */
module Inventory {
  import opened Protocol

  type Cursor = Bytes

  datatype Page<+T> = Page(request: Option<Cursor>, next: Option<Cursor>, items: seq<T>)

  datatype Collected<+T> = IncompletePagination | Complete(items: seq<T>)

  const MAX_CURSOR_BYTES: nat := 512
  const MAX_PAGES: nat := 32
  const MAX_ITEMS: nat := 4_096

  /** ASCII control characters and white space. */
  predicate IsControlOrSpace(byte: uint8) {
    byte <= 0x20 || byte == 0x7F
  }

  predicate IsValidCursor(cursor: Cursor) {
    && 0 < |cursor| <= MAX_CURSOR_BYTES
    && forall i | 0 <= i < |cursor| :: !IsControlOrSpace(cursor[i])
  }

  /** A cursor is 1 to 512 bytes, none of them a control character or white space. */
  lemma CursorIsValidExactlyWhen(cursor: Cursor)
    ensures IsValidCursor(cursor) <==>
              && cursor != [] && |cursor| <= 512
              && forall i | 0 <= i < |cursor| :: cursor[i] >= 0x21 && cursor[i] != 0x7F
  {
  }

  function AllItems<T>(pages: seq<Page<T>>): seq<T> {
    if pages == [] then [] else AllItems(pages[..|pages| - 1]) + pages[|pages| - 1].items
  }

  /** One chain from no cursor to no cursor, each link valid and used once. */
  ghost predicate IsChain<T>(pages: seq<Page<T>>) {
    && pages != []
    && pages[0].request == None
    && pages[|pages| - 1].next == None
    && (forall i | 0 < i < |pages| :: pages[i].request == pages[i - 1].next)
    && (forall i | 0 < i < |pages| :: pages[i].request.Some? && IsValidCursor(pages[i].request.value))
    && (forall i, j | 0 < i < j < |pages| :: pages[i].request != pages[j].request)
  }

  // ---------------------------------------------------------------- page by page

  function Expected<T>(pages: seq<Page<T>>, i: nat): Option<Cursor>
    requires i <= |pages|
  {
    if i == 0 then None else pages[i - 1].next
  }

  predicate IsNewCursor<T>(pages: seq<Page<T>>, i: nat)
    requires i < |pages|
  {
    pages[i].request.Some? ==>
      IsValidCursor(pages[i].request.value) && forall j | 0 <= j < i :: pages[j].request != pages[i].request
  }

  /** What the collector checks of one page, given those before it. */
  predicate Fits<T>(pages: seq<Page<T>>, i: nat)
    requires i < |pages|
  {
    && pages[i].request == Expected(pages, i)
    && IsNewCursor(pages, i)
    && (pages[i].next.None? ==> i + 1 == |pages|)
  }

  lemma ChainsFitPageByPage<T>(pages: seq<Page<T>>)
    ensures IsChain(pages) <==>
              pages != [] && pages[|pages| - 1].next.None? && forall i | 0 <= i < |pages| :: Fits(pages, i)
  {
    if pages != [] && pages[|pages| - 1].next.None? && forall i | 0 <= i < |pages| :: Fits(pages, i) {
      assert Fits(pages, 0);
      forall i | 0 < i < |pages|
        ensures pages[i].request == pages[i - 1].next
        ensures pages[i].request.Some? && IsValidCursor(pages[i].request.value)
        ensures forall j | 0 <= j < i :: pages[j].request != pages[i].request
      {
        assert Fits(pages, i) && Fits(pages, i - 1);
      }
    }
    if IsChain(pages) {
      forall i | 0 <= i < |pages| ensures Fits(pages, i) {
        if i + 1 < |pages| {
          assert pages[i + 1].request == pages[i].next;
        }
      }
    }
  }

  lemma {:induction false} ItemsOnlyGrow<T>(pages: seq<Page<T>>, n: nat)
    requires n <= |pages|
    ensures |AllItems(pages[..n])| <= |AllItems(pages)|
    decreases |pages| - n
  {
    if n < |pages| {
      assert pages[..n + 1][..n] == pages[..n];
      ItemsOnlyGrow(pages, n + 1);
    } else {
      assert pages[..n] == pages;
    }
  }

  /** The cursors the first `n` pages were requested with. */
  function RequestsBefore<T>(pages: seq<Page<T>>, n: nat): set<Cursor>
    requires n <= |pages|
  {
    set i | 0 <= i < n && pages[i].request.Some? :: pages[i].request.value
  }

  predicate Admits(seen: set<Cursor>, request: Option<Cursor>) {
    request.Some? ==> IsValidCursor(request.value) && request.value !in seen
  }

  lemma AdmittedCursorsAreNew<T>(pages: seq<Page<T>>, i: nat)
    requires i < |pages|
    ensures Admits(RequestsBefore(pages, i), pages[i].request) <==> IsNewCursor(pages, i)
    ensures RequestsBefore(pages, i + 1)
            == RequestsBefore(pages, i) + if pages[i].request.Some? then {pages[i].request.value} else {}
  {
  }

  lemma OneMorePage<T>(pages: seq<Page<T>>, i: nat)
    requires i < |pages|
    ensures AllItems(pages[..i + 1]) == AllItems(pages[..i]) + pages[i].items
    ensures |AllItems(pages[..i + 1])| <= |AllItems(pages)|
  {
    assert pages[..i + 1][..i] == pages[..i];
    ItemsOnlyGrow(pages, i + 1);
  }

  method AdmitCursor(seen: set<Cursor>, request: Option<Cursor>) returns (admitted: bool)
    ensures admitted == Admits(seen, request)
  {
    if request.None? {
      return true;
    }
    var cursor := request.value;
    if cursor == [] || |cursor| > MAX_CURSOR_BYTES {
      return false;
    }
    return !(exists i | 0 <= i < |cursor| :: IsControlOrSpace(cursor[i])) && cursor !in seen;
  }

  method CollectCompleteInventory<T>(pages: seq<Page<T>>, maxPages: nat, maxItems: nat)
    returns (inventory: Collected<T>)
    ensures inventory.Complete? <==> IsChain(pages) && |pages| <= maxPages && |AllItems(pages)| <= maxItems
    ensures inventory.Complete? ==> inventory.items == AllItems(pages)
  {
    ChainsFitPageByPage(pages);
    if pages == [] || |pages| > maxPages {
      return IncompletePagination;
    }
    var expected: Option<Cursor> := None;
    var seen: set<Cursor> := {};
    var items: seq<T> := [];
    for index := 0 to |pages|
      invariant forall i | 0 <= i < index :: Fits(pages, i)
      invariant items == AllItems(pages[..index]) && |items| <= maxItems
      invariant expected == Expected(pages, index) && seen == RequestsBefore(pages, index)
    {
      var page := pages[index];
      AdmittedCursorsAreNew(pages, index);
      OneMorePage(pages, index);
      if page.request != expected {
        assert !Fits(pages, index);
        return IncompletePagination;
      }
      var admitted := AdmitCursor(seen, page.request);
      if !admitted {
        assert !Fits(pages, index);
        return IncompletePagination;
      }
      seen := seen + if page.request.Some? then {page.request.value} else {};
      if |items| + |page.items| > maxItems {
        return IncompletePagination;
      }
      items := items + page.items;
      expected := page.next;
      if expected.None? && index + 1 != |pages| {
        assert !Fits(pages, index);
        return IncompletePagination;
      }
      assert Fits(pages, index);
    }
    assert pages[..|pages|] == pages;
    if expected.Some? {
      return IncompletePagination;
    }
    return Complete(items);
  }

  // ---------------------------------------------------------------- the listing loop

  datatype Response<+T> = Failed | Listed(items: seq<T>, nextPage: Option<Cursor>)

  /** Any server: it sees the request's number and cursor, and may answer differently every time. */
  type Server<!T> = (nat, Option<Cursor>) -> Response<T>

  datatype Listing<+T> = ProviderError | Refused | Whole(items: seq<T>)

  /** An empty cursor means there is no next page. */
  function NextCursor<T>(response: Response<T>): Option<Cursor> {
    if response.Listed? && response.nextPage.Some? && response.nextPage.value != [] then response.nextPage else None
  }

  /** The cursor of the i-th request: what the answer before it named. */
  function Request<T>(server: Server<T>, i: nat): Option<Cursor> {
    if i == 0 then None else NextCursor(server(i - 1, Request(server, i - 1)))
  }

  function Answer<T>(server: Server<T>, i: nat): Response<T> {
    server(i, Request(server, i))
  }

  function PageAt<T>(server: Server<T>, i: nat): Page<T> {
    var answer := Answer(server, i);
    Page(Request(server, i), NextCursor(answer), if answer.Listed? then answer.items else [])
  }

  function Transcript<T>(server: Server<T>, n: nat): seq<Page<T>> {
    seq(n, i requires 0 <= i < n => PageAt(server, i))
  }

  /** The first `n` answers are a complete inventory within the item limit. */
  ghost predicate CompletesAfter<T>(server: Server<T>, n: nat) {
    && 0 < n <= MAX_PAGES
    && (forall i | 0 <= i < n :: Answer(server, i).Listed?)
    && IsChain(Transcript(server, n))
    && |AllItems(Transcript(server, n))| <= MAX_ITEMS
  }

  /** The limits are 32 pages and 4096 items, each of them allowed. */
  lemma CompletesExactlyWhen<T>(server: Server<T>, n: nat)
    ensures CompletesAfter(server, n) <==>
              && 1 <= n && n < 33 && IsChain(Transcript(server, n)) && |AllItems(Transcript(server, n))| < 4097
              && forall i | 0 <= i < n :: Answer(server, i).Listed?
  {
  }

  /** The first `k` answers each named a next page. */
  ghost predicate Ongoing<T>(server: Server<T>, k: nat) {
    forall i | 0 <= i < k :: Answer(server, i).Listed? && PageAt(server, i).next.Some?
  }

  /** A listing that is still going completes, if at all, with or after its next answer. */
  lemma CompletionComesLater<T>(server: Server<T>, k: nat, m: nat)
    requires Ongoing(server, k) && CompletesAfter(server, m)
    ensures m > k && Answer(server, k).Listed?
    ensures m == k + 1 <==> PageAt(server, k).next.None?
  {
    var pages := Transcript(server, m);
    assert pages[m - 1] == PageAt(server, m - 1);
    assert pages[k] == PageAt(server, k);
    if k + 1 < m {
      assert pages[k + 1].request == pages[k].next && pages[k + 1].request.Some?;
    }
  }

  ghost predicate NeverCompletes<T>(server: Server<T>) {
    forall n: nat :: !CompletesAfter(server, n)
  }

  lemma ErrorsAreFinal<T>(server: Server<T>, k: nat)
    requires Ongoing(server, k)
    requires || Answer(server, k).Failed?
             || k == MAX_PAGES
             || (PageAt(server, k).next.None? && !CompletesAfter(server, k + 1))
    ensures NeverCompletes(server)
  {
    forall m: nat | CompletesAfter(server, m) ensures false {
      CompletionComesLater(server, k, m);
    }
  }

  /** What a transcript that came to its end says: it is complete, or nothing ever will be. */
  lemma EndedTranscriptDecides<T>(server: Server<T>, n: nat)
    requires 0 < n <= MAX_PAGES && Ongoing(server, n - 1)
    requires Answer(server, n - 1).Listed? && PageAt(server, n - 1).next.None?
    ensures CompletesAfter(server, n)
       <==> IsChain(Transcript(server, n)) && |AllItems(Transcript(server, n))| <= MAX_ITEMS
    ensures !CompletesAfter(server, n) <==> NeverCompletes(server)
  {
    if !CompletesAfter(server, n) {
      ErrorsAreFinal(server, n - 1);
    }
  }

  /** Follows next-page cursors until an answer names none. */
  method FollowCursors<T>(server: Server<T>) returns (broken: Option<Listing<T>>, pages: seq<Page<T>>, requests: nat)
    ensures 0 < requests <= MAX_PAGES
    ensures broken.Some? ==> !broken.value.Whole? && NeverCompletes(server)
    ensures broken.None? ==>
              && pages == Transcript(server, requests) && Ongoing(server, requests - 1)
              && Answer(server, requests - 1).Listed? && PageAt(server, requests - 1).next.None?
  {
    pages := [];
    var cursor: Option<Cursor> := None;
    requests := 0;
    while true
      invariant requests < MAX_PAGES && Ongoing(server, requests)
      invariant pages == Transcript(server, requests) && cursor == Request(server, requests)
      decreases MAX_PAGES - requests
    {
      var response := server(requests, cursor);
      assert response == Answer(server, requests);
      if response.Failed? {
        ErrorsAreFinal(server, requests);
        return Some(ProviderError), pages, requests + 1;
      }
      var next := NextCursor(response);
      pages := pages + [Page(cursor, next, response.items)];
      assert pages == Transcript(server, requests + 1);
      requests := requests + 1;
      if next.None? {
        return None, pages, requests;
      }
      if |pages| >= MAX_PAGES {
        ErrorsAreFinal(server, requests);
        return Some(Refused), pages, requests;
      }
      cursor := next;
    }
  }

  /** At most 32 requests, and never a partial list: the whole inventory, or an error. */
  method ListOrganizationTailnets<T>(server: Server<T>) returns (listing: Listing<T>, requests: nat)
    ensures requests <= MAX_PAGES
    ensures listing.Whole? <==> !NeverCompletes(server)
    ensures listing.Whole? ==>
              CompletesAfter(server, requests) && listing.items == AllItems(Transcript(server, requests))
  {
    var broken, pages;
    broken, pages, requests := FollowCursors(server);
    if broken.Some? {
      return broken.value, requests;
    }
    var inventory := CollectCompleteInventory(pages, MAX_PAGES, MAX_ITEMS);
    EndedTranscriptDecides(server, requests);
    if inventory.IncompletePagination? {
      return Refused, requests;
    }
    return Whole(inventory.items), requests;
  }
}
