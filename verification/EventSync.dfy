/** Event collection: ledger windows, pages within a window, and the sorted result. */
module EventSync {
  import opened Wrappers
  import opened Ordering

  const MAX_LEDGER_WINDOW := 17_000
  const EVENT_PAGE_LIMIT := 100
  const MIN_PAGE_SIZE := 10
  const PAGE_SIZE_RECOVERY_THRESHOLD := 3

  /** `body` is None where the parser returns null or throws. */
  datatype RpcEvent = RpcEvent(topics: nat, ledger: nat, contractId: string, txHash: string, id: Option<string>, body: Option<string>)

  datatype Response = Page(events: seq<RpcEvent>, token: Option<string>) | RateLimited | Failed

  /** The RPC: window start, window end, page limit and cursor to a response. */
  type Rpc = (nat, nat, nat, Option<string>) -> Response

  datatype Outcome = Collected(events: seq<Decoded>) | RepeatedCursor(token: string) | RpcError(rateLimited: bool)

  // ------------------------------------------------------------ simple scan

  function Decode(e: RpcEvent, index: nat): Option<Decoded> {
    if e.topics == 0 || e.body.None? then None
    else Some(Decoded(e.ledger, ExtractEventOrdering(e.id, index), e.contractId, e.txHash, e.body.value))
  }

  function Keep(d: Option<Decoded>): seq<Decoded> { if d.Some? then [d.value] else [] }

  /** The decodable events of a list, in order. */
  function DecodeAll(events: seq<RpcEvent>): seq<Decoded> {
    if |events| == 0 then [] else DecodeAll(events[..|events| - 1]) + Keep(Decode(events[|events| - 1], 0))
  }

  function InRange(all: seq<RpcEvent>, lo: nat, hi: int): seq<RpcEvent> {
    if |all| == 0 then []
    else
      var rest, e := InRange(all[..|all| - 1], lo, hi), all[|all| - 1];
      if lo <= e.ledger <= hi then rest + [e] else rest
  }

  ghost predicate AllKeyed(all: seq<RpcEvent>) {
    forall i :: 0 <= i < |all| ==> Keyed(all[i].id)
  }

  ghost predicate ByLedger(all: seq<RpcEvent>) {
    forall i, j :: 0 <= i < j < |all| ==> all[i].ledger <= all[j].ledger
  }

  lemma {:induction false} DecodeAppend(a: seq<RpcEvent>, b: seq<RpcEvent>)
    ensures DecodeAll(a + b) == DecodeAll(a) + DecodeAll(b)
  {
    if |b| == 0 {
      assert a + b == a;
    } else {
      assert (a + b)[..|a + b| - 1] == a + b[..|b| - 1];
      DecodeAppend(a, b[..|b| - 1]);
    }
  }

  lemma {:induction false} InRangeFrom(all: seq<RpcEvent>, lo: nat, hi: int)
    ensures forall e :: e in InRange(all, lo, hi) ==> e in all && lo <= e.ledger <= hi
  {
    if |all| > 0 { InRangeFrom(all[..|all| - 1], lo, hi); }
  }

  lemma {:induction false} NoneInRange(all: seq<RpcEvent>, lo: nat, hi: int)
    requires forall e :: e in all ==> e.ledger < lo || hi < e.ledger
    ensures InRange(all, lo, hi) == []
  {
    if |all| > 0 {
      assert all[|all| - 1] in all;
      NoneInRange(all[..|all| - 1], lo, hi);
    }
  }

  /** Cutting a range at a ledger cuts the scan of it there. */
  lemma {:induction false} RangeCut(all: seq<RpcEvent>, lo: nat, mid: nat, hi: int)
    requires ByLedger(all) && lo <= mid <= hi + 1
    ensures InRange(all, lo, hi) == InRange(all, lo, mid - 1) + InRange(all, mid, hi)
  {
    if |all| > 0 {
      var front, e := all[..|all| - 1], all[|all| - 1];
      RangeCut(front, lo, mid, hi);
      if lo <= e.ledger < mid {
        forall d | d in front ensures d.ledger < mid {
          var i :| 0 <= i < |front| && front[i] == d;
          assert all[i].ledger <= all[|all| - 1].ledger;
        }
        NoneInRange(front, mid, hi);
      }
    }
  }

  // ------------------------------------------------------------------ the RPC

  function Position(pos: (nat, nat, string) -> nat, lo: nat, hi: nat, cursor: Option<string>): nat {
    if cursor.Some? && cursor.value != "" then pos(lo, hi, cursor.value) else 0
  }

  /** One answer: the next events of the window after the cursor, and a token unless the window is exhausted. */
  ghost predicate AnswersFrom(r: Response, window: seq<RpcEvent>, p: nat, pos: (nat, nat, string) -> nat, lo: nat,
                              hi: nat)
  {
    r.Page? ==>
      && p + |r.events| <= |window| && r.events == window[p..p + |r.events|]
      && (if r.token.Some? && r.token.value != "" then pos(lo, hi, r.token.value) == p + |r.events| else p + |r.events| == |window|)
  }

  /** A server that may fail, and cut pages anywhere, but otherwise pages through the events of a window. */
  ghost predicate Faithful(rpc: Rpc, all: seq<RpcEvent>, pos: (nat, nat, string) -> nat) {
    forall lo: nat, hi: nat, size: nat, cursor: Option<string> ::
      AnswersFrom(rpc(lo, hi, size, cursor), InRange(all, lo, hi), Position(pos, lo, hi, cursor), pos, lo, hi)
  }

  /** Every page that is not the last one holds an event. */
  ghost predicate Progressing(rpc: Rpc) {
    forall lo: nat, hi: nat, size: nat, cursor: Option<string> :: Nonempty(rpc(lo, hi, size, cursor))
  }

  predicate Nonempty(r: Response) { r.Page? && r.token.Some? && r.token.value != "" ==> |r.events| > 0 }

  predicate TokenIn(r: Response, tokens: set<string>) { r.Page? && r.token.Some? ==> r.token.value in tokens }

  ghost predicate FinitelyMany(rpc: Rpc, tokens: set<string>) {
    forall lo: nat, hi: nat, size: nat, cursor: Option<string> :: TokenIn(rpc(lo, hi, size, cursor), tokens)
  }

  // -------------------------------------------------------------- collection

  /** The events of one page, each decoded with its position in the page as the fallback. */
  method DecodePage(events: seq<RpcEvent>) returns (decoded: seq<Decoded>)
    ensures AllKeyed(events) ==> decoded == DecodeAll(events)
  {
    decoded := [];
    for index := 0 to |events|
      invariant AllKeyed(events) ==> decoded == DecodeAll(events[..index])
    {
      assert events[..index + 1][..index] == events[..index];
      KeyFromIdExactly(events[index].id);
      decoded := decoded + Keep(Decode(events[index], index));
    }
    assert events[..|events|] == events;
  }

  ghost predicate Spec(rpc: Rpc, all: seq<RpcEvent>, pos: (nat, nat, string) -> nat) {
    Faithful(rpc, all, pos) && AllKeyed(all)
  }

  lemma {:induction false} KeyedSlice(all: seq<RpcEvent>, lo: nat, hi: nat, p: nat, q: nat)
    requires AllKeyed(all) && p <= q <= |InRange(all, lo, hi)|
    ensures AllKeyed(InRange(all, lo, hi)[p..q])
  {
    InRangeFrom(all, lo, hi);
    forall i | p <= i < q ensures Keyed(InRange(all, lo, hi)[i].id) {
      assert InRange(all, lo, hi)[i] in all;
    }
  }

  lemma {:induction false} NextPage(window: seq<RpcEvent>, p: nat, q: nat)
    requires p <= q <= |window|
    ensures DecodeAll(window[..q]) == DecodeAll(window[..p]) + DecodeAll(window[p..q])
  {
    DecodeAppend(window[..p], window[p..q]);
    assert window[..p] + window[p..q] == window[..q];
  }

  function Halved(size: nat): nat { if size / 2 < MIN_PAGE_SIZE then MIN_PAGE_SIZE else size / 2 }

  predicate GoesOn(token: Option<string>) { token.Some? && token.value != "" }

  /** One request: from position `p` of the window to position `q`. */
  method FetchPage(rpc: Rpc, lo: nat, hi: nat, size: nat, token: Option<string>, ghost tokens: set<string>,
                   ghost all: seq<RpcEvent>, ghost pos: (nat, nat, string) -> nat)
    returns (ok: bool, rateLimited: bool, page: seq<Decoded>, next: Option<string>, ghost q: nat)
    requires FinitelyMany(rpc, tokens)
    ensures ok && next.Some? ==> next.value in tokens
    ensures ok && Faithful(rpc, all, pos) ==>
              && Position(pos, lo, hi, token) <= q <= |InRange(all, lo, hi)|
              && q == if GoesOn(next) then pos(lo, hi, next.value) else |InRange(all, lo, hi)|
    ensures ok && Spec(rpc, all, pos) ==> page == DecodeAll(InRange(all, lo, hi)[Position(pos, lo, hi, token)..q])
    ensures ok && Faithful(rpc, all, pos) && Progressing(rpc) && GoesOn(next) ==> Position(pos, lo, hi, token) < q
  {
    var response := rpc(lo, hi, size, token);
    ok, rateLimited, page, next, q := response.Page?, response.RateLimited?, [], None, 0;
    if !ok { return; }
    page := DecodePage(response.events);
    next := response.token;
    assert TokenIn(response, tokens);
    q := Position(pos, lo, hi, token) + |response.events|;
    if Faithful(rpc, all, pos) {
      FaithfulAnswer(rpc, all, pos, lo, hi, size, token, response, q);
      if AllKeyed(all) { KeyedSlice(all, lo, hi, Position(pos, lo, hi, token), q); }
    }
  }

  /** What a faithful answer says: the events between two positions of the window, further on if pages progress. */
  lemma {:induction false} FaithfulAnswer(rpc: Rpc, all: seq<RpcEvent>, pos: (nat, nat, string) -> nat, lo: nat,
                                          hi: nat, size: nat, token: Option<string>, response: Response, q: nat)
    requires Faithful(rpc, all, pos) && response == rpc(lo, hi, size, token) && response.Page?
    requires q == Position(pos, lo, hi, token) + |response.events|
    ensures Position(pos, lo, hi, token) <= q <= |InRange(all, lo, hi)|
    ensures response.events == InRange(all, lo, hi)[Position(pos, lo, hi, token)..q]
    ensures q == if GoesOn(response.token) then pos(lo, hi, response.token.value) else |InRange(all, lo, hi)|
    ensures Progressing(rpc) && GoesOn(response.token) ==> Position(pos, lo, hi, token) < q
  {
    assert AnswersFrom(rpc(lo, hi, size, token), InRange(all, lo, hi), Position(pos, lo, hi, token), pos, lo, hi);
    assert Progressing(rpc) ==> Nonempty(rpc(lo, hi, size, token));
  }

  /** Page size recovery: after sustained successes it doubles, up to the limit. */
  method Recover(size: nat, successes: nat) returns (size': nat, successes': nat)
    ensures size <= EVENT_PAGE_LIMIT ==> size <= size' <= EVENT_PAGE_LIMIT
    ensures successes + 1 < PAGE_SIZE_RECOVERY_THRESHOLD || size >= EVENT_PAGE_LIMIT ==>
              size' == size && successes' == successes + 1
    ensures successes + 1 >= PAGE_SIZE_RECOVERY_THRESHOLD && size < EVENT_PAGE_LIMIT ==>
              successes' == 0 && (size' == size + size || (size' == EVENT_PAGE_LIMIT <= size + size))
  {
    size', successes' := size, successes + 1;
    if successes' >= PAGE_SIZE_RECOVERY_THRESHOLD && size' < EVENT_PAGE_LIMIT {
      size' := if size' * 2 < EVENT_PAGE_LIMIT then size' * 2 else EVENT_PAGE_LIMIT;
      successes' := 0;
    }
  }

  /** The page loop has read the first `p` events of the window; `more` says whether it goes on. */
  ghost predicate PagedTo(window: seq<RpcEvent>, pos: (nat, nat, string) -> nat, lo: nat, hi: nat,
                          p: nat, token: Option<string>, seen: set<string>, more: bool)
  {
    && p <= |window| && (if more then p == Position(pos, lo, hi, token) else p == |window|)
    && (more ==> forall t :: t in seen ==> pos(lo, hi, t) <= p)
  }

  /**
    The page loop of one window.  It stops for every finite set of tokens; the collected events
    of a faithful server are the scan of the window, and a progressing one is never reported.
  */
  method CollectWindow(rpc: Rpc, lo: nat, hi: nat, startSize: nat, startSuccesses: nat, ghost tokens: set<string>,
                       ghost all: seq<RpcEvent>, ghost pos: (nat, nat, string) -> nat)
    returns (r: Outcome, size: nat, successes: nat)
    requires FinitelyMany(rpc, tokens)
    ensures Spec(rpc, all, pos) && r.Collected? ==> r.events == DecodeAll(InRange(all, lo, hi))
    ensures Faithful(rpc, all, pos) && Progressing(rpc) ==> !r.RepeatedCursor?
    ensures startSize == EVENT_PAGE_LIMIT ==> size == EVENT_PAGE_LIMIT
  {
    var decoded: seq<Decoded>, token: Option<string>, seen: set<string>, more := [], None, {}, true;
    size, successes := startSize, startSuccesses;
    ghost var window := InRange(all, lo, hi);
    ghost var p: nat := 0;
    while more
      invariant seen <= tokens && (more ==> "" !in seen)
      invariant startSize == EVENT_PAGE_LIMIT ==> size == EVENT_PAGE_LIMIT
      invariant Faithful(rpc, all, pos) ==> PagedTo(window, pos, lo, hi, p, token, seen, more)
      invariant Spec(rpc, all, pos) ==> decoded == DecodeAll(window[..p])
      decreases more, tokens - seen
    {
      var ok, rateLimited, page, next;
      ghost var q;
      ok, rateLimited, page, next, q := FetchPage(rpc, lo, hi, size, token, tokens, all, pos);
      if !ok { return RpcError(rateLimited), size, successes; }
      size, successes := Recover(size, successes);
      if Faithful(rpc, all, pos) { NextPage(window, p, q); }
      decoded, p := decoded + page, q;
      if next.Some? {
        if next.value in seen { return RepeatedCursor(next.value), size, successes; }
        seen := seen + {next.value};
      }
      token, more := next, GoesOn(next);
    }
    assert Faithful(rpc, all, pos) ==> window[..p] == window;
    r := Collected(decoded);
  }

  /** Everything of the range below `next`, decoded. */
  function ScanBelow(all: seq<RpcEvent>, start: nat, end: nat, next: nat): seq<Decoded> {
    DecodeAll(InRange(all, start, if next <= end then next - 1 else end))
  }

  lemma {:induction false} ScanNext(all: seq<RpcEvent>, start: nat, end: nat, next: nat, windowEnd: nat)
    requires ByLedger(all) && start <= next <= windowEnd <= end
    ensures ScanBelow(all, start, end, next) + DecodeAll(InRange(all, next, windowEnd)) == ScanBelow(all, start, end, windowEnd + 1)
  {
    RangeCut(all, start, next, windowEnd);
    DecodeAppend(InRange(all, start, next - 1), InRange(all, next, windowEnd));
  }

  // -------------------------------------------------------- what is collected

  /** An RPC event that is collected: it has topics and the parser returns something for it. */
  predicate Collectable(e: RpcEvent, lo: nat, hi: int) { e.topics > 0 && e.body.Some? && lo <= e.ledger <= hi }

  /** The collected form of an RPC event. */
  predicate Describes(d: Decoded, e: RpcEvent) {
    && d.ledger == e.ledger && d.contractId == e.contractId && d.txHash == e.txHash && Some(d.body) == e.body
    && d.key == ExtractEventOrdering(e.id, 0)
  }

  function CountCollectable(all: seq<RpcEvent>, lo: nat, hi: int): nat {
    if |all| == 0 then 0
    else CountCollectable(all[..|all| - 1], lo, hi) + if Collectable(all[|all| - 1], lo, hi) then 1 else 0
  }

  ghost predicate FromRpc(d: Decoded, all: seq<RpcEvent>, lo: nat, hi: int) {
    exists i :: 0 <= i < |all| && Collectable(all[i], lo, hi) && Describes(d, all[i])
  }

  /** In application order, one for each collectable event of the range, with its fields. */
  ghost predicate Collects(r: seq<Decoded>, all: seq<RpcEvent>, lo: nat, hi: int) {
    && InOrder(r) && |r| == CountCollectable(all, lo, hi)
    && forall d :: d in r <==> FromRpc(d, all, lo, hi)
  }

  lemma {:induction false} DecodeSnoc(events: seq<RpcEvent>, e: RpcEvent)
    ensures DecodeAll(events + [e]) == DecodeAll(events) + Keep(Decode(e, 0))
  {
    assert (events + [e])[..|events|] == events;
  }

  lemma {:induction false} FromRpcSnoc(d: Decoded, front: seq<RpcEvent>, e: RpcEvent, lo: nat, hi: int)
    ensures FromRpc(d, front + [e], lo, hi)
       <==> FromRpc(d, front, lo, hi) || (Collectable(e, lo, hi) && Describes(d, e))
  {
    var all := front + [e];
    if i :| 0 <= i < |front| && Collectable(front[i], lo, hi) && Describes(d, front[i]) { assert all[i] == front[i]; }
    if Collectable(e, lo, hi) && Describes(d, e) { assert all[|front|] == e; }
  }

  lemma {:induction false} ScanCollects(all: seq<RpcEvent>, lo: nat, hi: int)
    ensures |DecodeAll(InRange(all, lo, hi))| == CountCollectable(all, lo, hi)
    ensures forall d :: d in DecodeAll(InRange(all, lo, hi)) <==> FromRpc(d, all, lo, hi)
  {
    if |all| > 0 {
      var front, e := all[..|all| - 1], all[|all| - 1];
      ScanCollects(front, lo, hi);
      assert all == front + [e];
      DecodeSnoc(InRange(front, lo, hi), e);
      forall d ensures d in DecodeAll(InRange(all, lo, hi)) <==> FromRpc(d, all, lo, hi) {
        ScanMember(d, front, e, all, lo, hi);
      }
    }
  }

  lemma {:induction false} ScanMember(d: Decoded, front: seq<RpcEvent>, e: RpcEvent, all: seq<RpcEvent>,
                                      lo: nat, hi: int)
    requires all == front + [e] && (d in DecodeAll(InRange(front, lo, hi)) <==> FromRpc(d, front, lo, hi))
    ensures d in DecodeAll(InRange(all, lo, hi)) <==> FromRpc(d, all, lo, hi)
  {
    assert all[..|all| - 1] == front;
    DecodeSnoc(InRange(front, lo, hi), e);
    FromRpcSnoc(d, front, e, lo, hi);
    KeptDescribes(e, d);
  }

  lemma {:induction false} KeptDescribes(e: RpcEvent, d: Decoded)
    ensures d in Keep(Decode(e, 0)) <==> e.topics > 0 && e.body.Some? && Describes(d, e)
  {
  }

  lemma {:induction false} CollectsAll(all: seq<RpcEvent>, lo: nat, hi: int)
    ensures Collects(SortDecodedEvents(DecodeAll(InRange(all, lo, hi))), all, lo, hi)
  {
    var scan := DecodeAll(InRange(all, lo, hi));
    var r := SortDecodedEvents(scan);
    SortSorts(scan);
    ScanCollects(all, lo, hi);
    assert |multiset(r)| == |r| && |multiset(scan)| == |scan|;
    forall d ensures d in r <==> d in scan { assert d in multiset(r) <==> d in multiset(scan); }
  }

  /**
    The whole collection: for a faithful server the result is the sorted list of all decodable
    events of the range, each in its place in application order and with the fields of its RPC
    event, whatever the pages and however the range is cut into windows.
    The page size only changes on a rate limit, which ends the collection.
  */
  method CollectMarketplaceEvents(rpc: Rpc, contractIds: nat, startLedger: nat, endLedger: nat,
                                  ghost tokens: set<string>,
                                  ghost all: seq<RpcEvent>, ghost pos: (nat, nat, string) -> nat)
    returns (r: Outcome, pageSize: nat)
    requires FinitelyMany(rpc, tokens)
    ensures contractIds == 0 || startLedger > endLedger ==> r == Collected([])
    ensures contractIds > 0 && Spec(rpc, all, pos) && ByLedger(all) && r.Collected? ==>
              && r.events == SortDecodedEvents(DecodeAll(InRange(all, startLedger, endLedger)))
              && Collects(r.events, all, startLedger, endLedger)
    ensures Faithful(rpc, all, pos) && Progressing(rpc) ==> !r.RepeatedCursor?
    ensures pageSize == if r == RpcError(true) then EVENT_PAGE_LIMIT / 2 else EVENT_PAGE_LIMIT
  {
    r, pageSize := CollectWindows(rpc, contractIds, startLedger, endLedger, tokens, all, pos);
    CollectsAll(all, startLedger, endLedger);
  }

  /** The windows of the range one after the other, and the sort. */
  method CollectWindows(rpc: Rpc, contractIds: nat, startLedger: nat, endLedger: nat, ghost tokens: set<string>,
                        ghost all: seq<RpcEvent>, ghost pos: (nat, nat, string) -> nat)
    returns (r: Outcome, pageSize: nat)
    requires FinitelyMany(rpc, tokens)
    ensures contractIds == 0 || startLedger > endLedger ==> r == Collected([])
    ensures contractIds > 0 && Spec(rpc, all, pos) && ByLedger(all) && r.Collected? ==>
              r.events == SortDecodedEvents(DecodeAll(InRange(all, startLedger, endLedger)))
    ensures Faithful(rpc, all, pos) && Progressing(rpc) ==> !r.RepeatedCursor?
    ensures pageSize == if r == RpcError(true) then EVENT_PAGE_LIMIT / 2 else EVENT_PAGE_LIMIT
  {
    pageSize := EVENT_PAGE_LIMIT;
    var decoded: seq<Decoded>, next: nat, successes: nat := [], startLedger, 0;
    if contractIds == 0 || startLedger > endLedger {
      if startLedger > endLedger { NoneInRange(all, startLedger, endLedger); }
      return Collected([]), pageSize;
    }
    NoneInRange(all, startLedger, startLedger - 1);
    while next <= endLedger
      invariant startLedger <= next && pageSize == EVENT_PAGE_LIMIT
      invariant Spec(rpc, all, pos) && ByLedger(all) ==> decoded == ScanBelow(all, startLedger, endLedger, next)
      decreases endLedger - next
    {
      var windowEnd := if next + MAX_LEDGER_WINDOW - 1 < endLedger then next + MAX_LEDGER_WINDOW - 1 else endLedger;
      var part;
      part, pageSize, successes := CollectWindow(rpc, next, windowEnd, pageSize, successes, tokens, all, pos);
      if !part.Collected? {
        if part == RpcError(true) { pageSize := Halved(pageSize); }
        return part, pageSize;
      }
      if ByLedger(all) { ScanNext(all, startLedger, endLedger, next, windowEnd); }
      decoded := decoded + part.events;
      next := next + MAX_LEDGER_WINDOW;
    }
    r := Collected(SortDecodedEvents(decoded));
  }

  /** Events in application order are delivered as they are. */
  lemma {:induction false} SortedScan(all: seq<RpcEvent>, lo: nat, hi: nat)
    ensures var scan := DecodeAll(InRange(all, lo, hi)); var r := SortDecodedEvents(scan);
            InOrder(r) && multiset(r) == multiset(scan) && (InOrder(scan) && DistinctKeys(scan) ==> r == scan)
  {
    var scan := DecodeAll(InRange(all, lo, hi));
    SortSorts(scan);
    if InOrder(scan) && DistinctKeys(scan) { OrderedUnique(scan, SortDecodedEvents(scan)); }
  }
}
