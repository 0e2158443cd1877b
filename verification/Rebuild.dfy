/**
  `runRebuild`: the replay of stored events over the live tables, in ledger batches with a
  checkpoint, interrupted and resumed any number of times.
*/
module Rebuild {
  import opened Rows
  import opened Replay
  import opened Marketplace

  // -------------------------------------------------------------- the log

  ghost predicate OfferAfterListing(log: seq<Event>, p: int)
    requires 0 <= p < |log|
  {
    log[p].body.OfferMade? && EventWrites(log[p]) != map[] ==>
      exists c :: 0 <= c < p && Writes(Deltas(log), Listing(log[p].body.listing), c)
  }

  /**
    A causally ordered log: sorted by ledger, no row is written before the event that
    creates it, and no offer precedes its listing.
  */
  ghost predicate ValidLog(log: seq<Event>) {
    && (forall i, j :: 0 <= i <= j < |log| ==> 1 <= log[i].ledger <= log[j].ledger)
    && (forall key, p :: FirstWrite(Deltas(log), key, p) ==> EventWrites(log[p])[key].create.Some?)
    && (forall p :: 0 <= p < |log| ==> OfferAfterListing(log, p))
  }

  /** An event as the MarketplaceEvent table keeps it: that table has no transaction hash column. */
  function Stored(e: Event): Event { e.(txHash := "") }

  /** The event types the rebuild queries for; AUCTION_RESERVE_UPDATED is not among them. */
  predicate Rebuilt(b: Body) {
    !b.AuctionReserveUpdated? && !b.Unprojected?
  }

  function RebuildDelta(e: Event): Delta {
    if Rebuilt(e.body) then EventDelta(Stored(e)) else Delta(e.ledger, map[])
  }

  /** What the rebuild applies for each position of the log. */
  function RebuildDeltas(log: seq<Event>): seq<Delta> {
    seq(|log|, i requires 0 <= i < |log| => RebuildDelta(log[i]))
  }

  lemma {:induction false} UpsertsAgree(e: Event, key: Key)
    requires key in EventWrites(e) && EventWrites(e)[key].create.Some?
    ensures Within(EventWrites(e)[key].update, EventWrites(e)[key].create.value)
  {
    if e.body.ListingCreated? { ListingAgrees(e.body, e.ledger); }
    else if e.body.AuctionCreated? { AuctionAgrees(e.body, e.ledger); }
    else { OfferAgrees(e.body, e.txHash, e.ledger); }
  }

  lemma {:induction false} ListingAgrees(b: Body, ledger: int)
    requires b.ListingCreated?
    ensures Within(ListingUpdate(b), ListingCreate(b, ledger))
  {
  }

  lemma {:induction false} AuctionAgrees(b: Body, ledger: int)
    requires b.AuctionCreated?
    ensures Within(AuctionUpdate(b), AuctionCreate(b, ledger))
  {
  }

  lemma {:induction false} OfferAgrees(b: Body, txHash: string, ledger: int)
    requires b.OfferMade?
    ensures Within(OfferUpdate(b, txHash), OfferCreate(b, txHash, ledger))
  {
  }

  lemma {:induction false} LiveCausal(log: seq<Event>)
    requires ValidLog(log)
    ensures Sorted(Deltas(log)) && Causal(Deltas(log))
  {
    var ds := Deltas(log);
    forall key, p | Writes(ds, key, p) && ds[p].writes[key].create.Some?
      ensures Within(ds[p].writes[key].update, ds[p].writes[key].create.value)
    {
      UpsertsAgree(log[p], key);
    }
  }

  /** Which rows an event writes does not depend on its transaction hash. */
  lemma {:induction false} StoredWrites(e: Event, key: Key)
    ensures key in EventWrites(e) <==> key in EventWrites(Stored(e))
    ensures key in EventWrites(e) ==>
              (EventWrites(e)[key].create.Some? <==> EventWrites(Stored(e))[key].create.Some?)
  {
  }

  /** Creating writes are rebuilt, and only auctions lose writes. */
  lemma {:induction false} RebuildWrites(log: seq<Event>, key: Key, p: int)
    ensures Writes(RebuildDeltas(log), key, p) ==> Writes(Deltas(log), key, p)
    ensures Writes(Deltas(log), key, p) && (!key.Auction? || EventWrites(log[p])[key].create.Some?) ==>
              Writes(RebuildDeltas(log), key, p)
  {
    if 0 <= p < |log| { StoredWrites(log[p], key); }
  }

  lemma {:induction false} RebuildCausal(log: seq<Event>)
    requires ValidLog(log)
    ensures Sorted(RebuildDeltas(log)) && Causal(RebuildDeltas(log))
  {
    var ds, rs := Deltas(log), RebuildDeltas(log);
    forall key, p | FirstWrite(rs, key, p) ensures rs[p].writes[key].create.Some? {
      RebuildWrites(log, key, p);
      FirstOf(ds, key, p);
      var q :| FirstWrite(ds, key, q);
      RebuildWrites(log, key, q);
      assert q == p;
      StoredWrites(log[p], key);
    }
    forall key, p | Writes(rs, key, p) && rs[p].writes[key].create.Some?
      ensures Within(rs[p].writes[key].update, rs[p].writes[key].create.value)
    {
      UpsertsAgree(Stored(log[p]), key);
    }
  }

  // ------------------------------------- events over tables that have their rows

  /** Rows that the log wrote before position `k` are in the tables. */
  ghost predicate KeysKept(t: Table, ds: seq<Delta>, k: nat) {
    forall key, p :: 0 <= p < k && Writes(ds, key, p) ==> key in t
  }

  /** During a rebuild no event is staged and none throws: each one acts as its row writes. */
  lemma {:induction false} RebuildStep(t: Table, log: seq<Event>, k: nat)
    requires ValidLog(log) && k < |log| && KeysKept(t, RebuildDeltas(log), k)
    ensures KeysKept(TableStep(t, RebuildDeltas(log)[k]), RebuildDeltas(log), k + 1)
    ensures Rebuilt(log[k].body) ==>
              && !Throws(t, Stored(log[k]))
              && ApplyEvent(t, Stored(log[k])) == TableStep(t, RebuildDeltas(log)[k])
    ensures !Rebuilt(log[k].body) ==> TableStep(t, RebuildDeltas(log)[k]) == t
  {
    var rs, e := RebuildDeltas(log), log[k];
    RebuildCausal(log);
    forall key, p | 0 <= p < k + 1 && Writes(rs, key, p) ensures key in TableStep(t, rs[k]) {
      if p == k && key !in t {
        forall q | 0 <= q < k ensures !Writes(rs, key, q) { }
        assert FirstWrite(rs, key, k);
      }
    }
    if Rebuilt(e.body) { NeverBlocked(t, log, k); } else { NoWrites(t, e.ledger); }
  }

  /** The listing of an offer and the offer of a terminal event are indexed by then. */
  lemma {:induction false} NeverBlocked(t: Table, log: seq<Event>, k: nat)
    requires ValidLog(log) && k < |log| && KeysKept(t, RebuildDeltas(log), k) && Rebuilt(log[k].body)
    ensures !Blocked(t, Stored(log[k]))
  {
    var rs, e := RebuildDeltas(log), log[k];
    RebuildCausal(log);
    if Active(e) {
      if e.body.OfferMade? {
        var l := Listing(e.body.listing);
        assert Offer(e.body.offerId) in EventWrites(e);
        assert OfferAfterListing(log, k);
        var c :| 0 <= c < k && Writes(Deltas(log), l, c);
        RebuildWrites(log, l, c);
      } else if Terminal(e.body) {
        var o := Offer(e.body.offerId);
        assert Writes(rs, o, k) && rs[k].writes[o].create.None?;
        assert !FirstWrite(rs, o, k);
      }
    }
  }

  // --------------------------------------------------- positions and ledgers

  /** The number of events before ledger `x`. */
  function Pos(log: seq<Event>, x: int): (n: nat)
    ensures n <= |log|
  {
    if |log| == 0 then 0
    else Pos(log[..|log| - 1], x) + if log[|log| - 1].ledger < x then 1 else 0
  }

  /** In a sorted log those events are a prefix, so a ledger range is a stretch of positions. */
  lemma {:induction false} PosSplits(log: seq<Event>, x: int)
    requires forall i, j :: 0 <= i <= j < |log| ==> log[i].ledger <= log[j].ledger
    ensures forall i :: 0 <= i < |log| ==> (i < Pos(log, x) <==> log[i].ledger < x)
  {
    if |log| > 0 {
      var rest := log[..|log| - 1];
      assert forall i, j :: 0 <= i <= j < |rest| ==> rest[i].ledger <= rest[j].ledger;
      PosSplits(rest, x);
      if log[|log| - 1].ledger < x {
        assert forall i :: 0 <= i < |rest| ==> rest[i].ledger < x;
        PosAll(rest, x);
      }
      assert forall i :: 0 <= i < |rest| ==> log[i] == rest[i];
    }
  }

  lemma {:induction false} PosAll(log: seq<Event>, x: int)
    requires forall i :: 0 <= i < |log| ==> log[i].ledger < x
    ensures Pos(log, x) == |log|
  {
    if |log| > 0 { PosAll(log[..|log| - 1], x); }
  }

  lemma {:induction false} PosNone(log: seq<Event>, x: int)
    requires forall i :: 0 <= i < |log| ==> x <= log[i].ledger
    ensures Pos(log, x) == 0
  {
    if |log| > 0 { PosNone(log[..|log| - 1], x); }
  }

  lemma {:induction false} PosMono(log: seq<Event>, x: int, y: int)
    requires x <= y
    ensures Pos(log, x) <= Pos(log, y)
  {
    if |log| > 0 { PosMono(log[..|log| - 1], x, y); }
  }

  function CountRebuilt(log: seq<Event>, k: nat, m: nat): nat
    requires k <= m <= |log|
    decreases m - k
  {
    if k == m then 0 else CountRebuilt(log, k, m - 1) + if Rebuilt(log[m - 1].body) then 1 else 0
  }

  lemma {:induction false} CountSplit(log: seq<Event>, k: nat, j: nat, m: nat)
    requires k <= j <= m <= |log|
    ensures CountRebuilt(log, k, m) == CountRebuilt(log, k, j) + CountRebuilt(log, j, m)
    decreases m - j
  {
    if j < m { CountSplit(log, k, j, m - 1); }
  }

  // ------------------------------------------------------------ runRebuild

  /** The durable part of a rebuild job. */
  class RebuildJob {
    var checkpointLedger: int
    var processedEvents: int
    var affectedRows: int
    var complete: bool

    constructor ()
      ensures checkpointLedger == 0 && processedEvents == 0 && affectedRows == 0 && !complete
    {
      checkpointLedger, processedEvents, affectedRows, complete := 0, 0, 0, false;
    }

    method SaveCheckpoint(ledger: int, events: int, affected: int)
      modifies this`checkpointLedger, this`processedEvents, this`affectedRows
      ensures checkpointLedger == ledger
      ensures processedEvents == old(processedEvents) + events && affectedRows == old(affectedRows) + affected
    {
      checkpointLedger, processedEvents, affectedRows := ledger, processedEvents + events, affectedRows + affected;
    }
  }

  /** The ledger a run starts from: after the checkpoint, or at `ledgerFrom` when there is none. */
  function Start(checkpointLedger: int, ledgerFrom: int): int {
    if checkpointLedger > 0 then checkpointLedger + 1 else ledgerFrom
  }

  /** One batch: the queried events of `log[k..m]`, each applied inside the batch transaction. */
  method RunBatch(p: Projections, log: seq<Event>, k: nat, m: nat) returns (events: int, affected: int)
    requires ValidLog(log) && k <= m <= |log| && KeysKept(p.rows, RebuildDeltas(log), k)
    modifies p
    ensures p.rows == TableRun(old(p.rows), RebuildDeltas(log), k, m)
    ensures KeysKept(p.rows, RebuildDeltas(log), m)
    ensures events == CountRebuilt(log, k, m) && affected == events
  {
    events, affected := 0, 0;
    for i := k to m
      invariant Replayed(old(p.rows), p.rows, log, k, i, events) && affected == events
    {
      ghost var t := p.rows;
      var found, ok := ReplayNext(p, log, i);
      ReplayedNext(old(p.rows), t, p.rows, log, k, i, events);
      events, affected := if found then events + 1 else events, if ok then affected + 1 else affected;
    }
  }

  /** The events of `log[k..i]` have been applied and those the query finds have been counted. */
  ghost predicate Replayed(t0: Table, t: Table, log: seq<Event>, k: nat, i: nat, events: int)
    requires k <= i <= |log|
  {
    t == TableRun(t0, RebuildDeltas(log), k, i) && KeysKept(t, RebuildDeltas(log), i) && events == CountRebuilt(log, k, i)
  }

  lemma {:induction false} ReplayedNext(t0: Table, t: Table, t': Table, log: seq<Event>, k: nat, i: nat, events: int)
    requires k <= i < |log| && Replayed(t0, t, log, k, i, events)
    requires t' == TableStep(t, RebuildDeltas(log)[i]) && KeysKept(t', RebuildDeltas(log), i + 1)
    ensures Replayed(t0, t', log, k, i + 1, if Rebuilt(log[i].body) then events + 1 else events)
  {
  }

  /** The event at position `i`, if the query finds it. */
  method ReplayNext(p: Projections, log: seq<Event>, i: nat) returns (found: bool, ok: bool)
    requires ValidLog(log) && i < |log| && KeysKept(p.rows, RebuildDeltas(log), i)
    modifies p
    ensures found == ok == Rebuilt(log[i].body)
    ensures p.rows == TableStep(old(p.rows), RebuildDeltas(log)[i]) && KeysKept(p.rows, RebuildDeltas(log), i + 1)
  {
    found, ok := Rebuilt(log[i].body), false;
    if found {
      ok := ReplayStored(p, log, i);
    } else {
      NotQueried(p.rows, log, i);
    }
  }

  /** `processEvent` on one stored event. */
  method ReplayStored(p: Projections, log: seq<Event>, i: nat) returns (ok: bool)
    requires ValidLog(log) && i < |log| && Rebuilt(log[i].body) && KeysKept(p.rows, RebuildDeltas(log), i)
    modifies p
    ensures ok && p.rows == TableStep(old(p.rows), RebuildDeltas(log)[i])
    ensures KeysKept(p.rows, RebuildDeltas(log), i + 1)
  {
    RebuildStep(p.rows, log, i);
    ok := p.ProcessEvent(Stored(log[i]));
  }

  /** What a run has done so far: the rows are those of the pass, and the job has counted its events. */
  ghost predicate Tracks(t0: Table, t: Table, log: seq<Event>, pass: Pass, resume: nat, counted: int) {
    && pass.from <= resume <= pass.to <= |log|
    && t == TableRun(t0, RebuildDeltas(log), pass.from, pass.to)
    && KeysKept(t, RebuildDeltas(log), pass.to)
    && counted == CountRebuilt(log, pass.from, resume)
  }

  lemma {:induction false} TracksNext(t0: Table, t: Table, log: seq<Event>, from: nat, k: nat, resume: nat,
                                      counted: int, t': Table, to: nat)
    requires Tracks(t0, t, log, Pass(from, k), resume, counted) && CountRebuilt(log, resume, k) == 0
    requires k <= to <= |log| && t' == TableRun(t, RebuildDeltas(log), k, to) && KeysKept(t', RebuildDeltas(log), to)
    ensures Tracks(t0, t', log, Pass(from, to), resume, counted)
    ensures Tracks(t0, t', log, Pass(from, to), to, counted + CountRebuilt(log, k, to))
    ensures CountRebuilt(log, resume, to) == CountRebuilt(log, k, to)
  {
    TableRunSplit(t0, RebuildDeltas(log), from, k, to);
    CountSplit(log, resume, k, to);
    CountSplit(log, from, resume, to);
  }

  /** The position a run resumes from. */
  function Resume(log: seq<Event>, checkpointLedger: int, ledgerFrom: int): nat {
    Pos(log, Start(checkpointLedger, ledgerFrom))
  }

  /** At the top of the loop: everything queried between the resume position and the cursor is applied and counted. */
  ghost predicate AtCursor(t0: Table, t: Table, log: seq<Event>, from: nat, cursor: int, resume: nat, counted: int) {
    Tracks(t0, t, log, Pass(from, Pos(log, cursor)), resume, counted) && CountRebuilt(log, resume, Pos(log, cursor)) == 0
  }

  /**
    One turn of the batch loop.  `budget` is the number of durable actions (batch transactions
    and checkpoint updates) left before the run is interrupted; a batch without queried events
    performs none.
  */
  method RunTurn(job: RebuildJob, p: Projections, log: seq<Event>, ledgerFrom: int, cursor: int, batchEnd: int,
                 budget: nat, ghost t0: Table, ghost from: nat, ghost base: int)
    returns (stopped: bool, budget': nat, ghost to: nat)
    requires ValidLog(log) && 0 <= cursor <= batchEnd && !job.complete
    requires AtCursor(t0, p.rows, log, from, cursor, Resume(log, job.checkpointLedger, ledgerFrom), job.processedEvents - base)
    modifies job, p
    ensures Tracks(t0, p.rows, log, Pass(from, to), Resume(log, job.checkpointLedger, ledgerFrom), job.processedEvents - base)
    ensures !job.complete && job.affectedRows - old(job.affectedRows) == job.processedEvents - old(job.processedEvents)
    ensures stopped ==> budget <= 1
    ensures !stopped ==> budget - 2 <= budget'
    ensures !stopped ==>
              AtCursor(t0, p.rows, log, from, batchEnd + 1, Resume(log, job.checkpointLedger, ledgerFrom),
                       job.processedEvents - base)
  {
    PosMono(log, cursor, batchEnd + 1);
    stopped, budget', to := false, budget, Pos(log, batchEnd + 1);
    if CountRebuilt(log, Pos(log, cursor), Pos(log, batchEnd + 1)) == 0 {
      QuietTurn(t0, p.rows, log, from, cursor, batchEnd, Resume(log, job.checkpointLedger, ledgerFrom), job.processedEvents - base);
    } else if budget == 0 {
      stopped, to := true, Pos(log, cursor);
    } else {
      stopped := CommitBatch(job, p, log, ledgerFrom, cursor, batchEnd, budget == 1, t0, from, base);
      budget' := if stopped then 0 else budget - 2;
    }
  }

  /** A turn without queried events. */
  lemma {:induction false} QuietTurn(t0: Table, t: Table, log: seq<Event>, from: nat, cursor: int, batchEnd: int,
                                     resume: nat, counted: int)
    requires ValidLog(log) && AtCursor(t0, t, log, from, cursor, resume, counted) && Pos(log, cursor) <= Pos(log, batchEnd + 1)
    requires CountRebuilt(log, Pos(log, cursor), Pos(log, batchEnd + 1)) == 0
    ensures AtCursor(t0, t, log, from, batchEnd + 1, resume, counted)
  {
    NothingRebuilt(t, log, Pos(log, cursor), Pos(log, batchEnd + 1));
    TracksNext(t0, t, log, from, Pos(log, cursor), resume, counted, t, Pos(log, batchEnd + 1));
  }

  /** The batch transaction, and the checkpoint after it unless the run is interrupted in between. */
  method CommitBatch(job: RebuildJob, p: Projections, log: seq<Event>, ledgerFrom: int, cursor: int, batchEnd: int,
                     interrupted: bool, ghost t0: Table, ghost from: nat, ghost base: int)
    returns (stopped: bool)
    requires ValidLog(log) && 0 <= cursor <= batchEnd && !job.complete && Pos(log, cursor) <= Pos(log, batchEnd + 1)
    requires CountRebuilt(log, Pos(log, cursor), Pos(log, batchEnd + 1)) > 0
    requires AtCursor(t0, p.rows, log, from, cursor, Resume(log, job.checkpointLedger, ledgerFrom), job.processedEvents - base)
    modifies job, p
    ensures stopped == interrupted && !job.complete
    ensures job.affectedRows - old(job.affectedRows) == job.processedEvents - old(job.processedEvents)
    ensures Tracks(t0, p.rows, log, Pass(from, Pos(log, batchEnd + 1)), Resume(log, job.checkpointLedger, ledgerFrom),
                   job.processedEvents - base)
    ensures !stopped ==>
              AtCursor(t0, p.rows, log, from, batchEnd + 1, Resume(log, job.checkpointLedger, ledgerFrom),
                       job.processedEvents - base)
  {
    var k, m := Pos(log, cursor), Pos(log, batchEnd + 1);
    ghost var t, resume := p.rows, Resume(log, job.checkpointLedger, ledgerFrom);
    var events, affected := RunBatch(p, log, k, m);
    TracksNext(t0, t, log, from, k, resume, job.processedEvents - base, p.rows, m);
    stopped := interrupted;
    if !stopped {
      NoEventsBefore(log, batchEnd, m, k);
      job.SaveCheckpoint(batchEnd, events, affected);
    }
  }

  /** A batch with events ends after ledger 0, so its end is a proper checkpoint. */
  lemma {:induction false} NoEventsBefore(log: seq<Event>, batchEnd: int, m: nat, k: nat)
    requires ValidLog(log) && 0 <= batchEnd && m == Pos(log, batchEnd + 1) && k <= m && CountRebuilt(log, k, m) > 0
    ensures batchEnd > 0
  {
    PosNone(log, 1);
  }

  /** The number of batches from a ledger on. */
  function Turns(start: int, ledgerTo: int, batchSize: int): nat
    requires batchSize >= 1
    decreases ledgerTo - start
  {
    if start > ledgerTo then 0 else 1 + Turns(start + batchSize, ledgerTo, batchSize)
  }

  lemma {:induction false} TurnsNext(start: int, ledgerTo: int, batchSize: int, batchEnd: int)
    requires batchSize >= 1 && start <= ledgerTo
    requires batchEnd == if start + batchSize - 1 < ledgerTo then start + batchSize - 1 else ledgerTo
    ensures Turns(start, ledgerTo, batchSize) == 1 + Turns(batchEnd + 1, ledgerTo, batchSize)
  {
  }

  /** The turn for the batch that starts at the cursor. */
  method NextTurn(job: RebuildJob, p: Projections, log: seq<Event>, ledgerFrom: int, ledgerTo: int, batchSize: int,
                  cursor: int, budget: nat, ghost t0: Table, ghost from: nat, ghost base: int)
    returns (stopped: bool, cursor': int, budget': nat, ghost to: nat)
    requires ValidLog(log) && batchSize >= 1 && 0 <= cursor <= ledgerTo && !job.complete
    requires AtCursor(t0, p.rows, log, from, cursor, Resume(log, job.checkpointLedger, ledgerFrom), job.processedEvents - base)
    modifies job, p
    ensures Tracks(t0, p.rows, log, Pass(from, to), Resume(log, job.checkpointLedger, ledgerFrom), job.processedEvents - base)
    ensures !job.complete && job.affectedRows - old(job.affectedRows) == job.processedEvents - old(job.processedEvents)
    ensures stopped ==> budget <= 1
    ensures !stopped ==>
              && cursor < cursor' <= ledgerTo + 1 && budget - 2 <= budget'
              && Turns(cursor, ledgerTo, batchSize) == 1 + Turns(cursor', ledgerTo, batchSize)
              && AtCursor(t0, p.rows, log, from, cursor', Resume(log, job.checkpointLedger, ledgerFrom),
                          job.processedEvents - base)
  {
    var batchEnd := if cursor + batchSize - 1 < ledgerTo then cursor + batchSize - 1 else ledgerTo;
    TurnsNext(cursor, ledgerTo, batchSize, batchEnd);
    stopped, budget', to := RunTurn(job, p, log, ledgerFrom, cursor, batchEnd, budget, t0, from, base);
    cursor' := batchEnd + 1;
  }

  lemma {:induction false} TurnsBound(start: int, ledgerTo: int, batchSize: int)
    requires batchSize >= 1 && start <= ledgerTo + 1
    ensures Turns(start, ledgerTo, batchSize) <= ledgerTo - start + 1
    decreases ledgerTo - start
  {
    if start + batchSize <= ledgerTo + 1 { TurnsBound(start + batchSize, ledgerTo, batchSize); }
  }

  /**
    One run of a rebuild over the whole ledger range, interrupted after `stop` durable actions.
    The rows it leaves are those of one pass over a stretch of the log, the checkpoint never
    lies beyond that stretch, and the job has counted each queried event up to it once.  Two
    actions for each batch are enough to complete.
  */
  method RunRebuild(job: RebuildJob, p: Projections, log: seq<Event>, ledgerFrom: int, ledgerTo: int,
                    batchSize: int, stop: nat)
    returns (ghost pass: Pass)
    requires ValidLog(log) && batchSize >= 1 && 0 <= ledgerFrom
    requires forall i :: 0 <= i < |log| ==> ledgerFrom <= log[i].ledger <= ledgerTo
    requires KeysKept(p.rows, RebuildDeltas(log), Resume(log, job.checkpointLedger, ledgerFrom))
    requires !job.complete
    modifies job, p
    ensures pass.from == old(Resume(log, job.checkpointLedger, ledgerFrom))
    ensures Tracks(old(p.rows), p.rows, log, pass, Resume(log, job.checkpointLedger, ledgerFrom),
                   job.processedEvents - old(job.processedEvents))
    ensures job.affectedRows - old(job.affectedRows) == job.processedEvents - old(job.processedEvents)
    ensures job.complete ==> pass.to == |log| && CountRebuilt(log, Resume(log, job.checkpointLedger, ledgerFrom), |log|) == 0
    ensures stop >= 2 * Turns(old(Start(job.checkpointLedger, ledgerFrom)), ledgerTo, batchSize) ==> job.complete
  {
    var start := Start(job.checkpointLedger, ledgerFrom);
    ghost var t0, base, from := p.rows, job.processedEvents, Pos(log, start);
    var cursor, budget := start, stop;
    AtStart(t0, log, start);
    while cursor <= ledgerTo
      invariant 0 <= start <= cursor
      invariant stop - budget <= 2 * (Turns(start, ledgerTo, batchSize) - Turns(cursor, ledgerTo, batchSize))
      invariant AtCursor(t0, p.rows, log, from, cursor, Resume(log, job.checkpointLedger, ledgerFrom), job.processedEvents - base)
      invariant !job.complete && job.affectedRows - old(job.affectedRows) == job.processedEvents - base
      decreases ledgerTo - cursor
    {
      var stopped;
      ghost var to;
      stopped, cursor, budget, to := NextTurn(job, p, log, ledgerFrom, ledgerTo, batchSize, cursor, budget, t0, from, base);
      if stopped { return Pass(from, to); }
    }
    PosAll(log, cursor);
    pass := Pass(from, |log|);
    job.complete := true;
  }

  lemma {:induction false} AtStart(t: Table, log: seq<Event>, start: int)
    requires KeysKept(t, RebuildDeltas(log), Pos(log, start))
    ensures AtCursor(t, t, log, Pos(log, start), start, Pos(log, start), 0)
  {
  }

  /** A batch without queried events opens no transaction; nothing is lost by that. */
  lemma {:induction false} NothingRebuilt(t: Table, log: seq<Event>, k: nat, m: nat)
    requires k <= m <= |log| && KeysKept(t, RebuildDeltas(log), k) && CountRebuilt(log, k, m) == 0
    ensures TableRun(t, RebuildDeltas(log), k, m) == t
    ensures KeysKept(t, RebuildDeltas(log), m)
    decreases m - k
  {
    if k < m {
      NothingRebuilt(t, log, k, m - 1);
      NothingNext(t, TableRun(t, RebuildDeltas(log), k, m), log, m - 1);
    }
  }

  lemma {:induction false} NothingNext(t: Table, t': Table, log: seq<Event>, i: nat)
    requires i < |log| && !Rebuilt(log[i].body) && KeysKept(t, RebuildDeltas(log), i)
    requires t' == TableStep(t, RebuildDeltas(log)[i])
    ensures t' == t && KeysKept(t, RebuildDeltas(log), i + 1)
  {
    NotQueried(t, log, i);
  }

  /** An event the rebuild does not query writes nothing. */
  lemma {:induction false} NotQueried(t: Table, log: seq<Event>, i: nat)
    requires i < |log| && !Rebuilt(log[i].body) && KeysKept(t, RebuildDeltas(log), i)
    ensures TableStep(t, RebuildDeltas(log)[i]) == t && KeysKept(t, RebuildDeltas(log), i + 1)
  {
    NoWrites(t, log[i].ledger);
  }
}
