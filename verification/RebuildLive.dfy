/**
  What a complete rebuild makes of the live tables: the theorem for every interrupted and
  resumed rebuild, and the exact condition for the two kinds of columns it can change.
*/
module RebuildLive {
  import opened Wrappers
  import opened Rows
  import opened Replay
  import opened Marketplace
  import opened Rebuild

  /** Columns a rebuild cannot know: the stored events carry no transaction hash. */
  const TX_COLUMNS := {EscrowTxHash, RefundTxHash}

  function LiveTables(log: seq<Event>): Table { Fold(Deltas(log)) }

  // ------------------------------------------------ logs that agree on a row

  ghost predicate AgreeOn(ds: seq<Delta>, es: seq<Delta>, key: Key) {
    && |ds| == |es|
    && forall i :: 0 <= i < |ds| ==>
         && ds[i].ledger == es[i].ledger
         && (Writes(ds, key, i) <==> Writes(es, key, i))
         && (Writes(ds, key, i) ==> ds[i].writes[key] == es[i].writes[key])
  }

  lemma {:induction false} AgreeRun(r: Option<Row>, ds: seq<Delta>, es: seq<Delta>, key: Key, k: nat, m: nat)
    requires AgreeOn(ds, es, key) && k <= m <= |ds|
    ensures RowRun(r, ds, key, k, m) == RowRun(r, es, key, k, m)
    decreases m - k
  {
    if k < m {
      AgreeRun(r, ds, es, key, k, m - 1);
      assert Writes(ds, key, m - 1) <==> Writes(es, key, m - 1);
    }
  }

  /** Only offers are written with transaction hashes. */
  lemma {:induction false} StoredWrite(e: Event, key: Key)
    requires key in EventWrites(e)
    ensures key in EventWrites(Stored(e))
    ensures !key.Offer? ==> EventWrites(e)[key] == EventWrites(Stored(e))[key]
    ensures MaskWrite(EventWrites(e)[key], TX_COLUMNS) == MaskWrite(EventWrites(Stored(e))[key], TX_COLUMNS)
  {
    if e.body.OfferMade? {
      MadeMasked(e.body, e.txHash, e.ledger);
    } else if key.Offer? {
      ClosedMasked(e.body, e.txHash);
    }
  }

  lemma {:induction false} MadeMasked(b: Body, txHash: string, ledger: int)
    requires b.OfferMade?
    ensures OfferUpdate(b, txHash) - TX_COLUMNS == OfferUpdate(b, "") - TX_COLUMNS
    ensures OfferCreate(b, txHash, ledger) - TX_COLUMNS == OfferCreate(b, "", ledger) - TX_COLUMNS
  {
  }

  lemma {:induction false} ClosedMasked(b: Body, txHash: string)
    ensures forall status :: Closed(status, txHash) - TX_COLUMNS == Closed(status, "") - TX_COLUMNS
  {
    forall status ensures Closed(status, txHash) - TX_COLUMNS == Closed(status, "") - TX_COLUMNS {
      assert Closed(status, txHash) - TX_COLUMNS == map[Status := Text(status)];
      assert Closed(status, "") - TX_COLUMNS == map[Status := Text(status)];
    }
  }

  lemma {:induction false} ListingsAgree(log: seq<Event>, id: nat)
    ensures AgreeOn(Deltas(log), RebuildDeltas(log), Listing(id))
  {
    var ds, rs, key := Deltas(log), RebuildDeltas(log), Listing(id);
    forall i | 0 <= i < |log|
      ensures Writes(ds, key, i) <==> Writes(rs, key, i)
      ensures Writes(ds, key, i) ==> ds[i].writes[key] == rs[i].writes[key]
    {
      RebuildWrites(log, key, i);
      if Writes(ds, key, i) { StoredWrite(log[i], key); }
    }
  }

  lemma {:induction false} MaskedAgree(log: seq<Event>, key: Key)
    requires !key.Auction?
    ensures AgreeOn(Mask(Deltas(log), TX_COLUMNS), Mask(RebuildDeltas(log), TX_COLUMNS), key)
  {
    var ds, rs := Mask(Deltas(log), TX_COLUMNS), Mask(RebuildDeltas(log), TX_COLUMNS);
    forall i | 0 <= i < |log|
      ensures Writes(ds, key, i) <==> Writes(rs, key, i)
      ensures Writes(ds, key, i) ==> ds[i].writes[key] == rs[i].writes[key]
    {
      RebuildWrites(log, key, i);
      if Writes(Deltas(log), key, i) { StoredWrite(log[i], key); }
    }
  }

  // ---------------------------------------------------------------- auctions

  /** Two logs of one auction, the second without the reserve price changes of the first. */
  ghost predicate OnlyReserveDropped(ds: seq<Delta>, rs: seq<Delta>, key: Key) {
    && |ds| == |rs|
    && (forall i :: 0 <= i < |ds| ==> ds[i].ledger == rs[i].ledger)
    && (forall i :: Writes(rs, key, i) ==> Writes(ds, key, i) && ds[i].writes[key] == rs[i].writes[key])
    && (forall i :: Writes(ds, key, i) && !Writes(rs, key, i) ==>
          ds[i].writes[key].create.None? && forall f :: f in ds[i].writes[key].update ==> f == ReservePrice)
    && (forall i :: Writes(ds, key, i) && ds[i].writes[key].create.Some? ==>
          !ds[i].writes[key].guarded && ReservePrice in ds[i].writes[key].update)
  }

  lemma {:induction false} AuctionWrite(e: Event, id: nat)
    requires Auction(id) in EventWrites(e)
    ensures var w := EventWrites(e)[Auction(id)];
            && (!Rebuilt(e.body) ==> w.create.None? && w.update.Keys == {ReservePrice})
            && (w.create.Some? ==> !w.guarded && ReservePrice in w.update)
  {
  }

  lemma {:induction false} AuctionLogs(log: seq<Event>, id: nat)
    ensures OnlyReserveDropped(Deltas(log), RebuildDeltas(log), Auction(id))
  {
    var ds, rs, key := Deltas(log), RebuildDeltas(log), Auction(id);
    forall i | Writes(ds, key, i)
      ensures Writes(rs, key, i) ==> ds[i].writes[key] == rs[i].writes[key]
      ensures !Writes(rs, key, i) ==> ds[i].writes[key].create.None? && ds[i].writes[key].update.Keys == {ReservePrice}
      ensures ds[i].writes[key].create.Some? ==> !ds[i].writes[key].guarded && ReservePrice in ds[i].writes[key].update
    {
      AuctionWrite(log[i], id);
      StoredWrite(log[i], key);
    }
    forall i | Writes(rs, key, i) ensures Writes(ds, key, i) { RebuildWrites(log, key, i); }
  }

  lemma {:induction false} MaskDropped(ds: seq<Delta>, rs: seq<Delta>, key: Key)
    requires OnlyReserveDropped(ds, rs, key)
    ensures OnlyReserveDropped(Mask(ds, TX_COLUMNS), Mask(rs, TX_COLUMNS), key)
  {
    var ms, ns := Mask(ds, TX_COLUMNS), Mask(rs, TX_COLUMNS);
    forall i ensures Writes(ms, key, i) <==> Writes(ds, key, i) { }
    forall i ensures Writes(ns, key, i) <==> Writes(rs, key, i) { }
  }

  /** The same row, except perhaps for reserve price and stamp. */
  ghost predicate SameBut(a: Option<Row>, b: Option<Row>) {
    && (a.Some? <==> b.Some?)
    && (a.Some? ==> forall f :: f != ReservePrice ==> At(a.value, f) == At(b.value, f))
  }

  lemma {:induction false} SameButBoth(a: Option<Row>, b: Option<Row>, w: Write, ledger: int)
    requires SameBut(a, b) && (a.Some? ==> a.value.updatedAt <= ledger && b.value.updatedAt <= ledger)
    ensures SameBut(ApplyWrite(a, w, ledger), ApplyWrite(b, w, ledger))
  {
    if a.Some? {
      var c, d := ApplyWrite(a, w, ledger).value, ApplyWrite(b, w, ledger).value;
      forall f | f != ReservePrice ensures At(c, f) == At(d, f) {
        assert At(a.value, f) == At(b.value, f);
      }
    }
  }

  lemma {:induction false} SameButFirst(a: Option<Row>, b: Option<Row>, w: Write, ledger: int)
    requires SameBut(a, b) && w.create.None? && forall f :: f in w.update ==> f == ReservePrice
    ensures SameBut(ApplyWrite(a, w, ledger), b)
  {
  }

  /** Up to any point the two logs build the same auction row, except for reserve price and stamp. */
  lemma {:induction false} SameButReserve(ds: seq<Delta>, rs: seq<Delta>, key: Key, m: nat)
    requires Sorted(ds) && Causal(ds) && Sorted(rs) && Causal(rs) && OnlyReserveDropped(ds, rs, key) && m <= |ds|
    ensures SameBut(RowRun(None, ds, key, 0, m), RowRun(None, rs, key, 0, m))
  {
    if m > 0 {
      var p := m - 1;
      var a, b := RowRun(None, ds, key, 0, p), RowRun(None, rs, key, 0, p);
      SameButReserve(ds, rs, key, p);
      FirstRun(ds, key, p);
      FirstRun(rs, key, p);
      assert p > 0 ==> ds[p - 1].ledger <= ds[p].ledger && rs[p - 1].ledger <= rs[p].ledger;
      if Writes(rs, key, p) {
        SameButBoth(a, b, ds[p].writes[key], ds[p].ledger);
      } else if Writes(ds, key, p) {
        SameButFirst(a, b, ds[p].writes[key], ds[p].ledger);
      }
    }
  }

  /** Replaying the auction's stored events over its live row ends in the row those events build. */
  lemma {:induction false} AuctionMends(ds: seq<Delta>, rs: seq<Delta>, key: Key)
    requires Sorted(ds) && Causal(ds) && Sorted(rs) && Causal(rs) && OnlyReserveDropped(ds, rs, key)
    ensures RowMends(RowRun(None, ds, key, 0, |ds|), rs, key, 0)
  {
    SameButReserve(ds, rs, key, |ds|);
    var a, b := RowRun(None, ds, key, 0, |ds|), RowRun(None, rs, key, 0, |rs|);
    if a.Some? {
      var c := FirstWriteOf(rs, key);
      assert WillFire(a.value, rs, key, 0, c);
      assert Assigns(rs, key, c, ReservePrice);
      assert Reassigns(a.value, rs, key, 0, ReservePrice);
    }
  }

  lemma {:induction false} FirstWriteOf(rs: seq<Delta>, key: Key) returns (c: nat)
    requires Sorted(rs) && Causal(rs) && RowRun(None, rs, key, 0, |rs|).Some?
    ensures FirstWrite(rs, key, c) && rs[c].writes[key].create.Some?
  {
    FirstRun(rs, key, |rs|);
    var p :| 0 <= p < |rs| && Writes(rs, key, p);
    FirstOf(rs, key, p);
    c :| FirstWrite(rs, key, c);
  }

  // ------------------------------------------------- the rebuild theorem

  lemma {:induction false} LiveMends(log: seq<Event>)
    requires ValidLog(log)
    ensures var rs := Mask(RebuildDeltas(log), TX_COLUMNS);
            Sorted(rs) && Causal(rs) && TableMends(MaskTable(LiveTables(log), TX_COLUMNS), rs, 0)
  {
    var ds, rs := Mask(Deltas(log), TX_COLUMNS), Mask(RebuildDeltas(log), TX_COLUMNS);
    LiveCausal(log);
    RebuildCausal(log);
    MaskKeepsOrder(Deltas(log), TX_COLUMNS);
    MaskKeepsOrder(RebuildDeltas(log), TX_COLUMNS);
    MaskRun(map[], Deltas(log), 0, |log|, TX_COLUMNS);
    var t := MaskTable(LiveTables(log), TX_COLUMNS);
    forall key ensures RowMends(Get(t, key), rs, key, 0) {
      TableRunRow(MaskTable(map[], TX_COLUMNS), ds, 0, |log|, key);
      if key.Auction? {
        AuctionLogs(log, key.id);
        MaskDropped(Deltas(log), RebuildDeltas(log), key);
        AuctionMends(ds, rs, key);
      } else {
        MaskedAgree(log, key);
        AgreeRun(None, ds, rs, key, 0, |log|);
        RowAtEndMends(rs, key);
      }
    }
  }

  lemma {:induction false} RowAtEndMends(rs: seq<Delta>, key: Key)
    requires Sorted(rs) && Causal(rs)
    ensures RowMends(RowRun(None, rs, key, 0, |rs|), rs, key, 0)
  {
    PrefixMends(rs, key, |rs|);
    var r := RowRun(None, rs, key, 0, |rs|);
    if r.Some? { MendsEarlier(r.value, rs, key, 0, |rs|, r.value); }
  }

  lemma {:induction false} MaskPasses(t: Table, ds: seq<Delta>, passes: seq<Pass>, hidden: set<Field>)
    requires forall i :: 0 <= i < |passes| ==> passes[i].from <= passes[i].to <= |ds|
    ensures MaskTable(RunPasses(t, ds, passes), hidden) == RunPasses(MaskTable(t, hidden), Mask(ds, hidden), passes)
    decreases |passes|
  {
    if |passes| > 0 {
      MaskRun(t, ds, passes[0].from, passes[0].to, hidden);
      MaskPasses(TableRun(t, ds, passes[0].from, passes[0].to), ds, passes[1..], hidden);
    }
  }

  /**
    Any complete rebuild of the live tables, however often it is interrupted and resumed and
    whatever its batches, ends in the tables that the rebuilt events build on their own.
  */
  lemma {:induction false} RebuildEnds(log: seq<Event>, passes: seq<Pass>)
    requires ValidLog(log)
    requires forall i :: 0 <= i < |passes| ==> passes[i].from <= passes[i].to <= |log|
    requires Resumable(passes, 0, |log|)
    ensures MaskTable(RunPasses(LiveTables(log), RebuildDeltas(log), passes), TX_COLUMNS)
         == MaskTable(Fold(RebuildDeltas(log)), TX_COLUMNS)
  {
    var rs := Mask(RebuildDeltas(log), TX_COLUMNS);
    LiveMends(log);
    MaskPasses(LiveTables(log), RebuildDeltas(log), passes, TX_COLUMNS);
    ResumedReplay(MaskTable(LiveTables(log), TX_COLUMNS), rs, passes, 0);
    MaskRun(map[], RebuildDeltas(log), 0, |log|, TX_COLUMNS);
  }

  // ------------------------------------------------- exactly when auctions survive

  /**
    The reserve price and the stamp an auction gets from all its events are those it gets from
    the events a rebuild queries: the last reserve price is the one of its last creation, and
    its last event is not a later reserve price change.
  */
  ghost predicate ReserveKept(log: seq<Event>, id: nat) {
    var ds, rs, key := Deltas(log), RebuildDeltas(log), Auction(id);
    && (forall q, r :: LastAssigns(ds, key, q, ReservePrice) && LastAssigns(rs, key, r, ReservePrice) ==>
          ds[q].writes[key].update[ReservePrice] == rs[r].writes[key].update[ReservePrice])
    && (forall q, r :: LastWrites(ds, key, q) && LastWrites(rs, key, r) ==> ds[q].ledger == rs[r].ledger)
  }

  lemma {:induction false} AuctionExact(log: seq<Event>, id: nat)
    requires ValidLog(log)
    ensures RowRun(None, RebuildDeltas(log), Auction(id), 0, |log|) == RowRun(None, Deltas(log), Auction(id), 0, |log|)
       <==> ReserveKept(log, id)
    ensures SameBut(RowRun(None, Deltas(log), Auction(id), 0, |log|), RowRun(None, RebuildDeltas(log), Auction(id), 0, |log|))
  {
    var ds, rs, key := Deltas(log), RebuildDeltas(log), Auction(id);
    LiveCausal(log);
    RebuildCausal(log);
    AuctionLogs(log, id);
    SameButReserve(ds, rs, key, |log|);
    FirstRun(ds, key, |log|);
    var a, b := RowRun(None, ds, key, 0, |log|), RowRun(None, rs, key, 0, |log|);
    if a.Some? {
      FirstRunSettles(ds, key, a.value);
      FirstRunSettles(rs, key, b.value);
      var c := FirstWriteOf(rs, key);
      SettledRows(ds, rs, key, c, a.value, b.value);
    }
  }

  /** Two last-writer-wins rows of one auction are equal when their reserve prices and stamps are. */
  lemma {:induction false} SettledRows(ds: seq<Delta>, rs: seq<Delta>, key: Key, c: nat, a: Row, b: Row)
    requires Settles(ds, key, a) && Settles(rs, key, b) && SameBut(Some(a), Some(b))
    requires Assigns(ds, key, c, ReservePrice) && Assigns(rs, key, c, ReservePrice)
    ensures a == b <==>
      && (forall q, r :: LastAssigns(ds, key, q, ReservePrice) && LastAssigns(rs, key, r, ReservePrice) ==>
            ds[q].writes[key].update[ReservePrice] == rs[r].writes[key].update[ReservePrice])
      && (forall q, r :: LastWrites(ds, key, q) && LastWrites(rs, key, r) ==> ds[q].ledger == rs[r].ledger)
  {
    var q := LastAssignment(ds, key, c, ReservePrice);
    var r := LastAssignment(rs, key, c, ReservePrice);
    var q' := LastWrite(ds, key, c);
    var r' := LastWrite(rs, key, c);
    assert At(a, ReservePrice) == Some(ds[q].writes[key].update[ReservePrice]);
    assert At(b, ReservePrice) == Some(rs[r].writes[key].update[ReservePrice]);
    if At(a, ReservePrice) == At(b, ReservePrice) { SameColumns(a, b); }
  }

  /**
    A complete rebuild gives back the live tables (transaction hashes aside) if and only if
    every auction's reserve price and stamp come from events the rebuild queries.
  */
  lemma {:induction false} RebuildKeepsLive(log: seq<Event>, passes: seq<Pass>)
    requires ValidLog(log)
    requires forall i :: 0 <= i < |passes| ==> passes[i].from <= passes[i].to <= |log|
    requires Resumable(passes, 0, |log|)
    ensures MaskTable(RunPasses(LiveTables(log), RebuildDeltas(log), passes), TX_COLUMNS)
         == MaskTable(LiveTables(log), TX_COLUMNS)
       <==> forall id :: ReserveKept(log, id)
  {
    RebuildEnds(log, passes);
    var live, built := MaskTable(LiveTables(log), TX_COLUMNS), MaskTable(Fold(RebuildDeltas(log)), TX_COLUMNS);
    forall key: Key ensures !key.Auction? ==> Get(live, key) == Get(built, key) {
      if !key.Auction? { OtherRowsKept(log, key); }
    }
    forall id ensures Get(live, Auction(id)) == Get(built, Auction(id)) <==> ReserveKept(log, id) {
      AuctionRowKept(log, id);
    }
    if forall id :: ReserveKept(log, id) {
      forall key: Key ensures Get(live, key) == Get(built, key) {
        if key.Auction? { assert ReserveKept(log, key.id); }
      }
      SameRows(live, built);
    }
  }

  lemma {:induction false} OtherRowsKept(log: seq<Event>, key: Key)
    requires !key.Auction?
    ensures Get(MaskTable(LiveTables(log), TX_COLUMNS), key) == Get(MaskTable(Fold(RebuildDeltas(log)), TX_COLUMNS), key)
  {
    MaskedAgree(log, key);
    AgreeRun(None, Mask(Deltas(log), TX_COLUMNS), Mask(RebuildDeltas(log), TX_COLUMNS), key, 0, |log|);
    MaskRowRun(None, Deltas(log), key, 0, |log|, TX_COLUMNS);
    MaskRowRun(None, RebuildDeltas(log), key, 0, |log|, TX_COLUMNS);
    TableRunRow(map[], Deltas(log), 0, |log|, key);
    TableRunRow(map[], RebuildDeltas(log), 0, |log|, key);
  }

  lemma {:induction false} AuctionRowKept(log: seq<Event>, id: nat)
    requires ValidLog(log)
    ensures Get(MaskTable(LiveTables(log), TX_COLUMNS), Auction(id))
         == Get(MaskTable(Fold(RebuildDeltas(log)), TX_COLUMNS), Auction(id))
       <==> ReserveKept(log, id)
  {
    var key := Auction(id);
    AuctionExact(log, id);
    TableRunRow(map[], Deltas(log), 0, |log|, key);
    TableRunRow(map[], RebuildDeltas(log), 0, |log|, key);
    var a, b := Get(LiveTables(log), key), Get(Fold(RebuildDeltas(log)), key);
    MaskLosesNothing(a, b);
    MaskGet(LiveTables(log), key);
    MaskGet(Fold(RebuildDeltas(log)), key);
  }

  lemma {:induction false} MaskGet(t: Table, key: Key)
    ensures Get(MaskTable(t, TX_COLUMNS), key) == MaskOption(Get(t, key), TX_COLUMNS)
  {
  }

  lemma {:induction false} MaskLosesNothing(a: Option<Row>, b: Option<Row>)
    requires SameBut(a, b)
    ensures MaskOption(a, TX_COLUMNS) == MaskOption(b, TX_COLUMNS) <==> a == b
  {
    if a.Some? && MaskOption(a, TX_COLUMNS) == MaskOption(b, TX_COLUMNS) {
      assert At(a.value, ReservePrice) == At(MaskRow(a.value, TX_COLUMNS), ReservePrice);
      assert At(b.value, ReservePrice) == At(MaskRow(b.value, TX_COLUMNS), ReservePrice);
      SameColumns(a.value, b.value);
    }
  }

  // ------------------------------------------------------- one row under passes

  /** The passes of a complete rebuild of a log of `n` events. */
  ghost predicate Whole(passes: seq<Pass>, n: nat) {
    (forall i :: 0 <= i < |passes| ==> passes[i].from <= passes[i].to <= n) && Resumable(passes, 0, n)
  }

  function RowPasses(r: Option<Row>, ds: seq<Delta>, key: Key, passes: seq<Pass>): Option<Row>
    requires forall i :: 0 <= i < |passes| ==> passes[i].from <= passes[i].to <= |ds|
    decreases |passes|
  {
    if |passes| == 0 then r else RowPasses(RowRun(r, ds, key, passes[0].from, passes[0].to), ds, key, passes[1..])
  }

  lemma {:induction false} RunPassesRow(t: Table, ds: seq<Delta>, passes: seq<Pass>, key: Key)
    requires forall i :: 0 <= i < |passes| ==> passes[i].from <= passes[i].to <= |ds|
    ensures Get(RunPasses(t, ds, passes), key) == RowPasses(Get(t, key), ds, key, passes)
    decreases |passes|
  {
    if |passes| > 0 {
      TableRunRow(t, ds, passes[0].from, passes[0].to, key);
      RunPassesRow(TableRun(t, ds, passes[0].from, passes[0].to), ds, passes[1..], key);
    }
  }

  /** Every column but the hashes of a listing or an offer, and its stamp, survive any complete rebuild. */
  lemma {:induction false} OtherColumnsKept(log: seq<Event>, passes: seq<Pass>, key: Key)
    requires ValidLog(log) && Whole(passes, |log|) && !key.Auction?
    ensures MaskOption(Get(RunPasses(LiveTables(log), RebuildDeltas(log), passes), key), TX_COLUMNS)
         == MaskOption(Get(LiveTables(log), key), TX_COLUMNS)
  {
    RebuildEnds(log, passes);
    OtherRowsKept(log, key);
    MaskGet(RunPasses(LiveTables(log), RebuildDeltas(log), passes), key);
    MaskGet(LiveTables(log), key);
  }

  // --------------------------------------- exactly when transaction hashes survive

  /** An unguarded write at a ledger no later than `stamp`. */
  ghost predicate Resets(rs: seq<Delta>, key: Key, stamp: int) {
    exists q :: Writes(rs, key, q) && !rs[q].writes[key].guarded && rs[q].ledger <= stamp
  }

  /**
    The write can get past its guard in some interrupted replay: the row is not ahead of it, or an
    unguarded write takes the stamp back far enough before the replay starts over.
  */
  ghost predicate CanFire(row: Row, rs: seq<Delta>, key: Key, p: int) {
    Writes(rs, key, p) && (row.updatedAt <= rs[p].ledger || Resets(rs, key, rs[p].ledger))
  }

  /** No stored event that can get past its guard would erase a known transaction hash of the offer. */
  ghost predicate HashesSafe(log: seq<Event>, id: nat) {
    Offer(id) in LiveTables(log) ==> RowSafe(LiveTables(log)[Offer(id)], RebuildDeltas(log), Offer(id))
  }

  ghost predicate RowSafe(row: Row, rs: seq<Delta>, key: Key) {
    forall f, p :: f in TX_COLUMNS && Assigns(rs, key, p, f) && CanFire(row, rs, key, p) ==> At(row, f) == Some(Null)
  }

  lemma {:induction false} StoredNull(log: seq<Event>, key: Key, q: int, f: Field)
    requires Assigns(RebuildDeltas(log), key, q, f) && f in TX_COLUMNS
    ensures RebuildDeltas(log)[q].writes[key].update[f] == Null
  {
  }

  /** A column whose assignments cannot fire is never written; the stamps a replay reaches stay within reach. */
  lemma {:induction false} QuietRun(row: Row, r: Row, rs: seq<Delta>, key: Key, f: Field, k: nat, m: nat)
    requires k <= m <= |rs| && (row.updatedAt <= r.updatedAt || Resets(rs, key, r.updatedAt))
    requires forall p :: Assigns(rs, key, p, f) ==> !CanFire(row, rs, key, p)
    ensures var after := RowRun(Some(r), rs, key, k, m);
            && after.Some? && At(after.value, f) == At(r, f)
            && (row.updatedAt <= after.value.updatedAt || Resets(rs, key, after.value.updatedAt))
    decreases m - k
  {
    if k < m {
      QuietRun(row, r, rs, key, f, k, m - 1);
      QuietStep(row, RowRun(Some(r), rs, key, k, m - 1).value, rs, key, f, m - 1);
    }
  }

  lemma {:induction false} QuietStep(row: Row, r: Row, rs: seq<Delta>, key: Key, f: Field, p: nat)
    requires p < |rs| && (row.updatedAt <= r.updatedAt || Resets(rs, key, r.updatedAt))
    requires Assigns(rs, key, p, f) ==> !CanFire(row, rs, key, p)
    ensures var after := RowStep(Some(r), rs[p], key);
            && after.Some? && At(after.value, f) == At(r, f)
            && (row.updatedAt <= after.value.updatedAt || Resets(rs, key, after.value.updatedAt))
  {
    if Writes(rs, key, p) && (!rs[p].writes[key].guarded || r.updatedAt <= rs[p].ledger) {
      if !rs[p].writes[key].guarded {
        assert Resets(rs, key, rs[p].ledger);
      } else if Resets(rs, key, r.updatedAt) {
        var q :| Writes(rs, key, q) && !rs[q].writes[key].guarded && rs[q].ledger <= r.updatedAt;
        assert Resets(rs, key, rs[p].ledger);
      }
    }
  }

  lemma {:induction false} QuietPasses(row: Row, r: Row, rs: seq<Delta>, key: Key, f: Field, passes: seq<Pass>)
    requires forall i :: 0 <= i < |passes| ==> passes[i].from <= passes[i].to <= |rs|
    requires row.updatedAt <= r.updatedAt || Resets(rs, key, r.updatedAt)
    requires forall p :: Assigns(rs, key, p, f) ==> !CanFire(row, rs, key, p)
    ensures var after := RowPasses(Some(r), rs, key, passes); after.Some? && At(after.value, f) == At(r, f)
    decreases |passes|
  {
    if |passes| > 0 {
      QuietRun(row, r, rs, key, f, passes[0].from, passes[0].to);
      QuietPasses(row, RowRun(Some(r), rs, key, passes[0].from, passes[0].to).value, rs, key, f, passes[1..]);
    }
  }

  /** A column that is null and only ever assigned null stays null. */
  lemma {:induction false} NullRun(r: Row, rs: seq<Delta>, key: Key, f: Field, k: nat, m: nat)
    requires k <= m <= |rs| && forall p :: Assigns(rs, key, p, f) ==> rs[p].writes[key].update[f] == Null
    ensures var after := RowRun(Some(r), rs, key, k, m);
            after.Some? && (At(after.value, f) == At(r, f) || At(after.value, f) == Some(Null))
    decreases m - k
  {
    if k < m {
      NullRun(r, rs, key, f, k, m - 1);
      assert Assigns(rs, key, m - 1, f) ==> rs[m - 1].writes[key].update[f] == Null;
      NullStep(RowRun(Some(r), rs, key, k, m - 1).value, rs[m - 1], key, f);
    }
  }

  lemma {:induction false} NullStep(r: Row, d: Delta, key: Key, f: Field)
    requires key in d.writes && f in d.writes[key].update ==> d.writes[key].update[f] == Null
    ensures var after := RowStep(Some(r), d, key);
            && after.Some? && (At(after.value, f) == At(r, f) || At(after.value, f) == Some(Null))
            && (key in d.writes && f in d.writes[key].update && !d.writes[key].guarded ==> At(after.value, f) == Some(Null))
  {
  }

  lemma {:induction false} NullPasses(r: Row, rs: seq<Delta>, key: Key, f: Field, passes: seq<Pass>)
    requires forall i :: 0 <= i < |passes| ==> passes[i].from <= passes[i].to <= |rs|
    requires forall p :: Assigns(rs, key, p, f) ==> rs[p].writes[key].update[f] == Null
    ensures var after := RowPasses(Some(r), rs, key, passes);
            after.Some? && (At(after.value, f) == At(r, f) || At(after.value, f) == Some(Null))
    decreases |passes|
  {
    if |passes| > 0 {
      NullRun(r, rs, key, f, passes[0].from, passes[0].to);
      NullPasses(RowRun(Some(r), rs, key, passes[0].from, passes[0].to).value, rs, key, f, passes[1..]);
    }
  }

  lemma {:induction false} NullAssigned(log: seq<Event>, key: Key, f: Field)
    requires f in TX_COLUMNS
    ensures forall p :: Assigns(RebuildDeltas(log), key, p, f) ==> RebuildDeltas(log)[p].writes[key].update[f] == Null
  {
    forall p | Assigns(RebuildDeltas(log), key, p, f) ensures RebuildDeltas(log)[p].writes[key].update[f] == Null {
      StoredNull(log, key, p, f);
    }
  }

  /** Under the condition every complete rebuild, however interrupted, leaves the offer as it was. */
  lemma {:induction false} SafeHashesKept(log: seq<Event>, passes: seq<Pass>, id: nat)
    requires ValidLog(log) && Whole(passes, |log|) && HashesSafe(log, id)
    ensures Get(RunPasses(LiveTables(log), RebuildDeltas(log), passes), Offer(id)) == Get(LiveTables(log), Offer(id))
  {
    var rs, key := RebuildDeltas(log), Offer(id);
    OtherColumnsKept(log, passes, key);
    RunPassesRow(LiveTables(log), rs, passes, key);
    if key in LiveTables(log) {
      var row, after := LiveTables(log)[key], RowPasses(Get(LiveTables(log), key), rs, key, passes);
      forall f ensures after.Some? && At(after.value, f) == At(row, f) {
        if f in TX_COLUMNS { SafeColumn(log, passes, id, f); } else { UnmaskedColumn(after, row, f); }
      }
      SameColumns(after.value, row);
    }
  }

  lemma {:induction false} UnmaskedColumn(after: Option<Row>, row: Row, f: Field)
    requires MaskOption(after, TX_COLUMNS) == MaskOption(Some(row), TX_COLUMNS) && f !in TX_COLUMNS
    ensures after.Some? && At(after.value, f) == At(row, f)
  {
    assert At(MaskRow(after.value, TX_COLUMNS), f) == At(MaskRow(row, TX_COLUMNS), f);
  }

  lemma {:induction false} SafeColumn(log: seq<Event>, passes: seq<Pass>, id: nat, f: Field)
    requires Whole(passes, |log|) && HashesSafe(log, id) && Offer(id) in LiveTables(log) && f in TX_COLUMNS
    ensures var row, after := LiveTables(log)[Offer(id)], RowPasses(Get(LiveTables(log), Offer(id)), RebuildDeltas(log), Offer(id), passes);
            after.Some? && At(after.value, f) == At(row, f)
  {
    var rs, key := RebuildDeltas(log), Offer(id);
    var row := LiveTables(log)[key];
    NullAssigned(log, key, f);
    NullPasses(row, rs, key, f, passes);
    if At(row, f) != Some(Null) { QuietPasses(row, row, rs, key, f, passes); }
  }

  /** One pass up to the end of the write's ledger and one whole pass: a replay in which it fires. */
  function SetBack(log: seq<Event>, p: nat): seq<Pass>
    requires p < |log|
  {
    [Pass(0, Pos(log, log[p].ledger + 1)), Pass(0, |log|)]
  }

  lemma {:induction false} StampBound(r: Row, rs: seq<Delta>, key: Key, k: nat, m: nat, bound: int)
    requires k <= m <= |rs| && r.updatedAt <= bound && forall i :: k <= i < m ==> rs[i].ledger <= bound
    ensures var after := RowRun(Some(r), rs, key, k, m); after.Some? && after.value.updatedAt <= bound
    decreases m - k
  {
    if k < m { StampBound(r, rs, key, k, m - 1, bound); }
  }

  /** After the first of those passes the row is not ahead of the write. */
  lemma {:induction false} SetBackStamp(row: Row, rs: seq<Delta>, key: Key, p: nat, e: nat)
    requires Sorted(rs) && p < e <= |rs| && CanFire(row, rs, key, p)
    requires forall i :: 0 <= i < |rs| ==> (i < e <==> rs[i].ledger <= rs[p].ledger)
    ensures var after := RowRun(Some(row), rs, key, 0, e); after.Some? && after.value.updatedAt <= rs[p].ledger
  {
    var bound := rs[p].ledger;
    if row.updatedAt <= bound {
      StampBound(row, rs, key, 0, e, bound);
    } else {
      var q :| Writes(rs, key, q) && !rs[q].writes[key].guarded && rs[q].ledger <= bound;
      Existing(row, rs, key, 0, q);
      RowRunSplit(Some(row), rs, key, 0, q + 1, e);
      StampBound(RowRun(Some(row), rs, key, 0, q + 1).value, rs, key, q + 1, e, bound);
    }
  }

  lemma {:induction false} Existing(row: Row, rs: seq<Delta>, key: Key, k: nat, m: nat)
    requires k <= m <= |rs|
    ensures RowRun(Some(row), rs, key, k, m).Some?
    decreases m - k
  {
    if k < m { Existing(row, rs, key, k, m - 1); }
  }

  lemma {:induction false} TwoPasses(r: Option<Row>, ds: seq<Delta>, key: Key, e: nat)
    requires e <= |ds|
    ensures Whole([Pass(0, e), Pass(0, |ds|)], |ds|)
    ensures RowPasses(r, ds, key, [Pass(0, e), Pass(0, |ds|)]) == RowRun(RowRun(r, ds, key, 0, e), ds, key, 0, |ds|)
  {
    var one, none: seq<Pass> := [Pass(0, |ds|)], [];
    assert [Pass(0, e), Pass(0, |ds|)][1..] == one && one[1..] == none;
    assert Resumable(none, |ds|, |ds|);
    assert Resumable(one, e, |ds|);
    var back := RowRun(r, ds, key, 0, e);
    assert RowPasses(RowRun(back, ds, key, 0, |ds|), ds, key, none) == RowRun(back, ds, key, 0, |ds|);
    assert RowPasses(back, ds, key, one) == RowRun(back, ds, key, 0, |ds|);
  }

  lemma {:induction false} SetBackErases(log: seq<Event>, id: nat, f: Field, p: nat)
    requires ValidLog(log) && Offer(id) in LiveTables(log) && f in TX_COLUMNS && Assigns(RebuildDeltas(log), Offer(id), p, f)
    requires CanFire(LiveTables(log)[Offer(id)], RebuildDeltas(log), Offer(id), p)
    ensures Whole(SetBack(log, p), |log|)
    ensures var after := RowPasses(Get(LiveTables(log), Offer(id)), RebuildDeltas(log), Offer(id), SetBack(log, p));
            after.Some? && At(after.value, f) == Some(Null)
  {
    var rs, key, e := RebuildDeltas(log), Offer(id), Pos(log, log[p].ledger + 1);
    var row := LiveTables(log)[key];
    RebuildCausal(log);
    PosSplits(log, log[p].ledger + 1);
    TwoPasses(Some(row), rs, key, e);
    SetBackStamp(row, rs, key, p, e);
    FiredNull(log, key, RowRun(Some(row), rs, key, 0, e).value, p, f);
  }

  lemma {:induction false} FiredNull(log: seq<Event>, key: Key, back: Row, p: nat, f: Field)
    requires ValidLog(log) && f in TX_COLUMNS && Assigns(RebuildDeltas(log), key, p, f) && back.updatedAt <= RebuildDeltas(log)[p].ledger
    ensures var after := RowRun(Some(back), RebuildDeltas(log), key, 0, |log|); after.Some? && At(after.value, f) == Some(Null)
  {
    var rs := RebuildDeltas(log);
    RebuildCausal(log);
    assert WillFire(back, rs, key, 0, p);
    assert Reassigns(back, rs, key, 0, f);
    ReplayColumn(back, rs, key, 0, f);
    var q := LastAssignment(rs, key, p, f);
    StoredNull(log, key, q, f);
  }

  /**
    Every complete rebuild, however often interrupted and resumed, leaves the offer as it was if
    and only if no stored event that can get past its guard would erase a known transaction hash.
  */
  lemma {:induction false} OfferHashesKept(log: seq<Event>, id: nat)
    requires ValidLog(log)
    ensures (forall passes :: Whole(passes, |log|) ==>
               Get(RunPasses(LiveTables(log), RebuildDeltas(log), passes), Offer(id)) == Get(LiveTables(log), Offer(id)))
       <==> HashesSafe(log, id)
  {
    var rs, key := RebuildDeltas(log), Offer(id);
    if HashesSafe(log, id) {
      forall passes | Whole(passes, |log|)
        ensures Get(RunPasses(LiveTables(log), rs, passes), key) == Get(LiveTables(log), key)
      {
        SafeHashesKept(log, passes, id);
      }
    } else {
      var f, p :| && f in TX_COLUMNS && Assigns(rs, key, p, f) && CanFire(LiveTables(log)[key], rs, key, p)
                  && At(LiveTables(log)[key], f) != Some(Null);
      SetBackErases(log, id, f, p);
      assert Whole(SetBack(log, p), |log|);
      RunPassesRow(LiveTables(log), rs, SetBack(log, p), key);
    }
  }

  // ---------------------------------------------------- exactly when all rows survive

  lemma {:induction false} NoHashColumns(log: seq<Event>, key: Key, f: Field)
    requires !key.Offer? && f in TX_COLUMNS
    ensures forall p :: !Assigns(RebuildDeltas(log), key, p, f)
  {
  }

  lemma {:induction false} LiveKept(log: seq<Event>, passes: seq<Pass>, key: Key)
    requires ValidLog(log) && Whole(passes, |log|) && !key.Offer?
    requires MaskTable(RunPasses(LiveTables(log), RebuildDeltas(log), passes), TX_COLUMNS) == MaskTable(LiveTables(log), TX_COLUMNS)
    ensures Get(RunPasses(LiveTables(log), RebuildDeltas(log), passes), key) == Get(LiveTables(log), key)
  {
    var rs := RebuildDeltas(log);
    MaskGet(RunPasses(LiveTables(log), rs, passes), key);
    MaskGet(LiveTables(log), key);
    RunPassesRow(LiveTables(log), rs, passes, key);
    if key in LiveTables(log) {
      var row, after := LiveTables(log)[key], RowPasses(Get(LiveTables(log), key), rs, key, passes);
      forall f ensures after.Some? && At(after.value, f) == At(row, f) {
        if f in TX_COLUMNS {
          NoHashColumns(log, key, f);
          QuietPasses(row, row, rs, key, f, passes);
        } else {
          UnmaskedColumn(after, row, f);
        }
      }
      SameColumns(after.value, row);
    }
  }

  /** What a log must satisfy for every rebuild to keep all its rows. */
  ghost predicate Rebuildable(log: seq<Event>) {
    (forall id :: ReserveKept(log, id)) && (forall id :: HashesSafe(log, id))
  }

  lemma {:induction false} RebuildableKept(log: seq<Event>, passes: seq<Pass>)
    requires ValidLog(log) && Whole(passes, |log|) && Rebuildable(log)
    ensures RunPasses(LiveTables(log), RebuildDeltas(log), passes) == LiveTables(log)
  {
    RebuildKeepsLive(log, passes);
    forall key ensures Get(RunPasses(LiveTables(log), RebuildDeltas(log), passes), key) == Get(LiveTables(log), key) {
      if key.Offer? {
        assert HashesSafe(log, key.id);
        SafeHashesKept(log, passes, key.id);
      } else {
        LiveKept(log, passes, key);
      }
    }
    SameRows(RunPasses(LiveTables(log), RebuildDeltas(log), passes), LiveTables(log));
  }

  /**
    Every complete rebuild, however often interrupted and resumed, keeps the live tables, every
    column of them, if and only if no reserve update is lost and no known hash can be erased.
  */
  lemma {:induction false} EveryRebuildKeepsLive(log: seq<Event>)
    requires ValidLog(log)
    ensures (forall passes :: Whole(passes, |log|) ==> RunPasses(LiveTables(log), RebuildDeltas(log), passes) == LiveTables(log))
       <==> Rebuildable(log)
  {
    if forall passes :: Whole(passes, |log|) ==> RunPasses(LiveTables(log), RebuildDeltas(log), passes) == LiveTables(log) {
      var one := [Pass(0, |log|)];
      assert one[1..] == [];
      assert Whole(one, |log|);
      RebuildKeepsLive(log, one);
      forall id ensures HashesSafe(log, id) { OfferHashesKept(log, id); }
    }
    if Rebuildable(log) {
      forall passes | Whole(passes, |log|) ensures RunPasses(LiveTables(log), RebuildDeltas(log), passes) == LiveTables(log) {
        RebuildableKept(log, passes);
      }
    }
  }
}
