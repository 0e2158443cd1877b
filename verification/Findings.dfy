/** Events whose effects every rebuild keeps, and events whose effects every rebuild loses. */
module Findings {
  import opened Wrappers
  import opened Rows
  import opened Replay
  import opened Marketplace
  import opened Rebuild
  import opened RebuildLive

  // ------------------------------------------------------------ reserve prices

  /** Without AUCTION_RESERVE_UPDATED events any interrupted and resumed rebuild keeps the live tables. */
  lemma {:induction false} RebuildWithoutReserveUpdates(log: seq<Event>, passes: seq<Pass>)
    requires ValidLog(log) && forall i :: 0 <= i < |log| ==> !log[i].body.AuctionReserveUpdated?
    requires forall i :: 0 <= i < |passes| ==> passes[i].from <= passes[i].to <= |log|
    requires Resumable(passes, 0, |log|)
    ensures MaskTable(RunPasses(LiveTables(log), RebuildDeltas(log), passes), TX_COLUMNS) == MaskTable(LiveTables(log), TX_COLUMNS)
  {
    forall id ensures ReserveKept(log, id) { NoReserveLost(log, id); }
    RebuildKeepsLive(log, passes);
  }

  lemma {:induction false} NoReserveLost(log: seq<Event>, id: nat)
    requires forall i :: 0 <= i < |log| ==> !log[i].body.AuctionReserveUpdated?
    ensures ReserveKept(log, id)
  {
    var ds, rs, key := Deltas(log), RebuildDeltas(log), Auction(id);
    forall p ensures Writes(ds, key, p) <==> Writes(rs, key, p)
             ensures Writes(ds, key, p) ==> ds[p].writes[key] == rs[p].writes[key]
    {
      RebuildWrites(log, key, p);
      if Writes(ds, key, p) { StoredWrite(log[p], key); }
    }
    SameLasts(ds, rs, key);
  }

  lemma {:induction false} SameLasts(ds: seq<Delta>, rs: seq<Delta>, key: Key)
    requires AgreeOn(ds, rs, key)
    ensures forall q, r :: LastAssigns(ds, key, q, ReservePrice) && LastAssigns(rs, key, r, ReservePrice) ==>
              ds[q].writes[key].update[ReservePrice] == rs[r].writes[key].update[ReservePrice]
    ensures forall q, r :: LastWrites(ds, key, q) && LastWrites(rs, key, r) ==> ds[q].ledger == rs[r].ledger
  {
    forall p ensures Assigns(ds, key, p, ReservePrice) <==> Assigns(rs, key, p, ReservePrice) { }
    forall q, r | LastAssigns(ds, key, q, ReservePrice) && LastAssigns(rs, key, r, ReservePrice) ensures q == r {
      assert Assigns(rs, key, q, ReservePrice) && Assigns(ds, key, r, ReservePrice);
    }
    forall q, r | LastWrites(ds, key, q) && LastWrites(rs, key, r) ensures q == r {
      assert Writes(rs, key, q) && Writes(ds, key, r);
    }
  }

  /** A reserve update that is an auction's last event, at a later ledger than the others, is lost by every rebuild. */
  lemma {:induction false} ReserveUpdateLost(log: seq<Event>, id: nat, q: nat)
    requires ValidLog(log) && q < |log| && log[q].body.AuctionReserveUpdated? && LastWrites(Deltas(log), Auction(id), q)
    requires forall p :: 0 <= p < q && Writes(Deltas(log), Auction(id), p) ==> log[p].ledger < log[q].ledger
    ensures !ReserveKept(log, id)
    ensures forall passes :: Whole(passes, |log|) ==>
              MaskTable(RunPasses(LiveTables(log), RebuildDeltas(log), passes), TX_COLUMNS) != MaskTable(LiveTables(log), TX_COLUMNS)
  {
    forall passes | Whole(passes, |log|)
      ensures !ReserveKept(log, id) ==>
              MaskTable(RunPasses(LiveTables(log), RebuildDeltas(log), passes), TX_COLUMNS) != MaskTable(LiveTables(log), TX_COLUMNS)
    {
      RebuildKeepsLive(log, passes);
    }
    var r := LastQueried(log, id, q);
    assert Deltas(log)[q].ledger != RebuildDeltas(log)[r].ledger;
  }

  lemma {:induction false} LastQueried(log: seq<Event>, id: nat, q: nat) returns (r: nat)
    requires ValidLog(log) && Writes(Deltas(log), Auction(id), q) && !Rebuilt(log[q].body)
    ensures LastWrites(RebuildDeltas(log), Auction(id), r) && Writes(Deltas(log), Auction(id), r) && r != q
  {
    var ds, rs, key := Deltas(log), RebuildDeltas(log), Auction(id);
    FirstOf(ds, key, q);
    var c :| FirstWrite(ds, key, c);
    RebuildWrites(log, key, c);
    r := LastWrite(rs, key, c);
    RebuildWrites(log, key, r);
  }

  // --------------------------------------------------------- transaction hashes

  /** A column that an unguarded write at position `q` nulls is null after passes that cover `q`. */
  lemma {:induction false} NulledByPasses(row: Row, rs: seq<Delta>, key: Key, f: Field, passes: seq<Pass>, start: nat,
                                          q: nat)
    requires forall i :: 0 <= i < |passes| ==> passes[i].from <= passes[i].to <= |rs|
    requires Resumable(passes, start, |rs|) && start <= q && Assigns(rs, key, q, f) && !rs[q].writes[key].guarded
    requires forall p :: Assigns(rs, key, p, f) ==> rs[p].writes[key].update[f] == Null
    ensures var after := RowPasses(Some(row), rs, key, passes); after.Some? && At(after.value, f) == Some(Null)
    decreases |passes|
  {
    var pass, rest := passes[0], passes[1..];
    Existing(row, rs, key, pass.from, pass.to);
    var next := RowRun(Some(row), rs, key, pass.from, pass.to).value;
    if q < pass.to {
      NulledByRun(row, rs, key, f, pass.from, pass.to, q);
      NullPasses(next, rs, key, f, rest);
    } else {
      NulledByPasses(next, rs, key, f, rest, pass.to, q);
    }
  }

  lemma {:induction false} NulledByRun(row: Row, rs: seq<Delta>, key: Key, f: Field, k: nat, m: nat, q: nat)
    requires k <= q < m <= |rs| && Assigns(rs, key, q, f) && !rs[q].writes[key].guarded
    requires forall p :: Assigns(rs, key, p, f) ==> rs[p].writes[key].update[f] == Null
    ensures var after := RowRun(Some(row), rs, key, k, m); after.Some? && At(after.value, f) == Some(Null)
  {
    Existing(row, rs, key, k, q);
    NullStep(RowRun(Some(row), rs, key, k, q).value, rs[q], key, f);
    RowRunSplit(Some(row), rs, key, k, q + 1, m);
    NullRun(RowRun(Some(row), rs, key, k, q + 1).value, rs, key, f, q + 1, m);
  }

  /** Any offer that was accepted, rejected or withdrawn has no refund hash after any complete rebuild. */
  lemma {:induction false} RefundHashLost(log: seq<Event>, passes: seq<Pass>, q: nat)
    requires ValidLog(log) && Whole(passes, |log|) && q < |log| && Active(log[q]) && Terminal(log[q].body)
    ensures var after := Get(RunPasses(LiveTables(log), RebuildDeltas(log), passes), Offer(log[q].body.offerId));
            after.Some? && At(after.value, RefundTxHash) == Some(Null)
  {
    var ds, rs, key := Deltas(log), RebuildDeltas(log), Offer(log[q].body.offerId);
    ClosingWrite(log, q);
    LiveCausal(log);
    FirstRun(ds, key, |log|);
    assert Writes(ds, key, q);
    TableRunRow(map[], ds, 0, |log|, key);
    RunPassesRow(LiveTables(log), rs, passes, key);
    NullAssigned(log, key, RefundTxHash);
    NulledByPasses(LiveTables(log)[key], rs, key, RefundTxHash, passes, 0, q);
  }

  lemma {:induction false} ClosingWrite(log: seq<Event>, q: nat)
    requires q < |log| && Active(log[q]) && Terminal(log[q].body)
    ensures var rs, key := RebuildDeltas(log), Offer(log[q].body.offerId);
            Writes(Deltas(log), key, q) && Assigns(rs, key, q, RefundTxHash) && !rs[q].writes[key].guarded
  {
  }
}
