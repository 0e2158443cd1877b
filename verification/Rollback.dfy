/**
  `revertLedgers` on the projection tables, and what a rebuild over the surviving log makes
  of the rolled-back listings.
*/
module Rollback {
  import opened Wrappers
  import opened Rows
  import opened Replay
  import opened Marketplace
  import opened Rebuild
  import opened RebuildLive

  // -------------------------------------------------------------- the rollback

  predicate CreatedAfter(row: Row, safe: int) {
    CreatedAtLedger in row.fields && row.fields[CreatedAtLedger].Number? && row.fields[CreatedAtLedger].n > safe
  }

  function Reset(row: Row, status: string, safe: int): Row {
    if row.updatedAt > safe then Row(row.fields[Status := Text(status)], safe) else row
  }

  /** Listings and auctions created after the safe ledger go; later-stamped rows fall back to a fixed status. */
  function RevertRow(key: Key, r: Option<Row>, safe: int): Option<Row> {
    match r
    case None => None
    case Some(row) =>
      if key.Offer? then Some(Reset(row, "Pending", safe))
      else if CreatedAfter(row, safe) then None
      else Some(Reset(row, "Active", safe))
  }

  /**
    What that leaves of a row: a listing or auction goes exactly if its creation ledger is past the
    safe one; a row stamped later falls back to Pending for an offer and Active otherwise, with the
    safe ledger as its stamp; every other column and row is kept.
  */
  lemma {:induction false} RevertedRow(key: Key, row: Row, safe: int)
    ensures RevertRow(key, Some(row), safe).None? <==>
              !key.Offer? && exists n: int :: At(row, CreatedAtLedger) == Some(Number(n)) && n > safe
    ensures var r := RevertRow(key, Some(row), safe);
            r.Some? ==>
              && (row.updatedAt <= safe ==> r.value == row)
              && (row.updatedAt > safe ==>
                    && r.value.updatedAt == safe
                    && At(r.value, Status) == Some(Text(if key.Offer? then "Pending" else "Active"))
                    && forall f :: f != Status ==> At(r.value, f) == At(row, f))
  {
    if CreatedAtLedger in row.fields && row.fields[CreatedAtLedger].Number? {
      assert At(row, CreatedAtLedger) == Some(Number(row.fields[CreatedAtLedger].n));
    }
  }

  /** The projection part of the rollback transaction, statement by statement. */
  method RevertLedgers(p: Projections, safe: int)
    modifies p
    ensures forall key :: Get(p.rows, key) == RevertRow(key, Get(old(p.rows), key), safe)
  {
    DeleteCreatedAfter(p, safe, true);
    ResetStatus(p, safe, (key: Key) => key.Listing?, "Active");
    DeleteCreatedAfter(p, safe, false);
    ResetStatus(p, safe, (key: Key) => key.Auction?, "Active");
    ResetStatus(p, safe, (key: Key) => key.Offer?, "Pending");
  }

  /** `deleteMany` of the listings (or auctions) created after the safe ledger. */
  method DeleteCreatedAfter(p: Projections, safe: int, listings: bool)
    modifies p
    ensures forall key :: Get(p.rows, key) ==
              if key in old(p.rows) && (if listings then key.Listing? else key.Auction?) && CreatedAfter(old(p.rows)[key], safe)
              then None else Get(old(p.rows), key)
  {
    p.rows := map key | key in p.rows &&
                !((if listings then key.Listing? else key.Auction?) && CreatedAfter(p.rows[key], safe)) :: p.rows[key];
  }

  /** `updateMany` of one table: rows stamped after the safe ledger get the given status and that stamp. */
  method ResetStatus(p: Projections, safe: int, table: Key -> bool, status: string)
    modifies p
    ensures forall key :: Get(p.rows, key) ==
              if key in old(p.rows) && table(key) then Some(Reset(old(p.rows)[key], status, safe)) else Get(old(p.rows), key)
  {
    p.rows := map key | key in p.rows :: if table(key) then Reset(p.rows[key], status, safe) else p.rows[key];
  }

  // ---------------------------------------------------------- prefixes of logs

  lemma {:induction false} PrefixRun(r: Option<Row>, ds: seq<Delta>, k: nat, key: Key, j: nat, m: nat)
    requires j <= m <= k <= |ds|
    ensures RowRun(r, ds[..k], key, j, m) == RowRun(r, ds, key, j, m)
    decreases m - j
  {
    if j < m { PrefixRun(r, ds, k, key, j, m - 1); }
  }

  lemma {:induction false} PrefixCausal(ds: seq<Delta>, k: nat)
    requires Sorted(ds) && Causal(ds) && k <= |ds|
    ensures Sorted(ds[..k]) && Causal(ds[..k])
  {
    forall key, p | FirstWrite(ds[..k], key, p) ensures ds[..k][p].writes[key].create.Some? {
      forall q | 0 <= q < p ensures !Writes(ds, key, q) { assert !Writes(ds[..k], key, q); }
      assert FirstWrite(ds, key, p);
    }
    forall key, p | Writes(ds[..k], key, p) && ds[..k][p].writes[key].create.Some?
      ensures Within(ds[..k][p].writes[key].update, ds[..k][p].writes[key].create.value)
    {
      assert Writes(ds, key, p);
    }
  }

  lemma {:induction false} FirstRow(ds: seq<Delta>, key: Key, c: nat)
    requires Causal(ds) && FirstWrite(ds, key, c)
    ensures RowRun(None, ds, key, 0, c + 1) == Some(Row(ds[c].writes[key].create.value, ds[c].ledger))
  {
    Untouched(None, ds, key, c);
  }

  lemma {:induction false} ColumnKept(r: Row, ds: seq<Delta>, key: Key, c: nat, f: Field, m: nat)
    requires c <= m <= |ds| && forall p :: c <= p < m ==> !Assigns(ds, key, p, f)
    ensures RowRun(Some(r), ds, key, c, m).Some? && At(RowRun(Some(r), ds, key, c, m).value, f) == At(r, f)
  {
    if c < m {
      ColumnKept(r, ds, key, c, f, m - 1);
      assert !Assigns(ds, key, m - 1, f);
      UnassignedColumn(RowRun(Some(r), ds, key, c, m - 1).value, ds[m - 1], key, f);
    }
  }

  /** A column that only the create branch sets keeps that value. */
  lemma {:induction false} CreateOnly(ds: seq<Delta>, key: Key, c: nat, f: Field, m: nat)
    requires Causal(ds) && FirstWrite(ds, key, c) && c < m <= |ds|
    requires forall p :: 0 <= p < m ==> !Assigns(ds, key, p, f)
    ensures RowRun(None, ds, key, 0, m).Some?
    ensures At(RowRun(None, ds, key, 0, m).value, f) == At(Row(ds[c].writes[key].create.value, 0), f)
  {
    var row := Row(ds[c].writes[key].create.value, ds[c].ledger);
    FirstRow(ds, key, c);
    RowRunSplit(None, ds, key, 0, c + 1, m);
    ColumnKept(row, ds, key, c + 1, f, m);
  }

  lemma {:induction false} UnassignedColumn(row: Row, d: Delta, key: Key, f: Field)
    requires key in d.writes ==> f !in d.writes[key].update
    ensures var r := RowStep(Some(row), d, key); r.Some? && At(r.value, f) == At(row, f)
  {
  }

  // ------------------------------------------------------------ listing writes

  const LISTING_COLUMNS := {Artist, Price, Collection, NftTokenId, Status, Recipients}

  /** Deltas that write one listing the way the marketplace events do. */
  ghost predicate ListingShaped(ds: seq<Delta>, key: Key) {
    forall p :: Writes(ds, key, p) ==>
      var w := ds[p].writes[key];
      && w.update.Keys <= LISTING_COLUMNS + {Owner}
      && (Owner in w.update ==> w.update[Owner].Text?)
      && (w.create.Some? ==>
            && !w.guarded && w.update.Keys == LISTING_COLUMNS
            && Owner in w.create.value && w.create.value[Owner] == Null
            && CreatedAtLedger in w.create.value && w.create.value[CreatedAtLedger] == Number(ds[p].ledger))
  }

  lemma {:induction false} ListingsShaped(log: seq<Event>, id: nat)
    ensures ListingShaped(Deltas(log), Listing(id))
  {
    forall p | Writes(Deltas(log), Listing(id), p)
      ensures var w := Deltas(log)[p].writes[Listing(id)];
        && w.update.Keys <= LISTING_COLUMNS + {Owner}
        && (Owner in w.update ==> w.update[Owner].Text?)
        && (w.create.Some? ==>
              && !w.guarded && w.update.Keys == LISTING_COLUMNS
              && Owner in w.create.value && w.create.value[Owner] == Null
              && CreatedAtLedger in w.create.value && w.create.value[CreatedAtLedger] == Number(log[p].ledger))
    {
      ListingEvent(log[p], id);
    }
  }

  lemma {:induction false} ListingEvent(e: Event, id: nat)
    requires Listing(id) in EventWrites(e)
    ensures var w := EventWrites(e)[Listing(id)];
      && w.update.Keys <= LISTING_COLUMNS + {Owner}
      && (Owner in w.update ==> w.update[Owner].Text?)
      && (w.create.Some? ==>
            && !w.guarded && w.update.Keys == LISTING_COLUMNS
            && Owner in w.create.value && w.create.value[Owner] == Null
            && CreatedAtLedger in w.create.value && w.create.value[CreatedAtLedger] == Number(e.ledger))
  {
    if e.body.ListingCreated? {
      assert ListingUpdate(e.body).Keys == LISTING_COLUMNS;
    }
  }

  // --------------------------------------- a rolled-back listing after a rebuild

  /** An owner assigned anywhere was already assigned once in the part of the log that survives. */
  ghost predicate OwnerRestored(ds: seq<Delta>, k: nat, key: Key) {
    (exists p :: 0 <= p < k && Writes(ds, key, p)) && (exists p :: Assigns(ds, key, p, Owner)) ==>
      exists p :: 0 <= p < k && Assigns(ds, key, p, Owner)
  }

  /** The stamp and status the rollback sets do not matter: the listing's creation event rewrites them. */
  lemma {:induction false} RevertedMends(ds: seq<Delta>, key: Key, k: nat, row: Row, safe: Row, c: nat, live: Row)
    requires Sorted(ds) && Causal(ds) && ListingShaped(ds, key) && k <= |ds|
    requires FirstWrite(ds, key, c) && c < k
    requires RowRun(None, ds, key, 0, k) == Some(safe) && RowRun(None, ds, key, 0, |ds|) == Some(live)
    requires forall f :: f != Status ==> At(row, f) == At(live, f)
    ensures Mends(row, ds[..k], key, 0, safe) <==> OwnerRestored(ds, k, key)
  {
    var ks := ds[..k];
    forall p ensures Writes(ks, key, p) <==> p < k && Writes(ds, key, p) { }
    forall p, f ensures Assigns(ks, key, p, f) <==> p < k && Assigns(ds, key, p, f) { }
    assert WillFire(row, ks, key, 0, c);
    forall f ensures At(row, f) == At(safe, f) || Reassigns(row, ks, key, 0, f) || (f == Owner && !OwnerRestored(ds, k, key)) {
      RevertedColumn(ds, key, k, row, safe, c, live, f);
    }
    if !OwnerRestored(ds, k, key) {
      RevertedOwner(ds, key, k, safe, c, live);
      assert !Reassigns(row, ks, key, 0, Owner);
    }
  }

  lemma {:induction false} RevertedColumn(ds: seq<Delta>, key: Key, k: nat, row: Row, safe: Row, c: nat, live: Row,
                                          f: Field)
    requires Sorted(ds) && Causal(ds) && ListingShaped(ds, key) && k <= |ds|
    requires FirstWrite(ds, key, c) && c < k
    requires RowRun(None, ds, key, 0, k) == Some(safe) && RowRun(None, ds, key, 0, |ds|) == Some(live)
    requires f != Status ==> At(row, f) == At(live, f)
    ensures At(row, f) == At(safe, f) || Reassigns(row, ds[..k], key, 0, f) || (f == Owner && !OwnerRestored(ds, k, key))
  {
    var ks := ds[..k];
    assert Writes(ks, key, c) && !ks[c].writes[key].guarded;
    if p :| 0 <= p < k && Assigns(ds, key, p, f) {
      assert Assigns(ks, key, p, f) && c <= p;
      assert WillFire(row, ks, key, 0, p);
    } else {
      assert f !in LISTING_COLUMNS by { assert !Assigns(ds, key, c, f); }
      RowRunSplit(None, ds, key, 0, k, |ds|);
      ReplayColumn(safe, ds, key, k, f);
      if Reassigns(safe, ds, key, k, f) {
        var p :| Assigns(ds, key, p, f) && WillFire(safe, ds, key, k, p);
        assert f == Owner;
      }
    }
  }

  /** An owner first assigned after the safe ledger survives the rollback: the row is wrong for good. */
  lemma {:induction false} RevertedOwner(ds: seq<Delta>, key: Key, k: nat, safe: Row, c: nat, live: Row)
    requires Sorted(ds) && Causal(ds) && ListingShaped(ds, key) && k <= |ds|
    requires FirstWrite(ds, key, c) && c < k && !OwnerRestored(ds, k, key)
    requires RowRun(None, ds, key, 0, k) == Some(safe) && RowRun(None, ds, key, 0, |ds|) == Some(live)
    ensures At(safe, Owner) == Some(Null) && At(live, Owner) != Some(Null)
  {
    CreateOnly(ds, key, c, Owner, k);
    var p :| Assigns(ds, key, p, Owner);
    var q := LastAssignment(ds, key, p, Owner);
    LastWriterWins(ds, key, q, Owner, |ds|);
  }

  lemma {:induction false} CreatedLedgerKept(ds: seq<Delta>, key: Key)
    requires ListingShaped(ds, key)
    ensures forall p :: !Assigns(ds, key, p, CreatedAtLedger)
  {
    assert CreatedAtLedger !in LISTING_COLUMNS + {Owner};
  }

  /** The ledger column of a listing is the ledger of its first write. */
  lemma {:induction false} CreatedLedger(ds: seq<Delta>, key: Key, c: nat, m: nat)
    requires Sorted(ds) && Causal(ds) && ListingShaped(ds, key) && FirstWrite(ds, key, c) && c < m <= |ds|
    ensures RowRun(None, ds, key, 0, m).Some?
    ensures At(RowRun(None, ds, key, 0, m).value, CreatedAtLedger) == Some(Number(ds[c].ledger))
  {
    CreatedLedgerKept(ds, key);
    CreateOnly(ds, key, c, CreatedAtLedger, m);
  }

  /**
    Rolling a listing back and rebuilding the whole surviving log gives the listing that log
    builds if and only if the owner was not first assigned in the discarded ledgers.
  */
  lemma {:induction false} RolledBackListing(log: seq<Event>, safe: int, id: nat)
    requires ValidLog(log)
    ensures var ds, k, key := Deltas(log), Pos(log, safe + 1), Listing(id);
            var reverted := RevertRow(key, RowRun(None, ds, key, 0, |log|), safe);
            (RowRun(reverted, RebuildDeltas(log[..k]), key, 0, k) == RowRun(None, Deltas(log[..k]), key, 0, k)
             <==> OwnerRestored(ds, k, key))
  {
    var ds, k, key := Deltas(log), Pos(log, safe + 1), Listing(id);
    var ks := ds[..k];
    assert Deltas(log[..k]) == ks;
    var reverted := RevertRow(key, RowRun(None, ds, key, 0, |log|), safe);
    ListingsAgree(log[..k], id);
    AgreeRun(reverted, ks, RebuildDeltas(log[..k]), key, 0, k);
    PrefixRun(None, ds, k, key, 0, k);
    RolledBackLog(log, safe, id);
  }

  lemma {:induction false} RolledBackLog(log: seq<Event>, safe: int, id: nat)
    requires ValidLog(log)
    ensures var ds, k, key := Deltas(log), Pos(log, safe + 1), Listing(id);
            var reverted := RevertRow(key, RowRun(None, ds, key, 0, |ds|), safe);
            (RowRun(reverted, ds[..k], key, 0, k) == RowRun(None, ds, key, 0, k) <==> OwnerRestored(ds, k, key))
  {
    var ds, k, key := Deltas(log), Pos(log, safe + 1), Listing(id);
    LiveCausal(log);
    PrefixCausal(ds, k);
    ListingsShaped(log, id);
    PosSplits(log, safe + 1);
    RolledBackDeltas(ds, key, k, safe);
  }

  lemma {:induction false} RolledBackRow(ds: seq<Delta>, key: Key, k: nat, row: Row, kept: Row, c: nat, live: Row)
    requires Sorted(ds) && Causal(ds) && ListingShaped(ds, key) && k <= |ds| && Sorted(ds[..k]) && Causal(ds[..k])
    requires FirstWrite(ds, key, c) && c < k
    requires RowRun(None, ds, key, 0, k) == Some(kept) && RowRun(None, ds, key, 0, |ds|) == Some(live)
    requires forall f :: f != Status ==> At(row, f) == At(live, f)
    ensures RowRun(Some(row), ds[..k], key, 0, k) == Some(kept) <==> OwnerRestored(ds, k, key)
  {
    PrefixRun(None, ds, k, key, 0, k);
    FirstRunSettles(ds[..k], key, kept);
    ReplayMendsExactly(row, ds[..k], key, 0, kept);
    RevertedMends(ds, key, k, row, kept, c, live);
  }

  lemma {:induction false} RolledBackDeltas(ds: seq<Delta>, key: Key, k: nat, safe: int)
    requires Sorted(ds) && Causal(ds) && ListingShaped(ds, key) && key.Listing? && k <= |ds|
    requires forall i :: 0 <= i < |ds| ==> (i < k <==> ds[i].ledger <= safe)
    requires Sorted(ds[..k]) && Causal(ds[..k])
    ensures var reverted := RevertRow(key, RowRun(None, ds, key, 0, |ds|), safe);
            RowRun(reverted, ds[..k], key, 0, k) == RowRun(None, ds, key, 0, k) <==> OwnerRestored(ds, k, key)
  {
    if c :| FirstWrite(ds, key, c) && c < k {
      CreatedLedger(ds, key, c, |ds|);
      CreatedLedger(ds, key, c, k);
      var live, kept := RowRun(None, ds, key, 0, |ds|).value, RowRun(None, ds, key, 0, k).value;
      RolledBackRow(ds, key, k, Reset(live, "Active", safe), kept, c, live);
    } else {
      RolledBackNone(ds, key, k, safe);
    }
  }

  /** A listing that only the discarded ledgers wrote is gone. */
  lemma {:induction false} RolledBackNone(ds: seq<Delta>, key: Key, k: nat, safe: int)
    requires Sorted(ds) && Causal(ds) && ListingShaped(ds, key) && key.Listing? && k <= |ds|
    requires forall i :: 0 <= i < |ds| ==> (i < k <==> ds[i].ledger <= safe)
    requires forall c :: FirstWrite(ds, key, c) ==> k <= c
    ensures RevertRow(key, RowRun(None, ds, key, 0, |ds|), safe) == None && OwnerRestored(ds, k, key)
    ensures RowRun(None, ds[..k], key, 0, k) == RowRun(None, ds, key, 0, k) == None
  {
    forall p | 0 <= p < k ensures !Writes(ds, key, p) {
      if Writes(ds, key, p) { FirstOf(ds, key, p); }
    }
    FirstRun(ds, key, k);
    PrefixRun(None, ds, k, key, 0, k);
    if c :| FirstWrite(ds, key, c) {
      CreatedLedger(ds, key, c, |ds|);
    } else {
      NoFirstWrite(ds, key);
      FirstRun(ds, key, |ds|);
    }
  }
}
