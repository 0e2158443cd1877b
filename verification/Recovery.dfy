/**
  Recovery from a re-organisation as the code performs it: roll the projection tables back to the
  safe ledger, then rebuild them from that ledger on.  Which rows end as the surviving log says.
*/
module Recovery {
  import opened Wrappers
  import opened Rows
  import opened Replay
  import opened Marketplace
  import opened Rebuild
  import opened RebuildLive
  import opened Rollback

  // ------------------------------------------------- columns, read off a log

  predicate Written(ds: seq<Delta>, key: Key, a: nat, b: nat) {
    exists p :: a <= p < b && Writes(ds, key, p)
  }

  /** The value the first `m` deltas leave in a column: the last assignment, or what the row was created with. */
  function Column(ds: seq<Delta>, key: Key, f: Field, m: nat): Option<Value>
    requires m <= |ds|
  {
    if m == 0 then None
    else if !Writes(ds, key, m - 1) then Column(ds, key, f, m - 1)
    else
      var w := ds[m - 1].writes[key];
      if f in w.update then Some(w.update[f])
      else if Written(ds, key, 0, m - 1) then Column(ds, key, f, m - 1)
      else if w.create.Some? && f in w.create.value then Some(w.create.value[f])
      else None
  }

  /** The last assignment of a column at positions `a` up to `b`. */
  function Latest(ds: seq<Delta>, key: Key, f: Field, a: nat, b: nat): Option<Value>
    requires a <= b <= |ds|
    decreases b
  {
    if a == b then None
    else if Assigns(ds, key, b - 1, f) then Some(ds[b - 1].writes[key].update[f])
    else Latest(ds, key, f, a, b - 1)
  }

  lemma {:induction false} ColumnIs(ds: seq<Delta>, key: Key, f: Field, m: nat)
    requires Sorted(ds) && Causal(ds) && m <= |ds|
    ensures var r := RowRun(None, ds, key, 0, m); r.Some? ==> At(r.value, f) == Column(ds, key, f, m)
  {
    if m > 0 {
      ColumnIs(ds, key, f, m - 1);
      if Writes(ds, key, m - 1) {
        if Written(ds, key, 0, m - 1) {
          var p :| 0 <= p < m - 1 && Writes(ds, key, p);
          RowBefore(ds, key, m - 1, p);
          LaterWrite(ds, key, f, m);
        } else {
          EarliestWrite(ds, key, f, m);
        }
      }
    }
  }

  lemma {:induction false} LaterWrite(ds: seq<Delta>, key: Key, f: Field, m: nat)
    requires 0 < m <= |ds| && Writes(ds, key, m - 1) && RowRun(None, ds, key, 0, m - 1).Some?
    requires RowRun(None, ds, key, 0, m - 1).value.updatedAt <= ds[m - 1].ledger
    ensures var before, r, w := RowRun(None, ds, key, 0, m - 1), RowRun(None, ds, key, 0, m), ds[m - 1].writes[key];
            r.Some? && At(r.value, f) == if f in w.update then Some(w.update[f]) else At(before.value, f)
  {
    FiringStep(RowRun(None, ds, key, 0, m - 1).value, ds[m - 1], key, f);
  }

  /** Before a later write the row is there and not ahead. */
  lemma {:induction false} RowBefore(ds: seq<Delta>, key: Key, n: nat, p: nat)
    requires Sorted(ds) && Causal(ds) && p < n < |ds| && Writes(ds, key, p)
    ensures RowRun(None, ds, key, 0, n).Some? && RowRun(None, ds, key, 0, n).value.updatedAt <= ds[n].ledger
  {
    FirstRun(ds, key, n);
    var last, next := ds[n - 1].ledger, ds[n].ledger;
    assert last <= next;
  }

  lemma {:induction false} EarliestWrite(ds: seq<Delta>, key: Key, f: Field, m: nat)
    requires Causal(ds) && 0 < m <= |ds| && Writes(ds, key, m - 1) && !Written(ds, key, 0, m - 1)
    ensures var r := RowRun(None, ds, key, 0, m); r.Some? && At(r.value, f) == Column(ds, key, f, m)
  {
    assert FirstWrite(ds, key, m - 1);
    FirstRow(ds, key, m - 1);
  }

  lemma {:induction false} WrittenNext(ds: seq<Delta>, key: Key, j: nat, k: nat)
    requires j < k <= |ds|
    ensures Written(ds, key, j, k) <==> Written(ds, key, j, k - 1) || Writes(ds, key, k - 1)
  {
    if Written(ds, key, j, k - 1) { var p :| j <= p < k - 1 && Writes(ds, key, p); }
  }

  /** A row not ahead of a stretch of one ledger: every write fires. */
  lemma {:induction false} OneLedger(row: Row, rs: seq<Delta>, key: Key, j: nat, k: nat, ledger: int, f: Field)
    requires j <= k <= |rs| && row.updatedAt <= ledger && forall i :: j <= i < k ==> rs[i].ledger == ledger
    ensures var r := RowRun(Some(row), rs, key, j, k);
            && r.Some? && r.value.updatedAt == (if Written(rs, key, j, k) then ledger else row.updatedAt)
            && At(r.value, f) == (if Latest(rs, key, f, j, k).Some? then Latest(rs, key, f, j, k) else At(row, f))
    decreases k
  {
    if j < k {
      OneLedger(row, rs, key, j, k - 1, ledger, f);
      WrittenNext(rs, key, j, k);
      FiringStep(RowRun(Some(row), rs, key, j, k - 1).value, rs[k - 1], key, f);
    }
  }

  lemma {:induction false} FiringStep(row: Row, d: Delta, key: Key, f: Field)
    requires row.updatedAt <= d.ledger
    ensures var r := RowStep(Some(row), d, key);
            && r.Some? && r.value.updatedAt == (if key in d.writes then d.ledger else row.updatedAt)
            && At(r.value, f) == (if key in d.writes && f in d.writes[key].update then Some(d.writes[key].update[f]) else At(row, f))
  {
  }

  // ------------------------------------------------------- the exact condition

  function FallBack(key: Key): Value { if key.Offer? then Text("Pending") else Text("Active") }

  /**
    A column is right again: rewritten at the safe ledger with the value the surviving log has, or
    left alone by the discarded part of the log and by the status reset.
  */
  ghost predicate ColumnRestored(ds: seq<Delta>, rs: seq<Delta>, key: Key, j: nat, k: nat, f: Field)
    requires j <= k <= |ds| == |rs|
  {
    if Latest(rs, key, f, j, k).Some? then Latest(rs, key, f, j, k) == Column(ds, key, f, k)
    else if f == Status && Written(ds, key, k, |ds|) then Column(ds, key, Status, k) == Some(FallBack(key))
    else Column(ds, key, f, |ds|) == Column(ds, key, f, k)
  }

  /** Events before position `j` precede the safe ledger, those up to `k` are at it, and the rest is discarded. */
  ghost predicate Restored(ds: seq<Delta>, rs: seq<Delta>, key: Key, j: nat, k: nat)
    requires j <= k <= |ds| == |rs|
  {
    if !Written(ds, key, 0, k) then key.Offer? ==> !Written(ds, key, k, |ds|)
    else
      && (Written(ds, key, k, |ds|) ==> Written(ds, key, j, k))
      && forall f :: ColumnRestored(ds, rs, key, j, k, f)
  }

  /** The events that survive. */
  function Kept(log: seq<Event>, safe: int): seq<Event> { log[..Pos(log, safe + 1)] }

  /** Where the surviving events of the safe ledger begin. */
  function AtSafe(log: seq<Event>, safe: int): (j: nat)
    ensures j <= Pos(log, safe + 1)
  {
    Pos(Kept(log, safe), safe)
  }

  /** The condition, of a log, a safe ledger and a row. */
  ghost predicate RowRestored(log: seq<Event>, safe: int, key: Key) {
    Restored(Deltas(log), RebuildDeltas(log), key, AtSafe(log, safe), Pos(log, safe + 1))
  }

  /** The row after the rollback and the rebuild from the safe ledger. */
  function Recovered(log: seq<Event>, safe: int, key: Key): Option<Row> {
    var reverted := RevertRow(key, RowRun(None, Deltas(log), key, 0, |log|), safe);
    RowRun(reverted, RebuildDeltas(Kept(log, safe)), key, AtSafe(log, safe), Pos(log, safe + 1))
  }

  /** The row the surviving log builds. */
  function Surviving(log: seq<Event>, safe: int, key: Key): Option<Row> {
    RowRun(None, Deltas(Kept(log, safe)), key, 0, Pos(log, safe + 1))
  }

  // ------------------------------------------------------------------ the proof

  /** Where the safe ledger cuts a log. */
  ghost predicate Cut(ds: seq<Delta>, j: nat, k: nat, safe: int) {
    && j <= k <= |ds|
    && (forall i :: 0 <= i < |ds| ==> (i < k <==> ds[i].ledger <= safe))
    && (forall i :: 0 <= i < |ds| ==> (i < j <==> ds[i].ledger < safe))
  }

  lemma {:induction false} LastWritten(ds: seq<Delta>, key: Key, a: nat, m: nat) returns (p: nat)
    requires a <= m <= |ds| && Written(ds, key, a, m)
    ensures a <= p < m && Writes(ds, key, p) && forall q :: p < q < m ==> !Writes(ds, key, q)
    decreases m
  {
    if Writes(ds, key, m - 1) { p := m - 1; } else { p := LastWritten(ds, key, a, m - 1); }
  }

  lemma {:induction false} NotWritten(ds: seq<Delta>, key: Key, f: Field, a: nat, m: nat)
    requires a <= m <= |ds| && !Written(ds, key, a, m)
    ensures RowRun(None, ds, key, 0, m) == RowRun(None, ds, key, 0, a) && Column(ds, key, f, m) == Column(ds, key, f, a)
    decreases m
  {
    if a < m {
      assert !Writes(ds, key, m - 1);
      NotWritten(ds, key, f, a, m - 1);
    }
  }

  /** The first write of a row the surviving log has is in the surviving log, and the ledger column says so. */
  ghost predicate LedgerColumn(ds: seq<Delta>, key: Key) {
    forall p :: Writes(ds, key, p) ==>
      && CreatedAtLedger !in ds[p].writes[key].update
      && (ds[p].writes[key].create.Some? ==>
            CreatedAtLedger in ds[p].writes[key].create.value && ds[p].writes[key].create.value[CreatedAtLedger] == Number(ds[p].ledger))
  }

  lemma {:induction false} CreatedWhen(ds: seq<Delta>, key: Key, j: nat, k: nat, safe: int)
    requires Sorted(ds) && Causal(ds) && Cut(ds, j, k, safe) && LedgerColumn(ds, key) && Written(ds, key, 0, |ds|)
    ensures RowRun(None, ds, key, 0, |ds|).Some?
    ensures CreatedAfter(RowRun(None, ds, key, 0, |ds|).value, safe) <==> !Written(ds, key, 0, k)
  {
    var p :| 0 <= p < |ds| && Writes(ds, key, p);
    FirstOf(ds, key, p);
    var c :| FirstWrite(ds, key, c);
    CreateOnly(ds, key, c, CreatedAtLedger, |ds|);
    assert c < k <==> Written(ds, key, 0, k);
  }

  /** What the rollback makes of a row the surviving log has. */
  lemma {:induction false} RevertedRow(ds: seq<Delta>, key: Key, j: nat, k: nat, safe: int, f: Field)
    requires Sorted(ds) && Causal(ds) && Cut(ds, j, k, safe) && LedgerColumn(ds, key) && Written(ds, key, 0, k)
    ensures var live := RowRun(None, ds, key, 0, |ds|); var r := RevertRow(key, live, safe);
            && live.Some? && r.Some? && r.value.updatedAt <= safe
            && r.value.updatedAt == (if Written(ds, key, k, |ds|) then safe else live.value.updatedAt)
            && At(r.value, f) == (if f == Status && Written(ds, key, k, |ds|) then Some(FallBack(key)) else Column(ds, key, f, |ds|))
  {
    assert Written(ds, key, 0, |ds|) by { var p :| 0 <= p < k && Writes(ds, key, p); }
    CreatedWhen(ds, key, j, k, safe);
    ColumnIs(ds, key, f, |ds|);
    LiveStamp(ds, key, j, k, safe);
    var row := RowRun(None, ds, key, 0, |ds|).value;
    assert RevertRow(key, Some(row), safe) == Some(Reset(row, if key.Offer? then "Pending" else "Active", safe));
  }

  /** The live row is stamped after the safe ledger exactly when the discarded part wrote it. */
  lemma {:induction false} LiveStamp(ds: seq<Delta>, key: Key, j: nat, k: nat, safe: int)
    requires Sorted(ds) && Causal(ds) && Cut(ds, j, k, safe) && Written(ds, key, 0, |ds|)
    ensures var live := RowRun(None, ds, key, 0, |ds|); live.Some? && (live.value.updatedAt > safe <==> Written(ds, key, k, |ds|))
  {
    var p := LastWritten(ds, key, 0, |ds|);
    LastStamp(ds, key, p, |ds|);
  }

  /** The stamp the surviving log gives the row. */
  lemma {:induction false} SurvivingStamp(ds: seq<Delta>, key: Key, j: nat, k: nat, safe: int)
    requires Sorted(ds) && Causal(ds) && Cut(ds, j, k, safe) && Written(ds, key, 0, k)
    ensures var kept := RowRun(None, ds, key, 0, k); kept.Some? && (kept.value.updatedAt == safe <==> Written(ds, key, j, k))
    ensures !Written(ds, key, k, |ds|) ==> RowRun(None, ds, key, 0, |ds|) == RowRun(None, ds, key, 0, k)
  {
    if Written(ds, key, j, k) {
      var p := LastWritten(ds, key, j, k);
      LastStamp(ds, key, p, k);
    } else {
      NotWritten(ds, key, Status, j, k);
      FirstRun(ds, key, j);
      FirstRun(ds, key, k);
    }
    if !Written(ds, key, k, |ds|) { NotWritten(ds, key, Status, k, |ds|); }
  }

  /** The rebuilt deltas write no row that the live ones do not, at the same ledgers. */
  ghost predicate Follows(rs: seq<Delta>, ds: seq<Delta>, key: Key) {
    && |rs| == |ds| && (forall i :: 0 <= i < |ds| ==> rs[i].ledger == ds[i].ledger)
    && forall p :: Writes(rs, key, p) ==> Writes(ds, key, p)
  }

  lemma {:induction false} RebuiltRow(ds: seq<Delta>, rs: seq<Delta>, key: Key, j: nat, k: nat, safe: int)
    requires Sorted(ds) && Causal(ds) && Cut(ds, j, k, safe) && LedgerColumn(ds, key) && Written(ds, key, 0, k) && Follows(rs, ds, key)
    ensures RowRun(RevertRow(key, RowRun(None, ds, key, 0, |ds|), safe), rs, key, j, k) == RowRun(None, ds, key, 0, k)
       <==> Restored(ds, rs, key, j, k)
  {
    SurvivingStamp(ds, key, j, k, safe);
    RevertedRow(ds, key, j, k, safe, Status);
    var row := RevertRow(key, RowRun(None, ds, key, 0, |ds|), safe).value;
    OneLedger(row, rs, key, j, k, safe, Status);
    var after, kept := RowRun(Some(row), rs, key, j, k).value, RowRun(None, ds, key, 0, k).value;
    forall f ensures At(after, f) == At(kept, f) <==> ColumnRestored(ds, rs, key, j, k, f) {
      RevertedRow(ds, key, j, k, safe, f);
      OneLedger(row, rs, key, j, k, safe, f);
      ColumnIs(ds, key, f, k);
    }
    assert Written(rs, key, j, k) ==> Written(ds, key, j, k);
    assert after.updatedAt == kept.updatedAt <==> (Written(ds, key, k, |ds|) ==> Written(ds, key, j, k));
    if forall f :: ColumnRestored(ds, rs, key, j, k, f) { SameColumns(after, kept); }
  }

  /** A row the surviving log does not have: deleted again, unless it is an offer. */
  lemma {:induction false} LaterRow(ds: seq<Delta>, rs: seq<Delta>, key: Key, j: nat, k: nat, safe: int)
    requires Sorted(ds) && Causal(ds) && Cut(ds, j, k, safe) && LedgerColumn(ds, key) && !Written(ds, key, 0, k) && Follows(rs, ds, key)
    ensures RowRun(RevertRow(key, RowRun(None, ds, key, 0, |ds|), safe), rs, key, j, k) == RowRun(None, ds, key, 0, k)
       <==> Restored(ds, rs, key, j, k)
  {
    FirstRun(ds, key, k);
    var r := RevertRow(key, RowRun(None, ds, key, 0, |ds|), safe);
    assert !Written(rs, key, j, k);
    Unwritten(r, rs, key, j, k);
    if Written(ds, key, k, |ds|) {
      assert Written(ds, key, 0, |ds|);
      CreatedWhen(ds, key, j, k, safe);
    } else {
      NotWritten(ds, key, Status, k, |ds|);
    }
  }

  lemma {:induction false} Unwritten(r: Option<Row>, rs: seq<Delta>, key: Key, j: nat, k: nat)
    requires j <= k <= |rs| && !Written(rs, key, j, k)
    ensures RowRun(r, rs, key, j, k) == r
    decreases k
  {
    if j < k {
      assert !Writes(rs, key, k - 1);
      Unwritten(r, rs, key, j, k - 1);
    }
  }

  // ------------------------------------------------------------------- of logs

  lemma {:induction false} EventLedgerColumn(e: Event, key: Key)
    requires key in EventWrites(e)
    ensures var w := EventWrites(e)[key];
            && CreatedAtLedger !in w.update
            && (w.create.Some? ==> CreatedAtLedger in w.create.value && w.create.value[CreatedAtLedger] == Number(e.ledger))
  {
  }

  lemma {:induction false} LogCut(log: seq<Event>, safe: int, key: Key)
    requires ValidLog(log)
    ensures var ds, rs, j, k := Deltas(log), RebuildDeltas(log), AtSafe(log, safe), Pos(log, safe + 1);
            && Sorted(ds) && Causal(ds) && Cut(ds, j, k, safe) && LedgerColumn(ds, key) && Follows(rs, ds, key)
  {
    LiveCausal(log);
    LedgersCut(log, safe);
    forall p | Writes(Deltas(log), key, p)
      ensures CreatedAtLedger !in Deltas(log)[p].writes[key].update
      ensures Deltas(log)[p].writes[key].create.Some? ==>
                CreatedAtLedger in Deltas(log)[p].writes[key].create.value &&
                Deltas(log)[p].writes[key].create.value[CreatedAtLedger] == Number(Deltas(log)[p].ledger)
    {
      EventLedgerColumn(log[p], key);
    }
    forall p | Writes(RebuildDeltas(log), key, p) ensures Writes(Deltas(log), key, p) { RebuildWrites(log, key, p); }
  }

  lemma {:induction false} LedgersCut(log: seq<Event>, safe: int)
    requires forall i, j :: 0 <= i <= j < |log| ==> log[i].ledger <= log[j].ledger
    ensures Cut(Deltas(log), AtSafe(log, safe), Pos(log, safe + 1), safe)
  {
    var kept := Kept(log, safe);
    PosSplits(log, safe + 1);
    assert forall i, j :: 0 <= i <= j < |kept| ==> kept[i].ledger <= kept[j].ledger;
    PosSplits(kept, safe);
    forall i | 0 <= i < |log| ensures i < AtSafe(log, safe) <==> log[i].ledger < safe {
      if i < |kept| { assert kept[i] == log[i]; }
    }
  }

  /**
    Any row of any valid log, after a rollback and a rebuild from the safe ledger: it is the row
    the surviving log builds if and only if the condition above holds of it.
  */
  lemma {:induction false} RangeRebuildExactly(log: seq<Event>, safe: int, key: Key)
    requires ValidLog(log)
    ensures Recovered(log, safe, key) == Surviving(log, safe, key) <==> RowRestored(log, safe, key)
  {
    var ds, rs, j, k := Deltas(log), RebuildDeltas(log), AtSafe(log, safe), Pos(log, safe + 1);
    LogCut(log, safe, key);
    var reverted := RevertRow(key, RowRun(None, ds, key, 0, |log|), safe);
    assert Deltas(Kept(log, safe)) == ds[..k] && RebuildDeltas(Kept(log, safe)) == rs[..k];
    PrefixRun(reverted, rs, k, key, j, k);
    PrefixRun(None, ds, k, key, 0, k);
    if Written(ds, key, 0, k) { RebuiltRow(ds, rs, key, j, k, safe); } else { LaterRow(ds, rs, key, j, k, safe); }
  }

  /** A surviving row that the discarded ledgers wrote and the safe ledger did not is left wrong. */
  lemma {:induction false} TouchedRowMissed(log: seq<Event>, safe: int, key: Key)
    requires ValidLog(log)
    requires Written(Deltas(log), key, 0, Pos(log, safe + 1)) && Written(Deltas(log), key, Pos(log, safe + 1), |log|)
    requires !Written(Deltas(log), key, AtSafe(log, safe), Pos(log, safe + 1))
    ensures Recovered(log, safe, key) != Surviving(log, safe, key)
  {
    RangeRebuildExactly(log, safe, key);
  }

  // ------------------------------------------------------------- the listing case

  /** The status is rewritten at the safe ledger or is the one the reset sets. */
  ghost predicate StatusRight(ds: seq<Delta>, key: Key, j: nat, k: nat)
    requires j <= k <= |ds|
  {
    Latest(ds, key, Status, j, k).Some? || Column(ds, key, Status, k) == Some(Text("Active"))
  }

  /** A column is rewritten at the safe ledger or was not changed by the discarded part. */
  ghost predicate ColumnRight(ds: seq<Delta>, key: Key, j: nat, k: nat, f: Field)
    requires j <= k <= |ds|
  {
    Latest(ds, key, f, j, k).Some? || Column(ds, key, f, |ds|) == Column(ds, key, f, k)
  }

  /** For a listing the rebuild rewrites with the right values, so only what it does not rewrite matters. */
  lemma {:induction false} ListingRestored(log: seq<Event>, safe: int, id: nat)
    requires ValidLog(log)
    ensures var ds, key, j, k := Deltas(log), Listing(id), AtSafe(log, safe), Pos(log, safe + 1);
            (RowRestored(log, safe, key) <==>
              (Written(ds, key, 0, k) && Written(ds, key, k, |ds|) ==>
                Written(ds, key, j, k) && StatusRight(ds, key, j, k) && forall f :: f != Status ==> ColumnRight(ds, key, j, k, f)))
  {
    ListingsAgree(log, id);
    AgreeingRestored(Deltas(log), RebuildDeltas(log), Listing(id), AtSafe(log, safe), Pos(log, safe + 1));
  }

  lemma {:induction false} AgreeingRestored(ds: seq<Delta>, rs: seq<Delta>, key: Key, j: nat, k: nat)
    requires AgreeOn(ds, rs, key) && j <= k <= |ds| && key.Listing?
    ensures Restored(ds, rs, key, j, k) <==>
              (Written(ds, key, 0, k) && Written(ds, key, k, |ds|) ==>
                Written(ds, key, j, k) && StatusRight(ds, key, j, k) && forall f :: f != Status ==> ColumnRight(ds, key, j, k, f))
  {
    var discarded := Written(ds, key, k, |ds|);
    forall f ensures ColumnRestored(ds, rs, key, j, k, f) <==>
                       !discarded || (if f == Status then StatusRight(ds, key, j, k) else ColumnRight(ds, key, j, k, f))
    {
      AgreeingColumn(ds, rs, key, j, k, f);
    }
    if discarded && forall f :: ColumnRestored(ds, rs, key, j, k, f) { assert ColumnRestored(ds, rs, key, j, k, Status); }
  }

  lemma {:induction false} AgreeingColumn(ds: seq<Delta>, rs: seq<Delta>, key: Key, j: nat, k: nat, f: Field)
    requires AgreeOn(ds, rs, key) && j <= k <= |ds| && key.Listing?
    ensures ColumnRestored(ds, rs, key, j, k, f) <==>
              !Written(ds, key, k, |ds|) || (if f == Status then StatusRight(ds, key, j, k) else ColumnRight(ds, key, j, k, f))
  {
    SameLatest(ds, rs, key, f, j, k);
    LatestIsColumn(ds, key, f, j, k);
    if !Written(ds, key, k, |ds|) { NotWritten(ds, key, f, k, |ds|); }
  }

  lemma {:induction false} SameLatest(ds: seq<Delta>, rs: seq<Delta>, key: Key, f: Field, a: nat, b: nat)
    requires AgreeOn(ds, rs, key) && a <= b <= |ds|
    ensures Latest(ds, key, f, a, b) == Latest(rs, key, f, a, b)
    decreases b
  {
    if a < b { SameLatest(ds, rs, key, f, a, b - 1); }
  }

  lemma {:induction false} LatestIsColumn(ds: seq<Delta>, key: Key, f: Field, a: nat, b: nat)
    requires a <= b <= |ds|
    ensures Latest(ds, key, f, a, b).Some? ==> Latest(ds, key, f, a, b) == Column(ds, key, f, b)
    decreases b
  {
    if a < b {
      LatestIsColumn(ds, key, f, a, b - 1);
      if Latest(ds, key, f, a, b - 1).Some? { LatestWritten(ds, key, f, a, b - 1); }
    }
  }

  lemma {:induction false} LatestWritten(ds: seq<Delta>, key: Key, f: Field, a: nat, b: nat)
    requires a <= b <= |ds| && Latest(ds, key, f, a, b).Some?
    ensures Written(ds, key, 0, b)
    decreases b
  {
    if Assigns(ds, key, b - 1, f) {
      assert Writes(ds, key, b - 1);
    } else {
      LatestWritten(ds, key, f, a, b - 1);
      WrittenNext(ds, key, 0, b);
    }
  }

  // -------------------------------------------------------------- the recovery

  lemma {:induction false} PrefixValid(log: seq<Event>, k: nat)
    requires ValidLog(log) && k <= |log|
    ensures ValidLog(log[..k])
  {
    var kept := log[..k];
    var ds := Deltas(kept);
    assert ds == Deltas(log)[..k];
    forall key, p | FirstWrite(ds, key, p) ensures EventWrites(kept[p])[key].create.Some? {
      forall q | 0 <= q < p ensures !Writes(Deltas(log), key, q) { assert !Writes(ds, key, q); }
      assert FirstWrite(Deltas(log), key, p);
    }
    forall p | 0 <= p < k ensures OfferAfterListing(kept, p) {
      assert OfferAfterListing(log, p);
      if kept[p].body.OfferMade? && EventWrites(kept[p]) != map[] {
        var c :| 0 <= c < p && Writes(Deltas(log), Listing(kept[p].body.listing), c);
        assert Writes(ds, Listing(kept[p].body.listing), c);
      }
    }
  }

  /** Rows written before the safe ledger survive the rollback. */
  lemma {:induction false} RevertKeepsKeys(log: seq<Event>, safe: int, t: Table)
    requires ValidLog(log) && forall key :: Get(t, key) == RevertRow(key, Get(LiveTables(log), key), safe)
    ensures KeysKept(t, RebuildDeltas(Kept(log, safe)), AtSafe(log, safe))
  {
    var ds, rs, j, k := Deltas(log), RebuildDeltas(log), AtSafe(log, safe), Pos(log, safe + 1);
    assert RebuildDeltas(Kept(log, safe)) == rs[..k];
    forall key, p | 0 <= p < j && Writes(rs[..k], key, p) ensures key in t {
      LogCut(log, safe, key);
      assert Writes(rs, key, p) && Writes(ds, key, p);
      RevertedRow(ds, key, j, k, safe, Status);
      TableRunRow(map[], ds, 0, |log|, key);
      assert Get(t, key).Some?;
    }
  }

  /**
    The recovery as a whole, on the live tables of a valid log: roll back, then apply the stored
    events of the safe ledger.  Row by row, exactly when it ends as the surviving log says.
  */
  method RecoverFromReorg(p: Projections, log: seq<Event>, safe: int)
    requires ValidLog(log) && p.rows == LiveTables(log)
    modifies p
    ensures forall key :: Get(p.rows, key) == Get(LiveTables(Kept(log, safe)), key) <==> RowRestored(log, safe, key)
  {
    RevertLedgers(p, safe);
    ghost var t := p.rows;
    var j, k := AtSafe(log, safe), Pos(log, safe + 1);
    PrefixValid(log, k);
    RevertKeepsKeys(log, safe, t);
    var events, affected := RunBatch(p, Kept(log, safe), j, k);
    forall key ensures Get(p.rows, key) == Get(LiveTables(Kept(log, safe)), key) <==> RowRestored(log, safe, key) {
      TableRunRow(t, RebuildDeltas(Kept(log, safe)), j, k, key);
      TableRunRow(map[], Deltas(Kept(log, safe)), 0, k, key);
      TableRunRow(map[], Deltas(log), 0, |log|, key);
      RangeRebuildExactly(log, safe, key);
    }
  }
}
