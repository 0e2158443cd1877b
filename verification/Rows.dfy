/**
  Row writes of the projection tables and their replay.

  `processEvent` turns one event into at most one write per projection row.  A
  write is an `upsert` (it carries a create branch), an `updateMany`, or an
  `updateMany` guarded by `updatedAtLedger <= ledger`.  This module studies such
  writes independently of the marketplace: which replays of a log reproduce the
  rows that the log first produced.
*/
module Rows {
  import opened Wrappers

  // ---------------------------------------------------------------- tables

  /** Primary keys of the three projection tables. */
  datatype Key = Listing(id: nat) | Auction(id: nat) | Offer(id: nat)

  /** Columns written by events, except `updatedAtLedger`. */
  datatype Field =
    | Artist | Owner | Price | Currency | Collection | NftTokenId | Token | Status | Recipients
    | Creator | ReservePrice | HighestBid | HighestBidder | EndTime | ExtensionCount
    | OriginalEndTime | MaxExtensions
    | ParentListing | Offerer | Amount | ExpiresAt | EscrowTxHash | RefundTxHash
    | CreatedAtLedger

  datatype Value = Null | Text(s: string) | Number(n: int)

  type Fields = map<Field, Value>

  datatype Row = Row(fields: Fields, updatedAt: int)

  type Table = map<Key, Row>

  /** `create` is the create branch of an upsert; `update` the columns set on an existing row. */
  datatype Write = Write(guarded: bool, create: Option<Fields>, update: Fields)

  /** What one event does: the rows it writes, all stamped with the event's ledger. */
  datatype Delta = Delta(ledger: int, writes: map<Key, Write>)

  function Get(t: Table, key: Key): Option<Row> {
    if key in t then Some(t[key]) else None
  }

  function At(row: Row, f: Field): Option<Value> {
    if f in row.fields then Some(row.fields[f]) else None
  }

  function ApplyWrite(r: Option<Row>, w: Write, ledger: int): Option<Row> {
    match r
    case None => if w.create.Some? then Some(Row(w.create.value, ledger)) else None
    case Some(row) =>
      if w.guarded && row.updatedAt > ledger then r else Some(Row(row.fields + w.update, ledger))
  }

  function RowStep(r: Option<Row>, d: Delta, key: Key): Option<Row> {
    if key in d.writes then ApplyWrite(r, d.writes[key], d.ledger) else r
  }

  function TableStep(t: Table, d: Delta): Table {
    map key | key in t.Keys + d.writes.Keys && RowStep(Get(t, key), d, key).Some? ::
      RowStep(Get(t, key), d, key).value
  }

  /** Applies `ds[k..m]` to one row. */
  function RowRun(r: Option<Row>, ds: seq<Delta>, key: Key, k: nat, m: nat): Option<Row>
    requires k <= m <= |ds|
    decreases m - k
  {
    if k == m then r else RowStep(RowRun(r, ds, key, k, m - 1), ds[m - 1], key)
  }

  /** Applies `ds[k..m]` to all rows. */
  function TableRun(t: Table, ds: seq<Delta>, k: nat, m: nat): Table
    requires k <= m <= |ds|
    decreases m - k
  {
    if k == m then t else TableStep(TableRun(t, ds, k, m - 1), ds[m - 1])
  }

  /** The tables that live ingestion builds from a log, starting from empty tables. */
  function Fold(ds: seq<Delta>): Table {
    TableRun(map[], ds, 0, |ds|)
  }

  // ---------------------------------------------------------- log conditions

  ghost predicate Sorted(ds: seq<Delta>) {
    forall i, j :: 0 <= i <= j < |ds| ==> ds[i].ledger <= ds[j].ledger
  }

  predicate Writes(ds: seq<Delta>, key: Key, p: int) {
    0 <= p < |ds| && key in ds[p].writes
  }

  predicate Assigns(ds: seq<Delta>, key: Key, p: int, f: Field) {
    Writes(ds, key, p) && f in ds[p].writes[key].update
  }

  ghost predicate Within(a: Fields, b: Fields) {
    forall f :: f in a ==> f in b && b[f] == a[f]
  }

  ghost predicate FirstWrite(ds: seq<Delta>, key: Key, p: int) {
    Writes(ds, key, p) && forall q :: 0 <= q < p ==> !Writes(ds, key, q)
  }

  /** The first write to a row is an upsert, and an upsert's two branches agree. */
  ghost predicate Causal(ds: seq<Delta>) {
    && (forall key, p :: FirstWrite(ds, key, p) ==> ds[p].writes[key].create.Some?)
    && (forall key, p :: Writes(ds, key, p) && ds[p].writes[key].create.Some? ==>
          Within(ds[p].writes[key].update, ds[p].writes[key].create.value))
  }

  // ------------------------------------------------------------- basic facts

  lemma {:induction false} TableRunRow(t: Table, ds: seq<Delta>, k: nat, m: nat, key: Key)
    requires k <= m <= |ds|
    ensures Get(TableRun(t, ds, k, m), key) == RowRun(Get(t, key), ds, key, k, m)
    decreases m - k
  {
    if k < m { TableRunRow(t, ds, k, m - 1, key); }
  }

  lemma {:induction false} RowRunSplit(r: Option<Row>, ds: seq<Delta>, key: Key, k: nat, j: nat, m: nat)
    requires k <= j <= m <= |ds|
    ensures RowRun(r, ds, key, k, m) == RowRun(RowRun(r, ds, key, k, j), ds, key, j, m)
    decreases m - j
  {
    if j < m { RowRunSplit(r, ds, key, k, j, m - 1); }
  }

  lemma {:induction false} TableRunSplit(t: Table, ds: seq<Delta>, k: nat, j: nat, m: nat)
    requires k <= j <= m <= |ds|
    ensures TableRun(t, ds, k, m) == TableRun(TableRun(t, ds, k, j), ds, j, m)
    decreases m - j
  {
    if j < m { TableRunSplit(t, ds, k, j, m - 1); }
  }

  lemma {:induction false} SameRows(t: Table, u: Table)
    requires forall key :: Get(t, key) == Get(u, key)
    ensures t == u
  {
    forall key ensures key in t <==> key in u {
      assert Get(t, key) == Get(u, key);
    }
    forall key | key in t ensures t[key] == u[key] {
      assert Get(t, key) == Get(u, key);
    }
  }

  // ------------------------------------------------- the first run of a log

  /** In the first run every write fires: a row exists from its first write on, never ahead of the log. */
  lemma {:induction false} FirstRun(ds: seq<Delta>, key: Key, m: nat)
    requires Sorted(ds) && Causal(ds) && m <= |ds|
    ensures RowRun(None, ds, key, 0, m).None? <==> forall p :: 0 <= p < m ==> !Writes(ds, key, p)
    ensures RowRun(None, ds, key, 0, m).Some? && m > 0 ==>
              RowRun(None, ds, key, 0, m).value.updatedAt <= ds[m - 1].ledger
  {
    if m > 0 {
      FirstRun(ds, key, m - 1);
      assert m > 1 ==> ds[m - 2].ledger <= ds[m - 1].ledger;
      if Writes(ds, key, m - 1) && RowRun(None, ds, key, 0, m - 1).None? {
        assert FirstWrite(ds, key, m - 1);
      }
    }
  }

  /** One write of the first run: it assigns its columns, keeps the others and stamps the row. */
  lemma {:induction false} FirstRunWrite(ds: seq<Delta>, key: Key, p: nat)
    requires Sorted(ds) && Causal(ds) && Writes(ds, key, p)
    ensures var before, after := RowRun(None, ds, key, 0, p), RowRun(None, ds, key, 0, p + 1);
            && after.Some? && after.value.updatedAt == ds[p].ledger
            && (forall f :: f in ds[p].writes[key].update ==>
                  At(after.value, f) == Some(ds[p].writes[key].update[f]))
            && (before.Some? ==> forall f :: f !in ds[p].writes[key].update ==>
                  At(after.value, f) == At(before.value, f))
  {
    FirstRun(ds, key, p);
    if RowRun(None, ds, key, 0, p).None? {
      assert FirstWrite(ds, key, p);
    } else {
      assert ds[p - 1].ledger <= ds[p].ledger;
    }
  }

  /** Last writer wins: a column of the first run holds what its last assignment wrote. */
  lemma {:induction false} LastWriterWins(ds: seq<Delta>, key: Key, p: nat, f: Field, m: nat)
    requires Sorted(ds) && Causal(ds) && p < m <= |ds|
    requires Assigns(ds, key, p, f)
    requires forall q :: p < q < m ==> !Assigns(ds, key, q, f)
    ensures RowRun(None, ds, key, 0, m).Some?
    ensures At(RowRun(None, ds, key, 0, m).value, f) == Some(ds[p].writes[key].update[f])
  {
    if p == m - 1 {
      FirstRunWrite(ds, key, p);
    } else {
      LastWriterWins(ds, key, p, f, m - 1);
      if Writes(ds, key, m - 1) { FirstRunWrite(ds, key, m - 1); assert !Assigns(ds, key, m - 1, f); }
    }
  }

  /** The stamp of a first-run row is the ledger of its last write. */
  lemma {:induction false} LastStamp(ds: seq<Delta>, key: Key, p: nat, m: nat)
    requires Sorted(ds) && Causal(ds) && p < m <= |ds|
    requires Writes(ds, key, p)
    requires forall q :: p < q < m ==> !Writes(ds, key, q)
    ensures RowRun(None, ds, key, 0, m).Some?
    ensures RowRun(None, ds, key, 0, m).value.updatedAt == ds[p].ledger
  {
    FirstRunWrite(ds, key, p);
    if p < m - 1 { LastStamp(ds, key, p, m - 1); assert !Writes(ds, key, m - 1); }
  }

  // ------------------------------------------- replay over an existing row

  /** Replaying from position `k`, the write at `p` reaches the row, whatever is skipped before. */
  ghost predicate WillFire(row: Row, ds: seq<Delta>, key: Key, k: nat, p: int) {
    && k <= p && Writes(ds, key, p)
    && (row.updatedAt <= ds[p].ledger ||
        exists q :: k <= q <= p && Writes(ds, key, q) && !ds[q].writes[key].guarded)
  }

  /** Some write of the rest of the log will fire. */
  ghost predicate Stirs(row: Row, ds: seq<Delta>, key: Key, k: nat) {
    exists p :: WillFire(row, ds, key, k, p)
  }

  /** Some write of the rest of the log will assign column `f`. */
  ghost predicate Reassigns(row: Row, ds: seq<Delta>, key: Key, k: nat, f: Field) {
    exists p :: Assigns(ds, key, p, f) && WillFire(row, ds, key, k, p)
  }

  /** Every column that differs from the final row is assigned again by a write that will fire. */
  ghost predicate Mends(row: Row, ds: seq<Delta>, key: Key, k: nat, final: Row) {
    && (forall f :: At(row, f) == At(final, f) || Reassigns(row, ds, key, k, f))
    && (row.updatedAt == final.updatedAt || Stirs(row, ds, key, k))
  }

  ghost predicate LastAssigns(ds: seq<Delta>, key: Key, q: int, f: Field) {
    Assigns(ds, key, q, f) && forall i :: q < i < |ds| ==> !Assigns(ds, key, i, f)
  }

  ghost predicate LastWrites(ds: seq<Delta>, key: Key, q: int) {
    Writes(ds, key, q) && forall i :: q < i < |ds| ==> !Writes(ds, key, i)
  }

  /** Last writer wins, as a property of a row: every assigned column and the stamp are the last ones. */
  ghost predicate Settles(ds: seq<Delta>, key: Key, final: Row) {
    && (forall q, f :: LastAssigns(ds, key, q, f) ==> At(final, f) == Some(ds[q].writes[key].update[f]))
    && (forall q :: LastWrites(ds, key, q) ==> final.updatedAt == ds[q].ledger)
  }

  /** The row that a log builds is a last-writer-wins row. */
  lemma {:induction false} FirstRunSettles(ds: seq<Delta>, key: Key, final: Row)
    requires Sorted(ds) && Causal(ds) && RowRun(None, ds, key, 0, |ds|) == Some(final)
    ensures Settles(ds, key, final)
  {
    forall q, f | LastAssigns(ds, key, q, f) ensures At(final, f) == Some(ds[q].writes[key].update[f]) {
      LastWriterWins(ds, key, q, f, |ds|);
    }
    forall q | LastWrites(ds, key, q) ensures final.updatedAt == ds[q].ledger {
      LastStamp(ds, key, q, |ds|);
    }
  }

  /** The last assignment of `f` to the row, given that there is one at `p`. */
  lemma {:induction false} LastAssignment(ds: seq<Delta>, key: Key, p: nat, f: Field) returns (q: nat)
    requires Assigns(ds, key, p, f)
    ensures p <= q && LastAssigns(ds, key, q, f)
    decreases |ds| - p
  {
    q := p;
    if i :| p < i < |ds| && Assigns(ds, key, i, f) { q := LastAssignment(ds, key, i, f); }
  }

  lemma {:induction false} LastWrite(ds: seq<Delta>, key: Key, p: nat) returns (q: nat)
    requires Writes(ds, key, p)
    ensures p <= q && LastWrites(ds, key, q)
    decreases |ds| - p
  {
    q := p;
    if i :| p < i < |ds| && Writes(ds, key, i) { q := LastWrite(ds, key, i); }
  }

  /** A skipped write leaves the row as mendable as before: no later write depended on it. */
  lemma {:induction false} MendsSkip(row: Row, ds: seq<Delta>, key: Key, k: nat, final: Row)
    requires k < |ds|
    requires Writes(ds, key, k) ==> ds[k].writes[key].guarded && row.updatedAt > ds[k].ledger
    ensures Mends(row, ds, key, k, final) <==> Mends(row, ds, key, k + 1, final)
  {
    forall p | WillFire(row, ds, key, k, p) ensures WillFire(row, ds, key, k + 1, p) { }
    if Mends(row, ds, key, k, final) {
      forall f | Reassigns(row, ds, key, k, f) ensures Reassigns(row, ds, key, k + 1, f) { }
    } else if Mends(row, ds, key, k + 1, final) {
      MendsEarlier(row, ds, key, k, k + 1, final);
    }
  }

  /** Once one write of a replay fires, every later one does. */
  lemma {:induction false} FiringLasts(row: Row, ds: seq<Delta>, key: Key, k: nat, p: nat)
    requires Sorted(ds) && Writes(ds, key, k) && Writes(ds, key, p) && k <= p
    requires !ds[k].writes[key].guarded || row.updatedAt <= ds[k].ledger
    ensures WillFire(row, ds, key, k, p)
    ensures k < p ==> WillFire(RowStep(Some(row), ds[k], key).value, ds, key, k + 1, p)
  {
  }

  /** After a firing write the stamp is final or will be set again. */
  lemma {:induction false} FiredStamp(row: Row, ds: seq<Delta>, key: Key, k: nat, final: Row, row': Row)
    requires Sorted(ds) && Settles(ds, key, final)
    requires Writes(ds, key, k) && row' == RowStep(Some(row), ds[k], key).value
    requires !ds[k].writes[key].guarded || row.updatedAt <= ds[k].ledger
    ensures Stirs(row, ds, key, k)
    ensures row'.updatedAt == final.updatedAt || Stirs(row', ds, key, k + 1)
  {
    FiringLasts(row, ds, key, k, k);
    var q := LastWrite(ds, key, k);
    FiringLasts(row, ds, key, k, q);
  }

  /** After a firing write a column is mended or still mendable exactly when it was before. */
  lemma {:induction false} FiredColumn(row: Row, ds: seq<Delta>, key: Key, k: nat, final: Row, f: Field, row': Row)
    requires Sorted(ds) && Settles(ds, key, final)
    requires Writes(ds, key, k) && row' == RowStep(Some(row), ds[k], key).value
    requires !ds[k].writes[key].guarded || row.updatedAt <= ds[k].ledger
    ensures At(row, f) == At(final, f) || Reassigns(row, ds, key, k, f) <==>
            At(row', f) == At(final, f) || Reassigns(row', ds, key, k + 1, f)
  {
    if p :| k <= p && Assigns(ds, key, p, f) {
      AssignedLater(row, ds, key, k, final, f, row', p);
    } else {
      assert !Assigns(ds, key, k, f);
      assert !Reassigns(row, ds, key, k, f) && !Reassigns(row', ds, key, k + 1, f);
    }
  }

  /** A column assigned from here on is final after the firing write, or will be assigned again. */
  lemma {:induction false} AssignedLater(row: Row, ds: seq<Delta>, key: Key, k: nat, final: Row, f: Field, row': Row,
                                         p: nat)
    requires Sorted(ds) && Settles(ds, key, final) && k <= p && Assigns(ds, key, p, f)
    requires Writes(ds, key, k) && row' == RowStep(Some(row), ds[k], key).value
    requires !ds[k].writes[key].guarded || row.updatedAt <= ds[k].ledger
    ensures Reassigns(row, ds, key, k, f) && (At(row', f) == At(final, f) || Reassigns(row', ds, key, k + 1, f))
  {
    var q := LastAssignment(ds, key, p, f);
    FiringLasts(row, ds, key, k, q);
    if k == q { FiringAssigns(row, ds[k], key, f); }
  }

  /** A write that fires puts its value in every column it assigns. */
  lemma {:induction false} FiringAssigns(row: Row, d: Delta, key: Key, f: Field)
    requires key in d.writes && f in d.writes[key].update
    requires !d.writes[key].guarded || row.updatedAt <= d.ledger
    ensures At(RowStep(Some(row), d, key).value, f) == Some(d.writes[key].update[f])
  {
  }

  /** Mendability is exactly what one step of a replay keeps. */
  lemma {:induction false} MendsStep(row: Row, ds: seq<Delta>, key: Key, k: nat, final: Row)
    requires Sorted(ds) && Settles(ds, key, final) && k < |ds|
    ensures RowStep(Some(row), ds[k], key).Some?
    ensures Mends(row, ds, key, k, final) <==>
            Mends(RowStep(Some(row), ds[k], key).value, ds, key, k + 1, final)
  {
    if Writes(ds, key, k) && (!ds[k].writes[key].guarded || row.updatedAt <= ds[k].ledger) {
      var row' := RowStep(Some(row), ds[k], key).value;
      FiredStamp(row, ds, key, k, final, row');
      forall f
        ensures At(row, f) == At(final, f) || Reassigns(row, ds, key, k, f) <==>
                At(row', f) == At(final, f) || Reassigns(row', ds, key, k + 1, f)
      {
        FiredColumn(row, ds, key, k, final, f, row');
      }
    } else {
      MendsSkip(row, ds, key, k, final);
    }
  }

  lemma {:induction false} MendsRun(row: Row, ds: seq<Delta>, key: Key, k: nat, m: nat, final: Row)
    requires Sorted(ds) && Settles(ds, key, final) && k <= m <= |ds|
    ensures RowRun(Some(row), ds, key, k, m).Some?
    ensures Mends(row, ds, key, k, final) <==>
            Mends(RowRun(Some(row), ds, key, k, m).value, ds, key, m, final)
    decreases m - k
  {
    if k < m {
      MendsRun(row, ds, key, k, m - 1, final);
      MendsLast(RowRun(Some(row), ds, key, k, m - 1).value, RowRun(Some(row), ds, key, k, m), ds, key, m, final);
    }
  }

  lemma {:induction false} MendsLast(before: Row, after: Option<Row>, ds: seq<Delta>, key: Key, m: nat, final: Row)
    requires Sorted(ds) && Settles(ds, key, final) && 0 < m <= |ds| && after == RowStep(Some(before), ds[m - 1], key)
    ensures after.Some? && (Mends(before, ds, key, m - 1, final) <==> Mends(after.value, ds, key, m, final))
  {
    MendsStep(before, ds, key, m - 1, final);
  }

  lemma {:induction false} SameColumns(row: Row, other: Row)
    requires forall f :: At(row, f) == At(other, f)
    ensures row.fields == other.fields
  {
    forall f ensures f in row.fields <==> f in other.fields { assert At(row, f) == At(other, f); }
    forall f | f in row.fields ensures row.fields[f] == other.fields[f] { assert At(row, f) == At(other, f); }
  }

  lemma {:induction false} MendedAtEnd(row: Row, ds: seq<Delta>, key: Key, final: Row)
    ensures Mends(row, ds, key, |ds|, final) <==> row == final
  {
    if Mends(row, ds, key, |ds|, final) { SameColumns(row, final); }
  }

  /**
    The replay theorem for one row.  Replaying the log from position `k` over an
    arbitrary row ends in a given last-writer-wins row (such as the row the log itself
    builds) if and only if every column that differs is assigned again by a write whose
    guard will not stop it.
  */
  lemma {:induction false} ReplayMendsExactly(row: Row, ds: seq<Delta>, key: Key, k: nat, final: Row)
    requires Sorted(ds) && Settles(ds, key, final) && k <= |ds|
    ensures RowRun(Some(row), ds, key, k, |ds|) == Some(final) <==> Mends(row, ds, key, k, final)
  {
    MendsRun(row, ds, key, k, |ds|, final);
    MendedAtEnd(RowRun(Some(row), ds, key, k, |ds|).value, ds, key, final);
  }

  /** A replay may be resumed further back: what a later position mends, an earlier one does too. */
  lemma {:induction false} MendsEarlier(row: Row, ds: seq<Delta>, key: Key, j: nat, k: nat, final: Row)
    requires j <= k && Mends(row, ds, key, k, final)
    ensures Mends(row, ds, key, j, final)
  {
    forall p | WillFire(row, ds, key, k, p) ensures WillFire(row, ds, key, j, p) { }
    forall f | Reassigns(row, ds, key, k, f) ensures Reassigns(row, ds, key, j, f) { }
  }
}
