/**
  Replaying a log over whole tables: interrupted and resumed replays, repeated
  batches, replays that cover only some columns, and the exact effect of a replay
  on a single column.
*/
module Replay {
  import opened Wrappers
  import opened Rows

  // -------------------------------------------------------- whole tables

  /** Row by row: absent and still to be created, or mendable by the log from position `k` on. */
  ghost predicate RowMends(r: Option<Row>, ds: seq<Delta>, key: Key, k: nat) {
    match (r, RowRun(None, ds, key, 0, |ds|))
    case (None, _) => forall p :: 0 <= p < k ==> !Writes(ds, key, p)
    case (Some(_), None) => false
    case (Some(row), Some(final)) => Mends(row, ds, key, k, final)
  }

  ghost predicate TableMends(t: Table, ds: seq<Delta>, k: nat) {
    forall key :: RowMends(Get(t, key), ds, key, k)
  }

  lemma {:induction false} RowMendsRun(r: Option<Row>, ds: seq<Delta>, key: Key, k: nat, m: nat)
    requires Sorted(ds) && Causal(ds) && k <= m <= |ds| && RowMends(r, ds, key, k)
    ensures RowMends(RowRun(r, ds, key, k, m), ds, key, m)
    decreases m - k
  {
    if k < m {
      RowMendsRun(r, ds, key, k, m - 1);
      RowMendsStep(RowRun(r, ds, key, k, m - 1), ds, key, m - 1);
    }
  }

  lemma {:induction false} RowMendsStep(r: Option<Row>, ds: seq<Delta>, key: Key, k: nat)
    requires Sorted(ds) && Causal(ds) && k < |ds| && RowMends(r, ds, key, k)
    ensures RowMends(RowStep(r, ds[k], key), ds, key, k + 1)
  {
    FirstRun(ds, key, |ds|);
    if r.Some? {
      FirstRunSettles(ds, key, RowRun(None, ds, key, 0, |ds|).value);
      MendsStep(r.value, ds, key, k, RowRun(None, ds, key, 0, |ds|).value);
    } else if Writes(ds, key, k) {
      assert FirstWrite(ds, key, k);
      FirstRun(ds, key, k);
      PrefixMends(ds, key, k + 1);
    }
  }

  /** A row as the first run leaves it half-way is mendable from there on. */
  lemma {:induction false} PrefixMends(ds: seq<Delta>, key: Key, k: nat)
    requires Sorted(ds) && Causal(ds) && k <= |ds|
    ensures RowMends(RowRun(None, ds, key, 0, k), ds, key, k)
  {
    FirstRun(ds, key, k);
    FirstRun(ds, key, |ds|);
    var r := RowRun(None, ds, key, 0, k);
    if r.Some? {
      var final := RowRun(None, ds, key, 0, |ds|).value;
      RowRunSplit(None, ds, key, 0, k, |ds|);
      FirstRunSettles(ds, key, final);
      ReplayMendsExactly(r.value, ds, key, k, final);
    }
  }

  lemma {:induction false} TableMendsRun(t: Table, ds: seq<Delta>, k: nat, m: nat)
    requires Sorted(ds) && Causal(ds) && k <= m <= |ds| && TableMends(t, ds, k)
    ensures TableMends(TableRun(t, ds, k, m), ds, m)
  {
    forall key ensures RowMends(Get(TableRun(t, ds, k, m), key), ds, key, m) {
      TableRunRow(t, ds, k, m, key);
      RowMendsRun(Get(t, key), ds, key, k, m);
    }
  }

  lemma {:induction false} TableMendsEarlier(t: Table, ds: seq<Delta>, j: nat, k: nat)
    requires j <= k && TableMends(t, ds, k)
    ensures TableMends(t, ds, j)
  {
    forall key ensures RowMends(Get(t, key), ds, key, j) {
      assert RowMends(Get(t, key), ds, key, k);
      if key in t {
        MendsEarlier(t[key], ds, key, j, k, RowRun(None, ds, key, 0, |ds|).value);
      }
    }
  }

  /** At the end of the log, mendable means equal to the live tables. */
  lemma {:induction false} MendedTable(t: Table, ds: seq<Delta>)
    requires Sorted(ds) && Causal(ds)
    ensures TableMends(t, ds, |ds|) <==> t == Fold(ds)
  {
    forall key ensures RowMends(Get(t, key), ds, key, |ds|) <==> Get(t, key) == Get(Fold(ds), key) {
      TableRunRow(map[], ds, 0, |ds|, key);
      FirstRun(ds, key, |ds|);
      if key in t && key in Fold(ds) { MendedAtEnd(t[key], ds, key, Fold(ds)[key]); }
    }
    if TableMends(t, ds, |ds|) { SameRows(t, Fold(ds)); }
  }

  // ---------------------------------------- interrupted and resumed replays

  /** One run of a replay: it applied positions `from` up to `to` before it stopped. */
  datatype Pass = Pass(from: nat, to: nat)

  /** Each pass starts no later than where some earlier work ended: a checkpoint never runs ahead. */
  ghost predicate Resumable(passes: seq<Pass>, start: nat, length: nat) {
    if |passes| == 0 then start == length
    else passes[0].from <= start && passes[0].from <= passes[0].to <= length &&
         Resumable(passes[1..], passes[0].to, length)
  }

  function RunPasses(t: Table, ds: seq<Delta>, passes: seq<Pass>): Table
    requires forall i :: 0 <= i < |passes| ==> passes[i].from <= passes[i].to <= |ds|
    decreases |passes|
  {
    if |passes| == 0 then t
    else RunPasses(TableRun(t, ds, passes[0].from, passes[0].to), ds, passes[1..])
  }

  /** However a replay is cut and resumed, it ends in the live tables of the log. */
  lemma {:induction false} ResumedReplay(t: Table, ds: seq<Delta>, passes: seq<Pass>, start: nat)
    requires Sorted(ds) && Causal(ds)
    requires forall i :: 0 <= i < |passes| ==> passes[i].from <= passes[i].to <= |ds|
    requires start <= |ds| && TableMends(t, ds, start) && Resumable(passes, start, |ds|)
    ensures RunPasses(t, ds, passes) == Fold(ds)
    decreases |passes|
  {
    if |passes| == 0 {
      MendedTable(t, ds);
    } else {
      var pass := passes[0];
      TableMendsEarlier(t, ds, pass.from, start);
      TableMendsRun(t, ds, pass.from, pass.to);
      ResumedReplay(TableRun(t, ds, pass.from, pass.to), ds, passes[1..], pass.to);
    }
  }

  lemma {:induction false} FoldMends(ds: seq<Delta>, k: nat)
    requires Sorted(ds) && Causal(ds) && k <= |ds|
    ensures TableMends(Fold(ds), ds, k)
  {
    MendedTable(Fold(ds), ds);
    TableMendsEarlier(Fold(ds), ds, k, |ds|);
  }

  // ------------------------------------------ one column of one replay

  lemma {:induction false} SkipSame(row: Row, ds: seq<Delta>, key: Key, k: nat, f: Field)
    requires k < |ds|
    requires Writes(ds, key, k) ==> ds[k].writes[key].guarded && row.updatedAt > ds[k].ledger
    ensures Stirs(row, ds, key, k) <==> Stirs(row, ds, key, k + 1)
    ensures Reassigns(row, ds, key, k, f) <==> Reassigns(row, ds, key, k + 1, f)
  {
    forall p | WillFire(row, ds, key, k, p) ensures WillFire(row, ds, key, k + 1, p) { }
    forall p | WillFire(row, ds, key, k + 1, p) ensures WillFire(row, ds, key, k, p) { }
    if Stirs(row, ds, key, k) {
      var p :| WillFire(row, ds, key, k, p);
      assert WillFire(row, ds, key, k + 1, p);
    }
    if Stirs(row, ds, key, k + 1) {
      var p :| WillFire(row, ds, key, k + 1, p);
      assert WillFire(row, ds, key, k, p);
    }
  }

  lemma {:induction false} RunFirst(row: Row, ds: seq<Delta>, key: Key, k: nat)
    requires k < |ds|
    ensures RowStep(Some(row), ds[k], key).Some?
    ensures RowRun(Some(row), ds, key, k, |ds|) == RowRun(RowStep(Some(row), ds[k], key), ds, key, k + 1, |ds|)
  {
    RowRunSplit(Some(row), ds, key, k, k + 1, |ds|);
    assert RowRun(Some(row), ds, key, k, k + 1) == RowStep(RowRun(Some(row), ds, key, k, k), ds[k], key);
  }

  /**
    What a replay from position `k` does to one column of an arbitrary row: the last
    assignment of the log if any assignment gets past its guard, nothing otherwise.
  */
  lemma {:induction false} ReplayColumn(row: Row, ds: seq<Delta>, key: Key, k: nat, f: Field)
    requires Sorted(ds) && k <= |ds|
    ensures RowRun(Some(row), ds, key, k, |ds|).Some?
    ensures var after := RowRun(Some(row), ds, key, k, |ds|).value;
            && (!Reassigns(row, ds, key, k, f) ==> At(after, f) == At(row, f))
            && (Reassigns(row, ds, key, k, f) ==> forall q :: LastAssigns(ds, key, q, f) ==>
                  At(after, f) == Some(ds[q].writes[key].update[f]))
    decreases |ds| - k
  {
    if k < |ds| {
      RunFirst(row, ds, key, k);
      var row' := RowStep(Some(row), ds[k], key).value;
      ReplayColumn(row', ds, key, k + 1, f);
      if Writes(ds, key, k) && (!ds[k].writes[key].guarded || row.updatedAt <= ds[k].ledger) {
        FiredReassigns(row, ds, key, k, f, row');
      } else {
        SkipSame(row, ds, key, k, f);
      }
    }
  }

  lemma {:induction false} FiredReassigns(row: Row, ds: seq<Delta>, key: Key, k: nat, f: Field, row': Row)
    requires Sorted(ds) && Writes(ds, key, k) && row' == RowStep(Some(row), ds[k], key).value
    requires !ds[k].writes[key].guarded || row.updatedAt <= ds[k].ledger
    ensures Reassigns(row, ds, key, k, f) <==> Assigns(ds, key, k, f) || Reassigns(row', ds, key, k + 1, f)
    ensures !Reassigns(row', ds, key, k + 1, f) && Assigns(ds, key, k, f) ==> LastAssigns(ds, key, k, f)
  {
    forall p | k <= p && Writes(ds, key, p)
      ensures WillFire(row, ds, key, k, p) && (k < p ==> WillFire(row', ds, key, k + 1, p))
    {
      FiringLasts(row, ds, key, k, p);
    }
  }

  lemma {:induction false} ReplayStamp(row: Row, ds: seq<Delta>, key: Key, k: nat)
    requires Sorted(ds) && k <= |ds|
    ensures RowRun(Some(row), ds, key, k, |ds|).Some?
    ensures var after := RowRun(Some(row), ds, key, k, |ds|).value;
            && (!Stirs(row, ds, key, k) ==> after.updatedAt == row.updatedAt)
            && (Stirs(row, ds, key, k) ==> forall q :: LastWrites(ds, key, q) ==>
                  after.updatedAt == ds[q].ledger)
    decreases |ds| - k
  {
    if k < |ds| {
      RunFirst(row, ds, key, k);
      var row' := RowStep(Some(row), ds[k], key).value;
      ReplayStamp(row', ds, key, k + 1);
      if Writes(ds, key, k) && (!ds[k].writes[key].guarded || row.updatedAt <= ds[k].ledger) {
        FiringLasts(row, ds, key, k, k);
        forall p | k < p && Writes(ds, key, p) ensures WillFire(row', ds, key, k + 1, p) {
          FiringLasts(row, ds, key, k, p);
        }
      } else {
        SkipSame(row, ds, key, k, Status);
      }
    }
  }

  // ------------------------------------------------- a batch applied twice

  /** Rows the batch writes are not ahead of it, and missing rows are created first. */
  ghost predicate RowFits(r: Option<Row>, ds: seq<Delta>, key: Key) {
    && (r.Some? ==> forall p :: Writes(ds, key, p) ==> r.value.updatedAt <= ds[p].ledger)
    && (r.None? ==> forall p :: FirstWrite(ds, key, p) ==> ds[p].writes[key].create.Some?)
    && (forall p :: Writes(ds, key, p) && ds[p].writes[key].create.Some? ==>
          Within(ds[p].writes[key].update, ds[p].writes[key].create.value))
  }

  ghost predicate BatchFits(t: Table, ds: seq<Delta>) {
    forall key :: RowFits(Get(t, key), ds, key)
  }

  lemma {:induction false} TwiceExisting(row: Row, ds: seq<Delta>, key: Key)
    requires Sorted(ds) && RowFits(Some(row), ds, key)
    ensures var once := RowRun(Some(row), ds, key, 0, |ds|);
            RowRun(once, ds, key, 0, |ds|) == once
  {
    ReplayStamp(row, ds, key, 0);
    var once := RowRun(Some(row), ds, key, 0, |ds|).value;
    ReplayStamp(once, ds, key, 0);
    var twice := RowRun(Some(once), ds, key, 0, |ds|).value;
    forall f ensures At(twice, f) == At(once, f) {
      ReplayColumn(row, ds, key, 0, f);
      ReplayColumn(once, ds, key, 0, f);
      if Reassigns(once, ds, key, 0, f) {
        var p :| Assigns(ds, key, p, f) && WillFire(once, ds, key, 0, p);
        assert WillFire(row, ds, key, 0, p);
        var q := LastAssignment(ds, key, p, f);
      }
    }
    SameColumns(twice, once);
    if Stirs(once, ds, key, 0) {
      var p :| WillFire(once, ds, key, 0, p);
      assert WillFire(row, ds, key, 0, p);
      var q := LastWrite(ds, key, p);
    }
  }

  /** A row that the batch creates: the batch acts on the created row as it acts on no row. */
  lemma {:induction false} CreatedRow(ds: seq<Delta>, key: Key, p: nat, m: nat)
    requires Sorted(ds) && RowFits(None, ds, key) && FirstWrite(ds, key, p) && p < m <= |ds|
    ensures var row := Row(ds[p].writes[key].create.value, ds[p].ledger);
            RowRun(None, ds, key, 0, m) == RowRun(Some(row), ds, key, 0, m)
    ensures RowFits(Some(Row(ds[p].writes[key].create.value, ds[p].ledger)), ds, key)
  {
    var row := Row(ds[p].writes[key].create.value, ds[p].ledger);
    forall q | Writes(ds, key, q) ensures row.updatedAt <= ds[q].ledger { assert p <= q; }
    if m == p + 1 {
      Untouched(None, ds, key, p);
      Untouched(Some(row), ds, key, p);
      assert row.fields + ds[p].writes[key].update == row.fields;
    } else {
      CreatedRow(ds, key, p, m - 1);
    }
  }

  lemma {:induction false} Untouched(r: Option<Row>, ds: seq<Delta>, key: Key, m: nat)
    requires m <= |ds| && forall q :: 0 <= q < m ==> !Writes(ds, key, q)
    ensures RowRun(r, ds, key, 0, m) == r
  {
    if m > 0 { Untouched(r, ds, key, m - 1); assert !Writes(ds, key, m - 1); }
  }

  /** Applying a fitting batch a second time changes nothing, guards or no guards. */
  lemma {:induction false} BatchTwice(t: Table, ds: seq<Delta>)
    requires Sorted(ds) && BatchFits(t, ds)
    ensures var once := TableRun(t, ds, 0, |ds|);
            TableRun(once, ds, 0, |ds|) == once
  {
    var once := TableRun(t, ds, 0, |ds|);
    forall key ensures Get(TableRun(once, ds, 0, |ds|), key) == Get(once, key) {
      TableRunRow(t, ds, 0, |ds|, key);
      TableRunRow(once, ds, 0, |ds|, key);
      assert RowFits(Get(t, key), ds, key);
      if key in t {
        TwiceExisting(t[key], ds, key);
      } else if p :| FirstWrite(ds, key, p) {
        CreatedRow(ds, key, p, |ds|);
        TwiceExisting(Row(ds[p].writes[key].create.value, ds[p].ledger), ds, key);
      } else {
        NoFirstWrite(ds, key);
        Untouched(None, ds, key, |ds|);
      }
    }
    SameRows(TableRun(once, ds, 0, |ds|), once);
  }

  lemma {:induction false} NoFirstWrite(ds: seq<Delta>, key: Key)
    requires forall p :: !FirstWrite(ds, key, p)
    ensures forall p :: !Writes(ds, key, p)
  {
    if p :| Writes(ds, key, p) { FirstOf(ds, key, p); }
  }

  lemma {:induction false} FirstOf(ds: seq<Delta>, key: Key, p: nat)
    requires Writes(ds, key, p)
    ensures exists q :: FirstWrite(ds, key, q)
  {
    if q :| 0 <= q < p && Writes(ds, key, q) { FirstOf(ds, key, q); } else { assert FirstWrite(ds, key, p); }
  }

  // --------------------------------------------- replays of some columns

  function MaskRow(row: Row, hidden: set<Field>): Row {
    Row(row.fields - hidden, row.updatedAt)
  }

  function MaskOption(r: Option<Row>, hidden: set<Field>): Option<Row> {
    if r.None? then None else Some(MaskRow(r.value, hidden))
  }

  function MaskTable(t: Table, hidden: set<Field>): Table {
    map key | key in t :: MaskRow(t[key], hidden)
  }

  function MaskWrite(w: Write, hidden: set<Field>): Write {
    Write(w.guarded, if w.create.None? then None else Some(w.create.value - hidden), w.update - hidden)
  }

  function MaskDelta(d: Delta, hidden: set<Field>): Delta {
    Delta(d.ledger, map key | key in d.writes :: MaskWrite(d.writes[key], hidden))
  }

  function Mask(ds: seq<Delta>, hidden: set<Field>): seq<Delta> {
    seq(|ds|, i requires 0 <= i < |ds| => MaskDelta(ds[i], hidden))
  }

  /** Guards look at the stamp only, so hiding columns commutes with applying writes. */
  lemma {:induction false} MaskStep(r: Option<Row>, d: Delta, key: Key, hidden: set<Field>)
    ensures MaskOption(RowStep(r, d, key), hidden) == RowStep(MaskOption(r, hidden), MaskDelta(d, hidden), key)
  {
    if key in d.writes && r.Some? {
      var u, v := r.value.fields, d.writes[key].update;
      assert (u + v) - hidden == (u - hidden) + (v - hidden);
    }
  }

  lemma {:induction false} MaskRowRun(r: Option<Row>, ds: seq<Delta>, key: Key, k: nat, m: nat, hidden: set<Field>)
    requires k <= m <= |ds|
    ensures MaskOption(RowRun(r, ds, key, k, m), hidden)
         == RowRun(MaskOption(r, hidden), Mask(ds, hidden), key, k, m)
    decreases m - k
  {
    if k < m {
      MaskRowRun(r, ds, key, k, m - 1, hidden);
      MaskStep(RowRun(r, ds, key, k, m - 1), ds[m - 1], key, hidden);
    }
  }

  lemma {:induction false} MaskRun(t: Table, ds: seq<Delta>, k: nat, m: nat, hidden: set<Field>)
    requires k <= m <= |ds|
    ensures MaskTable(TableRun(t, ds, k, m), hidden) == TableRun(MaskTable(t, hidden), Mask(ds, hidden), k, m)
  {
    var left, right := MaskTable(TableRun(t, ds, k, m), hidden), TableRun(MaskTable(t, hidden), Mask(ds, hidden), k, m);
    forall key ensures Get(left, key) == Get(right, key) {
      TableRunRow(t, ds, k, m, key);
      TableRunRow(MaskTable(t, hidden), Mask(ds, hidden), k, m, key);
      MaskRowRun(Get(t, key), ds, key, k, m, hidden);
    }
    SameRows(left, right);
  }

  lemma {:induction false} MaskKeepsOrder(ds: seq<Delta>, hidden: set<Field>)
    ensures Sorted(ds) ==> Sorted(Mask(ds, hidden))
    ensures Causal(ds) ==> Causal(Mask(ds, hidden))
  {
    var ms := Mask(ds, hidden);
    forall key, p ensures Writes(ds, key, p) <==> Writes(ms, key, p) { }
    if Causal(ds) {
      forall key, p | FirstWrite(ms, key, p) ensures ms[p].writes[key].create.Some? {
        forall q | 0 <= q < p ensures !Writes(ds, key, q) { assert !Writes(ms, key, q); }
        assert FirstWrite(ds, key, p);
      }
      forall key, p | Writes(ms, key, p) && ms[p].writes[key].create.Some?
        ensures Within(ms[p].writes[key].update, ms[p].writes[key].create.value)
      {
        assert Writes(ds, key, p);
        assert Within(ds[p].writes[key].update, ds[p].writes[key].create.value);
      }
    }
  }
}
