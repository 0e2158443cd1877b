/** From ingested windows to live tables to a rebuild of them, end to end. */
module Pipeline {
  import opened Wrappers
  import opened Rows
  import opened Replay
  import opened Marketplace
  import opened EventStore
  import opened Rebuild
  import opened RebuildLive

  // ------------------------------------------------- a rebuild with interruptions

  /** Where the work stood when pass `i` began. */
  function Reached(passes: seq<Pass>, i: nat, start: nat): nat
    requires i <= |passes|
  {
    if i == 0 then start else passes[i - 1].to
  }

  /** Each pass starts no later than where the one before it ended. */
  ghost predicate Chained(passes: seq<Pass>, start: nat, length: nat) {
    forall i :: 0 <= i < |passes| ==> passes[i].from <= passes[i].to <= length && passes[i].from <= Reached(passes, i, start)
  }

  function EndOf(passes: seq<Pass>, start: nat): nat { Reached(passes, |passes|, start) }

  lemma {:induction false} ChainedResumes(passes: seq<Pass>, start: nat, length: nat)
    requires Chained(passes, start, length) && EndOf(passes, start) == length
    ensures Resumable(passes, start, length)
    decreases |passes|
  {
    if |passes| > 0 {
      assert passes[0].from <= Reached(passes, 0, start);
      var rest := passes[1..];
      forall i | 0 <= i < |rest| ensures rest[i].from <= rest[i].to <= length && rest[i].from <= Reached(rest, i, passes[0].to) {
        assert passes[i + 1].from <= Reached(passes, i + 1, start);
      }
      ChainedResumes(passes[1..], passes[0].to, length);
    }
  }

  lemma {:induction false} OneMorePass(t: Table, ds: seq<Delta>, passes: seq<Pass>, pass: Pass)
    requires forall i :: 0 <= i < |passes| ==> passes[i].from <= passes[i].to <= |ds|
    requires pass.from <= pass.to <= |ds|
    ensures RunPasses(t, ds, passes + [pass]) == TableRun(RunPasses(t, ds, passes), ds, pass.from, pass.to)
    decreases |passes|
  {
    if |passes| > 0 {
      assert (passes + [pass])[1..] == passes[1..] + [pass];
      OneMorePass(TableRun(t, ds, passes[0].from, passes[0].to), ds, passes[1..], pass);
    }
  }

  /** The runs so far: their passes chain up, the rows are theirs, and every queried event up to the checkpoint is counted. */
  ghost predicate RebuiltTo(log: seq<Event>, t: Table, passes: seq<Pass>, resume: nat, counted: int) {
    && Chained(passes, 0, |log|) && resume <= EndOf(passes, 0)
    && t == RunPasses(LiveTables(log), RebuildDeltas(log), passes)
    && KeysKept(t, RebuildDeltas(log), resume)
    && counted == CountRebuilt(log, 0, resume)
  }

  lemma {:induction false} AnotherRun(log: seq<Event>, t: Table, passes: seq<Pass>, resume: nat, counted: int,
                                      t': Table, pass: Pass, resume': nat, more: int)
    requires RebuiltTo(log, t, passes, resume, counted) && pass.from == resume && Tracks(t, t', log, pass, resume', more)
    ensures RebuiltTo(log, t', passes + [pass], resume', counted + more)
  {
    OneMorePass(LiveTables(log), RebuildDeltas(log), passes, pass);
    CountSplit(log, 0, resume, resume');
    var all := passes + [pass];
    forall i | 0 <= i < |all| ensures all[i].from <= all[i].to <= |log| && all[i].from <= Reached(all, i, 0) {
      if i < |passes| { assert passes[i].from <= Reached(passes, i, 0); }
    }
  }

  /**
    A full rebuild of the live tables, interrupted after any numbers of durable actions and
    resumed each time.  Once it completes, every queried event has been counted once, the tables
    are those the queried events build, and they are the live tables (transaction hashes aside)
    if and only if no reserve update was lost.  If also no known hash can be erased, they are the
    live tables with every column.
  */
  method RebuildWithInterruptions(job: RebuildJob, p: Projections, log: seq<Event>, ledgerFrom: int, ledgerTo: int,
                                  batchSize: int, stops: seq<nat>)
    requires ValidLog(log) && batchSize >= 1 && 0 <= ledgerFrom
    requires forall i :: 0 <= i < |log| ==> ledgerFrom <= log[i].ledger <= ledgerTo
    requires job.checkpointLedger == 0 && job.processedEvents == 0 && !job.complete && p.rows == LiveTables(log)
    modifies job, p
    ensures job.complete ==> MaskTable(p.rows, TX_COLUMNS) == MaskTable(Fold(RebuildDeltas(log)), TX_COLUMNS)
    ensures job.complete ==>
              (MaskTable(p.rows, TX_COLUMNS) == MaskTable(LiveTables(log), TX_COLUMNS)
          <==> forall id :: ReserveKept(log, id))
    ensures job.complete && Rebuildable(log) ==> p.rows == LiveTables(log)
    ensures job.complete ==> job.processedEvents == CountRebuilt(log, 0, |log|)
    ensures |stops| > 0 && stops[|stops| - 1] >= 2 * (ledgerTo + 1) ==> job.complete
  {
    ghost var passes := ResumeAll(job, p, log, ledgerFrom, ledgerTo, batchSize, stops);
    if job.complete {
      Completed(log, p.rows, passes, Resume(log, job.checkpointLedger, ledgerFrom), job.processedEvents);
    }
  }

  /** The runs of the job, until it is complete or there are no more. */
  method ResumeAll(job: RebuildJob, p: Projections, log: seq<Event>, ledgerFrom: int, ledgerTo: int, batchSize: int,
                   stops: seq<nat>)
    returns (ghost passes: seq<Pass>)
    requires ValidLog(log) && batchSize >= 1 && 0 <= ledgerFrom
    requires forall i :: 0 <= i < |log| ==> ledgerFrom <= log[i].ledger <= ledgerTo
    requires job.checkpointLedger == 0 && job.processedEvents == 0 && !job.complete && p.rows == LiveTables(log)
    modifies job, p
    ensures RebuiltTo(log, p.rows, passes, Resume(log, job.checkpointLedger, ledgerFrom), job.processedEvents)
    ensures job.complete ==>
              EndOf(passes, 0) == |log| && CountRebuilt(log, Resume(log, job.checkpointLedger, ledgerFrom), |log|) == 0
    ensures |stops| > 0 && stops[|stops| - 1] >= 2 * (ledgerTo + 1) ==> job.complete
  {
    passes := [];
    PosNone(log, ledgerFrom);
    var k := 0;
    while k < |stops| && !job.complete
      invariant 0 <= k <= |stops|
      invariant RebuiltTo(log, p.rows, passes, Resume(log, job.checkpointLedger, ledgerFrom), job.processedEvents)
      invariant job.complete ==> EndOf(passes, 0) == |log| && CountRebuilt(log, Resume(log, job.checkpointLedger, ledgerFrom), |log|) == 0
      invariant k == |stops| > 0 && stops[k - 1] >= 2 * (ledgerTo + 1) ==> job.complete
    {
      passes := RunAgain(job, p, log, ledgerFrom, ledgerTo, batchSize, stops[k], passes);
      k := k + 1;
    }
  }

  /** One run of the job, stopped after `stop` durable actions. */
  method RunAgain(job: RebuildJob, p: Projections, log: seq<Event>, ledgerFrom: int, ledgerTo: int, batchSize: int,
                  stop: nat, ghost passes: seq<Pass>)
    returns (ghost more: seq<Pass>)
    requires ValidLog(log) && batchSize >= 1 && 0 <= ledgerFrom && !job.complete
    requires forall i :: 0 <= i < |log| ==> ledgerFrom <= log[i].ledger <= ledgerTo
    requires RebuiltTo(log, p.rows, passes, Resume(log, job.checkpointLedger, ledgerFrom), job.processedEvents)
    modifies job, p
    ensures RebuiltTo(log, p.rows, more, Resume(log, job.checkpointLedger, ledgerFrom), job.processedEvents)
    ensures job.complete ==>
              EndOf(more, 0) == |log| && CountRebuilt(log, Resume(log, job.checkpointLedger, ledgerFrom), |log|) == 0
    ensures stop >= 2 * (ledgerTo + 1) ==> job.complete
  {
    ghost var t, resume, counted := p.rows, Resume(log, job.checkpointLedger, ledgerFrom), job.processedEvents;
    ghost var start := Start(job.checkpointLedger, ledgerFrom);
    if 0 <= start <= ledgerTo + 1 { TurnsBound(start, ledgerTo, batchSize); }
    ghost var pass := RunRebuild(job, p, log, ledgerFrom, ledgerTo, batchSize, stop);
    AnotherRun(log, t, passes, resume, counted, p.rows, pass,
               Resume(log, job.checkpointLedger, ledgerFrom), job.processedEvents - counted);
    more := passes + [pass];
  }

  lemma {:induction false} Completed(log: seq<Event>, t: Table, passes: seq<Pass>, resume: nat, counted: int)
    requires ValidLog(log) && RebuiltTo(log, t, passes, resume, counted)
    requires EndOf(passes, 0) == |log| && CountRebuilt(log, resume, |log|) == 0
    ensures MaskTable(t, TX_COLUMNS) == MaskTable(Fold(RebuildDeltas(log)), TX_COLUMNS)
    ensures MaskTable(t, TX_COLUMNS) == MaskTable(LiveTables(log), TX_COLUMNS) <==> forall id :: ReserveKept(log, id)
    ensures Rebuildable(log) ==> t == LiveTables(log)
    ensures counted == CountRebuilt(log, 0, |log|)
  {
    ChainedResumes(passes, 0, |log|);
    RebuildEnds(log, passes);
    RebuildKeepsLive(log, passes);
    if Rebuildable(log) { RebuildableKept(log, passes); }
    CountSplit(log, 0, resume, |log|);
  }

  // --------------------------------------------------------- live processing

  function Events(entries: seq<Entry>): seq<Event> {
    seq(|entries|, i requires 0 <= i < |entries| => entries[i].event)
  }

  /** Tables built from a causally ordered log hold every row the log has written. */
  lemma {:induction false} LiveKeys(log: seq<Event>, k: nat)
    requires ValidLog(log) && k <= |log|
    ensures KeysKept(TableRun(map[], Deltas(log), 0, k), Deltas(log), k)
  {
    var ds := Deltas(log);
    LiveCausal(log);
    forall key, p | 0 <= p < k && Writes(ds, key, p) ensures key in TableRun(map[], ds, 0, k) {
      FirstOf(ds, key, p);
      FirstRun(ds, key, k);
      TableRunRow(map[], ds, 0, k, key);
    }
  }

  /** Live processing of a causally ordered log stages nothing and throws nothing. */
  lemma {:induction false} LiveNeverBlocked(log: seq<Event>, k: nat, t: Table)
    requires ValidLog(log) && k < |log| && KeysKept(t, Deltas(log), k)
    ensures !Blocked(t, log[k])
  {
    var ds, e := Deltas(log), log[k];
    if Active(e) {
      if e.body.OfferMade? {
        assert Offer(e.body.offerId) in EventWrites(e);
        assert OfferAfterListing(log, k);
      } else if Terminal(e.body) {
        var o := Offer(e.body.offerId);
        assert Writes(ds, o, k) && ds[k].writes[o].create.None?;
        assert !FirstWrite(ds, o, k);
      }
    }
  }

  lemma {:induction false} AppliedIsLive(entries: seq<Entry>, k: nat)
    requires ValidLog(Events(entries)) && k <= |entries|
    ensures ApplyAll(map[], entries[..k]) == TableRun(map[], Deltas(Events(entries)), 0, k)
  {
    if k > 0 {
      var log := Events(entries);
      AppliedIsLive(entries, k - 1);
      LiveKeys(log, k - 1);
      LiveNeverBlocked(log, k - 1, TableRun(map[], Deltas(log), 0, k - 1));
      assert entries[..k] == entries[..k - 1] + [entries[k - 1]];
      ApplySnoc(map[], entries[..k - 1], entries[k - 1], TableRun(map[], Deltas(log), 0, k - 1));
    }
  }

  lemma {:induction false} AllAppliedIsLive(entries: seq<Entry>)
    requires ValidLog(Events(entries))
    ensures ApplyAll(map[], entries) == LiveTables(Events(entries))
  {
    AppliedIsLive(entries, |entries|);
    assert entries[..|entries|] == entries;
  }

  /**
    Overlapping and repeated windows of a causally ordered stream leave the live tables of its
    events, each taken once, and any interrupted rebuild of the resulting log keeps them
    (transaction hashes aside) if and only if no reserve update was lost.
  */
  lemma {:induction false} IngestedThenRebuilt(windows: seq<seq<Entry>>, passes: seq<Pass>)
    requires NoClash(Flatten(windows)) && ValidLog(Events(FirstOccurrences(Flatten(windows))))
    requires forall i :: 0 <= i < |passes| ==> passes[i].from <= passes[i].to <= |FirstOccurrences(Flatten(windows))|
    requires Resumable(passes, 0, |FirstOccurrences(Flatten(windows))|)
    ensures var store, log := ApplyWindows(Store([], map[]), windows), Events(FirstOccurrences(Flatten(windows)));
            && store.log == FirstOccurrences(Flatten(windows)) && store.tables == LiveTables(log)
            && (MaskTable(RunPasses(store.tables, RebuildDeltas(log), passes), TX_COLUMNS) == MaskTable(store.tables, TX_COLUMNS)
                <==> forall id :: ReserveKept(log, id))
  {
    var firsts := FirstOccurrences(Flatten(windows));
    WindowsApplyFirstOccurrences(map[], windows);
    AllAppliedIsLive(firsts);
    RebuildKeepsLive(Events(firsts), passes);
  }

  // ------------------------------------------------------ a batch applied twice

  function ApplyEvents(t: Table, batch: seq<Event>): Table {
    if |batch| == 0 then t else ApplyEvent(ApplyEvents(t, batch[..|batch| - 1]), batch[|batch| - 1])
  }

  /** Rows the tables lack are created by the first event that writes them, and offers find their listing. */
  ghost predicate Complete(t: Table, batch: seq<Event>) {
    && (forall key, p :: key !in t && FirstWrite(Deltas(batch), key, p) ==> EventWrites(batch[p])[key].create.Some?)
    && (forall p :: 0 <= p < |batch| && batch[p].body.OfferMade? && Active(batch[p]) ==> ListingKnown(t, batch, p))
  }

  ghost predicate ListingKnown(t: Table, batch: seq<Event>, p: nat)
    requires p < |batch| && batch[p].body.OfferMade?
  {
    var l := Listing(batch[p].body.listing);
    l in t || exists c :: 0 <= c < p && Writes(Deltas(batch), l, c)
  }

  /** No row the batch touches is ahead of the event that touches it. */
  ghost predicate NotAheadOf(t: Table, batch: seq<Event>) {
    forall key, p :: key in t && Writes(Deltas(batch), key, p) ==> t[key].updatedAt <= batch[p].ledger
  }

  lemma {:induction false} RowPresent(r: Option<Row>, ds: seq<Delta>, key: Key, k: nat)
    requires k <= |ds| && (r.None? ==> forall p :: FirstWrite(ds, key, p) ==> ds[p].writes[key].create.Some?)
    ensures r.Some? || (exists p :: 0 <= p < k && Writes(ds, key, p)) ==> RowRun(r, ds, key, 0, k).Some?
    ensures r.None? && (forall p :: 0 <= p < k ==> !Writes(ds, key, p)) ==> RowRun(r, ds, key, 0, k).None?
  {
    if k > 0 {
      RowPresent(r, ds, key, k - 1);
      if r.None? && Writes(ds, key, k - 1) && forall p :: 0 <= p < k - 1 ==> !Writes(ds, key, p) {
        assert FirstWrite(ds, key, k - 1);
      }
    }
  }

  lemma {:induction false} BatchNeverBlocked(t: Table, batch: seq<Event>, k: nat)
    requires Complete(t, batch) && k < |batch|
    ensures !Blocked(TableRun(t, Deltas(batch), 0, k), batch[k])
  {
    var ds, e := Deltas(batch), batch[k];
    if Active(e) && e.body.OfferMade? {
      var l := Listing(e.body.listing);
      assert ListingKnown(t, batch, k);
      TableRunRow(t, ds, 0, k, l);
      RowPresent(Get(t, l), ds, l, k);
    }
    if Active(e) && Terminal(e.body) {
      var o := Offer(e.body.offerId);
      assert Writes(ds, o, k) && ds[k].writes[o].create.None?;
      TableRunRow(t, ds, 0, k, o);
      RowPresent(Get(t, o), ds, o, k);
      assert o !in t ==> !FirstWrite(ds, o, k);
    }
  }

  lemma {:induction false} BatchActsAsWrites(t: Table, batch: seq<Event>, k: nat)
    requires Complete(t, batch) && k <= |batch|
    ensures ApplyEvents(t, batch[..k]) == TableRun(t, Deltas(batch), 0, k)
  {
    if k > 0 {
      BatchActsAsWrites(t, batch, k - 1);
      BatchNeverBlocked(t, batch, k - 1);
      assert batch[..k][..k - 1] == batch[..k - 1];
    }
  }

  lemma {:induction false} StillComplete(t: Table, batch: seq<Event>)
    requires Complete(t, batch)
    ensures Complete(TableRun(t, Deltas(batch), 0, |batch|), batch)
  {
    var ds := Deltas(batch);
    var once := TableRun(t, ds, 0, |batch|);
    forall key | key in t || exists p :: Writes(ds, key, p) ensures key in once {
      TableRunRow(t, ds, 0, |batch|, key);
      RowPresent(Get(t, key), ds, key, |batch|);
    }
    forall p | 0 <= p < |batch| && batch[p].body.OfferMade? && Active(batch[p]) ensures ListingKnown(once, batch, p) {
      assert ListingKnown(t, batch, p);
    }
  }

  lemma {:induction false} BatchFitsTables(t: Table, batch: seq<Event>)
    requires Complete(t, batch) && NotAheadOf(t, batch)
    ensures BatchFits(t, Deltas(batch))
  {
    var ds := Deltas(batch);
    forall key ensures RowFits(Get(t, key), ds, key) {
      forall p | Writes(ds, key, p) && ds[p].writes[key].create.Some?
        ensures Within(ds[p].writes[key].update, ds[p].writes[key].create.value)
      {
        UpsertsAgree(batch[p], key);
      }
    }
  }

  /**
    A causally ordered, ledger-sorted batch of events, applied to tables that are not ahead of
    it: applying it a second time changes nothing, despite the mix of guarded and unguarded writes.
  */
  lemma {:induction false} EventBatchTwice(t: Table, batch: seq<Event>)
    requires forall i, j :: 0 <= i <= j < |batch| ==> batch[i].ledger <= batch[j].ledger
    requires Complete(t, batch) && NotAheadOf(t, batch)
    ensures ApplyEvents(ApplyEvents(t, batch), batch) == ApplyEvents(t, batch)
  {
    var ds, n := Deltas(batch), |batch|;
    assert batch[..n] == batch;
    BatchActsAsWrites(t, batch, n);
    StillComplete(t, batch);
    BatchActsAsWrites(TableRun(t, ds, 0, n), batch, n);
    BatchFitsTables(t, batch);
    BatchTwice(t, ds);
  }
}
