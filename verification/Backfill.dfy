/** Backfill: a ledger range cut into batches that commit concurrently, in any order. */
module Backfill {
  import opened EventStore
  import opened Ingestion

  datatype Batch = Batch(start: nat, end: nat)

  // ---------------------------------------------------------------- batches

  /** Consecutive non-empty batches from `lo` to `hi`. */
  ghost predicate Partition(batches: seq<Batch>, lo: nat, hi: int) {
    && (|batches| == 0 ==> hi < lo)
    && (|batches| > 0 ==> batches[0].start == lo && batches[|batches| - 1].end == hi)
    && (forall k :: 0 <= k < |batches| ==> batches[k].start <= batches[k].end)
    && (forall k :: 0 < k < |batches| ==> batches[k].start == batches[k - 1].end + 1)
  }

  method BuildBatches(resumeFrom: nat, endLedger: nat, batchSize: nat) returns (batches: seq<Batch>)
    requires batchSize > 0
    ensures Partition(batches, resumeFrom, if resumeFrom <= endLedger then endLedger else resumeFrom - 1)
    ensures resumeFrom > endLedger ==> batches == []
    ensures forall k :: 0 <= k < |batches| ==> batches[k].end - batches[k].start < batchSize
    ensures forall k :: 0 <= k < |batches| - 1 ==> batches[k].end - batches[k].start == batchSize - 1
  {
    batches := [];
    var s := resumeFrom;
    while s <= endLedger
      invariant |batches| == 0 ==> s == resumeFrom
      invariant |batches| > 0 ==>
                  resumeFrom <= endLedger && Partition(batches, resumeFrom, if s <= endLedger then s - 1 else endLedger)
      invariant forall k :: 0 <= k < |batches| ==> batches[k].end - batches[k].start < batchSize
      invariant forall k :: 0 <= k < |batches| && (k < |batches| - 1 || s <= endLedger) ==>
                              batches[k].end - batches[k].start == batchSize - 1
      decreases endLedger - s
    {
      var end := if s + batchSize - 1 < endLedger then s + batchSize - 1 else endLedger;
      batches := batches + [Batch(s, end)];
      s := s + batchSize;
    }
  }

  lemma {:induction false} PartitionOrdered(batches: seq<Batch>, lo: nat, hi: int, j: nat, k: nat)
    requires Partition(batches, lo, hi) && j < k < |batches|
    ensures batches[j].end < batches[k].start
  {
    if j + 1 < k { PartitionOrdered(batches, lo, hi, j, k - 1); }
  }

  lemma {:induction false} PartitionWithin(batches: seq<Batch>, lo: nat, hi: int, k: nat)
    requires Partition(batches, lo, hi) && k < |batches|
    ensures lo <= batches[k].start && batches[k].end <= hi
  {
    if 0 < k { PartitionOrdered(batches, lo, hi, 0, k); }
    if k < |batches| - 1 { PartitionOrdered(batches, lo, hi, k, |batches| - 1); }
  }

  predicate Holds(b: Batch, ledger: int) { b.start <= ledger <= b.end }

  /** Every ledger of the range is in exactly one batch. */
  lemma {:induction false} PartitionExact(batches: seq<Batch>, lo: nat, hi: int, ledger: int)
    requires Partition(batches, lo, hi) && lo <= ledger <= hi
    ensures exists k :: 0 <= k < |batches| && Holds(batches[k], ledger)
                        && forall j :: 0 <= j < |batches| && Holds(batches[j], ledger) ==> j == k
  {
    var k := FindBatch(batches, lo, hi, ledger, |batches|);
    forall j | 0 <= j < |batches| && Holds(batches[j], ledger) ensures j == k {
      if j < k { PartitionOrdered(batches, lo, hi, j, k); }
      if k < j { PartitionOrdered(batches, lo, hi, k, j); }
    }
  }

  lemma {:induction false} FindBatch(batches: seq<Batch>, lo: nat, hi: int, ledger: int, n: nat) returns (k: nat)
    requires Partition(batches, lo, hi) && 0 < n <= |batches| && lo <= ledger <= batches[n - 1].end
    ensures k < n && Holds(batches[k], ledger)
    decreases n
  {
    if batches[n - 1].start <= ledger { k := n - 1; } else { k := FindBatch(batches, lo, hi, ledger, n - 1); }
  }

  // ------------------------------------------------- batches do not interact

  ghost predicate ByLedger(chain: seq<Entry>) {
    forall i, j :: 0 <= i < j < |chain| ==> chain[i].id.ledger <= chain[j].id.ledger
  }

  lemma {:induction false} NoneFrom(chain: seq<Entry>, mid: int, hi: int)
    requires forall d :: d in chain ==> d.id.ledger < mid
    ensures Between(chain, mid, hi) == []
  {
    if |chain| > 0 {
      assert chain[|chain| - 1] in chain;
      NoneFrom(chain[..|chain| - 1], mid, hi);
    }
  }

  lemma {:induction false} BetweenCut(chain: seq<Entry>, lo: int, mid: int, hi: int)
    requires ByLedger(chain) && lo <= mid <= hi + 1
    ensures Between(chain, lo, hi) == Between(chain, lo, mid - 1) + Between(chain, mid, hi)
  {
    if |chain| > 0 {
      var front, e := chain[..|chain| - 1], chain[|chain| - 1];
      BetweenCut(front, lo, mid, hi);
      if lo <= e.id.ledger < mid {
        forall d | d in front ensures d.id.ledger < mid {
          var i :| 0 <= i < |front| && front[i] == d;
          assert chain[i].id.ledger <= chain[|chain| - 1].id.ledger;
        }
        NoneFrom(front, mid, hi);
      }
    }
  }

  /** Entries of other ledgers do not affect a batch write. */
  lemma {:induction false} FreshIgnores(log: seq<Entry>, more: seq<Entry>, events: seq<Entry>)
    requires forall d, e :: d in more && e in events ==> d.id.ledger != e.id.ledger
    ensures Fresh(log + more, events) == Fresh(log, events)
  {
    if |events| > 0 {
      var rest, e := events[..|events| - 1], events[|events| - 1];
      FreshIgnores(log, more, rest);
      TakenIgnores(log, more, Fresh(log, rest), e);
    }
  }

  lemma {:induction false} TakenIgnores(log: seq<Entry>, more: seq<Entry>, added: seq<Entry>, e: Entry)
    requires forall d :: d in more ==> d.id.ledger != e.id.ledger
    ensures Taken(log + more + added, e) <==> Taken(log + added, e)
  {
    var big, small := log + more + added, log + added;
    if i :| 0 <= i < |big| && Conflicts(big[i], e) {
      assert i < |log| || i >= |log| + |more|;
      assert small[if i < |log| then i else i - |more|] == big[i];
    }
    if i :| 0 <= i < |small| && Conflicts(small[i], e) {
      assert big[if i < |log| then i else i + |more|] == small[i];
    }
  }

  lemma {:induction false} FreshWithin(log: seq<Entry>, chain: seq<Entry>, lo: int, hi: int)
    ensures forall e :: e in Fresh(log, Between(chain, lo, hi)) ==> e in chain && lo <= e.id.ledger <= hi
  {
    BetweenMembers(chain, lo, hi);
    FreshFrom(log, Between(chain, lo, hi));
  }

  lemma {:induction false} FreshFrom(log: seq<Entry>, events: seq<Entry>)
    ensures forall e :: e in Fresh(log, events) ==> e in events
  {
    if |events| > 0 {
      FreshFrom(log, events[..|events| - 1]);
      assert events == events[..|events| - 1] + [events[|events| - 1]];
    }
  }

  /** Writing a range in two parts writes what the whole range does. */
  lemma {:induction false} FreshCut(log: seq<Entry>, chain: seq<Entry>, lo: int, mid: int, hi: int)
    requires ByLedger(chain) && lo <= mid <= hi + 1
    ensures Fresh(log, Between(chain, lo, hi))
         == Fresh(log, Between(chain, lo, mid - 1)) + Fresh(log, Between(chain, mid, hi))
  {
    BetweenCut(chain, lo, mid, hi);
    FreshAppend(log, Between(chain, lo, mid - 1), Between(chain, mid, hi));
    FreshWithin(log, chain, lo, mid - 1);
    BetweenMembers(chain, mid, hi);
    FreshIgnores(log, Fresh(log, Between(chain, lo, mid - 1)), Between(chain, mid, hi));
  }

  // ------------------------------------------------------ any order of commits

  /** How often `e` is in what a single write of the whole range would insert. */
  function Due(log: seq<Entry>, chain: seq<Entry>, lo: int, hi: int, e: Entry): nat {
    multiset(Fresh(log, Between(chain, lo, hi)))[e]
  }

  predicate Covers(done: set<Batch>, ledger: int) { exists b :: b in done && Holds(b, ledger) }

  /** The log has grown by exactly what is due from the finished batches. */
  ghost predicate Progress(before: seq<Entry>, log: seq<Entry>, chain: seq<Entry>, lo: int, hi: int, done: set<Batch>) {
    && before <= log
    && forall e ::
         multiset(log[|before|..])[e] == if Covers(done, e.id.ledger) then Due(before, chain, lo, hi, e) else 0
  }

  lemma {:induction false} DuePart(log: seq<Entry>, chain: seq<Entry>, lo: int, hi: int, b: Batch, e: Entry)
    requires ByLedger(chain) && lo <= b.start <= b.end <= hi
    ensures Due(log, chain, b.start, b.end, e) == if Holds(b, e.id.ledger) then Due(log, chain, lo, hi, e) else 0
  {
    FreshInThree(log, chain, lo, hi, b);
    FreshApart(log, chain, lo, hi, b);
    MiddleCount(Fresh(log, Between(chain, lo, b.start - 1)), Fresh(log, Between(chain, b.start, b.end)),
                Fresh(log, Between(chain, b.end + 1, hi)), b, e);
  }

  lemma {:induction false} FreshInThree(log: seq<Entry>, chain: seq<Entry>, lo: int, hi: int, b: Batch)
    requires ByLedger(chain) && lo <= b.start <= b.end <= hi
    ensures Fresh(log, Between(chain, lo, hi))
         == Fresh(log, Between(chain, lo, b.start - 1))
          + (Fresh(log, Between(chain, b.start, b.end)) + Fresh(log, Between(chain, b.end + 1, hi)))
  {
    FreshCut(log, chain, lo, b.start, hi);
    FreshCut(log, chain, b.start, b.end + 1, hi);
  }

  lemma {:induction false} FreshApart(log: seq<Entry>, chain: seq<Entry>, lo: int, hi: int, b: Batch)
    ensures forall d :: d in Fresh(log, Between(chain, lo, b.start - 1)) ==> !Holds(b, d.id.ledger)
    ensures forall d :: d in Fresh(log, Between(chain, b.end + 1, hi)) ==> !Holds(b, d.id.ledger)
    ensures forall d :: d in Fresh(log, Between(chain, b.start, b.end)) ==> Holds(b, d.id.ledger)
  {
    FreshWithin(log, chain, lo, b.start - 1);
    FreshWithin(log, chain, b.start, b.end);
    FreshWithin(log, chain, b.end + 1, hi);
  }

  lemma {:induction false} MiddleCount(x: seq<Entry>, y: seq<Entry>, z: seq<Entry>, b: Batch, e: Entry)
    requires forall d :: d in x || d in z ==> !Holds(b, d.id.ledger)
    requires forall d :: d in y ==> Holds(b, d.id.ledger)
    ensures multiset(y)[e] == if Holds(b, e.id.ledger) then multiset(x + (y + z))[e] else 0
  {
    assert multiset(x + (y + z)) == multiset(x) + multiset(y) + multiset(z);
    assert e in multiset(x) <==> e in x;
    assert e in multiset(y) <==> e in y;
    assert e in multiset(z) <==> e in z;
  }

  /** What the finished batches added does not meet the events of another batch. */
  lemma {:induction false} OthersApart(before: seq<Entry>, log: seq<Entry>, chain: seq<Entry>, lo: int, hi: int,
                                       done: set<Batch>, b: Batch)
    requires Progress(before, log, chain, lo, hi, done)
    requires forall d :: d in done ==> d.end < b.start || b.end < d.start
    ensures forall d, e :: d in log[|before|..] && e in Between(chain, b.start, b.end) ==> d.id.ledger != e.id.ledger
  {
    BetweenMembers(chain, b.start, b.end);
    forall d | d in log[|before|..] ensures !Holds(b, d.id.ledger) {
      assert d in multiset(log[|before|..]);
      var c :| c in done && Holds(c, d.id.ledger);
    }
  }

  lemma {:induction false} CommitProgress(before: seq<Entry>, log: seq<Entry>, chain: seq<Entry>, lo: int, hi: int,
                                          done: set<Batch>, b: Batch)
    requires Progress(before, log, chain, lo, hi, done) && ByLedger(chain) && lo <= b.start <= b.end <= hi
    requires forall d :: d in done ==> d.end < b.start || b.end < d.start
    ensures Progress(before, log + Fresh(log, Between(chain, b.start, b.end)), chain, lo, hi, done + {b})
  {
    var more, part := log[|before|..], Between(chain, b.start, b.end);
    OthersApart(before, log, chain, lo, hi, done, b);
    CommitAdds(before, log, part);
    forall e
      ensures multiset(more + Fresh(before, part))[e]
           == if Covers(done + {b}, e.id.ledger) then Due(before, chain, lo, hi, e) else 0
    {
      CommitDue(before, more, chain, lo, hi, done, b, e);
    }
  }

  lemma {:induction false} CommitAdds(before: seq<Entry>, log: seq<Entry>, part: seq<Entry>)
    requires before <= log && forall d, e :: d in log[|before|..] && e in part ==> d.id.ledger != e.id.ledger
    ensures before <= log + Fresh(log, part)
    ensures (log + Fresh(log, part))[|before|..] == log[|before|..] + Fresh(before, part)
  {
    assert log == before + log[|before|..];
    FreshIgnores(before, log[|before|..], part);
  }

  lemma {:induction false} CommitDue(before: seq<Entry>, more: seq<Entry>, chain: seq<Entry>, lo: int, hi: int,
                                     done: set<Batch>, b: Batch, e: Entry)
    requires ByLedger(chain) && lo <= b.start <= b.end <= hi
    requires multiset(more)[e] == if Covers(done, e.id.ledger) then Due(before, chain, lo, hi, e) else 0
    requires forall d :: d in done ==> d.end < b.start || b.end < d.start
    ensures multiset(more + Fresh(before, Between(chain, b.start, b.end)))[e]
         == if Covers(done + {b}, e.id.ledger) then Due(before, chain, lo, hi, e) else 0
  {
    DuePart(before, chain, lo, hi, b, e);
    CoversMore(done, b, e.id.ledger);
  }

  lemma {:induction false} CoversMore(done: set<Batch>, b: Batch, ledger: int)
    ensures Covers(done + {b}, ledger) <==> Covers(done, ledger) || Holds(b, ledger)
  {
    if Covers(done, ledger) {
      var c :| c in done && Holds(c, ledger);
      assert c in done + {b};
    }
    if Holds(b, ledger) { assert b in done + {b}; }
  }

  /** When every batch is done, the log is that of one write of the whole range, up to order. */
  lemma {:induction false} AllDone(before: seq<Entry>, log: seq<Entry>, chain: seq<Entry>, lo: nat, hi: int,
                                   batches: seq<Batch>, done: set<Batch>)
    requires Progress(before, log, chain, lo, hi, done) && Partition(batches, lo, hi)
    requires forall k :: 0 <= k < |batches| ==> batches[k] in done
    ensures multiset(log) == multiset(before + Fresh(before, Between(chain, lo, hi)))
  {
    var added := Fresh(before, Between(chain, lo, hi));
    FreshWithin(before, chain, lo, hi);
    forall e ensures multiset(log[|before|..])[e] == multiset(added)[e] {
      if lo <= e.id.ledger <= hi {
        PartitionExact(batches, lo, hi, e.id.ledger);
        var k :| 0 <= k < |batches| && Holds(batches[k], e.id.ledger);
        assert batches[k] in done;
      } else {
        assert e !in added;
      }
    }
    assert multiset(log[|before|..]) == multiset(added);
    assert log == before + log[|before|..];
  }

  function Indices(from: nat, end: nat): (s: set<nat>)
    requires from <= end
    ensures forall k :: k in s <==> from <= k < end
  {
    if from == end then {} else Indices(from, end - 1) + {end - 1}
  }

  lemma {:induction false} EmptyBetween(chain: seq<Entry>, lo: int, hi: int)
    requires hi < lo
    ensures Between(chain, lo, hi) == []
  {
    if |chain| > 0 { EmptyBetween(chain[..|chain| - 1], lo, hi); }
  }

  /** The ledger a batch transaction leaves in the job row. */
  function CheckpointOf(chain: seq<Entry>, b: Batch): (ledger: nat)
    requires b.start <= b.end
    ensures Holds(b, ledger)
  {
    BetweenMembers(chain, b.start, b.end);
    AdvanceTo(Between(chain, b.start, b.end), b.end)
  }

  /** That is the batch's end when it held no event, and the ledger of its latest event otherwise. */
  lemma {:induction false} CheckpointExactly(chain: seq<Entry>, b: Batch)
    requires b.start <= b.end
    ensures (forall e :: e in chain ==> !Holds(b, e.id.ledger)) ==> CheckpointOf(chain, b) == b.end
    ensures (exists e :: e in chain && Holds(b, e.id.ledger)) ==>
              && (exists e :: e in chain && e.id.ledger == CheckpointOf(chain, b))
              && (forall e :: e in chain && Holds(b, e.id.ledger) ==> e.id.ledger <= CheckpointOf(chain, b))
  {
    BetweenMembers(chain, b.start, b.end);
    var events := Between(chain, b.start, b.end);
    if |events| > 0 {
      assert events[0] in events;
      var e :| e in events && e.id.ledger == MaxLedger(events);
    }
  }

  /** The job row holds the checkpoint of the batch that committed last; `last` is -1 before the first one. */
  ghost predicate CheckpointIs(checkpoint: nat, initial: nat, chain: seq<Entry>, batches: seq<Batch>, done: set<Batch>,
                               last: int)
  {
    && (forall k :: 0 <= k < |batches| ==> batches[k].start <= batches[k].end)
    && -1 <= last < |batches|
    && (if last == -1 then done == {} && checkpoint == initial
        else batches[last] in done && checkpoint == CheckpointOf(chain, batches[last]))
  }

  function ResumePoint(checkpoint: nat, startLedger: nat): nat {
    if checkpoint > 0 then checkpoint + 1 else startLedger
  }

  /** Those of the batches up to `to` that are not pending have committed, or failed. */
  ghost predicate Settled(batches: seq<Batch>, from: nat, to: nat, pending: set<nat>, failing: set<Batch>,
                          done: set<Batch>)
    requires to <= |batches|
  {
    && done !! failing && done <= (set k | 0 <= k < to && k !in pending :: batches[k])
    && forall k :: from <= k < to && k !in pending && batches[k] !in failing ==> batches[k] in done
  }

  lemma {:induction false} SettledNext(batches: seq<Batch>, from: nat, to: nat, pending: set<nat>, failing: set<Batch>,
                                       done: set<Batch>, k: nat)
    requires to <= |batches| && Settled(batches, from, to, pending, failing, done) && k in pending && from <= k < to
    ensures Settled(batches, from, to, pending - {k}, failing,
                    if batches[k] in failing then done else done + {batches[k]})
  {
  }

  datatype JobStatus = Pending | Running | Failed | Completed | Cancelled

  /** The event table, the job row and the progress of the run. */
  class BackfillRun {
    var log: seq<Entry>
    var status: JobStatus
    var checkpointLedger: nat
    var storedTotal: int
    var totalInserted: int
    var processedLedger: int

    constructor (log: seq<Entry>)
      ensures this.log == log && status == Pending && checkpointLedger == 0 && storedTotal == totalInserted == 0
    {
      this.log, status, checkpointLedger := log, Pending, 0;
      storedTotal, totalInserted, processedLedger := 0, 0, 0;
    }

    /** One batch transaction. */
    method ProcessBatch(chain: seq<Entry>, b: Batch, insertedSoFar: int) returns (inserted: nat, maxLedger: nat)
      requires b.start <= b.end
      modifies this`log, this`checkpointLedger, this`storedTotal
      ensures log == old(log) + Fresh(old(log), Between(chain, b.start, b.end)) && inserted == |log| - |old(log)|
      ensures maxLedger == checkpointLedger == CheckpointOf(chain, b) && storedTotal == insertedSoFar + inserted
    {
      var events := Between(chain, b.start, b.end);
      var added := Fresh(log, events);
      log, checkpointLedger, storedTotal := log + added, CheckpointOf(chain, b), insertedSoFar + |added|;
      inserted, maxLedger := |added|, checkpointLedger;
    }

    /** A batch that succeeds: its transaction, and its part in the progress of the run. */
    method CommitBatch(chain: seq<Entry>, b: Batch, insertedSoFar: int, ghost lo: nat, ghost hi: int,
                       ghost before: seq<Entry>, ghost done: set<Batch>)
      requires ByLedger(chain) && Progress(before, log, chain, lo, hi, done) && lo <= b.start <= b.end <= hi
      requires forall d :: d in done ==> d.end < b.start || b.end < d.start
      modifies this`log, this`checkpointLedger, this`storedTotal, this`totalInserted, this`processedLedger
      ensures Progress(before, log, chain, lo, hi, done + {b}) && checkpointLedger == CheckpointOf(chain, b)
      ensures old(totalInserted) <= totalInserted == old(totalInserted) + |log| - |old(log)|
      ensures storedTotal == insertedSoFar + totalInserted - old(totalInserted)
      ensures processedLedger == old(processedLedger) || old(processedLedger) < processedLedger <= hi
    {
      CommitProgress(before, log, chain, lo, hi, done, b);
      var inserted, maxLedger := ProcessBatch(chain, b, insertedSoFar);
      totalInserted := totalInserted + inserted;
      processedLedger := if processedLedger < maxLedger then maxLedger else processedLedger;
    }

    /** The batches of one window, committing in an arbitrary order; those in `failing` commit nothing. */
    method ProcessWindow(chain: seq<Entry>, lo: nat, ghost hi: int, batches: seq<Batch>, from: nat, to: nat,
                         failing: set<Batch>,
                         ghost before: seq<Entry>, ghost initial: nat, ghost earlier: set<Batch>, ghost latest: int)
      returns (ghost done: set<Batch>, ghost last: int)
      requires ByLedger(chain) && Partition(batches, lo, hi) && from <= to <= |batches|
      requires Progress(before, log, chain, lo, hi, earlier) && earlier <= set k | 0 <= k < from :: batches[k]
      requires storedTotal <= totalInserted && earlier !! failing
      requires CheckpointIs(checkpointLedger, initial, chain, batches, earlier, latest)
      modifies this`log, this`checkpointLedger, this`storedTotal, this`totalInserted, this`processedLedger
      ensures Progress(before, log, chain, lo, hi, done) && done <= set k | 0 <= k < to :: batches[k]
      ensures done !! failing && CheckpointIs(checkpointLedger, initial, chain, batches, done, last)
      ensures earlier <= done && forall k :: from <= k < to && batches[k] !in failing ==> batches[k] in done
      ensures totalInserted - |log| == old(totalInserted) - |old(log)|
      ensures storedTotal <= totalInserted
      ensures processedLedger == old(processedLedger) || old(processedLedger) < processedLedger <= hi
    {
      done, last := earlier, latest;
      var pending, insertedSoFar := Indices(from, to), totalInserted;
      while pending != {}
        invariant pending <= Indices(from, to)
        invariant Progress(before, log, chain, lo, hi, done) && earlier <= done
        invariant Settled(batches, from, to, pending, failing, done)
        invariant CheckpointIs(checkpointLedger, initial, chain, batches, done, last)
        invariant totalInserted - |log| == old(totalInserted) - |old(log)| && insertedSoFar <= totalInserted
        invariant storedTotal <= totalInserted
        invariant processedLedger == old(processedLedger) || old(processedLedger) < processedLedger <= hi
        decreases pending
      {
        var k :| k in pending;
        var b := batches[k];
        SettledNext(batches, from, to, pending, failing, done, k);
        if b !in failing {
          Separate(batches, lo, hi, k, done, pending, to);
          PartitionWithin(batches, lo, hi, k);
          CommitBatch(chain, b, insertedSoFar, lo, hi, before, done);
          done, last := done + {b}, k;
        }
        pending := pending - {k};
      }
    }

    /**
      The windows of a run.  The total grows by exactly the rows inserted, while the one in the job
      row may fall behind when batches share a window; if no batch fails, the log is that of one
      write of the remaining range, whatever the batch size, the concurrency and the order of commits.
    */
    method RunBackfill(chain: seq<Entry>, startLedger: nat, endLedger: nat, batchSize: nat, concurrency: nat,
                       failing: set<Batch>)
      returns (ghost batches: seq<Batch>, ghost done: set<Batch>, ghost last: int)
      requires ByLedger(chain) && batchSize > 0 && concurrency > 0
      modifies this`log, this`checkpointLedger, this`storedTotal, this`totalInserted, this`processedLedger
      ensures totalInserted == old(storedTotal) + |log| - |old(log)|
      ensures storedTotal <= totalInserted
      ensures var from := if old(checkpointLedger) > 0 then old(checkpointLedger) + 1 else startLedger;
              && (processedLedger == from - 1 || from <= processedLedger <= endLedger)
              && Partition(batches, from, if from <= endLedger then endLedger else from - 1)
              && Progress(old(log), log, chain, from, if from <= endLedger then endLedger else from - 1, done)
              && (failing == {} ==>
                    multiset(log) == multiset(old(log) + Fresh(old(log), Between(chain, from, endLedger))))
      ensures done == set k | 0 <= k < |batches| && batches[k] !in failing :: batches[k]
      ensures CheckpointIs(checkpointLedger, old(checkpointLedger), chain, batches, done, last)
    {
      var resumeFrom := ResumePoint(checkpointLedger, startLedger);
      var todo := BuildBatches(resumeFrom, endLedger, batchSize);
      batches, done, last := todo, {}, -1;
      totalInserted, processedLedger := storedTotal, resumeFrom - 1;
      ghost var hi := if resumeFrom <= endLedger then endLedger else resumeFrom - 1;
      if hi < resumeFrom {
        EmptyBetween(chain, resumeFrom, hi);
        EmptyBetween(chain, resumeFrom, endLedger);
      }
      var i := 0;
      while i < |todo|
        invariant 0 <= i <= |todo|
        invariant Progress(old(log), log, chain, resumeFrom, hi, done) && done <= set k | 0 <= k < i :: todo[k]
        invariant done !! failing && CheckpointIs(checkpointLedger, old(checkpointLedger), chain, todo, done, last)
        invariant forall k :: 0 <= k < i && todo[k] !in failing ==> todo[k] in done
        invariant totalInserted - |log| == old(storedTotal) - |old(log)|
        invariant storedTotal <= totalInserted
        invariant processedLedger == resumeFrom - 1 || resumeFrom <= processedLedger <= endLedger
      {
        var to := if i + concurrency < |todo| then i + concurrency else |todo|;
        done, last := ProcessWindow(chain, resumeFrom, hi, todo, i, to, failing,
                                    old(log), old(checkpointLedger), done, last);
        i := to;
      }
      if failing == {} { AllDone(old(log), log, chain, resumeFrom, hi, todo, done); }
    }
  }

  lemma {:induction false} Separate(batches: seq<Batch>, lo: nat, hi: int, k: nat, done: set<Batch>, pending: set<nat>,
                                    to: nat)
    requires Partition(batches, lo, hi) && k < to <= |batches| && k in pending
    requires done <= set j | 0 <= j < to && j !in pending :: batches[j]
    ensures forall d :: d in done ==> d.end < batches[k].start || batches[k].end < d.start
  {
    forall d | d in done ensures d.end < batches[k].start || batches[k].end < d.start {
      var j :| 0 <= j < to && j !in pending && batches[j] == d;
      if j < k { PartitionOrdered(batches, lo, hi, j, k); }
      if k < j { PartitionOrdered(batches, lo, hi, k, j); }
    }
  }

  /**
    What one write of the whole range leaves: no row twice, every event of the range stored or in
    conflict with a stored one, and all of them stored if and only if none of them shares
    listing, type and ledger with another one or with an earlier row.
  */
  lemma {:induction false} BackfillComplete(before: seq<Entry>, chain: seq<Entry>, lo: nat, hi: nat)
    requires Unique(before) && Stable(before + Between(chain, lo, hi))
    ensures var log := before + Fresh(before, Between(chain, lo, hi));
            && Unique(log) && (forall e :: e in chain && lo <= e.id.ledger <= hi ==> Taken(log, e))
            && ((forall e :: e in chain && lo <= e.id.ledger <= hi ==> e in log)
                <==> NoClash(before + Between(chain, lo, hi)))
  {
    FreshFits(before, Between(chain, lo, hi));
    BetweenMembers(chain, lo, hi);
    CompleteExactly(before, Between(chain, lo, hi));
  }
}
