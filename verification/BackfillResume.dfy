/** Resuming a backfill from its checkpoint: what failed stays missing exactly below the batch that committed last. */
module BackfillResume {
  import opened EventStore
  import opened Ingestion
  import opened Backfill

  // ---------------------------------------------------------------- reading a range again

  lemma {:induction false} SelfTaken(log: seq<Entry>, events: seq<Entry>, e: Entry)
    requires e in events
    ensures Taken(log + Fresh(log, events), e)
  {
    var rest, last := events[..|events| - 1], events[|events| - 1];
    var before, after := log + Fresh(log, rest), log + Fresh(log, events);
    assert before <= after;
    if e == last {
      if Taken(before, e) { StillTaken(before, after, e); } else { assert after[|after| - 1] == e; }
    } else {
      SelfTaken(log, rest, e);
      StillTaken(before, after, e);
    }
  }

  lemma {:induction false} StillTaken(log: seq<Entry>, more: seq<Entry>, e: Entry)
    requires log <= more && Taken(log, e)
    ensures Taken(more, e)
  {
    var i :| 0 <= i < |log| && Conflicts(log[i], e);
    assert more[i] == log[i];
  }

  lemma {:induction false} AllTaken(log: seq<Entry>, events: seq<Entry>)
    requires forall e :: e in events ==> Taken(log, e)
    ensures Fresh(log, events) == []
  {
    if |events| > 0 {
      AllTaken(log, events[..|events| - 1]);
      assert events[|events| - 1] in events;
      assert log + [] == log;
    }
  }

  /** A ledger whose batch is done gives nothing new when it is read again. */
  lemma {:induction false} ReadAgain(before: seq<Entry>, log: seq<Entry>, chain: seq<Entry>, lo: int, hi: int,
                                     done: set<Batch>, ledger: int)
    requires Progress(before, log, chain, lo, hi, done) && Covers(done, ledger) && lo <= ledger <= hi
    ensures Fresh(log, Between(chain, ledger, ledger)) == []
  {
    BetweenMembers(chain, ledger, ledger);
    BetweenMembers(chain, lo, hi);
    forall e | e in Between(chain, ledger, ledger) ensures Taken(log, e) {
      SelfTaken(before, Between(chain, lo, hi), e);
      StoredAlready(before, log, chain, lo, hi, done, e);
    }
    AllTaken(log, Between(chain, ledger, ledger));
  }

  lemma {:induction false} StoredAlready(before: seq<Entry>, log: seq<Entry>, chain: seq<Entry>, lo: int, hi: int,
                                         done: set<Batch>, e: Entry)
    requires Progress(before, log, chain, lo, hi, done) && Covers(done, e.id.ledger)
    requires Taken(before + Fresh(before, Between(chain, lo, hi)), e)
    ensures Taken(log, e)
  {
    var due := Fresh(before, Between(chain, lo, hi));
    var i :| 0 <= i < |before + due| && Conflicts((before + due)[i], e);
    if i < |before| {
      assert log[i] == before[i];
    } else {
      var d := due[i - |before|];
      assert d in multiset(due);
      assert multiset(log[|before|..])[d] > 0;
      assert d in log[|before|..];
      var j :| |before| <= j < |log| && log[j] == d;
    }
  }

  /** Reading the ledgers from `from` on adds exactly what was due from them and not yet there. */
  lemma {:induction false} ResumeProgress(before: seq<Entry>, log: seq<Entry>, chain: seq<Entry>, lo: nat, hi: int,
                                          done: set<Batch>, from: nat)
    returns (more: set<Batch>)
    requires Progress(before, log, chain, lo, hi, done) && ByLedger(chain) && lo <= from <= hi + 1
    ensures Progress(before, log + Fresh(log, Between(chain, from, hi)), chain, lo, hi, more)
    ensures forall l :: Covers(more, l) <==> Covers(done, l) || from <= l <= hi
    decreases hi + 1 - from
  {
    if from == hi + 1 {
      EmptyBetween(chain, from, hi);
      assert log + [] == log;
      more := done;
    } else {
      var next, one := ReadLedger(before, log, chain, lo, hi, done, from);
      more := ResumeProgress(before, next, chain, lo, hi, one, from + 1);
      ReadFirst(log, chain, from, hi);
    }
  }

  lemma {:induction false} ReadLedger(before: seq<Entry>, log: seq<Entry>, chain: seq<Entry>, lo: nat, hi: int,
                                      done: set<Batch>, ledger: nat)
    returns (next: seq<Entry>, more: set<Batch>)
    requires Progress(before, log, chain, lo, hi, done) && ByLedger(chain) && lo <= ledger <= hi
    ensures next == log + Fresh(log, Between(chain, ledger, ledger)) && Progress(before, next, chain, lo, hi, more)
    ensures forall l :: Covers(more, l) <==> Covers(done, l) || l == ledger
  {
    next := log + Fresh(log, Between(chain, ledger, ledger));
    if Covers(done, ledger) {
      ReadAgain(before, log, chain, lo, hi, done, ledger);
      assert next == log;
      more := done;
    } else {
      var b := Batch(ledger, ledger);
      forall d | d in done ensures d.end < b.start || b.end < d.start { assert !Holds(d, ledger); }
      CommitProgress(before, log, chain, lo, hi, done, b);
      more := done + {b};
      forall l ensures Covers(more, l) <==> Covers(done, l) || l == ledger { CoversMore(done, b, l); }
    }
  }

  /** A range is written by its first ledger and then the rest. */
  lemma {:induction false} ReadFirst(log: seq<Entry>, chain: seq<Entry>, from: nat, hi: int)
    requires ByLedger(chain) && from <= hi
    ensures var next := log + Fresh(log, Between(chain, from, from));
            log + Fresh(log, Between(chain, from, hi)) == next + Fresh(next, Between(chain, from + 1, hi))
  {
    var first := Fresh(log, Between(chain, from, from));
    FreshCut(log, chain, from, from + 1, hi);
    FreshWithin(log, chain, from, from);
    BetweenMembers(chain, from + 1, hi);
    FreshIgnores(log, first, Between(chain, from + 1, hi));
  }

  // ---------------------------------------------------------------- what is missing

  /** The log is that of one write of the whole range exactly if every row due from it is in a covered ledger. */
  lemma {:induction false} CoverageExactly(before: seq<Entry>, log: seq<Entry>, chain: seq<Entry>, lo: int, hi: int,
                                           done: set<Batch>)
    requires Progress(before, log, chain, lo, hi, done)
    ensures multiset(log) == multiset(before + Fresh(before, Between(chain, lo, hi)))
       <==> forall e :: e in Fresh(before, Between(chain, lo, hi)) ==> Covers(done, e.id.ledger)
  {
    var due, added := Fresh(before, Between(chain, lo, hi)), log[|before|..];
    assert log == before + added;
    if forall e :: e in due ==> Covers(done, e.id.ledger) {
      forall e ensures multiset(added)[e] == multiset(due)[e] { assert e in multiset(due) <==> e in due; }
      assert multiset(added) == multiset(due);
    }
    if multiset(log) == multiset(before + due) {
      forall e | e in due ensures Covers(done, e.id.ledger) {
        assert multiset(before + due)[e] == multiset(before)[e] + multiset(due)[e];
        assert multiset(before + added)[e] == multiset(before)[e] + multiset(added)[e];
        assert e in multiset(due);
      }
    }
  }

  /** The batch holds an event that the table did not have. */
  ghost predicate HasNew(before: seq<Entry>, chain: seq<Entry>, b: Batch) {
    Fresh(before, Between(chain, b.start, b.end)) != []
  }

  lemma {:induction false} NewIsDue(before: seq<Entry>, chain: seq<Entry>, lo: int, hi: int, b: Batch, e: Entry)
    requires ByLedger(chain) && lo <= b.start <= b.end <= hi && Holds(b, e.id.ledger)
    ensures e in Fresh(before, Between(chain, lo, hi)) <==> e in Fresh(before, Between(chain, b.start, b.end))
  {
    DuePart(before, chain, lo, hi, b, e);
    var whole, part := Fresh(before, Between(chain, lo, hi)), Fresh(before, Between(chain, b.start, b.end));
    assert e in multiset(whole) <==> e in whole;
    assert e in multiset(part) <==> e in part;
  }

  /** The batches that committed, and every ledger from `from` on. */
  ghost predicate Reached(batches: seq<Batch>, failing: set<Batch>, from: int, ledger: int) {
    from <= ledger || exists k :: 0 <= k < |batches| && batches[k] !in failing && Holds(batches[k], ledger)
  }

  /** No failed batch that starts before `from` held anything new. */
  ghost predicate NoneMissed(before: seq<Entry>, chain: seq<Entry>, batches: seq<Batch>, failing: set<Batch>,
                             from: int)
  {
    forall k :: 0 <= k < |batches| && batches[k] in failing && batches[k].start < from ==>
                  !HasNew(before, chain, batches[k])
  }

  /** Everything due is reached exactly if no failed batch below `from` held anything new. */
  lemma {:induction false} ReachedExactly(before: seq<Entry>, chain: seq<Entry>, lo: nat, hi: int, batches: seq<Batch>,
                                          failing: set<Batch>, from: int)
    requires ByLedger(chain) && Partition(batches, lo, hi)
    requires forall k :: 0 <= k < |batches| && batches[k] in failing ==>
                           batches[k].end < from || from <= batches[k].start
    ensures (forall e :: e in Fresh(before, Between(chain, lo, hi)) ==> Reached(batches, failing, from, e.id.ledger))
       <==> NoneMissed(before, chain, batches, failing, from)
  {
    FreshWithin(before, chain, lo, hi);
    if NoneMissed(before, chain, batches, failing, from) {
      forall e | e in Fresh(before, Between(chain, lo, hi)) ensures Reached(batches, failing, from, e.id.ledger) {
        var k := FindBatch(batches, lo, hi, e.id.ledger, |batches|);
        PartitionWithin(batches, lo, hi, k);
        NewIsDue(before, chain, lo, hi, batches[k], e);
      }
    }
    if forall e :: e in Fresh(before, Between(chain, lo, hi)) ==> Reached(batches, failing, from, e.id.ledger) {
      forall k | 0 <= k < |batches| && batches[k] in failing && batches[k].start < from
        ensures !HasNew(before, chain, batches[k])
      {
        NothingNew(before, chain, lo, hi, batches, failing, from, k);
      }
    }
  }

  lemma {:induction false} NothingNew(before: seq<Entry>, chain: seq<Entry>, lo: nat, hi: int, batches: seq<Batch>,
                                      failing: set<Batch>, from: int, k: nat)
    requires ByLedger(chain) && Partition(batches, lo, hi)
    requires forall e :: e in Fresh(before, Between(chain, lo, hi)) ==> Reached(batches, failing, from, e.id.ledger)
    requires k < |batches| && batches[k] in failing && batches[k].end < from
    ensures !HasNew(before, chain, batches[k])
  {
    var b := batches[k];
    var part := Fresh(before, Between(chain, b.start, b.end));
    if |part| > 0 {
      var e := part[0];
      assert e in part;
      FreshWithin(before, chain, b.start, b.end);
      PartitionWithin(batches, lo, hi, k);
      NewIsDue(before, chain, lo, hi, b, e);
      var j :| 0 <= j < |batches| && batches[j] !in failing && Holds(batches[j], e.id.ledger);
      if j < k { PartitionOrdered(batches, lo, hi, j, k); } else { PartitionOrdered(batches, lo, hi, k, j); }
      assert false;
    }
  }

  /** After reading on from `from`, the log is whole exactly if no failed batch below `from` held anything new. */
  lemma {:induction false} WholeExactly(before: seq<Entry>, log: seq<Entry>, chain: seq<Entry>, lo: nat, hi: int,
                                        batches: seq<Batch>, failing: set<Batch>, done: set<Batch>, from: nat)
    requires ByLedger(chain) && Partition(batches, lo, hi) && Progress(before, log, chain, lo, hi, done)
    requires lo <= from <= hi + 1
    requires done == set k | 0 <= k < |batches| && batches[k] !in failing :: batches[k]
    requires forall k :: 0 <= k < |batches| && batches[k] in failing ==>
                           batches[k].end < from || from <= batches[k].start
    ensures multiset(log + Fresh(log, Between(chain, from, hi)))
         == multiset(before + Fresh(before, Between(chain, lo, hi)))
       <==> NoneMissed(before, chain, batches, failing, from)
  {
    var more := ResumeProgress(before, log, chain, lo, hi, done, from);
    CoverageExactly(before, log + Fresh(log, Between(chain, from, hi)), chain, lo, hi, more);
    FreshWithin(before, chain, lo, hi);
    forall e | e in Fresh(before, Between(chain, lo, hi))
      ensures Covers(more, e.id.ledger) <==> Reached(batches, failing, from, e.id.ledger)
    {
      DoneReached(batches, failing, done, from, e.id.ledger);
    }
    ReachedExactly(before, chain, lo, hi, batches, failing, from);
  }

  lemma {:induction false} DoneReached(batches: seq<Batch>, failing: set<Batch>, done: set<Batch>, from: int,
                                       ledger: int)
    requires done == set k | 0 <= k < |batches| && batches[k] !in failing :: batches[k]
    ensures Reached(batches, failing, from, ledger) <==> Covers(done, ledger) || from <= ledger
  {
    if k :| 0 <= k < |batches| && batches[k] !in failing && Holds(batches[k], ledger) { assert batches[k] in done; }
    if b :| b in done && Holds(b, ledger) {
      var k :| 0 <= k < |batches| && batches[k] !in failing && batches[k] == b;
    }
  }

  /** A resume starts above the batches before the last commit and below those after it. */
  lemma {:induction false} ResumeSplits(checkpoint: nat, chain: seq<Entry>, lo: nat, hi: int, batches: seq<Batch>,
                                        done: set<Batch>, last: int, k: nat)
    requires Partition(batches, lo, hi) && CheckpointIs(checkpoint, 0, chain, batches, done, last)
    requires k < |batches| && batches[k] !in done
    ensures batches[k].end < ResumePoint(checkpoint, lo) || ResumePoint(checkpoint, lo) <= batches[k].start
    ensures batches[k].start < ResumePoint(checkpoint, lo) <==> k < last
  {
    PartitionWithin(batches, lo, hi, k);
    if last >= 0 {
      PartitionWithin(batches, lo, hi, last);
      if k < last { PartitionOrdered(batches, lo, hi, k, last); }
      if last < k { PartitionOrdered(batches, lo, hi, last, k); }
    }
  }

  lemma {:induction false} ResumeWithin(checkpoint: nat, chain: seq<Entry>, lo: nat, hi: int, batches: seq<Batch>,
                                        done: set<Batch>, last: int)
    requires Partition(batches, lo, hi) && lo <= hi && CheckpointIs(checkpoint, 0, chain, batches, done, last)
    ensures lo <= ResumePoint(checkpoint, lo) <= hi + 1
  {
    if last >= 0 { PartitionWithin(batches, lo, hi, last); }
  }

  /** A resume of a failed job makes up for exactly the failed batches after the last commit. */
  lemma {:induction false} ResumedExactly(before: seq<Entry>, log: seq<Entry>, chain: seq<Entry>, lo: nat, hi: nat,
                                          batches: seq<Batch>,
                                          failing: set<Batch>, done: set<Batch>, last: int, checkpoint: nat)
    requires ByLedger(chain) && Partition(batches, lo, hi) && Progress(before, log, chain, lo, hi, done) && lo <= hi
    requires done == set k | 0 <= k < |batches| && batches[k] !in failing :: batches[k]
    requires CheckpointIs(checkpoint, 0, chain, batches, done, last)
    ensures if last == -1 then forall k :: 0 <= k < |batches| ==> batches[k] in failing else batches[last] !in failing
    ensures multiset(log + Fresh(log, Between(chain, ResumePoint(checkpoint, lo), hi)))
         == multiset(before + Fresh(before, Between(chain, lo, hi)))
       <==> forall k :: 0 <= k < last && batches[k] in failing ==> !HasNew(before, chain, batches[k])
  {
    forall k | 0 <= k < |batches| && batches[k] !in done ensures batches[k] in failing { }
    forall k | 0 <= k < |batches| && batches[k] in failing
      ensures batches[k].end < ResumePoint(checkpoint, lo) || ResumePoint(checkpoint, lo) <= batches[k].start
      ensures batches[k].start < ResumePoint(checkpoint, lo) <==> k < last
    {
      ResumeSplits(checkpoint, chain, lo, hi, batches, done, last, k);
    }
    ResumeWithin(checkpoint, chain, lo, hi, batches, done, last);
    WholeExactly(before, log, chain, lo, hi, batches, failing, done, ResumePoint(checkpoint, lo));
  }

  /** Without a resume nothing makes up for a failed batch. */
  lemma {:induction false} CompletedExactly(before: seq<Entry>, log: seq<Entry>, chain: seq<Entry>, lo: nat, hi: nat,
                                            batches: seq<Batch>, failing: set<Batch>, done: set<Batch>)
    requires ByLedger(chain) && Partition(batches, lo, hi) && Progress(before, log, chain, lo, hi, done) && lo <= hi
    requires done == set k | 0 <= k < |batches| && batches[k] !in failing :: batches[k]
    ensures multiset(log) == multiset(before + Fresh(before, Between(chain, lo, hi)))
       <==> forall k :: 0 <= k < |batches| && batches[k] in failing ==> !HasNew(before, chain, batches[k])
  {
    forall k | 0 <= k < |batches| ensures batches[k].end < hi + 1 { PartitionWithin(batches, lo, hi, k); }
    EmptyBetween(chain, hi + 1, hi);
    assert log + [] == log;
    WholeExactly(before, log, chain, lo, hi, batches, failing, done, hi + 1);
  }

  /** The first of two batches fails, the second commits: all events are in the first, the resume starts past both. */
  lemma {:induction false} FailedBatchLost(chain: seq<Entry>, l: nat, batches: seq<Batch>, done: set<Batch>)
    requires |chain| > 0 && forall d :: d in chain ==> d.id.ledger == l
    requires batches == [Batch(l, l), Batch(l + 1, l + 1)] && done == {Batch(l + 1, l + 1)}
    ensures Partition(batches, l, l + 1) && Progress([], [], chain, l, l + 1, done)
    ensures CheckpointIs(l + 1, 0, chain, batches, done, 1)
    ensures HasNew([], chain, batches[0]) && Fresh([], Between(chain, ResumePoint(l + 1, l), l + 1)) == []
  {
    NoneDue(chain, l, done);
    EmptyBetween(chain, l + 2, l + 1);
    NewAtFirst(chain, l);
  }

  lemma {:induction false} NewAtFirst(chain: seq<Entry>, l: nat)
    requires |chain| > 0 && forall d :: d in chain ==> d.id.ledger == l
    ensures Fresh([], Between(chain, l, l)) != []
  {
    BetweenMembers(chain, l, l);
    assert chain[0] in Between(chain, l, l);
    SelfTaken([], Between(chain, l, l), chain[0]);
  }

  lemma {:induction false} NoneDue(chain: seq<Entry>, l: nat, done: set<Batch>)
    requires done == {Batch(l + 1, l + 1)} && forall d :: d in chain ==> d.id.ledger <= l
    ensures Progress([], [], chain, l, l + 1, done)
  {
    FreshWithin([], chain, l, l + 1);
    var due := Fresh([], Between(chain, l, l + 1));
    forall d: Entry | Covers(done, d.id.ledger) ensures Due([], chain, l, l + 1, d) == 0 {
      assert d in multiset(due) <==> d in due;
    }
  }

  // ---------------------------------------------------------------- the job

  /** A run of a job: a new or failed one starts, any other is refused; an exception leaves it failed. */
  method RunJob(job: BackfillRun, chain: seq<Entry>, startLedger: nat, endLedger: nat, batchSize: nat, concurrency: nat,
                failing: set<Batch>, throws: bool)
    returns (ok: bool, ghost batches: seq<Batch>, ghost done: set<Batch>, ghost last: int)
    requires ByLedger(chain) && batchSize > 0 && concurrency > 0
    modifies job
    ensures ok <==> old(job.status) == Pending || old(job.status) == Failed
    ensures !ok ==> unchanged(job)
    ensures ok ==> job.status == if throws then Failed else Completed
    ensures ok ==> job.totalInserted == old(job.storedTotal) + |job.log| - |old(job.log)|
    ensures ok ==> job.storedTotal <= job.totalInserted && (!throws ==> job.storedTotal == job.totalInserted)
    ensures ok ==> var from := ResumePoint(old(job.checkpointLedger), startLedger);
                   && Partition(batches, from, if from <= endLedger then endLedger else from - 1)
                   && Progress(old(job.log), job.log, chain, from,
                               if from <= endLedger then endLedger else from - 1, done)
                   && (failing == {} ==>
                         multiset(job.log) ==
                         multiset(old(job.log) + Fresh(old(job.log), Between(chain, from, endLedger))))
    ensures ok ==> done == set k | 0 <= k < |batches| && batches[k] !in failing :: batches[k]
    ensures ok && throws ==> CheckpointIs(job.checkpointLedger, old(job.checkpointLedger), chain, batches, done, last)
    ensures ok && !throws ==> job.checkpointLedger == endLedger && -1 <= last < |batches|
  {
    ok, batches, done, last := job.status == Pending || job.status == Failed, [], {}, -1;
    if ok {
      job.status := Running;
      batches, done, last := job.RunBackfill(chain, startLedger, endLedger, batchSize, concurrency, failing);
      if throws {
        job.status := Failed;
      } else {
        job.status, job.checkpointLedger, job.storedTotal := Completed, endLedger, job.totalInserted;
      }
    }
  }

  /**
    A job whose batches in `failing` did not commit, then a resume in which all do.  If the run threw, the resume
    makes up for them exactly if those before the batch that committed last held nothing new; if
    it did not, the job is Completed, the resume is refused, and all of them must have held nothing new.
    The job's total is never too high, and exact unless the run threw.
  */
  method RunThenResume(job: BackfillRun, chain: seq<Entry>, startLedger: nat, endLedger: nat, batchSize: nat,
                       concurrency: nat, failing: set<Batch>, throws: bool)
    returns (ghost batches: seq<Batch>, ghost last: int)
    requires ByLedger(chain) && batchSize > 0 && concurrency > 0 && startLedger <= endLedger
    requires job.status == Pending && job.checkpointLedger == 0
    modifies job
    ensures job.status == Completed && Partition(batches, startLedger, endLedger)
    ensures -1 <= last < |batches|
    ensures throws && last == -1 ==> forall k :: 0 <= k < |batches| ==> batches[k] in failing
    ensures throws && last != -1 ==> batches[last] !in failing
    ensures job.storedTotal <= old(job.storedTotal) + |job.log| - |old(job.log)|
    ensures !throws ==> job.storedTotal == old(job.storedTotal) + |job.log| - |old(job.log)|
    ensures multiset(job.log) == multiset(old(job.log) + Fresh(old(job.log), Between(chain, startLedger, endLedger)))
       <==> forall k :: 0 <= k < (if throws then last else |batches|) && batches[k] in failing ==>
                          !HasNew(old(job.log), chain, batches[k])
  {
    var ok;
    ghost var done;
    ok, batches, done, last := RunJob(job, chain, startLedger, endLedger, batchSize, concurrency, failing, throws);
    if throws {
      ResumedExactly(old(job.log), job.log, chain, startLedger, endLedger, batches, failing, done, last,
                     job.checkpointLedger);
    } else {
      CompletedExactly(old(job.log), job.log, chain, startLedger, endLedger, batches, failing, done);
    }
    var _, _, _, _ := RunJob(job, chain, startLedger, endLedger, batchSize, concurrency, {}, false);
  }
}
