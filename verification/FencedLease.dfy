/**
  The fenced lease of one role: a single lease row, clock-derived tokens, and any number of
  instances whose database updates and local updates are separate steps.
*/
module FencedLease {
  import opened Wrappers

  datatype Row = Row(owner: nat, token: nat)

  /** A renewal in flight: computed from the local token, written to the row, then copied back. */
  datatype Flight = Flight(owner: nat, token: nat, done: bool)

  /** An acquisition in flight: the clock reading, and whether the row has been created. */
  datatype Acquire = Acquire(stamp: nat, created: bool)

  datatype Write = Write(owner: nat, token: nat, row: Row)

  /** `lastIssue` is the clock at the last row write, `floor` the token the present row was created with. */
  datatype State = State(
    row: Option<Row>, local: map<nat, nat>, flights: map<nat, Flight>, acquires: map<nat, Acquire>,
    now: nat, lastIssue: nat, floor: nat, writes: seq<Write>)

  datatype Label =
    | Tick
    | ReadClock(o: nat) | CreateRow(o: nat) | FinishAcquire(o: nat)
    | BeginRenew(o: nat, k: nat) | RenewRow(k: nat) | FinishRenew(k: nat) | RenewFails(k: nat)
    | Release(o: nat) | DeleteRow
    | FencedWrite(o: nat)

  /** `assertCurrentToken`: there is a local lease, the row exists and its token is not ahead. */
  predicate Passes(s: State, o: nat) {
    o in s.local && s.row.Some? && s.row.value.token <= s.local[o]
  }

  predicate Owns(s: State, o: nat) { s.row.Some? && s.row.value.owner == o }

  predicate Enabled(s: State, l: Label) {
    match l
    case ReadClock(o) => o !in s.acquires
    case CreateRow(o) => o in s.acquires && !s.acquires[o].created
    case FinishAcquire(o) => o in s.acquires && s.acquires[o].created
    case BeginRenew(o, k) => o in s.local && k !in s.flights
    case RenewRow(k) => k in s.flights && !s.flights[k].done
    case FinishRenew(k) => k in s.flights && s.flights[k].done
    case RenewFails(k) => k in s.flights
    case _ => true
  }

  function Step(s: State, l: Label): State
    requires Enabled(s, l)
  {
    match l
    case Tick => s.(now := s.now + 1)
    case ReadClock(o) => s.(acquires := s.acquires[o := Acquire(s.now, false)])
    case CreateRow(o) =>
      var stamp := s.acquires[o].stamp;
      if s.row.Some? then s.(acquires := s.acquires - {o})
      else s.(row := Some(Row(o, stamp)), acquires := s.acquires[o := Acquire(stamp, true)], lastIssue := s.now, floor := stamp)
    case FinishAcquire(o) => s.(local := s.local[o := s.acquires[o].stamp], acquires := s.acquires - {o})
    case BeginRenew(o, k) => s.(flights := s.flights[k := Flight(o, s.local[o] + 1, false)])
    case RenewRow(k) =>
      var f := s.flights[k];
      if Owns(s, f.owner)
      then s.(row := Some(Row(f.owner, f.token)), flights := s.flights[k := f.(done := true)], lastIssue := s.now)
      else s.(local := s.local - {f.owner}, flights := s.flights - {k})
    case FinishRenew(k) =>
      var f := s.flights[k];
      s.(local := if f.owner in s.local then s.local[f.owner := f.token] else s.local, flights := s.flights - {k})
    case RenewFails(k) => s.(local := s.local - {s.flights[k].owner}, flights := s.flights - {k})
    case Release(o) => s.(local := s.local - {o})
    case DeleteRow => s.(row := None)
    case FencedWrite(o) => if Passes(s, o) then s.(writes := s.writes + [Write(o, s.local[o], s.row.value)]) else s
  }

  const INITIAL := State(None, map[], map[], map[], 0, 0, 0, [])

  ghost predicate Path(states: seq<State>, labels: seq<Label>) {
    && |states| == |labels| + 1
    && forall i :: 0 <= i < |labels| ==> Enabled(states[i], labels[i]) && states[i + 1] == Step(states[i], labels[i])
  }

  ghost predicate Run(states: seq<State>, labels: seq<Label>) { Path(states, labels) && states[0] == INITIAL }

  // ------------------------------------------------- who can write: the exact guard

  predicate Creating(s: State, o: nat) { o in s.acquires && s.acquires[o].created }

  /** Every token another instance holds, or will hold once an answer under way reaches it, is below `token`. */
  ghost predicate OthersUnder(s: State, o: nat, token: nat) {
    && (forall p :: p != o && p in s.local ==> s.local[p] < token)
    && (forall p :: p != o && Creating(s, p) ==> s.acquires[p].stamp < token)
    && (forall k :: k in s.flights && s.flights[k].owner != o && Landed(s, k) ==> s.flights[k].token < token)
  }

  /** A renewal that has landed and whose instance still has, or will have, a local lease to copy it to. */
  predicate Landed(s: State, k: nat)
    requires k in s.flights
  {
    s.flights[k].done && (s.flights[k].owner in s.local || Creating(s, s.flights[k].owner))
  }

  predicate Lands(s: State, k: nat) { k in s.flights && !s.flights[k].done && Owns(s, s.flights[k].owner) }

  predicate Creates(s: State, o: nat) { s.row.None? && o in s.acquires && !s.acquires[o].created }

  /** A step that writes the row writes a token above every other instance's. */
  ghost predicate Fences(s: State, l: Label) {
    && (l.CreateRow? && Creates(s, l.o) ==> OthersUnder(s, l.o, s.acquires[l.o].stamp))
    && (l.RenewRow? && Lands(s, l.k) ==> OthersUnder(s, s.flights[l.k].owner, s.flights[l.k].token))
  }

  ghost predicate AllFence(states: seq<State>, labels: seq<Label>) {
    |states| == |labels| + 1 && forall i :: 0 <= i < |labels| ==> Fences(states[i], labels[i])
  }

  ghost predicate Fenced(s: State) {
    && (s.row.Some? ==> OthersUnder(s, s.row.value.owner, s.row.value.token))
    && (forall i :: 0 <= i < |s.writes| ==> s.writes[i].owner == s.writes[i].row.owner)
  }

  lemma {:induction false} FenceWritten(s: State, l: Label)
    requires Fenced(s) && Enabled(s, l) && Fences(s, l) && (l.CreateRow? || l.RenewRow?)
    ensures Fenced(Step(s, l))
  {
    var t := Step(s, l);
    assert forall p :: Creating(t, p) ==> Creating(s, p) || (l == CreateRow(p) && s.row.None?);
  }

  lemma {:induction false} FenceUntouched(s: State, l: Label)
    requires Fenced(s) && Enabled(s, l) && !l.CreateRow? && !l.RenewRow?
    ensures Fenced(Step(s, l))
  {
    var t := Step(s, l);
    assert forall p :: Creating(t, p) ==> Creating(s, p);
  }

  lemma {:induction false} FenceKept(s: State, l: Label)
    requires Fenced(s) && Enabled(s, l) && Fences(s, l)
    ensures Fenced(Step(s, l))
  {
    if l.CreateRow? || l.RenewRow? { FenceWritten(s, l); } else { FenceUntouched(s, l); }
  }

  lemma {:induction false} FencedReachable(states: seq<State>, labels: seq<Label>, i: nat)
    requires Run(states, labels) && AllFence(states, labels) && i < |states|
    ensures Fenced(states[i])
  {
    if i > 0 {
      FencedReachable(states, labels, i - 1);
      FenceKept(states[i - 1], labels[i - 1]);
    }
  }

  /**
    In every run in which each token written to the row is above every other instance's, a fenced
    write commits only for the instance whose row is in the table.
  */
  lemma {:induction false} OnlyOwnersWrite(states: seq<State>, labels: seq<Label>, i: nat, o: nat)
    requires Run(states, labels) && AllFence(states, labels) && i < |states|
    ensures Passes(states[i], o) ==> Owns(states[i], o)
    ensures forall j :: 0 <= j < |states[i].writes| ==> states[i].writes[j].owner == states[i].writes[j].row.owner
  {
    FencedReachable(states, labels, i);
  }

  /** Steps from `s` to `t`. */
  ghost predicate Leads(s: State, labels: seq<Label>, t: State)
    decreases |labels|
  {
    if |labels| == 0 then s == t else Enabled(s, labels[0]) && Leads(Step(s, labels[0]), labels[1..], t)
  }

  ghost predicate StrangerWrote(s: State) {
    |s.writes| > 0 && s.writes[|s.writes| - 1].owner != s.writes[|s.writes| - 1].row.owner
  }

  /** The guard is exact: a row write that breaks it lets another instance's write commit after it. */
  lemma {:induction false} BrokenFenceAdmitsStranger(s: State, l: Label) returns (labels: seq<Label>, t: State)
    requires Enabled(s, l) && !Fences(s, l)
    ensures Leads(Step(s, l), labels, t) && StrangerWrote(t)
  {
    var u := Step(s, l);
    var o := u.row.value.owner;
    var token := u.row.value.token;
    assert !OthersUnder(s, o, token);
    if p :| p != o && p in s.local && token <= s.local[p] {
      labels, t := WriteNow(u, p);
    } else if p :| p != o && Creating(s, p) && token <= s.acquires[p].stamp {
      labels, t := WriteNow(Step(u, FinishAcquire(p)), p);
      labels := Prepend(u, FinishAcquire(p), labels, t);
    } else {
      var k :| k in s.flights && s.flights[k].owner != o && Landed(s, k) && token <= s.flights[k].token;
      labels, t := WriteAfterRenewal(u, k);
    }
  }

  lemma {:induction false} Prepend(s: State, l: Label, labels: seq<Label>, t: State) returns (all: seq<Label>)
    requires Enabled(s, l) && Leads(Step(s, l), labels, t)
    ensures Leads(s, all, t) && all == [l] + labels
  {
    all := [l] + labels;
    assert all[1..] == labels;
  }

  lemma {:induction false} WriteNow(s: State, p: nat) returns (labels: seq<Label>, t: State)
    requires Passes(s, p) && !Owns(s, p)
    ensures Leads(s, labels, t) && StrangerWrote(t)
  {
    t := Step(s, FencedWrite(p));
    labels := Prepend(s, FencedWrite(p), [], t);
  }

  lemma {:induction false} WriteAfterRenewal(s: State, k: nat) returns (labels: seq<Label>, t: State)
    requires k in s.flights && s.flights[k].done && s.row.Some? && !Owns(s, s.flights[k].owner) && s.row.value.token <= s.flights[k].token
    requires s.flights[k].owner in s.local || Creating(s, s.flights[k].owner)
    ensures Leads(s, labels, t) && StrangerWrote(t)
  {
    var p := s.flights[k].owner;
    if p in s.local {
      labels, t := WriteNow(Step(s, FinishRenew(k)), p);
      labels := Prepend(s, FinishRenew(k), labels, t);
    } else {
      var u := Step(s, FinishAcquire(p));
      labels, t := WriteNow(Step(u, FinishRenew(k)), p);
      labels := Prepend(u, FinishRenew(k), labels, t);
      labels := Prepend(s, FinishAcquire(p), labels, t);
    }
  }

  // ------------------------------------------------ what the clock guarantees

  /**
    The clock has advanced since the last row write before an acquisition reads it, and by at
    least one since the last token before a renewal lands.
  */
  predicate Timely(s: State, l: Label) {
    match l
    case CreateRow(o) => Creates(s, o) ==> s.lastIssue < s.acquires[o].stamp
    case RenewRow(k) => Lands(s, k) ==> s.flights[k].token <= s.now
    case _ => true
  }

  /** A renewal computed before the present row was created does not land on it. */
  predicate InTenure(s: State, l: Label) {
    l.RenewRow? && Lands(s, l.k) ==> s.floor <= s.flights[l.k].token
  }

  ghost predicate AllTimely(states: seq<State>, labels: seq<Label>) {
    |states| == |labels| + 1 && forall i :: 0 <= i < |labels| ==> Timely(states[i], labels[i])
  }

  ghost predicate AllInTenure(states: seq<State>, labels: seq<Label>) {
    |states| == |labels| + 1 && forall i :: 0 <= i < |labels| ==> InTenure(states[i], labels[i])
  }

  ghost predicate ClockHolds(s: State) {
    && s.lastIssue <= s.now
    && (forall o :: o in s.acquires ==> s.acquires[o].stamp <= s.now)
    && (forall o :: o in s.local ==> s.local[o] <= s.lastIssue)
    && (forall o :: Creating(s, o) ==> s.acquires[o].stamp <= s.lastIssue)
    && (forall k :: k in s.flights ==> s.flights[k].token <= s.lastIssue + if s.flights[k].done then 0 else 1)
    && (s.row.Some? ==> s.floor <= s.row.value.token <= s.lastIssue)
  }

  /** Every other instance's tokens are below the token the present row was created with. */
  ghost predicate Inv(s: State) { ClockHolds(s) && (s.row.Some? ==> OthersUnder(s, s.row.value.owner, s.floor)) }

  lemma {:induction false} AcquireKeeps(s: State, l: Label)
    requires Inv(s) && Enabled(s, l) && Timely(s, l) && (l.ReadClock? || l.CreateRow? || l.FinishAcquire?)
    ensures Inv(Step(s, l))
  {
    var t := Step(s, l);
    assert t.flights == s.flights;
    assert forall p :: Creating(t, p) ==> Creating(s, p) || (l == CreateRow(p) && s.row.None?);
  }

  lemma {:induction false} RenewKeeps(s: State, l: Label)
    requires Inv(s) && Enabled(s, l) && Timely(s, l) && InTenure(s, l) && (l.BeginRenew? || l.RenewRow? || l.FinishRenew? || l.RenewFails?)
    ensures Inv(Step(s, l))
  {
    assert Step(s, l).acquires == s.acquires;
  }

  lemma {:induction false} OtherKeeps(s: State, l: Label)
    requires Inv(s) && Enabled(s, l) && (l.Tick? || l.Release? || l.DeleteRow? || l.FencedWrite?)
    ensures Inv(Step(s, l))
  {
    assert Step(s, l).acquires == s.acquires && Step(s, l).flights == s.flights;
  }

  lemma {:induction false} EveryStep(s: State, l: Label)
    requires Inv(s) && Enabled(s, l) && Timely(s, l) && InTenure(s, l)
    ensures Inv(Step(s, l)) && Fences(s, l)
  {
    if l.ReadClock? || l.CreateRow? || l.FinishAcquire? { AcquireKeeps(s, l); }
    if l.BeginRenew? || l.RenewRow? || l.FinishRenew? || l.RenewFails? { RenewKeeps(s, l); }
    if l.Tick? || l.Release? || l.DeleteRow? || l.FencedWrite? { OtherKeeps(s, l); }
  }

  lemma {:induction false} Reachable(states: seq<State>, labels: seq<Label>, i: nat)
    requires Run(states, labels) && AllTimely(states, labels) && AllInTenure(states, labels) && i < |states|
    ensures Inv(states[i])
  {
    if i > 0 {
      Reachable(states, labels, i - 1);
      EveryStep(states[i - 1], labels[i - 1]);
    }
  }

  /**
    With a clock that advances between row writes and no renewal landing on a later row than it
    was computed for, every row write fences, however renewals overlap.
  */
  lemma {:induction false} ClockFences(states: seq<State>, labels: seq<Label>)
    requires Run(states, labels) && AllTimely(states, labels) && AllInTenure(states, labels)
    ensures AllFence(states, labels)
  {
    forall i | 0 <= i < |labels| ensures Fences(states[i], labels[i]) {
      Reachable(states, labels, i);
      EveryStep(states[i], labels[i]);
    }
  }

  /** So in every such run a fenced write commits only for the instance whose row is in the table. */
  lemma {:induction false} TimelyOwnersWrite(states: seq<State>, labels: seq<Label>, i: nat, o: nat)
    requires Run(states, labels) && AllTimely(states, labels) && AllInTenure(states, labels) && i < |states|
    ensures Passes(states[i], o) ==> Owns(states[i], o)
    ensures forall j :: 0 <= j < |states[i].writes| ==> states[i].writes[j].owner == states[i].writes[j].row.owner
  {
    ClockFences(states, labels);
    OnlyOwnersWrite(states, labels, i, o);
  }

  // ----------------------------------------------------- monotone tokens

  /** A flight of the present tenure, or a copy from before it that could start one. */
  predicate Current(s: State, f: Flight) { s.floor <= f.token + if f.done then 1 else 0 }

  /**
    The row's owner starts a renewal only when none of its answers still under way carries a token
    as old as the one it holds: no current flight, landed or not, and no finished creation.
  */
  predicate CaughtUp(s: State, l: Label) {
    l.BeginRenew? && l.o in s.local && Owns(s, l.o) ==>
      && (forall k :: k in s.flights && s.flights[k].owner == l.o && Current(s, s.flights[k]) ==> s.local[l.o] < s.flights[k].token)
      && (Creating(s, l.o) ==> s.local[l.o] < s.acquires[l.o].stamp)
  }

  ghost predicate AllCaughtUp(states: seq<State>, labels: seq<Label>) {
    |states| == |labels| + 1 && forall i :: 0 <= i < |labels| ==> CaughtUp(states[i], labels[i])
  }

  /** A renewal one ahead of the row is under way. */
  predicate Ahead(s: State, o: nat, token: nat) {
    exists k :: k in s.flights && s.flights[k].owner == o && !s.flights[k].done && s.flights[k].token == token + 1
  }

  /** A local token too old for a renewal computed from it to land. */
  predicate Spent(s: State, o: nat) { o in s.local && s.local[o] + 1 < s.floor }

  /** Nothing of the owner's is ahead of the row by more than the one renewal under way. */
  ghost predicate Level(s: State, o: nat, token: nat) {
    && (o in s.local ==> s.local[o] <= token)
    && (forall k :: k in s.flights && s.flights[k].owner == o && s.flights[k].done ==> s.flights[k].token <= token)
    && (forall k :: k in s.flights && s.flights[k].owner == o && !s.flights[k].done && s.floor <= s.flights[k].token ==>
          token <= s.flights[k].token <= token + 1)
    && (Creating(s, o) ==> s.acquires[o].stamp == s.floor)
  }

  /** While a renewal one ahead is under way it is the only current kind, and the local token is the row's. */
  ghost predicate AheadHolds(s: State, o: nat, token: nat) {
    Ahead(s, o, token) ==>
      && !Creating(s, o) && (o in s.local ==> s.local[o] == token || Spent(s, o))
      && (forall k :: k in s.flights && s.flights[k].owner == o && Current(s, s.flights[k]) ==>
                        !s.flights[k].done && s.flights[k].token == token + 1)
  }

  /** Once the row has been renewed, nothing current of the owner's is behind it by more than one. */
  ghost predicate RenewedHolds(s: State, o: nat, token: nat) {
    s.floor < token ==>
      && !Creating(s, o) && (o in s.local ==> token <= s.local[o] + 1 || Spent(s, o))
      && (forall k :: k in s.flights && s.flights[k].owner == o && Current(s, s.flights[k]) ==> token <= s.flights[k].token)
  }

  ghost predicate WritesInOrder(s: State) {
    && (forall i, j :: 0 <= i <= j < |s.writes| ==> s.writes[i].token <= s.writes[j].token)
    && (forall i :: 0 <= i < |s.writes| ==> s.writes[i].token <= s.lastIssue && s.writes[i].token == s.writes[i].row.token)
    && (s.row.Some? ==> forall i :: 0 <= i < |s.writes| ==> s.writes[i].token <= s.row.value.token)
  }

  ghost predicate Ordered(s: State) {
    && WritesInOrder(s)
    && (s.row.Some? ==> var o, token := s.row.value.owner, s.row.value.token;
          Level(s, o, token) && AheadHolds(s, o, token) && RenewedHolds(s, o, token))
  }

  lemma {:induction false} AcquireOrders(s: State, l: Label)
    requires Inv(s) && Ordered(s) && Enabled(s, l) && Timely(s, l) && (l.ReadClock? || l.CreateRow? || l.FinishAcquire?)
    ensures Ordered(Step(s, l))
  {
    var t := Step(s, l);
    assert t.flights == s.flights;
    assert forall p :: Creating(t, p) ==> Creating(s, p) || (l == CreateRow(p) && s.row.None?);
    assert forall o, token :: Ahead(t, o, token) == Ahead(s, o, token);
  }

  lemma {:induction false} BeginOrders(s: State, o: nat, k: nat)
    requires Inv(s) && Ordered(s) && Enabled(s, BeginRenew(o, k)) && CaughtUp(s, BeginRenew(o, k))
    ensures Ordered(Step(s, BeginRenew(o, k)))
  {
    var t := Step(s, BeginRenew(o, k));
    assert t.acquires == s.acquires && t.local == s.local;
    forall j | j in s.flights ensures t.flights[j] == s.flights[j] {}
    if Owns(s, o) {
      var token := s.row.value.token;
      assert Ahead(t, o, token) ==> Ahead(s, o, token) || s.local[o] == token;
    } else if s.row.Some? {
      var p, token := s.row.value.owner, s.row.value.token;
      assert Ahead(t, p, token) ==> Ahead(s, p, token);
    }
  }

  lemma {:induction false} LandOrders(s: State, k: nat)
    requires Inv(s) && Ordered(s) && Enabled(s, RenewRow(k)) && InTenure(s, RenewRow(k)) && Lands(s, k)
    ensures Ordered(Step(s, RenewRow(k)))
  {
    var t, f, token := Step(s, RenewRow(k)), s.flights[k], s.row.value.token;
    assert t.acquires == s.acquires && t.local == s.local;
    assert forall j :: j in s.flights && j != k ==> t.flights[j] == s.flights[j];
    if f.token == token + 1 { assert Ahead(s, f.owner, token); }
    assert !Ahead(t, f.owner, f.token);
  }

  lemma {:induction false} FinishOrders(s: State, k: nat)
    requires Inv(s) && Ordered(s) && Enabled(s, FinishRenew(k))
    ensures Ordered(Step(s, FinishRenew(k)))
  {
    var t := Step(s, FinishRenew(k));
    assert t.acquires == s.acquires;
    assert forall o, token :: Ahead(t, o, token) ==> Ahead(s, o, token);
  }

  lemma {:induction false} FailOrders(s: State, l: Label)
    requires Ordered(s) && Enabled(s, l) && (l.RenewFails? || (l.RenewRow? && !Lands(s, l.k)))
    ensures Ordered(Step(s, l))
  {
    var t := Step(s, l);
    assert t.acquires == s.acquires;
    assert forall o, token :: Ahead(t, o, token) ==> Ahead(s, o, token);
  }

  lemma {:induction false} OtherOrders(s: State, l: Label)
    requires Ordered(s) && Enabled(s, l) && (l.Tick? || l.Release? || l.DeleteRow?)
    ensures Ordered(Step(s, l))
  {
    var t := Step(s, l);
    assert t.flights == s.flights && t.acquires == s.acquires;
    assert forall o, token :: Ahead(t, o, token) == Ahead(s, o, token);
  }

  lemma {:induction false} WriteOrders(s: State, o: nat)
    requires Inv(s) && Ordered(s)
    ensures Ordered(Step(s, FencedWrite(o)))
  {
    var t := Step(s, FencedWrite(o));
    if Passes(s, o) {
      var p, token := s.row.value.owner, s.row.value.token;
      assert Owns(s, o);
      assert Level(t, p, token) && AheadHolds(t, p, token) && RenewedHolds(t, p, token) by {
        assert Ahead(t, p, token) == Ahead(s, p, token);
      }
    }
  }

  lemma {:induction false} EveryStepOrders(s: State, l: Label)
    requires Inv(s) && Ordered(s) && Enabled(s, l) && Timely(s, l) && InTenure(s, l) && CaughtUp(s, l)
    ensures Ordered(Step(s, l))
  {
    if l.ReadClock? || l.CreateRow? || l.FinishAcquire? { AcquireOrders(s, l); }
    if l.BeginRenew? { BeginOrders(s, l.o, l.k); }
    if l.RenewRow? && Lands(s, l.k) { LandOrders(s, l.k); }
    if l.FinishRenew? { FinishOrders(s, l.k); }
    if l.RenewFails? || (l.RenewRow? && !Lands(s, l.k)) { FailOrders(s, l); }
    if l.Tick? || l.Release? || l.DeleteRow? { OtherOrders(s, l); }
    if l.FencedWrite? { WriteOrders(s, l.o); }
  }

  lemma {:induction false} OrderedReachable(states: seq<State>, labels: seq<Label>, i: nat)
    requires Run(states, labels) && AllTimely(states, labels) && AllInTenure(states, labels) && AllCaughtUp(states, labels) && i < |states|
    ensures Ordered(states[i])
  {
    if i > 0 {
      Reachable(states, labels, i - 1);
      OrderedReachable(states, labels, i - 1);
      EveryStepOrders(states[i - 1], labels[i - 1]);
    }
  }

  /**
    In every such run in which the row's owner starts a renewal only when it has caught up, the
    tokens of committed writes never decrease, and each equals the row's token at that moment.
  */
  lemma {:induction false} TokensNeverDecrease(states: seq<State>, labels: seq<Label>, i: nat)
    requires Run(states, labels) && AllTimely(states, labels) && AllInTenure(states, labels) && AllCaughtUp(states, labels) && i < |states|
    ensures forall j, k :: 0 <= j <= k < |states[i].writes| ==> states[i].writes[j].token <= states[i].writes[k].token
    ensures forall j :: 0 <= j < |states[i].writes| ==>
              states[i].writes[j].owner == states[i].writes[j].row.owner && states[i].writes[j].token == states[i].writes[j].row.token
  {
    ClockFences(states, labels);
    FencedReachable(states, labels, i);
    OrderedReachable(states, labels, i);
  }

  // ------------------------------------- the guards of the second result are needed

  /** Timely steps within their tenures from `s` to `t`. */
  ghost predicate Goes(s: State, labels: seq<Label>, t: State)
    decreases |labels|
  {
    if |labels| == 0 then s == t
    else Enabled(s, labels[0]) && Timely(s, labels[0]) && InTenure(s, labels[0]) && Goes(Step(s, labels[0]), labels[1..], t)
  }

  /** The last committed write has a smaller token than the one before it. */
  ghost predicate WentBack(s: State) {
    var n := |s.writes|;
    n >= 2 && s.writes[n - 1].token < s.writes[n - 2].token
  }

  lemma {:induction false} Join(s: State, a: seq<Label>, m: State, b: seq<Label>, t: State)
    requires Goes(s, a, m) && Goes(m, b, t)
    ensures Goes(s, a + b, t)
    decreases |a|
  {
    if |a| == 0 {
      assert a + b == b;
    } else {
      assert (a + b)[1..] == a[1..] + b;
      Join(Step(s, a[0]), a[1..], m, b, t);
    }
  }

  lemma {:induction false} Then(s: State, labels: seq<Label>, m: State, l: Label) returns (all: seq<Label>, t: State)
    requires Goes(s, labels, m) && Enabled(m, l) && Timely(m, l) && InTenure(m, l)
    ensures Goes(s, all, t) && t == Step(m, l)
  {
    t := Step(m, l);
    var one, none: seq<Label> := [l], [];
    assert one[1..] == none && Goes(t, none, t);
    assert Goes(m, one, t);
    Join(s, labels, m, one, t);
    all := labels + one;
  }

  lemma {:induction false} Wait(s: State, labels: seq<Label>, m: State, n: nat) returns (all: seq<Label>, t: State)
    requires Goes(s, labels, m)
    ensures Goes(s, all, t) && t == m.(now := m.now + n)
  {
    all, t := labels, m;
    if n > 0 {
      all, t := Wait(s, labels, m, n - 1);
      all, t := Then(s, all, t, Tick);
    }
  }

  /** The state after one whole renewal, the clock moved on as far as it takes. */
  function AfterRenewal(s: State, o: nat): State
    requires o in s.local
  {
    var token := s.local[o] + 1;
    var now := if s.now < token then token else s.now;
    s.(row := Some(Row(o, token)), local := s.local[o := token], now := now, lastIssue := now)
  }

  /** A renewal under way lands and is copied back. */
  lemma {:induction false} Completion(s: State, labels: seq<Label>, m: State, o: nat, k: nat)
    returns (all: seq<Label>, t: State)
    requires Goes(s, labels, m) && Owns(m, o) && o in m.local && k in m.flights && m.floor <= m.flights[k].token
    requires m.flights[k] == Flight(o, m.local[o] + 1, false)
    ensures Goes(s, all, t) && t == AfterRenewal(m, o).(flights := m.flights - {k})
  {
    var token := m.local[o] + 1;
    all, t := Wait(s, labels, m, if m.now < token then token - m.now else 0);
    all, t := Then(s, all, t, RenewRow(k));
    all, t := Then(s, all, t, FinishRenew(k));
    assert t.flights == m.flights - {k};
  }

  lemma {:induction false} Renewal(s: State, labels: seq<Label>, m: State, o: nat, k: nat)
    returns (all: seq<Label>, t: State)
    requires Goes(s, labels, m) && Owns(m, o) && o in m.local && k !in m.flights && m.floor <= m.local[o] + 1
    ensures Goes(s, all, t) && t == AfterRenewal(m, o)
  {
    all, t := Then(s, labels, m, BeginRenew(o, k));
    all, t := Completion(s, all, t, o, k);
    assert t.flights == m.flights;
  }

  /** The owner writes, its local token falls back to `past`, and it renews and writes again. */
  lemma {:induction false} FallsBack(s: State, labels: seq<Label>, m: State, o: nat, k: nat, back: Label, past: nat)
    returns (all: seq<Label>, t: State)
    requires Goes(s, labels, m) && Passes(m, o) && Owns(m, o) && k !in m.flights && past + 1 < m.local[o] && m.floor <= past + 1
    requires back == FinishAcquire(o) || (back.FinishRenew? && back.k != k)
    requires Enabled(m, back) && Step(m, back).local == m.local[o := past] && Step(m, back).row == m.row
    ensures Goes(s, all, t) && WentBack(t)
  {
    var token := m.local[o];
    all, t := Then(s, labels, m, FencedWrite(o));
    assert t.writes[|t.writes| - 1].token == token;
    var n := |t.writes|;
    all, t := Then(s, all, t, back);
    all, t := Renewal(s, all, t, o, k);
    all, t := Then(s, all, t, FencedWrite(o));
    assert |t.writes| == n + 1 && t.writes[n].token == past + 1 && t.writes[n - 1].token == token;
  }

  /** An old renewal that has not landed takes row and local token back. */
  lemma {:induction false} LandsLate(s: State, labels: seq<Label>, m: State, o: nat, j: nat)
    returns (all: seq<Label>, t: State)
    requires Goes(s, labels, m) && Passes(m, o) && Owns(m, o) && Lands(m, j) && m.flights[j].owner == o
    requires m.floor <= m.flights[j].token < m.local[o] && m.flights[j].token <= m.now
    ensures Goes(s, all, t) && WentBack(t)
  {
    var token := m.local[o];
    all, t := Then(s, labels, m, FencedWrite(o));
    var n := |t.writes|;
    assert t.writes[n - 1].token == token;
    all, t := Then(s, all, t, RenewRow(j));
    all, t := Then(s, all, t, FinishRenew(j));
    all, t := Then(s, all, t, FencedWrite(o));
    assert |t.writes| == n + 1 && t.writes[n - 1].token == token;
  }

  /**
    Catching up is needed: whenever the row's owner starts a renewal without having caught up,
    timely steps within their tenures lead from there to a write with a smaller token.
  */
  lemma {:induction false} BehindGoesBack(s: State, o: nat, k: nat) returns (labels: seq<Label>, t: State)
    requires Inv(s) && Ordered(s) && Enabled(s, BeginRenew(o, k)) && Owns(s, o) && !CaughtUp(s, BeginRenew(o, k))
    ensures Goes(Step(s, BeginRenew(o, k)), labels, t) && WentBack(t)
  {
    var u := Step(s, BeginRenew(o, k));
    labels := [];
    labels, t := Completion(u, labels, u, o, k);
    assert t.flights == s.flights && t.acquires == s.acquires;
    if j :| j in s.flights && s.flights[j].owner == o && Current(s, s.flights[j]) && s.flights[j].token <= s.local[o] {
      if s.flights[j].done {
        labels, t := Renewal(u, labels, t, o, k);
        labels, t := FallsBack(u, labels, t, o, k, FinishRenew(j), s.flights[j].token);
      } else {
        labels, t := LandsLate(u, labels, t, o, j);
      }
    } else {
      labels, t := Renewal(u, labels, t, o, k);
      labels, t := FallsBack(u, labels, t, o, k, FinishAcquire(o), s.acquires[o].stamp);
    }
  }

  /**
    Staying in the tenure is needed: a renewal computed before the present row was created, once it
    lands, takes the owner from the token it may write with now to a smaller one.
  */
  lemma {:induction false} LeftoverTakesBack(s: State, o: nat, j: nat) returns (labels: seq<Label>, t: State)
    requires Inv(s) && Passes(s, o) && Owns(s, o) && Lands(s, j) && s.flights[j].owner == o && !InTenure(s, RenewRow(j))
    ensures Timely(s, RenewRow(j)) && Leads(s, labels, t) && WentBack(t)
  {
    var a := Step(s, FencedWrite(o));
    var b := Step(a, RenewRow(j));
    var c := Step(b, FinishRenew(j));
    t := Step(c, FencedWrite(o));
    labels := Prepend(c, FencedWrite(o), [], t);
    labels := Prepend(b, FinishRenew(j), labels, t);
    labels := Prepend(a, RenewRow(j), labels, t);
    labels := Prepend(s, FencedWrite(o), labels, t);
  }

  // ---------------------------------------------------------------- whole runs

  lemma {:induction false} Extend(states: seq<State>, labels: seq<Label>, l: Label)
    returns (states': seq<State>, labels': seq<Label>, t: State)
    requires Run(states, labels) && Enabled(states[|labels|], l)
    ensures t == Step(states[|labels|], l)
    ensures Run(states', labels') && states'[|labels'|] == t
    ensures AllTimely(states, labels) && Timely(states[|labels|], l) ==> AllTimely(states', labels')
    ensures AllInTenure(states, labels) && InTenure(states[|labels|], l) ==> AllInTenure(states', labels')
    ensures AllCaughtUp(states, labels) && CaughtUp(states[|labels|], l) ==> AllCaughtUp(states', labels')
  {
    t := Step(states[|labels|], l);
    states', labels' := states + [t], labels + [l];
  }

  lemma {:induction false} ReadingKept() returns (states: seq<State>, labels: seq<Label>)
    ensures Run(states, labels) && AllInTenure(states, labels)
    ensures states[|labels|] == State(Some(Row(2, 1)), map[], map[], map[1 := Acquire(0, false), 2 := Acquire(1, true)], 1, 1, 1, [])
  {
    var s: State;
    states, labels := [INITIAL], [];
    states, labels, s := Extend(states, labels, ReadClock(1));
    states, labels, s := Extend(states, labels, Tick);
    states, labels, s := Extend(states, labels, ReadClock(2));
    states, labels, s := Extend(states, labels, CreateRow(2));
  }

  /** Reading the clock before another instance's whole tenure lets that instance write past the new row. */
  lemma {:induction false} StaleReadingAdmitsStranger() returns (states: seq<State>, labels: seq<Label>)
    ensures Run(states, labels) && AllInTenure(states, labels)
    ensures states[|labels|].writes == [Write(2, 1, Row(1, 0))]
  {
    var s: State;
    states, labels := ReadingKept();
    states, labels, s := Extend(states, labels, FinishAcquire(2));
    states, labels, s := Extend(states, labels, DeleteRow);
    states, labels, s := Extend(states, labels, CreateRow(1));
    states, labels, s := Extend(states, labels, FencedWrite(2));
  }

  /** An instance with the lease whose token is `t`, alone in the system. */
  function Holding(t: nat, now: nat, flights: map<nat, Flight>, rowToken: nat, floor: nat, writes: seq<Write>): State {
    State(Some(Row(1, rowToken)), map[1 := t], flights, map[], now, now, floor, writes)
  }

  lemma {:induction false} LeaseHeld() returns (states: seq<State>, labels: seq<Label>)
    ensures Run(states, labels) && AllTimely(states, labels) && AllInTenure(states, labels) && AllCaughtUp(states, labels)
    ensures states[|labels|] == Holding(1, 1, map[], 1, 1, [])
  {
    var s: State;
    states, labels := [INITIAL], [];
    states, labels, s := Extend(states, labels, Tick);
    states, labels, s := Extend(states, labels, ReadClock(1));
    states, labels, s := Extend(states, labels, CreateRow(1));
    states, labels, s := Extend(states, labels, FinishAcquire(1));
  }

  /** Two renewals under way, computed from the same token. */
  lemma {:induction false} RenewalsOverlap() returns (states: seq<State>, labels: seq<Label>)
    ensures Run(states, labels) && AllTimely(states, labels) && AllInTenure(states, labels)
    ensures states[|labels|] ==
            State(Some(Row(1, 1)), map[1 := 1], map[0 := Flight(1, 2, false), 1 := Flight(1, 2, false)], map[], 2, 1, 1, [])
  {
    var s: State;
    states, labels := LeaseHeld();
    states, labels, s := Extend(states, labels, BeginRenew(1, 0));
    states, labels, s := Extend(states, labels, BeginRenew(1, 1));
    states, labels, s := Extend(states, labels, Tick);
  }

  lemma {:induction false} RenewalLeftBehind() returns (states: seq<State>, labels: seq<Label>)
    ensures Run(states, labels) && AllTimely(states, labels) && AllInTenure(states, labels)
    ensures states[|labels|] == Holding(2, 2, map[1 := Flight(1, 2, false)], 2, 1, [])
  {
    var s: State;
    states, labels := RenewalsOverlap();
    states, labels, s := Extend(states, labels, RenewRow(0));
    states, labels, s := Extend(states, labels, FinishRenew(0));
  }

  lemma {:induction false} LandedAgain() returns (states: seq<State>, labels: seq<Label>)
    ensures Run(states, labels) && AllTimely(states, labels) && AllInTenure(states, labels)
    ensures states[|labels|] == Holding(2, 3, map[1 := Flight(1, 2, false), 2 := Flight(1, 3, true)], 3, 1, [])
  {
    var s: State;
    states, labels := RenewalLeftBehind();
    states, labels, s := Extend(states, labels, BeginRenew(1, 2));
    states, labels, s := Extend(states, labels, Tick);
    states, labels, s := Extend(states, labels, RenewRow(2));
  }

  lemma {:induction false} RenewedAgain() returns (states: seq<State>, labels: seq<Label>)
    ensures Run(states, labels) && AllTimely(states, labels) && AllInTenure(states, labels)
    ensures states[|labels|] == Holding(3, 3, map[1 := Flight(1, 2, false)], 3, 1, [Write(1, 3, Row(1, 3))])
  {
    var s: State;
    states, labels := LandedAgain();
    states, labels, s := Extend(states, labels, FinishRenew(2));
    states, labels, s := Extend(states, labels, FencedWrite(1));
  }

  /** Overlapping renewals of one instance: a late one takes the row and the local token back. */
  lemma {:induction false} OverlapGoesBack() returns (states: seq<State>, labels: seq<Label>)
    ensures Run(states, labels) && AllTimely(states, labels) && AllInTenure(states, labels)
    ensures states[|labels|].writes == [Write(1, 3, Row(1, 3)), Write(1, 2, Row(1, 2))]
  {
    var s: State;
    states, labels := RenewedAgain();
    states, labels, s := Extend(states, labels, RenewRow(1));
    states, labels, s := Extend(states, labels, FinishRenew(1));
    states, labels, s := Extend(states, labels, FencedWrite(1));
  }

  /** A lease released and gone while a renewal of it is still under way. */
  lemma {:induction false} ReleasedInFlight() returns (states: seq<State>, labels: seq<Label>)
    ensures Run(states, labels) && AllTimely(states, labels) && AllCaughtUp(states, labels)
    ensures states[|labels|] == State(None, map[], map[0 := Flight(1, 2, false)], map[], 3, 1, 1, [])
  {
    var s: State;
    states, labels := LeaseHeld();
    states, labels, s := Extend(states, labels, BeginRenew(1, 0));
    states, labels, s := Extend(states, labels, Release(1));
    states, labels, s := Extend(states, labels, DeleteRow);
    states, labels, s := Extend(states, labels, Tick);
    states, labels, s := Extend(states, labels, Tick);
  }

  lemma {:induction false} AcquiredAgain() returns (states: seq<State>, labels: seq<Label>)
    ensures Run(states, labels) && AllTimely(states, labels) && AllCaughtUp(states, labels)
    ensures states[|labels|] == Holding(3, 3, map[0 := Flight(1, 2, false)], 3, 3, [Write(1, 3, Row(1, 3))])
  {
    var s: State;
    states, labels := ReleasedInFlight();
    states, labels, s := Extend(states, labels, ReadClock(1));
    states, labels, s := Extend(states, labels, CreateRow(1));
    states, labels, s := Extend(states, labels, FinishAcquire(1));
    states, labels, s := Extend(states, labels, FencedWrite(1));
  }

  /** A single renewal, left over from a released lease, lands on the next row: tokens decrease. */
  lemma {:induction false} LeftoverGoesBack() returns (states: seq<State>, labels: seq<Label>)
    ensures Run(states, labels) && AllTimely(states, labels) && AllCaughtUp(states, labels)
    ensures states[|labels|].writes == [Write(1, 3, Row(1, 3)), Write(1, 2, Row(1, 2))]
  {
    var s: State;
    states, labels := AcquiredAgain();
    states, labels, s := Extend(states, labels, RenewRow(0));
    states, labels, s := Extend(states, labels, FinishRenew(0));
    states, labels, s := Extend(states, labels, FencedWrite(1));
  }

  lemma {:induction false} OtherHeldBetween() returns (states: seq<State>, labels: seq<Label>)
    ensures Run(states, labels) && AllTimely(states, labels) && AllCaughtUp(states, labels)
    ensures states[|labels|] == State(None, map[2 := 3], map[0 := Flight(1, 2, false)], map[], 4, 3, 3, [])
  {
    var s: State;
    states, labels := ReleasedInFlight();
    states, labels, s := Extend(states, labels, ReadClock(2));
    states, labels, s := Extend(states, labels, CreateRow(2));
    states, labels, s := Extend(states, labels, FinishAcquire(2));
    states, labels, s := Extend(states, labels, DeleteRow);
    states, labels, s := Extend(states, labels, Tick);
  }

  /** With another instance's tenure in between, the left-over renewal lets that instance write past the row. */
  lemma {:induction false} LeftoverAdmitsStranger() returns (states: seq<State>, labels: seq<Label>)
    ensures Run(states, labels) && AllTimely(states, labels) && AllCaughtUp(states, labels)
    ensures states[|labels|].writes == [Write(2, 3, Row(1, 2))]
  {
    var s: State;
    states, labels := OtherHeldBetween();
    states, labels, s := Extend(states, labels, ReadClock(1));
    states, labels, s := Extend(states, labels, CreateRow(1));
    states, labels, s := Extend(states, labels, RenewRow(0));
    states, labels, s := Extend(states, labels, FencedWrite(2));
  }

  // ------------------------------------------------------------ one instance

  // The client's calls are the protocol's steps, taken without interleaving.

  function Acquired(s: State, o: nat): State
    requires o !in s.acquires
  {
    var created := Step(Step(s, ReadClock(o)), CreateRow(o));
    if o in created.acquires then Step(created, FinishAcquire(o)) else created
  }

  function Renewed(s: State, o: nat): State
    requires o in s.local && 0 !in s.flights
  {
    var written := Step(Step(s, BeginRenew(o, 0)), RenewRow(0));
    if 0 in written.flights then Step(written, FinishRenew(0)) else written
  }

  function Released(s: State, o: nat): State {
    var dropped := Step(s, Release(o));
    if o in s.local && Owns(s, o) then Step(dropped, DeleteRow) else dropped
  }

  predicate SameLease(s: State, t: State) {
    s.row == t.row && s.local == t.local && s.flights == t.flights && s.acquires == t.acquires
  }

  /** The lease table as the database holds it. */
  class LeaseTable {
    var row: Option<Row>

    constructor () ensures row == None { row := None; }
  }

  /** The module state of one process. */
  class LeaseClient {
    const owner: nat
    const table: LeaseTable
    var lease: Option<nat>

    constructor (owner: nat, table: LeaseTable)
      ensures this.owner == owner && this.table == table && lease == None
    {
      this.owner, this.table, lease := owner, table, None;
    }

    /** Seen from the protocol: this instance alone, nothing in flight. */
    ghost function View(now: nat): State
      reads this, table
    {
      State(table.row, if lease.Some? then map[owner := lease.value] else map[], map[], map[], now, 0, 0, [])
    }

    method AcquireLease(now: nat) returns (r: Option<nat>)
      modifies this, table
      ensures old(table.row).None? ==> table.row == Some(Row(owner, now)) && lease == r == Some(now)
      ensures old(table.row).Some? ==> table.row == old(table.row) && lease == old(lease) && r == None
      ensures SameLease(View(now), Acquired(old(View(now)), owner))
    {
      if table.row.Some? { return None; }
      table.row := Some(Row(owner, now));
      lease := Some(now);
      r := lease;
    }

    /** False, and the local lease dropped, when the row is no longer ours. */
    method RenewLease() returns (renewed: bool)
      modifies this, table
      ensures renewed <==> old(lease).Some? && old(table.row).Some? && old(table.row).value.owner == owner
      ensures renewed ==> lease == Some(old(lease).value + 1) && table.row == Some(Row(owner, lease.value))
      ensures !renewed ==> table.row == old(table.row) && lease == None
      ensures old(lease).Some? ==> SameLease(View(0), Renewed(old(View(0)), owner))
    {
      if lease.None? { return false; }
      var newToken := lease.value + 1;
      if table.row.Some? && table.row.value.owner == owner {
        table.row := Some(Row(owner, newToken));
        lease := Some(newToken);
        return true;
      }
      lease := None;
      renewed := false;
    }

    method ReleaseLease()
      modifies this, table
      ensures lease == None
      ensures table.row ==
                if old(lease).Some? && old(table.row).Some? && old(table.row).value.owner == owner then None else old(table.row)
      ensures SameLease(View(0), Released(old(View(0)), owner))
    {
      if lease.Some? && table.row.Some? && table.row.value.owner == owner { table.row := None; }
      lease := None;
    }

    /** The precondition of a fenced write; a read, so a refused write leaves everything unchanged. */
    method AssertCurrentToken() returns (ok: bool)
      ensures ok <==> lease.Some? && table.row.Some? && table.row.value.token <= lease.value
      ensures ok <==> Passes(View(0), owner)
    {
      if lease.None? { return false; }
      if table.row.None? { return false; }
      ok := table.row.value.token <= lease.value;
    }
  }
}
