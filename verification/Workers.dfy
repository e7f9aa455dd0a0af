/** Any number of workers on the event queues, with the clock, the producers and the stop. */
module Workers {
  import opened EventQueue

  /** Where a worker stands between two of its turns at the lock. */
  datatype Phase = AtTop | InWait | InTimedWait | Busy(e: Event) | Exited | Faulty

  /** `scheduled`: everything ever handed in; `taken`: every event taken, with the clock then. */
  datatype State = State(
    q: Queues, clock: int, workers: seq<Phase>, scheduled: multiset<Event>, taken: seq<(Event, int)>)

  datatype Action =
    | Schedule(e: Event)
    | ScheduleAt(e: Event)
    | Stop
    | Tick(seconds: nat)
    | Turn(i: nat)

  predicate Enabled(s: State, a: Action) {
    match a
    case Schedule(e) => e.time <= s.clock   // the time was read before the lock was taken
    case Turn(i) => i < |s.workers| && !s.workers[i].Exited? && !s.workers[i].Faulty?
    case _ => true
  }

  /** What a worker finds and does in its turn; a busy worker only returns to the top. */
  function TurnAt(s: State, i: nat): (Queues, Leave)
    requires i < |s.workers|
  {
    TurnFrom(s.q, s.clock, s.workers[i].InTimedWait?)
  }

  function PhaseAfter(leave: Leave): Phase {
    match leave
    case Exit => Exited
    case WaitForWork => InWait
    case WaitForTime(_) => InTimedWait
    case Take(e) => Busy(e)
    case Undefined => Faulty
  }

  function Step(s: State, a: Action): State
    requires Enabled(s, a)
  {
    match a
    case Schedule(e) =>
      s.(q := s.q.(ready := InsertReady(s.q.ready, e)), scheduled := s.scheduled + multiset{e})
    case ScheduleAt(e) =>
      s.(q := s.q.(waiting := InsertWaiting(s.q.waiting, e)), scheduled := s.scheduled + multiset{e})
    case Stop => s.(q := s.q.(shutdown := true))
    case Tick(n) => s.(clock := s.clock + n)
    case Turn(i) =>
      if s.workers[i].Busy? then s.(workers := s.workers[i := AtTop])
      else
        var (q, leave) := TurnAt(s, i);
        s.(q := q, workers := s.workers[i := PhaseAfter(leave)],
           taken := if leave.Take? then s.taken + [(leave.e, s.clock)] else s.taken)
  }

  ghost predicate Initial(s: State) {
    && s.q == Queues([], [], false) && s.scheduled == multiset{} && s.taken == []
    && forall i :: 0 <= i < |s.workers| ==> s.workers[i] == AtTop
  }

  ghost predicate IsRun(acts: seq<Action>, ss: seq<State>) {
    && |ss| == |acts| + 1
    && forall i :: 0 <= i < |acts| ==> Enabled(ss[i], acts[i]) && ss[i + 1] == Step(ss[i], acts[i])
  }

  function Events(taken: seq<(Event, int)>): seq<Event> {
    seq(|taken|, i requires 0 <= i < |taken| => taken[i].0)
  }

  /** The safety of the queues, at every moment of every run. */
  ghost predicate Inv(s: State) {
    && s.q.Sorted()
    && s.scheduled == multiset(s.q.ready) + multiset(s.q.waiting) + multiset(Events(s.taken))
    && (forall e <- s.q.ready :: e.time <= s.clock)
    && (forall p <- s.taken :: p.0.time <= p.1 <= s.clock)
  }

  lemma InsertElements(q: seq<Event>, p: nat, e: Event)
    requires p <= |q|
    ensures forall x :: x in q[..p] + [e] + q[p..] <==> x in q || x == e
  {
    assert q == q[..p] + q[p..];
  }

  lemma ScheduleKeepsInv(s: State, e: Event)
    requires Inv(s) && Enabled(s, Schedule(e))
    ensures Inv(Step(s, Schedule(e)))
  {
    InsertReadySorted(s.q.ready, e);
    InsertContents(s.q.ready, ReadyPosition(s.q.ready, e), e);
    InsertElements(s.q.ready, ReadyPosition(s.q.ready, e), e);
  }

  lemma ScheduleAtKeepsInv(s: State, e: Event)
    requires Inv(s)
    ensures Inv(Step(s, ScheduleAt(e)))
  {
    InsertWaitingSorted(s.q.waiting, e);
    InsertContents(s.q.waiting, WaitingPosition(s.q.waiting, e), e);
  }

  lemma EventsAppend(taken: seq<(Event, int)>, e: Event, at: int)
    ensures Events(taken + [(e, at)]) == Events(taken) + [e]
  {
  }

  lemma TurnKeepsInv(s: State, i: nat)
    requires Inv(s) && Enabled(s, Turn(i))
    ensures Inv(Step(s, Turn(i)))
  {
    if !s.workers[i].Busy? {
      TurnKeeps(s.q, s.clock, s.workers[i].InTimedWait?);
      var (q, leave) := TurnAt(s, i);
      AfterTurn(s, q, leave, s.workers[i := PhaseAfter(leave)]);
    }
  }

  lemma AfterTurn(s: State, q: Queues, leave: Leave, workers: seq<Phase>)
    requires Inv(s) && q.Sorted()
    requires multiset(s.q.ready) + multiset(s.q.waiting) == multiset(q.ready) + multiset(q.waiting) + TakenBy(leave)
    requires (forall e <- q.ready :: e.time <= s.clock) && (leave.Take? ==> leave.e.time <= s.clock)
    ensures Inv(s.(q := q, workers := workers,
                   taken := if leave.Take? then s.taken + [(leave.e, s.clock)] else s.taken))
  {
    if leave.Take? {
      EventsAppend(s.taken, leave.e, s.clock);
    }
  }

  lemma StepKeepsInv(s: State, a: Action)
    requires Inv(s) && Enabled(s, a)
    ensures Inv(Step(s, a))
  {
    match a
    case Schedule(e) => ScheduleKeepsInv(s, e);
    case ScheduleAt(e) => ScheduleAtKeepsInv(s, e);
    case Turn(i) => TurnKeepsInv(s, i);
    case _ =>
  }

  lemma {:induction false} RunKeepsInv(acts: seq<Action>, ss: seq<State>, i: nat)
    requires IsRun(acts, ss) && Initial(ss[0]) && i < |ss|
    ensures Inv(ss[i])
  {
    if i == 0 {
      assert Events(ss[0].taken) == [];
    } else {
      RunKeepsInv(acts, ss, i - 1);
      StepKeepsInv(ss[i - 1], acts[i - 1]);
    }
  }

  /** Whatever the workers do, an event handed in is in exactly one of the two queues or has
      been taken, one handed in once is taken at most once, and none is taken early. */
  lemma NothingLostNothingTwice(acts: seq<Action>, ss: seq<State>, i: nat, e: Event)
    requires IsRun(acts, ss) && Initial(ss[0]) && i < |ss|
    ensures
      var s := ss[i];
      && s.scheduled[e] == multiset(s.q.ready)[e] + multiset(s.q.waiting)[e] + multiset(Events(s.taken))[e]
      && (s.scheduled[e] == 1 && e in Events(s.taken) ==> e !in s.q.ready && e !in s.q.waiting)
      && forall k :: 0 <= k < |s.taken| ==> s.taken[k].0.time <= s.taken[k].1
  {
    RunKeepsInv(acts, ss, i);
  }

  /** In every run, a turn of a worker that is not busy takes an event if and only if one is ready
      or has expired and there is no stop; the worker is then busy with it. */
  lemma TakesWhenDue(acts: seq<Action>, ss: seq<State>, k: nat, i: nat)
    requires IsRun(acts, ss) && Initial(ss[0]) && k < |acts|
    requires acts[k] == Turn(i) && i < |ss[k].workers| && !ss[k].workers[i].Busy?
    ensures
      var s, t := ss[k], ss[k + 1];
      if !s.q.shutdown && (s.q.ready != [] || exists e <- s.q.waiting :: e.time <= s.clock) then
        |t.taken| == |s.taken| + 1 && t.workers[i] == Busy(t.taken[|s.taken|].0) && t.taken[|s.taken|].1 == s.clock
      else t.taken == s.taken && !t.workers[i].Busy?
  {
    RunKeepsInv(acts, ss, k);
    assert Enabled(ss[k], Turn(i)) && ss[k + 1] == Step(ss[k], Turn(i));
    StepDecides(ss[k], i);
  }

  lemma StepDecides(s: State, i: nat)
    requires WaitingSorted(s.q.waiting) && Enabled(s, Turn(i)) && !s.workers[i].Busy?
    ensures
      var t := Step(s, Turn(i));
      if !s.q.shutdown && (s.q.ready != [] || exists e <- s.q.waiting :: e.time <= s.clock) then
        |t.taken| == |s.taken| + 1 && t.workers[i] == Busy(t.taken[|s.taken|].0) && t.taken[|s.taken|].1 == s.clock
      else t.taken == s.taken && !t.workers[i].Busy?
  {
    TurnDecides(s.q, s.clock, s.workers[i].InTimedWait?);
  }

  /** A taken event comes first among all that are ready or have expired at that moment: by the
      number of its priority, then by its time. */
  lemma TakenIsMinimal(acts: seq<Action>, ss: seq<State>, k: nat, x: Event)
    requires IsRun(acts, ss) && Initial(ss[0]) && k < |acts| && |ss[k + 1].taken| > |ss[k].taken|
    requires x in ss[k].q.ready || (x in ss[k].q.waiting && x.time <= ss[k].clock)
    ensures
      var e := ss[k + 1].taken[|ss[k].taken|].0;
      e.priority < x.priority || (e.priority == x.priority && e.time <= x.time)
  {
    RunKeepsInv(acts, ss, k);
    StepTakesMinimal(ss[k], acts[k], x);
  }

  lemma StepTakesMinimal(s: State, a: Action, x: Event)
    requires s.q.Sorted() && Enabled(s, a) && |Step(s, a).taken| > |s.taken|
    requires x in s.q.ready || (x in s.q.waiting && x.time <= s.clock)
    ensures !Less(x, Step(s, a).taken[|s.taken|].0)
  {
    TurnTakesMinimal(s.q, s.clock, s.workers[a.i].InTimedWait?, x);
  }

  /** After a stop no event is ever taken. */
  lemma {:induction false} NothingTakenAfterStop(acts: seq<Action>, ss: seq<State>, i: nat, j: nat)
    requires IsRun(acts, ss) && i <= j < |ss| && ss[i].q.shutdown
    ensures ss[j].q.shutdown && ss[j].taken == ss[i].taken
  {
    if i < j {
      NothingTakenAfterStop(acts, ss, i, j - 1);
      var s := ss[j - 1];
      assert ss[j] == Step(s, acts[j - 1]);
    }
  }

  // ----------------------------------------------------------- the unguarded waiting.begin()

  /** A worker's turn evaluates waiting.begin() of an empty queue exactly when it returns from a
      timed wait, not stopped, to find both queues empty. */
  lemma FaultExactly(s: State, i: nat)
    requires Enabled(s, Turn(i))
    ensures Step(s, Turn(i)).workers[i] == Faulty <==>
            s.workers[i].InTimedWait? && !s.q.shutdown && s.q.ready == [] && s.q.waiting == []
    ensures Step(s, Turn(i)).workers[i].InTimedWait? ==> Step(s, Turn(i)).q.waiting != []
  {
    TurnUndefined(s.q, s.clock, s.workers[i].InTimedWait?);
  }

  ghost predicate Alone(s: State) {
    && |s.workers| == 1 && s.workers[0] != Faulty
    && (s.workers[0].InTimedWait? ==> s.q.ready != [] || s.q.waiting != [])
  }

  lemma StepKeepsAlone(s: State, a: Action)
    requires Alone(s) && Enabled(s, a)
    ensures Alone(Step(s, a))
  {
    if a.Turn? {
      FaultExactly(s, 0);
    }
  }

  /** A single worker never does: what it was waiting for is still there. */
  lemma {:induction false} SingleWorkerNeverFaults(acts: seq<Action>, ss: seq<State>, i: nat)
    requires IsRun(acts, ss) && Initial(ss[0]) && |ss[0].workers| == 1 && i < |ss|
    ensures Alone(ss[i])
  {
    if i > 0 {
      SingleWorkerNeverFaults(acts, ss, i - 1);
      StepKeepsAlone(ss[i - 1], acts[i - 1]);
    }
  }

  /** The first two workers at work, all others still at the top of their loops. */
  function Crew(n: nat, first: Phase, second: Phase): (workers: seq<Phase>)
    requires n >= 2
    ensures |workers| == n && workers[0] == first && workers[1] == second
  {
    [first, second] + seq(n - 2, i => AtTop)
  }

  lemma CrewUpdate(n: nat, first: Phase, second: Phase, now: Phase)
    requires n >= 2
    ensures Crew(n, first, second)[0 := now] == Crew(n, now, second)
    ensures Crew(n, first, second)[1 := now] == Crew(n, first, now)
  {
  }

  ghost predicate RunsIntoFault(acts: seq<Action>, ss: seq<State>, n: nat) {
    IsRun(acts, ss) && Initial(ss[0]) && |ss[0].workers| == n && Faulty in ss[|acts|].workers
  }

  /** With two workers or more it happens: two of them wait for the same event, and one takes it. */
  lemma ManyWorkersFault(n: nat) returns (acts: seq<Action>, ss: seq<State>)
    requires n >= 2
    ensures RunsIntoFault(acts, ss, n)
  {
    var e := Event(0, 5, 60);
    var none, one := Queues([], [], false), Queues([], [e], false);
    acts, ss := BothWait(n, e, one);
    acts, ss := Extend(acts, ss, Tick(5), State(one, 5, Crew(n, InTimedWait, InTimedWait), multiset{e}, []));
    BothTurns(e, none, one);
    CrewUpdate(n, InTimedWait, InTimedWait, Busy(e));
    acts, ss := Extend(acts, ss, Turn(0), State(none, 5, Crew(n, Busy(e), InTimedWait), multiset{e}, [(e, 5)]));
    acts, ss := OneIsLate(n, e, acts, ss);
  }

  lemma OneIsLate(n: nat, e: Event, acts: seq<Action>, ss: seq<State>) returns (acts': seq<Action>, ss': seq<State>)
    requires n >= 2 && e == Event(0, 5, 60) && IsRun(acts, ss) && Initial(ss[0]) && |ss[0].workers| == n
    requires ss[|acts|] == State(Queues([], [], false), 5, Crew(n, Busy(e), InTimedWait), multiset{e}, [(e, 5)])
    ensures RunsIntoFault(acts', ss', n)
  {
    var t := LateTurn(n, e, ss[|acts|]);
    acts', ss' := Extend(acts, ss, Turn(1), t);
    assert t.workers[1] in t.workers;
  }

  lemma LateTurn(n: nat, e: Event, s: State) returns (t: State)
    requires n >= 2
    requires s == State(Queues([], [], false), 5, Crew(n, Busy(e), InTimedWait), multiset{e}, [(e, 5)])
    ensures Enabled(s, Turn(1)) && Step(s, Turn(1)) == t && |t.workers| == n && t.workers[1] == Faulty
  {
    FaultExactly(s, 1);
    t := Step(s, Turn(1));
  }

  lemma BothWait(n: nat, e: Event, one: Queues) returns (acts: seq<Action>, ss: seq<State>)
    requires n >= 2 && e == Event(0, 5, 60) && one == Queues([], [e], false)
    ensures IsRun(acts, ss) && Initial(ss[0]) && |ss[0].workers| == n
    ensures ss[|acts|] == State(one, 0, Crew(n, InTimedWait, InTimedWait), multiset{e}, [])
  {
    var none := Queues([], [], false);
    BothTurns(e, none, one);
    acts, ss := [], [State(none, 0, Crew(n, AtTop, AtTop), multiset{}, [])];
    acts, ss := Extend(acts, ss, ScheduleAt(e), State(one, 0, Crew(n, AtTop, AtTop), multiset{e}, []));
    CrewUpdate(n, AtTop, AtTop, InTimedWait);
    acts, ss := Extend(acts, ss, Turn(0), State(one, 0, Crew(n, InTimedWait, AtTop), multiset{e}, []));
    CrewUpdate(n, InTimedWait, AtTop, InTimedWait);
    acts, ss := Extend(acts, ss, Turn(1), State(one, 0, Crew(n, InTimedWait, InTimedWait), multiset{e}, []));
  }

  lemma {:induction false} WorkersStay(acts: seq<Action>, ss: seq<State>, i: nat)
    requires IsRun(acts, ss) && i < |ss|
    ensures |ss[i].workers| == |ss[0].workers|
  {
    if i > 0 {
      WorkersStay(acts, ss, i - 1);
    }
  }

  /** A run into the fault exists for exactly two workers or more. */
  lemma FaultReachableExactly(n: nat)
    ensures (exists acts, ss :: RunsIntoFault(acts, ss, n)) <==> n >= 2
  {
    if n >= 2 {
      var acts, ss := ManyWorkersFault(n);
    } else {
      forall acts, ss ensures !RunsIntoFault(acts, ss, n) {
        if RunsIntoFault(acts, ss, n) {
          WorkersStay(acts, ss, |acts|);
          if n == 1 {
            SingleWorkerNeverFaults(acts, ss, |acts|);
          }
          assert false;
        }
      }
    }
  }

  lemma Extend(acts: seq<Action>, ss: seq<State>, a: Action, t: State) returns (acts': seq<Action>, ss': seq<State>)
    requires IsRun(acts, ss) && Enabled(ss[|acts|], a) && Step(ss[|acts|], a) == t
    ensures acts' == acts + [a] && ss' == ss + [t] && IsRun(acts', ss')
    ensures ss'[0] == ss[0] && ss'[|acts'|] == t
  {
    acts', ss' := acts + [a], ss + [t];
  }

  lemma BothTurns(e: Event, none: Queues, one: Queues)
    requires e.time == 5 && none == Queues([], [], false) && one == Queues([], [e], false)
    ensures InsertWaiting([], e) == [e]
    ensures TurnFrom(one, 0, false) == (one, WaitForTime(5))
    ensures TurnFrom(one, 5, true) == (none, Take(e))
  {
    assert one.Expire(0) == one;
    assert one.Expired(5) == [e];
    assert [e][..0] == [];
    assert InsertAll([], [e]) == InsertReady(InsertAll([], []), e) == [e];
    assert one.Expire(5) == Queues([e], [], false);
  }

  // ------------------------------------------------------------------------- bounded bypass

  /** The events a step inserts into the ready queue, in their order. */
  function Inserted(s: State, a: Action): seq<Event> {
    match a
    case Schedule(e) => [e]
    case Turn(i) =>
      if i < |s.workers| && !s.workers[i].Busy? then InsertedByTurn(s.q, s.clock, s.workers[i].InTimedWait?) else []
    case _ => []
  }

  function Takes(s: State, t: State): int {
    |t.taken| - |s.taken|
  }

  /** Where the event at `p` is after a step: it moves back by the smaller ones inserted and
      forward by the take, and a take at its position takes it. */
  ghost predicate Moves(s: State, a: Action, p: nat)
    requires Enabled(s, a) && p < |s.q.ready|
  {
    var t, e := Step(s, a), s.q.ready[p];
    var at := p + Before(Inserted(s, a), e) - Takes(s, t);
    && 0 <= Takes(s, t) <= 1
    && (at >= 0 ==> at < |t.q.ready| && t.q.ready[at] == e)
    && (at < 0 ==> t.taken == s.taken + [(e, s.clock)])
  }

  lemma PositionAfterStep(s: State, a: Action, p: nat)
    requires ReadySorted(s.q.ready) && Enabled(s, a) && p < |s.q.ready|
    ensures Moves(s, a, p)
  {
    match a
    case Schedule(x) => PositionAfterSchedule(s, x, p);
    case Turn(i) => PositionAfterTurn(s.q, s.clock, s.workers[i].InTimedWait?, p);
    case _ =>
  }

  lemma PositionAfterSchedule(s: State, x: Event, p: nat)
    requires ReadySorted(s.q.ready) && Enabled(s, Schedule(x)) && p < |s.q.ready|
    ensures Moves(s, Schedule(x), p)
  {
    var e := s.q.ready[p];
    assert [x][..0] == [];
    assert Before([x], e) == if Less(x, e) then 1 else 0;
    PositionAfterInsert(s.q.ready, x, p);
  }

  /** For every step of a run, how many events it inserts that come strictly before `e`. */
  function SmallerInserted(acts: seq<Action>, ss: seq<State>, e: Event): seq<nat>
    requires |acts| <= |ss|
  {
    seq(|acts|, k requires 0 <= k < |acts| => Before(Inserted(ss[k], acts[k]), e))
  }

  function Sum(ns: seq<nat>, i: nat, j: nat): nat
    requires i <= j <= |ns|
    decreases j
  {
    if i == j then 0 else Sum(ns, i, j - 1) + ns[j - 1]
  }

  /** Where the event at position `p` of the ready queue in ss[i] should be in ss[j], counted
      from the front, if steps k insert ns[k] smaller ones; negative once it must be taken. */
  function Place(ss: seq<State>, ns: seq<nat>, p: nat, i: nat, j: nat): int
    requires i <= j <= |ns| < |ss|
  {
    p + Sum(ns, i, j) - Takes(ss[i], ss[j])
  }

  ghost predicate InPlace(ss: seq<State>, ns: seq<nat>, p: nat, i: nat, j: nat)
    requires i <= j <= |ns| < |ss| && p < |ss[i].q.ready|
  {
    && 0 <= Place(ss, ns, p, i, j) < |ss[j].q.ready|
    && ss[j].q.ready[Place(ss, ns, p, i, j)] == ss[i].q.ready[p]
  }

  lemma PlaceAfterStep(ss: seq<State>, ns: seq<nat>, p: nat, i: nat, j: nat, a: Action)
    requires i <= j < |ns| < |ss| && p < |ss[i].q.ready| && InPlace(ss, ns, p, i, j)
    requires ReadySorted(ss[j].q.ready) && Enabled(ss[j], a) && ss[j + 1] == Step(ss[j], a)
    requires ns[j] == Before(Inserted(ss[j], a), ss[i].q.ready[p])
    ensures Place(ss, ns, p, i, j + 1) >= 0 ==> InPlace(ss, ns, p, i, j + 1)
    ensures Place(ss, ns, p, i, j + 1) < 0 ==>
              && ss[j + 1].taken == ss[j].taken + [(ss[i].q.ready[p], ss[j].clock)]
              && Takes(ss[i], ss[j]) == p + Sum(ns, i, j + 1)
  {
    PositionAfterStep(ss[j], a, Place(ss, ns, p, i, j));
  }

  lemma {:induction false} StaysInPlace(ss: seq<State>, ns: seq<nat>, p: nat, i: nat, j: nat)
    requires i <= j <= |ns| < |ss| && p < |ss[i].q.ready|
    requires forall k :: i <= k < j && InPlace(ss, ns, p, i, k) ==> InPlace(ss, ns, p, i, k + 1)
    ensures InPlace(ss, ns, p, i, j)
  {
    if i < j {
      StaysInPlace(ss, ns, p, i, j - 1);
    }
  }

  /** As long as the takes do not exceed the event's initial position plus the strictly smaller
      events inserted since, it is still ready, exactly that far from the front. */
  lemma PositionInRun(acts: seq<Action>, ss: seq<State>, p: nat, i: nat, j: nat)
    requires IsRun(acts, ss) && Initial(ss[0]) && i <= j <= |acts| && p < |ss[i].q.ready|
    requires
      var ns := SmallerInserted(acts, ss, ss[i].q.ready[p]);
      forall k :: i <= k <= j ==> Place(ss, ns, p, i, k) >= 0
    ensures InPlace(ss, SmallerInserted(acts, ss, ss[i].q.ready[p]), p, i, j)
  {
    var ns := SmallerInserted(acts, ss, ss[i].q.ready[p]);
    forall k | i <= k < j && InPlace(ss, ns, p, i, k) ensures InPlace(ss, ns, p, i, k + 1) {
      RunKeepsInv(acts, ss, k);
      PlaceAfterStep(ss, ns, p, i, k, acts[k]);
    }
    StaysInPlace(ss, ns, p, i, j);
  }

  /** And the first take beyond that number takes it: after exactly its initial position plus
      the strictly smaller events inserted. */
  lemma BoundedBypass(acts: seq<Action>, ss: seq<State>, p: nat, i: nat, j: nat)
    requires IsRun(acts, ss) && Initial(ss[0]) && i <= j < |acts| && p < |ss[i].q.ready|
    requires
      var ns := SmallerInserted(acts, ss, ss[i].q.ready[p]);
      (forall k :: i <= k <= j ==> Place(ss, ns, p, i, k) >= 0) && Place(ss, ns, p, i, j + 1) < 0
    ensures ss[j + 1].taken == ss[j].taken + [(ss[i].q.ready[p], ss[j].clock)]
    ensures Takes(ss[i], ss[j]) == p + Sum(SmallerInserted(acts, ss, ss[i].q.ready[p]), i, j + 1)
  {
    PositionInRun(acts, ss, p, i, j);
    RunKeepsInv(acts, ss, j);
    PlaceAfterStep(ss, SmallerInserted(acts, ss, ss[i].q.ready[p]), p, i, j, acts[j]);
  }
}
