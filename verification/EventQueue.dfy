/** The event queues of the workload manager (events.cpp): what is done under their lock. */
module EventQueue {
  datatype Event = Event(id: nat, time: int, priority: int)

  /** priority_first */
  predicate Less(a: Event, b: Event) {
    a.priority < b.priority || (a.priority == b.priority && a.time < b.time)
  }

  predicate ReadySorted(q: seq<Event>) {
    forall i, j :: 0 <= i < j < |q| ==> !Less(q[j], q[i])
  }

  predicate WaitingSorted(q: seq<Event>) {
    forall i, j :: 0 <= i < j < |q| ==> q[i].time <= q[j].time
  }

  /** Where a multimap with the order priority_first inserts: after all equal keys. */
  function ReadyPosition(q: seq<Event>, e: Event): (p: nat)
    ensures p <= |q|
    ensures forall i :: 0 <= i < p ==> !Less(e, q[i])
    ensures p < |q| ==> Less(e, q[p])
  {
    if q == [] || Less(e, q[0]) then 0 else 1 + ReadyPosition(q[1..], e)
  }

  /** Where a multimap with the order `<=` on times inserts: before all equal times. */
  function WaitingPosition(q: seq<Event>, e: Event): (p: nat)
    ensures p <= |q|
    ensures forall i :: 0 <= i < p ==> q[i].time < e.time
    ensures p < |q| ==> e.time <= q[p].time
  {
    if q == [] || e.time <= q[0].time then 0 else 1 + WaitingPosition(q[1..], e)
  }

  function InsertReady(q: seq<Event>, e: Event): seq<Event> {
    var p := ReadyPosition(q, e);
    q[..p] + [e] + q[p..]
  }

  function InsertWaiting(q: seq<Event>, e: Event): seq<Event> {
    var p := WaitingPosition(q, e);
    q[..p] + [e] + q[p..]
  }

  /** Insertion of a range, from its first element on. */
  function InsertAll(q: seq<Event>, es: seq<Event>): seq<Event> {
    if es == [] then q else InsertReady(InsertAll(q, es[..|es| - 1]), es[|es| - 1])
  }

  /** lower_bound with the order `<=`: the first event strictly later than `now`. */
  function FirstLater(q: seq<Event>, now: int): (p: nat)
    ensures p <= |q|
    ensures forall i :: 0 <= i < p ==> q[i].time <= now
    ensures p < |q| ==> q[p].time > now
  {
    if q == [] || q[0].time > now then 0 else 1 + FirstLater(q[1..], now)
  }

  datatype Queues = Queues(ready: seq<Event>, waiting: seq<Event>, shutdown: bool)
  {
    predicate Sorted() {
      ReadySorted(ready) && WaitingSorted(waiting)
    }

    function Expired(now: int): seq<Event> {
      waiting[..FirstLater(waiting, now)]
    }

    function Expire(now: int): Queues {
      this.(ready := InsertAll(ready, Expired(now)), waiting := waiting[FirstLater(waiting, now)..])
    }
  }

  /** How a worker leaves the lock: with an event, to wait, or for good.  `Undefined` is the
      evaluation of waiting.begin()->first on an empty queue. */
  datatype Leave = Exit | WaitForWork | WaitForTime(until: int) | Take(e: Event) | Undefined

  // ------------------------------------------------------------- facts about the insertions

  lemma InsertReadySorted(q: seq<Event>, e: Event)
    requires ReadySorted(q)
    ensures ReadySorted(InsertReady(q, e))
  {
    var p := ReadyPosition(q, e);
    var r := InsertReady(q, e);
    forall i, j | 0 <= i < j < |r| ensures !Less(r[j], r[i]) {
      if i == p {
        assert r[j] == q[j - 1] && !Less(q[j - 1], q[p]);
      }
    }
  }

  lemma InsertWaitingSorted(q: seq<Event>, e: Event)
    requires WaitingSorted(q)
    ensures WaitingSorted(InsertWaiting(q, e))
  {
  }

  lemma {:induction false} InsertAllSorted(q: seq<Event>, es: seq<Event>)
    requires ReadySorted(q)
    ensures ReadySorted(InsertAll(q, es))
  {
    if es != [] {
      InsertAllSorted(q, es[..|es| - 1]);
      InsertReadySorted(InsertAll(q, es[..|es| - 1]), es[|es| - 1]);
    }
  }

  lemma InsertContents(q: seq<Event>, p: nat, e: Event)
    requires p <= |q|
    ensures multiset(q[..p] + [e] + q[p..]) == multiset(q) + multiset{e}
  {
    assert q == q[..p] + q[p..];
  }

  lemma {:induction false} InsertAllLength(q: seq<Event>, es: seq<Event>)
    ensures |InsertAll(q, es)| == |q| + |es|
  {
    if es != [] {
      InsertAllLength(q, es[..|es| - 1]);
    }
  }

  lemma {:induction false} InsertAllContents(q: seq<Event>, es: seq<Event>)
    ensures multiset(InsertAll(q, es)) == multiset(q) + multiset(es)
  {
    if es != [] {
      var init, last := es[..|es| - 1], es[|es| - 1];
      assert es == init + [last];
      InsertAllContents(q, init);
      var m := InsertAll(q, init);
      InsertContents(m, ReadyPosition(m, last), last);
    }
  }

  /** Moving the expired events keeps both orders and every event, and what stays is later. */
  lemma ExpireKeeps(q: Queues, now: int)
    requires q.Sorted()
    ensures q.Expire(now).Sorted()
    ensures multiset(q.Expire(now).ready) + multiset(q.Expire(now).waiting) == multiset(q.ready) + multiset(q.waiting)
    ensures forall e <- q.Expire(now).waiting :: e.time > now
    ensures forall e <- q.Expired(now) :: e.time <= now
  {
    SplitWaiting(q.waiting, FirstLater(q.waiting, now), now);
    InsertAllSorted(q.ready, q.Expired(now));
    InsertAllContents(q.ready, q.Expired(now));
  }

  lemma SplitWaiting(waiting: seq<Event>, k: nat, now: int)
    requires WaitingSorted(waiting) && k == FirstLater(waiting, now)
    ensures WaitingSorted(waiting[k..]) && multiset(waiting) == multiset(waiting[..k]) + multiset(waiting[k..])
    ensures (forall e <- waiting[k..] :: e.time > now) && forall e <- waiting[..k] :: e.time <= now
  {
    assert waiting == waiting[..k] + waiting[k..];
  }

  // --------------------------------------------------------------------------- under the lock

  class Events {
    var ready: seq<Event>
    var waiting: seq<Event>
    var shutdown: bool

    function State(): Queues
      reads this
    {
      Queues(ready, waiting, shutdown)
    }

    constructor ()
      ensures State() == Queues([], [], false)
    {
      ready, waiting, shutdown := [], [], false;
    }

    method Schedule(e: Event)
      modifies this`ready
      ensures ready == InsertReady(old(ready), e)
    {
      var p := 0;
      while p < |ready| && !Less(e, ready[p])
        invariant p <= |ready|
        invariant p + ReadyPosition(ready[p..], e) == ReadyPosition(ready, e)
      {
        assert ready[p..][1..] == ready[p + 1..];
        p := p + 1;
      }
      ready := ready[..p] + [e] + ready[p..];
    }

    method ScheduleAt(e: Event)
      modifies this`waiting
      ensures waiting == InsertWaiting(old(waiting), e)
    {
      var p := 0;
      while p < |waiting| && !(e.time <= waiting[p].time)
        invariant p <= |waiting|
        invariant p + WaitingPosition(waiting[p..], e) == WaitingPosition(waiting, e)
      {
        assert waiting[p..][1..] == waiting[p + 1..];
        p := p + 1;
      }
      waiting := waiting[..p] + [e] + waiting[p..];
    }

    method Stop()
      modifies this`shutdown
      ensures shutdown
    {
      shutdown := true;
    }

    /** lower_bound on the waiting queue */
    method FindFirstLater(now: int) returns (last: nat)
      ensures last == FirstLater(waiting, now)
    {
      last := 0;
      while last < |waiting| && waiting[last].time <= now
        invariant last <= |waiting|
        invariant last + FirstLater(waiting[last..], now) == FirstLater(waiting, now)
      {
        assert waiting[last..][1..] == waiting[last + 1..];
        last := last + 1;
      }
    }

    /** The insertion of a range of events into the ready queue. */
    method ScheduleRange(es: seq<Event>)
      modifies this`ready
      ensures ready == InsertAll(old(ready), es)
    {
      for i := 0 to |es|
        invariant ready == InsertAll(old(ready), es[..i])
      {
        assert es[..i + 1][..i] == es[..i];
        Schedule(es[i]);
      }
      assert es[..|es|] == es;
    }

    /** Turns all the expired waiting events into ready ones. */
    method ExpiredToReady(now: int)
      modifies this`ready, this`waiting
      ensures State() == old(State()).Expire(now)
    {
      var last := FindFirstLater(now);
      ScheduleRange(waiting[..last]);
      waiting := waiting[last..];
    }

    /** From the top of the worker's loop, or from an untimed wait, to the next time the lock
        is released. */
    method Enter(now: int) returns (leave: Leave)
      modifies this`ready, this`waiting
      ensures (State(), leave) == Entered(old(State()), now)
    {
      if !shutdown && ready == [] && waiting == [] {
        return WaitForWork;
      }
      if shutdown {
        return Exit;
      }
      ExpiredToReady(now);
      leave := Choose();
    }

    /** From a timed wait to the next time the lock is released. */
    method Wake(now: int) returns (leave: Leave)
      modifies this`ready, this`waiting
      ensures (State(), leave) == Woken(old(State()), now)
    {
      ExpiredToReady(now);
      leave := Choose();
    }

    /** The condition of the timed loop and what follows it. */
    method Choose() returns (leave: Leave)
      modifies this`ready
      ensures (State(), leave) == Chosen(old(State()))
      ensures leave.Exit? <==> shutdown
      ensures leave.Take? <==> !shutdown && old(ready) != []
      ensures if leave.Take? then [leave.e] + ready == old(ready) else ready == old(ready)
      ensures leave.WaitForTime? <==> !shutdown && old(ready) == [] && waiting != []
      ensures leave.WaitForTime? ==> leave.until == waiting[0].time
    {
      if !shutdown && ready == [] {
        if waiting == [] {
          return Undefined;
        }
        return WaitForTime(waiting[0].time);
      }
      if shutdown {
        return Exit;
      }
      leave := Take(ready[0]);
      ready := ready[1..];
    }
  }

  function Chosen(q: Queues): (Queues, Leave) {
    if q.shutdown then (q, Exit)
    else if q.ready != [] then (q.(ready := q.ready[1..]), Take(q.ready[0]))
    else if q.waiting != [] then (q, WaitForTime(q.waiting[0].time))
    else (q, Undefined)
  }

  function Entered(q: Queues, now: int): (Queues, Leave) {
    if q.shutdown then (q, Exit)
    else if q.ready == [] && q.waiting == [] then (q, WaitForWork)
    else Chosen(q.Expire(now))
  }

  function Woken(q: Queues, now: int): (Queues, Leave) {
    Chosen(q.Expire(now))
  }

  function TurnFrom(q: Queues, now: int, woken: bool): (Queues, Leave) {
    if woken then Woken(q, now) else Entered(q, now)
  }

  function TakenBy(leave: Leave): multiset<Event> {
    if leave.Take? then multiset{leave.e} else multiset{}
  }

  lemma ChosenKeeps(q: Queues)
    requires q.Sorted()
    ensures Chosen(q).0.Sorted() && Chosen(q).0.shutdown == q.shutdown
    ensures multiset(q.ready) + multiset(q.waiting) ==
            multiset(Chosen(q).0.ready) + multiset(Chosen(q).0.waiting) + TakenBy(Chosen(q).1)
    ensures Chosen(q).1.Take? ==> Chosen(q).1.e in q.ready && forall x <- q.ready :: !Less(x, Chosen(q).1.e)
    ensures forall e <- Chosen(q).0.ready :: e in q.ready
  {
    if q.ready != [] {
      assert q.ready == [q.ready[0]] + q.ready[1..];
    }
  }

  lemma ExpireReady(q: Queues, now: int)
    ensures forall x :: x in q.Expire(now).ready <==> x in q.ready || x in q.Expired(now)
  {
    InsertAllContents(q.ready, q.Expired(now));
    forall x ensures x in q.Expire(now).ready <==> x in q.ready || x in q.Expired(now) {
      assert x in q.Expire(now).ready <==> x in multiset(q.Expire(now).ready);
      assert x in q.ready <==> x in multiset(q.ready);
      assert x in q.Expired(now) <==> x in multiset(q.Expired(now));
    }
  }

  /** A turn at the lock loses and invents nothing, keeps the orders, and takes an event only when
      it is first among all that are ready or expired. */
  lemma TurnKeeps(q: Queues, now: int, woken: bool)
    requires q.Sorted() && forall e <- q.ready :: e.time <= now
    ensures
      var (q', leave) := TurnFrom(q, now, woken);
      && q'.Sorted() && q'.shutdown == q.shutdown
      && multiset(q.ready) + multiset(q.waiting) == multiset(q'.ready) + multiset(q'.waiting) + TakenBy(leave)
      && (forall e <- q'.ready :: e.time <= now)
      && (leave.Take? ==> leave.e.time <= now && !q.shutdown)
  {
    ExpireKeeps(q, now);
    ExpireReady(q, now);
    ChosenKeeps(q.Expire(now));
  }

  /** The smallest number of the priority comes first, and of those the earliest time. */
  lemma TurnTakesMinimal(q: Queues, now: int, woken: bool, x: Event)
    requires q.Sorted() && TurnFrom(q, now, woken).1.Take?
    requires x in q.ready || (x in q.waiting && x.time <= now)
    ensures
      var e := TurnFrom(q, now, woken).1.e;
      e.priority < x.priority || (e.priority == x.priority && e.time <= x.time)
    ensures !Less(x, TurnFrom(q, now, woken).1.e)
  {
    ExpireKeeps(q, now);
    ChosenKeeps(q.Expire(now));
    DueIsReady(q, now, x);
  }

  /** Whether a worker leaves with an event, to wait, or for good: it takes one exactly when one is
      ready or due and there is no stop; it waits for a time only with nothing ready or due, and
      that is the earliest one waited for; it waits for work only with both queues empty. */
  lemma TurnDecides(q: Queues, now: int, woken: bool)
    requires WaitingSorted(q.waiting)
    ensures
      var leave := TurnFrom(q, now, woken).1;
      && (leave.Exit? <==> q.shutdown)
      && (leave.Take? <==> !q.shutdown && (q.ready != [] || exists e <- q.waiting :: e.time <= now))
      && (leave.WaitForTime? <==>
            !q.shutdown && q.ready == [] && q.waiting != [] && forall e <- q.waiting :: e.time > now)
      && (leave.WaitForTime? ==>
            && (exists e <- q.waiting :: e.time == leave.until)
            && (forall e <- q.waiting :: leave.until <= e.time))
      && (leave.WaitForWork? <==> !woken && !q.shutdown && q.ready == [] && q.waiting == [])
  {
    var k := FirstLater(q.waiting, now);
    InsertAllLength(q.ready, q.Expired(now));
    SplitWaiting(q.waiting, k, now);
    assert k > 0 ==> q.waiting[0] in q.waiting;
    assert k == 0 ==> q.Expire(now) == q;
    if q.waiting != [] {
      assert q.waiting[0] in q.waiting;
    }
  }

  lemma DueIsReady(q: Queues, now: int, x: Event)
    requires WaitingSorted(q.waiting)
    requires x in q.ready || (x in q.waiting && x.time <= now)
    ensures x in q.Expire(now).ready
  {
    ExpireReady(q, now);
    if x !in q.ready {
      var j :| 0 <= j < |q.waiting| && q.waiting[j] == x;
      assert j < FirstLater(q.waiting, now);
      assert q.Expired(now)[j] == x;
    }
  }

  /** Where a turn evaluates waiting.begin() of an empty queue. */
  lemma TurnUndefined(q: Queues, now: int, woken: bool)
    ensures TurnFrom(q, now, woken).1.Undefined? <==> woken && !q.shutdown && q.ready == [] && q.waiting == []
    ensures TurnFrom(q, now, woken).1.WaitForTime? ==> TurnFrom(q, now, woken).0.waiting != []
  {
    InsertAllLength(q.ready, q.Expired(now));
    assert |q.Expire(now).ready| + |q.Expire(now).waiting| == |q.ready| + |q.waiting|;
  }

  // ------------------------------------------------------------------------- bounded bypass

  /** How many events come strictly before `e`. */
  function Before(es: seq<Event>, e: Event): nat {
    if es == [] then 0 else Before(es[..|es| - 1], e) + if Less(es[|es| - 1], e) then 1 else 0
  }

  /** An insertion moves an event back by one if the new one is strictly smaller, and leaves it
      where it is otherwise. */
  lemma PositionAfterInsert(q: seq<Event>, x: Event, p: nat)
    requires ReadySorted(q) && p < |q|
    ensures InsertReady(q, x)[if Less(x, q[p]) then p + 1 else p] == q[p]
  {
    var k := ReadyPosition(q, x);
    if k < p {
      assert !Less(q[p], q[k]);
    }
  }

  lemma {:induction false} PositionAfterInsertAll(q: seq<Event>, es: seq<Event>, p: nat)
    requires ReadySorted(q) && p < |q|
    ensures p + Before(es, q[p]) < |InsertAll(q, es)|
    ensures InsertAll(q, es)[p + Before(es, q[p])] == q[p]
  {
    if es != [] {
      var init := es[..|es| - 1];
      PositionAfterInsertAll(q, init, p);
      InsertAllSorted(q, init);
      PositionAfterInsert(InsertAll(q, init), es[|es| - 1], p + Before(init, q[p]));
    }
  }

  /** What a turn inserts into the ready queue, in order. */
  function InsertedByTurn(q: Queues, now: int, woken: bool): seq<Event> {
    if woken || (!q.shutdown && (q.ready != [] || q.waiting != [])) then q.Expired(now) else []
  }

  lemma PositionAfterTurn(q: Queues, now: int, woken: bool, p: nat)
    requires ReadySorted(q.ready) && p < |q.ready|
    ensures
      var (q', leave) := TurnFrom(q, now, woken);
      var at := p + Before(InsertedByTurn(q, now, woken), q.ready[p]) - if leave.Take? then 1 else 0;
      && (at >= 0 ==> at < |q'.ready| && q'.ready[at] == q.ready[p])
      && (at < 0 ==> leave == Take(q.ready[p]))
  {
    PositionAfterInsertAll(q.ready, q.Expired(now), p);
    if woken || !q.shutdown {
      PositionAfterChoice(q.Expire(now), p + Before(q.Expired(now), q.ready[p]));
    }
  }

  lemma PositionAfterChoice(q: Queues, p: nat)
    requires p < |q.ready|
    ensures
      var (q', leave) := Chosen(q);
      if !leave.Take? then q' == q
      else if p == 0 then leave == Take(q.ready[p])
      else p <= |q'.ready| && q'.ready[p - 1] == q.ready[p]
  {
  }
}
