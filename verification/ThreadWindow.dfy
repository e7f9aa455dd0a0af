/** The bounded window of threads with which JobCollection::launch works through a collection. */
module ThreadWindow {
  import opened Wrappers

  datatype Operation = Submit | Status | Output | Cancel

  /** What a thread is told: its job and, when submitting, the position of its LB address. */
  datatype Params = Params(job: nat, address: Option<nat>)

  // ----------------------------------------------------------- what has happened to the slots

  /** A thread was started on, or joined from, a slot of the two arrays. */
  datatype Event = Launched(slot: nat, params: Params) | Joined(slot: nat, params: Params)

  /** The threads still to be joined, with the parameters they were started with. */
  ghost function Running(trace: seq<Event>): map<nat, Params> {
    if trace == [] then map[]
    else
      var before := Running(trace[..|trace| - 1]);
      match trace[|trace| - 1]
      case Launched(slot, params) => before[slot := params]
      case Joined(slot, _) => before - {slot}
  }

  /** No slot is written over while its thread is running, and a thread that is joined finds the
      parameters it was started with. */
  ghost predicate Legal(trace: seq<Event>, width: nat) {
    trace == [] ||
    (var front, last := trace[..|trace| - 1], trace[|trace| - 1];
     && Legal(front, width)
     && (last.Launched? ==> last.slot < width && last.slot !in Running(front))
     && (last.Joined? ==> last.slot in Running(front) && Running(front)[last.slot] == last.params))
  }

  ghost function Launches(trace: seq<Event>): seq<nat> {
    if trace == [] then []
    else Launches(trace[..|trace| - 1]) + if trace[|trace| - 1].Launched? then [trace[|trace| - 1].params.job] else []
  }

  ghost function Joins(trace: seq<Event>): seq<nat> {
    if trace == [] then []
    else Joins(trace[..|trace| - 1]) + if trace[|trace| - 1].Joined? then [trace[|trace| - 1].params.job] else []
  }

  function UpTo(n: nat): (s: seq<nat>)
    ensures |s| == n && forall i :: 0 <= i < n ==> s[i] == i
  {
    seq(n, i => i)
  }

  /** At no time more threads than slots. */
  lemma {:induction false} AtMostWidth(trace: seq<Event>, width: nat, k: nat)
    requires Legal(trace, width) && k <= |trace|
    ensures |Running(trace[..k])| <= width
    decreases |trace|
  {
    if k < |trace| {
      assert trace[..|trace| - 1][..k] == trace[..k];
      AtMostWidth(trace[..|trace| - 1], width, k);
    } else {
      assert trace[..k] == trace;
      RunningInSlots(trace, width);
      SubsetCard(Running(trace).Keys, Slots(width));
    }
  }

  ghost function Slots(width: nat): (slots: set<nat>)
    ensures |slots| == width && forall i: nat :: i in slots <==> i < width
  {
    if width == 0 then {} else Slots(width - 1) + {width - 1}
  }

  lemma {:induction false} RunningInSlots(trace: seq<Event>, width: nat)
    requires Legal(trace, width)
    ensures forall slot :: slot in Running(trace) ==> slot < width
  {
    if trace != [] {
      RunningInSlots(trace[..|trace| - 1], width);
    }
  }

  // --------------------------------------------------------------------------- LB addresses

  /** n % count */
  function Remainder(n: nat, count: nat): (r: nat)
    requires count > 0
    ensures r < count
    decreases n
  {
    if n < count then n else Remainder(n - count, count)
  }

  lemma {:induction false} RemainderIs(n: nat, count: nat)
    requires count > 0
    ensures Remainder(n, count) == n % count
  {
    if n >= count {
      RemainderIs(n - count, count);
      var m, q := n - count, (n - count) / count;
      assert n == (q + 1) * count + m % count by {
        assert (q + 1) * count == q * count + count;
      }
      Unique(n / count, n % count, q + 1, m % count, count);
    } else {
      Unique(n / count, n % count, 0, n, count);
    }
  }

  lemma Unique(p: int, r: nat, q: int, s: nat, count: nat)
    requires r < count && s < count && p * count + r == q * count + s
    ensures p == q && r == s
  {
    MulMono(p + 1, q, count);
    MulMono(q + 1, p, count);
  }

  lemma MulMono(a: int, b: int, c: nat)
    ensures a <= b ==> a * c <= b * c
  {
    if a <= b {
      assert b * c - a * c == (b - a) * c;
    }
  }

  lemma {:induction false} RemaindersDiffer(i: nat, j: nat, count: nat)
    requires i < j < i + count
    ensures Remainder(i, count) != Remainder(j, count)
    decreases i
  {
    if i >= count {
      RemaindersDiffer(i - count, j - count, count);
    } else if j >= count {
      assert Remainder(j, count) == j - count;
    }
  }

  lemma {:induction false} NextRemainder(n: nat, count: nat)
    requires count > 0
    ensures Remainder(Remainder(n, count) + 1, count) == Remainder(n + 1, count)
    decreases n
  {
    if n >= count {
      NextRemainder(n - count, count);
    }
  }

  /** rounds * count */
  function Rounds(rounds: nat, count: nat): nat {
    if rounds == 0 then 0 else Rounds(rounds - 1, count) + count
  }

  lemma {:induction false} RemainderBehind(rounds: nat, x: nat, count: nat)
    requires count > 0
    ensures Remainder(Rounds(rounds, count) + x, count) == Remainder(x, count)
  {
    if rounds > 0 {
      RemainderBehind(rounds - 1, x, count);
    }
  }

  lemma {:induction false} InRounds(n: nat, count: nat) returns (rounds: nat, extra: nat)
    requires count > 0
    ensures n == Rounds(rounds, count) + extra && extra < count
    decreases n
  {
    if n < count {
      rounds, extra := 0, n;
    } else {
      rounds, extra := InRounds(n - count, count);
      rounds := rounds + 1;
    }
  }

  /** The position after `n` jobs have been given an address. */
  function Position(first: nat, count: nat, n: nat): (p: nat)
    requires first < count
    ensures p < count
  {
    if n == 0 then first else Remainder(Position(first, count, n - 1) + 1, count)
  }

  lemma {:induction false} PositionIs(first: nat, count: nat, n: nat)
    requires first < count
    ensures Position(first, count, n) == Remainder(first + n, count)
  {
    if n > 0 {
      PositionIs(first, count, n - 1);
      NextRemainder(first + n - 1, count);
    }
  }

  function AddressOf(first: nat, count: nat, i: nat): nat
    requires first < count
  {
    Position(first, count, i + 1)
  }

  function Uses(first: nat, count: nat, n: nat, address: nat): nat
    requires first < count
  {
    if n == 0 then 0
    else Uses(first, count, n - 1, address) + if AddressOf(first, count, n - 1) == address then 1 else 0
  }

  /** Over some rounds and `extra` jobs, the address `j` places behind the first one used. */
  lemma {:induction false} UsesExactly(first: nat, count: nat, rounds: nat, extra: nat, j: nat)
    requires first < count && extra < count && j < count
    ensures Uses(first, count, Rounds(rounds, count) + extra, AddressOf(first, count, j)) ==
            rounds + if j < extra then 1 else 0
    decreases rounds, extra
  {
    if extra > 0 {
      UsesExactly(first, count, rounds, extra - 1, j);
      SameAddress(first, count, rounds, extra - 1, j);
    } else if rounds > 0 {
      UsesExactly(first, count, rounds - 1, count - 1, j);
      SameAddress(first, count, rounds - 1, count - 1, j);
    }
  }

  lemma SameAddress(first: nat, count: nat, rounds: nat, i: nat, j: nat)
    requires first < count && i < count && j < count
    ensures AddressOf(first, count, Rounds(rounds, count) + i) == AddressOf(first, count, j) <==> i == j
  {
    PositionIs(first, count, Rounds(rounds, count) + i + 1);
    PositionIs(first, count, j + 1);
    SameRemainder(first + 1, count, rounds, i, j, Rounds(rounds, count) + first + 1 + i);
  }

  lemma SameRemainder(base: nat, count: nat, rounds: nat, i: nat, j: nat, n: nat)
    requires i < count && j < count && n == Rounds(rounds, count) + (base + i)
    ensures Remainder(n, count) == Remainder(base + j, count) <==> i == j
  {
    RemainderBehind(rounds, base + i, count);
    if i < j {
      RemaindersDiffer(base + i, base + j, count);
    } else if j < i {
      RemaindersDiffer(base + j, base + i, count);
    }
  }

  /** Every address is used as often as every other, give or take one. */
  lemma EvenlyUsed(first: nat, count: nat, n: nat, a: nat, b: nat)
    requires first < count && a < count && b < count
    ensures Uses(first, count, n, a) <= Uses(first, count, n, b) + 1
  {
    var rounds, extra := InRounds(n, count);
    UsesOf(first, count, n, rounds, extra, a);
    UsesOf(first, count, n, rounds, extra, b);
  }

  lemma UsesOf(first: nat, count: nat, n: nat, rounds: nat, extra: nat, a: nat)
    requires first < count && a < count && n == Rounds(rounds, count) + extra && extra < count
    ensures rounds <= Uses(first, count, n, a) <= rounds + 1
  {
    var j := Place(first, count, a);
    UsesExactly(first, count, rounds, extra, j);
  }

  /** How far behind the first address used an address stands. */
  lemma Place(first: nat, count: nat, a: nat) returns (j: nat)
    requires first < count && a < count
    ensures j < count && AddressOf(first, count, j) == a
  {
    j := if first < a then a - first - 1 else a + count - first - 1;
    PositionIs(first, count, j + 1);
    assert Remainder(a + count, count) == a;
  }

  // ------------------------------------------------------------------------------- the launch

  const MAX_THREAD_NUMBER: nat := 10

  function ParamsOf(operation: Operation, first: nat, count: nat, i: nat): Params
    requires operation.Submit? ==> first < count
  {
    Params(i, if operation.Submit? then Some(AddressOf(first, count, i)) else None)
  }

  /** When submitting, each job is told the address behind that of the job before it, and the last
      address is followed by the first. */
  lemma ParamsTold(operation: Operation, first: nat, count: nat, i: nat)
    requires operation.Submit? ==> first < count
    ensures ParamsOf(operation, first, count, i) ==
            Params(i, if operation.Submit? then Some((first + i + 1) % count) else None)
  {
    if operation.Submit? {
      PositionIs(first, count, i + 1);
      RemainderIs(first + i + 1, count);
    }
  }

  /** How many of the jobs are told this address. */
  function Told(all: seq<Params>, address: nat): nat {
    if all == [] then 0
    else Told(all[..|all| - 1], address) + if all[|all| - 1].address == Some(address) then 1 else 0
  }

  lemma {:induction false} ToldIsUses(all: seq<Params>, first: nat, count: nat, address: nat)
    requires first < count && forall i :: 0 <= i < |all| ==> all[i] == ParamsOf(Submit, first, count, i)
    ensures Told(all, address) == Uses(first, count, |all|, address)
  {
    if all != [] {
      ToldIsUses(all[..|all| - 1], first, count, address);
    }
  }

  /** So of the jobs of one launch every address is told to as many as every other, give or take
      one. */
  lemma ToldEvenly(all: seq<Params>, first: nat, count: nat, a: nat, b: nat)
    requires first < count && forall i :: 0 <= i < |all| ==> all[i] == ParamsOf(Submit, first, count, i)
    requires a < count && b < count
    ensures Told(all, a) <= Told(all, b) + 1
  {
    ToldIsUses(all, first, count, a);
    ToldIsUses(all, first, count, b);
    EvenlyUsed(first, count, |all|, a, b);
  }

  ghost predicate Numbered(all: seq<Params>) {
    forall i :: 0 <= i < |all| ==> all[i].job == i
  }

  /** The parameter blocks after `launched` jobs have been started. */
  ghost function Blocks(initial: seq<Params>, all: seq<Params>, launched: nat): (ps: seq<Params>)
    requires initial != [] && launched <= |all|
    ensures |ps| == |initial|
  {
    if launched == 0 then initial
    else Blocks(initial, all, launched - 1)[Remainder(launched - 1, |initial|) := all[launched - 1]]
  }

  /** The block of a job lasts until the window has moved past it. */
  lemma {:induction false} BlockLasts(initial: seq<Params>, all: seq<Params>, launched: nat, i: nat)
    requires initial != [] && launched <= |all| && i < launched <= i + |initial|
    ensures Blocks(initial, all, launched)[Remainder(i, |initial|)] == all[i]
  {
    if i + 1 < launched {
      BlockLasts(initial, all, launched - 1, i);
      RemaindersDiffer(i, launched - 1, |initial|);
    }
  }

  /** What a launch does to the slots: when it has started `launched` threads and joined `joined`,
      the last step was a join unless that left all slots taken. */
  ghost function Schedule(all: seq<Params>, width: nat, launched: nat, joined: nat): seq<Event>
    requires joined <= launched <= |all| && 0 < width && launched <= joined + width
    decreases launched + joined
  {
    if joined > 0 && launched < joined + width then
      Schedule(all, width, launched, joined - 1) + [Joined(Remainder(joined - 1, width), all[joined - 1])]
    else if launched > 0 then
      Schedule(all, width, launched - 1, joined) + [Launched(Remainder(launched - 1, width), all[launched - 1])]
    else []
  }

  /** The threads of the jobs from `joined` to `launched` are running, each on its own slot. */
  ghost predicate Window(all: seq<Params>, width: nat, launched: nat, joined: nat, running: map<nat, Params>)
    requires joined <= launched <= |all| && 0 < width
  {
    && (forall i :: joined <= i < launched ==>
          Remainder(i, width) in running && running[Remainder(i, width)] == all[i])
    && (forall slot :: slot in running ==>
          var i := running[slot].job; joined <= i < launched && Remainder(i, width) == slot)
  }

  ghost predicate Tracks(all: seq<Params>, width: nat, launched: nat, joined: nat, trace: seq<Event>)
    requires joined <= launched <= |all| && 0 < width
  {
    && Legal(trace, width) && Window(all, width, launched, joined, Running(trace))
    && Launches(trace) == UpTo(launched) && Joins(trace) == UpTo(joined)
  }

  lemma {:induction false} ScheduleIsLegal(all: seq<Params>, width: nat, launched: nat, joined: nat)
    requires joined <= launched <= |all| && 0 < width && launched <= joined + width && Numbered(all)
    ensures Tracks(all, width, launched, joined, Schedule(all, width, launched, joined))
    decreases launched + joined
  {
    var trace := Schedule(all, width, launched, joined);
    if joined > 0 && launched < joined + width {
      var before := Schedule(all, width, launched, joined - 1);
      ScheduleIsLegal(all, width, launched, joined - 1);
      assert trace == before + [Joined(Remainder(joined - 1, width), all[joined - 1])];
      JoinStep(all, width, launched, joined - 1, before, trace);
    } else if launched > 0 {
      var before := Schedule(all, width, launched - 1, joined);
      ScheduleIsLegal(all, width, launched - 1, joined);
      assert trace == before + [Launched(Remainder(launched - 1, width), all[launched - 1])];
      LaunchStep(all, width, launched - 1, joined, before, trace);
    }
  }

  lemma LaunchStep(all: seq<Params>, width: nat, launched: nat, joined: nat, before: seq<Event>, trace: seq<Event>)
    requires joined <= launched < |all| && 0 < width && launched < joined + width && all[launched].job == launched
    requires Tracks(all, width, launched, joined, before)
    requires trace == before + [Launched(Remainder(launched, width), all[launched])]
    ensures Tracks(all, width, launched + 1, joined, trace)
  {
    var slot := Remainder(launched, width);
    forall i | joined <= i < launched ensures Remainder(i, width) != slot {
      RemaindersDiffer(i, launched, width);
    }
    assert trace[..|trace| - 1] == before;
    assert UpTo(launched + 1) == UpTo(launched) + [launched];
  }

  lemma JoinStep(all: seq<Params>, width: nat, launched: nat, joined: nat, before: seq<Event>, trace: seq<Event>)
    requires joined < launched <= |all| && 0 < width && launched <= joined + width && all[joined].job == joined
    requires Tracks(all, width, launched, joined, before)
    requires trace == before + [Joined(Remainder(joined, width), all[joined])]
    ensures Tracks(all, width, launched, joined + 1, trace)
  {
    var slot := Remainder(joined, width);
    forall i | joined < i < launched ensures Remainder(i, width) != slot {
      RemaindersDiffer(joined, i, width);
    }
    assert trace[..|trace| - 1] == before;
    assert UpTo(joined + 1) == UpTo(joined) + [joined];
  }

  lemma {:induction false} RunningCount(trace: seq<Event>, width: nat)
    requires Legal(trace, width)
    ensures |Running(trace)| + |Joins(trace)| == |Launches(trace)|
  {
    if trace != [] {
      var front, last := trace[..|trace| - 1], trace[|trace| - 1];
      RunningCount(front, width);
      if last.Launched? {
        assert Running(trace).Keys == Running(front).Keys + {last.slot};
      } else {
        assert Running(trace).Keys == Running(front).Keys - {last.slot};
      }
    }
  }

  lemma RunningThen(all: seq<Params>, width: nat, launched: nat, joined: nat)
    requires joined <= launched <= |all| && 0 < width && launched <= joined + width && Numbered(all)
    ensures |Launches(Schedule(all, width, launched, joined))| == launched
    ensures |Running(Schedule(all, width, launched, joined))| == launched - joined
  {
    ScheduleIsLegal(all, width, launched, joined);
    RunningCount(Schedule(all, width, launched, joined), width);
  }

  /** No thread is waited for unless all slots are taken or all jobs have been launched. */
  ghost predicate JoinsOnlyWhenFull(trace: seq<Event>, width: nat, jobs: nat) {
    trace == [] ||
    (var front, last := trace[..|trace| - 1], trace[|trace| - 1];
     && JoinsOnlyWhenFull(front, width, jobs)
     && (last.Joined? ==> |Launches(front)| == jobs || |Running(front)| == width))
  }

  lemma NextEvent(before: seq<Event>, e: Event, width: nat, jobs: nat)
    requires JoinsOnlyWhenFull(before, width, jobs)
    requires e.Joined? ==> |Launches(before)| == jobs || |Running(before)| == width
    ensures JoinsOnlyWhenFull(before + [e], width, jobs)
  {
    assert (before + [e])[..|before|] == before;
  }

  lemma {:induction false} ScheduleWaitsForNone(all: seq<Params>, width: nat, launched: nat, joined: nat)
    requires joined <= launched <= |all| && 0 < width && launched <= joined + width && Numbered(all)
    requires launched == |all| || launched + 1 >= joined + width || joined == 0
    ensures JoinsOnlyWhenFull(Schedule(all, width, launched, joined), width, |all|)
    decreases launched + joined
  {
    if joined > 0 && launched < joined + width {
      ScheduleWaitsForNone(all, width, launched, joined - 1);
      RunningThen(all, width, launched, joined - 1);
      NextEvent(Schedule(all, width, launched, joined - 1), Joined(Remainder(joined - 1, width), all[joined - 1]),
                width, |all|);
    } else if launched > 0 {
      ScheduleWaitsForNone(all, width, launched - 1, joined);
      NextEvent(Schedule(all, width, launched - 1, joined), Launched(Remainder(launched - 1, width), all[launched - 1]),
                width, |all|);
    }
  }

  /** No slot is written over too early, every thread is joined, and every job was launched and
      its result stored exactly once, in the order of the collection. */
  ghost predicate Complete(trace: seq<Event>, width: nat, jobs: nat) {
    Legal(trace, width) && Running(trace) == map[] && Launches(trace) == Joins(trace) == UpTo(jobs)
  }

  lemma ScheduleIsComplete(all: seq<Params>, width: nat)
    requires 0 < width && Numbered(all)
    ensures Complete(Schedule(all, width, |all|, |all|), width, |all|)
  {
    ScheduleIsLegal(all, width, |all|, |all|);
    assert Running(Schedule(all, width, |all|, |all|)).Keys == {};
  }

  /** When the two counters meet modulo the width, the window is full or empty. */
  lemma CountersMeet(width: nat, joined: nat, launched: nat)
    requires 0 < width && joined <= launched <= joined + width
    ensures launched % width == (width + joined) % width <==> (launched == joined || launched == joined + width)
    ensures Remainder(width + joined, width) == Remainder(joined, width)
  {
    RemainderIs(launched, width);
    RemainderIs(width + joined, width);
    assert width + joined >= width;
    if joined < launched < joined + width {
      RemaindersDiffer(joined, launched, width);
    }
  }

  /** The results of the jobs joined so far. */
  ghost predicate Stored<R>(results: seq<Option<R>>, all: seq<Params>, joined: nat, work: Params -> R) {
    && |results| == |all| && joined <= |all|
    && forall i :: 0 <= i < |all| ==> results[i] == if i < joined then Some(work(all[i])) else None
  }

  /** The state of a launch after `numTh` jobs have been launched: as many are joined as must be for
      a slot to be free. */
  ghost predicate AtWork<R>(ps: seq<Params>, results: seq<Option<R>>, initial: seq<Params>, all: seq<Params>,
                            numTh: nat, freeTh: nat, work: Params -> R, trace: seq<Event>)
  {
    && initial != [] && numTh <= |all| && freeTh == Max(|initial|, numTh + 1)
    && ps == Blocks(initial, all, numTh)
    && trace == Schedule(all, |initial|, numTh, freeTh - |initial|)
    && Stored(results, all, freeTh - |initial|, work)
  }

  /** Every result is that of its own job with the address that was its turn. */
  ghost predicate AllTold<R>(results: seq<Option<R>>, work: Params -> R, operation: Operation, first: nat, count: nat) {
    && (operation.Submit? ==> first < count)
    && forall i :: 0 <= i < |results| ==>
         results[i] == Some(work(Params(i, if operation.Submit? then Some((first + i + 1) % count) else None)))
  }

  lemma StoredAsTold<R>(results: seq<Option<R>>, all: seq<Params>, work: Params -> R, operation: Operation,
                        first: nat, count: nat)
    requires operation.Submit? ==> first < count
    requires Stored(results, all, |all|, work)
    requires forall i :: 0 <= i < |all| ==> all[i] == ParamsOf(operation, first, count, i)
    ensures AllTold(results, work, operation, first, count)
  {
    forall i | 0 <= i < |all|
      ensures results[i] == Some(work(Params(i, if operation.Submit? then Some((first + i + 1) % count) else None)))
    {
      ParamsTold(operation, first, count, i);
    }
  }

  class JobCollection {
    var maxThreadNumber: nat
    var jobs: nat
    var operation: Operation
    var lbAddresses: seq<string>
    var lbPosition: nat

    constructor (jobs: nat, maxThreadNumber: nat, operation: Operation, lbAddresses: seq<string>, lbPosition: nat)
      ensures this.jobs == jobs && this.maxThreadNumber == maxThreadNumber && this.operation == operation
      ensures this.lbAddresses == lbAddresses && this.lbPosition == lbPosition
    {
      this.jobs, this.maxThreadNumber, this.operation := jobs, maxThreadNumber, operation;
      this.lbAddresses, this.lbPosition := lbAddresses, lbPosition;
    }

    function MaxThreads(): (limit: nat)
      reads this
      ensures limit > 0 && (maxThreadNumber > 0 ==> limit == maxThreadNumber)
    {
      if maxThreadNumber > 0 then maxThreadNumber else MAX_THREAD_NUMBER
    }

    /** What the threads of a launch are to be told, job by job. */
    ghost function Plan(): (all: seq<Params>)
      requires operation.Submit? ==> lbPosition < |lbAddresses|
      reads this
      ensures |all| == jobs
      ensures forall i :: 0 <= i < jobs ==> all[i] == ParamsOf(operation, lbPosition, |lbAddresses|, i)
    {
      var (n, op, first, count) := (jobs, operation, lbPosition, |lbAddresses|);
      seq(n, i requires 0 <= i < n => ParamsOf(op, first, count, i))
    }

    /** Where the launch stands among the addresses after `n` jobs, having begun at `first`. */
    ghost predicate AtPosition(first: nat, n: nat)
      reads this
    {
      if operation.Submit? then first < |lbAddresses| && lbPosition == Position(first, |lbAddresses|, n)
      else lbPosition == first
    }

    method NextParams(job: nat, ghost first: nat) returns (params: Params)
      requires AtPosition(first, job)
      modifies this`lbPosition
      ensures AtPosition(first, job + 1) && params == ParamsOf(operation, first, |lbAddresses|, job)
    {
      params := Params(job, None);
      if operation.Submit? {
        RemainderIs(lbPosition + 1, |lbAddresses|);
        lbPosition := (lbPosition + 1) % |lbAddresses|;
        RemainderIs(lbPosition, |lbAddresses|);
        params := params.(address := Some(lbPosition % |lbAddresses|));
      }
    }

    /** Fills in the parameters of the next job and starts its thread. */
    method ExecuteThread(ps: array<Params>, numTh: nat, ghost all: seq<Params>, ghost initial: seq<Params>,
                         ghost first: nat)
      requires AtPosition(first, numTh)
      requires initial != [] && numTh < |all| && ps[..] == Blocks(initial, all, numTh)
      requires all[numTh] == ParamsOf(operation, first, |lbAddresses|, numTh)
      modifies ps, this`lbPosition
      ensures ps[..] == Blocks(initial, all, numTh + 1)
      ensures AtPosition(first, numTh + 1)
    {
      var params := NextParams(numTh, first);
      RemainderIs(numTh, ps.Length);
      ps[numTh % ps.Length] := params;
    }

    /** Joins the oldest thread, which has worked with what its slot holds, and stores its result. */
    method Retrieve<R>(ps: array<Params>, results: array<Option<R>>, freeTh: nat, work: Params -> R,
                       ghost all: seq<Params>, ghost joined: nat)
      requires ps.Length > 0 && freeTh == ps.Length + joined && joined < |all| && all[joined].job == joined
      requires ps[..][Remainder(joined, ps.Length)] == all[joined]
      requires Stored(results[..], all, joined, work)
      modifies results
      ensures Stored(results[..], all, joined + 1, work)
    {
      RemainderIs(freeTh, ps.Length);
      var slot := freeTh % ps.Length;
      results[ps[slot].job] := Some(work(ps[slot]));
    }

    /** One job: its thread is started, and once all slots are taken the oldest one is joined. */
    method LaunchNext<R>(ps: array<Params>, results: array<Option<R>>, numTh: nat, freeTh: nat, work: Params -> R,
                         ghost all: seq<Params>, ghost initial: seq<Params>, ghost first: nat, ghost trace: seq<Event>)
      returns (newFreeTh: nat, ghost after: seq<Event>)
      requires AtPosition(first, numTh) && numTh < |all|
      requires AtWork(ps[..], results[..], initial, all, numTh, freeTh, work, trace)
      requires all[numTh] == ParamsOf(operation, first, |lbAddresses|, numTh)
      requires all[freeTh - |initial|].job == freeTh - |initial|
      modifies ps, results, this`lbPosition
      ensures newFreeTh == if numTh + 1 == freeTh then freeTh + 1 else freeTh
      ensures AtWork(ps[..], results[..], initial, all, numTh + 1, newFreeTh, work, after)
      ensures AtPosition(first, numTh + 1)
    {
      newFreeTh := freeTh;
      ghost var joined := freeTh - |initial|;
      ExecuteThread(ps, numTh, all, initial, first);
      after := trace + [Launched(Remainder(numTh, |initial|), all[numTh])];
      CountersMeet(ps.Length, joined, numTh + 1);
      if (numTh + 1) % ps.Length == freeTh % ps.Length {
        BlockLasts(initial, all, numTh + 1, joined);
        Retrieve(ps, results, freeTh, work, all, joined);
        after := after + [Joined(Remainder(joined, |initial|), all[joined])];
        newFreeTh := freeTh + 1;
      }
    }

    /** Joins one of the threads that are still running when all have been started. */
    method DrainOne<R>(ps: array<Params>, results: array<Option<R>>, numTh: nat, freeTh: nat, work: Params -> R,
                       ghost all: seq<Params>, ghost initial: seq<Params>, ghost trace: seq<Event>)
      returns (newFreeTh: nat, ghost after: seq<Event>)
      requires initial != [] && |initial| <= freeTh <= numTh + |initial| && numTh == |all| < freeTh
      requires ps[..] == Blocks(initial, all, numTh) && Numbered(all) && freeTh != numTh + |initial|
      requires trace == Schedule(all, |initial|, numTh, freeTh - |initial|)
      requires Stored(results[..], all, freeTh - |initial|, work)
      modifies results
      ensures newFreeTh == freeTh + 1
      ensures after == Schedule(all, |initial|, numTh, newFreeTh - |initial|)
      ensures Stored(results[..], all, newFreeTh - |initial|, work)
    {
      ghost var joined := freeTh - |initial|;
      BlockLasts(initial, all, numTh, joined);
      Retrieve(ps, results, freeTh, work, all, joined);
      after := trace + [Joined(Remainder(joined, |initial|), all[joined])];
      newFreeTh := freeTh + 1;
    }

    method Drain<R>(ps: array<Params>, results: array<Option<R>>, numTh: nat, freeTh: nat, work: Params -> R,
                    ghost all: seq<Params>, ghost initial: seq<Params>, ghost trace: seq<Event>)
      returns (ghost after: seq<Event>)
      requires initial != [] && |initial| <= freeTh && freeTh - |initial| <= numTh < freeTh && numTh == |all|
      requires ps[..] == Blocks(initial, all, numTh)
      requires Numbered(all)
      requires trace == Schedule(all, |initial|, numTh, freeTh - |initial|)
      requires Stored(results[..], all, freeTh - |initial|, work)
      modifies results
      ensures after == Schedule(all, |initial|, numTh, numTh)
      ensures Stored(results[..], all, numTh, work)
    {
      after := trace;
      var free := freeTh;
      assert ps.Length == |initial|;
      CountersMeet(|initial|, free - |initial|, numTh);
      while free % ps.Length != numTh % ps.Length
        invariant freeTh <= free <= numTh + |initial| && ps.Length == |initial|
        invariant ps[..] == Blocks(initial, all, numTh)
        invariant after == Schedule(all, |initial|, numTh, free - |initial|)
        invariant Stored(results[..], all, free - |initial|, work)
        invariant free % |initial| == numTh % |initial| <==> free == numTh + |initial|
        decreases numTh + |initial| - free
      {
        free, after := DrainOne(ps, results, numTh, free, work, all, initial, after);
        CountersMeet(|initial|, free - |initial|, numTh);
      }
    }

    /** Launches the jobs one after the other. */
    method LaunchEach<R>(ps: array<Params>, results: array<Option<R>>, work: Params -> R,
                         ghost all: seq<Params>, ghost initial: seq<Params>, ghost first: nat)
      returns (freeTh: nat, ghost trace: seq<Event>)
      requires AtPosition(first, 0) && 0 < ps.Length <= jobs == |all| == results.Length && Numbered(all)
      requires forall i :: 0 <= i < jobs ==> all[i] == ParamsOf(operation, first, |lbAddresses|, i)
      requires initial == ps[..] && Stored(results[..], all, 0, work)
      modifies ps, results, this`lbPosition
      ensures AtWork(ps[..], results[..], initial, all, jobs, freeTh, work, trace)
      ensures AtPosition(first, jobs)
    {
      var numTh := 0;
      freeTh, trace := ps.Length, [];
      while numTh < jobs
        invariant numTh <= jobs && AtWork(ps[..], results[..], initial, all, numTh, freeTh, work, trace)
        invariant AtPosition(first, numTh)
      {
        freeTh, trace := LaunchNext(ps, results, numTh, freeTh, work, all, initial, first, trace);
        numTh := numTh + 1;
      }
    }

    /** Works through the jobs and joins what is left. */
    method LaunchAll<R>(ps: array<Params>, results: array<Option<R>>, work: Params -> R,
                        ghost all: seq<Params>, ghost first: nat)
      returns (ghost trace: seq<Event>)
      requires AtPosition(first, 0) && 0 < ps.Length <= jobs == |all| == results.Length && Numbered(all)
      requires forall i :: 0 <= i < jobs ==> all[i] == ParamsOf(operation, first, |lbAddresses|, i)
      requires Stored(results[..], all, 0, work)
      modifies ps, results, this`lbPosition
      ensures Complete(trace, ps.Length, jobs) && JoinsOnlyWhenFull(trace, ps.Length, jobs)
      ensures Stored(results[..], all, jobs, work)
      ensures AtPosition(first, jobs)
    {
      ghost var initial := ps[..];
      var freeTh;
      freeTh, trace := LaunchEach(ps, results, work, all, initial, first);
      trace := Drain(ps, results, jobs, freeTh, work, all, initial, trace);
      ScheduleIsComplete(all, ps.Length);
      ScheduleWaitsForNone(all, ps.Length, jobs, jobs);
    }

    /** Launches the whole collection; None is the exception thrown for an empty one.  The trace
        tells what has happened to the slots, and `width` is their number. */
    method Launch<R>(work: Params -> R) returns (r: Option<seq<Option<R>>>, ghost trace: seq<Event>, ghost width: nat)
      requires operation.Submit? ==> lbPosition < |lbAddresses|
      modifies this`lbPosition
      ensures r.None? <==> jobs == 0
      ensures r.Some? ==>
                && width == Min(if maxThreadNumber > 0 then maxThreadNumber else 10, jobs)
                && Complete(trace, width, jobs) && JoinsOnlyWhenFull(trace, width, jobs)
                && Stored(r.value, old(Plan()), jobs, work)
                && AllTold(r.value, work, operation, old(lbPosition), |lbAddresses|)
      ensures AtPosition(old(lbPosition), jobs)
    {
      trace, width := [], 0;
      if jobs == 0 {
        return None, trace, width;
      }
      ghost var all := Plan();
      var maxTh := if MaxThreads() > jobs then jobs else MaxThreads();
      width := maxTh;
      var ps := new Params[maxTh](_ => Params(0, None));
      var results := new Option<R>[jobs](_ => None);
      trace := LaunchAll(ps, results, work, all, lbPosition);
      StoredAsTold(results[..], all, work, operation, old(lbPosition), |lbAddresses|);
      r := Some(results[..]);
    }
  }
}
