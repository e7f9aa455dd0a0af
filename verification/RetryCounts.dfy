/** Counting the retries of a job from its log (lb_utils.cpp) and comparing the counts
    with the job's and the system's limits (submission_utils.cpp). */
module RetryCounts {
  import opened Wrappers

  /** The logged events that matter for a retry.  A shallow resubmission is logged either by
      the request handler or by the replanner. */
  datatype LbEvent = Deep | Shallow(byReplanner: bool) | Other

  datatype Counts = Counts(deep: nat, shallow: nat)

  /** The reference meaning: replay the log from its beginning; a deep resubmission starts a
      new epoch, in which no shallow one has happened yet. */
  function Replay(log: seq<LbEvent>): Counts {
    if log == [] then Counts(0, 0)
    else
      var before := Replay(log[..|log| - 1]);
      match log[|log| - 1]
      case Deep => Counts(before.deep + 1, 0)
      case Shallow(_) => Counts(before.deep, before.shallow + 1)
      case Other => before
  }

  lemma ReplayAppend(log: seq<LbEvent>, e: LbEvent)
    ensures Replay(log + [e]) ==
            match e
            case Deep => Counts(Replay(log).deep + 1, 0)
            case Shallow(_) => Counts(Replay(log).deep, Replay(log).shallow + 1)
            case Other => Replay(log)
  {
    assert (log + [e])[..|log|] == log;
  }

  /** What replaying gives, as numbers of occurrences: of deep resubmissions in the log, and of
      shallow ones of either kind behind the last deep one. */
  lemma {:induction false} ReplayCounts(log: seq<LbEvent>, k: nat)
    requires k <= |log| && Deep !in log[k..] && (k == 0 || log[k - 1] == Deep)
    ensures Replay(log).deep == multiset(log)[Deep]
    ensures Replay(log).shallow == multiset(log[k..])[Shallow(true)] + multiset(log[k..])[Shallow(false)]
  {
    DeepOccurrences(log);
    if k < |log| {
      var front, last := log[..|log| - 1], log[|log| - 1];
      assert log[k..] == front[k..] + [last];
      ReplayCounts(front, k);
    }
  }

  lemma {:induction false} DeepOccurrences(log: seq<LbEvent>)
    ensures Replay(log).deep == multiset(log)[Deep]
  {
    if log != [] {
      DeepOccurrences(log[..|log| - 1]);
      assert log == log[..|log| - 1] + [log[|log| - 1]];
    }
  }

  /** Events in log[lo..hi) that are shallow resubmissions. */
  function ShallowIn(log: seq<LbEvent>, lo: nat, hi: nat): nat
    requires lo <= hi <= |log|
    decreases hi - lo
  {
    if lo == hi then 0
    else ShallowIn(log, lo, hi - 1) + if log[hi - 1].Shallow? then 1 else 0
  }

  /** Searching backwards for the last deep resubmission and counting from there is the
      same as replaying. */
  lemma {:induction false} ReplayFromLastDeep(log: seq<LbEvent>, pos: nat, hi: nat)
    requires pos <= hi <= |log|
    requires forall k :: pos < k < hi ==> log[k] != Deep
    requires (pos < hi && log[pos] == Deep) || (pos == 0 && forall k :: 0 <= k < hi ==> log[k] != Deep)
    ensures Replay(log[..hi]).shallow == ShallowIn(log, pos, hi)
    decreases hi
  {
    if pos < hi {
      assert log[..hi][..hi - 1] == log[..hi - 1];
      if pos < hi - 1 || log[pos] != Deep {
        ReplayFromLastDeep(log, pos, hi - 1);
      }
    }
  }

  /** std::find_if over the reversed range; the end of the range stands for "none". */
  method FindLastDeepResubmission(events: seq<LbEvent>) returns (pos: nat)
    ensures pos <= |events|
    ensures pos < |events| ==> events[pos] == Deep && forall k :: pos < k < |events| ==> events[k] != Deep
    ensures pos == |events| ==> Deep !in events
  {
    pos := |events|;
    while pos > 0
      invariant pos <= |events|
      invariant forall k :: pos <= k < |events| ==> events[k] != Deep
    {
      pos := pos - 1;
      if events[pos] == Deep {
        return;
      }
    }
    pos := |events|;
  }

  method GetRetryCounts(events: seq<LbEvent>) returns (deep: nat, shallow: nat)
    ensures Counts(deep, shallow) == Replay(events)
    ensures deep == multiset(events)[Deep]
  {
    DeepOccurrences(events);
    deep := 0;
    for i := 0 to |events|
      invariant deep == Replay(events[..i]).deep
    {
      assert events[..i + 1] == events[..i] + [events[i]];
      ReplayAppend(events[..i], events[i]);
      if events[i].Deep? {
        deep := deep + 1;
      }
    }
    var last := FindLastDeepResubmission(events);
    if last == |events| {
      last := 0;
    }
    shallow := 0;
    for i := last to |events|
      invariant shallow == ShallowIn(events, last, i)
    {
      if events[i].Shallow? {
        shallow := shallow + 1;
      }
    }
    ReplayFromLastDeep(events, last, |events|);
    assert events[..|events|] == events;
  }

  datatype LimitHit =
    | HitJobShallowCount(count: int)
    | HitMaxShallowCount(count: int)
    | HitJobRetryCount(count: int)
    | HitMaxRetryCount(count: int)

  /** The limit that the comment above the two checks announces. */
  function EffectiveLimit(job: Option<int>, system: int): nat {
    Max(0, Min(job.GetOr(0), system))
  }

  /** What lies below it: counts below both limits, if the job has one. */
  lemma BelowLimit(job: Option<int>, system: int, count: nat)
    ensures count < EffectiveLimit(job, system) <==> job.Some? && count < job.value && count < system
  {
  }

  /** Lets a retry through exactly below both limits.  The failure tells which one was reached:
      the job's whenever it is, none standing for zero, and otherwise the system's. */
  function CheckShallowCount(job: Option<int>, system: int, count: nat): (r: Outcome<LimitHit>)
    ensures r.Pass? <==> job.Some? && count < job.value && count < system
    ensures r.Pass? <==> count < EffectiveLimit(job, system)
    ensures r.Fail? && r.error.HitJobShallowCount? ==>
              && r.error.count <= count && (job.None? || job.value <= count)
              && r.error.count == if job.Some? && job.value > 0 then job.value else 0
    ensures r.Fail? && !r.error.HitJobShallowCount? ==>
              && job.Some? && count < job.value && system <= count
              && r.error == HitMaxShallowCount(if system > 0 then system else 0)
  {
    var jobLimit := if job.None? || job.value < 0 then 0 else job.value;
    if count >= jobLimit then Fail(HitJobShallowCount(jobLimit))
    else
      var systemLimit := if system < 0 then 0 else system;
      if count >= systemLimit then Fail(HitMaxShallowCount(systemLimit)) else Pass
  }

  /** The same for deep retries, although here the system's value is not clamped at zero. */
  function CheckDeepCount(job: Option<int>, system: int, count: nat): (r: Outcome<LimitHit>)
    ensures r.Pass? <==> job.Some? && count < job.value && count < system
    ensures r.Pass? <==> count < EffectiveLimit(job, system)
    ensures r.Fail? && r.error.HitJobRetryCount? ==>
              && r.error.count <= count && (job.None? || job.value <= count)
              && r.error.count == if job.Some? && job.value > 0 then job.value else 0
    ensures r.Fail? && !r.error.HitJobRetryCount? ==>
              job.Some? && count < job.value && system <= count && r.error == HitMaxRetryCount(system)
  {
    var jobLimit := if job.None? || job.value < 0 then 0 else job.value;
    if count >= jobLimit then Fail(HitJobRetryCount(jobLimit))
    else if count >= system then Fail(HitMaxRetryCount(system)) else Pass
  }
}
