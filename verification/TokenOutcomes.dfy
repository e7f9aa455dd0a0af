/** What each handling of a job comes to when nothing interferes, in the terms of its files, log
    and counts; and what every single step does to wrappers and requests. */
module TokenOutcomes {
  import opened Wrappers
  import opened RetryCounts
  import opened TokenProtocol
  import TokenTheorems

  // ------------------------------------------------------------------ undisturbed handlings

  function Quietly(n: nat): seq<Action> {
    seq(n, _ => Advance(false))
  }

  /** The handling begun by `a` goes on without a fault, and no wrapper moves meanwhile. */
  ghost predicate Leads(cfg: Config, s: Job, a: Action, n: nat, t: Job) {
    Run(cfg, s, [a] + Quietly(n)) == Some(t)
  }

  /** And ends in the state `t`. */
  ghost predicate EndsIn(cfg: Config, s: Job, a: Action, t: Job) {
    t.phase.Idle? && exists n: nat :: Leads(cfg, s, a, n, t)
  }

  lemma Begin(cfg: Config, s: Job, a: Action) returns (t: Job)
    requires Step(cfg, s, a).Some?
    ensures Step(cfg, s, a) == Some(t) && Leads(cfg, s, a, 0, t)
  {
    t := Step(cfg, s, a).value;
    RunAppend(cfg, s, [], a);
    assert [a] + Quietly(0) == [] + [a];
  }

  lemma Onward(cfg: Config, s: Job, a: Action, n: nat, t: Job) returns (u: Job)
    requires Leads(cfg, s, a, n, t) && Next(cfg, t, false).Some?
    ensures Next(cfg, t, false) == Some(u) && Leads(cfg, s, a, n + 1, u)
  {
    u := Next(cfg, t, false).value;
    RunAppend(cfg, s, [a] + Quietly(n), Advance(false));
    assert [a] + Quietly(n + 1) == [a] + Quietly(n) + [Advance(false)];
  }

  predicate Below(job: Option<int>, system: int, count: nat) {
    job.Some? && count < job.value && count < system
  }

  /** A token that is set aside is published, and one wrapper gets the carried number. */
  lemma Published(cfg: Config, s: Job, a: Action, n: nat, t: Job) returns (u: Job)
    requires Leads(cfg, s, a, n, t) && t.phase.Publish? && TokenFile(t.phase.n, true) in t.files
    ensures EndsIn(cfg, s, a, u)
    ensures u == t.(files := t.files - {TokenFile(t.phase.n, true)} + {TokenFile(t.phase.n, false)},
                    sent := t.sent + multiset{t.phase.carried}, submitted := true, phase := Idle)
  {
    u := Onward(cfg, s, a, n, t);
    u := Onward(cfg, s, a, n + 1, u);
  }

  lemma Logged(cfg: Config, s: Job, a: Action, n: nat, t: Job) returns (u: Job)
    requires Leads(cfg, s, a, n, t)
    requires t.phase.LogDeep? || (t.phase.LogShallow? && TokenFile(t.phase.n, true) in t.files)
    requires t.phase.LogDeep? ==> t.phase.carried == t.phase.n
    ensures EndsIn(cfg, s, a, u)
    ensures
      var k := t.phase.n;
      u == t.(log := t.log + [if t.phase.LogDeep? then Deep else Shallow(false)],
              files := if cfg.jobShallow == Some(-1) && t.phase.LogDeep? then t.files
                       else t.files - {TokenFile(k, true)} + {TokenFile(k, false)},
              sent := t.sent + multiset{k}, submitted := true, phase := Idle)
  {
    u := Onward(cfg, s, a, n, t);
    if t.phase.LogShallow? {
      u := Published(cfg, s, a, n + 1, u);
    } else {
      u := Onward(cfg, s, a, n + 1, u);
      if cfg.jobShallow != Some(-1) {
        u := Published(cfg, s, a, n + 2, u);
        var k := TokenFile(t.phase.n, true);
        assert t.files + {k} - {k} == t.files - {k};
      }
    }
  }

  /** A resubmission: where a token is found, it is shallow below both shallow limits and gives the
      token back with a wrapper that carries its number; where none is found, or shallow ones are
      disabled, it is deep below both deep limits, with a new token number 0 or none.  Otherwise
      the job is aborted, with its token set aside. */
  lemma ResubmissionOutcome(cfg: Config, s: Job, found: Option<TokenFile>) returns (t: Job)
    requires s.phase.Idle? && s.submitted && (if found.Some? then found.value in s.files else s.files == {})
    ensures EndsIn(cfg, s, StartResubmit(found), t)
    ensures cfg.jobShallow != Some(-1) && found.Some? ==>
              var on, aside := TokenFile(found.value.n, false), TokenFile(found.value.n, true);
              t == if Below(cfg.jobShallow, cfg.systemShallow, Replay(s.log).shallow) then
                     s.(log := s.log + [Shallow(false)], files := s.files - {aside} + {on},
                        sent := s.sent + multiset{found.value.n})
                   else s.(files := s.files - {on} + {aside}, limitHit := true)
    ensures cfg.jobShallow != Some(-1) && found.None? ==>
              t == if Below(cfg.jobRetry, cfg.systemRetry, Replay(s.log).deep) then
                     s.(log := s.log + [Deep], files := {TokenFile(0, false)}, sent := s.sent + multiset{0})
                   else s.(limitHit := true)
    ensures cfg.jobShallow == Some(-1) ==>
              t == if Below(cfg.jobRetry, cfg.systemRetry, Replay(s.log).deep) then
                     s.(log := s.log + [Deep],
                        sent := s.sent + multiset{if found.Some? then found.value.n else 0})
                   else s.(limitHit := true)
  {
    var a := StartResubmit(found);
    t := Begin(cfg, s, a);
    if cfg.jobShallow != Some(-1) {
      t := SetAside(cfg, s, a, t, found);
      t := Chosen(cfg, s, a, 1, t);
    } else {
      t := Chosen(cfg, s, a, 0, t);
    }
  }

  /** What is found is set aside before the choice between a shallow and a deep resubmission. */
  lemma SetAside(cfg: Config, s: Job, a: Action, t: Job, found: Option<TokenFile>) returns (u: Job)
    requires Leads(cfg, s, a, 0, t) && cfg.jobShallow != Some(-1) && t.phase.ResubmitScanned?
    requires t.phase.n == if found.Some? then found.value.n else 0
    requires if found.Some? then found.value in t.files else t.files == {}
    ensures Leads(cfg, s, a, 1, u)
    ensures
      var on, aside := TokenFile(t.phase.n, false), TokenFile(t.phase.n, true);
      u == t.(files := if found.Some? then t.files - {on} + {aside} else {},
              phase := ResubmitMoved(t.phase.n, t.phase.counts))
  {
    u := Onward(cfg, s, a, 0, t);
  }

  lemma Chosen(cfg: Config, s: Job, a: Action, n: nat, t: Job) returns (u: Job)
    requires Leads(cfg, s, a, n, t)
    requires if cfg.jobShallow == Some(-1) then t.phase.ResubmitScanned? else t.phase.ResubmitMoved?
    ensures EndsIn(cfg, s, a, u)
    ensures
      var k := t.phase.n;
      var on, aside := TokenFile(k, false), TokenFile(k, true);
      u == if cfg.jobShallow != Some(-1) && aside in t.files then
             if Below(cfg.jobShallow, cfg.systemShallow, t.phase.counts.shallow) then
               t.(log := t.log + [Shallow(false)], files := t.files - {aside} + {on}, sent := t.sent + multiset{k},
                  submitted := true, phase := Idle)
             else t.(limitHit := true, phase := Idle)
           else if Below(cfg.jobRetry, cfg.systemRetry, t.phase.counts.deep) then
             t.(log := t.log + [Deep], sent := t.sent + multiset{k}, submitted := true, phase := Idle,
                files := if cfg.jobShallow == Some(-1) then t.files else t.files - {aside} + {on})
           else t.(limitHit := true, phase := Idle)
  {
    u := Onward(cfg, s, a, n, t);
    if !u.phase.Idle? {
      u := Logged(cfg, s, a, n + 1, u);
    }
  }

  /** The part of a jobsubmit request after the scan, from the phase in which it creates its token
      or has found a temporary one. */
  lemma Tokened(cfg: Config, s: Job, a: Action, n: nat, t: Job) returns (u: Job)
    requires Leads(cfg, s, a, n, t)
    requires t.phase.CreateFirst? || (t.phase.Publish? && TokenFile(t.phase.n, true) in t.files)
    ensures EndsIn(cfg, s, a, u)
    ensures u == t.(files := t.files - {TokenFile(t.phase.n, true)} + {TokenFile(t.phase.n, false)},
                    sent := t.sent + multiset{t.phase.carried}, submitted := true, phase := Idle,
                    revived := if t.phase.CreateFirst? && t.phase.request then t.revived + 1 else t.revived)
  {
    if t.phase.CreateFirst? {
      u := Onward(cfg, s, a, n, t);
      u := Published(cfg, s, a, n + 1, u);
      var k := TokenFile(t.phase.n, true);
      assert t.files + {k} - {k} == t.files - {k};
    } else {
      u := Published(cfg, s, a, n, t);
    }
  }

  lemma Decision(cfg: Config, s: Job, a: Action, t: Job) returns (u: Job)
    requires Leads(cfg, s, a, 0, t) && t.phase.SubmitScanned?
    ensures Leads(cfg, s, a, 1, u)
    ensures
      var n, c, r := t.phase.n, t.phase.carried, t.phase.request;
      u == t.(phase := if 0 < c < n then Idle
                       else if 0 < c == n || cfg.jobShallow == Some(-1) then Deliver(c, r)
                       else if TokenFile(n, true) in t.files then Publish(n, c, r)
                       else CreateFirst(n, c, r))
  {
    u := Onward(cfg, s, a, 0, t);
  }

  lemma Delivers(cfg: Config, s: Job, a: Action, n: nat, t: Job) returns (u: Job)
    requires Leads(cfg, s, a, n, t) && t.phase.Deliver?
    ensures EndsIn(cfg, s, a, u)
    ensures u == t.(sent := t.sent + multiset{t.phase.carried}, submitted := true, phase := Idle)
  {
    u := Onward(cfg, s, a, n, t);
  }

  /** A first submission: the token is number 0, and one wrapper is sent with it; without shallow
      resubmissions there is a wrapper and no token. */
  lemma SubmissionOutcome(cfg: Config, acts: seq<Action>, s: Job, found: Option<TokenFile>) returns (t: Job)
    requires Reached(cfg, acts, s) && s.phase.Idle? && !s.submitted
    requires if found.Some? then found.value in s.files else s.files == {}
    ensures EndsIn(cfg, s, StartSubmit(found), t)
    ensures t == s.(files := if cfg.jobShallow == Some(-1) then s.files else {TokenFile(0, false)},
                    sent := multiset{0}, submitted := true)
  {
    BeforeSubmission(cfg, acts, s);
    var a := StartSubmit(found);
    t := Begin(cfg, s, a);
    t := FirstDelivery(cfg, s, a, t);
  }

  lemma BeforeSubmission(cfg: Config, acts: seq<Action>, s: Job)
    requires Reached(cfg, acts, s) && !s.submitted
    ensures s.files <= {TokenFile(0, false), TokenFile(0, true)} && s.sent == multiset{}
  {
    Invariant(cfg, acts, s);
  }

  lemma FirstDelivery(cfg: Config, s: Job, a: Action, t: Job) returns (u: Job)
    requires Leads(cfg, s, a, 0, t) && t.phase == SubmitScanned(0, 0, false)
    requires t.files <= {TokenFile(0, false), TokenFile(0, true)} && t.sent == multiset{}
    ensures EndsIn(cfg, s, a, u)
    ensures u == t.(files := if cfg.jobShallow == Some(-1) then t.files else {TokenFile(0, false)},
                    sent := multiset{0}, submitted := true, phase := Idle)
  {
    u := Decision(cfg, s, a, t);
    if cfg.jobShallow == Some(-1) {
      u := Delivers(cfg, s, a, 1, u);
    } else {
      u := Tokened(cfg, s, a, 1, u);
      assert t.files - {TokenFile(0, true)} + {TokenFile(0, false)} == {TokenFile(0, false)};
    }
  }

  /** A replanning: the token has the next number, and one shallow event and one request with
      that number are written. */
  lemma ReplanOutcome(cfg: Config, s: Job, f: TokenFile) returns (t: Job)
    requires s.phase.Idle? && s.submitted && !s.limitHit && cfg.jobShallow != Some(-1) && f in s.files
    ensures EndsIn(cfg, s, StartReplan(f), t)
    ensures t == s.(files := s.files - {f} + {TokenFile(f.n + 1, false)}, log := s.log + [Shallow(true)],
                    requests := s.requests + multiset{f.n + 1})
  {
    var a := StartReplan(f);
    t := Begin(cfg, s, a);
    t := Renumbered(cfg, s, a, t);
    t := Requested(cfg, s, a, 1, t);
  }

  lemma Renumbered(cfg: Config, s: Job, a: Action, t: Job) returns (u: Job)
    requires Leads(cfg, s, a, 0, t) && t.phase.ReplanScanned? && t.phase.found in t.files
    ensures Leads(cfg, s, a, 1, u)
    ensures
      var f := t.phase.found;
      u == t.(files := t.files - {f} + {TokenFile(f.n + 1, false)}, phase := ReplanLog(f.n + 1))
  {
    Renumber(cfg, t, false);
    u := Onward(cfg, s, a, 0, t);
  }

  lemma Requested(cfg: Config, s: Job, a: Action, n: nat, t: Job) returns (u: Job)
    requires Leads(cfg, s, a, n, t) && t.phase.ReplanLog?
    ensures EndsIn(cfg, s, a, u)
    ensures u == t.(log := t.log + [Shallow(true)], requests := t.requests + multiset{t.phase.n}, phase := Idle)
  {
    u := Onward(cfg, s, a, n, t);
    u := Onward(cfg, s, a, n + 1, u);
  }

  /** A replan request with the count `c`, after the scan: dropped if `c` is positive and below
      the number found; delivered with the token that is there if they are equal and positive, or
      without any if shallow resubmissions are disabled; otherwise with a token of the number
      found, which is new unless it was set aside. */
  lemma RequestOutcome(cfg: Config, s: Job, k: nat, found: Option<TokenFile>) returns (t: Job)
    requires s.phase.Idle? && s.submitted && k in s.requests
    requires if found.Some? then found.value in s.files else s.files == {}
    ensures EndsIn(cfg, s, StartReplanRequest(k, found), t)
    ensures
      var n := if found.Some? then found.value.n else 0;
      var c := if found.Some? && cfg.overwrites then found.value.n else k;
      var rest := s.(requests := s.requests - multiset{k});
      var on, aside := TokenFile(n, false), TokenFile(n, true);
      t == if 0 < c < n then rest
           else if 0 < c == n || cfg.jobShallow == Some(-1) then rest.(sent := s.sent + multiset{c})
           else rest.(files := s.files - {aside} + {on}, sent := s.sent + multiset{c},
                      revived := if aside in s.files then s.revived else s.revived + 1)
  {
    var a := StartReplanRequest(k, found);
    t := Begin(cfg, s, a);
    t := Decided(cfg, s, a, t);
  }

  lemma Decided(cfg: Config, s: Job, a: Action, t: Job) returns (u: Job)
    requires Leads(cfg, s, a, 0, t) && t.phase.SubmitScanned? && t.phase.request
    ensures EndsIn(cfg, s, a, u)
    ensures
      var n, c := t.phase.n, t.phase.carried;
      var on, aside := TokenFile(n, false), TokenFile(n, true);
      u == if 0 < c < n then t.(phase := Idle)
           else if 0 < c == n || cfg.jobShallow == Some(-1) then
             t.(sent := t.sent + multiset{c}, submitted := true, phase := Idle)
           else t.(files := t.files - {aside} + {on}, sent := t.sent + multiset{c}, submitted := true, phase := Idle,
                   revived := if aside in t.files then t.revived else t.revived + 1)
  {
    u := Decision(cfg, s, a, t);
    if u.phase.Deliver? {
      u := Delivers(cfg, s, a, 1, u);
    } else if !u.phase.Idle? {
      u := Tokened(cfg, s, a, 1, u);
    }
  }

  // ------------------------------------------------- what every step does to the wrappers

  /** Wrappers in the field and payloads started: every delivery makes them one more, a wrapper
      that starts leaves the field for the other side, one that ends leaves for good, and nothing
      else changes them. */
  lemma OneWrapperPerDelivery(cfg: Config, s: Job, a: Action)
    requires Step(cfg, s, a).Some?
    ensures
      var t := Step(cfg, s, a).value;
      && t.starts + |t.sent| == s.starts + |s.sent|
                                + (if s.phase.Deliver? && a == Advance(false) then 1 else 0)
                                - (if a.WrapperGone? then 1 else 0)
      && t.starts == s.starts + (if a.WrapperStarts? then 1 else 0)
  {
    if a.Advance? {
      WrappersAfterAdvance(cfg, s, a.fault);
    }
  }

  lemma WrappersAfterAdvance(cfg: Config, s: Job, fault: bool)
    requires Next(cfg, s, fault).Some?
    ensures
      var t := Next(cfg, s, fault).value;
      && t.starts == s.starts
      && t.sent == if s.phase.Deliver? && !fault then s.sent + multiset{s.phase.carried} else s.sent
  {
  }

  predicate WithoutToken(phase: Phase) {
    match phase
    case Idle => true
    case ResubmitScanned(_, _) => true
    case LogDeep(_, _) => true
    case SubmitScanned(_, _, r) => !r
    case Deliver(_, r) => !r
    case _ => false
  }

  /** A wrapper is still to be sent for an event that is logged, or for the first submission. */
  function Due(phase: Phase): nat {
    if phase.Deliver? || phase.SubmitScanned? then 1 else 0
  }

  /** Without shallow resubmissions nothing ties a wrapper to a token, and there is no request. */
  ghost predicate OnePerEvent(s: Job) {
    && s.requests == multiset{} && WithoutToken(s.phase)
    && s.starts + |s.sent| + Due(s.phase) <= 1 + Replay(s.log).deep
  }

  lemma StepKeepsOnePerEvent(cfg: Config, s: Job, a: Action)
    requires Inv(cfg, s) && OnePerEvent(s) && cfg.jobShallow == Some(-1) && Step(cfg, s, a).Some?
    ensures OnePerEvent(Step(cfg, s, a).value)
  {
    if a.Advance? {
      PhaseWithoutToken(cfg, s, a.fault);
      WrappersAfterAdvance(cfg, s, a.fault);
      TokenTheorems.LogAfter(cfg, s, a.fault);
      TokenTheorems.DeepAfter(s.log, s.phase);
    } else {
      OneWrapperPerDelivery(cfg, s, a);
    }
  }

  lemma PhaseWithoutToken(cfg: Config, s: Job, fault: bool)
    requires WithoutToken(s.phase) && cfg.jobShallow == Some(-1) && Next(cfg, s, fault).Some?
    ensures
      var t := Next(cfg, s, fault).value;
      && WithoutToken(t.phase) && t.requests == s.requests
      && Due(t.phase) <= if s.phase.LogDeep? then 1 else if s.phase.Deliver? then 0 else Due(s.phase)
  {
  }

  /** When they are disabled there is never more than one wrapper for the first submission and
      each deep resubmission logged: in the field, at work, or done. */
  lemma {:induction false} WrappersWithoutTokens(cfg: Config, acts: seq<Action>, s: Job)
    requires Reached(cfg, acts, s) && cfg.jobShallow == Some(-1)
    ensures OnePerEvent(s) && s.starts + |s.sent| <= 1 + multiset(s.log)[Deep]
  {
    if acts != [] {
      var before := acts[..|acts| - 1];
      var t := Run(cfg, InitialJob, before).value;
      WrappersWithoutTokens(cfg, before, t);
      Invariant(cfg, before, t);
      StepKeepsOnePerEvent(cfg, t, acts[|acts| - 1]);
    }
    DeepOccurrences(s.log);
  }

  /** A wrapper whose token is published, or that needs none, can start; starting takes the token. */
  lemma DeliveredCanStart(cfg: Config, s: Job, n: nat)
    requires n in s.sent
    ensures Step(cfg, s, WrapperStarts(n)).Some? <==> cfg.jobShallow == Some(-1) || TokenFile(n, false) in s.files
    ensures Step(cfg, s, WrapperStarts(n)).Some? ==>
              Step(cfg, s, WrapperStarts(n)).value ==
              s.(sent := s.sent - multiset{n}, starts := s.starts + 1,
                 files := if cfg.jobShallow == Some(-1) then s.files else s.files - {TokenFile(n, false)})
  {
  }

  // ------------------------------------------------- what every step does to the requests

  predicate InHand(phase: Phase) {
    match phase
    case SubmitScanned(_, _, r) => r
    case CreateFirst(_, _, r) => r
    case Publish(_, _, r) => r
    case Deliver(_, r) => r
    case _ => false
  }

  /** Replan requests waiting or being handled. */
  function Open(s: Job): nat {
    |s.requests| + if InHand(s.phase) then 1 else 0
  }

  /** No request is lost: only its delivery, or dropping it as stale, takes one away, whatever
      else fails, and only the replanner writes one. */
  lemma RequestsAccounted(cfg: Config, s: Job, a: Action)
    requires Step(cfg, s, a).Some?
    ensures Open(Step(cfg, s, a).value) == Open(s) + OpenBy(s.phase, a)
  {
    if a.Advance? {
      OpenAfterAdvance(cfg, s, a.fault);
    } else {
      OpenOtherwise(cfg, s, a);
    }
  }

  function OpenBy(phase: Phase, a: Action): int {
    match phase
    case ReplanRequest(_) => if a == Advance(false) then 1 else 0
    case Deliver(_, r) => if r && a == Advance(false) then -1 else 0
    case SubmitScanned(n, c, r) => if r && a.Advance? && 0 < c < n then -1 else 0
    case _ => 0
  }

  lemma OpenOtherwise(cfg: Config, s: Job, a: Action)
    requires !a.Advance? && Step(cfg, s, a).Some?
    ensures Open(Step(cfg, s, a).value) == Open(s) + OpenBy(s.phase, a)
  {
    if a.WrapperStarts? || a.WrapperGone? {
      OpenUnchanged(s, Step(cfg, s, a).value, a);
    }
  }

  lemma OpenUnchanged(s: Job, t: Job, a: Action)
    requires t.requests == s.requests && t.phase == s.phase && (a.WrapperStarts? || a.WrapperGone?)
    ensures Open(t) == Open(s) + OpenBy(s.phase, a)
  {
  }

  lemma OpenAfterAdvance(cfg: Config, s: Job, fault: bool)
    requires Next(cfg, s, fault).Some?
    ensures Open(Next(cfg, s, fault).value) == Open(s) + OpenBy(s.phase, Advance(fault))
  {
    if !InHand(s.phase) && !s.phase.ReplanRequest? {
      NothingInHand(cfg, s, fault);
    }
  }

  lemma NothingInHand(cfg: Config, s: Job, fault: bool)
    requires Next(cfg, s, fault).Some? && !InHand(s.phase) && !s.phase.ReplanRequest?
    ensures !InHand(Next(cfg, s, fault).value.phase) && Next(cfg, s, fault).value.requests == s.requests
  {
  }

  /** A fault ends a handling and changes nothing else, but that an unfinished request waits again,
      with the count it then has, and that a deep resubmission stays without its token. */
  lemma FaultEndsHandling(cfg: Config, s: Job)
    requires s.phase.CreateFirst? || s.phase.Publish? || s.phase.Deliver? || s.phase.CreateTmp?
             || s.phase.ReplanScanned? || s.phase.ReplanRequest?
             || (s.phase.ResubmitScanned? && cfg.jobShallow != Some(-1))
    ensures
      Step(cfg, s, Advance(true)) ==
      Some(s.(phase := Idle,
              requests := if InHand(s.phase) then s.requests + multiset{s.phase.carried} else s.requests,
              lost := if s.phase.CreateTmp? then s.lost + 1 else s.lost))
  {
  }
}
