/** What the token protocol guarantees on every run, and exactly where it stops doing so. */
module TokenTheorems {
  import opened Wrappers
  import opened RetryCounts
  import opened TokenProtocol

  // ------------------------------------------------------------------- token conservation

  lemma {:induction false} NumbersCard(files: set<TokenFile>)
    ensures |Numbers(files)| <= |files|
  {
    if files != {} {
      var f :| f in files;
      NumbersCard(files - {f});
      assert Numbers(files) == Numbers(files - {f}) + {f.n};
    }
  }

  // ------------------------------------------------------- tokens made for replan requests

  /** The guard under which the handling of the replan request `k` comes to create a token: the
      count in its description is not one the scanned number makes a replanning of, or drops, and
      no temporary token with that number is there. */
  predicate NeedsToken(cfg: Config, files: set<TokenFile>, k: nat, found: Option<TokenFile>) {
    var c, n := CarriedCount(cfg, k, found), ScannedNumber(found);
    !(c > 0 && n >= c) && TokenFile(n, true) !in files
  }

  /** How far the handling of a request that needs a token has come. */
  datatype Stage = NoToken | WillDecide | WillCreate

  /** One step more: only the beginning of a request and the handling's own steps matter. */
  function NextStage(cfg: Config, s: Job, a: Action, stage: Stage): Stage {
    match a
    case StartReplanRequest(k, found) => if NeedsToken(cfg, s.files, k, found) then WillDecide else NoToken
    case Advance(_) => if stage == WillDecide then WillCreate else NoToken
    case WrapperStarts(_) => stage
    case WrapperGone(_) => stage
    case _ => NoToken
  }

  /** A run's state, with the stage of the request being handled and the tokens made for replan
      requests so far: those of requests that found the guard true and whose token could be created. */
  datatype Tally = Tally(job: Job, stage: Stage, made: nat)

  predicate MakesToken(stage: Stage, a: Action) {
    stage == WillCreate && a == Advance(false)
  }

  function NextTally(cfg: Config, t: Tally, a: Action): Option<Tally> {
    var s := Step(cfg, t.job, a);
    if s.None? then None
    else Some(Tally(s.value, NextStage(cfg, t.job, a, t.stage), t.made + if MakesToken(t.stage, a) then 1 else 0))
  }

  function Tallied(cfg: Config, acts: seq<Action>): Option<Tally> {
    if acts == [] then Some(Tally(InitialJob, NoToken, 0))
    else
      var t := Tallied(cfg, acts[..|acts| - 1]);
      if t.None? then None else NextTally(cfg, t.value, acts[|acts| - 1])
  }

  lemma {:induction false} TalliedIsRun(cfg: Config, acts: seq<Action>)
    ensures Tallied(cfg, acts).Some? <==> Run(cfg, InitialJob, acts).Some?
    ensures Tallied(cfg, acts).Some? ==> Run(cfg, InitialJob, acts) == Some(Tallied(cfg, acts).value.job)
  {
    if acts != [] {
      TalliedIsRun(cfg, acts[..|acts| - 1]);
    }
  }

  function StageAfter(cfg: Config, acts: seq<Action>): Stage {
    match Tallied(cfg, acts)
    case Some(t) => t.stage
    case None => NoToken
  }

  function TokensMade(cfg: Config, acts: seq<Action>): nat {
    match Tallied(cfg, acts)
    case Some(t) => t.made
    case None => 0
  }

  /** One step more of a run. */
  lemma StageAppend(cfg: Config, acts: seq<Action>, s: Job, a: Action, t: Job)
    requires Reached(cfg, acts, s) && Step(cfg, s, a) == Some(t)
    ensures StageAfter(cfg, acts + [a]) == NextStage(cfg, s, a, StageAfter(cfg, acts))
    ensures TokensMade(cfg, acts + [a]) ==
            TokensMade(cfg, acts) + if MakesToken(StageAfter(cfg, acts), a) then 1 else 0
  {
    assert (acts + [a])[..|acts|] == acts;
    TalliedIsRun(cfg, acts);
  }

  /** A run that is not empty is a shorter one and its last step. */
  lemma LastStep(cfg: Config, acts: seq<Action>, s: Job) returns (before: seq<Action>, t: Job, a: Action)
    requires Reached(cfg, acts, s) && acts != []
    ensures before == acts[..|acts| - 1] && a == acts[|acts| - 1]
    ensures Reached(cfg, before, t) && Step(cfg, t, a) == Some(s)
    ensures StageAfter(cfg, acts) == NextStage(cfg, t, a, StageAfter(cfg, before))
    ensures TokensMade(cfg, acts) == TokensMade(cfg, before) + if MakesToken(StageAfter(cfg, before), a) then 1 else 0
  {
    before, a := acts[..|acts| - 1], acts[|acts| - 1];
    t := Run(cfg, InitialJob, before).value;
    assert acts == before + [a];
    StageAppend(cfg, before, t, a, s);
  }

  ghost predicate StageIs(s: Job, stage: Stage) {
    && (stage == WillDecide <==>
          && s.phase.SubmitScanned? && s.phase.request
          && !(s.phase.carried > 0 && s.phase.n >= s.phase.carried)
          && TokenFile(s.phase.n, true) !in s.files)
    && (stage == WillCreate <==> s.phase.CreateFirst? && s.phase.request)
  }

  /** The handling of a request comes to create a token if and only if the guard held when it
      began. */
  lemma {:induction false} CreatesExactly(cfg: Config, acts: seq<Action>, s: Job)
    requires Reached(cfg, acts, s) && cfg.ShallowEnabled()
    ensures StageIs(s, StageAfter(cfg, acts))
  {
    if acts != [] {
      var before, t, a := LastStep(cfg, acts, s);
      CreatesExactly(cfg, before, t);
      StageSteps(cfg, t, a, StageAfter(cfg, before));
    }
  }

  lemma StageSteps(cfg: Config, s: Job, a: Action, stage: Stage)
    requires StageIs(s, stage) && Step(cfg, s, a).Some? && cfg.ShallowEnabled()
    ensures StageIs(Step(cfg, s, a).value, NextStage(cfg, s, a, stage))
  {
    if a.Advance? {
      StageAdvances(cfg, s, a.fault, stage);
    }
  }

  lemma StageAdvances(cfg: Config, s: Job, fault: bool, stage: Stage)
    requires StageIs(s, stage) && Next(cfg, s, fault).Some? && cfg.ShallowEnabled()
    ensures StageIs(Next(cfg, s, fault).value, if stage == WillDecide then WillCreate else NoToken)
  {
    if !s.phase.SubmitScanned? && !s.phase.CreateFirst? {
      NeitherRevives(cfg, s, fault);
    }
  }

  lemma NeitherRevives(cfg: Config, s: Job, fault: bool)
    requires Next(cfg, s, fault).Some? && !s.phase.SubmitScanned? && !s.phase.CreateFirst?
    ensures Next(cfg, s, fault).value.revived == s.revived
    ensures !Next(cfg, s, fault).value.phase.SubmitScanned? && !Next(cfg, s, fault).value.phase.CreateFirst?
  {
  }

  lemma {:induction false} RevivedExactly(cfg: Config, acts: seq<Action>, s: Job)
    requires Reached(cfg, acts, s) && cfg.ShallowEnabled()
    ensures s.revived == TokensMade(cfg, acts)
  {
    if acts != [] {
      var before, t, a := LastStep(cfg, acts, s);
      RevivedExactly(cfg, before, t);
      CreatesExactly(cfg, before, t);
      RevivedInStep(cfg, t, a);
    }
  }

  lemma RevivedInStep(cfg: Config, s: Job, a: Action)
    requires Step(cfg, s, a).Some?
    ensures Step(cfg, s, a).value.revived ==
            s.revived + if s.phase.CreateFirst? && s.phase.request && a == Advance(false) then 1 else 0
  {
    if a.Advance? && !s.phase.SubmitScanned? && !s.phase.CreateFirst? {
      NeitherRevives(cfg, s, a.fault);
    }
  }

  /** Payload starts, tokens present and tokens lost are one plus the deep resubmissions logged. */
  ghost predicate Conserved(s: Job) {
    s.submitted ==> s.starts + |s.files| + s.lost + PendingCreate(s.phase) == 1 + Replay(s.log).deep
  }

  /** Over every interleaving, payload starts plus tokens present stay within one plus the deep
      resubmissions logged plus the tokens made for replan requests; while there are none of the
      latter, every token made is accounted for exactly. */
  lemma Conservation(cfg: Config, acts: seq<Action>, s: Job)
    requires Reached(cfg, acts, s) && cfg.ShallowEnabled()
    ensures s.starts + |Numbers(s.files)| <= 1 + Replay(s.log).deep + TokensMade(cfg, acts)
    ensures s.starts <= 1 + cfg.DeepLimit() + TokensMade(cfg, acts)
    ensures TokensMade(cfg, acts) == 0 ==> Conserved(s)
  {
    RevivedExactly(cfg, acts, s);
    Invariant(cfg, acts, s);
    NumbersCard(s.files);
    if !s.submitted {
      SubsetCard(Numbers(s.files), {0});
    }
  }

  ghost predicate ConservedAt(cfg: Config, acts: seq<Action>, k: nat)
    requires k <= |acts|
  {
    var t := Run(cfg, InitialJob, acts[..k]);
    t.Some? && Conserved(t.value)
  }

  /** At every moment of a run tokens are conserved if and only if it handles no replan request
      that needs a token and gets one. */
  lemma ConservedExactly(cfg: Config, acts: seq<Action>, s: Job)
    requires Reached(cfg, acts, s) && cfg.ShallowEnabled()
    ensures (forall k :: 0 <= k <= |acts| ==> ConservedAt(cfg, acts, k)) <==> TokensMade(cfg, acts) == 0
  {
    if TokensMade(cfg, acts) == 0 {
      forall k | 0 <= k <= |acts| ensures ConservedAt(cfg, acts, k) {
        PrefixMakesLess(cfg, acts, s, k);
        Conservation(cfg, acts[..k], Run(cfg, InitialJob, acts[..k]).value);
      }
    } else {
      var k := FirstTokenMade(cfg, acts, s);
      assert !ConservedAt(cfg, acts, k);
    }
  }

  lemma {:induction false} PrefixMakesLess(cfg: Config, acts: seq<Action>, s: Job, k: nat)
    requires Reached(cfg, acts, s) && k <= |acts|
    ensures Run(cfg, InitialJob, acts[..k]).Some?
    ensures TokensMade(cfg, acts[..k]) <= TokensMade(cfg, acts)
  {
    if k == |acts| {
      assert acts[..k] == acts;
    } else {
      var before, t, a := LastStep(cfg, acts, s);
      PrefixMakesLess(cfg, before, t, k);
      assert before[..k] == acts[..k];
    }
  }

  /** The first token made for a request breaks the account. */
  lemma {:induction false} FirstTokenMade(cfg: Config, acts: seq<Action>, s: Job) returns (k: nat)
    requires Reached(cfg, acts, s) && cfg.ShallowEnabled() && TokensMade(cfg, acts) > 0
    ensures k <= |acts| && !ConservedAt(cfg, acts, k)
  {
    assert acts != [];
    var before, t, a := LastStep(cfg, acts, s);
    if TokensMade(cfg, before) > 0 {
      k := FirstTokenMade(cfg, before, t);
      assert before[..k] == acts[..k];
    } else {
      k := |acts|;
      assert acts[..k] == acts;
      RequestBreaksAccount(cfg, before, t);
    }
  }

  /** Where the account was right, it is one too many after a token has been made for a request. */
  lemma RequestBreaksAccount(cfg: Config, acts: seq<Action>, s: Job)
    requires Reached(cfg, acts, s) && cfg.ShallowEnabled()
    requires TokensMade(cfg, acts) == 0 && StageAfter(cfg, acts) == WillCreate
    ensures Step(cfg, s, Advance(false)).Some?
    ensures
      var t := Step(cfg, s, Advance(false)).value;
      t.submitted && t.starts + |t.files| + t.lost + PendingCreate(t.phase) == 2 + Replay(t.log).deep
  {
    Invariant(cfg, acts, s);
    CreatesExactly(cfg, acts, s);
    Conservation(cfg, acts, s);
    AddCard(s.files, TokenFile(s.phase.n, true));
  }

  lemma Extend(cfg: Config, acts: seq<Action>, s: Job, a: Action) returns (acts': seq<Action>, t: Job)
    requires Reached(cfg, acts, s) && Step(cfg, s, a).Some?
    ensures acts' == acts + [a] && Step(cfg, s, a) == Some(t) && Reached(cfg, acts', t)
  {
    RunAppend(cfg, InitialJob, acts, a);
    acts', t := acts + [a], Step(cfg, s, a).value;
  }

  /** One request handled without faults, from a state in which the account is right: it comes to
      create a token if and only if the guard holds, and then the account is one too many. */
  lemma RequestMakesTokenExactly(cfg: Config, acts: seq<Action>, s: Job, k: nat, found: Option<TokenFile>)
      returns (t: Job)
    requires Reached(cfg, acts, s) && cfg.ShallowEnabled() && TokensMade(cfg, acts) == 0
    requires s.phase.Idle? && k in s.requests && ScanFinds(s.files, found)
    ensures Reached(cfg, acts + [StartReplanRequest(k, found)] + [Advance(false)], t)
    ensures t.phase.CreateFirst? <==> NeedsToken(cfg, s.files, k, found)
    ensures Conserved(t)
    ensures NeedsToken(cfg, s.files, k, found) ==>
              var u := Step(cfg, t, Advance(false));
              u.Some? && u.value.submitted
              && u.value.starts + |u.value.files| + u.value.lost + PendingCreate(u.value.phase)
                 == 2 + Replay(u.value.log).deep
  {
    var acts1, s1 := RequestBegins(cfg, acts, s, k, found);
    t := RequestDecides(cfg, acts1, s1);
    AccountAfterDecision(cfg, acts1 + [Advance(false)], t);
  }

  lemma RequestBegins(cfg: Config, acts: seq<Action>, s: Job, k: nat, found: Option<TokenFile>)
      returns (acts1: seq<Action>, t: Job)
    requires Reached(cfg, acts, s) && s.phase.Idle? && k in s.requests && ScanFinds(s.files, found)
    ensures acts1 == acts + [StartReplanRequest(k, found)] && Reached(cfg, acts1, t)
    ensures t.phase.SubmitScanned? && t.phase.request && TokensMade(cfg, acts1) == TokensMade(cfg, acts)
    ensures StageAfter(cfg, acts1) == if NeedsToken(cfg, s.files, k, found) then WillDecide else NoToken
  {
    acts1, t := Extend(cfg, acts, s, StartReplanRequest(k, found));
    StageAppend(cfg, acts, s, StartReplanRequest(k, found), t);
  }

  lemma RequestDecides(cfg: Config, acts: seq<Action>, s: Job) returns (t: Job)
    requires Reached(cfg, acts, s) && s.phase.SubmitScanned? && s.phase.request && StageAfter(cfg, acts) != WillCreate
    ensures Reached(cfg, acts + [Advance(false)], t) && (t.phase.CreateFirst? ==> t.phase.request)
    ensures TokensMade(cfg, acts + [Advance(false)]) == TokensMade(cfg, acts)
    ensures StageAfter(cfg, acts + [Advance(false)]) == WillCreate <==> StageAfter(cfg, acts) == WillDecide
  {
    t := Decision(cfg, s);
    ReachedStep(cfg, acts, s, Advance(false), t);
    StageAppend(cfg, acts, s, Advance(false), t);
  }

  lemma Decision(cfg: Config, s: Job) returns (t: Job)
    requires s.phase.SubmitScanned? && s.phase.request
    ensures Step(cfg, s, Advance(false)) == Some(t) && (t.phase.CreateFirst? ==> t.phase.request)
  {
    t := Next(cfg, s, false).value;
  }

  lemma AccountAfterDecision(cfg: Config, acts: seq<Action>, s: Job)
    requires Reached(cfg, acts, s) && cfg.ShallowEnabled() && TokensMade(cfg, acts) == 0
    requires s.phase.CreateFirst? ==> s.phase.request
    ensures s.phase.CreateFirst? <==> StageAfter(cfg, acts) == WillCreate
    ensures Conserved(s)
    ensures StageAfter(cfg, acts) == WillCreate ==>
              var t := Step(cfg, s, Advance(false));
              t.Some? && t.value.submitted
              && t.value.starts + |t.value.files| + t.value.lost + PendingCreate(t.value.phase)
                 == 2 + Replay(t.value.log).deep
  {
    CreatesExactly(cfg, acts, s);
    Conservation(cfg, acts, s);
    if StageAfter(cfg, acts) == WillCreate {
      RequestBreaksAccount(cfg, acts, s);
    }
  }

  function RequestsHandled(acts: seq<Action>): nat {
    if acts == [] then 0
    else RequestsHandled(acts[..|acts| - 1]) + if acts[|acts| - 1].StartReplanRequest? then 1 else 0
  }

  lemma {:induction false} MadeOnlyByRequests(cfg: Config, acts: seq<Action>, s: Job)
    requires Reached(cfg, acts, s)
    ensures TokensMade(cfg, acts) + (if StageAfter(cfg, acts) == NoToken then 0 else 1) <= RequestsHandled(acts)
  {
    if acts != [] {
      var before, t, a := LastStep(cfg, acts, s);
      MadeOnlyByRequests(cfg, before, t);
    }
  }

  /** Without replan requests the payload starts at most once, plus once for each deep
      resubmission, whatever the wrappers do. */
  lemma StartsWithoutReplans(cfg: Config, acts: seq<Action>, s: Job)
    requires Reached(cfg, acts, s) && cfg.ShallowEnabled()
    requires forall a <- acts :: !a.StartReplanRequest?
    ensures s.starts + |Numbers(s.files)| <= 1 + Replay(s.log).deep
    ensures s.starts <= 1 + Max(0, Min(cfg.jobRetry.GetOr(0), cfg.systemRetry))
  {
    NoRequests(acts);
    MadeOnlyByRequests(cfg, acts, s);
    Conservation(cfg, acts, s);
  }

  lemma {:induction false} NoRequests(acts: seq<Action>)
    requires forall a <- acts :: !a.StartReplanRequest?
    ensures RequestsHandled(acts) == 0
  {
    if acts != [] {
      NoRequests(acts[..|acts| - 1]);
    }
  }

  /** A deep resubmission is logged only when every token made so far was removed by a wrapper
      that started, a shallow one by the handler only while the one token left is set aside: as
      long as no request has made a token. */
  lemma LoggedByTokenState(cfg: Config, acts: seq<Action>, s: Job, fault: bool, t: Job)
    requires Reached(cfg, acts, s) && cfg.ShallowEnabled() && TokensMade(cfg, acts) == 0
    requires Step(cfg, s, Advance(fault)) == Some(t)
    ensures t.log == s.log + [Deep] ==>
              s.files == {} && s.starts + s.lost == 1 + Replay(s.log).deep
    ensures t.log == s.log + [Shallow(false)] ==>
              s.files == {TokenFile(s.phase.n, true)} && s.starts + s.lost == Replay(s.log).deep
  {
    RevivedExactly(cfg, acts, s);
    Invariant(cfg, acts, s);
    LogGrows(cfg, s, fault);
    if t.log == s.log + [Deep] {
      assert t.log[|s.log|] == Deep;
    }
    if t.log == s.log + [Shallow(false)] {
      assert t.log[|s.log|] == Shallow(false);
      AtMostOne(s.files, TokenFile(s.phase.n, true));
    }
  }

  // -------------------------------------------------------------------------- retry bound

  /** A step appends at most one event, and the counters never go down. */
  lemma StepGrows(cfg: Config, s: Job, a: Action)
    requires Step(cfg, s, a).Some?
    ensures
      var t := Step(cfg, s, a).value;
      && (t.log == s.log || (|t.log| == |s.log| + 1 && t.log[..|s.log|] == s.log))
      && t.revived >= s.revived && Replay(t.log).deep >= Replay(s.log).deep
  {
    RevivedInStep(cfg, s, a);
    if a.Advance? {
      LogGrows(cfg, s, a.fault);
    }
  }

  /** What the next step logs. */
  function LoggedBy(phase: Phase): seq<LbEvent> {
    match phase
    case LogShallow(_) => [Shallow(false)]
    case LogDeep(_, _) => [Deep]
    case ReplanLog(_) => [Shallow(true)]
    case _ => []
  }

  lemma LogAfter(cfg: Config, s: Job, fault: bool)
    requires Next(cfg, s, fault).Some?
    ensures Next(cfg, s, fault).value.log == s.log + LoggedBy(s.phase)
  {
  }

  lemma DeepAfter(log: seq<LbEvent>, phase: Phase)
    ensures Replay(log + LoggedBy(phase)).deep == Replay(log).deep + if phase.LogDeep? then 1 else 0
  {
    if LoggedBy(phase) == [] {
      assert log + [] == log;
    } else {
      AppendToLog(log, LoggedBy(phase)[0]);
    }
  }

  lemma LogGrows(cfg: Config, s: Job, fault: bool)
    requires Next(cfg, s, fault).Some?
    ensures
      var t := Next(cfg, s, fault).value;
      if s.phase.LogShallow? then t.log == s.log + [Shallow(false)] && Replay(t.log).deep == Replay(s.log).deep
      else if s.phase.LogDeep? then t.log == s.log + [Deep] && Replay(t.log).deep == Replay(s.log).deep + 1
      else if s.phase.ReplanLog? then t.log == s.log + [Shallow(true)] && Replay(t.log).deep == Replay(s.log).deep
      else t.log == s.log
  {
    LogAfter(cfg, s, fault);
    DeepAfter(s.log, s.phase);
  }

  lemma {:induction false} EveryPrefixBounded(cfg: Config, acts: seq<Action>, s: Job, k: nat)
    requires Reached(cfg, acts, s) && k <= |s.log|
    ensures Bounded(cfg, s.log[..k])
  {
    if k == |s.log| {
      Invariant(cfg, acts, s);
      assert s.log[..k] == s.log;
    } else {
      var before := acts[..|acts| - 1];
      var t := Run(cfg, InitialJob, before).value;
      StepGrows(cfg, t, acts[|acts| - 1]);
      assert s.log[..k] == t.log[..k];
      EveryPrefixBounded(cfg, before, t, k);
    }
  }

  /** The handler's shallow resubmissions as numbers of occurrences. */
  lemma {:induction false} HandlerCounts(log: seq<LbEvent>, j: nat)
    requires j <= |log| && Deep !in log[j..]
    ensures multiset(log)[Shallow(false)] == ShallowByHandler(log)
    ensures multiset(log[j..])[Shallow(false)] <= EpochShallow(log)
  {
    if log != [] {
      var front, last := log[..|log| - 1], log[|log| - 1];
      assert log == front + [last];
      if j < |log| {
        assert log[j..] == front[j..] + [last];
        HandlerCounts(front, j);
      } else {
        HandlerCounts(front, |front|);
      }
    }
  }

  /** Every run logs at most D deep resubmissions, its handler at most S shallow ones in any stretch
      without a deep one, and at most D + (D + 1) * S in all: at every moment of the log's history. */
  lemma RetryBound(cfg: Config, acts: seq<Action>, s: Job, j: nat, k: nat)
    requires Reached(cfg, acts, s) && j <= k <= |s.log|
    ensures
      var deepLimit, shallowLimit := cfg.DeepLimit(), cfg.ShallowLimit();
      && multiset(s.log[..k])[Deep] <= deepLimit
      && (Deep !in s.log[j..k] ==> multiset(s.log[j..k])[Shallow(false)] <= shallowLimit)
      && multiset(s.log[..k])[Deep] + multiset(s.log[..k])[Shallow(false)]
         <= deepLimit + (deepLimit + 1) * shallowLimit
  {
    EveryPrefixBounded(cfg, acts, s, k);
    DeepOccurrences(s.log[..k]);
    HandlerCounts(s.log[..k], k);
    if Deep !in s.log[j..k] {
      assert s.log[..k][j..] == s.log[j..k];
      HandlerCounts(s.log[..k], j);
    }
    TotalBound(Replay(s.log[..k]).deep, ShallowByHandler(s.log[..k]), EpochShallow(s.log[..k]),
               cfg.DeepLimit(), cfg.ShallowLimit());
  }

  lemma TotalBound(deep: nat, shallow: nat, epoch: nat, deepLimit: nat, shallowLimit: nat)
    requires deep <= deepLimit && epoch <= shallowLimit && shallow <= deep * shallowLimit + epoch
    ensures deep + shallow <= deepLimit + (deepLimit + 1) * shallowLimit
  {
    OneMore(deep, shallowLimit, epoch);
    MulMonotone(deep + 1, deepLimit + 1, shallowLimit);
  }

  lemma MulMonotone(a: nat, b: nat, c: nat)
    requires a <= b
    ensures a * c <= b * c
  {
  }

  // ------------------------------------------------------------------- after a limit is hit

  ghost predicate Published(s: Job) {
    exists f <- s.files :: !f.tmp
  }

  /** A job that was aborted for a retry limit and is not being handled. */
  ghost predicate AbortedByLimit(cfg: Config, s: Job) {
    && cfg.ShallowEnabled() && s.submitted && s.limitHit && s.phase.Idle?
    && |s.files| <= 1 && (forall f <- s.files :: f.tmp)
    && (s.files == {} ==> Replay(s.log).deep >= cfg.DeepLimit())
    && (s.files != {} ==> Replay(s.log).shallow >= cfg.ShallowLimit())
  }

  /** A handling that hits a limit changes no file; its kind's count has reached the limit, and the
      job is aborted for good unless some other token file is there, which takes a request that
      made one. */
  lemma LimitAborts(cfg: Config, acts: seq<Action>, s: Job, fault: bool, t: Job)
    requires Reached(cfg, acts, s) && cfg.ShallowEnabled() && s.phase.ResubmitMoved?
    requires Step(cfg, s, Advance(fault)) == Some(t) && t.phase.Idle?
    ensures t == s.(phase := Idle, limitHit := true)
    ensures if TokenFile(s.phase.n, true) in t.files then Replay(t.log).shallow >= cfg.ShallowLimit()
            else Replay(t.log).deep >= cfg.DeepLimit()
    ensures t.files <= {TokenFile(s.phase.n, true)} ==> AbortedByLimit(cfg, t)
    ensures TokensMade(cfg, acts) == 0 ==> t.files <= {TokenFile(s.phase.n, true)}
  {
    RevivedExactly(cfg, acts, s);
    Invariant(cfg, acts, s);
    if t.files <= {TokenFile(s.phase.n, true)} {
      SubsetCard(t.files, {TokenFile(s.phase.n, true)});
    }
  }

  /** Handling the request `k` in this state would publish a token: the count its description
      has after the scan is not one the scanned number makes a replan of, or drops. */
  ghost predicate Reopens(cfg: Config, files: set<TokenFile>, k: nat) {
    forall found {:trigger ScanFinds(files, found)} :: ScanFinds(files, found) ==>
      var c := CarriedCount(cfg, k, found);
      !(c > 0 && ScannedNumber(found) >= c)
  }

  ghost predicate Frozen(cfg: Config, s0: Job, s: Job) {
    && s.files == s0.files && s.starts == s0.starts && s.log == s0.log
    && s.limitHit && s.submitted
    && (forall k :: k in s.requests ==> !Reopens(cfg, s.files, k))
    && (match s.phase
        case Idle => true
        case ResubmitScanned(n, counts) =>
          counts == Replay(s.log) && s.files <= {TokenFile(n, true)}
        case ResubmitMoved(n, counts) =>
          counts == Replay(s.log) && s.files <= {TokenFile(n, true)}
        case SubmitScanned(n, carried, request) =>
          request && s.files == {TokenFile(n, true)} && carried > 0 && n >= carried
        case Deliver(carried, request) =>
          request && s.files == {TokenFile(carried, true)} && carried > 0
        case _ => false)
  }

  /** With at most one file a scan can find only one thing. */
  lemma OneScan(files: set<TokenFile>, found: Option<TokenFile>)
    requires |files| <= 1 && ScanFinds(files, found)
    ensures files == match found case None => {} case Some(f) => {f}
  {
    if found.Some? {
      AtMostOne(files, found.value);
    }
  }

  lemma ReopensOneScan(cfg: Config, files: set<TokenFile>, k: nat, found: Option<TokenFile>)
    requires |files| <= 1 && ScanFinds(files, found)
    ensures Reopens(cfg, files, k) <==>
            !(CarriedCount(cfg, k, found) > 0 && ScannedNumber(found) >= CarriedCount(cfg, k, found))
  {
    OneScan(files, found);
    forall other | ScanFinds(files, other) ensures other == found {
      OneScan(files, other);
    }
  }

  lemma ScanKeepsFrozen(cfg: Config, s0: Job, s: Job, a: Action)
    requires AbortedByLimit(cfg, s0) && Frozen(cfg, s0, s) && Step(cfg, s, a).Some?
    requires a.StartResubmit? || a.StartReplanRequest?
    ensures Frozen(cfg, s0, Step(cfg, s, a).value)
  {
    var t := Step(cfg, s, a).value;
    OneScan(s.files, a.found);
    if a.StartReplanRequest? {
      ReopensOneScan(cfg, s.files, a.replans, a.found);
      assert t.requests <= s.requests;
    }
  }

  lemma AdvanceKeepsFrozen(cfg: Config, s0: Job, s: Job, fault: bool)
    requires AbortedByLimit(cfg, s0) && Frozen(cfg, s0, s) && Next(cfg, s, fault).Some?
    ensures Frozen(cfg, s0, Next(cfg, s, fault).value)
  {
    var t := Next(cfg, s, fault).value;
    match s.phase
    case ResubmitScanned(n, _) =>
    case ResubmitMoved(n, _) =>
      if TokenFile(n, true) !in s.files {
        assert s.files == {};
      }
    case SubmitScanned(n, carried, _) =>
    case Deliver(carried, _) =>
      ReopensOneScan(cfg, s.files, carried, Some(TokenFile(carried, true)));
      assert forall k :: k in t.requests ==> k in s.requests || k == carried;
    case _ =>
  }

  lemma StepKeepsFrozen(cfg: Config, s0: Job, s: Job, a: Action)
    requires AbortedByLimit(cfg, s0) && Frozen(cfg, s0, s) && Step(cfg, s, a).Some?
    ensures Frozen(cfg, s0, Step(cfg, s, a).value)
  {
    match a
    case StartResubmit(_) => ScanKeepsFrozen(cfg, s0, s, a);
    case StartReplanRequest(_, _) => ScanKeepsFrozen(cfg, s0, s, a);
    case Advance(fault) => AdvanceKeepsFrozen(cfg, s0, s, fault);
    case _ =>
  }

  lemma {:induction false} FrozenForever(cfg: Config, s0: Job, acts: seq<Action>, t: Job)
    requires AbortedByLimit(cfg, s0) && Run(cfg, s0, acts) == Some(t)
    requires forall k :: k in s0.requests ==> !Reopens(cfg, s0.files, k)
    ensures Frozen(cfg, s0, t)
  {
    if acts != [] {
      var before := acts[..|acts| - 1];
      var s := Run(cfg, s0, before).value;
      FrozenForever(cfg, s0, before, s);
      StepKeepsFrozen(cfg, s0, s, acts[|acts| - 1]);
    }
  }

  lemma Run1(cfg: Config, s: Job, a: Action)
    ensures Run(cfg, s, [a]) == Step(cfg, s, a)
  {
    assert [a][..0] == [];
    assert Run(cfg, s, []) == Some(s);
  }

  lemma Thaws(cfg: Config, s: Job, k: nat) returns (acts: seq<Action>)
    requires AbortedByLimit(cfg, s) && k in s.requests && Reopens(cfg, s.files, k)
    ensures Run(cfg, s, acts).Some? && Published(Run(cfg, s, acts).value)
  {
    var found := None;
    if s.files != {} {
      var f :| f in s.files;
      found := Some(f);
    }
    OneScan(s.files, found);
    ReopensOneScan(cfg, s.files, k, found);
    var a1 := StartReplanRequest(k, found);
    var s1 := Step(cfg, s, a1).value;
    Run1(cfg, s, a1);
    RunAppend(cfg, s, [a1], Advance(false));
    var s2 := Next(cfg, s1, false).value;
    acts := [a1] + [Advance(false)];
    if s.files == {} {
      RunAppend(cfg, s, acts, Advance(false));
      s2 := Next(cfg, s2, false).value;
      acts := acts + [Advance(false)];
    }
    ThawsByPublishing(cfg, s, acts, s2);
    acts := acts + [Advance(false)];
  }

  lemma ThawsByPublishing(cfg: Config, s: Job, acts: seq<Action>, t: Job)
    requires Run(cfg, s, acts) == Some(t) && t.phase.Publish? && TokenFile(t.phase.n, true) in t.files
    ensures Run(cfg, s, acts + [Advance(false)]).Some? && Published(Run(cfg, s, acts + [Advance(false)]).value)
  {
    RunAppend(cfg, s, acts, Advance(false));
    assert TokenFile(t.phase.n, false) in Next(cfg, t, false).value.files;
  }

  /** After an abort for a retry limit, a token a wrapper could take ever appears again if and
      only if one of the replan requests waiting at that moment reopens the job. */
  lemma FrozenUnlessReopened(cfg: Config, s: Job)
    requires AbortedByLimit(cfg, s)
    ensures (exists acts :: Run(cfg, s, acts).Some? && Published(Run(cfg, s, acts).value))
            <==> exists k :: k in s.requests && Reopens(cfg, s.files, k)
  {
    if k :| k in s.requests && Reopens(cfg, s.files, k) {
      var acts := Thaws(cfg, s, k);
    } else {
      forall acts | Run(cfg, s, acts).Some? ensures !Published(Run(cfg, s, acts).value) {
        FrozenForever(cfg, s, acts, Run(cfg, s, acts).value);
      }
    }
  }

  /** And where none does, no payload ever starts again, nothing more is logged, and every
      later resubmission hits a limit again. */
  lemma AbortIsFinal(cfg: Config, s: Job, acts: seq<Action>, t: Job)
    requires AbortedByLimit(cfg, s) && Run(cfg, s, acts) == Some(t)
    requires forall k :: k in s.requests ==> !Reopens(cfg, s.files, k)
    ensures t.starts == s.starts && t.log == s.log && !Published(t)
    ensures forall n :: Step(cfg, t, WrapperStarts(n)).None?
    ensures forall fault :: t.phase.ResubmitMoved? ==>
              Step(cfg, t, Advance(fault)) == Some(t.(phase := Idle, limitHit := true))
  {
    FrozenForever(cfg, s, acts, t);
    if t.phase.ResubmitMoved? && TokenFile(t.phase.n, true) !in t.files {
      assert t.files == {};
    }
  }

  // ------------------------------------------------------------------------- replan safety

  ghost predicate AtLeast(files: set<TokenFile>, n: nat) {
    forall f <- files :: f.n >= n
  }

  lemma StepKeepsAtLeast(cfg: Config, s: Job, a: Action, n: nat)
    requires s.submitted && AtLeast(s.files, n) && !s.phase.CreateTmp? && Inv(cfg, s)
    requires Step(cfg, s, a).Some?
    ensures
      var t := Step(cfg, s, a).value;
      t.revived == s.revived && Replay(t.log).deep == Replay(s.log).deep ==>
        AtLeast(t.files, n) && !t.phase.CreateTmp?
  {
    if a.Advance? && s.phase.LogDeep? {
      AppendToLog(s.log, Deep);
    }
  }

  lemma StaysSubmitted(cfg: Config, s: Job, a: Action)
    requires s.submitted && Step(cfg, s, a).Some?
    ensures Step(cfg, s, a).value.submitted
  {
  }

  lemma {:induction false} CountsGrow(cfg: Config, s: Job, acts: seq<Action>, t: Job)
    requires s.submitted && Inv(cfg, s) && Run(cfg, s, acts) == Some(t)
    ensures t.submitted && Inv(cfg, t)
    ensures t.revived >= s.revived && Replay(t.log).deep >= Replay(s.log).deep
  {
    if acts != [] {
      var before, a := acts[..|acts| - 1], acts[|acts| - 1];
      var u := Run(cfg, s, before).value;
      CountsGrow(cfg, s, before, u);
      StepKeepsInv(cfg, u, a);
      StepGrows(cfg, u, a);
      StaysSubmitted(cfg, u, a);
    }
  }

  lemma {:induction false} NumberKept(cfg: Config, s: Job, acts: seq<Action>, t: Job, n: nat)
    requires s.submitted && Inv(cfg, s) && AtLeast(s.files, n) && !s.phase.CreateTmp?
    requires Run(cfg, s, acts) == Some(t)
    requires Replay(t.log).deep == Replay(s.log).deep && t.revived == s.revived
    ensures AtLeast(t.files, n) && !t.phase.CreateTmp?
  {
    if acts != [] {
      var before, a := acts[..|acts| - 1], acts[|acts| - 1];
      var u := Run(cfg, s, before).value;
      CountsGrow(cfg, s, before, u);
      Run1(cfg, u, a);
      CountsGrow(cfg, u, [a], t);
      NumberKept(cfg, s, before, u, n);
      StepKeepsAtLeast(cfg, u, a, n);
    }
  }

  lemma {:induction false} RunConcat(cfg: Config, acts: seq<Action>, s: Job, more: seq<Action>)
    requires Reached(cfg, acts, s)
    ensures Run(cfg, InitialJob, acts + more) == Run(cfg, s, more)
  {
    if more == [] {
      assert acts + more == acts;
    } else {
      var init := more[..|more| - 1];
      RunConcat(cfg, acts, s, init);
      assert (acts + more)[..|acts + more| - 1] == acts + init;
    }
  }

  /** Between two deep resubmissions, as long as no request makes a token, the token number never
      decreases: any token present later has at least the number of any present now. */
  lemma NumberNeverDecreases(cfg: Config, acts: seq<Action>, s: Job, more: seq<Action>, t: Job, n: nat)
    requires Reached(cfg, acts, s) && cfg.ShallowEnabled() && Run(cfg, s, more) == Some(t)
    requires s.submitted && AtLeast(s.files, n) && !s.phase.CreateTmp?
    requires Replay(t.log).deep == Replay(s.log).deep
    requires TokensMade(cfg, acts + more) == TokensMade(cfg, acts)
    ensures AtLeast(t.files, n)
  {
    Invariant(cfg, acts, s);
    RunConcat(cfg, acts, s, more);
    RevivedExactly(cfg, acts, s);
    RevivedExactly(cfg, acts + more, t);
    NumberKept(cfg, s, more, t, n);
  }

  /** As long as no request has made a token, only a wrapper that carries the number of the token
      there is can start, and starting leaves no token for any other wrapper. */
  lemma OnlyTheCurrentNumberStarts(cfg: Config, acts: seq<Action>, s: Job, n: nat, m: nat)
    requires Reached(cfg, acts, s) && cfg.ShallowEnabled() && TokensMade(cfg, acts) == 0
    requires Step(cfg, s, WrapperStarts(n)).Some?
    ensures s.files == {TokenFile(n, false)}
    ensures Step(cfg, Step(cfg, s, WrapperStarts(n)).value, WrapperStarts(m)).None?
  {
    RevivedExactly(cfg, acts, s);
    Invariant(cfg, acts, s);
    AtMostOne(s.files, TokenFile(n, false));
  }

  /** A replan request leaves no trace but its own removal exactly when a token with a larger
      number is found and the description keeps the count it came with. */
  lemma StaleRequestDropped(cfg: Config, s: Job, k: nat, found: Option<TokenFile>)
    requires s.phase.Idle? && k in s.requests && ScanFinds(s.files, found)
    ensures Run(cfg, s, [StartReplanRequest(k, found), Advance(false)]) ==
              Some(s.(requests := s.requests - multiset{k}))
            <==> found.Some? && !cfg.overwrites && 0 < k < found.value.n
  {
    var a := StartReplanRequest(k, found);
    Run1(cfg, s, a);
    RunAppend(cfg, s, [a], Advance(false));
    assert [a] + [Advance(false)] == [a, Advance(false)];
  }

  /** Past the limit of replans the renamed token stays and the request is still written: the
      name that is unlinked no longer exists. */
  lemma ReplanLimitDoesNotStop(cfg: Config, s: Job)
    requires s.phase.ReplanScanned? && s.phase.found in s.files
    ensures Next(cfg, s, false).Some?
    ensures Next(cfg, s, false) == Next(cfg.(maxReplans := s.phase.found.n + 1), s, false)
    ensures TokenFile(s.phase.found.n + 1, false) in Next(cfg, s, false).value.files
  {
    var f := s.phase.found;
    assert s.files - {f} + {TokenFile(f.n + 1, false)} - {f} == s.files - {f} + {TokenFile(f.n + 1, false)};
  }

  // ------------------------------------------------------------------------ orderly replans

  /** No resubmission and no further replanning begins while a replan request waits, and the
      replanner moves to a number that no wrapper in the field carries. */
  ghost predicate Tame(s: Job, a: Action) {
    && (a.StartResubmit? || a.StartReplan? ==> s.requests == multiset{})
    && (a.Advance? && s.phase.ReplanScanned? ==> s.phase.found.n + 1 !in s.sent)
  }

  ghost predicate Orderly(cfg: Config, acts: seq<Action>)
    requires Run(cfg, InitialJob, acts).Some?
  {
    acts == [] ||
    (Orderly(cfg, acts[..|acts| - 1])
     && Tame(Run(cfg, InitialJob, acts[..|acts| - 1]).value, acts[|acts| - 1]))
  }

  ghost predicate Reserved(s: Job, m: nat) {
    m > 0 && TokenFile(m, false) in s.files && m !in s.sent
  }

  ghost predicate OrderlyInv(s: Job) {
    && s.revived == 0
    && (match s.phase
        case Idle => s.requests == multiset{} || exists m :: s.requests == multiset{m} && Reserved(s, m)
        case SubmitScanned(n, c, r) => s.requests == multiset{} && (r ==> n == c && Reserved(s, c))
        case CreateFirst(_, _, r) => s.requests == multiset{} && !r
        case Publish(_, _, r) => s.requests == multiset{} && !r
        case Deliver(c, r) => s.requests == multiset{} && (r ==> Reserved(s, c))
        case ReplanLog(m) => s.requests == multiset{} && Reserved(s, m)
        case ReplanRequest(m) => s.requests == multiset{} && Reserved(s, m)
        case _ => s.requests == multiset{})
  }

  lemma RequestKeepsOrderly(cfg: Config, s: Job, k: nat, found: Option<TokenFile>)
    requires Inv(cfg, s) && OrderlyInv(s) && cfg.ShallowEnabled()
    requires Step(cfg, s, StartReplanRequest(k, found)).Some?
    ensures OrderlyInv(Step(cfg, s, StartReplanRequest(k, found)).value)
  {
    var m :| s.requests == multiset{m} && Reserved(s, m);
    assert k == m;
    assert s.submitted;
    AtMostOne(s.files, TokenFile(m, false));
    assert found == Some(TokenFile(m, false));
    assert s.requests - multiset{k} == multiset{};
  }

  lemma AdvanceKeepsOrderly(cfg: Config, s: Job, fault: bool)
    requires Inv(cfg, s) && OrderlyInv(s) && Tame(s, Advance(fault)) && Next(cfg, s, fault).Some?
    requires cfg.ShallowEnabled()
    ensures OrderlyInv(Next(cfg, s, fault).value)
  {
    if s.phase.ReplanRequest? || s.phase.Deliver? {
      SendingKeepsOrderly(cfg, s, fault);
    } else if s.phase.ReplanScanned? {
      Renumber(cfg, s, fault);
    } else if s.phase.SubmitScanned? || s.phase.CreateFirst? || s.phase.Publish? {
      SubmittingKeepsOrderly(cfg, s, fault);
    } else {
      OthersKeepOrderly(cfg, s, fault);
    }
  }

  lemma SendingKeepsOrderly(cfg: Config, s: Job, fault: bool)
    requires OrderlyInv(s) && (s.phase.ReplanRequest? || s.phase.Deliver?)
    ensures OrderlyInv(Next(cfg, s, fault).value)
  {
    var t := Next(cfg, s, fault).value;
    if s.phase.ReplanRequest? && !fault {
      assert t.requests == multiset{s.phase.n} && Reserved(t, s.phase.n);
    } else if s.phase.Deliver? && s.phase.request && fault {
      assert t.requests == multiset{s.phase.carried} && Reserved(t, s.phase.carried);
    }
  }

  lemma SubmittingKeepsOrderly(cfg: Config, s: Job, fault: bool)
    requires OrderlyInv(s) && (s.phase.SubmitScanned? || s.phase.CreateFirst? || s.phase.Publish?)
    requires Inv(cfg, s) && cfg.ShallowEnabled()
    ensures OrderlyInv(Next(cfg, s, fault).value)
  {
  }

  lemma OthersKeepOrderly(cfg: Config, s: Job, fault: bool)
    requires OrderlyInv(s) && Next(cfg, s, fault).Some? && Inv(cfg, s) && cfg.ShallowEnabled()
    requires s.phase.ResubmitScanned? || s.phase.ResubmitMoved? || s.phase.LogShallow? || s.phase.LogDeep?
             || s.phase.CreateTmp? || s.phase.ReplanLog?
    ensures OrderlyInv(Next(cfg, s, fault).value)
  {
  }

  lemma StepKeepsOrderly(cfg: Config, s: Job, a: Action)
    requires Inv(cfg, s) && OrderlyInv(s) && Tame(s, a) && Step(cfg, s, a).Some?
    requires cfg.ShallowEnabled()
    ensures OrderlyInv(Step(cfg, s, a).value)
  {
    match a
    case StartReplanRequest(k, found) => RequestKeepsOrderly(cfg, s, k, found);
    case Advance(fault) => AdvanceKeepsOrderly(cfg, s, fault);
    case WrapperStarts(_) => WrapperKeepsOrderly(cfg, s, a);
    case WrapperGone(_) => WrapperKeepsOrderly(cfg, s, a);
    case _ => StartKeepsOrderly(cfg, s, a);
  }

  lemma WrapperKeepsOrderly(cfg: Config, s: Job, a: Action)
    requires OrderlyInv(s) && Step(cfg, s, a).Some? && (a.WrapperStarts? || a.WrapperGone?)
    ensures OrderlyInv(Step(cfg, s, a).value)
  {
    if a.WrapperGone? {
      KeepsReserved(s, s.sent - multiset{a.n}, s.starts, s.files);
    } else if cfg.ShallowEnabled() {
      KeepsReserved(s, s.sent - multiset{a.n}, s.starts + 1, s.files - {TokenFile(a.n, false)});
    } else {
      KeepsReserved(s, s.sent - multiset{a.n}, s.starts + 1, s.files);
    }
  }

  lemma StartKeepsOrderly(cfg: Config, s: Job, a: Action)
    requires Inv(cfg, s) && OrderlyInv(s) && Tame(s, a) && Step(cfg, s, a).Some?
    requires a.StartSubmit? || a.StartResubmit? || a.StartReplan?
    ensures OrderlyInv(Step(cfg, s, a).value)
  {
  }

  lemma KeepsReserved(s: Job, sent: multiset<nat>, starts: nat, files: set<TokenFile>)
    requires OrderlyInv(s) && sent <= s.sent && forall f <- s.files :: f in files || f.n in s.sent
    ensures OrderlyInv(s.(sent := sent, starts := starts, files := files))
  {
    var t := s.(sent := sent, starts := starts, files := files);
    if s.phase.Idle? && s.requests != multiset{} {
      var m :| s.requests == multiset{m} && Reserved(s, m);
      assert Reserved(t, m);
    }
  }

  lemma {:induction false} OrderlyHolds(cfg: Config, acts: seq<Action>, s: Job)
    requires Reached(cfg, acts, s) && Orderly(cfg, acts) && cfg.ShallowEnabled()
    ensures OrderlyInv(s)
  {
    if acts != [] {
      var before := acts[..|acts| - 1];
      var t := Run(cfg, InitialJob, before).value;
      OrderlyHolds(cfg, before, t);
      Invariant(cfg, before, t);
      StepKeepsOrderly(cfg, t, acts[|acts| - 1]);
    }
  }

  /** In orderly runs replanning never makes a token, so conservation needs no exception. */
  lemma OrderlyReplansConserve(cfg: Config, acts: seq<Action>, s: Job)
    requires Reached(cfg, acts, s) && Orderly(cfg, acts) && cfg.ShallowEnabled()
    ensures TokensMade(cfg, acts) == 0
    ensures s.starts + |Numbers(s.files)| <= 1 + Replay(s.log).deep <= 1 + cfg.DeepLimit()
  {
    OrderlyHolds(cfg, acts, s);
    RevivedExactly(cfg, acts, s);
    Conservation(cfg, acts, s);
    EveryPrefixBounded(cfg, acts, s, |s.log|);
    assert s.log[..|s.log|] == s.log;
  }

  // ------------------------------------------------- a run that is not orderly starts twice

  const Sample := Config(Some(3), 10, Some(3), 10, 5, false)

  lemma SubmittedAndReplanned() returns (acts: seq<Action>, s: Job)
    ensures Reached(Sample, acts, s)
    ensures s == Job({TokenFile(1, false)}, [Shallow(true)], multiset{0}, multiset{1}, 0, true, false, Idle, 0, 0)
  {
    var go := Advance(false);
    acts, s := [], InitialJob;
    acts, s := Extend(Sample, acts, s, StartSubmit(None));
    acts, s := Extend(Sample, acts, s, go);
    acts, s := Extend(Sample, acts, s, go);
    acts, s := Extend(Sample, acts, s, go);
    acts, s := Extend(Sample, acts, s, go);
    assert s.files == {TokenFile(0, false)};
    acts, s := Extend(Sample, acts, s, StartReplan(TokenFile(0, false)));
    acts, s := Extend(Sample, acts, s, go);
    assert s.files == {TokenFile(1, false)};
    acts, s := Extend(Sample, acts, s, go);
    acts, s := Extend(Sample, acts, s, go);
  }

  lemma ThenResubmittedAndStarted() returns (acts: seq<Action>, s: Job)
    ensures Reached(Sample, acts, s)
    ensures s == Job({}, [Shallow(true), Shallow(false)], multiset{0}, multiset{1}, 1, true, false, Idle, 0, 0)
  {
    var go := Advance(false);
    acts, s := SubmittedAndReplanned();
    acts, s := Extend(Sample, acts, s, StartResubmit(Some(TokenFile(1, false))));
    AppendToLog([], Shallow(true));
    assert [Shallow(true)] == [] + [Shallow(true)];
    acts, s := Extend(Sample, acts, s, go);
    acts, s := Extend(Sample, acts, s, go);
    acts, s := Extend(Sample, acts, s, go);
    acts, s := Extend(Sample, acts, s, go);
    acts, s := Extend(Sample, acts, s, go);
    acts, s := Extend(Sample, acts, s, WrapperStarts(1));
    assert s.files == {};
    assert s.sent == multiset{0};
  }

  lemma ThenRequestHandled() returns (acts: seq<Action>, s: Job)
    ensures Reached(Sample, acts, s)
    ensures s == Job({TokenFile(0, false)}, [Shallow(true), Shallow(false)], multiset{0, 1}, multiset{}, 1,
                     true, false, Idle, 0, 1)
  {
    var go := Advance(false);
    acts, s := ThenResubmittedAndStarted();
    acts, s := Extend(Sample, acts, s, StartReplanRequest(1, None));
    assert s.requests == multiset{};
    acts, s := Extend(Sample, acts, s, go);
    acts, s := Extend(Sample, acts, s, go);
    acts, s := Extend(Sample, acts, s, go);
    assert s.files == {TokenFile(0, false)};
    acts, s := Extend(Sample, acts, s, go);
    assert s.sent == multiset{0, 1};
  }

  /** A replan request handled after a resubmission whose wrapper started makes a new token, and
      the first wrapper starts the payload again although nothing deep was logged. */
  lemma ReplanAfterStartRunsTwice() returns (acts: seq<Action>, s: Job)
    ensures Reached(Sample, acts, s) && Sample.ShallowEnabled()
    ensures s.starts == 2 && Replay(s.log).deep == 0 && TokensMade(Sample, acts) == 1
  {
    acts, s := ThenRequestHandled();
    AppendToLog([], Shallow(true));
    AppendToLog([Shallow(true)], Shallow(false));
    assert [] + [Shallow(true)] == [Shallow(true)];
    assert [Shallow(true)] + [Shallow(false)] == s.log;
    acts, s := Extend(Sample, acts, s, WrapperStarts(0));
    RevivedExactly(Sample, acts, s);
  }
}
