/** The token protocol of a single job as a machine of atomic steps: the request handler
    (submit_request.cpp), the replanner (replanner.cpp) and the job wrappers in the field.
    Between any two steps of the handler or the replanner, any wrapper may move. */
module TokenProtocol {
  import opened Wrappers
  import opened RetryCounts

  /** A token file in the job's directory; `tmp` is the name with a trailing dot. */
  datatype TokenFile = TokenFile(n: nat, tmp: bool)

  /** `overwrites` tells whether setting the replans count of a job description that already
      has one replaces it; that library is not part of this model. */
  datatype Config = Config(
    jobRetry: Option<int>, systemRetry: int,
    jobShallow: Option<int>, systemShallow: int,
    maxReplans: int, overwrites: bool)
  {
    predicate ShallowEnabled() {
      jobShallow.GetOr(0) != -1
    }

    function DeepLimit(): nat {
      EffectiveLimit(jobRetry, systemRetry)
    }

    function ShallowLimit(): nat {
      EffectiveLimit(jobShallow, systemShallow)
    }
  }

  /** Where the one component that is handling the job stands.  `carried` is the replans count
      in the job description, which is also the token number given to the wrapper; `request`
      says that a replan request is being handled. */
  datatype Phase =
    | Idle
    | ResubmitScanned(n: nat, counts: Counts)
    | ResubmitMoved(n: nat, counts: Counts)
    | LogShallow(n: nat)
    | LogDeep(n: nat, carried: nat)
    | CreateTmp(n: nat)
    | SubmitScanned(n: nat, carried: nat, request: bool)
    | CreateFirst(n: nat, carried: nat, request: bool)
    | Publish(n: nat, carried: nat, request: bool)
    | Deliver(carried: nat, request: bool)
    | ReplanScanned(found: TokenFile)
    | ReplanLog(n: nat)
    | ReplanRequest(n: nat)

  /** `sent`: numbers carried by the wrappers that have not started; `requests`: replan requests
      waiting to be handled; `starts`: payloads started.  `lost` and `revived` only count: deep
      resubmissions whose token could not be created, and tokens created for a replan request. */
  datatype Job = Job(
    files: set<TokenFile>, log: seq<LbEvent>, sent: multiset<nat>, requests: multiset<nat>,
    starts: nat, submitted: bool, limitHit: bool, phase: Phase,
    lost: nat, revived: nat)

  datatype Action =
    | StartSubmit(found: Option<TokenFile>)
    | StartReplanRequest(replans: nat, found: Option<TokenFile>)
    | StartResubmit(found: Option<TokenFile>)
    | StartReplan(token: TokenFile)
    | Advance(fault: bool)
    | WrapperStarts(n: nat)
    | WrapperGone(n: nat)

  const InitialJob := Job({}, [], multiset{}, multiset{}, 0, false, false, Idle, 0, 0)

  predicate ScanFinds(files: set<TokenFile>, found: Option<TokenFile>) {
    match found
    case None => files == {}
    case Some(f) => f in files
  }

  function ScannedNumber(found: Option<TokenFile>): nat {
    if found.Some? then found.value.n else 0
  }

  /** The replans count in a request's job description after the scan. */
  function CarriedCount(cfg: Config, replans: nat, found: Option<TokenFile>): nat {
    if found.Some? && cfg.overwrites then found.value.n else replans
  }

  /** The next step of whoever is handling the job; `fault` is an error of the operation. */
  function Next(cfg: Config, s: Job, fault: bool): Option<Job> {
    match s.phase
    case Idle => None
    case ResubmitScanned(n, counts) =>
      if !cfg.ShallowEnabled() then
        if CheckDeepCount(cfg.jobRetry, cfg.systemRetry, counts.deep).Fail? then
          Some(s.(phase := Idle, limitHit := true))
        else
          Some(s.(phase := LogDeep(n, n)))
      else if fault then Some(s.(phase := Idle))
      else if TokenFile(n, false) in s.files then
        Some(s.(files := s.files - {TokenFile(n, false)} + {TokenFile(n, true)},
                phase := ResubmitMoved(n, counts)))
      else Some(s.(phase := ResubmitMoved(n, counts)))
    case ResubmitMoved(n, counts) =>
      if TokenFile(n, true) in s.files then
        if CheckShallowCount(cfg.jobShallow, cfg.systemShallow, counts.shallow).Fail? then
          Some(s.(phase := Idle, limitHit := true))
        else
          Some(s.(phase := LogShallow(n)))
      else
        if CheckDeepCount(cfg.jobRetry, cfg.systemRetry, counts.deep).Fail? then
          Some(s.(phase := Idle, limitHit := true))
        else
          Some(s.(phase := LogDeep(n, n)))
    case LogShallow(n) =>
      Some(s.(log := s.log + [Shallow(false)], phase := Publish(n, n, false)))
    case LogDeep(n, carried) =>
      Some(s.(log := s.log + [Deep],
              phase := if cfg.ShallowEnabled() then CreateTmp(n) else Deliver(carried, false)))
    case CreateTmp(n) =>
      if fault then Some(s.(phase := Idle, lost := s.lost + 1))
      else Some(s.(files := s.files + {TokenFile(n, true)}, phase := Publish(n, n, false)))
    case SubmitScanned(n, carried, request) =>
      if carried > 0 && n == carried then Some(s.(phase := Deliver(carried, request)))
      else if carried > 0 && n > carried then Some(s.(phase := Idle))
      else if !cfg.ShallowEnabled() then Some(s.(phase := Deliver(carried, request)))
      else if TokenFile(n, true) in s.files then Some(s.(phase := Publish(n, carried, request)))
      else Some(s.(phase := CreateFirst(n, carried, request)))
    case CreateFirst(n, carried, request) =>
      if fault then Some(Postponed(s, carried, request))
      else Some(s.(files := s.files + {TokenFile(n, true)}, phase := Publish(n, carried, request),
                   revived := if request then s.revived + 1 else s.revived))
    case Publish(n, carried, request) =>
      if fault || TokenFile(n, true) !in s.files then Some(Postponed(s, carried, request))
      else Some(s.(files := s.files - {TokenFile(n, true)} + {TokenFile(n, false)},
                   phase := Deliver(carried, request)))
    case Deliver(carried, request) =>
      if fault then Some(Postponed(s, carried, request))
      else Some(s.(sent := s.sent + multiset{carried}, submitted := true, phase := Idle))
    case ReplanScanned(found) =>
      if fault || found !in s.files then Some(s.(phase := Idle))
      else
        var renamed := s.files - {found} + {TokenFile(found.n + 1, false)};
        // past the limit the old name is unlinked, after the rename
        Some(s.(files := if found.n >= cfg.maxReplans then renamed - {found} else renamed,
                phase := ReplanLog(found.n + 1)))
    case ReplanLog(n) =>
      Some(s.(log := s.log + [Shallow(true)], phase := ReplanRequest(n)))
    case ReplanRequest(n) =>
      if fault then Some(s.(phase := Idle))
      else Some(s.(requests := s.requests + multiset{n}, phase := Idle))
  }

  /** A postponed replan request comes back with the count its description now has; a
      postponed resubmission or first submission is simply started again. */
  function Postponed(s: Job, carried: nat, request: bool): Job {
    s.(phase := Idle, requests := if request then s.requests + multiset{carried} else s.requests)
  }

  /** One atomic step, or None where the action is not possible. */
  function Step(cfg: Config, s: Job, a: Action): Option<Job> {
    match a
    case StartSubmit(found) =>
      if s.phase.Idle? && !s.submitted && ScanFinds(s.files, found) then
        Some(s.(phase := SubmitScanned(ScannedNumber(found), ScannedNumber(found), false)))
      else None
    case StartReplanRequest(replans, found) =>
      if s.phase.Idle? && replans in s.requests && ScanFinds(s.files, found) then
        Some(s.(requests := s.requests - multiset{replans},
                phase := SubmitScanned(ScannedNumber(found), CarriedCount(cfg, replans, found), true)))
      else None
    case StartResubmit(found) =>
      if s.phase.Idle? && s.submitted && ScanFinds(s.files, found) then
        Some(s.(phase := ResubmitScanned(ScannedNumber(found), Replay(s.log))))
      else None
    case StartReplan(token) =>
      if s.phase.Idle? && s.submitted && !s.limitHit && cfg.ShallowEnabled() && token in s.files then
        Some(s.(phase := ReplanScanned(token)))
      else None
    case Advance(fault) => Next(cfg, s, fault)
    case WrapperStarts(n) =>
      if n !in s.sent then None
      else if !cfg.ShallowEnabled() then Some(s.(sent := s.sent - multiset{n}, starts := s.starts + 1))
      else if TokenFile(n, false) in s.files then
        Some(s.(sent := s.sent - multiset{n}, starts := s.starts + 1,
                files := s.files - {TokenFile(n, false)}))
      else None
    case WrapperGone(n) =>
      if n in s.sent then Some(s.(sent := s.sent - multiset{n})) else None
  }

  /** The state after a sequence of steps; None when one of them was not possible. */
  function Run(cfg: Config, s: Job, acts: seq<Action>): Option<Job> {
    if acts == [] then Some(s)
    else
      var t := Run(cfg, s, acts[..|acts| - 1]);
      if t.None? then None else Step(cfg, t.value, acts[|acts| - 1])
  }

  /** The state is reached by the steps from a new job. */
  ghost predicate Reached(cfg: Config, acts: seq<Action>, s: Job) {
    Run(cfg, InitialJob, acts) == Some(s)
  }

  lemma RunAppend(cfg: Config, s: Job, acts: seq<Action>, a: Action)
    ensures Run(cfg, s, acts + [a]) ==
            if Run(cfg, s, acts).None? then None else Step(cfg, Run(cfg, s, acts).value, a)
  {
    assert (acts + [a])[..|acts|] == acts;
  }

  lemma ReachedStep(cfg: Config, acts: seq<Action>, s: Job, a: Action, t: Job)
    requires Reached(cfg, acts, s) && Step(cfg, s, a) == Some(t)
    ensures Reached(cfg, acts + [a], t)
  {
    RunAppend(cfg, InitialJob, acts, a);
  }

  // ----------------------------------------------------------------- the inductive invariant

  /** Distinct numbers of the tokens present. */
  function Numbers(files: set<TokenFile>): set<nat> {
    set f | f in files :: f.n
  }

  function ShallowByHandler(log: seq<LbEvent>): nat {
    if log == [] then 0
    else ShallowByHandler(log[..|log| - 1]) + if log[|log| - 1] == Shallow(false) then 1 else 0
  }

  /** Shallow resubmissions by the handler since the last deep one. */
  function EpochShallow(log: seq<LbEvent>): nat {
    if log == [] then 0
    else
      match log[|log| - 1]
      case Deep => 0
      case Shallow(byReplanner) =>
        EpochShallow(log[..|log| - 1]) + if byReplanner then 0 else 1
      case Other => EpochShallow(log[..|log| - 1])
  }

  /** Before the first delivery nothing is in the field, and the only token is number 0. */
  ghost predicate Fresh(cfg: Config, s: Job) {
    && s.starts == 0 && s.log == [] && s.sent == multiset{} && s.requests == multiset{}
    && s.lost == 0 && s.revived == 0 && !s.limitHit
    && s.files <= {TokenFile(0, false), TokenFile(0, true)}
    && (match s.phase
        case Idle => true
        case SubmitScanned(n, c, r) => n == c == 0 && !r
        case CreateFirst(n, c, r) => n == c == 0 && !r
        case Publish(n, c, r) => n == c == 0 && !r
        case Deliver(c, r) => c == 0 && !r && (cfg.ShallowEnabled() ==> s.files == {TokenFile(0, false)})
        case _ => false)
  }

  /** The first delivery is the last step before `submitted`, so here no first submission is
      being handled. */
  ghost predicate InField(cfg: Config, s: Job) {
    match s.phase
    case SubmitScanned(_, _, r) => r
    case CreateFirst(_, _, r) => r
    case _ => true
  }

  function PendingCreate(phase: Phase): nat {
    if phase.CreateTmp? then 1 else 0
  }

  /** Every token ever made is present, or was removed by the wrapper that started.  The bound
      covers runs in which replan requests made tokens as well. */
  ghost predicate Accounted(s: Job) {
    && s.starts + |s.files| + s.lost + PendingCreate(s.phase) <= 1 + Replay(s.log).deep + s.revived
    && (s.revived == 0 ==>
          && s.starts + |s.files| + s.lost + PendingCreate(s.phase) == 1 + Replay(s.log).deep
          && |s.files| <= 1
          && (match s.phase
              case ResubmitScanned(n, _) => s.files <= {TokenFile(n, false), TokenFile(n, true)}
              case ResubmitMoved(n, _) => s.files <= {TokenFile(n, true)}
              case LogDeep(_, _) => s.files == {}
              case CreateTmp(_) => s.files == {}
              case _ => true))
  }

  /** What the handler read at its beginning still holds: only it writes the log. */
  ghost predicate CountsCurrent(cfg: Config, s: Job) {
    match s.phase
    case ResubmitScanned(_, counts) => counts == Replay(s.log)
    case ResubmitMoved(_, counts) => counts == Replay(s.log)
    case LogShallow(n) => Replay(s.log).shallow < cfg.ShallowLimit()
    case LogDeep(_, _) => Replay(s.log).deep < cfg.DeepLimit()
    case _ => true
  }

  ghost predicate Bounded(cfg: Config, log: seq<LbEvent>) {
    && Replay(log).deep <= cfg.DeepLimit()
    && EpochShallow(log) <= Replay(log).shallow
    && EpochShallow(log) <= cfg.ShallowLimit()
    && ShallowByHandler(log) <= Replay(log).deep * cfg.ShallowLimit() + EpochShallow(log)
  }

  ghost predicate TokenThere(s: Job) {
    match s.phase
    case LogShallow(n) => TokenFile(n, true) in s.files
    case Publish(n, _, _) => TokenFile(n, true) in s.files
    case CreateFirst(n, _, _) => TokenFile(n, true) !in s.files
    case _ => true
  }

  ghost predicate Inv(cfg: Config, s: Job) {
    && CountsCurrent(cfg, s)
    && Bounded(cfg, s.log)
    && (!s.submitted ==> Fresh(cfg, s))
    && (s.submitted ==> InField(cfg, s))
    && (cfg.ShallowEnabled() ==> TokenThere(s))
    && (cfg.ShallowEnabled() && s.submitted ==> Accounted(s))
  }

  lemma AppendToLog(log: seq<LbEvent>, e: LbEvent)
    ensures Replay(log + [e]) ==
            match e
            case Deep => Counts(Replay(log).deep + 1, 0)
            case Shallow(_) => Counts(Replay(log).deep, Replay(log).shallow + 1)
            case Other => Replay(log)
    ensures EpochShallow(log + [e]) ==
            match e
            case Deep => 0
            case Shallow(byReplanner) => EpochShallow(log) + if byReplanner then 0 else 1
            case Other => EpochShallow(log)
    ensures ShallowByHandler(log + [e]) == ShallowByHandler(log) + if e == Shallow(false) then 1 else 0
  {
    assert (log + [e])[..|log|] == log;
  }

  lemma DeepKeepsBounded(cfg: Config, log: seq<LbEvent>)
    requires Bounded(cfg, log) && Replay(log).deep < cfg.DeepLimit()
    ensures Bounded(cfg, log + [Deep])
  {
    AppendToLog(log, Deep);
    OneMore(Replay(log).deep, cfg.ShallowLimit(), EpochShallow(log));
  }

  lemma OneMore(d: nat, l: nat, e: nat)
    requires e <= l
    ensures d * l + e <= (d + 1) * l
  {
  }

  lemma ShallowKeepsBounded(cfg: Config, log: seq<LbEvent>, byReplanner: bool)
    requires Bounded(cfg, log)
    requires !byReplanner ==> Replay(log).shallow < cfg.ShallowLimit()
    ensures Bounded(cfg, log + [Shallow(byReplanner)])
  {
    AppendToLog(log, Shallow(byReplanner));
  }

  lemma SwapCard<T>(files: set<T>, from: T, to: T)
    requires from in files
    ensures |files - {from} + {to}| <= |files|
    ensures to !in files ==> |files - {from} + {to}| == |files|
  {
    assert |files - {from}| == |files| - 1;
    if to in files - {from} {
      assert files - {from} + {to} == files - {from};
    }
  }

  lemma AtMostOne<T>(files: set<T>, f: T)
    requires |files| <= 1 && f in files
    ensures files == {f}
  {
    assert |files - {f}| == 0;
  }

  lemma AddCard<T>(files: set<T>, f: T)
    ensures |files + {f}| <= |files| + 1
    ensures f !in files ==> |files + {f}| == |files| + 1
  {
    if f in files {
      assert files + {f} == files;
    }
  }

  lemma NextKeepsFresh(cfg: Config, s: Job, fault: bool)
    requires Inv(cfg, s) && !s.submitted && Next(cfg, s, fault).Some?
    ensures Inv(cfg, Next(cfg, s, fault).value)
  {
    var t := Next(cfg, s, fault).value;
    if s.phase.Publish? && !fault {
      assert cfg.ShallowEnabled() && TokenFile(0, true) in s.files ==> t.files == {TokenFile(0, false)};
    }
  }

  lemma LogStepKeepsInv(cfg: Config, s: Job, fault: bool)
    requires Inv(cfg, s) && s.submitted && Next(cfg, s, fault).Some?
    requires s.phase.LogDeep? || s.phase.LogShallow? || s.phase.ReplanLog?
    ensures Inv(cfg, Next(cfg, s, fault).value)
  {
    match s.phase
    case LogDeep(_, _) =>
      DeepKeepsBounded(cfg, s.log);
      AppendToLog(s.log, Deep);
    case LogShallow(_) =>
      ShallowKeepsBounded(cfg, s.log, false);
      AppendToLog(s.log, Shallow(false));
    case ReplanLog(_) =>
      ShallowKeepsBounded(cfg, s.log, true);
      AppendToLog(s.log, Shallow(true));
    case _ =>
  }

  lemma RenameToTmpKeepsInv(cfg: Config, s: Job, fault: bool)
    requires Inv(cfg, s) && s.submitted && s.phase.ResubmitScanned?
    ensures Inv(cfg, Next(cfg, s, fault).value)
  {
    var n := s.phase.n;
    if TokenFile(n, false) in s.files {
      SwapCard(s.files, TokenFile(n, false), TokenFile(n, true));
      if |s.files| <= 1 {
        AtMostOne(s.files, TokenFile(n, false));
      }
    }
  }

  lemma PublishKeepsInv(cfg: Config, s: Job, fault: bool)
    requires Inv(cfg, s) && s.submitted && s.phase.Publish?
    ensures Inv(cfg, Next(cfg, s, fault).value)
  {
    var n := s.phase.n;
    if TokenFile(n, true) in s.files {
      SwapCard(s.files, TokenFile(n, true), TokenFile(n, false));
      if |s.files| <= 1 {
        AtMostOne(s.files, TokenFile(n, true));
      }
    }
  }

  /** The replanner's step, with or without the limit: the token gets the next number. */
  lemma Renumber(cfg: Config, s: Job, fault: bool)
    requires s.phase.ReplanScanned?
    ensures
      var f := s.phase.found;
      Next(cfg, s, fault) == Some(
        if fault || f !in s.files then s.(phase := Idle)
        else s.(files := s.files - {f} + {TokenFile(f.n + 1, false)}, phase := ReplanLog(f.n + 1)))
  {
    var f := s.phase.found;
    var renamed := s.files - {f} + {TokenFile(f.n + 1, false)};
    assert renamed - {f} == renamed;
  }

  lemma RenumberKeepsInv(cfg: Config, s: Job, fault: bool)
    requires Inv(cfg, s) && s.submitted && s.phase.ReplanScanned?
    ensures Inv(cfg, Next(cfg, s, fault).value)
  {
    var f := s.phase.found;
    Renumber(cfg, s, fault);
    if f in s.files {
      SwapCard(s.files, f, TokenFile(f.n + 1, false));
      if |s.files| <= 1 {
        AtMostOne(s.files, f);
      }
    }
  }

  lemma CreateKeepsInv(cfg: Config, s: Job, fault: bool)
    requires Inv(cfg, s) && s.submitted && (s.phase.CreateTmp? || s.phase.CreateFirst?)
    ensures Inv(cfg, Next(cfg, s, fault).value)
  {
    AddCard(s.files, TokenFile(s.phase.n, true));
  }

  lemma OtherStepKeepsInv(cfg: Config, s: Job, fault: bool)
    requires Inv(cfg, s) && s.submitted
    requires s.phase.ResubmitMoved? || s.phase.SubmitScanned? || s.phase.Deliver? || s.phase.ReplanRequest?
    ensures Inv(cfg, Next(cfg, s, fault).value)
  {
  }

  lemma StepKeepsInv(cfg: Config, s: Job, a: Action)
    requires Inv(cfg, s) && Step(cfg, s, a).Some?
    ensures Inv(cfg, Step(cfg, s, a).value)
  {
    match a
    case Advance(fault) =>
      if !s.submitted {
        NextKeepsFresh(cfg, s, fault);
      } else if s.phase.LogDeep? || s.phase.LogShallow? || s.phase.ReplanLog? {
        LogStepKeepsInv(cfg, s, fault);
      } else {
        match s.phase
        case ResubmitScanned(_, _) => RenameToTmpKeepsInv(cfg, s, fault);
        case Publish(_, _, _) => PublishKeepsInv(cfg, s, fault);
        case ReplanScanned(_) => RenumberKeepsInv(cfg, s, fault);
        case CreateTmp(_) => CreateKeepsInv(cfg, s, fault);
        case CreateFirst(_, _, _) => CreateKeepsInv(cfg, s, fault);
        case _ => OtherStepKeepsInv(cfg, s, fault);
      }
    case StartResubmit(found) =>
      if found.Some? && |s.files| <= 1 {
        AtMostOne(s.files, found.value);
      }
    case _ =>
  }

  lemma {:induction false} Invariant(cfg: Config, acts: seq<Action>, s: Job)
    requires Reached(cfg, acts, s)
    ensures Inv(cfg, s)
  {
    if acts != [] {
      var before := acts[..|acts| - 1];
      var t := Run(cfg, InitialJob, before).value;
      Invariant(cfg, before, t);
      StepKeepsInv(cfg, t, acts[|acts| - 1]);
    }
  }
}
