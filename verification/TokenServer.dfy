/** The request handler and the replanner as code over the job's directory and log.  Whatever
    they do, interleaved with any wrappers, is a run of the machine of TokenProtocol. */
module TokenServer {
  import opened Wrappers
  import opened RetryCounts
  import opened TokenProtocol

  datatype RenameResult = Renamed | NoSuchFile | RenameError

  /** Which of the operations of one handling fail, as the environment decides. */
  datatype Faults = Faults(rename: bool, create: bool, publish: bool, deliver: bool)
  {
    predicate Any() {
      rename || create || publish || deliver
    }
  }

  /** The count has reached the limit that is reported, and that is the job's, none standing for
      zero, or the system's. */
  predicate IsReached(cfg: Config, counts: Counts, hit: LimitHit) {
    match hit
    case HitJobShallowCount(limit) =>
      cfg.jobShallow != Some(-1) && counts.shallow >= limit == Max(0, cfg.jobShallow.GetOr(0))
    case HitMaxShallowCount(limit) =>
      cfg.jobShallow != Some(-1) && counts.shallow >= limit == Max(0, cfg.systemShallow)
    case HitJobRetryCount(limit) => counts.deep >= limit == Max(0, cfg.jobRetry.GetOr(0))
    case HitMaxRetryCount(limit) => counts.deep >= limit == cfg.systemRetry
  }

  datatype Handled =
    | Delivered
    | Dropped
    | LimitReached(error: LimitHit)
    | Requeued
    | NothingToDo

  class JobServer {
    const cfg: Config
    var files: set<TokenFile>
    var log: seq<LbEvent>
    var sent: multiset<nat>
    var requests: multiset<nat>
    var starts: nat
    var submitted: bool
    var limitHit: bool

    // the machine's state and the steps that led to it
    ghost var st: Job
    ghost var acts: seq<Action>

    ghost predicate Agrees(s: Job)
      reads this
    {
      && s.files == files && s.log == log && s.sent == sent && s.requests == requests
      && s.starts == starts && s.submitted == submitted && s.limitHit == limitHit
    }

    ghost predicate Valid()
      reads this
    {
      Reached(cfg, acts, st) && Agrees(st)
    }

    constructor (cfg: Config)
      ensures Valid() && this.cfg == cfg && acts == [] && st == InitialJob
    {
      this.cfg := cfg;
      files, log, sent, requests := {}, [], multiset{}, multiset{};
      starts, submitted, limitHit := 0, false, false;
      st, acts := InitialJob, [];
    }

    ghost method Did(a: Action)
      requires Reached(cfg, acts, st)
      requires Step(cfg, st, a).Some? && Agrees(Step(cfg, st, a).value)
      modifies this`st, this`acts
      ensures Valid() && acts == old(acts) + [a] && Step(cfg, old(st), a) == Some(st)
    {
      ghost var t := Step(cfg, st, a).value;
      ReachedStep(cfg, acts, st, a, t);
      st, acts := t, acts + [a];
    }

    /** One wrapper removes its token and starts, or ends without starting. */
    method WrapperMoves(n: nat, dies: bool)
      requires Valid() && n in sent
      modifies this`files, this`sent, this`starts, this`st, this`acts
      ensures Valid() && old(acts) <= acts
      ensures sent == old(sent) - multiset{n} && |sent| == |old(sent)| - 1
      ensures starts == old(starts) +
                if !dies && (cfg.jobShallow == Some(-1) || TokenFile(n, false) in old(files)) then 1 else 0
      ensures files == if starts == old(starts) || cfg.jobShallow == Some(-1) then old(files)
                       else old(files) - {TokenFile(n, false)}
      ensures st == old(st).(files := files, sent := sent, starts := starts)
      ensures files <= old(files) && (forall f <- old(files) :: f.tmp ==> f in files)
    {
      sent := sent - multiset{n};
      if !dies && (!cfg.ShallowEnabled() || TokenFile(n, false) in files) {
        starts := starts + 1;
        if cfg.ShallowEnabled() {
          files := files - {TokenFile(n, false)};
        }
        Did(WrapperStarts(n));
      } else {
        Did(WrapperGone(n));
      }
    }

    /** Any wrappers move at this point. */
    method WrappersMove()
      requires Valid()
      modifies this`files, this`sent, this`starts, this`st, this`acts
      ensures Valid() && old(acts) <= acts
      ensures starts + |sent| <= old(starts + |sent|) && starts >= old(starts)
      ensures files == old(files) || starts > old(starts)
      ensures st == old(st).(files := files, sent := sent, starts := starts)
      ensures files <= old(files) && (forall f <- old(files) :: f.tmp ==> f in files)
    {
      while *
        invariant Valid() && old(acts) <= acts
        invariant starts + |sent| <= old(starts + |sent|) && starts >= old(starts)
        invariant files == old(files) || starts > old(starts)
        invariant st == old(st).(files := files, sent := sent, starts := starts)
        invariant files <= old(files) && (forall f <- old(files) :: f.tmp ==> f in files)
        decreases |sent|
      {
        if sent == multiset{} {
          break;
        }
        var n :| n in sent;
        var dies := *;
        WrapperMoves(n, dies);
      }
    }

    method Rename(from: TokenFile, to: TokenFile, fault: bool) returns (res: RenameResult)
      modifies this`files
      ensures res == if fault then RenameError else if from in old(files) then Renamed else NoSuchFile
      ensures files == if res == Renamed then old(files) - {from} + {to} else old(files)
    {
      if fault {
        res := RenameError;
      } else if from in files {
        files := files - {from} + {to};
        res := Renamed;
      } else {
        res := NoSuchFile;
      }
    }

    /** The token file the directory listing shows, if any. */
    method Scan() returns (found: Option<TokenFile>)
      ensures ScanFinds(files, found)
    {
      found := None;
      if files != {} {
        var f :| f in files;
        found := Some(f);
      }
    }

    method PublishToken(n: nat, carried: nat, request: bool, fault: bool) returns (ok: bool)
      requires Valid() && st.phase == Publish(n, carried, request)
      modifies this
      ensures Valid() && old(acts) <= acts && log == old(log)
      ensures limitHit == old(limitHit) && submitted == old(submitted)
      ensures st.phase == if ok then Deliver(carried, request) else Idle
      ensures TokenFile(n, true) in old(files) ==> ok == !fault
      ensures starts + |sent| <= old(starts + |sent|)
      ensures requests == if request && !ok then old(requests) + multiset{carried} else old(requests)
    {
      WrappersMove();
      var res := Rename(TokenFile(n, true), TokenFile(n, false), fault);
      ok := res == Renamed;
      if !ok && request {
        requests := requests + multiset{carried};
      }
      Did(Advance(fault));
    }

    method DeliverToWrapper(carried: nat, request: bool, fault: bool)
      requires Valid() && st.phase == Deliver(carried, request)
      modifies this
      ensures Valid() && st.phase == Idle && old(acts) <= acts && log == old(log) && limitHit == old(limitHit)
      ensures submitted == (old(submitted) || !fault)
      ensures starts + |sent| <= old(starts + |sent|) + (if fault then 0 else 1)
      ensures !fault ==> carried in sent
      ensures requests == if request && fault then old(requests) + multiset{carried} else old(requests)
    {
      WrappersMove();
      if fault {
        if request {
          requests := requests + multiset{carried};
        }
      } else {
        sent, submitted := sent + multiset{carried}, true;
      }
      Did(Advance(fault));
    }

    method SetTokenAside(n: nat, counts: Counts, fault: bool) returns (ok: bool)
      requires Valid() && st.phase == ResubmitScanned(n, counts) && cfg.ShallowEnabled()
      modifies this`files, this`st, this`acts
      ensures Valid() && old(acts) <= acts && ok == !fault
      ensures st == old(st).(files := files, phase := if ok then ResubmitMoved(n, counts) else Idle)
    {
      var res := Rename(TokenFile(n, false), TokenFile(n, true), fault);
      ok := res != RenameError;
      Did(Advance(fault));
    }

    /** Checks the limit: the shallow one if the token was still there to be set aside. */
    method CheckRetry(n: nat, counts: Counts) returns (hit: Option<LimitHit>, shallow: bool)
      requires Valid()
      requires st.phase == (if cfg.ShallowEnabled() then ResubmitMoved(n, counts) else ResubmitScanned(n, counts))
      modifies this`limitHit, this`st, this`acts
      ensures Valid() && old(acts) <= acts
      ensures shallow == (cfg.ShallowEnabled() && TokenFile(n, true) in files)
      ensures
        var check := if shallow then CheckShallowCount(cfg.jobShallow, cfg.systemShallow, counts.shallow)
                     else CheckDeepCount(cfg.jobRetry, cfg.systemRetry, counts.deep);
        hit == if check.Fail? then Some(check.error) else None
      ensures hit.Some? ==> st == old(st).(limitHit := true, phase := Idle) && IsReached(cfg, counts, hit.value)
      ensures hit.None? ==> st == old(st).(phase := if shallow then LogShallow(n) else LogDeep(n, n))
    {
      shallow := cfg.ShallowEnabled() && TokenFile(n, true) in files;
      var check := if shallow then CheckShallowCount(cfg.jobShallow, cfg.systemShallow, counts.shallow)
                   else CheckDeepCount(cfg.jobRetry, cfg.systemRetry, counts.deep);
      hit := None;
      if check.Fail? {
        limitHit := true;
        hit := Some(check.error);
      }
      Did(Advance(false));
    }

    method LogRetry(n: nat, shallow: bool)
      requires Valid() && st.phase == (if shallow then LogShallow(n) else LogDeep(n, n))
      modifies this`log, this`st, this`acts
      ensures Valid() && old(acts) <= acts && log == old(log) + [if shallow then Shallow(false) else Deep]
      ensures st == old(st).(log := log,
                             phase := if shallow then Publish(n, n, false)
                                      else if cfg.ShallowEnabled() then CreateTmp(n) else Deliver(n, false))
    {
      log := log + [if shallow then Shallow(false) else Deep];
      Did(Advance(false));
    }

    method CreateToken(n: nat, fault: bool)
      requires Valid() && st.phase == CreateTmp(n)
      modifies this`files, this`st, this`acts
      ensures Valid() && old(acts) <= acts
      ensures files == if fault then old(files) else old(files) + {TokenFile(n, true)}
      ensures st.phase == if fault then Idle else Publish(n, n, false)
    {
      if !fault {
        files := files + {TokenFile(n, true)};
      }
      Did(Advance(fault));
    }

    /** Decides between a shallow and a deep resubmission and checks its limit. */
    method ChooseRetry(n: nat, counts: Counts, fault: bool) returns (ended: Option<Handled>, shallow: bool)
      requires Valid() && st.phase == ResubmitScanned(n, counts)
      modifies this
      ensures Valid() && old(acts) <= acts && submitted == old(submitted) && log == old(log)
      ensures ended.None? ==>
                && limitHit == old(limitHit)
                && st.phase == (if shallow then LogShallow(n) else LogDeep(n, n))
                && (if shallow then
                      cfg.ShallowEnabled() && TokenFile(n, true) in files && counts.shallow < cfg.ShallowLimit()
                    else counts.deep < cfg.DeepLimit())
      ensures ended.Some? ==> st.phase == Idle && (ended.value == Requeued || ended.value.LimitReached?)
      ensures ended == Some(Requeued) ==> fault && limitHit == old(limitHit)
      ensures ended.Some? && ended.value.LimitReached? ==>
                limitHit && IsReached(cfg, counts, ended.value.error)
      ensures starts + |sent| <= old(starts + |sent|) && requests == old(requests)
    {
      if cfg.ShallowEnabled() {
        var ok := SetTokenAside(n, counts, fault);
        if !ok {
          return Some(Requeued), false;
        }
        WrappersMove();
      }
      var hit: Option<LimitHit>;
      hit, shallow := CheckRetry(n, counts);
      ended := if hit.Some? then Some(LimitReached(hit.value)) else None;
    }

    /** Logs the resubmission; a deep one also gets a new token. */
    method CarryOutRetry(n: nat, shallow: bool, fault: bool) returns (ok: bool)
      requires Valid() && st.phase == (if shallow then LogShallow(n) else LogDeep(n, n))
      requires shallow ==> cfg.ShallowEnabled() && TokenFile(n, true) in files
      modifies this
      ensures Valid() && old(acts) <= acts && submitted == old(submitted) && limitHit == old(limitHit)
      ensures ok || fault
      ensures ok ==> log == old(log) + [if shallow then Shallow(false) else Deep]
      ensures ok && cfg.ShallowEnabled() ==> st.phase == Publish(n, n, false) && TokenFile(n, true) in files
      ensures ok && !cfg.ShallowEnabled() ==> st.phase == Deliver(n, false)
      ensures !ok ==> st.phase == Idle
      ensures starts + |sent| <= old(starts + |sent|) && requests == old(requests)
    {
      WrappersMove();
      LogRetry(n, shallow);
      ok := true;
      if cfg.ShallowEnabled() && !shallow {
        WrappersMove();
        CreateToken(n, fault);
        ok := !fault;
      }
    }

    /** Makes a token that was set aside or just created available under its final name. */
    method PublishAndDeliver(n: nat, carried: nat, request: bool, faults: Faults) returns (outcome: Handled)
      requires Valid() && st.phase == Publish(n, carried, request)
      modifies this
      ensures Valid() && st.phase.Idle? && old(acts) <= acts && log == old(log) && limitHit == old(limitHit)
      ensures old(submitted) ==> submitted
      ensures outcome in {Delivered, Requeued}
      ensures outcome == Delivered ==> submitted && carried in sent
      ensures outcome == Requeued && TokenFile(n, true) in old(files) ==> faults.Any()
      ensures starts + |sent| <= old(starts + |sent|) + (if outcome == Delivered then 1 else 0)
      ensures requests == if request && outcome == Requeued then old(requests) + multiset{carried} else old(requests)
    {
      var ok := PublishToken(n, carried, request, faults.publish);
      if !ok {
        return Requeued;
      }
      DeliverToWrapper(carried, request, faults.deliver);
      outcome := if faults.deliver then Requeued else Delivered;
    }

    /** Reads the counts of earlier retries and the token number. */
    method ReadRetryState() returns (n: nat, counts: Counts)
      requires Valid() && st.phase.Idle? && submitted
      modifies this`files, this`sent, this`starts, this`st, this`acts
      ensures Valid() && old(acts) <= acts
      ensures counts == Replay(log) && st.phase == ResubmitScanned(n, counts)
      ensures starts + |sent| <= old(starts + |sent|)
    {
      WrappersMove();
      var deep, shallow := GetRetryCounts(log);
      counts := Counts(deep, shallow);
      var found := Scan();
      n := ScannedNumber(found);
      Did(StartResubmit(found));
    }

    /** Delivers the resubmission, with its token unless it needs none. */
    method FinishRetry(n: nat, faults: Faults) returns (outcome: Handled)
      requires Valid()
      requires if cfg.ShallowEnabled() then st.phase == Publish(n, n, false) && TokenFile(n, true) in files
               else st.phase == Deliver(n, false)
      modifies this
      ensures Valid() && st.phase.Idle? && old(acts) <= acts && log == old(log) && limitHit == old(limitHit)
      ensures old(submitted) ==> submitted
      ensures outcome in {Delivered, Requeued} && (outcome == Requeued ==> faults.Any())
      ensures outcome == Delivered ==> n in sent
      ensures starts + |sent| <= old(starts + |sent|) + (if outcome == Delivered then 1 else 0)
      ensures requests == old(requests)
    {
      if cfg.ShallowEnabled() {
        outcome := PublishAndDeliver(n, n, false, faults);
      } else {
        DeliverToWrapper(n, false, faults.deliver);
        outcome := if faults.deliver then Requeued else Delivered;
      }
    }

    /** A jobresubmit request. */
    method Resubmit(faults: Faults) returns (outcome: Handled)
      requires Valid() && st.phase.Idle? && submitted
      modifies this
      ensures Valid() && st.phase.Idle? && old(acts) <= acts && submitted
      ensures outcome in {Delivered, Requeued} || outcome.LimitReached?
      ensures outcome == Requeued ==> faults.Any()
      ensures outcome == Delivered ==>
                || (log == old(log) + [Deep] && Replay(old(log)).deep < cfg.DeepLimit())
                || (log == old(log) + [Shallow(false)] && Replay(old(log)).shallow < cfg.ShallowLimit()
                    && cfg.ShallowEnabled())
      ensures outcome.LimitReached? <==> limitHit && log == old(log) && outcome != Requeued
      ensures !outcome.LimitReached? ==> limitHit == old(limitHit)
      ensures outcome.LimitReached? ==> IsReached(cfg, Replay(old(log)), outcome.error)
      ensures
        var counts := Replay(old(log));
        cfg.jobRetry.Some? && counts.deep < cfg.jobRetry.value && counts.deep < cfg.systemRetry
        && (cfg.jobShallow == Some(-1)
            || (cfg.jobShallow.Some? && counts.shallow < cfg.jobShallow.value && counts.shallow < cfg.systemShallow))
        ==> !outcome.LimitReached?
      ensures starts + |sent| <= old(starts + |sent|) + (if outcome == Delivered then 1 else 0)
      ensures requests == old(requests)
    {
      var n, counts := ReadRetryState();
      WrappersMove();
      var ended, shallow := ChooseRetry(n, counts, faults.rename);
      if ended.Some? {
        return ended.value;
      }
      var ok := CarryOutRetry(n, shallow, faults.create);
      if !ok {
        return Requeued;
      }
      outcome := FinishRetry(n, faults);
    }

    /** Decides what a scanned jobsubmit request is: a replanning to deliver, a request to
        drop, or one that needs its token. */
    method DecideSubmit(n: nat, carried: nat, request: bool)
      requires Valid() && st.phase == SubmitScanned(n, carried, request)
      modifies this`st, this`acts
      ensures Valid() && acts == old(acts) + [Advance(false)]
      ensures st == old(st).(phase :=
                if 0 < carried < n then Idle
                else if 0 < carried == n || !cfg.ShallowEnabled() then Deliver(carried, request)
                else if TokenFile(n, true) in files then Publish(n, carried, request)
                else CreateFirst(n, carried, request))
    {
      Did(Advance(false));
    }

    method CreateFirstToken(n: nat, carried: nat, request: bool, fault: bool)
      requires Valid() && st.phase == CreateFirst(n, carried, request)
      modifies this`files, this`requests, this`st, this`acts
      ensures Valid() && old(acts) <= acts
      ensures files == if fault then old(files) else old(files) + {TokenFile(n, true)}
      ensures st.phase == if fault then Idle else Publish(n, carried, request)
      ensures requests == if request && fault then old(requests) + multiset{carried} else old(requests)
    {
      if !fault {
        files := files + {TokenFile(n, true)};
      } else if request {
        requests := requests + multiset{carried};
      }
      Did(Advance(fault));
    }

    /** Creates the token unless it was set aside, and delivers with it. */
    method SubmitWithToken(n: nat, carried: nat, request: bool, faults: Faults) returns (outcome: Handled)
      requires Valid()
      requires st.phase == if TokenFile(n, true) in files then Publish(n, carried, request)
                           else CreateFirst(n, carried, request)
      modifies this
      ensures Valid() && st.phase.Idle? && old(acts) <= acts && log == old(log) && limitHit == old(limitHit)
      ensures outcome in {Delivered, Requeued}
      ensures outcome == Requeued ==> faults.Any()
      ensures outcome == Delivered ==> submitted && carried in sent
      ensures starts + |sent| <= old(starts + |sent|) + (if outcome == Delivered then 1 else 0)
      ensures requests == if request && outcome == Requeued then old(requests) + multiset{carried} else old(requests)
    {
      if TokenFile(n, true) !in files {
        WrappersMove();
        CreateFirstToken(n, carried, request, faults.create);
        if faults.create {
          return Requeued;
        }
      }
      outcome := PublishAndDeliver(n, carried, request, faults);
    }

    /** The part of a jobsubmit request after the scan. */
    method SubmitScannedJob(n: nat, carried: nat, request: bool, faults: Faults) returns (outcome: Handled)
      requires Valid() && st.phase == SubmitScanned(n, carried, request)
      modifies this
      ensures Valid() && st.phase.Idle? && old(acts) <= acts && log == old(log) && limitHit == old(limitHit)
      ensures outcome in {Delivered, Dropped, Requeued}
      ensures outcome == Requeued ==> faults.Any()
      ensures outcome == Dropped <==> 0 < carried < n
      ensures outcome == Dropped ==> st == old(st).(phase := Idle)
      ensures outcome == Delivered ==> submitted && carried in sent
      ensures starts + |sent| <= old(starts + |sent|) + (if outcome == Delivered then 1 else 0)
      ensures requests == if request && outcome == Requeued then old(requests) + multiset{carried} else old(requests)
    {
      DecideSubmit(n, carried, request);
      if 0 < carried && carried < n {
        return Dropped;
      }
      if (carried > 0 && n == carried) || !cfg.ShallowEnabled() {
        DeliverToWrapper(carried, request, faults.deliver);
        return if faults.deliver then Requeued else Delivered;
      }
      outcome := SubmitWithToken(n, carried, request, faults);
    }

    /** The first jobsubmit request of the job. */
    method Submit(faults: Faults) returns (outcome: Handled)
      requires Valid() && st.phase.Idle? && !submitted
      modifies this
      ensures Valid() && st.phase.Idle? && old(acts) <= acts && log == old(log) && limitHit == old(limitHit)
      ensures outcome in {Delivered, Requeued}
      ensures outcome == Requeued ==> faults.Any()
      ensures outcome == Delivered ==> submitted
      ensures starts + |sent| <= old(starts + |sent|) + (if outcome == Delivered then 1 else 0)
      ensures requests == old(requests)
    {
      var found := Scan();
      var n := ScannedNumber(found);
      Did(StartSubmit(found));
      outcome := SubmitScannedJob(n, n, false, faults);
    }

    /** A jobsubmit request written by the replanner. */
    method HandleReplanRequest(replans: nat, faults: Faults) returns (outcome: Handled, number: nat)
      requires Valid() && st.phase.Idle? && replans in requests
      modifies this
      ensures Valid() && st.phase.Idle? && old(acts) <= acts && log == old(log) && limitHit == old(limitHit)
      ensures outcome in {Delivered, Dropped, Requeued}
      ensures outcome == Requeued ==> faults.Any()
      ensures exists found :: ScanFinds(old(files), found) && number == ScannedNumber(found)
                && (outcome == Dropped <==> found.Some? && !cfg.overwrites && 0 < replans < number)
                && requests == old(requests) - multiset{replans} +
                   (if outcome != Requeued then multiset{}
                    else multiset{if found.Some? && cfg.overwrites then number else replans})
      ensures starts + |sent| <= old(starts + |sent|) + (if outcome == Delivered then 1 else 0)
      ensures outcome == Dropped ==>
                files == old(files) && sent == old(sent) && starts == old(starts)
    {
      var found := Scan();
      number := ScannedNumber(found);
      var carried := CarriedCount(cfg, replans, found);
      requests := requests - multiset{replans};
      Did(StartReplanRequest(replans, found));
      outcome := SubmitScannedJob(number, carried, true, faults);
      assert ScanFinds(old(files), found);
    }

    method RenumberToken(token: TokenFile, fault: bool) returns (res: RenameResult)
      requires Valid() && st.phase == ReplanScanned(token)
      modifies this`files, this`st, this`acts
      ensures Valid() && old(acts) <= acts
      ensures res == if fault then RenameError else if token in old(files) then Renamed else NoSuchFile
      ensures st == old(st).(files := files, phase := if res == Renamed then ReplanLog(token.n + 1) else Idle)
    {
      Renumber(cfg, st, fault);
      res := Rename(token, TokenFile(token.n + 1, false), fault);
      if res == Renamed && token.n >= cfg.maxReplans {
        assert files - {token} == files;
        files := files - {token};
      }
      Did(Advance(fault));
    }

    method LogReplan(n: nat)
      requires Valid() && st.phase == ReplanLog(n)
      modifies this`log, this`st, this`acts
      ensures Valid() && old(acts) <= acts && log == old(log) + [Shallow(true)]
      ensures st == old(st).(log := log, phase := ReplanRequest(n))
    {
      log := log + [Shallow(true)];
      Did(Advance(false));
    }

    method WriteRequest(n: nat, fault: bool)
      requires Valid() && st.phase == ReplanRequest(n)
      modifies this`requests, this`st, this`acts
      ensures Valid() && old(acts) <= acts
      ensures requests == if fault then old(requests) else old(requests) + multiset{n}
      ensures st == old(st).(requests := requests, phase := Idle)
    {
      if !fault {
        requests := requests + multiset{n};
      }
      Did(Advance(fault));
    }

    /** Logs the replanning and writes its request, now that the token has its new number. */
    method RequestReplan(n: nat, fault: bool)
      requires Valid() && st.phase == ReplanLog(n)
      modifies this
      ensures Valid() && st.phase.Idle? && old(acts) <= acts && limitHit == old(limitHit)
      ensures log == old(log) + [Shallow(true)]
      ensures requests == if fault then old(requests) else old(requests) + multiset{n}
    {
      WrappersMove();
      LogReplan(n);
      WrappersMove();
      WriteRequest(n, fault);
    }

    /** The replanner's treatment of one job that has been scheduled for too long. */
    method Replan(faults: Faults) returns (outcome: Handled)
      requires Valid() && st.phase.Idle? && submitted && !limitHit
      modifies this
      ensures Valid() && st.phase.Idle? && old(acts) <= acts && !limitHit
      ensures outcome in {Delivered, Requeued, NothingToDo}
      ensures outcome == NothingToDo ==>
                && log == old(log) && requests == old(requests)
                && (cfg.jobShallow == Some(-1) || old(files) == {} || starts > old(starts))
      ensures outcome == Delivered ==>
                && log == old(log) + [Shallow(true)]
                && exists f <- old(files) :: requests == old(requests) + multiset{f.n + 1}
      ensures outcome == Requeued ==> faults.Any() && requests == old(requests)
    {
      if !cfg.ShallowEnabled() {
        return NothingToDo;
      }
      var found := Scan();
      if found.None? {
        return NothingToDo;
      }
      var token := found.value;
      Did(StartReplan(token));
      WrappersMove();
      var res := RenumberToken(token, faults.rename);
      if res == RenameError {
        return Requeued;
      } else if res == NoSuchFile {
        return NothingToDo;
      }
      RequestReplan(token.n + 1, faults.deliver);
      outcome := if faults.deliver then Requeued else Delivered;
    }
  }
}
