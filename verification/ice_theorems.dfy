/** The main results about whole runs of an ICE session, from createCheckList on. */
module IceTheorems {
  import opened Wrappers
  import opened PairPriority
  import opened IceTypes
  import opened CheckList
  import opened Roles
  import opened IceSpec
  import opened IceBoard
  import opened IceInvariants
  import opened IceOutcome
  import opened IcePanics
  import opened IceEffects

  /** The addresses of the answer and of the session are distinct, and the answer is not too long. */
  predicate GoodCandidates(locals: seq<Candidate>, remotes: seq<Candidate>) {
    DistinctAddrs(locals) && DistinctAddrs(remotes) && |remotes| <= MAX_CANDIDATES
    && forall l :: l in locals ==> '-' !in l.addr
  }

  ghost predicate IsInitial(s: State) {
    GoodCandidates(s.localCandidates, s.remoteCandidates)
    && exists sorted ::
         StableSortOf(sorted, Product(s.role, s.localCandidates, s.remoteCandidates))
         && s == InitialState(s.role, s.tieBreaker, s.localCandidates, s.remoteCandidates, s.early, Prune(sorted))
  }

  lemma InitialOk(s: State)
    requires IsInitial(s)
    ensures Inv(s)
  {
    var sorted :| StableSortOf(sorted, Product(s.role, s.localCandidates, s.remoteCandidates))
                  && s == InitialState(s.role, s.tieBreaker, s.localCandidates, s.remoteCandidates, s.early,
                     Prune(sorted));
    CheckListPairsDistinct(s.role, s.localCandidates, s.remoteCandidates, sorted);
    forall i | 0 <= i < |s.board.checks|
      ensures PairListed(s.board.checks[i].pair, s.localCandidates, s.remoteCandidates)
    {
      var p := Prune(sorted)[i];
      assert p in Prune(sorted);
      FirstWithDistinct(s.localCandidates, p.local);
    }
  }

  /** In every state of every run after startCheck, the channels kept are exactly those of the
      checks that are neither Succeeded nor Failed, and no two checks are for the same pair. */
  lemma OpenChannelsAreUnfinishedChecks(s: State, es: seq<(Event, Env)>, t: State)
    requires IsInitial(s) && IsRun(s, es, t) && t.begun
    ensures t.board.open
            == set i | 0 <= i < |t.board.checks| && t.board.checks[i].state < SUCCEEDED :: t.board.checks[i].pair.key
    ensures forall i, j :: 0 <= i < j < |t.board.checks| ==>
                             !(t.board.checks[i].pair.local == t.board.checks[j].pair.local
                               && t.board.checks[i].pair.remote == t.board.checks[j].pair.remote)
    ensures |t.remoteCandidates| <= 9
  {
    InitialOk(s);
    RunOk(s, es, t);
    OpenKeys(t.board);
    forall i, j | 0 <= i < j < |t.board.checks|
      ensures !(t.board.checks[i].pair.local == t.board.checks[j].pair.local
                && t.board.checks[i].pair.remote == t.board.checks[j].pair.remote)
    {
      assert PairListed(t.board.checks[i].pair, t.localCandidates, t.remoteCandidates);
      assert PairListed(t.board.checks[j].pair, t.localCandidates, t.remoteCandidates);
    }
  }

  /** No run closes a channel twice, sends on a closed one, completes with an open one, or calls
      onIceComplete twice: those panics do not happen at the end of any run. */
  lemma OnlyToleratedPanics(s: State, es: seq<(Event, Env)>, t: State, e: Event, env: Env)
    requires IsInitial(s) && IsRun(s, es, t) && Enabled(t, e, env) && IceSpec.Next(t, e, env).Panic?
    ensures var why := IceSpec.Next(t, e, env).why;
            why.LevelMustIncrease? || why.NotImplemented? || why.NoServerSock? || why.NilLocalCandidate?
  {
    InitialOk(s);
    RunOk(s, es, t);
    NextOk(t, e, env);
  }

  /** In every reachable state, which of these panics a step ends in, if any, from the event and the state
      before it. */
  lemma StepPanicsExactly(s: State, es: seq<(Event, Env)>, t: State, e: Event, env: Env)
    requires IsInitial(s) && IsRun(s, es, t) && Enabled(t, e, env)
    ensures PanicOf(IceSpec.Next(t, e, env)) == StepPanic(t, e, env)
  {
    hide Inv, IsRun, Follows, StepPanic, IsInitial, Enabled, IceSpec.Next;
    InitialOk(s);
    RunOk(s, es, t);
    NextPanicsExactly(t, e, env);
  }

  /** In every reachable state, every step has the effect that is described without the transition
      functions, and the description leaves only the count of state changes open. */
  lemma EveryStepHasItsEffect(s: State, es: seq<(Event, Env)>, t: State, e: Event, env: Env)
    requires IsInitial(s) && IsRun(s, es, t) && Enabled(t, e, env) && IceSpec.Next(t, e, env).Ok?
    ensures Effect(t, e, env, IceSpec.Next(t, e, env).value)
    ensures forall u :: Effect(t, e, env, u) ==> Same(IceSpec.Next(t, e, env).value, u)
  {
    hide Inv, IsRun, Follows, Effect, IsInitial, Enabled, IceSpec.Next, Same;
    InitialOk(s);
    RunOk(s, es, t);
    NextHasEffect(t, e, env);
    forall u | Effect(t, e, env, u)
      ensures Same(IceSpec.Next(t, e, env).value, u)
    {
      EffectDetermines(t, e, env, IceSpec.Next(t, e, env).value, u);
    }
  }

  lemma TimeoutChanges(s: State, e: Event, env: Env)
    requires Enabled(s, e, env) && e.Timeout? && IceSpec.Next(s, e, env).Ok?
    requires Effect(s, e, env, IceSpec.Next(s, e, env).value)
    ensures var t := IceSpec.Next(s, e, env).value;
            t.board == s.board && t.nominatedCheck == s.nominatedCheck
            && t.completeResult == if t.nominatedCheck.Some? then s.completeResult else COMPLETE_FAILURE
  {
  }

  /** What each level means when a step of any run reaches it, and that completion follows whenever a
      check is done. */
  lemma LevelsMean(s: State, es: seq<(Event, Env)>, t: State, e: Event, env: Env)
    requires IsInitial(s) && IsRun(s, es, t) && Enabled(t, e, env) && IceSpec.Next(t, e, env).Ok?
    ensures var u := IceSpec.Next(t, e, env).value;
      && (u.completeResult == t.completeResult
          || match u.completeResult
             case 1 => u.role.Controlled? && Done(u.board.checks) && u.nominatedCheck.None? && u.validCheck.Some?
                       && u.timerArmed
             case 2 => u.nominatedCheck.Some? && !Done(u.board.checks)
             case 3 => u.nominatedCheck.Some? && Done(u.board.checks)
             case 4 => u.nominatedCheck.None?
                       && (e.Timeout? || (Done(u.board.checks) && !(u.role.Controlled? && u.validCheck.Some?)))
             case _ => false)
      && (Finishes(t, u) ==>
            if u.nominatedCheck.Some? then
              u.completeResult
              == if Done(u.board.checks) then ALL_COMPLETE
                 else if t.completeResult < COMPLETE_SUCCESS then COMPLETE_SUCCESS
                 else t.completeResult
            else if Done(u.board.checks) then
              u.completeResult == if u.role.Controlled? && u.validCheck.Some? then CHECK_COMPLETE else COMPLETE_FAILURE
            else u.completeResult == t.completeResult)
  {
    hide Inv, IsRun, Follows, Effect, IsInitial, Enabled, IceSpec.Next, Same, Done;
    InitialOk(s);
    RunOk(s, es, t);
    NextHasEffect(t, e, env);
    if e.Timeout? {
      TimeoutChanges(t, e, env);
    } else {
      EffectConcludes(t, e, env, IceSpec.Next(t, e, env).value);
    }
  }

  /** The goroutine of a check nominates it exactly for a controlling agent, and does nothing else. */
  lemma NominationOnStart(s: State, i: nat, env: Env)
    requires Enabled(s, Nominate(i), env)
    ensures var c := s.board.checks[i];
            IceSpec.Next(s, Nominate(i), env)
            == Ok(s.(board := s.board.(checks := s.board.checks[i := c.(nominated := c.nominated
                                                                                   || s.role == Controlling)])))
  {
    assert s.board.checks[i := s.board.checks[i]] == s.board.checks;
  }

  /** In every run: once a controlling agent has started a check to nominate it, a success response to
      that check, from the right address and with a mapped one, nominates a pair of at least its
      priority, and the session has succeeded. */
  lemma NominatedStartSucceeds(s: State, es1: seq<(Event, Env)>, t: State, i: nat, env: Env,
                               es2: seq<(Event, Env)>, u: State, e: Event, env2: Env)
    requires IsInitial(s) && IsRun(s, es1, t) && Enabled(t, Nominate(i), env) && t.role == Controlling
    requires IsRun(IceSpec.Next(t, Nominate(i), env).value, es2, u)
    requires Enabled(u, e, env2) && e.Respond? && e.i == i && u.board.checks[i].state < SUCCEEDED
    requires e.from == u.board.checks[i].pair.remote.addr && e.res.SuccessResponse? && e.res.mapped.Some?
    requires u.completeResult < ALL_COMPLETE && IceSpec.Next(u, e, env2).Ok?
    ensures var v := IceSpec.Next(u, e, env2).value;
            v.board.checks[i].state == SUCCEEDED && v.nominatedCheck.Some?
            && (v.completeResult == COMPLETE_SUCCESS || v.completeResult == ALL_COMPLETE)
            && (v.transport.Running? || v.silent)
  {
    hide Inv, IsRun, Follows, IsInitial, Enabled, IceSpec.Next, Effect, LevelOk, ChecksListed, CandidatesOk, ValidOk,
         SuccessWitnessed, BoardOk;
    InitialOk(s);
    RunOk(s, es1, t);
    NominationOnStart(t, i, env);
    var n := IceSpec.Next(t, Nominate(i), env).value;
    NextOk(t, Nominate(i), env);
    NominateNames(t, i, env);
    RunOk(n, es2, u);
    GrowsAt(n, u, i);
    NextOk(u, e, env2);
    NextHasEffect(u, e, env2);
    NominatedResponse(u, e, env2, IceSpec.Next(u, e, env2).value);
    InvParts(IceSpec.Next(u, e, env2).value);
    SuccessIsReported(IceSpec.Next(u, e, env2).value);
  }

  lemma NominateNames(s: State, i: nat, env: Env)
    requires Enabled(s, Nominate(i), env)
    ensures i < |s.board.checks|
  {
  }

  lemma SuccessIsReported(s: State)
    requires LevelOk(s) && (s.completeResult == COMPLETE_SUCCESS || s.completeResult == ALL_COMPLETE)
    ensures s.transport.Running? || s.silent
  {
  }

  /** A success response to a nominated check. */
  lemma NominatedResponse(s: State, e: Event, env: Env, t: State)
    requires Enabled(s, e, env) && e.Respond? && e.i < |s.board.checks| && Effect(s, e, env, t)
    requires s.board.checks[e.i].nominated && s.board.checks[e.i].state < SUCCEEDED && s.completeResult < ALL_COMPLETE
    requires e.from == s.board.checks[e.i].pair.remote.addr && e.res.SuccessResponse? && e.res.mapped.Some?
    ensures t.board.checks[e.i].state == SUCCEEDED && t.nominatedCheck.Some?
    ensures t.completeResult == COMPLETE_SUCCESS || t.completeResult == ALL_COMPLETE
  {
    hide LocalEnd, SortOf, ChannelsOpen, Enabled;
  }

  /** The upper layer hears of completion at most once, and what happened. Where relayed channels
      can be bound it has heard exactly when the level has reached success or failure. A session
      that has failed has a nominated pair exactly if its run holds, after the failure, the replay
      of an early nominating request for a pair whose check has succeeded. */
  lemma UpperLayerNotifiedOnce(s: State, es: seq<(Event, Env)>, t: State)
    requires IsInitial(s) && IsRun(s, es, t)
    ensures t.notices <= 1
    ensures (forall k :: 0 <= k < |es| ==> es[k].1.bindOk) ==>
              (t.notices == 1 <==> t.completeResult >= COMPLETE_SUCCESS)
    ensures t.transport.TransportFailed? <==> t.completeResult == COMPLETE_FAILURE
    ensures t.transport.Running? ==> t.completeResult == COMPLETE_SUCCESS || t.completeResult == ALL_COMPLETE
    ensures t.completeResult == COMPLETE_SUCCESS || t.completeResult == ALL_COMPLETE ==> t.nominatedCheck.Some?
    ensures t.completeResult == COMPLETE_FAILURE ==> (t.nominatedCheck.Some? <==> NominatedAfterFailure(s, es))
  {
    hide Inv, IsRun, Follows, NominatedAfterFailure;
    InitialOk(s);
    RunOk(s, es, t);
    InvParts(t);
    if t.completeResult == COMPLETE_FAILURE {
      FailedRunNominatesIff(s, es, t);
    }
    if forall k :: 0 <= k < |es| ==> es[k].1.bindOk {
      BoundRunIsNotSilent(s, es, t);
    }
  }

  /** A session never reports both outcomes, and its level never falls. */
  lemma OutcomeIsFinal(s: State, es1: seq<(Event, Env)>, t: State, es2: seq<(Event, Env)>, u: State)
    requires IsInitial(s) && IsRun(s, es1, t) && IsRun(t, es2, u)
    ensures t.completeResult <= u.completeResult
    ensures t.transport.Running? ==> u.transport.Running?
    ensures t.transport.TransportFailed? ==> u.transport.TransportFailed?
  {
    InitialOk(s);
    RunOk(s, es1, t);
    RunOk(t, es2, u);
  }

  /** validCheck is the best valid pair, nominatedCheck at least as good as every nominated pair,
      the valid list is sorted, and neither choice ever gets worse. */
  lemma ChoicesAreBest(s: State, es1: seq<(Event, Env)>, t: State, es2: seq<(Event, Env)>, u: State)
    requires IsInitial(s) && IsRun(s, es1, t) && IsRun(t, es2, u)
    ensures ViewsSortedDown(t.valid)
    ensures t.valid != [] ==> t.validCheck.Some? && HasPair(t.valid, t.validCheck.value)
    ensures forall v :: v in t.valid ==> v.pair.priority <= t.validCheck.value.priority
    ensures t.nominatedCheck.Some? ==> HasPair(t.valid, t.nominatedCheck.value)
    ensures forall v :: v in t.valid && v.nominated ==>
                          t.nominatedCheck.Some? && v.pair.priority <= t.nominatedCheck.value.priority
    ensures NotLower(t.validCheck, u.validCheck) && NotLower(t.nominatedCheck, u.nominatedCheck)
  {
    InitialOk(s);
    RunOk(s, es1, t);
    RunOk(t, es2, u);
  }

  /** Succeeded and Failed are absorbing, states only rise, and once no check is Frozen or Waiting
      none ever is again. */
  lemma ChecksOnlyAdvance(s: State, es1: seq<(Event, Env)>, t: State, es2: seq<(Event, Env)>, u: State)
    requires IsInitial(s) && IsRun(s, es1, t) && IsRun(t, es2, u)
    ensures |t.board.checks| <= |u.board.checks|
    ensures forall i :: 0 <= i < |t.board.checks| ==>
                          u.board.checks[i].pair == t.board.checks[i].pair
                          && t.board.checks[i].state <= u.board.checks[i].state
                          && (t.board.checks[i].state >= SUCCEEDED ==>
                             u.board.checks[i].state == t.board.checks[i].state)
    ensures NoneIdle(t.board.checks) ==> NoneIdle(u.board.checks)
  {
    InitialOk(s);
    RunOk(s, es1, t);
    RunOk(t, es2, u);
    forall i | 0 <= i < |t.board.checks|
      ensures CheckGrows(t.board.checks[i], u.board.checks[i])
    {
      GrowsAt(t, u, i);
    }
    if NoneIdle(t.board.checks) {
      NoneIdleStays(t.board, u.board);
    }
  }

  predicate OnlyHigherInProgress(cs: seq<CheckView>, priority: int) {
    forall j :: 0 <= j < |cs| && cs[j].state == IN_PROGRESS ==> cs[j].pair.priority > priority
  }

  /** Section 8.1.2 of RFC 5245: wherever tryCompleteCheck runs for a nominated check that succeeded,
      no check is Frozen or Waiting afterwards, and those in progress have higher priority. */
  lemma NominatedSuccessSettles(s: State, i: nat, env: Env)
    requires Inv(s) && s.begun && i < |s.board.checks|
    requires s.board.checks[i].state == SUCCEEDED && s.board.checks[i].nominated
    ensures TryCompleteCheck(s, i, env).Ok? ==>
              var t := TryCompleteCheck(s, i, env).value;
              NoneIdle(t.board.checks) && OnlyHigherInProgress(t.board.checks, s.board.checks[i].pair.priority)
  {
    hide Inv, BoardOk, SettleBoard, Conclude, NoneIdle;
    InvParts(s);
    SettleLeavesOnlyHigher(s.board, i);
  }

  /** So it is when a response completes a nominated check, in any run, and for the rest of the run
      no Frozen or Waiting check reappears. */
  lemma NominationSettlesTheList(s: State, es1: seq<(Event, Env)>, t: State, e: Event, env: Env,
                                                   es2: seq<(Event, Env)>, u: State)
    requires IsInitial(s) && IsRun(s, es1, t) && Enabled(t, e, env) && e.Respond?
    requires MakesPair(t, e.i, e.from, e.res) && t.board.checks[e.i].nominated
    requires IceSpec.Next(t, e, env).Ok? && IsRun(IceSpec.Next(t, e, env).value, es2, u)
    ensures OnlyHigherInProgress(IceSpec.Next(t, e, env).value.board.checks, t.board.checks[e.i].pair.priority)
    ensures NoneIdle(IceSpec.Next(t, e, env).value.board.checks) && NoneIdle(u.board.checks)
  {
    hide Inv, BoardOk, BoardGrows, SettleBoard, Conclude, NoneIdle, OrderFits, IsRun, MakesPair, ConstructValidPair,
         LearnLocal, MappedLocal, IsInitial, Enabled, Follows, OnlyHigherInProgress;
    InitialOk(s);
    RunOk(s, es1, t);
    RespondBegun(t, e, env);
    ResponseSettles(t, e, env);
    NextOk(t, e, env);
    RunOk(IceSpec.Next(t, e, env).value, es2, u);
    NoneIdleFollows(IceSpec.Next(t, e, env).value, u);
  }

  lemma RespondBegun(s: State, e: Event, env: Env)
    requires Enabled(s, e, env) && e.Respond?
    ensures s.begun && e.i < |s.board.checks|
  {
  }

  lemma NoneIdleFollows(s: State, t: State)
    requires Follows(s, t) && NoneIdle(s.board.checks)
    ensures NoneIdle(t.board.checks)
  {
    hide NoneIdle, BoardGrows;
    NoneIdleStays(s.board, t.board);
  }

  lemma FinishedBoard(s: State, i: nat, to: CheckState, err: CheckError, env: Env)
    requires i < |s.board.checks| && FinishCheck(s, i, to, err, env).Ok?
    ensures ChangeCheckState(s.board, i, to, err).Ok? && SettleBoard(ChangeCheckState(s.board, i, to, err).value, i).Ok?
    ensures FinishCheck(s, i, to, err, env).value.board
            == SettleBoard(ChangeCheckState(s.board, i, to, err).value, i).value
  {
    hide ChangeCheckState, SettleBoard, Conclude;
  }

  lemma LearnLocalKeepsBoard(s: State, i: nat, mapped: string, env: Env)
    requires i < |s.board.checks|
    ensures LearnLocal(s, i, mapped, env).board == s.board
  {
  }

  lemma OnlyHigherMeans(cs: seq<CheckView>, priority: int)
    ensures OnlyHigherInProgress(cs, priority)
            <==> forall j :: 0 <= j < |cs| && cs[j].state == IN_PROGRESS ==> cs[j].pair.priority > priority
  {
  }

  lemma ResponseSettles(s: State, e: Event, env: Env)
    requires Inv(s) && Enabled(s, e, env) && e.Respond? && s.begun
    requires e.i < |s.board.checks| && MakesPair(s, e.i, e.from, e.res) && s.board.checks[e.i].nominated
    requires IceSpec.Next(s, e, env).Ok?
    ensures var t := IceSpec.Next(s, e, env).value;
            NoneIdle(t.board.checks) && OnlyHigherInProgress(t.board.checks, s.board.checks[e.i].pair.priority)
  {
    hide Inv, BoardOk, BoardGrows, SettleBoard, NoneIdle, OrderFits, ConstructValidPair, MappedLocal, FinishCheck,
         ChangeCheckState, Tolerated, OnlyHigherInProgress, LearnLocal;
    InvParts(s);
    var l := LearnLocal(s, e.i, e.res.mapped.value, env);
    LearnLocalKeepsBoard(s, e.i, e.res.mapped.value, env);
    var s1 := ConstructValidPair(l, e.i, MappedLocal(s, e.i, e.res.mapped.value, env), e.order);
    FinishedBoard(s1, e.i, SUCCEEDED, NoError, env);
    OnlyHigherMeans(SettleBoard(ChangeCheckState(s.board, e.i, SUCCEEDED, NoError).value, e.i).value.checks,
                    s.board.checks[e.i].pair.priority);
    ChangeKeeps(s.board, e.i, SUCCEEDED, NoError);
    SettleLeavesOnlyHigher(ChangeCheckState(s.board, e.i, SUCCEEDED, NoError).value, e.i);
  }

  /** Section 7.2.1.4 of RFC 5245: a request that is accepted after the start, from an address that
      is known or can be learned, finds its pair on the check list, in progress or beyond. */
  lemma AcceptedRequestIsListed(s: State, es: seq<(Event, Env)>, t: State, rq: RxRequest, env: Env)
    requires IsInitial(s) && IsRun(s, es, t) && t.begun
    requires JudgeRequest(t.role, t.tieBreaker, rq.controlling, rq.controlled).1.Accepted?
    requires t.completeResult < ALL_COMPLETE && !(t.board.open == {} && t.completeResult == NOT_COMPLETE)
    requires LearnRemote(t, rq.check, env).Some? && IceSpec.Next(t, Request(rq), env).Ok?
    ensures var cs := IceSpec.Next(t, Request(rq), env).value.board.checks;
            exists i :: 0 <= i < |cs| && cs[i].pair.local.addr == rq.check.localAddress
                        && cs[i].pair.remote.addr == rq.check.remoteAddress && cs[i].state >= IN_PROGRESS
  {
    hide Inv, Follows, IsInitial, IsRun, HandleIncomingCheck, LearnRemote;
    InitialOk(s);
    RunOk(s, es, t);
    var t1 := t.(role := JudgeRequest(t.role, t.tieBreaker, rq.controlling, rq.controlled).0);
    RoleOk(t, t1.role);
    LearnRemoteInAnyRole(t, t1.role, rq.check, env);
    IncomingOk(t1, rq.check, env);
  }

  lemma LearnRemoteInAnyRole(s: State, role: Role, rc: RxCheck, env: Env)
    ensures LearnRemote(s.(role := role), rc, env).Some? <==> LearnRemote(s, rc, env).Some?
  {
  }

  // ----- the number of state changes -----

  /** Requests arrive on the addresses the session listens on. */
  predicate EventAtHome(e: Event, home: set<string>) {
    e.Request? ==> e.rq.check.localAddress in home
  }

  predicate AtHome(s: State, home: set<string>) {
    (forall i :: 0 <= i < |s.board.checks| ==> s.board.checks[i].pair.local.addr in home)
    && forall k :: 0 <= k < |s.early| ==> s.early[k].localAddress in home
  }

  /** Only an incoming request lengthens the check list, by a pair on the address it came to. */
  lemma IncomingAtHome(s: State, rc: RxCheck, env: Env)
    ensures
      var out := HandleIncomingCheck(s, rc, env);
      out.Ok? ==>
        out.value.early == s.early
        && (|out.value.board.checks| == |s.board.checks|
            || (|out.value.board.checks| == |s.board.checks| + 1
                && out.value.board.checks[|s.board.checks|].pair.local.addr == rc.localAddress))
  {
    hide TriggerListed, IndexOfPair;
  }

  lemma NextExtends(s: State, e: Event, env: Env)
    requires Enabled(s, e, env) && IceSpec.Next(s, e, env).Ok?
    ensures
      var t := IceSpec.Next(s, e, env).value;
      (t.early == s.early || (e.Request? && t.early == s.early + [e.rq.check]))
      && (|t.board.checks| == |s.board.checks|
          || (|t.board.checks| == |s.board.checks| + 1
              && (e.Request? || e.Replay?)
              && t.board.checks[|s.board.checks|].pair.local.addr
                 == (if e.Request? then e.rq.check.localAddress else s.early[e.k].localAddress)))
  {
    hide OrderFits, FinishCheck, HandleIncomingCheck, ChangeCheckState, CheckSucceeded, IceFailed;
    if e.Request? {
      var (role, verdict) := JudgeRequest(s.role, s.tieBreaker, e.rq.controlling, e.rq.controlled);
      IncomingAtHome(s.(role := role), e.rq.check, env);
    } else if e.Replay? {
      IncomingAtHome(s, s.early[e.k], env);
    }
  }

  lemma NextAtHome(s: State, e: Event, env: Env, home: set<string>)
    requires Inv(s) && Enabled(s, e, env) && IceSpec.Next(s, e, env).Ok?
    requires AtHome(s, home) && EventAtHome(e, home)
    ensures AtHome(IceSpec.Next(s, e, env).value, home)
  {
    hide Inv, Follows, IceSpec.Next;
    var t := IceSpec.Next(s, e, env).value;
    NextOk(s, e, env);
    NextExtends(s, e, env);
    forall i | 0 <= i < |t.board.checks|
      ensures t.board.checks[i].pair.local.addr in home
    {
      if i < |s.board.checks| {
        GrowsAt(s, t, i);
      }
    }
  }

  lemma {:induction false} RunAtHome(s: State, es: seq<(Event, Env)>, t: State, home: set<string>)
    requires Inv(s) && IsRun(s, es, t) && AtHome(s, home)
    requires forall i :: 0 <= i < |es| ==> EventAtHome(es[i].0, home)
    ensures AtHome(t, home)
    decreases |es|
  {
    hide Inv, AtHome, EventAtHome, Enabled, IceSpec.Next;
    if es != [] {
      NextAtHome(s, es[0].0, es[0].1, home);
      NextOk(s, es[0].0, es[0].1);
      RunAtHome(IceSpec.Next(s, es[0].0, es[0].1).value, es[1..], t, home);
    }
  }

  /** The values of an injective function on 0..n are n values. */
  lemma {:induction false} ImageSize(n: nat, f: nat -> (string, string))
    requires forall i: nat, j: nat :: i < j < n ==> f(i) != f(j)
    ensures |set i: nat | i < n :: f(i)| == n
  {
    if n > 0 {
      ImageSize(n - 1, f);
      assert (set i: nat | i < n :: f(i)) == (set i: nat | i < n - 1 :: f(i)) + {f(n - 1)};
    }
  }

  lemma {:induction false} ProductSize(a: set<string>, b: set<string>)
    ensures |set x, y | x in a && y in b :: (x, y)| == |a| * |b|
    decreases |a|
  {
    if a == {} {
      assert (set x, y | x in a && y in b :: (x, y)) == {};
    } else {
      var x0 :| x0 in a;
      ProductSize(a - {x0}, b);
      RowSize(x0, b);
      ProductSplits(a, x0, b);
      assert |a| * |b| == |a - {x0}| * |b| + |b|;
    }
  }

  lemma ProductSplits(a: set<string>, x0: string, b: set<string>)
    requires x0 in a
    ensures |set x, y | x in a && y in b :: (x, y)|
            == |set x, y | x in a - {x0} && y in b :: (x, y)| + |set y | y in b :: (x0, y)|
  {
    var row := set y | y in b :: (x0, y);
    var others := set x, y | x in a - {x0} && y in b :: (x, y);
    assert (set x, y | x in a && y in b :: (x, y)) == others + row && others !! row;
  }

  lemma {:induction false} RowSize(x: string, b: set<string>)
    ensures |set y | y in b :: (x, y)| == |b|
    decreases |b|
  {
    if b != {} {
      var y0 :| y0 in b;
      RowSize(x, b - {y0});
      assert (set y | y in b :: (x, y)) == (set y | y in b - {y0} :: (x, y)) + {(x, y0)};
    } else {
      assert (set y | y in b :: (x, y)) == {};
    }
  }

  lemma SubsetSize(a: set<(string, string)>, b: set<(string, string)>)
    requires a <= b
    ensures |a| <= |b|
  {
    assert b == a + (b - a);
  }

  function Addrs(cs: seq<Candidate>): set<string> {
    set c | c in cs :: c.addr
  }

  lemma {:induction false} AddrsSize(cs: seq<Candidate>)
    ensures |Addrs(cs)| <= |cs|
  {
    if cs != [] {
      var init, c := cs[..|cs| - 1], cs[|cs| - 1];
      AddrsSize(init);
      assert cs == init + [c];
      assert Addrs(cs) == Addrs(init) + {c.addr};
    } else {
      assert Addrs(cs) == {};
    }
  }

  function AddrPair(cs: seq<CheckView>, i: nat): (string, string) {
    if i < |cs| then (cs[i].pair.local.addr, cs[i].pair.remote.addr) else ("", "")
  }

  /** Pairs on the check list differ in their local or their remote address. */
  lemma AddrPairsDistinct(s: State, i: nat, j: nat)
    requires ChecksListed(s.board.checks, s.localCandidates, s.remoteCandidates) && KeysDistinct(s.board.checks)
    requires i < j < |s.board.checks|
    ensures AddrPair(s.board.checks, i) != AddrPair(s.board.checks, j)
  {
    assert PairListed(s.board.checks[i].pair, s.localCandidates, s.remoteCandidates);
    assert PairListed(s.board.checks[j].pair, s.localCandidates, s.remoteCandidates);
  }

  lemma ChecksBound(s: State, home: set<string>)
    requires ChecksListed(s.board.checks, s.localCandidates, s.remoteCandidates) && KeysDistinct(s.board.checks)
    requires AtHome(s, home)
    ensures |s.board.checks| <= |home| * |s.remoteCandidates|
  {
    hide KeysDistinct;
    var cs, remotes := s.board.checks, Addrs(s.remoteCandidates);
    var f := (i: nat) => AddrPair(cs, i);
    forall i: nat, j: nat | i < j < |cs|
      ensures f(i) != f(j)
    {
      AddrPairsDistinct(s, i, j);
    }
    ImageSize(|cs|, f);
    var image := set i: nat | i < |cs| :: f(i);
    var product := set x, y | x in home && y in remotes :: (x, y);
    forall p | p in image
      ensures p in product
    {
      var i: nat :| i < |cs| && p == f(i);
      assert PairListed(cs[i].pair, s.localCandidates, s.remoteCandidates);
      assert cs[i].pair.remote.addr in remotes;
    }
    SubsetSize(image, product);
    ProductSize(home, remotes);
    AddrsSize(s.remoteCandidates);
    TimesMonotone(|home|, |home|, |remotes|, |s.remoteCandidates|);
  }

  lemma InvKeysDistinct(s: State)
    requires Inv(s)
    ensures KeysDistinct(s.board.checks)
    ensures s.board.changes <= 3 * |s.board.checks| && |s.remoteCandidates| <= 9
  {
    WorkBound(s.board.checks);
  }

  /** When requests arrive on the addresses of the initial local candidates, a whole run accepts at
      most 27 state changes per initial local candidate. */
  lemma StateChangesBounded(s: State, es: seq<(Event, Env)>, t: State)
    requires IsInitial(s) && IsRun(s, es, t)
    requires forall k :: 0 <= k < |s.early| ==> s.early[k].localAddress in Addrs(s.localCandidates)
    requires forall i :: 0 <= i < |es| ==> EventAtHome(es[i].0, Addrs(s.localCandidates))
    ensures |t.board.checks| <= 9 * |s.localCandidates|
    ensures t.board.changes <= 27 * |s.localCandidates|
  {
    hide Inv, IsRun, Prune, StableSortOf, EventAtHome;
    var home := Addrs(s.localCandidates);
    InitialOk(s);
    InitialAtHome(s);
    RunOk(s, es, t);
    RunAtHome(s, es, t, home);
    InvKeysDistinct(t);
    InvParts(t);
    ChecksBound(t, home);
    AddrsSize(s.localCandidates);
    TimesMonotone(|home|, |s.localCandidates|, |t.remoteCandidates|, 9);
  }

  lemma TimesMonotone(a: nat, b: nat, c: nat, d: nat)
    requires a <= b && c <= d
    ensures a * c <= b * d
  {
    assert a * c <= b * c <= b * d;
  }

  lemma InitialAtHome(s: State)
    requires Inv(s)
    requires forall k :: 0 <= k < |s.early| ==> s.early[k].localAddress in Addrs(s.localCandidates)
    ensures AtHome(s, Addrs(s.localCandidates))
  {
    forall i | 0 <= i < |s.board.checks|
      ensures s.board.checks[i].pair.local.addr in Addrs(s.localCandidates)
    {
      assert PairListed(s.board.checks[i].pair, s.localCandidates, s.remoteCandidates);
    }
  }
}
