/** What the outcome of a run depends on: when a failed session has a nominated pair, and when the
    upper layer hears of completion. */
module IceOutcome {
  import opened Wrappers
  import opened IceTypes
  import opened Roles
  import opened IceSpec
  import opened IceInvariants

  /** A replay of an early nominating request for a pair whose check has succeeded. */
  predicate NominatingReplay(s: State, e: Event) {
    e.Replay? && e.k < |s.early| && s.early[e.k].userCandidate
    && exists i :: 0 <= i < |s.board.checks| && IsFor(s.board.checks[i], s.early[e.k])
  }

  predicate IsFor(c: CheckView, rc: RxCheck) {
    c.state == SUCCEEDED && c.pair.local.addr == rc.localAddress && c.pair.remote.addr == rc.remoteAddress
  }

  /** Somewhere in the run such a replay comes when the session has failed already. */
  ghost predicate NominatedAfterFailure(s: State, es: seq<(Event, Env)>)
    decreases |es|
  {
    es != [] && Enabled(s, es[0].0, es[0].1)
    && ((s.completeResult == COMPLETE_FAILURE && NominatingReplay(s, es[0].0))
        || (Next(s, es[0].0, es[0].1).Ok? && NominatedAfterFailure(Next(s, es[0].0, es[0].1).value, es[1..])))
  }

  // ----- a step of a failed session -----

  lemma ConcludeKeepsNominated(s: State, env: Env)
    requires Conclude(s, env).Ok?
    ensures Conclude(s, env).value.nominatedCheck == s.nominatedCheck
  {
  }

  lemma TryCompleteKeepsNominated(s: State, i: nat, env: Env)
    requires i < |s.board.checks| && TryCompleteCheck(s, i, env).Ok?
    ensures TryCompleteCheck(s, i, env).value.nominatedCheck == s.nominatedCheck
  {
    hide Conclude, SettleBoard;
    ConcludeKeepsNominated(s.(board := SettleBoard(s.board, i).value), env);
  }

  /** A request for a listed pair nominates one only if it says so and the check has succeeded. */
  lemma TriggerNominates(s: State, i: nat, userCandidate: bool, env: Env)
    requires Inv(s) && s.begun && i < |s.board.checks| && s.nominatedCheck.None?
    requires TriggerListed(s, i, userCandidate, env).Ok?
    ensures TriggerListed(s, i, userCandidate, env).value.nominatedCheck.Some?
            <==> userCandidate && s.board.checks[i].state == SUCCEEDED
  {
    hide Inv, TryCompleteCheck, ChangeCheckState, NominateValid;
    var c := s.board.checks[i];
    if c.state == SUCCEEDED {
      if userCandidate {
        UserCandidateNominates(s, i, env);
      } else {
        TryCompleteKeepsNominated(s.(board := SetNominated(s.board, i, c.nominated)), i, env);
      }
    }
  }

  /** The pair of a listed check is found again by its two addresses. */
  lemma ListedPairIsFound(s: State, i: nat)
    requires Inv(s) && s.begun && i < |s.board.checks|
    ensures var p := s.board.checks[i].pair;
            FirstWith(s.localCandidates, p.local.addr) == Some(p.local)
            && FirstWith(s.remoteCandidates, p.remote.addr) == Some(p.remote)
            && IndexOfPair(s.board.checks, p.local, p.remote, 0) == i
  {
    var p := s.board.checks[i].pair;
    assert PairListed(p, s.localCandidates, s.remoteCandidates);
    FirstWithDistinct(s.remoteCandidates, p.remote);
    KeyOfPair(s, IndexOfPair(s.board.checks, p.local, p.remote, 0));
    KeyOfPair(s, i);
  }

  lemma KeyOfPair(s: State, i: nat)
    requires Inv(s) && i < |s.board.checks|
    ensures s.board.checks[i].pair.key == Key(s.board.checks[i].pair.local, s.board.checks[i].pair.remote)
  {
    assert PairListed(s.board.checks[i].pair, s.localCandidates, s.remoteCandidates);
  }

  /** Which replays nominate a pair where there was none. */
  lemma ReplayNominates(s: State, k: nat, env: Env)
    requires Inv(s) && s.begun && k < |s.early| && s.nominatedCheck.None? && ReplayEarly(s, k, env).Ok?
    ensures ReplayEarly(s, k, env).value.nominatedCheck.Some? <==> NominatingReplay(s, Replay(k))
  {
    hide Inv, TriggerListed, LearnRemote, IndexOfPair, FirstWith;
    var rc := s.early[k];
    var learned := LearnRemote(s, rc, env);
    if NominatingReplay(s, Replay(k)) {
      var i :| 0 <= i < |s.board.checks| && IsFor(s.board.checks[i], rc);
      ListedPairIsFound(s, i);
      KnownRemote(s, rc, env);
      TriggerNominates(s, i, true, env);
    } else if learned.Some? {
      LearnRemoteOk(s, rc, env);
      LearnedOnly(s, rc, env);
      var l := FirstWith(s.localCandidates, rc.localAddress);
      var r := FirstWith(learned.value.remoteCandidates, rc.remoteAddress).value;
      if l.Some? {
        var i := IndexOfPair(s.board.checks, l.value, r, 0);
        if i < |s.board.checks| {
          TriggerNominates(learned.value, i, rc.userCandidate, env);
          assert !IsFor(s.board.checks[i], rc) || !rc.userCandidate;
        }
      }
    }
  }

  lemma KnownRemote(s: State, rc: RxCheck, env: Env)
    requires FirstWith(s.remoteCandidates, rc.remoteAddress).Some?
    ensures LearnRemote(s, rc, env) == Some(s)
  {
  }

  lemma LearnedOnly(s: State, rc: RxCheck, env: Env)
    requires LearnRemote(s, rc, env).Some?
    ensures LearnRemote(s, rc, env).value == s.(remoteCandidates := LearnRemote(s, rc, env).value.remoteCandidates)
  {
  }

  /** The exact condition for one step: of all events only such a replay gives a failed session a
      nominated pair, and it always does. */
  lemma FailedSessionNominatesIff(s: State, e: Event, env: Env)
    requires Inv(s) && s.completeResult == COMPLETE_FAILURE && s.nominatedCheck.None?
    requires Enabled(s, e, env) && Next(s, e, env).Ok?
    ensures Next(s, e, env).value.nominatedCheck.Some? <==> NominatingReplay(s, e)
  {
    hide Inv, TryCompleteCheck, ReplayEarly, ChangeCheckState, OrderFits, HandleIncomingCheck, NominatingReplay,
         JudgeRequest;
    FailedHasBegun(s);
    NotAReplay(s, e);
    match e {
      case Replay(k) => ReplayNominates(s, k, env);
      case TryFailed(i) =>
        if s.board.checks[i].state < SUCCEEDED {
          TryCompleteKeepsNominated(s.(board := ChangeCheckState(s.board, i, FAILED, TriedTooManyTimes).value), i, env);
        }
      case _ =>
    }
  }

  lemma FailedHasBegun(s: State)
    requires Inv(s) && s.completeResult == COMPLETE_FAILURE
    ensures s.begun
  {
  }

  lemma NotAReplay(s: State, e: Event)
    ensures NominatingReplay(s, e) ==> e.Replay?
  {
  }

  // ----- how a session fails, and how it stays silent -----

  /** A step that fails the session leaves nothing nominated, and where a channel can be bound it
      does not keep completion from the upper layer. */
  predicate Honest(s: State, t: State, env: Env) {
    (t.completeResult == COMPLETE_FAILURE && s.completeResult != COMPLETE_FAILURE ==> t.nominatedCheck.None?)
    && (env.bindOk && t.silent ==> s.silent)
  }

  /** The level and the notices are as they were. */
  predicate SameLevel(s: State, t: State) {
    t.completeResult == s.completeResult && t.silent == s.silent
  }

  lemma ConcludeHonest(s: State, env: Env)
    requires Conclude(s, env).Ok?
    ensures Honest(s, Conclude(s, env).value, env)
  {
  }

  lemma TryCompleteHonest(s: State, i: nat, env: Env)
    requires i < |s.board.checks| && TryCompleteCheck(s, i, env).Ok?
    ensures Honest(s, TryCompleteCheck(s, i, env).value, env)
  {
    hide Conclude, SettleBoard;
    ConcludeHonest(s.(board := SettleBoard(s.board, i).value), env);
  }

  lemma FinishHonest(s: State, i: nat, to: CheckState, err: CheckError, env: Env)
    requires i < |s.board.checks| && FinishCheck(s, i, to, err, env).Ok?
    ensures Honest(s, FinishCheck(s, i, to, err, env).value, env)
  {
    hide TryCompleteCheck, ChangeCheckState;
    TryCompleteHonest(s.(board := ChangeCheckState(s.board, i, to, err).value), i, env);
  }

  lemma {:induction false} NominateValidSameLevel(s: State, remote: Candidate, k: nat)
    requires k <= |s.valid|
    ensures SameLevel(s, NominateValid(s, remote, k))
    decreases |s.valid| - k
  {
    if k < |s.valid| {
      if s.valid[k].pair.remote == remote {
        var v := s.valid[k].(nominated := true);
        NominateValidSameLevel(MarkValidAndNominated(s.(valid := s.valid[k := v]), v), remote, k + 1);
      } else {
        NominateValidSameLevel(s, remote, k + 1);
      }
    }
  }

  lemma TriggerHonest(s: State, i: nat, userCandidate: bool, env: Env)
    requires i < |s.board.checks| && TriggerListed(s, i, userCandidate, env).Ok?
    ensures Honest(s, TriggerListed(s, i, userCandidate, env).value, env)
  {
    hide TryCompleteCheck, ChangeCheckState, NominateValid;
    var c := s.board.checks[i];
    if c.state == SUCCEEDED {
      var s1 := s.(board := SetNominated(s.board, i, userCandidate || c.nominated));
      NominateValidSameLevel(s1, c.pair.remote, 0);
      TryCompleteHonest(if userCandidate then NominateValid(s1, c.pair.remote, 0) else s1, i, env);
    }
  }

  lemma IncomingHonest(s: State, rc: RxCheck, env: Env)
    requires HandleIncomingCheck(s, rc, env).Ok?
    ensures Honest(s, HandleIncomingCheck(s, rc, env).value, env)
  {
    hide TriggerListed, LearnRemote, IndexOfPair, FirstWith;
    var s1 := LearnRemote(s, rc, env);
    if s1.Some? && FirstWith(s1.value.localCandidates, rc.localAddress).Some? {
      LearnedOnly(s, rc, env);
      var l := FirstWith(s.localCandidates, rc.localAddress).value;
      var r := FirstWith(s1.value.remoteCandidates, rc.remoteAddress).value;
      var i := IndexOfPair(s.board.checks, l, r, 0);
      if i < |s.board.checks| {
        TriggerHonest(s1.value, i, rc.userCandidate, env);
      }
    }
  }

  lemma CheckSucceededHonest(s: State, i: nat, mapped: string, order: seq<CheckView>, env: Env)
    requires i < |s.board.checks| && CheckSucceeded(s, i, mapped, order, env).Ok?
    ensures Honest(s, CheckSucceeded(s, i, mapped, order, env).value, env)
  {
    hide FinishCheck, IndexOfPair, MappedLocal, ValidPairFor;
    var s1 := ConstructValidPair(LearnLocal(s, i, mapped, env), i, MappedLocal(s, i, mapped, env), order);
    FinishHonest(s1, i, SUCCEEDED, NoError, env);
  }

  lemma NextHonest(s: State, e: Event, env: Env)
    requires Enabled(s, e, env) && Next(s, e, env).Ok?
    ensures Honest(s, Next(s, e, env).value, env)
  {
    hide FinishCheck, ChangeCheckState, OrderFits, HandleIncomingCheck, CheckSucceeded, JudgeRequest;
    match e {
      case Replay(k) => IncomingHonest(s, s.early[k], env);
      case Request(rq) =>
        var (role, verdict) := JudgeRequest(s.role, s.tieBreaker, rq.controlling, rq.controlled);
        if HandleIncomingCheck(s.(role := role), rq.check, env).Ok? {
          IncomingHonest(s.(role := role), rq.check, env);
        }
      case Respond(i, from, res, order) => RespondHonest(s, i, from, res, order, env);
      case TryFailed(i) =>
        if s.board.checks[i].state < SUCCEEDED {
          FinishHonest(s, i, FAILED, TriedTooManyTimes, env);
        }
      case _ =>
    }
  }

  lemma RespondHonest(s: State, i: nat, from: string, res: Response, order: seq<CheckView>, env: Env)
    requires i < |s.board.checks| && ProcessBindingResponse(s, i, from, res, order, env).Ok?
    ensures Honest(s, ProcessBindingResponse(s, i, from, res, order, env).value, env)
  {
    hide FinishCheck, CheckSucceeded, Honest;
    SelfHonest(s, env);
    if s.board.checks[i].state < SUCCEEDED && s.completeResult < ALL_COMPLETE {
      match res {
        case ErrorResponse(roleConflict, hasControlled, hasControlling) =>
          if !roleConflict {
            FinishHonest(s, i, FAILED, UnknownErrorCode, env);
          }
        case SuccessResponse(mapped) =>
          if s.board.checks[i].pair.remote.addr != from {
            FinishHonest(s, i, FAILED, UnknownAddress, env);
          } else if mapped.None? {
            FinishHonest(s, i, FAILED, NoMappedAddress, env);
          } else {
            CheckSucceededHonest(s, i, mapped.value, order, env);
          }
      }
    }
  }

  lemma SelfHonest(s: State, env: Env)
    ensures forall role :: Honest(s, s.(role := role), env)
    ensures Honest(s, s, env)
  {
  }

  // ----- whole runs -----

  /** The level of a failed session does not change, and a nominated pair does not go away. */
  lemma FollowsFailure(s: State, t: State)
    requires Follows(s, t)
    ensures s.completeResult == COMPLETE_FAILURE ==> t.completeResult == COMPLETE_FAILURE
    ensures s.nominatedCheck.Some? ==> t.nominatedCheck.Some?
  {
  }

  /** A failed session has a nominated pair if and only if it had one when the run began, or its run
      holds a nominating replay after the failure. */
  lemma {:induction false} FailedRunNominatesIff(s: State, es: seq<(Event, Env)>, t: State)
    requires Inv(s) && IsRun(s, es, t) && t.completeResult == COMPLETE_FAILURE
    ensures t.nominatedCheck.Some?
            <==> (s.completeResult == COMPLETE_FAILURE && s.nominatedCheck.Some?) || NominatedAfterFailure(s, es)
    decreases |es|
  {
    hide Inv, Follows, Enabled, Next, NominatingReplay;
    if es != [] {
      var e, env := es[0].0, es[0].1;
      var u := Next(s, e, env).value;
      NextOk(s, e, env);
      FollowsFailure(s, u);
      FailedRunNominatesIff(u, es[1..], t);
      NextHonest(s, e, env);
      if s.completeResult == COMPLETE_FAILURE {
        if s.nominatedCheck.None? {
          FailedSessionNominatesIff(s, e, env);
        } else {
          RunOk(u, es[1..], t);
          FollowsFailure(u, t);
        }
      }
    }
  }

  /** In a run in which every relayed channel can be bound, completion is never kept back. */
  lemma {:induction false} BoundRunIsNotSilent(s: State, es: seq<(Event, Env)>, t: State)
    requires IsRun(s, es, t) && !s.silent
    requires forall k :: 0 <= k < |es| ==> es[k].1.bindOk
    ensures !t.silent
    decreases |es|
  {
    hide Enabled, Next;
    if es != [] {
      NextHonest(s, es[0].0, es[0].1);
      BoundRunIsNotSilent(Next(s, es[0].0, es[0].1).value, es[1..], t);
    }
  }
}
