/** When a step of the session panics: for every state with the invariant and every event, in terms
    of the state before the step. */
module IcePanics {
  import opened Wrappers
  import opened IceTypes
  import opened Roles
  import opened IceSpec
  import opened IceBoard
  import opened IceInvariants
  import opened IceOutcome

  /** Check i is the last to finish: every other one has, or is about to be canceled for a nominated
      success of check i. */
  predicate LastToFinish(cs: seq<CheckView>, i: nat, nominatedSuccess: bool)
    requires i < |cs|
  {
    forall j :: 0 <= j < |cs| && j != i ==>
      cs[j].state >= SUCCEEDED || (nominatedSuccess && Cancelable(cs[j], cs[i].pair.priority))
  }

  /** The panic that an outcome is, if it is one. */
  function PanicOf<T>(r: Step<T>): Option<PanicKind> {
    match r
    case Ok(_) => None
    case Panic(why) => Some(why)
  }

  /** What completion runs into, from whether all checks have finished and which pairs there are: the
      level does not rise, no socket is found for the nominated pair, or an agent that neither
      nominates nor is controlled has nothing to do. */
  function CompletionPanic(s: State, done: bool, nominated: bool, valid: bool, env: Env): Option<PanicKind> {
    if nominated then
      if done && s.completeResult >= ALL_COMPLETE then Some(LevelMustIncrease)
      else if !env.senderFound then Some(NoServerSock)
      else None
    else if !done then None
    else if s.role.Controlled? then
      if s.completeResult >= (if valid then CHECK_COMPLETE else COMPLETE_FAILURE) then Some(LevelMustIncrease) else None
    else if !s.isNominating then Some(NotImplemented)
    else if s.completeResult == COMPLETE_FAILURE then Some(LevelMustIncrease)
    else None
  }

  function FailurePanic(s: State, i: nat, env: Env): Option<PanicKind>
    requires i < |s.board.checks|
  {
    CompletionPanic(s, LastToFinish(s.board.checks, i, false), s.nominatedCheck.Some?, s.validCheck.Some?, env)
  }

  /** A request panics on an unknown local address, and for a pair whose check has succeeded where
      completion does. */
  ghost function RequestPanic(s: State, rc: RxCheck, env: Env): Option<PanicKind> {
    if (forall c :: c in s.remoteCandidates ==> c.addr != rc.remoteAddress) && |s.remoteCandidates| > 8 then None
    else if forall c :: c in s.localCandidates ==> c.addr != rc.localAddress then Some(NilLocalCandidate)
    else if i :| 0 <= i < |s.board.checks| && IsFor(s.board.checks[i], rc) then
      CompletionPanic(s, LastToFinish(s.board.checks, i, rc.userCandidate || s.board.checks[i].nominated),
                      s.nominatedCheck.Some? || rc.userCandidate, true, env)
    else None
  }

  function ResponsePanic(s: State, i: nat, from: string, res: Response, env: Env): Option<PanicKind>
    requires i < |s.board.checks|
  {
    var c := s.board.checks[i];
    if c.state >= SUCCEEDED || s.completeResult >= ALL_COMPLETE then None
    else match res
      case ErrorResponse(roleConflict, _, _) => if roleConflict then None else FailurePanic(s, i, env)
      case SuccessResponse(mapped) =>
        if c.pair.remote.addr != from || mapped.None? then FailurePanic(s, i, env)
        else CompletionPanic(s, LastToFinish(s.board.checks, i, c.nominated),
                             s.nominatedCheck.Some? || c.nominated, true, env)
  }

  ghost function StepPanic(s: State, e: Event, env: Env): Option<PanicKind>
    requires Enabled(s, e, env)
  {
    match e
    case Replay(k) => RequestPanic(s, s.early[k], env)
    case Request(rq) =>
      var (role, verdict) := JudgeRequest(s.role, s.tieBreaker, rq.controlling, rq.controlled);
      if !verdict.Accepted? || s.completeResult >= ALL_COMPLETE
         || (s.board.open == {} && s.completeResult == NOT_COMPLETE) then None
      else RequestPanic(s.(role := role), rq.check, env)
    case Respond(i, from, res, _) => ResponsePanic(s, i, from, res, env)
    case TryFailed(i) => if s.board.checks[i].state >= SUCCEEDED then None else FailurePanic(s, i, env)
    case Timeout =>
      if s.nominatedCheck.None? && s.completeResult == COMPLETE_FAILURE then Some(LevelMustIncrease) else None
    case _ => None
  }

  // ----- completion -----

  lemma ConcludePanicsExactly(s: State, env: Env)
    requires LevelOk(s) && BoardOk(s.board)
    ensures PanicOf(Conclude(s, env))
            == CompletionPanic(s, AllFinished(s.board.checks), s.nominatedCheck.Some?, s.validCheck.Some?, env)
  {
    if AllFinished(s.board.checks) {
      NoneOpenWhenFinished(s.board.checks);
    }
  }

  lemma SettledFinished(b: Board, i: nat)
    requires BoardOk(b) && i < |b.checks| && b.checks[i].state >= SUCCEEDED
    ensures SettleBoard(b, i).Ok?
    ensures AllFinished(SettleBoard(b, i).value.checks)
            <==> LastToFinish(b.checks, i, b.checks[i].state == SUCCEEDED && b.checks[i].nominated)
  {
    hide BoardOk, BoardGrows;
    SettleBoardKeeps(b, i);
    ErrorMeansFailed(b, i);
    var c := b.checks[i];
    if c.state == SUCCEEDED {
      UnfreezeKeeps(b, c.pair.local.foundation, 0);
      var b1 := Unfreeze(b, c.pair.local.foundation, 0).value;
      if c.nominated {
        CancelLowerKeeps(b1, c.pair.priority, 0);
        var d := CancelLower(b1, c.pair.priority, 0).value;
        forall j | 0 <= j < |b.checks|
          ensures d.checks[j].state >= SUCCEEDED
                  <==> b.checks[j].state >= SUCCEEDED || Cancelable(b.checks[j], c.pair.priority)
        {
          assert d.checks[j] == CanceledAt(Thawed(b.checks[j], c.pair.local.foundation), c.pair.priority);
        }
      } else {
        assert forall j :: 0 <= j < |b.checks| ==>
                             b1.checks[j] == Thawed(b.checks[j], c.pair.local.foundation);
      }
    }
  }

  lemma TryCompletePanicsExactly(s: State, i: nat, env: Env)
    requires Inv(s) && s.begun && i < |s.board.checks| && s.board.checks[i].state >= SUCCEEDED
    ensures PanicOf(TryCompleteCheck(s, i, env))
            == CompletionPanic(s, LastToFinish(s.board.checks, i, s.board.checks[i].state == SUCCEEDED
                                                                     && s.board.checks[i].nominated),
                                  s.nominatedCheck.Some?, s.validCheck.Some?, env)
  {
    hide Inv, BoardOk, BoardGrows, SettleBoard, Conclude, LastToFinish, LevelOk, CompletionPanic, AllFinished;
    InvParts(s);
    SettledFinished(s.board, i);
    SettleBoardKeeps(s.board, i);
    var s1 := s.(board := SettleBoard(s.board, i).value);
    BoardDoesNotMatter(s, s1.board);
    ConcludePanicsExactly(s1, env);
  }

  /** The level, and what completion runs into, do not look at the check list. */
  lemma BoardDoesNotMatter(s: State, b: Board)
    ensures LevelOk(s) <==> LevelOk(s.(board := b))
    ensures forall done, nominated, valid, env ::
              CompletionPanic(s.(board := b), done, nominated, valid, env)
              == CompletionPanic(s, done, nominated, valid, env)
  {
  }

  lemma FinishPanicsExactly(s: State, i: nat, to: CheckState, err: CheckError, env: Env)
    requires Inv(s) && s.begun && i < |s.board.checks| && s.board.checks[i].state < SUCCEEDED
    requires to == SUCCEEDED || to == FAILED
    requires err.NoError? <==> to != FAILED
    requires to == SUCCEEDED ==> HasRemote(s.valid, s.board.checks[i].pair.remote)
    ensures PanicOf(FinishCheck(s, i, to, err, env))
            == CompletionPanic(s, LastToFinish(s.board.checks, i, to == SUCCEEDED && s.board.checks[i].nominated),
                                  s.nominatedCheck.Some?, s.validCheck.Some?, env)
  {
    hide Inv, BoardOk, BoardGrows, TryCompleteCheck, ChangeCheckState, CompletionPanic, LastToFinish, Follows,
         HasRemote;
    InvParts(s);
    ChangeKeeps(s.board, i, to, err);
    FinishedInv(s, i, to, err);
    var b := ChangeCheckState(s.board, i, to, err).value;
    TryCompletePanicsExactly(s.(board := b), i, env);
    BoardDoesNotMatter(s, b);
    var c := s.board.checks[i];
    OnlyOthersMatter(s.board.checks, i, c.(state := to, err := err), to == SUCCEEDED && c.nominated);
  }

  lemma OnlyOthersMatter(cs: seq<CheckView>, i: nat, c: CheckView, nominatedSuccess: bool)
    requires i < |cs| && c.pair == cs[i].pair
    ensures LastToFinish(cs[i := c], i, nominatedSuccess) <==> LastToFinish(cs, i, nominatedSuccess)
  {
    assert forall j :: 0 <= j < |cs| && j != i ==> cs[i := c][j] == cs[j];
  }

  // ----- requests -----

  /** Which pairs there are when a request for a succeeded check comes to completion. */
  lemma TriggerPanicsExactly(s: State, i: nat, userCandidate: bool, env: Env)
    requires Inv(s) && s.begun && i < |s.board.checks|
    ensures var c := s.board.checks[i];
            PanicOf(TriggerListed(s, i, userCandidate, env))
            == if c.state != SUCCEEDED then None
               else CompletionPanic(s, LastToFinish(s.board.checks, i, userCandidate || c.nominated),
                                    s.nominatedCheck.Some? || userCandidate, true, env)
  {
    hide Inv, Follows, TryCompleteCheck, NominateValid, ChangeCheckState, CompletionPanic, LastToFinish, BoardOk;
    var c := s.board.checks[i];
    var nominated := userCandidate || c.nominated;
    FlagCheckOk(s, i, nominated);
    var s1 := s.(board := SetNominated(s.board, i, nominated));
    InvParts(s1);
    if c.state < SUCCEEDED {
      OpenIfUnfinished(s1.board, i);
      if c.state < IN_PROGRESS {
        RaiseOk(s1, i, IN_PROGRESS);
      }
    } else if c.state == SUCCEEDED {
      var s2 := if userCandidate then NominateValid(s1, c.pair.remote, 0) else s1;
      SucceededHasValid(s1, i);
      NominatedPairs(s1, i, userCandidate);
      TryCompletePanicsExactly(s2, i, env);
      BoardDoesNotMatter(s, s1.board);
      OnlyOthersMatter(s.board.checks, i, c.(nominated := nominated), nominated);
      LevelMatters(s1, s2);
    }
  }

  lemma NominatedPairs(s: State, i: nat, userCandidate: bool)
    requires Inv(s) && s.begun && i < |s.board.checks| && s.board.checks[i].state == SUCCEEDED
    ensures var t := if userCandidate then NominateValid(s, s.board.checks[i].pair.remote, 0) else s;
            Inv(t) && t.begun && t.board == s.board && SameCourse(s, t) && t.validCheck.Some?
            && (t.nominatedCheck.Some? <==> s.nominatedCheck.Some? || userCandidate)
  {
    hide Inv, Follows, BoardOk, LevelOk, ChecksListed, CandidatesOk, ValidOk, SuccessWitnessed;
    InvParts(s);
    SucceededHasValid(s, i);
    var remote := s.board.checks[i].pair.remote;
    if userCandidate {
      NominateValidOk(s, remote, 0);
      var t := NominateValid(s, remote, 0);
      OnlyValidOk(s, t);
      SucceededHasValid(t, i);
    }
  }

  /** What else completion looks at. */
  predicate SameCourse(s: State, t: State) {
    t.completeResult == s.completeResult && t.role == s.role && t.isNominating == s.isNominating
  }

  lemma LevelMatters(s: State, t: State)
    requires SameCourse(s, t)
    ensures forall done, nominated, valid, env ::
              CompletionPanic(t, done, nominated, valid, env) == CompletionPanic(s, done, nominated, valid, env)
  {
  }

  lemma IncomingPanicsExactly(s: State, rc: RxCheck, env: Env)
    requires Inv(s) && s.begun
    ensures PanicOf(HandleIncomingCheck(s, rc, env)) == RequestPanic(s, rc, env)
  {
    hide Inv, TriggerListed, LearnRemote, IndexOfPair, FirstWith, CompletionPanic, LastToFinish;
    var learned := LearnRemote(s, rc, env);
    RoomToLearn(s, rc, env);
    if learned.Some? && FirstWith(s.localCandidates, rc.localAddress).Some? {
      LearnRemoteOk(s, rc, env);
      LearnedOnly(s, rc, env);
      var s1 := learned.value;
      LevelMatters(s, s1);
      var l := FirstWith(s.localCandidates, rc.localAddress).value;
      var r := FirstWith(s1.remoteCandidates, rc.remoteAddress).value;
      var i := IndexOfPair(s.board.checks, l, r, 0);
      if i < |s.board.checks| {
        TriggerPanicsExactly(s1, i, rc.userCandidate, env);
        assert s1.board == s.board && s1.nominatedCheck == s.nominatedCheck;
      }
      forall j | 0 <= j < |s.board.checks| && IsFor(s.board.checks[j], rc)
        ensures j == i
      {
        ListedPairIsFound(s1, j);
      }
    }
  }

  lemma RoomToLearn(s: State, rc: RxCheck, env: Env)
    ensures LearnRemote(s, rc, env).Some?
            <==> FirstWith(s.remoteCandidates, rc.remoteAddress).Some? || |s.remoteCandidates| <= MAX_CANDIDATES
  {
  }

  // ----- responses -----

  lemma ResponsePanicsExactly(s: State, i: nat, from: string, res: Response, order: seq<CheckView>, env: Env)
    requires Inv(s) && Enabled(s, Respond(i, from, res, order), env)
    ensures PanicOf(ProcessBindingResponse(s, i, from, res, order, env)) == ResponsePanic(s, i, from, res, env)
  {
    hide Inv, FinishCheck, CheckSucceeded, CompletionPanic, LastToFinish, OrderFits, HasRemote, BoardOk;
    var c := s.board.checks[i];
    if c.state < SUCCEEDED && s.completeResult < ALL_COMPLETE {
      match res {
        case ErrorResponse(roleConflict, _, _) =>
          if roleConflict {
            InvParts(s);
            OpenIfUnfinished(s.board, i);
          } else {
            FinishPanicsExactly(s, i, FAILED, UnknownErrorCode, env);
          }
        case SuccessResponse(mapped) =>
          if c.pair.remote.addr != from {
            FinishPanicsExactly(s, i, FAILED, UnknownAddress, env);
          } else if mapped.None? {
            FinishPanicsExactly(s, i, FAILED, NoMappedAddress, env);
          } else {
            SuccessPanicsExactly(s, i, mapped.value, order, env);
          }
      }
    }
  }

  lemma SuccessPanicsExactly(s: State, i: nat, mapped: AddrText, order: seq<CheckView>, env: Env)
    requires Inv(s) && s.begun && i < |s.board.checks| && s.board.checks[i].state < SUCCEEDED
    requires s.completeResult < ALL_COMPLETE
    requires OrderFits(LearnLocal(s, i, mapped, env), i, MappedLocal(s, i, mapped, env), order)
    ensures PanicOf(CheckSucceeded(s, i, mapped, order, env))
            == CompletionPanic(s, LastToFinish(s.board.checks, i, s.board.checks[i].nominated),
                                  s.nominatedCheck.Some? || s.board.checks[i].nominated, true, env)
  {
    hide Inv, FinishCheck, CompletionPanic, LastToFinish, OrderFits, HasRemote, BoardOk, LearnLocal, MappedLocal,
         Follows;
    var l := LearnLocal(s, i, mapped, env);
    var local := MappedLocal(s, i, mapped, env);
    LearnLocalOk(s, i, mapped, env);
    LearnLocalChangesLocals(s, i, mapped, env);
    ConstructedPairs(l, i, local, order);
    var s1 := ConstructValidPair(l, i, local, order);
    FinishPanicsExactly(s1, i, SUCCEEDED, NoError, env);
    LevelMatters(s, s1);
  }

  lemma LearnLocalChangesLocals(s: State, i: nat, mapped: string, env: Env)
    requires i < |s.board.checks|
    ensures var t := LearnLocal(s, i, mapped, env);
            t == s.(localCandidates := t.localCandidates)
  {
  }

  lemma ConstructedPairs(s: State, i: nat, l: Candidate, order: seq<CheckView>)
    requires Inv(s) && s.begun && i < |s.board.checks| && OrderFits(s, i, l, order)
    ensures var t := ConstructValidPair(s, i, l, order);
            Inv(t) && t.begun && t.board == s.board && SameCourse(s, t) && t.validCheck.Some?
            && HasRemote(t.valid, s.board.checks[i].pair.remote)
            && (t.nominatedCheck.Some? <==> s.nominatedCheck.Some? || s.board.checks[i].nominated)
  {
    hide Inv, Follows, BoardOk, LevelOk, ChecksListed, CandidatesOk, ValidOk, SuccessWitnessed, OrderFits, HasRemote;
    InvParts(s);
    ConstructValidPairOk(s, i, l, order);
    OnlyValidOk(s, ConstructValidPair(s, i, l, order));
  }

  // ----- any event -----

  /** The exact condition: a step panics if and only if its event, in the state before it, is one that
      the conditions above name. */
  lemma NextPanicsExactly(s: State, e: Event, env: Env)
    requires Inv(s) && Enabled(s, e, env)
    ensures PanicOf(Next(s, e, env)) == StepPanic(s, e, env)
  {
    hide Inv, FinishCheck, HandleIncomingCheck, ProcessBindingResponse, RequestPanic, ResponsePanic, OrderFits,
         ChangeCheckState, LastToFinish, CompletionPanic, JudgeRequest, HasRemote;
    match e {
      case Start =>
      case First(i) => RaiseOk(s, i, WAITING);
      case Launch(i, phase) => RaiseOk(s, i, IN_PROGRESS);
      case Nominate(i) =>
      case Replay(k) => IncomingPanicsExactly(s, s.early[k], env);
      case Request(rq) =>
        var (role, verdict) := JudgeRequest(s.role, s.tieBreaker, rq.controlling, rq.controlled);
        if verdict.Accepted? && !(s.board.open == {} && s.completeResult == NOT_COMPLETE) {
          RoleOk(s, role);
          NotEarlyHasBegun(s);
          IncomingPanicsExactly(s.(role := role), rq.check, env);
        }
      case Respond(i, from, res, order) => ResponsePanicsExactly(s, i, from, res, order, env);
      case TryFailed(i) =>
        if s.board.checks[i].state < SUCCEEDED {
          FinishPanicsExactly(s, i, FAILED, TriedTooManyTimes, env);
        }
      case Timeout => TimeoutPanicsExactly(s);
    }
  }

  lemma TimeoutPanicsExactly(s: State)
    requires Inv(s)
    ensures PanicOf(NominationTimeout(s))
            == if s.nominatedCheck.None? && s.completeResult == COMPLETE_FAILURE then Some(LevelMustIncrease) else None
  {
  }
}
