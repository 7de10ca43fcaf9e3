/** What every event does to the session, said of the states before and after it alone: a second
    description of the transitions, which a step meets and which leaves nothing open. */
module IceEffects {
  import opened Wrappers
  import opened PairPriority
  import opened IceTypes
  import opened Roles
  import opened IceSpec
  import opened IceBoard
  import opened IceInvariants
  import opened IceOutcome

  // ----- the description -----

  predicate IsPairOf(c: CheckView, l: Candidate, r: Candidate) {
    c.pair.local == l && c.pair.remote == r
  }

  function PairOf(role: Role, l: Candidate, r: Candidate): Pair {
    Pair(l, r, l.addr + "-" + r.addr, CalcPairPriority(role, l.priority, r.priority))
  }

  /** Section 7.1.2.2.2 and 8.1.2 of RFC 5245: check i is now c. If it has succeeded and is nominated,
      every check not yet started, and every one in progress with at most its priority, is canceled;
      if it has succeeded, frozen checks with its foundation wait. */
  predicate Settled(cs: seq<CheckView>, i: nat, c: CheckView, ds: seq<CheckView>) {
    |ds| == |cs| && i < |cs| && ds[i] == c
    && forall j :: 0 <= j < |cs| && j != i ==>
         var (b, d) := (cs[j], ds[j]);
         if c.state == SUCCEEDED && c.nominated
            && (b.state < IN_PROGRESS || (b.state == IN_PROGRESS && b.pair.priority <= c.pair.priority)) then
           d == b.(state := FAILED, err := Canceled)
         else if c.state == SUCCEEDED && b.state == FROZEN
                 && b.pair.local.foundation == c.pair.local.foundation then
           d == b.(state := WAITING)
         else d == b
  }

  predicate Done(cs: seq<CheckView>) {
    forall j :: 0 <= j < |cs| ==> cs[j].state == SUCCEEDED || cs[j].state == FAILED
  }

  /** Completion after the check list has settled. With a nominated pair all is complete exactly when
      every check is done; without one nothing happens until then, and a controlled agent with a
      valid pair starts to wait, while any other fails. The upper layer hears of success or failure
      when it is reached, unless a relayed channel cannot be bound. */
  predicate Concluded(s: State, t: State, env: Env) {
    var reached := s.completeResult < COMPLETE_SUCCESS && t.completeResult >= COMPLETE_SUCCESS;
    var held := t.completeResult == ALL_COMPLETE && t.nominatedCheck.Some?
                && t.nominatedCheck.value.local.ctype.Relay? && !env.bindOk;
    t.completeResult
    == (if t.nominatedCheck.Some? then
          if Done(t.board.checks) then ALL_COMPLETE
          else if s.completeResult < COMPLETE_SUCCESS then COMPLETE_SUCCESS
          else s.completeResult
        else if !Done(t.board.checks) then s.completeResult
        else if t.role.Controlled? && t.validCheck.Some? then CHECK_COMPLETE
        else COMPLETE_FAILURE)
    && t.timerArmed == (s.timerArmed || (s.completeResult != CHECK_COMPLETE && t.completeResult == CHECK_COMPLETE))
    && t.silent == (s.silent || (reached && held))
    && t.notices == s.notices + (if reached && !held then 1 else 0)
    && t.transport == (if !(reached && !held) then s.transport
                       else if t.completeResult == COMPLETE_FAILURE then TransportFailed
                       else Running)
  }

  /** The parts that completion and the settling of the list may touch. */
  predicate OnlyCompletion(s: State, t: State) {
    t == s.(board := t.board, completeResult := t.completeResult, timerArmed := t.timerArmed, silent := t.silent,
            notices := t.notices, transport := t.transport)
  }

  /** Check i fails with the given error. */
  predicate Fails(s: State, i: nat, err: CheckError, env: Env, t: State)
    requires i < |s.board.checks|
  {
    OnlyCompletion(s, t) && Concluded(s, t, env)
    && Settled(s.board.checks, i, s.board.checks[i].(state := FAILED, err := err), t.board.checks)
  }

  /** The local end of a new valid pair: known with this address on this base, or learned. */
  predicate LocalEnd(locals: seq<Candidate>, of: Candidate, mapped: string, env: Env, l: Candidate,
                     after: seq<Candidate>)
  {
    if exists c :: c in locals && c.addr == mapped && c.baseAddr == of.baseAddr then
      l in locals && l.addr == mapped && l.baseAddr == of.baseAddr && after == locals
    else
      l == Candidate(mapped, of.baseAddr, "", of.transport, env.foundationOf(of.baseAddr), of.componentID,
                     CalcCandidatePriority(PeerReflexive, 0xFFFF, of.componentID), PeerReflexive, 0, 0, [])
      && after == locals + [l]
  }

  predicate Preferred(best: Option<Pair>, p: Pair) {
    best.None? || best.value.priority < p.priority
  }

  /** A valid pair is considered for both choices. */
  predicate Chosen(s: State, t: State, p: Pair, nominated: bool) {
    t.validCheck == (if Preferred(s.validCheck, p) then Some(p) else s.validCheck)
    && t.nominatedCheck == (if nominated && Preferred(s.nominatedCheck, p) then Some(p) else s.nominatedCheck)
  }

  /** Section 7.1.2.2.3 of RFC 5245: the first valid pair of the two candidates takes over the
      nomination of the check; if there is none, a valid pair is added and the list sorted. */
  ghost predicate ValidPlaced(s: State, c: CheckView, l: Candidate, order: seq<CheckView>, t: State) {
    if exists k :: 0 <= k < |s.valid| && IsPairOf(s.valid[k], l, c.pair.remote) then
      exists k :: 0 <= k < |s.valid| && IsPairOf(s.valid[k], l, c.pair.remote)
                  && (forall j :: 0 <= j < k ==> !IsPairOf(s.valid[j], l, c.pair.remote))
                  && t.valid == s.valid[k := s.valid[k].(nominated := c.nominated)]
                  && Chosen(s, t, s.valid[k].pair, c.nominated)
    else
      var p := PairOf(s.role, l, c.pair.remote);
      t.valid == order && SortOf(order, s.valid + [CheckView(p, SUCCEEDED, c.nominated, NoError)])
      && Chosen(s, t, p, c.nominated)
  }

  /** Check i succeeds from the mapped address. */
  ghost predicate Succeeds(s: State, i: nat, mapped: string, order: seq<CheckView>, env: Env, t: State)
    requires i < |s.board.checks|
  {
    var c := s.board.checks[i];
    OnlyCompletion(s.(localCandidates := t.localCandidates, valid := t.valid, validCheck := t.validCheck,
                      nominatedCheck := t.nominatedCheck), t)
    && (exists l :: LocalEnd(s.localCandidates, c.pair.local, mapped, env, l, t.localCandidates)
                    && ValidPlaced(s, c, l, order, t))
    && Settled(s.board.checks, i, c.(state := SUCCEEDED), t.board.checks) && Concluded(s, t, env)
  }

  ghost predicate Responded(s: State, i: nat, from: string, res: Response, order: seq<CheckView>, env: Env, t: State)
    requires i < |s.board.checks|
  {
    var c := s.board.checks[i];
    if c.state >= SUCCEEDED || s.completeResult >= ALL_COMPLETE then t == s
    else match res
      case ErrorResponse(roleConflict, hasControlled, hasControlling) =>
        if roleConflict then
          t == s.(role := if hasControlled then Controlling else if hasControlling then Controlled else Unknown)
        else Fails(s, i, UnknownErrorCode, env, t)
      case SuccessResponse(mapped) =>
        if c.pair.remote.addr != from then Fails(s, i, UnknownAddress, env, t)
        else if mapped.None? then Fails(s, i, NoMappedAddress, env, t)
        else Succeeds(s, i, mapped.value, order, env, t)
  }

  /** The first local candidate with an address. */
  predicate FirstLocal(locals: seq<Candidate>, addr: string, l: Candidate) {
    exists k :: 0 <= k < |locals| && locals[k] == l && l.addr == addr
                && forall j :: 0 <= j < k ==> locals[j].addr != addr
  }

  /** The remote end of a request: known, or learned with the priority the request names. */
  predicate RemoteEnd(remotes: seq<Candidate>, rc: RxCheck, env: Env, r: Candidate, after: seq<Candidate>) {
    if exists c :: c in remotes && c.addr == rc.remoteAddress then
      r in remotes && r.addr == rc.remoteAddress && after == remotes
    else
      r == Candidate(rc.remoteAddress, "", "", NoTransport, env.foundationOf(rc.remoteAddress), 1, rc.priority,
                     PeerReflexive, 0, 0, [])
      && after == remotes + [r]
  }

  /** The valid pairs with a remote candidate are nominated; the best of them stands first. */
  predicate RemoteNominated(s: State, remote: Candidate, t: State) {
    |t.valid| == |s.valid|
    && (forall k :: 0 <= k < |s.valid| ==>
          t.valid[k] == if s.valid[k].pair.remote == remote then s.valid[k].(nominated := true) else s.valid[k])
    && exists k :: 0 <= k < |s.valid| && s.valid[k].pair.remote == remote
                   && (forall j :: 0 <= j < k ==> s.valid[j].pair.remote != remote)
                   && t.nominatedCheck
                      == if Preferred(s.nominatedCheck, s.valid[k].pair) then Some(s.valid[k].pair)
                         else s.nominatedCheck
  }

  /** Section 7.2.1.4 of RFC 5245: a request for the pair of check i. */
  predicate Triggered(s: State, i: nat, userCandidate: bool, env: Env, t: State)
    requires i < |s.board.checks|
  {
    var c := s.board.checks[i].(nominated := userCandidate || s.board.checks[i].nominated);
    if c.state == SUCCEEDED then
      OnlyCompletion(s.(valid := t.valid, nominatedCheck := t.nominatedCheck), t)
      && (if userCandidate then RemoteNominated(s, c.pair.remote, t)
          else t.valid == s.valid && t.nominatedCheck == s.nominatedCheck)
      && Settled(s.board.checks, i, c, t.board.checks) && Concluded(s, t, env)
    else
      t == s.(board := t.board)
      && t.board.checks == s.board.checks[i := if c.state < IN_PROGRESS then c.(state := IN_PROGRESS) else c]
  }

  /** A request whose pair may have to be added to the check list. */
  ghost predicate Incoming(s: State, rc: RxCheck, env: Env, t: State) {
    if (forall c :: c in s.remoteCandidates ==> c.addr != rc.remoteAddress) && |s.remoteCandidates| > 8 then t == s
    else
      exists l, r :: FirstLocal(s.localCandidates, rc.localAddress, l)
                     && RemoteEnd(s.remoteCandidates, rc, env, r, t.remoteCandidates)
                     && IncomingPair(s, l, r, rc.userCandidate, env, t)
  }

  ghost predicate IncomingPair(s: State, l: Candidate, r: Candidate, userCandidate: bool, env: Env, t: State) {
    if exists i :: 0 <= i < |s.board.checks| && IsPairOf(s.board.checks[i], l, r) then
      exists i :: 0 <= i < |s.board.checks| && IsPairOf(s.board.checks[i], l, r)
                  && Triggered(s.(remoteCandidates := t.remoteCandidates), i, userCandidate, env, t)
    else
      t == s.(remoteCandidates := t.remoteCandidates, board := t.board)
      && t.board.checks == s.board.checks + [CheckView(PairOf(s.role, l, r), IN_PROGRESS, userCandidate, NoError)]
  }

  ghost predicate Requested(s: State, rq: RxRequest, env: Env, t: State) {
    var (role, verdict) := JudgeRequest(s.role, s.tieBreaker, rq.controlling, rq.controlled);
    if !verdict.Accepted? || s.completeResult >= ALL_COMPLETE then t == s.(role := role)
    else if s.board.open == {} && s.completeResult == NOT_COMPLETE then
      t == s.(role := role, early := s.early + [rq.check])
    else Incoming(s.(role := role), rq.check, env, t)
  }

  predicate FirstOfFoundation(cs: seq<CheckView>, i: nat)
    requires i < |cs|
  {
    forall j :: 0 <= j < i ==> cs[j].pair.local.foundation != cs[i].pair.local.foundation
  }

  /** Check i is given a new state when the condition holds; nothing else happens. */
  predicate Moved(s: State, i: nat, to: CheckState, when: bool, t: State)
    requires i < |s.board.checks|
  {
    t == s.(board := t.board)
    && t.board.checks == if when then s.board.checks[i := s.board.checks[i].(state := to)] else s.board.checks
  }

  /** Without a nominated pair the session fails when the timer fires. */
  predicate TimedOut(s: State, t: State) {
    t == if s.nominatedCheck.Some? then s.(timerArmed := false)
         else s.(timerArmed := false, completeResult := COMPLETE_FAILURE, transport := TransportFailed,
                 notices := s.notices + 1)
  }

  /** A channel is open for exactly the checks that are not done. */
  predicate ChannelsOpen(b: Board) {
    b.open == set i | 0 <= i < |b.checks| && b.checks[i].state < SUCCEEDED :: b.checks[i].pair.key
  }

  ghost predicate Effect(s: State, e: Event, env: Env, t: State)
    requires Enabled(s, e, env)
  {
    (t.begun ==> ChannelsOpen(t.board))
    && match e
       case Start =>
         t.board.checks == s.board.checks
         && t == s.(isNominating := s.isNominating || s.role.Controlling?, begun := true, board := t.board)
       case First(i) =>
         Moved(s, i, WAITING, s.board.checks[i].state == FROZEN && FirstOfFoundation(s.board.checks, i), t)
       case Launch(i, phase) => Moved(s, i, IN_PROGRESS, s.board.checks[i].state == phase, t)
       case Nominate(i) =>
         var c := s.board.checks[i];
         t == s.(board := t.board)
         && t.board.checks == s.board.checks[i := c.(nominated := c.nominated || s.role.Controlling?)]
       case Replay(k) => Incoming(s, s.early[k], env, t)
       case Request(rq) => Requested(s, rq, env, t)
       case Respond(i, from, res, order) => Responded(s, i, from, res, order, env, t)
       case TryFailed(i) =>
         if s.board.checks[i].state >= SUCCEEDED then t == s else Fails(s, i, TriedTooManyTimes, env, t)
       case Timeout => TimedOut(s, t)
  }

  // ----- a step has the effect -----

  lemma ConcludeEffect(s: State, env: Env)
    requires LevelOk(s) && Conclude(s, env).Ok?
    ensures var t := Conclude(s, env).value;
            Concluded(s, t, env) && OnlyCompletion(s, t) && t.board == s.board
  {
    DoneIsAllFinished(s.board.checks);
    if s.nominatedCheck.Some? {
      SucceededEffect(s, env);
    }
  }

  lemma SucceededEffect(s: State, env: Env)
    requires s.nominatedCheck.Some? && IceSucceeded(s, Done(s.board.checks), env).Ok?
    ensures var t := IceSucceeded(s, Done(s.board.checks), env).value;
            Concluded(s, t, env) && OnlyCompletion(s, t) && t.board == s.board
  {
    hide Done;
  }

  lemma DoneIsAllFinished(cs: seq<CheckView>)
    ensures Done(cs) <==> AllFinished(cs)
  {
  }

  lemma SettleEffect(b: Board, i: nat)
    requires BoardOk(b) && i < |b.checks| && b.checks[i].state >= SUCCEEDED
    ensures SettleBoard(b, i).Ok? && Settled(b.checks, i, b.checks[i], SettleBoard(b, i).value.checks)
  {
    hide BoardGrows, BoardOk;
    SettleBoardKeeps(b, i);
    ErrorMeansFailed(b, i);
    var c := b.checks[i];
    if c.state == SUCCEEDED {
      UnfreezeKeeps(b, c.pair.local.foundation, 0);
      var d := Unfreeze(b, c.pair.local.foundation, 0).value;
      ThawedIsWaiting(b, c.pair.local.foundation);
      if c.nominated {
        CancelLowerKeeps(d, c.pair.priority, 0);
      }
    }
  }

  lemma ThawedIsWaiting(b: Board, foundation: int)
    requires BoardOk(b)
    ensures forall j :: 0 <= j < |b.checks| ==>
                          Thawed(b.checks[j], foundation)
                          == if b.checks[j].state == FROZEN && b.checks[j].pair.local.foundation == foundation then
                               b.checks[j].(state := WAITING)
                             else b.checks[j]
  {
  }

  /** Only check i differs between the two lists that settle. */
  lemma SettledAfterChange(cs: seq<CheckView>, i: nat, c: CheckView, ds: seq<CheckView>)
    requires i < |cs|
    ensures Settled(cs[i := c], i, c, ds) <==> Settled(cs, i, c, ds)
  {
    assert forall j :: 0 <= j < |cs| && j != i ==> cs[i := c][j] == cs[j];
  }

  /** What completion looks at besides the list. */
  predicate SameBefore(s: State, u: State) {
    s.completeResult == u.completeResult && s.timerArmed == u.timerArmed && s.silent == u.silent
    && s.notices == u.notices && s.transport == u.transport
  }

  lemma ConcludedFrame(s: State, u: State, t: State, env: Env)
    requires SameBefore(s, u) && Concluded(u, t, env)
    ensures Concluded(s, t, env)
  {
  }

  lemma TryCompleteEffect(s: State, i: nat, env: Env)
    requires Inv(s) && s.begun && i < |s.board.checks| && s.board.checks[i].state >= SUCCEEDED
    requires TryCompleteCheck(s, i, env).Ok?
    ensures var t := TryCompleteCheck(s, i, env).value;
            OnlyCompletion(s, t) && Settled(s.board.checks, i, s.board.checks[i], t.board.checks)
            && Concluded(s, t, env)
  {
    hide Inv, BoardOk, BoardGrows, SettleBoard, Conclude, Settled, Concluded, LevelOk;
    InvParts(s);
    SettleEffect(s.board, i);
    var s1 := s.(board := SettleBoard(s.board, i).value);
    LevelFrame(s, s1.board);
    ConcludeEffect(s1, env);
    ConcludedFrame(s, s1, Conclude(s1, env).value, env);
  }

  lemma LevelFrame(s: State, b: Board)
    requires LevelOk(s)
    ensures LevelOk(s.(board := b))
  {
  }

  lemma FinishEffect(s: State, i: nat, to: CheckState, err: CheckError, env: Env)
    requires Inv(s) && s.begun && i < |s.board.checks| && s.board.checks[i].state < SUCCEEDED
    requires to == SUCCEEDED || to == FAILED
    requires err.NoError? <==> to != FAILED
    requires to == SUCCEEDED ==> HasRemote(s.valid, s.board.checks[i].pair.remote)
    requires FinishCheck(s, i, to, err, env).Ok?
    ensures var t := FinishCheck(s, i, to, err, env).value;
            OnlyCompletion(s, t) && Concluded(s, t, env)
            && Settled(s.board.checks, i, s.board.checks[i].(state := to, err := err), t.board.checks)
  {
    hide Inv, BoardOk, BoardGrows, TryCompleteCheck, ChangeCheckState, Settled, Concluded, HasRemote, Follows;
    InvParts(s);
    ChangeKeeps(s.board, i, to, err);
    FinishedInv(s, i, to, err);
    var s1 := s.(board := ChangeCheckState(s.board, i, to, err).value);
    TryCompleteEffect(s1, i, env);
    var t := TryCompleteCheck(s1, i, env).value;
    ConcludedFrame(s, s1, t, env);
    SettledAfterChange(s.board.checks, i, s.board.checks[i].(state := to, err := err), t.board.checks);
  }

  // ----- the valid pair of a success -----

  lemma MappedLocalEnd(s: State, i: nat, mapped: string, env: Env)
    requires i < |s.board.checks|
    ensures LocalEnd(s.localCandidates, s.board.checks[i].pair.local, mapped, env, MappedLocal(s, i, mapped, env),
                     LearnLocal(s, i, mapped, env).localCandidates)
    ensures LearnLocal(s, i, mapped, env)
            == s.(localCandidates := LearnLocal(s, i, mapped, env).localCandidates)
  {
  }

  lemma ValidPlacedByConstruct(s: State, i: nat, l: Candidate, order: seq<CheckView>)
    requires i < |s.board.checks| && OrderFits(s, i, l, order)
    ensures var t := ConstructValidPair(s, i, l, order);
            ValidPlaced(s, s.board.checks[i], l, order, t)
            && t == s.(valid := t.valid, validCheck := t.validCheck, nominatedCheck := t.nominatedCheck)
  {
    hide SortOf;
    var c := s.board.checks[i];
    var k := IndexOfPair(s.valid, l, c.pair.remote, 0);
    if k < |s.valid| {
      assert IsPairOf(s.valid[k], l, c.pair.remote);
    }
  }

  lemma SuccessEffect(s: State, i: nat, mapped: AddrText, order: seq<CheckView>, env: Env)
    requires Inv(s) && s.begun && i < |s.board.checks| && s.board.checks[i].state < SUCCEEDED
    requires s.completeResult < ALL_COMPLETE
    requires OrderFits(LearnLocal(s, i, mapped, env), i, MappedLocal(s, i, mapped, env), order)
    requires CheckSucceeded(s, i, mapped, order, env).Ok?
    ensures Succeeds(s, i, mapped, order, env, CheckSucceeded(s, i, mapped, order, env).value)
  {
    hide Inv, FinishCheck, LearnLocal, MappedLocal, OrderFits, ConstructValidPair, ValidOk, Follows, HasRemote,
         LocalEnd, ValidPlaced, Settled, Concluded, BoardOk;
    var l := MappedLocal(s, i, mapped, env);
    var s1 := LearnLocal(s, i, mapped, env);
    MappedLocalEnd(s, i, mapped, env);
    LearnLocalOk(s, i, mapped, env);
    InvParts(s1);
    ConstructValidPairOk(s1, i, l, order);
    ValidPlacedByConstruct(s1, i, l, order);
    var s2 := ConstructValidPair(s1, i, l, order);
    OnlyValidOk(s1, s2);
    NoErrorYet(s, i);
    FinishEffect(s2, i, SUCCEEDED, NoError, env);
    var t := FinishCheck(s2, i, SUCCEEDED, NoError, env).value;
    ConcludedFrame(s, s2, t, env);
    PlacedFrame(s, s1, s2, t, s.board.checks[i], l, order);
  }

  lemma NoErrorYet(s: State, i: nat)
    requires Inv(s) && s.begun && i < |s.board.checks| && s.board.checks[i].state != FAILED
    ensures s.board.checks[i].err == NoError
  {
  }

  /** What a valid pair is placed by: the role, the valid list and the two choices. */
  lemma PlacedFrame(s: State, s1: State, s2: State, t: State, c: CheckView, l: Candidate, order: seq<CheckView>)
    requires ValidPlaced(s1, c, l, order, s2)
    requires s.role == s1.role && s.valid == s1.valid && s.validCheck == s1.validCheck
    requires s.nominatedCheck == s1.nominatedCheck
    requires t.valid == s2.valid && t.validCheck == s2.validCheck && t.nominatedCheck == s2.nominatedCheck
    ensures ValidPlaced(s, c, l, order, t)
  {
    hide SortOf;
  }

  lemma RespondEffect(s: State, i: nat, from: string, res: Response, order: seq<CheckView>, env: Env)
    requires Inv(s) && Enabled(s, Respond(i, from, res, order), env)
    requires ProcessBindingResponse(s, i, from, res, order, env).Ok?
    ensures Responded(s, i, from, res, order, env, ProcessBindingResponse(s, i, from, res, order, env).value)
  {
    hide Inv, FinishCheck, CheckSucceeded, OrderFits, Settled, Concluded, HasRemote, Succeeds;
    var c := s.board.checks[i];
    if c.state < SUCCEEDED && s.completeResult < ALL_COMPLETE {
      match res {
        case ErrorResponse(roleConflict, _, _) =>
          if !roleConflict {
            FinishEffect(s, i, FAILED, UnknownErrorCode, env);
          }
        case SuccessResponse(mapped) =>
          if c.pair.remote.addr != from {
            FinishEffect(s, i, FAILED, UnknownAddress, env);
          } else if mapped.None? {
            FinishEffect(s, i, FAILED, NoMappedAddress, env);
          } else {
            SuccessEffect(s, i, mapped.value, order, env);
          }
      }
    }
  }

  // ----- requests -----

  /** No match from index k on is better than what has been chosen. */
  predicate NoneBetter(s: State, remote: Candidate, k: nat) {
    s.nominatedCheck.Some?
    && forall j :: k <= j < |s.valid| && s.valid[j].pair.remote == remote ==>
         s.valid[j].pair.priority <= s.nominatedCheck.value.priority
  }

  /** The entries of the valid list once the matches from index k on are nominated. */
  predicate MatchesFlagged(vs: seq<CheckView>, ws: seq<CheckView>, remote: Candidate, k: nat) {
    |ws| == |vs|
    && forall j :: 0 <= j < |vs| ==>
         ws[j] == if j >= k && vs[j].pair.remote == remote then vs[j].(nominated := true) else vs[j]
  }

  lemma {:induction false} NominateValidKeeps(s: State, remote: Candidate, k: nat)
    requires ValidOk(s) && k <= |s.valid|
    ensures var t := NominateValid(s, remote, k);
            t == s.(valid := t.valid, nominatedCheck := t.nominatedCheck)
            && MatchesFlagged(s.valid, t.valid, remote, k)
            && (NoneBetter(s, remote, k) ==> t.nominatedCheck == s.nominatedCheck)
    decreases |s.valid| - k
  {
    hide PairsKept, ValidOk;
    if k < |s.valid| {
      if s.valid[k].pair.remote == remote {
        FlagOk(s, k, true);
        var v := s.valid[k].(nominated := true);
        var u := MarkValidAndNominated(s.(valid := s.valid[k := v]), v);
        BestStays(s, s.valid[k]);
        NominateValidKeeps(u, remote, k + 1);
      } else {
        NominateValidKeeps(s, remote, k + 1);
      }
    }
  }

  lemma BestStays(s: State, v: CheckView)
    requires ValidOk(s) && v in s.valid
    ensures Better(s.validCheck, v.pair) == s.validCheck
  {
  }

  /** The list is sorted, so of the matches the first is the best. */
  lemma {:induction false} FirstMatchChosen(s: State, remote: Candidate, k: nat, i: nat)
    requires ValidOk(s) && k <= i < |s.valid| && s.valid[i].pair.remote == remote
    requires forall j :: k <= j < i ==> s.valid[j].pair.remote != remote
    ensures NominateValid(s, remote, k).nominatedCheck == Better(s.nominatedCheck, s.valid[i].pair)
    decreases i - k
  {
    hide PairsKept, ValidOk, NoneBetter;
    if k == i {
      FlagOk(s, k, true);
      var v := s.valid[k].(nominated := true);
      NoneBetterAfter(s, remote, k);
      NominateValidKeeps(MarkValidAndNominated(s.(valid := s.valid[k := v]), v), remote, k + 1);
    } else {
      FirstMatchChosen(s, remote, k + 1, i);
    }
  }

  lemma NoneBetterAfter(s: State, remote: Candidate, k: nat)
    requires ValidOk(s) && k < |s.valid|
    ensures var v := s.valid[k].(nominated := true);
            NoneBetter(MarkValidAndNominated(s.(valid := s.valid[k := v]), v), remote, k + 1)
  {
    hide BestOk, ChosenOk;
  }

  lemma {:induction false} FirstMatch(vs: seq<CheckView>, remote: Candidate) returns (i: nat)
    requires HasRemote(vs, remote)
    ensures i < |vs| && vs[i].pair.remote == remote && forall j :: 0 <= j < i ==> vs[j].pair.remote != remote
  {
    var v :| v in vs && v.pair.remote == remote;
    if vs[0].pair.remote == remote {
      i := 0;
    } else {
      assert v in vs[1..];
      i := FirstMatch(vs[1..], remote);
      i := i + 1;
    }
  }

  lemma RemoteIsNominated(s: State, remote: Candidate)
    requires ValidOk(s) && HasRemote(s.valid, remote)
    ensures var t := NominateValid(s, remote, 0);
            RemoteNominated(s, remote, t) && t == s.(valid := t.valid, nominatedCheck := t.nominatedCheck)
  {
    hide ValidOk;
    NominateValidKeeps(s, remote, 0);
    var i := FirstMatch(s.valid, remote);
    FirstMatchChosen(s, remote, 0, i);
  }

  lemma TriggerEffect(s: State, i: nat, userCandidate: bool, env: Env)
    requires Inv(s) && s.begun && i < |s.board.checks| && TriggerListed(s, i, userCandidate, env).Ok?
    ensures Triggered(s, i, userCandidate, env, TriggerListed(s, i, userCandidate, env).value)
  {
    hide Inv, Follows, TryCompleteCheck, NominateValid, BoardOk, RemoteNominated, Settled, Concluded, ChangeCheckState,
         BoardGrows;
    var c := s.board.checks[i];
    var c1 := c.(nominated := userCandidate || c.nominated);
    if c.state < IN_PROGRESS {
      FlagCheckOk(s, i, c1.nominated);
      RaisedChecks(s.(board := SetNominated(s.board, i, c1.nominated)), i);
    } else if c.state == SUCCEEDED {
      RenominateEffect(s, i, userCandidate, env);
    }
  }

  lemma RaisedChecks(s: State, i: nat)
    requires Inv(s) && s.begun && i < |s.board.checks| && s.board.checks[i].state < IN_PROGRESS
    ensures ChangeCheckState(s.board, i, IN_PROGRESS, NoError).Ok?
    ensures ChangeCheckState(s.board, i, IN_PROGRESS, NoError).value.checks
            == s.board.checks[i := s.board.checks[i].(state := IN_PROGRESS)]
  {
    hide Inv, BoardOk, BoardGrows;
    InvParts(s);
    ChangeKeeps(s.board, i, IN_PROGRESS, NoError);
    NoErrorYet(s, i);
  }

  /** A request for a pair that has succeeded. */
  lemma RenominateEffect(s: State, i: nat, userCandidate: bool, env: Env)
    requires Inv(s) && s.begun && i < |s.board.checks| && s.board.checks[i].state == SUCCEEDED
    requires TriggerListed(s, i, userCandidate, env).Ok?
    ensures Triggered(s, i, userCandidate, env, TriggerListed(s, i, userCandidate, env).value)
  {
    hide Inv, Follows, TryCompleteCheck, NominateValid, BoardOk, RemoteNominated, Settled, Concluded, ValidOk,
         HasRemote, BoardGrows;
    var c := s.board.checks[i];
    var c1 := c.(nominated := userCandidate || c.nominated);
    FlagCheckOk(s, i, c1.nominated);
    var s1 := s.(board := SetNominated(s.board, i, c1.nominated));
    var s2 := if userCandidate then NominateValid(s1, c.pair.remote, 0) else s1;
    RenominatedOk(s1, i, userCandidate);
    TryCompleteEffect(s2, i, env);
    var t := TryCompleteCheck(s2, i, env).value;
    ConcludedFrame(s, s2, t, env);
    SettledAfterChange(s.board.checks, i, c1, t.board.checks);
    NominatedFrame(s, s1, s2, t, c.pair.remote);
  }

  lemma RenominatedOk(s: State, i: nat, userCandidate: bool)
    requires Inv(s) && s.begun && i < |s.board.checks| && s.board.checks[i].state == SUCCEEDED
    ensures var remote := s.board.checks[i].pair.remote;
            var t := if userCandidate then NominateValid(s, remote, 0) else s;
            Inv(t) && t == s.(valid := t.valid, nominatedCheck := t.nominatedCheck)
            && (userCandidate ==> RemoteNominated(s, remote, t))
  {
    hide Inv, Follows, NominateValid, BoardOk, RemoteNominated, ValidOk, HasRemote, BoardGrows;
    var remote := s.board.checks[i].pair.remote;
    InvParts(s);
    SucceededHasValid(s, i);
    if userCandidate {
      RemoteIsNominated(s, remote);
      NominateValidOk(s, remote, 0);
      OnlyValidOk(s, NominateValid(s, remote, 0));
    }
  }

  lemma NominatedFrame(s: State, s1: State, s2: State, t: State, remote: Candidate)
    requires s.valid == s1.valid && s.nominatedCheck == s1.nominatedCheck
    requires t.valid == s2.valid && t.nominatedCheck == s2.nominatedCheck
    ensures RemoteNominated(s1, remote, s2) ==> RemoteNominated(s, remote, t)
  {
  }

  lemma {:induction false} FirstWithIsFirst(locals: seq<Candidate>, addr: string)
    requires FirstWith(locals, addr).Some?
    ensures FirstLocal(locals, addr, FirstWith(locals, addr).value)
  {
    var l := FirstWith(locals, addr).value;
    if locals[0].addr != addr {
      FirstWithIsFirst(locals[1..], addr);
      var k :| 0 <= k < |locals[1..]| && locals[1..][k] == l && l.addr == addr
               && forall j :: 0 <= j < k ==> locals[1..][j].addr != addr;
      assert locals[k + 1] == l;
      assert forall j :: 1 <= j < k + 1 ==> locals[j] == locals[1..][j - 1];
    } else {
      assert locals[0] == l;
    }
  }

  lemma LearnedEnd(s: State, rc: RxCheck, env: Env)
    ensures LearnRemote(s, rc, env).None?
            <==> (forall c :: c in s.remoteCandidates ==> c.addr != rc.remoteAddress) && |s.remoteCandidates| > 8
    ensures LearnRemote(s, rc, env).Some? ==>
              var u := LearnRemote(s, rc, env).value;
              RemoteEnd(s.remoteCandidates, rc, env, FirstWith(u.remoteCandidates, rc.remoteAddress).value,
                        u.remoteCandidates)
  {
    FirstWithExtends(s.remoteCandidates, LearnedRemote(rc, env), rc.remoteAddress);
  }

  lemma IncomingEffect(s: State, rc: RxCheck, env: Env)
    requires Inv(s) && s.begun && HandleIncomingCheck(s, rc, env).Ok?
    ensures Incoming(s, rc, env, HandleIncomingCheck(s, rc, env).value)
  {
    hide Inv, Follows, TriggerListed, LearnRemote, IndexOfPair, FirstWith, Triggered, RemoteEnd, FirstLocal;
    var learned := LearnRemote(s, rc, env);
    LearnedEnd(s, rc, env);
    if learned.Some? {
      LearnRemoteOk(s, rc, env);
      LearnedOnly(s, rc, env);
      var s1 := learned.value;
      var l := FirstWith(s.localCandidates, rc.localAddress).value;
      FirstWithIsFirst(s.localCandidates, rc.localAddress);
      var r := FirstWith(s1.remoteCandidates, rc.remoteAddress).value;
      var i := IndexOfPair(s.board.checks, l, r, 0);
      var t := HandleIncomingCheck(s, rc, env).value;
      if i < |s.board.checks| {
        assert IsPairOf(s.board.checks[i], l, r);
        TriggerEffect(s1, i, rc.userCandidate, env);
        TriggerKeepsRemotes(s1, i, rc.userCandidate, env, t);
      }
      assert IncomingPair(s, l, r, rc.userCandidate, env, t);
    }
  }

  lemma TriggerKeepsRemotes(s: State, i: nat, userCandidate: bool, env: Env, t: State)
    requires i < |s.board.checks| && Triggered(s, i, userCandidate, env, t)
    ensures t.remoteCandidates == s.remoteCandidates
  {
    hide Settled, Concluded, RemoteNominated;
  }

  // ----- any event -----

  lemma MovedBy(s: State, i: nat, to: CheckState, b: Board, when: bool)
    requires Inv(s) && s.begun && i < |s.board.checks| && (to == WAITING || to == IN_PROGRESS)
    requires when ==> s.board.checks[i].state < to && ChangeCheckState(s.board, i, to, NoError) == Ok(b)
    requires !when ==> b == s.board
    ensures Moved(s, i, to, when, s.(board := b))
  {
    hide BoardOk, BoardGrows, Inv;
    InvParts(s);
    if when {
      ChangeKeeps(s.board, i, to, NoError);
      NoErrorYet(s, i);
    }
  }

  lemma FirstPassStays(s: State, i: nat)
    requires i < |s.board.checks| && s.board.checks[i].state != FROZEN
    ensures FirstPass(s.board, i) == Ok(s.board)
  {
  }

  lemma TimeoutEffect(s: State)
    requires Inv(s) && s.timerArmed && NominationTimeout(s).Ok?
    ensures TimedOut(s, NominationTimeout(s).value)
  {
  }

  lemma ChannelsAreOpen(t: State)
    requires Inv(t)
    ensures t.begun ==> ChannelsOpen(t.board)
  {
    if t.begun {
      OpenKeys(t.board);
    }
  }

  /** Every step does what the description says. */
  lemma NextHasEffect(s: State, e: Event, env: Env)
    requires Inv(s) && Enabled(s, e, env) && Next(s, e, env).Ok?
    ensures Effect(s, e, env, Next(s, e, env).value)
  {
    hide Inv, Follows, FinishCheck, HandleIncomingCheck, ProcessBindingResponse, NominationTimeout, ChangeCheckState,
         OrderFits, JudgeRequest, Responded, Incoming, TimedOut, ChannelsOpen, Concluded, Settled, HasRemote, FirstPass;
    var t := Next(s, e, env).value;
    NextOk(s, e, env);
    ChannelsAreOpen(t);
    match e {
      case Start => StartEffect(s);
      case First(i) => FirstPassEffect(s, i);
      case Launch(i, phase) => MovedBy(s, i, IN_PROGRESS, t.board, s.board.checks[i].state == phase);
      case Nominate(i) =>
      case Replay(k) => IncomingEffect(s, s.early[k], env);
      case Request(rq) =>
        var (role, verdict) := JudgeRequest(s.role, s.tieBreaker, rq.controlling, rq.controlled);
        if verdict.Accepted? && s.completeResult < ALL_COMPLETE
           && !(s.board.open == {} && s.completeResult == NOT_COMPLETE) {
          RoleOk(s, role);
          NotEarlyHasBegun(s);
          IncomingEffect(s.(role := role), rq.check, env);
        }
      case Respond(i, from, res, order) => RespondEffect(s, i, from, res, order, env);
      case TryFailed(i) =>
        if s.board.checks[i].state < SUCCEEDED {
          FinishEffect(s, i, FAILED, TriedTooManyTimes, env);
        }
      case Timeout => TimeoutEffect(s);
    }
  }

  lemma StartEffect(s: State)
    requires Inv(s) && s.board.checks != [] && (s.begun ==> s.board.checks[0].state != FROZEN)
    ensures var t := StartCheck(s);
            t.board.checks == s.board.checks
            && t == s.(isNominating := s.isNominating || s.role.Controlling?, begun := true, board := t.board)
  {
  }

  lemma FirstPassEffect(s: State, i: nat)
    requires Inv(s) && s.begun && i < |s.board.checks| && FirstPass(s.board, i).Ok?
    ensures Moved(s, i, WAITING, s.board.checks[i].state == FROZEN && FirstOfFoundation(s.board.checks, i),
                  s.(board := FirstPass(s.board, i).value))
  {
    hide Inv, ChangeCheckState;
    var b := FirstPass(s.board, i).value;
    if s.board.checks[i].state != FROZEN {
      FirstPassStays(s, i);
    }
    MovedBy(s, i, WAITING, b, s.board.checks[i].state == FROZEN && FirstOfFoundation(s.board.checks, i));
  }

  // ----- the effect leaves nothing open -----

  /** Equal but for the count of state changes. */
  predicate Same(t: State, u: State) {
    t == u.(board := u.board.(changes := t.board.changes))
  }

  lemma SettledOnce(cs: seq<CheckView>, i: nat, c: CheckView, ds: seq<CheckView>, es: seq<CheckView>)
    requires Settled(cs, i, c, ds) && Settled(cs, i, c, es)
    ensures ds == es
  {
    forall j | 0 <= j < |cs|
      ensures ds[j] == es[j]
    {
    }
  }

  lemma ConcludedOnce(s: State, t: State, u: State, env: Env)
    requires Concluded(s, t, env) && Concluded(s, u, env) && t.board.checks == u.board.checks
    requires t.nominatedCheck == u.nominatedCheck && t.validCheck == u.validCheck && t.role == u.role
    ensures t.completeResult == u.completeResult && t.timerArmed == u.timerArmed && t.silent == u.silent
            && t.notices == u.notices && t.transport == u.transport
  {
  }

  lemma FailsOnce(s: State, i: nat, err: CheckError, env: Env, t: State, u: State)
    requires i < |s.board.checks| && s.begun && ChannelsOpen(t.board) && ChannelsOpen(u.board)
    requires Fails(s, i, err, env, t) && Fails(s, i, err, env, u)
    ensures Same(t, u)
  {
    hide Settled, Concluded;
    SettledOnce(s.board.checks, i, s.board.checks[i].(state := FAILED, err := err), t.board.checks, u.board.checks);
    ConcludedOnce(s, t, u, env);
  }

  lemma LocalEndOnce(locals: seq<Candidate>, remotes: seq<Candidate>, of: Candidate, mapped: string, env: Env,
                     l: Candidate, after: seq<Candidate>, m: Candidate, later: seq<Candidate>)
    requires CandidatesOk(locals, remotes)
    requires LocalEnd(locals, of, mapped, env, l, after) && LocalEnd(locals, of, mapped, env, m, later)
    ensures l == m && after == later
  {
  }

  lemma PlacedOnce(s: State, c: CheckView, l: Candidate, order: seq<CheckView>, t: State, u: State)
    requires ValidPlaced(s, c, l, order, t) && ValidPlaced(s, c, l, order, u)
    ensures t.valid == u.valid && t.validCheck == u.validCheck && t.nominatedCheck == u.nominatedCheck
  {
    hide SortOf;
    if k :| 0 <= k < |s.valid| && IsPairOf(s.valid[k], l, c.pair.remote)
            && (forall j :: 0 <= j < k ==> !IsPairOf(s.valid[j], l, c.pair.remote))
            && t.valid == s.valid[k := s.valid[k].(nominated := c.nominated)]
            && Chosen(s, t, s.valid[k].pair, c.nominated)
    {
      var m :| 0 <= m < |s.valid| && IsPairOf(s.valid[m], l, c.pair.remote)
               && (forall j :: 0 <= j < m ==> !IsPairOf(s.valid[j], l, c.pair.remote))
               && u.valid == s.valid[m := s.valid[m].(nominated := c.nominated)]
               && Chosen(s, u, s.valid[m].pair, c.nominated);
      assert k == m;
    }
  }

  lemma SucceedsOnce(s: State, i: nat, mapped: string, order: seq<CheckView>, env: Env, t: State, u: State)
    requires Inv(s) && i < |s.board.checks| && s.begun && ChannelsOpen(t.board) && ChannelsOpen(u.board)
    requires Succeeds(s, i, mapped, order, env, t) && Succeeds(s, i, mapped, order, env, u)
    ensures Same(t, u)
  {
    hide Settled, Concluded, LocalEnd, ValidPlaced, Inv, CandidatesOk;
    InvParts(s);
    var c := s.board.checks[i];
    var l :| LocalEnd(s.localCandidates, c.pair.local, mapped, env, l, t.localCandidates)
             && ValidPlaced(s, c, l, order, t);
    var m :| LocalEnd(s.localCandidates, c.pair.local, mapped, env, m, u.localCandidates)
             && ValidPlaced(s, c, m, order, u);
    LocalEndOnce(s.localCandidates, s.remoteCandidates, c.pair.local, mapped, env, l, t.localCandidates,
                 m, u.localCandidates);
    PlacedOnce(s, c, l, order, t, u);
    SettledOnce(s.board.checks, i, c.(state := SUCCEEDED), t.board.checks, u.board.checks);
    ConcludedOnce(s, t, u, env);
  }

  lemma RespondedOnce(s: State, i: nat, from: string, res: Response, order: seq<CheckView>, env: Env, t: State,
                      u: State)
    requires Inv(s) && i < |s.board.checks| && s.begun && ChannelsOpen(t.board) && ChannelsOpen(u.board)
    requires Responded(s, i, from, res, order, env, t) && Responded(s, i, from, res, order, env, u)
    ensures Same(t, u)
  {
    hide Fails, Succeeds, ChannelsOpen, Inv;
    if s.board.checks[i].state < SUCCEEDED && s.completeResult < ALL_COMPLETE {
      match res {
        case ErrorResponse(roleConflict, _, _) =>
          if !roleConflict {
            FailsOnce(s, i, UnknownErrorCode, env, t, u);
          }
        case SuccessResponse(mapped) =>
          if s.board.checks[i].pair.remote.addr != from {
            FailsOnce(s, i, UnknownAddress, env, t, u);
          } else if mapped.None? {
            FailsOnce(s, i, NoMappedAddress, env, t, u);
          } else {
            SucceedsOnce(s, i, mapped.value, order, env, t, u);
          }
      }
    }
  }

  lemma RemoteNominatedOnce(s: State, remote: Candidate, t: State, u: State)
    requires RemoteNominated(s, remote, t) && RemoteNominated(s, remote, u)
    ensures t.valid == u.valid && t.nominatedCheck == u.nominatedCheck
  {
    var k :| 0 <= k < |s.valid| && s.valid[k].pair.remote == remote
             && (forall j :: 0 <= j < k ==> s.valid[j].pair.remote != remote)
             && t.nominatedCheck
                == if Preferred(s.nominatedCheck, s.valid[k].pair) then Some(s.valid[k].pair) else s.nominatedCheck;
    var m :| 0 <= m < |s.valid| && s.valid[m].pair.remote == remote
             && (forall j :: 0 <= j < m ==> s.valid[j].pair.remote != remote)
             && u.nominatedCheck
                == if Preferred(s.nominatedCheck, s.valid[m].pair) then Some(s.valid[m].pair) else s.nominatedCheck;
    assert k == m;
    forall j | 0 <= j < |s.valid|
      ensures t.valid[j] == u.valid[j]
    {
    }
  }

  lemma TriggeredOnce(s: State, i: nat, userCandidate: bool, env: Env, t: State, u: State)
    requires i < |s.board.checks| && s.begun && ChannelsOpen(t.board) && ChannelsOpen(u.board)
    requires Triggered(s, i, userCandidate, env, t) && Triggered(s, i, userCandidate, env, u)
    ensures Same(t, u)
  {
    hide Settled, Concluded, RemoteNominated;
    var c := s.board.checks[i].(nominated := userCandidate || s.board.checks[i].nominated);
    if c.state == SUCCEEDED {
      SettledOnce(s.board.checks, i, c, t.board.checks, u.board.checks);
      if userCandidate {
        RemoteNominatedOnce(s, c.pair.remote, t, u);
      }
      ConcludedOnce(s, t, u, env);
    }
  }

  lemma FirstLocalOnce(locals: seq<Candidate>, addr: string, l: Candidate, m: Candidate)
    requires FirstLocal(locals, addr, l) && FirstLocal(locals, addr, m)
    ensures l == m
  {
    var k :| 0 <= k < |locals| && locals[k] == l && l.addr == addr
             && forall j :: 0 <= j < k ==> locals[j].addr != addr;
    var n :| 0 <= n < |locals| && locals[n] == m && m.addr == addr
             && forall j :: 0 <= j < n ==> locals[j].addr != addr;
    assert k == n;
  }

  lemma RemoteEndOnce(locals: seq<Candidate>, remotes: seq<Candidate>, rc: RxCheck, env: Env, r: Candidate,
                      after: seq<Candidate>, q: Candidate, later: seq<Candidate>)
    requires CandidatesOk(locals, remotes)
    requires RemoteEnd(remotes, rc, env, r, after) && RemoteEnd(remotes, rc, env, q, later)
    ensures r == q && after == later
  {
  }

  /** No pair is on the check list twice. */
  lemma PairOnce(s: State, i: nat, j: nat, l: Candidate, r: Candidate)
    requires Inv(s) && s.begun && i < |s.board.checks| && j < |s.board.checks|
    requires IsPairOf(s.board.checks[i], l, r) && IsPairOf(s.board.checks[j], l, r)
    ensures i == j
  {
    KeyOfPair(s, i);
    KeyOfPair(s, j);
  }

  lemma IncomingOnce(s: State, rc: RxCheck, env: Env, t: State, u: State)
    requires Inv(s) && s.begun && ChannelsOpen(t.board) && ChannelsOpen(u.board)
    requires Incoming(s, rc, env, t) && Incoming(s, rc, env, u)
    ensures Same(t, u)
  {
    hide Inv, FirstLocal, RemoteEnd, IncomingPair, CandidatesOk;
    InvParts(s);
    if !((forall c :: c in s.remoteCandidates ==> c.addr != rc.remoteAddress) && |s.remoteCandidates| > 8) {
      var l, r :| FirstLocal(s.localCandidates, rc.localAddress, l)
                  && RemoteEnd(s.remoteCandidates, rc, env, r, t.remoteCandidates)
                  && IncomingPair(s, l, r, rc.userCandidate, env, t);
      var m, q :| FirstLocal(s.localCandidates, rc.localAddress, m)
                  && RemoteEnd(s.remoteCandidates, rc, env, q, u.remoteCandidates)
                  && IncomingPair(s, m, q, rc.userCandidate, env, u);
      FirstLocalOnce(s.localCandidates, rc.localAddress, l, m);
      RemoteEndOnce(s.localCandidates, s.remoteCandidates, rc, env, r, t.remoteCandidates, q, u.remoteCandidates);
      IncomingPairOnce(s, l, r, rc.userCandidate, env, t, u);
    }
  }

  lemma IncomingPairOnce(s: State, l: Candidate, r: Candidate, userCandidate: bool, env: Env, t: State, u: State)
    requires Inv(s) && s.begun && ChannelsOpen(t.board) && ChannelsOpen(u.board)
    requires t.remoteCandidates == u.remoteCandidates
    requires IncomingPair(s, l, r, userCandidate, env, t) && IncomingPair(s, l, r, userCandidate, env, u)
    ensures Same(t, u)
  {
    hide Inv, Triggered;
    if i :| 0 <= i < |s.board.checks| && IsPairOf(s.board.checks[i], l, r)
            && Triggered(s.(remoteCandidates := t.remoteCandidates), i, userCandidate, env, t)
    {
      var j :| 0 <= j < |s.board.checks| && IsPairOf(s.board.checks[j], l, r)
               && Triggered(s.(remoteCandidates := u.remoteCandidates), j, userCandidate, env, u);
      PairOnce(s, i, j, l, r);
      TriggeredOnce(s.(remoteCandidates := t.remoteCandidates), i, userCandidate, env, t, u);
    }
  }

  /** The description determines the state after a step, but for the count of changes. */
  lemma EffectDetermines(s: State, e: Event, env: Env, t: State, u: State)
    requires Inv(s) && Enabled(s, e, env) && Effect(s, e, env, t) && Effect(s, e, env, u)
    ensures Same(t, u)
  {
    hide Inv, Responded, Incoming, Fails, TimedOut, OrderFits, JudgeRequest;
    match e {
      case Replay(k) =>
        IncomingBegun(s, s.early[k], env, t);
        IncomingBegun(s, s.early[k], env, u);
        IncomingOnce(s, s.early[k], env, t, u);
      case Request(rq) => RequestedOnce(s, rq, env, t, u);
      case Respond(i, from, res, order) =>
        RespondedBegun(s, i, from, res, order, env, t);
        RespondedBegun(s, i, from, res, order, env, u);
        RespondedOnce(s, i, from, res, order, env, t, u);
      case TryFailed(i) =>
        if s.board.checks[i].state < SUCCEEDED {
          FailsBegun(s, i, TriedTooManyTimes, env, t);
          FailsBegun(s, i, TriedTooManyTimes, env, u);
          FailsOnce(s, i, TriedTooManyTimes, env, t, u);
        }
      case Timeout => TimedOutOnce(s, t, u);
      case _ =>
    }
  }

  lemma TimedOutOnce(s: State, t: State, u: State)
    requires TimedOut(s, t) && TimedOut(s, u)
    ensures t == u
  {
  }

  lemma RequestedOnce(s: State, rq: RxRequest, env: Env, t: State, u: State)
    requires Inv(s) && Requested(s, rq, env, t) && Requested(s, rq, env, u)
    requires (t.begun ==> ChannelsOpen(t.board)) && (u.begun ==> ChannelsOpen(u.board))
    ensures Same(t, u)
  {
    hide Inv, Incoming, JudgeRequest, ChannelsOpen;
    var (role, verdict) := JudgeRequest(s.role, s.tieBreaker, rq.controlling, rq.controlled);
    if verdict.Accepted? && s.completeResult < ALL_COMPLETE
       && !(s.board.open == {} && s.completeResult == NOT_COMPLETE) {
      RoleOk(s, role);
      NotEarlyHasBegun(s);
      IncomingBegun(s.(role := role), rq.check, env, t);
      IncomingBegun(s.(role := role), rq.check, env, u);
      IncomingOnce(s.(role := role), rq.check, env, t, u);
    }
  }

  lemma IncomingBegun(s: State, rc: RxCheck, env: Env, t: State)
    requires Incoming(s, rc, env, t)
    ensures t.begun == s.begun
  {
    hide Settled, Concluded, RemoteNominated, FirstLocal, RemoteEnd;
  }

  lemma FailsBegun(s: State, i: nat, err: CheckError, env: Env, t: State)
    requires i < |s.board.checks| && Fails(s, i, err, env, t)
    ensures t.begun == s.begun
  {
  }

  lemma RespondedBegun(s: State, i: nat, from: string, res: Response, order: seq<CheckView>, env: Env, t: State)
    requires i < |s.board.checks| && Responded(s, i, from, res, order, env, t)
    ensures t.begun == s.begun
  {
    hide Settled, Concluded, LocalEnd, ValidPlaced;
  }

  // ----- what follows from the effect -----

  /** Some check is done that was not. */
  predicate Finishes(s: State, t: State) {
    exists i :: 0 <= i < |s.board.checks| && i < |t.board.checks|
                && s.board.checks[i].state < SUCCEEDED && t.board.checks[i].state >= SUCCEEDED
  }

  /** A step that finishes a check comes to completion, and of the others only the timer and a request
      for a pair that has succeeded may change the level. */
  lemma EffectConcludes(s: State, e: Event, env: Env, t: State)
    requires Enabled(s, e, env) && Effect(s, e, env, t) && !e.Timeout?
    ensures Finishes(s, t) || t.completeResult != s.completeResult ==> Concluded(s, t, env)
  {
    hide Concluded, Settled, LocalEnd, ValidPlaced, RemoteNominated, FirstLocal, RemoteEnd, OrderFits, JudgeRequest,
         ChannelsOpen, Incoming;
    match e {
      case Replay(k) => IncomingConcludes(s, s.early[k], env, t);
      case Request(rq) =>
        var (role, verdict) := JudgeRequest(s.role, s.tieBreaker, rq.controlling, rq.controlled);
        if Incoming(s.(role := role), rq.check, env, t) {
          IncomingConcludes(s.(role := role), rq.check, env, t);
          ConcludedRole(s, role, t, env);
        }
      case _ =>
    }
  }

  lemma ConcludedRole(s: State, role: Role, t: State, env: Env)
    ensures Concluded(s.(role := role), t, env) ==> Concluded(s, t, env)
  {
  }

  lemma IncomingConcludes(s: State, rc: RxCheck, env: Env, t: State)
    requires Incoming(s, rc, env, t)
    ensures Finishes(s, t) || t.completeResult != s.completeResult ==> Concluded(s, t, env)
  {
    hide Concluded, Settled, RemoteNominated, FirstLocal, RemoteEnd, Triggered, IncomingPair;
    if t != s {
      var l, r :| FirstLocal(s.localCandidates, rc.localAddress, l)
                  && RemoteEnd(s.remoteCandidates, rc, env, r, t.remoteCandidates)
                  && IncomingPair(s, l, r, rc.userCandidate, env, t);
      IncomingPairConcludes(s, l, r, rc.userCandidate, env, t);
    }
  }

  lemma IncomingPairConcludes(s: State, l: Candidate, r: Candidate, userCandidate: bool, env: Env, t: State)
    requires IncomingPair(s, l, r, userCandidate, env, t)
    ensures Finishes(s, t) || t.completeResult != s.completeResult ==> Concluded(s, t, env)
  {
    hide Triggered, Concluded, Finishes;
    if i :| 0 <= i < |s.board.checks| && IsPairOf(s.board.checks[i], l, r)
            && Triggered(s.(remoteCandidates := t.remoteCandidates), i, userCandidate, env, t)
    {
      var u := s.(remoteCandidates := t.remoteCandidates);
      TriggeredConcludes(u, i, userCandidate, env, t);
      FinishesFrame(s, u, t);
      if Concluded(u, t, env) {
        ConcludedFrame(s, u, t, env);
      }
    } else {
      AppendingFinishesNothing(s, t);
    }
  }

  lemma TriggeredConcludes(s: State, i: nat, userCandidate: bool, env: Env, t: State)
    requires i < |s.board.checks| && Triggered(s, i, userCandidate, env, t)
    ensures Finishes(s, t) || t.completeResult != s.completeResult ==> Concluded(s, t, env)
  {
    hide Settled, RemoteNominated, Concluded;
  }

  lemma FinishesFrame(s: State, u: State, t: State)
    requires s.board == u.board
    ensures Finishes(s, t) <==> Finishes(u, t)
  {
  }

  lemma AppendingFinishesNothing(s: State, t: State)
    requires s.board.checks <= t.board.checks
    ensures !Finishes(s, t)
  {
  }
}
