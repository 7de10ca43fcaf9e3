/** The negotiation of ice/icesession.go as transitions between values. The class IceSession makes
    the same transitions in place; IceInvariants proves what every run of them keeps. */
module IceSpec {
  import opened Wrappers
  import opened PairPriority
  import opened IceTypes
  import opened Roles

  const MAX_CANDIDATES := 8

  /** The ways a step can fail to return: panics, nil dereferences, and sends on a nil channel. */
  datatype PanicKind =
    | LevelMustIncrease      // changeCompleteResult
    | NotImplemented         // regular nomination
    | NoServerSock           // no socket for the nominated pair
    | NilLocalCandidate      // a request on an address that is no local candidate
    | ChecksStillOpen        // "all check should finished"
    | TriggeredCheckNotOpen  // "must ..."
    | FinishedTwice          // onIceComplete outside negotiation
    | CloseOfMissingChannel
    | SendOnMissingChannel

  type Step<+T> = Outcome<T, PanicKind>

  /** The check list, the keys that have an open channel, and the number of accepted state changes. */
  datatype Board = Board(checks: seq<CheckView>, open: set<string>, changes: nat)

  function ChangeCheckState(b: Board, i: nat, to: CheckState, err: CheckError): (r: Step<Board>)
    requires i < |b.checks|
    ensures r.Ok? ==> |r.value.checks| == |b.checks|
  {
    var c := b.checks[i];
    if c.state >= to then Ok(b)
    else
      var b1 := b.(checks := b.checks[i := c.(state := to, err := err)], changes := b.changes + 1);
      if to < SUCCEEDED then Ok(b1)
      else if c.pair.key !in b.open then Panic(CloseOfMissingChannel)
      else Ok(b1.(open := b1.open - {c.pair.key}))
  }

  function CancelOneCheck(b: Board, i: nat): (r: Step<Board>)
    requires i < |b.checks|
    ensures r.Ok? ==> |r.value.checks| == |b.checks|
  {
    if b.checks[i].pair.key !in b.open then Panic(SendOnMissingChannel)
    else ChangeCheckState(b, i, FAILED, Canceled)
  }

  /** Frozen checks with the given foundation become Waiting, from index k on. */
  function Unfreeze(b: Board, foundation: int, k: nat): (r: Step<Board>)
    requires k <= |b.checks|
    ensures r.Ok? ==> |r.value.checks| == |b.checks|
    decreases |b.checks| - k
  {
    if k == |b.checks| then Ok(b)
    else if b.checks[k].pair.local.foundation == foundation && b.checks[k].state == FROZEN then
      Unfreeze(ChangeCheckState(b, k, WAITING, NoError).value, foundation, k + 1)
    else Unfreeze(b, foundation, k + 1)
  }

  /** Checks not yet started, and those in progress with at most the given priority, are canceled. */
  predicate Cancelable(c: CheckView, priority: nat) {
    c.state < IN_PROGRESS || (c.state == IN_PROGRESS && c.pair.priority <= priority)
  }

  function CancelLower(b: Board, priority: nat, k: nat): (r: Step<Board>)
    requires k <= |b.checks|
    ensures r.Ok? ==> |r.value.checks| == |b.checks|
    decreases |b.checks| - k
  {
    if k == |b.checks| then Ok(b)
    else if Cancelable(b.checks[k], priority) then
      var b1 :- CancelOneCheck(b, k);
      CancelLower(b1, priority, k + 1)
    else CancelLower(b, priority, k + 1)
  }

  /** sessionNotComplete and its successors. */
  type Level = x: int | 0 <= x <= 4
  const NOT_COMPLETE: Level := 0
  const CHECK_COMPLETE: Level := 1
  const COMPLETE_SUCCESS: Level := 2
  const ALL_COMPLETE: Level := 3
  const COMPLETE_FAILURE: Level := 4

  datatype TransportState = Negotiation | Running | TransportFailed

  datatype RxCheck = RxCheck(remoteAddress: string, localAddress: string, userCandidate: bool, priority: int)

  datatype State = State(
    role: Role,
    tieBreaker: nat,
    isNominating: bool,
    localCandidates: seq<Candidate>,
    remoteCandidates: seq<Candidate>,
    early: seq<RxCheck>,
    board: Board,
    valid: seq<CheckView>,
    validCheck: Option<Pair>,
    nominatedCheck: Option<Pair>,
    completeResult: Level,
    transport: TransportState,
    // what has happened so far:
    begun: bool,       // startCheck has filled checkMap
    timerArmed: bool,  // the controlled agent waits for a nomination
    notices: nat,      // calls of onIceComplete
    silent: bool)      // completion was not reported because channelBind failed

  /** The check list of freshly made checks. */
  function FrozenChecks(ps: seq<Pair>): seq<CheckView> {
    seq(|ps|, i requires 0 <= i < |ps| => CheckView(ps[i], FROZEN, false, NoError))
  }

  /** A session before startCheck; requests may have come early. */
  function InitialState(role: Role, tieBreaker: nat, locals: seq<Candidate>, remotes: seq<Candidate>,
                        early: seq<RxCheck>, list: seq<Pair>): State
  {
    State(role, tieBreaker, false, locals, remotes, early, Board(FrozenChecks(list), {}, 0), [], None, None,
          NOT_COMPLETE, Negotiation, false, false, 0, false)
  }

  /** What a step finds outside the session. */
  datatype Env = Env(senderFound: bool, bindOk: bool, foundationOf: string -> int)

  function ChangeCompleteResult(s: State, r: Level): (t: Step<State>)
    ensures t.Ok? ==> t.value.board == s.board && t.value.early == s.early
  {
    if r <= s.completeResult then Panic(LevelMustIncrease) else Ok(s.(completeResult := r))
  }

  /** StreamTransport.onIceComplete. */
  function OnIceComplete(s: State, failed: bool): (t: Step<State>)
    ensures t.Ok? ==> t.value.board == s.board && t.value.early == s.early
  {
    if s.transport != Negotiation then Panic(FinishedTwice)
    else Ok(s.(transport := if failed then TransportFailed else Running, notices := s.notices + 1))
  }

  function IceFailed(s: State): (t: Step<State>)
    ensures t.Ok? ==> t.value.board == s.board && t.value.early == s.early
  {
    var s1 :- ChangeCompleteResult(s, COMPLETE_FAILURE);
    if s.completeResult < COMPLETE_SUCCESS then OnIceComplete(s1, true) else Ok(s1)
  }

  function RaiseLevel(s: State, allComplete: bool): (t: Step<State>)
    ensures t.Ok? ==> t.value.board == s.board && t.value.early == s.early
  {
    if allComplete then ChangeCompleteResult(s, ALL_COMPLETE)
    else if s.completeResult < COMPLETE_SUCCESS then ChangeCompleteResult(s, COMPLETE_SUCCESS)
    else Ok(s)
  }

  /** iceComplete without an error; the nominated pair decides whether a channel must be bound. */
  function IceSucceeded(s: State, allComplete: bool, env: Env): (t: Step<State>)
    requires s.nominatedCheck.Some?
    ensures t.Ok? ==> t.value.board == s.board && t.value.early == s.early
  {
    var s1 :- RaiseLevel(s, allComplete);
    if allComplete && s1.board.open != {} then Panic(ChecksStillOpen)
    else if !env.senderFound then Panic(NoServerSock)
    else if allComplete && s.nominatedCheck.value.local.ctype.Relay? && !env.bindOk then
      Ok(s1.(silent := s1.silent || s.completeResult < COMPLETE_SUCCESS))
    else if s.completeResult < COMPLETE_SUCCESS then OnIceComplete(s1, false)
    else Ok(s1)
  }

  predicate AllFinished(checks: seq<CheckView>) {
    forall i :: 0 <= i < |checks| ==> checks[i].state >= SUCCEEDED
  }

  /** The part of tryCompleteCheck after the check list has been updated. */
  function Conclude(s: State, env: Env): (t: Step<State>)
    ensures t.Ok? ==> t.value.board == s.board && t.value.early == s.early
  {
    var done := AllFinished(s.board.checks);
    if s.nominatedCheck.Some? then IceSucceeded(s, done, env)
    else if !done then Ok(s)
    else if s.role.Controlled? then
      if s.validCheck.None? then IceFailed(s)
      else
        var s1 :- ChangeCompleteResult(s, CHECK_COMPLETE);
        Ok(s1.(timerArmed := true))
    else if s.isNominating then IceFailed(s)
    else Panic(NotImplemented)
  }

  /** The part of tryCompleteCheck that updates the check list. */
  function SettleBoard(b: Board, i: nat): (r: Step<Board>)
    requires i < |b.checks|
    ensures r.Ok? ==> |r.value.checks| == |b.checks|
  {
    var c := b.checks[i];
    if c.err.NoError? then
      var b1 :- Unfreeze(b, c.pair.local.foundation, 0);
      if c.nominated then CancelLower(b1, c.pair.priority, 0) else Ok(b1)
    else Ok(b)
  }

  function TryCompleteCheck(s: State, i: nat, env: Env): (t: Step<State>)
    requires i < |s.board.checks|
    ensures t.Ok? ==> |t.value.board.checks| == |s.board.checks| && t.value.early == s.early
  {
    var b :- SettleBoard(s.board, i);
    Conclude(s.(board := b), env)
  }

  /** changeCheckState followed by tryCompleteCheck on the same check. */
  function FinishCheck(s: State, i: nat, to: CheckState, err: CheckError, env: Env): (t: Step<State>)
    requires i < |s.board.checks|
    ensures t.Ok? ==> |t.value.board.checks| == |s.board.checks| && t.value.early == s.early
  {
    var b :- ChangeCheckState(s.board, i, to, err);
    TryCompleteCheck(s.(board := b), i, env)
  }

  /** The pair to keep: a new one replaces an old one only when its priority is higher. */
  function Better(best: Option<Pair>, p: Pair): Option<Pair> {
    if best.None? || best.value.priority < p.priority then Some(p) else best
  }

  function MarkValidAndNominated(s: State, v: CheckView): (r: State)
    ensures r.board == s.board && r.valid == s.valid && r.early == s.early
  {
    s.(validCheck := Better(s.validCheck, v.pair),
       nominatedCheck := if v.nominated then Better(s.nominatedCheck, v.pair) else s.nominatedCheck)
  }

  /** Every valid pair with the given remote candidate is nominated, from index k on. */
  function NominateValid(s: State, remote: Candidate, k: nat): (r: State)
    requires k <= |s.valid|
    ensures r.board == s.board && |r.valid| == |s.valid| && r.early == s.early
    decreases |s.valid| - k
  {
    if k == |s.valid| then s
    else if s.valid[k].pair.remote == remote then
      var v := s.valid[k].(nominated := true);
      NominateValid(MarkValidAndNominated(s.(valid := s.valid[k := v]), v), remote, k + 1)
    else NominateValid(s, remote, k + 1)
  }

  /** The first index from k on whose pair joins the two candidates, or the length. */
  function IndexOfPair(cs: seq<CheckView>, l: Candidate, r: Candidate, k: nat): (i: nat)
    requires k <= |cs|
    ensures k <= i <= |cs|
    ensures i < |cs| ==> cs[i].pair.local == l && cs[i].pair.remote == r
    ensures forall j :: k <= j < i ==> !(cs[j].pair.local == l && cs[j].pair.remote == r)
    decreases |cs| - k
  {
    if k == |cs| || (cs[k].pair.local == l && cs[k].pair.remote == r) then k
    else IndexOfPair(cs, l, r, k + 1)
  }

  function SetNominated(b: Board, i: nat, nominated: bool): (r: Board)
    requires i < |b.checks|
    ensures r.open == b.open && |r.checks| == |b.checks|
  {
    b.(checks := b.checks[i := b.checks[i].(nominated := nominated)])
  }

  /** An incoming request for a pair that is on the check list, once its flag has been set. */
  function TriggerFlagged(s: State, i: nat, userCandidate: bool, env: Env): (t: Step<State>)
    requires i < |s.board.checks|
    ensures t.Ok? ==> |t.value.board.checks| == |s.board.checks| && t.value.early == s.early
  {
    var c := s.board.checks[i];
    if c.state < IN_PROGRESS then
      if c.pair.key !in s.board.open then Panic(TriggeredCheckNotOpen)
      else Ok(s.(board := ChangeCheckState(s.board, i, IN_PROGRESS, NoError).value))
    else if c.state == IN_PROGRESS then
      if c.pair.key !in s.board.open then Panic(SendOnMissingChannel) else Ok(s)
    else if c.state == SUCCEEDED then
      TryCompleteCheck(if userCandidate then NominateValid(s, c.pair.remote, 0) else s, i, env)
    else Ok(s)
  }

  /** An incoming request for a pair that is on the check list. */
  function TriggerListed(s: State, i: nat, userCandidate: bool, env: Env): (t: Step<State>)
    requires i < |s.board.checks|
    ensures t.Ok? ==> |t.value.board.checks| == |s.board.checks| && t.value.early == s.early
  {
    var b := SetNominated(s.board, i, userCandidate || s.board.checks[i].nominated);
    TriggerFlagged(s.(board := b), i, userCandidate, env)
  }

  /** An incoming request for a pair that is not on the check list. */
  function AddTriggered(s: State, l: Candidate, r: Candidate, userCandidate: bool): State {
    var c := CheckView(MakePair(s.role, l, r), IN_PROGRESS, userCandidate, NoError);
    s.(board := s.board.(checks := s.board.checks + [c], open := s.board.open + {c.pair.key}))
  }

  function LearnedRemote(rc: RxCheck, env: Env): Candidate {
    BLANK.(componentID := 1, ctype := PeerReflexive, priority := rc.priority, addr := rc.remoteAddress,
           foundation := env.foundationOf(rc.remoteAddress))
  }

  /** The remote candidates after a request: its source is learned unless there are too many. */
  function LearnRemote(s: State, rc: RxCheck, env: Env): (r: Option<State>)
    ensures r.Some? ==> FirstWith(r.value.remoteCandidates, rc.remoteAddress).Some?
    ensures r.Some? ==> r.value == s.(remoteCandidates := r.value.remoteCandidates)
  {
    if FirstWith(s.remoteCandidates, rc.remoteAddress).Some? then Some(s)
    else if |s.remoteCandidates| > MAX_CANDIDATES then None
    else
      FirstWithExtends(s.remoteCandidates, LearnedRemote(rc, env), rc.remoteAddress);
      Some(s.(remoteCandidates := s.remoteCandidates + [LearnedRemote(rc, env)]))
  }

  function HandleIncomingCheck(s: State, rc: RxCheck, env: Env): Step<State> {
    var s1 := LearnRemote(s, rc, env);
    if s1.None? then Ok(s)
    else
      var r := FirstWith(s1.value.remoteCandidates, rc.remoteAddress).value;
      match FirstWith(s1.value.localCandidates, rc.localAddress)
      case None => Panic(NilLocalCandidate)
      case Some(l) =>
        var i := IndexOfPair(s1.value.board.checks, l, r, 0);
        if i < |s1.value.board.checks| then TriggerListed(s1.value, i, rc.userCandidate, env)
        else Ok(AddTriggered(s1.value, l, r, rc.userCandidate))
  }

  /** An authenticated binding request with its role attributes. */
  datatype RxRequest = RxRequest(check: RxCheck, controlling: Option<nat>, controlled: Option<nat>)

  /** processBindingRequest after authentication. */
  function ProcessBindingRequest(s: State, rq: RxRequest, env: Env): Step<State> {
    var (role, verdict) := JudgeRequest(s.role, s.tieBreaker, rq.controlling, rq.controlled);
    var s1 := s.(role := role);
    if !verdict.Accepted? || s.completeResult >= ALL_COMPLETE then Ok(s1)
    else if s.board.open == {} && s.completeResult == NOT_COMPLETE then Ok(s1.(early := s.early + [rq.check]))
    else HandleIncomingCheck(s1, rq.check, env)
  }

  /** A binding response: an error with its code and role attributes, or the mapped address of a
      success, absent when it does not decode. */
  datatype Response =
    | ErrorResponse(roleConflict: bool, hasControlled: bool, hasControlling: bool)
    | SuccessResponse(mapped: Option<AddrText>)

  /** The first local candidate with the mapped address on the base of the check. */
  function FirstMapped(cs: seq<Candidate>, addr: string, base: string): (r: Option<Candidate>)
    ensures r.Some? ==> r.value in cs && r.value.addr == addr && r.value.baseAddr == base
    ensures r.None? <==> forall c :: c in cs ==> !(c.addr == addr && c.baseAddr == base)
  {
    if cs == [] then None
    else if cs[0].addr == addr && cs[0].baseAddr == base then Some(cs[0])
    else FirstMapped(cs[1..], addr, base)
  }

  const DEFAULT_PREFERENCE := 0xFFFF

  function LearnedLocal(of: Candidate, addr: string, env: Env): Candidate {
    BLANK.(foundation := env.foundationOf(of.baseAddr), baseAddr := of.baseAddr, ctype := PeerReflexive,
           componentID := of.componentID, addr := addr, transport := of.transport,
           priority := CalcCandidatePriority(PeerReflexive, DEFAULT_PREFERENCE, of.componentID))
  }

  /** The valid pair of a successful check: on the list already, or new. */
  function ValidPairFor(s: State, i: nat, l: Candidate): CheckView
    requires i < |s.board.checks|
  {
    var c := s.board.checks[i];
    CheckView(MakePair(s.role, l, c.pair.remote), SUCCEEDED, c.nominated, NoError)
  }

  predicate ViewsSortedDown(vs: seq<CheckView>) {
    forall i, j :: 0 <= i < j < |vs| ==> vs[i].pair.priority >= vs[j].pair.priority
  }

  /** What sort.Sort promises for the valid list. */
  ghost predicate SortOf(sorted: seq<CheckView>, vs: seq<CheckView>) {
    ViewsSortedDown(sorted) && multiset(sorted) == multiset(vs)
  }

  /** Section 7.1.2.2.3 of RFC 5245. `order` is the valid list as sort.Sort left it; it is used
      only when a pair was added. */
  function ConstructValidPair(s: State, i: nat, l: Candidate, order: seq<CheckView>): (r: State)
    requires i < |s.board.checks|
    ensures r.board == s.board && r.early == s.early
  {
    var c := s.board.checks[i];
    var k := IndexOfPair(s.valid, l, c.pair.remote, 0);
    if k < |s.valid| then
      var v := s.valid[k].(nominated := c.nominated);
      MarkValidAndNominated(s.(valid := s.valid[k := v]), v)
    else
      MarkValidAndNominated(s.(valid := order), ValidPairFor(s, i, l))
  }

  /** The order must be a sorted permutation exactly when a pair is added. */
  ghost predicate OrderFits(s: State, i: nat, l: Candidate, order: seq<CheckView>)
    requires i < |s.board.checks|
  {
    IndexOfPair(s.valid, l, s.board.checks[i].pair.remote, 0) == |s.valid| ==>
      SortOf(order, s.valid + [ValidPairFor(s, i, l)])
  }

  /** The local candidate of the valid pair, learned if the mapped address is new on this base. */
  function MappedLocal(s: State, i: nat, mapped: string, env: Env): Candidate
    requires i < |s.board.checks|
  {
    var of := s.board.checks[i].pair.local;
    match FirstMapped(s.localCandidates, mapped, of.baseAddr)
    case Some(l) => l
    case None => LearnedLocal(of, mapped, env)
  }

  function LearnLocal(s: State, i: nat, mapped: string, env: Env): State
    requires i < |s.board.checks|
  {
    var of := s.board.checks[i].pair.local;
    if FirstMapped(s.localCandidates, mapped, of.baseAddr).Some? then s
    else s.(localCandidates := s.localCandidates + [LearnedLocal(of, mapped, env)])
  }

  /** The success branch of handleCheckResponse. */
  function CheckSucceeded(s: State, i: nat, mapped: string, order: seq<CheckView>, env: Env): (t: Step<State>)
    requires i < |s.board.checks|
    ensures t.Ok? ==> |t.value.board.checks| == |s.board.checks| && t.value.early == s.early
  {
    var s1 := ConstructValidPair(LearnLocal(s, i, mapped, env), i, MappedLocal(s, i, mapped, env), order);
    FinishCheck(s1, i, SUCCEEDED, NoError, env)
  }

  /** The responses that lead to a valid pair. */
  predicate MakesPair(s: State, i: nat, from: string, res: Response)
    requires i < |s.board.checks|
  {
    s.board.checks[i].state < SUCCEEDED && s.completeResult < ALL_COMPLETE
    && res.SuccessResponse? && s.board.checks[i].pair.remote.addr == from && res.mapped.Some?
  }

  /** processBindingResponse for a response to check i that arrived from `from`. */
  function ProcessBindingResponse(s: State, i: nat, from: string, res: Response, order: seq<CheckView>, env: Env)
    : Step<State>
    requires i < |s.board.checks|
  {
    var c := s.board.checks[i];
    if c.state >= SUCCEEDED || s.completeResult >= ALL_COMPLETE then Ok(s)
    else match res
      case ErrorResponse(roleConflict, hasControlled, hasControlling) =>
        if !roleConflict then FinishCheck(s, i, FAILED, UnknownErrorCode, env)
        else if c.state == IN_PROGRESS && c.pair.key !in s.board.open then Panic(SendOnMissingChannel)
        else Ok(s.(role := RoleAfterConflict(hasControlled, hasControlling)))
      case SuccessResponse(mapped) =>
        if c.pair.remote.addr != from then FinishCheck(s, i, FAILED, UnknownAddress, env)
        else match mapped
          case None => FinishCheck(s, i, FAILED, NoMappedAddress, env)
          case Some(addr) => CheckSucceeded(s, i, addr, order, env)
  }

  /** The loop's reaction to a check that was tried too many times. */
  function ProcessTryFailed(s: State, i: nat, env: Env): Step<State>
    requires i < |s.board.checks|
  {
    if s.board.checks[i].state >= SUCCEEDED then Ok(s)
    else FinishCheck(s, i, FAILED, TriedTooManyTimes, env)
  }

  /** The goroutine that waits for a nomination. */
  function NominationTimeout(s: State): Step<State> {
    var s1 := s.(timerArmed := false);
    if s.nominatedCheck.None? then IceFailed(s1) else Ok(s1)
  }

  /** startCheck up to the point where checkMap is filled. */
  function StartCheck(s: State): State
    requires s.board.checks != []
  {
    var s1 := s.(isNominating := s.isNominating || s.role.Controlling?);
    if s.board.checks[0].state != FROZEN then s1
    else s1.(board := s.board.(open := s.board.open + AllKeys(s.board.checks)), begun := true)
  }

  function AllKeys(cs: seq<CheckView>): set<string> {
    set i | 0 <= i < |cs| :: cs[i].pair.key
  }

  /** One iteration of the first pass of allcheck: the first check of each foundation waits. */
  function FirstPass(b: Board, i: nat): Step<Board>
    requires i < |b.checks|
  {
    if exists j :: 0 <= j < i && b.checks[j].pair.local.foundation == b.checks[i].pair.local.foundation then Ok(b)
    else ChangeCheckState(b, i, WAITING, NoError)
  }

  /** One iteration of the later passes: a check found in the state of the pass is started. */
  function LaunchPass(b: Board, i: nat, phase: CheckState): Step<Board>
    requires i < |b.checks| && phase < IN_PROGRESS
  {
    if b.checks[i].state == phase then ChangeCheckState(b, i, IN_PROGRESS, NoError) else Ok(b)
  }

  /** One iteration of the pass over the requests that came before the answer. */
  function ReplayEarly(s: State, k: nat, env: Env): Step<State>
    requires k < |s.early|
  {
    HandleIncomingCheck(s, s.early[k], env)
  }

  /** The start of the goroutine onecheck when it was told to nominate. */
  function NominateOnStart(s: State, i: nat): State
    requires i < |s.board.checks|
  {
    if s.role.Controlling? then s.(board := SetNominated(s.board, i, true)) else s
  }

  datatype Event =
    | Start
    | First(i: nat)
    | Replay(k: nat)
    | Launch(i: nat, phase: CheckState)
    | Nominate(i: nat)
    | Request(rq: RxRequest)
    | Respond(i: nat, from: string, res: Response, order: seq<CheckView>)
    | TryFailed(i: nat)
    | Timeout

  /** When an event can happen: indices name checks and early requests, checks run once started, a
      second start comes after the first pass of the first one and is refused, the timer fires once
      armed, and sort.Sort keeps its promise. */
  ghost predicate Enabled(s: State, e: Event, env: Env) {
    match e
    case Start => s.board.checks != [] && (s.begun ==> s.board.checks[0].state != FROZEN)
    case First(i) => s.begun && i < |s.board.checks|
    case Replay(k) => s.begun && k < |s.early|
    case Launch(i, phase) => s.begun && i < |s.board.checks| && phase < IN_PROGRESS
    case Nominate(i) => s.begun && i < |s.board.checks|
    case Request(rq) => true
    case Respond(i, from, res, order) =>
      s.begun && i < |s.board.checks|
      && (MakesPair(s, i, from, res) ==>
            OrderFits(LearnLocal(s, i, res.mapped.value, env), i, MappedLocal(s, i, res.mapped.value, env), order))
    case TryFailed(i) => s.begun && i < |s.board.checks|
    case Timeout => s.timerArmed
  }

  /** The event with the order in which sort.Sort left the valid list. */
  function WithOrder(e: Event, order: seq<CheckView>): Event {
    if e.Respond? then e.(order := order) else e
  }

  ghost function Next(s: State, e: Event, env: Env): Step<State>
    requires Enabled(s, e, env)
  {
    match e
    case Start => Ok(StartCheck(s))
    case First(i) =>
      var b :- FirstPass(s.board, i);
      Ok(s.(board := b))
    case Replay(k) => ReplayEarly(s, k, env)
    case Launch(i, phase) =>
      var b :- LaunchPass(s.board, i, phase);
      Ok(s.(board := b))
    case Nominate(i) => Ok(NominateOnStart(s, i))
    case Request(rq) => ProcessBindingRequest(s, rq, env)
    case Respond(i, from, res, order) => ProcessBindingResponse(s, i, from, res, order, env)
    case TryFailed(i) => ProcessTryFailed(s, i, env)
    case Timeout => NominationTimeout(s)
  }
}
