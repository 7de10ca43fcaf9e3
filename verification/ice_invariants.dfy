/** What every run of an ICE session keeps. */
module IceInvariants {
  import opened Wrappers
  import opened PairPriority
  import opened IceTypes
  import opened Roles
  import opened IceSpec
  import opened IceBoard

  /** Candidate lists: an address is remote once, a local candidate is known by address and base,
      and there are never more than nine remote candidates. */
  predicate CandidatesOk(locals: seq<Candidate>, remotes: seq<Candidate>) {
    (forall l :: l in locals ==> '-' !in l.addr)
    && (forall i, j :: 0 <= i < j < |locals| ==>
       !(locals[i].addr == locals[j].addr && locals[i].baseAddr == locals[j].baseAddr))
    && DistinctAddrs(remotes)
    && |remotes| <= MAX_CANDIDATES + 1
  }

  /** A pair on the check list joins the first local candidate with its address to a remote one. */
  predicate PairListed(p: Pair, locals: seq<Candidate>, remotes: seq<Candidate>) {
    FirstWith(locals, p.local.addr) == Some(p.local) && p.remote in remotes && p.key == Key(p.local, p.remote)
  }

  predicate ChecksListed(cs: seq<CheckView>, locals: seq<Candidate>, remotes: seq<Candidate>) {
    forall i :: 0 <= i < |cs| ==> PairListed(cs[i].pair, locals, remotes)
  }

  predicate HasPair(vs: seq<CheckView>, p: Pair) {
    exists v :: v in vs && v.pair == p
  }

  /** validCheck is a valid pair of maximal priority. */
  predicate BestOk(vs: seq<CheckView>, best: Option<Pair>) {
    (best.None? <==> vs == [])
    && (best.Some? ==> HasPair(vs, best.value))
    && forall v :: v in vs ==> best.Some? && v.pair.priority <= best.value.priority
  }

  /** nominatedCheck is a valid pair whose priority is at least that of every nominated pair. */
  predicate ChosenOk(vs: seq<CheckView>, chosen: Option<Pair>) {
    (chosen.Some? ==> HasPair(vs, chosen.value))
    && forall v :: v in vs && v.nominated ==> chosen.Some? && v.pair.priority <= chosen.value.priority
  }

  predicate HasRemote(vs: seq<CheckView>, r: Candidate) {
    exists v :: v in vs && v.pair.remote == r
  }

  /** A check that has succeeded has left a valid pair with its remote candidate. */
  predicate SuccessWitnessed(cs: seq<CheckView>, vs: seq<CheckView>) {
    forall i :: 0 <= i < |cs| && cs[i].state == SUCCEEDED ==> HasRemote(vs, cs[i].pair.remote)
  }

  /** The completion level against the notifications of the upper layer. */
  predicate LevelOk(s: State) {
    (s.completeResult < COMPLETE_SUCCESS ==> s.transport.Negotiation? && !s.silent)
    && (s.completeResult >= COMPLETE_SUCCESS ==> (s.transport.Negotiation? <==> s.silent))
    && s.notices == (if s.transport.Negotiation? then 0 else 1)
    && (s.transport.TransportFailed? <==> s.completeResult == COMPLETE_FAILURE)
    && (s.completeResult == COMPLETE_SUCCESS || s.completeResult == ALL_COMPLETE ==> s.nominatedCheck.Some?)
    && (s.timerArmed ==> s.completeResult >= CHECK_COMPLETE)
  }

  ghost predicate BeforeStart(s: State) {
    BoardFresh(s.board) && s.valid == [] && s.completeResult == NOT_COMPLETE && !s.timerArmed
  }

  ghost predicate Inv(s: State) {
    CandidatesOk(s.localCandidates, s.remoteCandidates)
    && ChecksListed(s.board.checks, s.localCandidates, s.remoteCandidates)
    && (if s.begun then BoardOk(s.board) else BeforeStart(s))
    && ViewsSortedDown(s.valid)
    && BestOk(s.valid, s.validCheck)
    && ChosenOk(s.valid, s.nominatedCheck)
    && SuccessWitnessed(s.board.checks, s.valid)
    && LevelOk(s)
  }

  lemma InvParts(s: State)
    requires Inv(s)
    ensures CandidatesOk(s.localCandidates, s.remoteCandidates)
    ensures ChecksListed(s.board.checks, s.localCandidates, s.remoteCandidates)
    ensures s.begun ==> BoardOk(s.board)
    ensures ValidOk(s)
    ensures SuccessWitnessed(s.board.checks, s.valid)
    ensures LevelOk(s)
  {
  }

  lemma SucceededHasValid(s: State, i: nat)
    requires Inv(s) && i < |s.board.checks| && s.board.checks[i].state == SUCCEEDED
    ensures s.validCheck.Some? && HasRemote(s.valid, s.board.checks[i].pair.remote)
  {
    var v :| v in s.valid && v.pair.remote == s.board.checks[i].pair.remote;
  }

  predicate NotLower(a: Option<Pair>, b: Option<Pair>) {
    a.Some? ==> b.Some? && a.value.priority <= b.value.priority
  }

  predicate PairsKept(vs: seq<CheckView>, ws: seq<CheckView>) {
    forall v :: v in vs ==> HasPair(ws, v.pair)
  }

  /** How the session may change, whatever happens in between. */
  predicate Follows(s: State, t: State) {
    BoardGrows(s.board, t.board)
    && s.completeResult <= t.completeResult
    && s.notices <= t.notices
    && NotLower(s.validCheck, t.validCheck)
    && NotLower(s.nominatedCheck, t.nominatedCheck)
    && PairsKept(s.valid, t.valid)
    && s.localCandidates <= t.localCandidates
    && s.remoteCandidates <= t.remoteCandidates
    && (s.begun ==> t.begun)
    && (s.completeResult == COMPLETE_SUCCESS || s.completeResult == ALL_COMPLETE ==>
          t.completeResult != COMPLETE_FAILURE)
  }

  lemma FollowsTransitive(s: State, t: State, u: State)
    requires Follows(s, t) && Follows(t, u)
    ensures Follows(s, u)
  {
    BoardGrowsTransitive(s.board, t.board, u.board);
    PairsKeptTransitive(s.valid, t.valid, u.valid);
  }

  lemma GrowsAt(s: State, t: State, i: nat)
    requires Follows(s, t) && i < |s.board.checks|
    ensures i < |t.board.checks| && CheckGrows(s.board.checks[i], t.board.checks[i])
  {
  }

  /** The panics that no run reaches are those not listed here. */
  predicate Tolerated(why: PanicKind) {
    why.LevelMustIncrease? || why.NotImplemented? || why.NoServerSock? || why.NilLocalCandidate?
  }

  // ----- completion -----

  /** Only the level, the timer and the notifications change. */
  predicate OnlyLevel(s: State, t: State) {
    t == s.(completeResult := t.completeResult, transport := t.transport, timerArmed := t.timerArmed,
            notices := t.notices, silent := t.silent)
    && s.completeResult <= t.completeResult && s.notices <= t.notices
    && (s.completeResult == COMPLETE_SUCCESS || s.completeResult == ALL_COMPLETE ==>
          t.completeResult != COMPLETE_FAILURE)
  }

  lemma IceFailedOk(s: State)
    requires LevelOk(s) && s.nominatedCheck.None?
    ensures IceFailed(s).Panic? ==> Tolerated(IceFailed(s).why)
    ensures IceFailed(s).Ok? ==> LevelOk(IceFailed(s).value) && OnlyLevel(s, IceFailed(s).value)
  {
  }

  lemma IceSucceededOk(s: State, all: bool, env: Env)
    requires LevelOk(s) && s.nominatedCheck.Some? && BoardOk(s.board)
    requires all ==> AllFinished(s.board.checks)
    ensures IceSucceeded(s, all, env).Panic? ==> Tolerated(IceSucceeded(s, all, env).why)
    ensures IceSucceeded(s, all, env).Ok? ==>
              LevelOk(IceSucceeded(s, all, env).value) && OnlyLevel(s, IceSucceeded(s, all, env).value)
  {
    if all {
      NoneOpenWhenFinished(s.board.checks);
    }
  }

  lemma ConcludeOk(s: State, env: Env)
    requires LevelOk(s) && BoardOk(s.board)
    ensures Conclude(s, env).Panic? ==> Tolerated(Conclude(s, env).why)
    ensures Conclude(s, env).Ok? ==> LevelOk(Conclude(s, env).value) && OnlyLevel(s, Conclude(s, env).value)
  {
    if s.nominatedCheck.Some? {
      IceSucceededOk(s, AllFinished(s.board.checks), env);
    } else {
      IceFailedOk(s);
    }
  }

  // ----- the check list inside a session -----

  /** Replacing the board by a grown one of the same length, with every success witnessed. */
  lemma NewBoardOk(s: State, b: Board)
    requires Inv(s) && s.begun
    requires BoardOk(b) && BoardGrows(s.board, b) && |b.checks| == |s.board.checks|
    requires SuccessWitnessed(b.checks, s.valid)
    ensures Inv(s.(board := b)) && Follows(s, s.(board := b))
  {
    forall i | 0 <= i < |b.checks|
      ensures PairListed(b.checks[i].pair, s.localCandidates, s.remoteCandidates)
    {
      assert CheckGrows(s.board.checks[i], b.checks[i]);
    }
  }

  lemma WitnessKept(b: Board, d: Board, vs: seq<CheckView>)
    requires BoardGrows(b, d) && |b.checks| == |d.checks| && SuccessWitnessed(b.checks, vs)
    requires forall j :: 0 <= j < |b.checks| && b.checks[j].state < SUCCEEDED ==> d.checks[j].state != SUCCEEDED
    ensures SuccessWitnessed(d.checks, vs)
  {
    forall i | 0 <= i < |d.checks| && d.checks[i].state == SUCCEEDED
      ensures HasRemote(vs, d.checks[i].pair.remote)
    {
      assert CheckGrows(b.checks[i], d.checks[i]);
      assert b.checks[i].state == SUCCEEDED;
    }
  }

  lemma OnlyLevelOk(s: State, t: State)
    requires Inv(s) && s.begun && OnlyLevel(s, t) && LevelOk(t)
    ensures Inv(t)
    ensures Follows(s, t)
  {
    assert forall v :: v in s.valid ==> v in t.valid;
  }

  lemma TryCompleteOk(s: State, i: nat, env: Env)
    requires Inv(s) && s.begun && i < |s.board.checks|
    ensures TryCompleteCheck(s, i, env).Panic? ==> Tolerated(TryCompleteCheck(s, i, env).why)
    ensures TryCompleteCheck(s, i, env).Ok? ==>
              Inv(TryCompleteCheck(s, i, env).value) && Follows(s, TryCompleteCheck(s, i, env).value)
  {
    hide Inv, Follows, BoardOk, BoardGrows, LevelOk, SuccessWitnessed, ChecksListed, CandidatesOk, BestOk, ChosenOk,
         ViewsSortedDown, SettleBoard, Conclude;
    InvParts(s);
    SettleBoardKeeps(s.board, i);
    var b := SettleBoard(s.board, i).value;
    WitnessKept(s.board, b, s.valid);
    NewBoardOk(s, b);
    var s1 := s.(board := b);
    InvParts(s1);
    ConcludeOk(s1, env);
    if Conclude(s1, env).Ok? {
      OnlyLevelOk(s1, Conclude(s1, env).value);
      FollowsTransitive(s, s1, Conclude(s1, env).value);
    }
  }

  lemma FinishCheckOk(s: State, i: nat, to: CheckState, err: CheckError, env: Env)
    requires Inv(s) && s.begun && i < |s.board.checks| && s.board.checks[i].state < SUCCEEDED
    requires to == SUCCEEDED || to == FAILED
    requires err.NoError? <==> to != FAILED
    requires to == SUCCEEDED ==> HasRemote(s.valid, s.board.checks[i].pair.remote)
    ensures FinishCheck(s, i, to, err, env).Panic? ==> Tolerated(FinishCheck(s, i, to, err, env).why)
    ensures FinishCheck(s, i, to, err, env).Ok? ==>
              Inv(FinishCheck(s, i, to, err, env).value) && Follows(s, FinishCheck(s, i, to, err, env).value)
  {
    hide Inv, Follows, BoardOk, BoardGrows, LevelOk, ChecksListed, CandidatesOk, BestOk, ChosenOk, ViewsSortedDown,
         TryCompleteCheck, ChangeCheckState;
    InvParts(s);
    ChangeKeeps(s.board, i, to, err);
    var b := ChangeCheckState(s.board, i, to, err).value;
    forall j | 0 <= j < |b.checks| && b.checks[j].state == SUCCEEDED
      ensures HasRemote(s.valid, b.checks[j].pair.remote)
    {
      if j != i {
        assert b.checks[j] == s.board.checks[j];
      }
    }
    NewBoardOk(s, b);
    var s1 := s.(board := b);
    TryCompleteOk(s1, i, env);
    if TryCompleteCheck(s1, i, env).Ok? {
      FollowsTransitive(s, s1, TryCompleteCheck(s1, i, env).value);
    }
  }

  /** The invariant holds when a check has changed and completion is still to come. */
  lemma FinishedInv(s: State, i: nat, to: CheckState, err: CheckError)
    requires Inv(s) && s.begun && i < |s.board.checks| && s.board.checks[i].state < SUCCEEDED
    requires to == SUCCEEDED || to == FAILED
    requires err.NoError? <==> to != FAILED
    requires to == SUCCEEDED ==> HasRemote(s.valid, s.board.checks[i].pair.remote)
    ensures ChangeCheckState(s.board, i, to, err).Ok?
    ensures Inv(s.(board := ChangeCheckState(s.board, i, to, err).value))
  {
    hide Inv, Follows, BoardOk, BoardGrows, LevelOk, ChecksListed, CandidatesOk, BestOk, ChosenOk, ViewsSortedDown,
         ChangeCheckState, HasRemote;
    InvParts(s);
    ChangeKeeps(s.board, i, to, err);
    NewBoardOk(s, ChangeCheckState(s.board, i, to, err).value);
  }

  // ----- the valid list -----

  lemma BestMarked(vs: seq<CheckView>, best: Option<Pair>, v: CheckView)
    requires v in vs && (best.Some? ==> HasPair(vs, best.value))
    requires forall u :: u in vs && u != v ==> best.Some? && u.pair.priority <= best.value.priority
    ensures BestOk(vs, Better(best, v.pair)) && NotLower(best, Better(best, v.pair))
  {
  }

  lemma ChosenMarked(vs: seq<CheckView>, chosen: Option<Pair>, v: CheckView)
    requires v in vs && (chosen.Some? ==> HasPair(vs, chosen.value))
    requires forall u :: u in vs && u != v && u.nominated ==> chosen.Some? && u.pair.priority <= chosen.value.priority
    ensures
      var t := if v.nominated then Better(chosen, v.pair) else chosen;
      ChosenOk(vs, t) && NotLower(chosen, t)
  {
  }

  lemma UpdateMembers(vs: seq<CheckView>, k: nat, v: CheckView)
    requires k < |vs| && v.pair == vs[k].pair
    ensures PairsKept(vs, vs[k := v])
    ensures v in vs[k := v] && forall u :: u in vs[k := v] ==> u == v || u in vs
  {
    var ws := vs[k := v];
    assert ws[k] == v;
    forall u | u in vs
      ensures HasPair(ws, u.pair)
    {
      var i :| 0 <= i < |vs| && vs[i] == u;
      assert ws[i] in ws && ws[i].pair == u.pair;
    }
  }

  lemma RemotesKept(vs: seq<CheckView>, ws: seq<CheckView>, r: Candidate)
    requires PairsKept(vs, ws) && HasRemote(vs, r)
    ensures HasRemote(ws, r)
  {
    var u :| u in vs && u.pair.remote == r;
    assert HasPair(ws, u.pair);
  }

  predicate ValidOk(s: State) {
    ViewsSortedDown(s.valid) && BestOk(s.valid, s.validCheck) && ChosenOk(s.valid, s.nominatedCheck)
  }

  /** Only the valid list and what is chosen from it change. */
  predicate OnlyValid(s: State, t: State) {
    t == s.(valid := t.valid, validCheck := t.validCheck, nominatedCheck := t.nominatedCheck)
    && NotLower(s.validCheck, t.validCheck) && NotLower(s.nominatedCheck, t.nominatedCheck)
    && PairsKept(s.valid, t.valid)
  }

  /** Changing the nominated flag of a valid pair and marking it. */
  lemma FlagOk(s: State, k: nat, nominated: bool)
    requires ValidOk(s) && k < |s.valid|
    ensures
      var v := s.valid[k].(nominated := nominated);
      var t := MarkValidAndNominated(s.(valid := s.valid[k := v]), v);
      ValidOk(t) && OnlyValid(s, t) && (nominated ==> t.nominatedCheck.Some?)
  {
    hide HasPair, PairsKept;
    var v := s.valid[k].(nominated := nominated);
    var ws := s.valid[k := v];
    UpdateMembers(s.valid, k, v);
    KeptPair(s.valid, ws, s.validCheck);
    KeptPair(s.valid, ws, s.nominatedCheck);
    BestMarked(ws, s.validCheck, v);
    ChosenMarked(ws, s.nominatedCheck, v);
  }

  lemma KeptPair(vs: seq<CheckView>, ws: seq<CheckView>, p: Option<Pair>)
    requires PairsKept(vs, ws) && (p.Some? ==> HasPair(vs, p.value))
    ensures p.Some? ==> HasPair(ws, p.value)
  {
    if p.Some? {
      var v :| v in vs && v.pair == p.value;
    }
  }

  lemma PairsKeptTransitive(vs: seq<CheckView>, ws: seq<CheckView>, xs: seq<CheckView>)
    requires PairsKept(vs, ws) && PairsKept(ws, xs)
    ensures PairsKept(vs, xs)
  {
    forall v | v in vs
      ensures HasPair(xs, v.pair)
    {
      var w :| w in ws && w.pair == v.pair;
    }
  }

  lemma {:induction false} NominateValidOk(s: State, remote: Candidate, k: nat)
    requires ValidOk(s) && k <= |s.valid|
    ensures ValidOk(NominateValid(s, remote, k)) && OnlyValid(s, NominateValid(s, remote, k))
    ensures (exists j :: k <= j < |s.valid| && s.valid[j].pair.remote == remote) ==>
              NominateValid(s, remote, k).nominatedCheck.Some?
    decreases |s.valid| - k
  {
    hide ValidOk, PairsKept, MarkValidAndNominated;
    if k < |s.valid| {
      if s.valid[k].pair.remote == remote {
        FlagOk(s, k, true);
        var v := s.valid[k].(nominated := true);
        var t := MarkValidAndNominated(s.(valid := s.valid[k := v]), v);
        NominateValidOk(t, remote, k + 1);
        PairsKeptTransitive(s.valid, t.valid, NominateValid(t, remote, k + 1).valid);
      } else {
        NominateValidOk(s, remote, k + 1);
      }
    } else {
      SameValid(s, s);
    }
  }

  lemma OnlyValidOk(s: State, t: State)
    requires Inv(s) && s.begun && OnlyValid(s, t) && ValidOk(t)
    ensures Inv(t) && Follows(s, t)
  {
    hide BoardOk, ChecksListed, CandidatesOk, BestOk, ChosenOk, ViewsSortedDown;
    BoardGrowsReflexive(s.board);
    forall i | 0 <= i < |t.board.checks| && t.board.checks[i].state == SUCCEEDED
      ensures HasRemote(t.valid, t.board.checks[i].pair.remote)
    {
      RemotesKept(s.valid, t.valid, s.board.checks[i].pair.remote);
    }
  }

  lemma BoardGrowsReflexive(b: Board)
    ensures BoardGrows(b, b)
  {
  }

  lemma SortedMembers(order: seq<CheckView>, vs: seq<CheckView>)
    requires multiset(order) == multiset(vs)
    ensures forall v :: v in order <==> v in vs
  {
    forall v: CheckView
      ensures v in order <==> v in vs
    {
      assert v in order <==> v in multiset(order);
      assert v in vs <==> v in multiset(vs);
    }
  }

  /** Constructing the valid pair of a success, whatever order sort.Sort leaves ties in. */
  lemma ConstructValidPairOk(s: State, i: nat, l: Candidate, order: seq<CheckView>)
    requires ValidOk(s) && i < |s.board.checks| && OrderFits(s, i, l, order)
    ensures
      var t := ConstructValidPair(s, i, l, order);
      ValidOk(t) && OnlyValid(s, t)
      && HasRemote(t.valid, s.board.checks[i].pair.remote)
      && (s.board.checks[i].nominated ==> t.nominatedCheck.Some?)
  {
    var c := s.board.checks[i];
    var k := IndexOfPair(s.valid, l, c.pair.remote, 0);
    if k < |s.valid| {
      FlagOk(s, k, c.nominated);
      assert s.valid[k] in s.valid;
      RemotesKept(s.valid, ConstructValidPair(s, i, l, order).valid, c.pair.remote);
    } else {
      AddValidOk(s, ValidPairFor(s, i, l), order);
    }
  }

  lemma AddValidOk(s: State, v: CheckView, order: seq<CheckView>)
    requires ValidOk(s) && SortOf(order, s.valid + [v])
    ensures
      var t := MarkValidAndNominated(s.(valid := order), v);
      ValidOk(t) && OnlyValid(s, t) && HasRemote(t.valid, v.pair.remote) && (v.nominated ==> t.nominatedCheck.Some?)
  {
    SortedMembers(order, s.valid + [v]);
    assert v in order;
    assert forall u :: u in s.valid ==> u in order;
    assert forall u :: u in order ==> u == v || u in s.valid;
    KeptPair(s.valid, order, s.validCheck);
    KeptPair(s.valid, order, s.nominatedCheck);
    BestMarked(order, s.validCheck, v);
    ChosenMarked(order, s.nominatedCheck, v);
  }

  // ----- the events -----

  lemma NewCandidatesOk(s: State, t: State)
    requires Inv(s) && s.begun
    requires t == s.(localCandidates := t.localCandidates, remoteCandidates := t.remoteCandidates)
    requires s.localCandidates <= t.localCandidates && s.remoteCandidates <= t.remoteCandidates
    requires CandidatesOk(t.localCandidates, t.remoteCandidates)
    requires ChecksListed(t.board.checks, t.localCandidates, t.remoteCandidates)
    ensures Inv(t) && Follows(s, t)
  {
    hide CandidatesOk, ChecksListed, BoardOk, BoardGrows, BestOk, ChosenOk, ViewsSortedDown, SuccessWitnessed,
         PairsKept;
    BoardGrowsReflexive(s.board);
    SameValid(s, t);
  }

  lemma LearnLocalOk(s: State, i: nat, mapped: AddrText, env: Env)
    requires Inv(s) && s.begun && i < |s.board.checks|
    ensures Inv(LearnLocal(s, i, mapped, env)) && Follows(s, LearnLocal(s, i, mapped, env))
    ensures MappedLocal(s, i, mapped, env) in LearnLocal(s, i, mapped, env).localCandidates
  {
    hide Inv, Follows, BoardOk, LevelOk, BestOk, ChosenOk, ViewsSortedDown, SuccessWitnessed;
    InvParts(s);
    var t := LearnLocal(s, i, mapped, env);
    var of := s.board.checks[i].pair.local;
    if FirstMapped(s.localCandidates, mapped, of.baseAddr).None? {
      var l := LearnedLocal(of, mapped, env);
      StillListed(s.board.checks, s.localCandidates, s.remoteCandidates, l);
      StillCandidates(s.localCandidates, s.remoteCandidates, l);
    }
    NewCandidatesOk(s, t);
  }

  lemma StillListed(cs: seq<CheckView>, locals: seq<Candidate>, remotes: seq<Candidate>, l: Candidate)
    requires ChecksListed(cs, locals, remotes)
    ensures ChecksListed(cs, locals + [l], remotes)
  {
    forall j | 0 <= j < |cs|
      ensures PairListed(cs[j].pair, locals + [l], remotes)
    {
      assert PairListed(cs[j].pair, locals, remotes);
      FirstWithExtends(locals, l, cs[j].pair.local.addr);
    }
  }

  lemma StillCandidates(locals: seq<Candidate>, remotes: seq<Candidate>, l: Candidate)
    requires CandidatesOk(locals, remotes) && '-' !in l.addr
    requires forall c :: c in locals ==> !(c.addr == l.addr && c.baseAddr == l.baseAddr)
    ensures CandidatesOk(locals + [l], remotes)
  {
  }

  lemma SameValid(s: State, t: State)
    requires t.valid == s.valid
    ensures PairsKept(s.valid, t.valid)
  {
  }

  lemma CheckSucceededOk(s: State, i: nat, mapped: AddrText, order: seq<CheckView>, env: Env)
    requires Inv(s) && s.begun && i < |s.board.checks| && s.board.checks[i].state < SUCCEEDED
    requires s.completeResult < ALL_COMPLETE
    requires OrderFits(LearnLocal(s, i, mapped, env), i, MappedLocal(s, i, mapped, env), order)
    ensures CheckSucceeded(s, i, mapped, order, env).Panic? ==> Tolerated(CheckSucceeded(s, i, mapped, order, env).why)
    ensures CheckSucceeded(s, i, mapped, order, env).Ok? ==>
              Inv(CheckSucceeded(s, i, mapped, order, env).value)
              && Follows(s, CheckSucceeded(s, i, mapped, order, env).value)
  {
    var l := MappedLocal(s, i, mapped, env);
    var s1 := LearnLocal(s, i, mapped, env);
    LearnLocalOk(s, i, mapped, env);
    ConstructValidPairOk(s1, i, l, order);
    var s2 := ConstructValidPair(s1, i, l, order);
    OnlyValidOk(s1, s2);
    FollowsTransitive(s, s1, s2);
    FinishCheckOk(s2, i, SUCCEEDED, NoError, env);
    if FinishCheck(s2, i, SUCCEEDED, NoError, env).Ok? {
      FollowsTransitive(s, s2, FinishCheck(s2, i, SUCCEEDED, NoError, env).value);
    }
  }

  lemma RoleOk(s: State, role: Role)
    requires Inv(s)
    ensures Inv(s.(role := role)) && Follows(s, s.(role := role))
  {
    SameValid(s, s.(role := role));
  }

  lemma ResponseOk(s: State, i: nat, from: string, res: Response, order: seq<CheckView>, env: Env)
    requires Inv(s) && Enabled(s, Respond(i, from, res, order), env)
    ensures ProcessBindingResponse(s, i, from, res, order, env).Panic? ==>
              Tolerated(ProcessBindingResponse(s, i, from, res, order, env).why)
    ensures ProcessBindingResponse(s, i, from, res, order, env).Ok? ==>
              Inv(ProcessBindingResponse(s, i, from, res, order, env).value)
              && Follows(s, ProcessBindingResponse(s, i, from, res, order, env).value)
  {
    hide Inv, Follows, BoardOk, BoardGrows, LevelOk, SuccessWitnessed, ChecksListed, CandidatesOk, BestOk, ChosenOk,
         ViewsSortedDown, FinishCheck, CheckSucceeded, OrderFits;
    InvParts(s);
    RoleOk(s, s.role);
    var c := s.board.checks[i];
    if c.state < SUCCEEDED && s.completeResult < ALL_COMPLETE {
      match res {
        case ErrorResponse(roleConflict, hasControlled, hasControlling) =>
          if !roleConflict {
            FinishCheckOk(s, i, FAILED, UnknownErrorCode, env);
          } else {
            UnfinishedKeysAt(s.board.checks, i);
            RoleOk(s, RoleAfterConflict(hasControlled, hasControlling));
          }
        case SuccessResponse(mapped) =>
          if c.pair.remote.addr != from {
            FinishCheckOk(s, i, FAILED, UnknownAddress, env);
          } else if mapped.None? {
            FinishCheckOk(s, i, FAILED, NoMappedAddress, env);
          } else {
            CheckSucceededOk(s, i, mapped.value, order, env);
          }
      }
    }
  }

  /** A request for a pair that has succeeded: its valid pairs may become nominated. */
  lemma RenominateOk(s: State, i: nat, remote: Candidate, userCandidate: bool, env: Env)
    requires Inv(s) && s.begun && i < |s.board.checks|
    ensures
      var s2 := if userCandidate then NominateValid(s, remote, 0) else s;
      var out := TryCompleteCheck(s2, i, env);
      (out.Panic? ==> Tolerated(out.why)) && (out.Ok? ==> Inv(out.value) && Follows(s, out.value))
  {
    hide Inv, Follows, TryCompleteCheck, NominateValid, ValidOk;
    InvParts(s);
    if userCandidate {
      var s2 := NominateValid(s, remote, 0);
      NominateValidOk(s, remote, 0);
      OnlyValidOk(s, s2);
      TryCompleteOk(s2, i, env);
      if TryCompleteCheck(s2, i, env).Ok? {
        FollowsTransitive(s, s2, TryCompleteCheck(s2, i, env).value);
      }
    } else {
      TryCompleteOk(s, i, env);
    }
  }

  lemma FlagCheckOk(s: State, i: nat, nominated: bool)
    requires Inv(s) && s.begun && i < |s.board.checks| && (s.board.checks[i].nominated ==> nominated)
    ensures Inv(s.(board := SetNominated(s.board, i, nominated)))
    ensures Follows(s, s.(board := SetNominated(s.board, i, nominated)))
  {
    hide Inv, Follows, BoardOk, BoardGrows, LevelOk, ChecksListed, CandidatesOk, ValidOk, SuccessWitnessed;
    InvParts(s);
    SetNominatedKeeps(s.board, i, nominated);
    var b := SetNominated(s.board, i, nominated);
    WitnessKept(s.board, b, s.valid);
    NewBoardOk(s, b);
  }

  lemma TriggerFlaggedOk(s: State, i: nat, userCandidate: bool, env: Env)
    requires Inv(s) && s.begun && i < |s.board.checks|
    ensures
      var out := TriggerFlagged(s, i, userCandidate, env);
      (out.Panic? ==> Tolerated(out.why))
      && (out.Ok? ==> Inv(out.value) && Follows(s, out.value) && out.value.board.checks[i].state >= IN_PROGRESS)
  {
    hide Inv, Follows, BoardOk, LevelOk, ChecksListed, CandidatesOk, ValidOk, SuccessWitnessed, TryCompleteCheck,
         NominateValid, ChangeCheckState, BoardGrows, UnfinishedKeys, Tolerated, KeysDistinct;
    InvParts(s);
    RoleOk(s, s.role);
    var c := s.board.checks[i];
    if c.state < SUCCEEDED {
      OpenIfUnfinished(s.board, i);
    }
    if c.state < IN_PROGRESS {
      RaiseOk(s, i, IN_PROGRESS);
      ChangeKeeps(s.board, i, IN_PROGRESS, NoError);
    } else if c.state == SUCCEEDED {
      RenominateOk(s, i, c.pair.remote, userCandidate, env);
      var out := TriggerFlagged(s, i, userCandidate, env);
      if out.Ok? {
        GrowsAt(s, out.value, i);
      }
    }
  }

  lemma OpenIfUnfinished(b: Board, i: nat)
    requires BoardOk(b) && i < |b.checks| && b.checks[i].state < SUCCEEDED
    ensures b.checks[i].pair.key in b.open
  {
    UnfinishedKeysAt(b.checks, i);
  }

  lemma TriggerListedOk(s: State, i: nat, userCandidate: bool, env: Env)
    requires Inv(s) && s.begun && i < |s.board.checks|
    ensures TriggerListed(s, i, userCandidate, env).Panic? ==> Tolerated(TriggerListed(s, i, userCandidate, env).why)
    ensures TriggerListed(s, i, userCandidate, env).Ok? ==>
              Inv(TriggerListed(s, i, userCandidate, env).value)
              && Follows(s, TriggerListed(s, i, userCandidate, env).value)
              && TriggerListed(s, i, userCandidate, env).value.board.checks[i].state >= IN_PROGRESS
  {
    hide Inv, Follows, TriggerFlagged, Tolerated;
    var s1 := s.(board := SetNominated(s.board, i, userCandidate || s.board.checks[i].nominated));
    FlagCheckOk(s, i, userCandidate || s.board.checks[i].nominated);
    TriggerFlaggedOk(s1, i, userCandidate, env);
    var out := TriggerListed(s, i, userCandidate, env);
    if out.Ok? {
      FollowsTransitive(s, s1, out.value);
    }
  }

  lemma NewKeyDiffers(s: State, l: Candidate, r: Candidate)
    requires CandidatesOk(s.localCandidates, s.remoteCandidates)
    requires ChecksListed(s.board.checks, s.localCandidates, s.remoteCandidates)
    requires FirstWith(s.localCandidates, l.addr) == Some(l) && FirstWith(s.remoteCandidates, r.addr) == Some(r)
    requires IndexOfPair(s.board.checks, l, r, 0) == |s.board.checks|
    ensures forall i :: 0 <= i < |s.board.checks| ==> s.board.checks[i].pair.key != MakePair(s.role, l, r).key
  {
    forall i | 0 <= i < |s.board.checks|
      ensures s.board.checks[i].pair.key != MakePair(s.role, l, r).key
    {
      var p := s.board.checks[i].pair;
      assert PairListed(p, s.localCandidates, s.remoteCandidates);
      if p.key == Key(l, r) {
        KeyInjective(p.local, p.remote, l, r);
        FirstWithDistinct(s.remoteCandidates, p.remote);
      }
    }
  }

  lemma AddTriggeredOk(s: State, l: Candidate, r: Candidate, userCandidate: bool)
    requires Inv(s) && s.begun
    requires FirstWith(s.localCandidates, l.addr) == Some(l) && FirstWith(s.remoteCandidates, r.addr) == Some(r)
    requires IndexOfPair(s.board.checks, l, r, 0) == |s.board.checks|
    ensures Inv(AddTriggered(s, l, r, userCandidate)) && Follows(s, AddTriggered(s, l, r, userCandidate))
  {
    var c := CheckView(MakePair(s.role, l, r), IN_PROGRESS, userCandidate, NoError);
    var t := AddTriggered(s, l, r, userCandidate);
    NewKeyDiffers(s, l, r);
    AppendKeeps(s.board, c);
    SameValid(s, t);
    forall i | 0 <= i < |t.board.checks|
      ensures PairListed(t.board.checks[i].pair, t.localCandidates, t.remoteCandidates)
      ensures t.board.checks[i].state == SUCCEEDED ==> HasRemote(t.valid, t.board.checks[i].pair.remote)
    {
      if i < |s.board.checks| {
        assert t.board.checks[i] == s.board.checks[i];
      }
    }
  }

  lemma LearnRemoteOk(s: State, rc: RxCheck, env: Env)
    requires Inv(s) && s.begun
    ensures LearnRemote(s, rc, env).Some? ==>
              Inv(LearnRemote(s, rc, env).value) && Follows(s, LearnRemote(s, rc, env).value)
  {
    hide Inv, Follows, BoardOk, LevelOk, BestOk, ChosenOk, ViewsSortedDown, SuccessWitnessed;
    InvParts(s);
    var t := LearnRemote(s, rc, env);
    if t.Some? {
      forall i | 0 <= i < |s.board.checks|
        ensures PairListed(s.board.checks[i].pair, t.value.localCandidates, t.value.remoteCandidates)
      {
        assert PairListed(s.board.checks[i].pair, s.localCandidates, s.remoteCandidates);
      }
      NewCandidatesOk(s, t.value);
    }
  }

  /** An incoming request; when it is neither refused for want of room nor fatal, its pair is on
      the list, in progress or beyond. */
  lemma IncomingOk(s: State, rc: RxCheck, env: Env)
    requires Inv(s) && s.begun
    ensures HandleIncomingCheck(s, rc, env).Panic? ==> Tolerated(HandleIncomingCheck(s, rc, env).why)
    ensures HandleIncomingCheck(s, rc, env).Ok? ==>
              Inv(HandleIncomingCheck(s, rc, env).value) && Follows(s, HandleIncomingCheck(s, rc, env).value)
    ensures HandleIncomingCheck(s, rc, env).Ok? && LearnRemote(s, rc, env).Some? ==>
              exists i :: 0 <= i < |HandleIncomingCheck(s, rc, env).value.board.checks|
                          && HandleIncomingCheck(s, rc, env).value.board.checks[i].pair.local.addr == rc.localAddress
                          && HandleIncomingCheck(s, rc, env).value.board.checks[i].pair.remote.addr == rc.remoteAddress
                          && HandleIncomingCheck(s, rc, env).value.board.checks[i].state >= IN_PROGRESS
  {
    hide Inv, Follows, BoardOk, BoardGrows, LevelOk, SuccessWitnessed, ChecksListed, CandidatesOk, BestOk, ChosenOk,
         ViewsSortedDown, TriggerListed, LearnRemote, IndexOfPair, FirstWith;
    InvParts(s);
    RoleOk(s, s.role);
    LearnRemoteOk(s, rc, env);
    var s1 := LearnRemote(s, rc, env);
    if s1.Some? && FirstWith(s1.value.localCandidates, rc.localAddress).Some? {
      var r := FirstWith(s1.value.remoteCandidates, rc.remoteAddress).value;
      var l := FirstWith(s1.value.localCandidates, rc.localAddress).value;
      var i := IndexOfPair(s1.value.board.checks, l, r, 0);
      var out := HandleIncomingCheck(s, rc, env);
      if i < |s1.value.board.checks| {
        TriggerListedOk(s1.value, i, rc.userCandidate, env);
        if out.Ok? {
          FollowsTransitive(s, s1.value, out.value);
          GrowsAt(s1.value, out.value, i);
        }
      } else {
        AddTriggeredOk(s1.value, l, r, rc.userCandidate);
        FollowsTransitive(s, s1.value, out.value);
        assert out.value.board.checks[i].state == IN_PROGRESS;
      }
    }
  }

  /** A request with USE-CANDIDATE for a pair that has succeeded always yields a nominated pair. */
  lemma UserCandidateNominates(s: State, i: nat, env: Env)
    requires Inv(s) && s.begun && i < |s.board.checks| && s.board.checks[i].state == SUCCEEDED
    requires TriggerListed(s, i, true, env).Ok?
    ensures TriggerListed(s, i, true, env).value.nominatedCheck.Some?
  {
    hide Inv, Follows, BoardOk, LevelOk, ChecksListed, CandidatesOk, BestOk, ChosenOk, ViewsSortedDown, ValidOk;
    InvParts(s);
    var c := s.board.checks[i];
    FlagCheckOk(s, i, true);
    var s1 := s.(board := SetNominated(s.board, i, true));
    InvParts(s1);
    assert HasRemote(s.valid, c.pair.remote);
    NominateValidOk(s1, c.pair.remote, 0);
    var s2 := NominateValid(s1, c.pair.remote, 0);
    OnlyValidOk(s1, s2);
    TryCompleteOk(s2, i, env);
    FollowsKeepsNominated(s2, TryCompleteCheck(s2, i, env).value);
  }

  lemma FollowsKeepsNominated(s: State, t: State)
    requires Follows(s, t) && s.nominatedCheck.Some?
    ensures t.nominatedCheck.Some?
  {
  }

  lemma StartOk(s: State)
    requires Inv(s) && s.board.checks != [] && (s.begun ==> s.board.checks[0].state != FROZEN)
    ensures Inv(StartCheck(s)) && Follows(s, StartCheck(s))
  {
    hide CandidatesOk, ChecksListed, BestOk, ChosenOk, ViewsSortedDown, PairsKept;
    if !s.begun {
      FillOpensAll(s.board);
    }
    SameValid(s, StartCheck(s));
  }

  lemma RequestOk(s: State, rq: RxRequest, env: Env)
    requires Inv(s)
    ensures ProcessBindingRequest(s, rq, env).Panic? ==> Tolerated(ProcessBindingRequest(s, rq, env).why)
    ensures ProcessBindingRequest(s, rq, env).Ok? ==>
              Inv(ProcessBindingRequest(s, rq, env).value) && Follows(s, ProcessBindingRequest(s, rq, env).value)
  {
    hide Follows, BoardOk, LevelOk, ChecksListed, CandidatesOk, BestOk, ChosenOk, ViewsSortedDown,
         HandleIncomingCheck, SuccessWitnessed, JudgeRequest, BoardGrows;
    var (role, verdict) := JudgeRequest(s.role, s.tieBreaker, rq.controlling, rq.controlled);
    RoleOk(s, role);
    var s1 := s.(role := role);
    if verdict.Accepted? && s.completeResult < ALL_COMPLETE {
      if s.board.open == {} && s.completeResult == NOT_COMPLETE {
        EarlyOk(s1, s.early + [rq.check]);
        FollowsTransitive(s, s1, s1.(early := s.early + [rq.check]));
      } else {
        IncomingOk(s1, rq.check, env);
        if HandleIncomingCheck(s1, rq.check, env).Ok? {
          FollowsTransitive(s, s1, HandleIncomingCheck(s1, rq.check, env).value);
        }
      }
    }
  }

  lemma EarlyOk(s: State, early: seq<RxCheck>)
    requires Inv(s)
    ensures Inv(s.(early := early)) && Follows(s, s.(early := early))
  {
    hide CandidatesOk, ChecksListed, BestOk, ChosenOk, ViewsSortedDown, BoardOk, BoardFresh, BoardGrows, PairsKept;
    BoardGrowsReflexive(s.board);
    SameValid(s, s.(early := early));
  }

  lemma ReplayOk(s: State, k: nat, env: Env)
    requires Inv(s) && s.begun && k < |s.early|
    ensures ReplayEarly(s, k, env).Panic? ==> Tolerated(ReplayEarly(s, k, env).why)
    ensures ReplayEarly(s, k, env).Ok? ==> Inv(ReplayEarly(s, k, env).value) && Follows(s, ReplayEarly(s, k, env).value)
  {
    hide Inv, Follows, HandleIncomingCheck;
    IncomingOk(s, s.early[k], env);
  }

  lemma RaiseOk(s: State, i: nat, to: CheckState)
    requires Inv(s) && s.begun && i < |s.board.checks| && to < SUCCEEDED
    ensures ChangeCheckState(s.board, i, to, NoError).Ok?
    ensures
      var t := s.(board := ChangeCheckState(s.board, i, to, NoError).value);
      Inv(t) && Follows(s, t)
  {
    hide Inv, Follows, BoardOk, LevelOk, ChecksListed, CandidatesOk, ValidOk, SuccessWitnessed;
    InvParts(s);
    ChangeKeeps(s.board, i, to, NoError);
    var b := ChangeCheckState(s.board, i, to, NoError).value;
    WitnessKept(s.board, b, s.valid);
    NewBoardOk(s, b);
  }

  lemma NominateOk(s: State, i: nat)
    requires Inv(s) && s.begun && i < |s.board.checks|
    ensures Inv(NominateOnStart(s, i)) && Follows(s, NominateOnStart(s, i))
  {
    hide Inv, Follows, SetNominated;
    RoleOk(s, s.role);
    FlagCheckOk(s, i, true);
  }

  lemma TimeoutOk(s: State)
    requires Inv(s) && s.timerArmed
    ensures NominationTimeout(s).Panic? ==> Tolerated(NominationTimeout(s).why)
    ensures NominationTimeout(s).Ok? ==> Inv(NominationTimeout(s).value) && Follows(s, NominationTimeout(s).value)
  {
    hide BoardOk, ChecksListed, CandidatesOk, BestOk, ChosenOk, ViewsSortedDown, SuccessWitnessed, BoardGrows,
         PairsKept, IceFailed;
    var s1 := s.(timerArmed := false);
    OnlyLevelOk(s, s1);
    if s.nominatedCheck.None? {
      IceFailedOk(s1);
      if IceFailed(s1).Ok? {
        OnlyLevelOk(s1, IceFailed(s1).value);
        FollowsTransitive(s, s1, IceFailed(s1).value);
      }
    }
  }

  /** One event: no panic but the tolerated ones, and the invariant is kept. */
  lemma NextOk(s: State, e: Event, env: Env)
    requires Inv(s) && Enabled(s, e, env)
    ensures Next(s, e, env).Panic? ==> Tolerated(Next(s, e, env).why)
    ensures Next(s, e, env).Ok? ==> Inv(Next(s, e, env).value) && Follows(s, Next(s, e, env).value)
  {
    hide Inv, Follows, StartCheck, ReplayEarly, NominateOnStart, ProcessBindingRequest, ProcessBindingResponse,
         FinishCheck, NominationTimeout, ChangeCheckState, OrderFits;
    RoleOk(s, s.role);
    match e {
      case Start => StartOk(s);
      case First(i) => RaiseOk(s, i, WAITING);
      case Replay(k) => ReplayOk(s, k, env);
      case Launch(i, phase) => RaiseOk(s, i, IN_PROGRESS);
      case Nominate(i) => NominateOk(s, i);
      case Request(rq) => RequestOk(s, rq, env);
      case Respond(i, from, res, order) => ResponseOk(s, i, from, res, order, env);
      case TryFailed(i) =>
        if s.board.checks[i].state < SUCCEEDED {
          FinishCheckOk(s, i, FAILED, TriedTooManyTimes, env);
        }
      case Timeout =>
        assert s.begun by { TimerMeansBegun(s); }
        TimeoutOk(s);
    }
  }

  lemma TimerMeansBegun(s: State)
    requires Inv(s) && s.timerArmed
    ensures s.begun
  {
  }

  lemma NotEarlyHasBegun(s: State)
    requires Inv(s) && !(s.board.open == {} && s.completeResult == NOT_COMPLETE)
    ensures s.begun
  {
  }

  // ----- runs -----

  /** A run is the list of its events, each with what it finds outside the session. */
  ghost predicate IsRun(s: State, es: seq<(Event, Env)>, t: State)
    decreases |es|
  {
    if es == [] then s == t
    else
      Enabled(s, es[0].0, es[0].1)
      && Next(s, es[0].0, es[0].1).Ok?
      && IsRun(Next(s, es[0].0, es[0].1).value, es[1..], t)
  }

  /** Every run keeps the invariant and grows the session. */
  lemma {:induction false} RunOk(s: State, es: seq<(Event, Env)>, t: State)
    requires Inv(s) && IsRun(s, es, t)
    ensures Inv(t) && Follows(s, t)
    decreases |es|
  {
    hide Inv, Follows, Enabled, Next;
    if es == [] {
      RoleOk(s, s.role);
    } else {
      NextOk(s, es[0].0, es[0].1);
      var u := Next(s, es[0].0, es[0].1).value;
      RunOk(u, es[1..], t);
      FollowsTransitive(s, u, t);
    }
  }
}
