/** A run on which a failed session still gets a nominated pair: an early request is replayed after
    the nomination timeout. And a run after which the peer's next request crashes the session. */
module IceLate {
  import opened Wrappers
  import opened PairPriority
  import opened IceTypes
  import opened CheckList
  import opened IceSpec
  import opened IceInvariants
  import opened IceTheorems

  const L := BLANK.(addr := "l", baseAddr := "l", priority := 1)
  const R := BLANK.(addr := "r", baseAddr := "r", priority := 1)
  const FROM_NEW := RxCheck("n", "l", false, 2)
  const FROM_OLD := RxCheck("r", "l", true, 1)
  const P: Pair := MakePair(Controlled, L, R)
  const ENV := Env(true, true, (a: string) => 0)
  const N: Candidate := LearnedRemote(FROM_NEW, ENV)
  const Q: Pair := MakePair(Controlled, L, N)
  const V := CheckView(P, SUCCEEDED, false, NoError)

  const B0 := CheckView(P, FROZEN, false, NoError)
  const B1 := CheckView(P, WAITING, false, NoError)
  const ASKED := RxRequest(RxCheck("r", "l", false, 1), Some(1), None)
  const ANSWERED := Respond(0, "r", SuccessResponse(Some("l")), [V])

  const S0: State := InitialState(Controlled, 0, [L], [R], [FROM_NEW, FROM_OLD], [P])
  const C1 := CheckView(P, IN_PROGRESS, false, NoError)
  const T1: State := S0.(board := Board([B0], {P.key}, 0), begun := true)
  const T2: State := T1.(board := Board([B1], {P.key}, 1))
  const S1: State := T2.(board := Board([C1], {P.key}, 2))
  const S2: State := S1.(board := Board([V], {}, 3), valid := [V], validCheck := Some(P),
                         completeResult := CHECK_COMPLETE, timerArmed := true)
  const S3: State := S2.(completeResult := COMPLETE_FAILURE, timerArmed := false,
                         transport := TransportFailed, notices := 1)
  const C2 := CheckView(Q, IN_PROGRESS, false, NoError)
  const S4: State := S3.(remoteCandidates := [R, N], board := Board([V, C2], {Q.key}, 3))
  const W := V.(nominated := true)
  const S5: State := S4.(board := Board([W, C2], {Q.key}, 3), valid := [W], nominatedCheck := Some(P))

  lemma ProductOfTwo(role: Role)
    ensures var p := MakePair(role, L, R); Product(role, [L], [R]) == [p] && Prune([p]) == [p]
  {
    var p := MakePair(role, L, R);
    assert Row(role, L, [R]) == [p];
    assert [L][..0] == [];
    assert Product(role, [L][..0], [R]) == [];
    assert [p][..0] == [];
    assert Prune([p][..0]) == [];
  }

  lemma ProductHere()
    ensures Product(Controlled, [L], [R]) == [P] && Prune([P]) == [P]
  {
    ProductOfTwo(Controlled);
  }

  lemma InitialHere()
    ensures IsInitial(S0)
  {
    hide Product, Prune, CheckList.Level, P, L, R;
    ProductHere();
    assert StableSortOf([P], Product(Controlled, [L], [R]));
    assert "l" != "r";
    assert GoodCandidates([L], [R]) by {
      assert DistinctAddrs([L]) && DistinctAddrs([R]);
      AddrHere();
    }
    assert S0.localCandidates == [L] && S0.remoteCandidates == [R];
    assert S0 == InitialState(S0.role, S0.tieBreaker, [L], [R], S0.early, Prune([P]));
  }

  lemma AddrHere()
    ensures '-' !in L.addr
  {
  }

  lemma Started()
    ensures Enabled(S0, Start, ENV) && IceSpec.Next(S0, Start, ENV) == Ok(T1)
  {
    assert S0.board.checks == [B0];
    assert [B0][0].pair.key == P.key;
    assert {} + AllKeys([B0]) == {P.key};
  }

  lemma Waits()
    ensures Enabled(T1, First(0), ENV) && IceSpec.Next(T1, First(0), ENV) == Ok(T2)
  {
    assert [B0][0 := B1] == [B1];
  }

  /** The peer's request for the pair starts its check before the requests that came early are
      replayed. */
  lemma Triggered()
    ensures Enabled(T2, Request(ASKED), ENV) && IceSpec.Next(T2, Request(ASKED), ENV) == Ok(S1)
  {
    assert FirstWith([R], "r") == Some(R) && FirstWith([L], "l") == Some(L);
    assert LearnRemote(T2, ASKED.check, ENV) == Some(T2);
    assert IndexOfPair([B1], L, R, 0) == 0;
    assert [B1][0 := B1] == [B1];
    assert SetNominated(T2.board, 0, false) == T2.board;
    assert [B1][0 := C1] == [C1];
    assert P.key in T2.board.open;
    assert ChangeCheckState(T2.board, 0, IN_PROGRESS, NoError) == Ok(S1.board);
  }

  lemma Succeeded()
    ensures Enabled(S1, ANSWERED, ENV) && IceSpec.Next(S1, ANSWERED, ENV) == Ok(S2)
  {
    assert FirstMapped(S1.localCandidates, "l", "l") == Some(L);
    assert S1.valid + [V] == [V];
    assert ConstructValidPair(S1, 0, L, [V]) == S1.(valid := [V], validCheck := Some(P));
    var b := Board([V], {}, 3);
    assert [C1][0 := V] == [V];
    assert {P.key} - {P.key} == {};
    assert ChangeCheckState(S1.board, 0, SUCCEEDED, NoError) == Ok(b);
    assert Unfreeze(b, 0, 1) == Ok(b);
    assert Unfreeze(b, 0, 0) == Ok(b);
    assert SettleBoard(b, 0) == Ok(b);
  }

  lemma TimedOut()
    ensures Enabled(S2, Timeout, ENV) && IceSpec.Next(S2, Timeout, ENV) == Ok(S3)
  {
  }

  lemma NewPairTriggered()
    ensures Enabled(S3, Replay(0), ENV) && IceSpec.Next(S3, Replay(0), ENV) == Ok(S4)
  {
    var s := S3;
    assert FirstWith([R], "n").None?;
    assert [R] + [N] == [R, N];
    FirstWithExtends([R], N, "n");
    assert LearnRemote(s, FROM_NEW, ENV) == Some(s.(remoteCandidates := [R, N]));
    assert FirstWith([L], "l") == Some(L);
    assert "r" != "n";
    assert R != N by { assert R.addr == "r" && N.addr == "n"; }
    assert IndexOfPair([V], L, N, 0) == 1;
    assert [V] + [C2] == [V, C2];
    assert {} + {Q.key} == {Q.key};
  }

  lemma OldPairNominated()
    ensures Enabled(S4, Replay(1), ENV) && IceSpec.Next(S4, Replay(1), ENV) == Ok(S5)
  {
    hide NominateValid, SettleBoard, Conclude;
    assert FirstWith([R, N], "r") == Some(R);
    assert FirstWith([L], "l") == Some(L);
    assert IndexOfPair([V, C2], L, R, 0) == 0;
    assert [V, C2][0 := W] == [W, C2];
    assert SetNominated(S4.board, 0, true) == S5.board;
    OldPairMarked();
    NothingToSettle();
    SuccessDoesNotRaiseFailure();
  }

  lemma OldPairMarked()
    ensures NominateValid(S4.(board := S5.board), R, 0) == S5
  {
    var s1 := S4.(board := S5.board);
    assert [V][0 := W] == [W];
    assert MarkValidAndNominated(s1.(valid := [W]), W) == S5;
    assert NominateValid(S5, R, 1) == S5;
  }

  lemma NothingToSettle()
    ensures SettleBoard(S5.board, 0) == Ok(S5.board)
  {
    var b := S5.board;
    assert Unfreeze(b, 0, 2) == Ok(b);
    assert Unfreeze(b, 0, 1) == Ok(b);
    assert Unfreeze(b, 0, 0) == Ok(b);
    assert CancelLower(b, P.priority, 2) == Ok(b);
    assert CancelLower(b, P.priority, 1) == Ok(b);
    assert CancelLower(b, P.priority, 0) == Ok(b);
  }

  lemma SuccessDoesNotRaiseFailure()
    ensures Conclude(S5, ENV) == Ok(S5)
  {
    assert S5.board.checks[1].state == IN_PROGRESS;
  }

  /** The order of these steps is that of allcheck, with a request, a response and the timer of the
      waiting controlled agent between its first pass and the replay of the early requests. */
  lemma FailedSessionCanStillNominate() returns (s: State, es: seq<(Event, Env)>, t: State)
    ensures IsInitial(s) && IsRun(s, es, t)
    ensures t.completeResult == COMPLETE_FAILURE && t.nominatedCheck.Some?
    ensures es == [(Start, ENV), (First(0), ENV), (Request(ASKED), ENV), (ANSWERED, ENV), (Timeout, ENV),
                   (Replay(0), ENV), (Replay(1), ENV)]
  {
    hide IceSpec.Next, Enabled, IsInitial;
    InitialHere();
    Started();
    Waits();
    Triggered();
    Succeeded();
    TimedOut();
    NewPairTriggered();
    OldPairNominated();
    s, t := S0, S5;
    assert IsRun(S5, [], S5);
    var e6 := RunFrom(S4, Replay(1), S5, [], S5);
    var e5 := RunFrom(S3, Replay(0), S4, e6, S5);
    var e4 := RunFrom(S2, Timeout, S3, e5, S5);
    var e3 := RunFrom(S1, ANSWERED, S2, e4, S5);
    var e2 := RunFrom(T2, Request(ASKED), S1, e3, S5);
    var e1 := RunFrom(T1, First(0), T2, e2, S5);
    es := RunFrom(S0, Start, T1, e1, S5);
  }

  /** A controlled agent that has a valid pair and waits for its nomination does not survive another
      request for that pair that does not nominate it. */
  lemma SecondRequestCrashes() returns (s: State, es: seq<(Event, Env)>, t: State)
    ensures IsInitial(s) && IsRun(s, es, t) && Enabled(t, Request(ASKED), ENV)
    ensures IceSpec.Next(t, Request(ASKED), ENV) == Panic(LevelMustIncrease)
    ensures es == [(Start, ENV), (First(0), ENV), (Request(ASKED), ENV), (ANSWERED, ENV)]
  {
    hide IceSpec.Next, Enabled, IsInitial;
    InitialHere();
    Started();
    Waits();
    Triggered();
    Succeeded();
    LevelStays();
    s, t := S0, S2;
    assert IsRun(S2, [], S2);
    var e3 := RunFrom(S1, ANSWERED, S2, [], S2);
    var e2 := RunFrom(T2, Request(ASKED), S1, e3, S2);
    var e1 := RunFrom(T1, First(0), T2, e2, S2);
    es := RunFrom(S0, Start, T1, e1, S2);
  }

  lemma LevelStays()
    ensures Enabled(S2, Request(ASKED), ENV) && IceSpec.Next(S2, Request(ASKED), ENV) == Panic(LevelMustIncrease)
  {
    hide SettleBoard;
    assert FirstWith([R], "r") == Some(R) && FirstWith([L], "l") == Some(L);
    assert LearnRemote(S2, ASKED.check, ENV) == Some(S2);
    assert IndexOfPair([V], L, R, 0) == 0;
    assert [V][0 := V] == [V];
    assert SetNominated(S2.board, 0, false) == S2.board;
    NothingToThaw();
  }

  lemma NothingToThaw()
    ensures SettleBoard(S2.board, 0) == Ok(S2.board)
  {
    var b := S2.board;
    assert Unfreeze(b, 0, 1) == Ok(b);
    assert Unfreeze(b, 0, 0) == Ok(b);
  }

  /** A step in front of a run. */
  lemma RunFrom(s: State, e: Event, u: State, rest: seq<(Event, Env)>, t: State) returns (es: seq<(Event, Env)>)
    requires Enabled(s, e, ENV) && IceSpec.Next(s, e, ENV) == Ok(u) && IsRun(u, rest, t)
    ensures es == [(e, ENV)] + rest && IsRun(s, es, t)
  {
    hide Enabled, IceSpec.Next;
    es := [(e, ENV)] + rest;
    assert es[1..] == rest;
  }
}
