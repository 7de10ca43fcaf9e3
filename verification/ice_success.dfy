/** A run on which a controlling agent succeeds: its only check is started, nominated and answered. */
module IceSuccess {
  import opened Wrappers
  import opened PairPriority
  import opened IceTypes
  import opened CheckList
  import opened IceSpec
  import opened IceInvariants
  import opened IceTheorems
  import IceLate

  const L := IceLate.L
  const R := IceLate.R
  const ENV := IceLate.ENV
  const P: Pair := MakePair(Controlling, L, R)
  const C0 := CheckView(P, FROZEN, false, NoError)
  const C1 := CheckView(P, WAITING, false, NoError)
  const C2 := CheckView(P, IN_PROGRESS, false, NoError)
  const C3 := CheckView(P, IN_PROGRESS, true, NoError)
  const V := CheckView(P, SUCCEEDED, true, NoError)
  const ANSWERED := Respond(0, "r", SuccessResponse(Some("l")), [V])

  const S0: State := InitialState(Controlling, 0, [L], [R], [], [P])
  const S1: State := S0.(isNominating := true, board := Board([C0], {P.key}, 0), begun := true)
  const S2: State := S1.(board := Board([C1], {P.key}, 1))
  const S3: State := S2.(board := Board([C2], {P.key}, 2))
  const S4: State := S3.(board := Board([C3], {P.key}, 2))
  const S5: State := S4.(board := Board([V], {}, 3), valid := [V], validCheck := Some(P), nominatedCheck := Some(P),
                         completeResult := ALL_COMPLETE, transport := Running, notices := 1)

  lemma ProductHere()
    ensures Product(Controlling, [L], [R]) == [P] && Prune([P]) == [P]
  {
    IceLate.ProductOfTwo(Controlling);
  }

  lemma InitialHere()
    ensures IsInitial(S0)
  {
    hide Product, Prune, CheckList.Level, P, IceLate.L, IceLate.R;
    ProductHere();
    assert StableSortOf([P], Product(Controlling, [L], [R]));
    assert GoodCandidates([L], [R]) by {
      assert DistinctAddrs([L]) && DistinctAddrs([R]);
      IceLate.AddrHere();
    }
    assert S0.localCandidates == [L] && S0.remoteCandidates == [R];
    assert S0 == InitialState(S0.role, S0.tieBreaker, [L], [R], S0.early, Prune([P]));
  }

  lemma Started()
    ensures Enabled(S0, Start, ENV) && IceSpec.Next(S0, Start, ENV) == Ok(S1)
  {
    assert S0.board.checks == [C0];
    assert [C0][0].pair.key == P.key;
    assert {} + AllKeys([C0]) == {P.key};
  }

  lemma Waits()
    ensures Enabled(S1, First(0), ENV) && IceSpec.Next(S1, First(0), ENV) == Ok(S2)
  {
    assert [C0][0 := C1] == [C1];
  }

  lemma Launched()
    ensures Enabled(S2, Launch(0, WAITING), ENV) && IceSpec.Next(S2, Launch(0, WAITING), ENV) == Ok(S3)
  {
    assert [C1][0 := C2] == [C2];
  }

  lemma Nominated()
    ensures Enabled(S3, Nominate(0), ENV) && IceSpec.Next(S3, Nominate(0), ENV) == Ok(S4)
  {
    assert [C2][0 := C3] == [C3];
  }

  lemma Answered()
    ensures Enabled(S4, ANSWERED, ENV) && IceSpec.Next(S4, ANSWERED, ENV) == Ok(S5)
  {
    hide SettleBoard;
    assert FirstMapped([L], "l", "l") == Some(L);
    assert S4.valid + [V] == [V];
    assert ConstructValidPair(S4, 0, L, [V]) == S4.(valid := [V], validCheck := Some(P), nominatedCheck := Some(P));
    var b := Board([V], {}, 3);
    assert [C3][0 := V] == [V];
    assert {P.key} - {P.key} == {};
    assert ChangeCheckState(S4.board, 0, SUCCEEDED, NoError) == Ok(b);
    NothingToSettle();
  }

  lemma NothingToSettle()
    ensures SettleBoard(S5.board, 0) == Ok(S5.board)
  {
    var b := S5.board;
    assert Unfreeze(b, 0, 1) == Ok(b);
    assert Unfreeze(b, 0, 0) == Ok(b);
    assert CancelLower(b, P.priority, 1) == Ok(b);
    assert CancelLower(b, P.priority, 0) == Ok(b);
  }

  /** The order of these steps is that of startCheck, allcheck, onecheck and the loop. */
  lemma ControllingAgentSucceeds() returns (s: State, es: seq<(Event, Env)>, t: State)
    ensures IsInitial(s) && IsRun(s, es, t) && s.role == Controlling
    ensures es == [(Start, ENV), (First(0), ENV), (Launch(0, WAITING), ENV), (Nominate(0), ENV), (ANSWERED, ENV)]
    ensures t.completeResult == ALL_COMPLETE && t.transport == Running && t.notices == 1
    ensures t.nominatedCheck.Some? && t.nominatedCheck.value.local.addr == "l"
            && t.nominatedCheck.value.remote.addr == "r"
  {
    hide IceSpec.Next, Enabled, IsInitial;
    InitialHere();
    Started();
    Waits();
    Launched();
    Nominated();
    Answered();
    s, t := S0, S5;
    assert IsRun(S5, [], S5);
    var e4 := IceLate.RunFrom(S4, ANSWERED, S5, [], S5);
    var e3 := IceLate.RunFrom(S3, Nominate(0), S4, e4, S5);
    var e2 := IceLate.RunFrom(S2, Launch(0, WAITING), S3, e3, S5);
    var e1 := IceLate.RunFrom(S1, First(0), S2, e2, S5);
    es := IceLate.RunFrom(S0, Start, S1, e1, S5);
  }
}
