/** The ICE session itself: the methods of ice/icesession.go over check objects that are changed in
    place. Every method is proved to make the transition of the same name in IceSpec. A method
    returns the panic it runs into, if any; what it leaves behind then does not matter. */
module IceSession {
  import opened Wrappers
  import opened PairPriority
  import opened IceTypes
  import opened Roles
  import opened CheckList
  import Spec = IceSpec
  import opened IceSpec

  /** The class sessionCheck. */
  class Check {
    const pair: Pair
    var state: CheckState
    var nominated: bool
    var err: CheckError

    constructor (pair: Pair, state: CheckState, nominated: bool)
      ensures this.pair == pair && this.state == state && this.nominated == nominated && this.err == NoError
    {
      this.pair := pair;
      this.state := state;
      this.nominated := nominated;
      this.err := NoError;
    }

    function View(): CheckView
      reads this
    {
      CheckView(pair, state, nominated, err)
    }
  }

  ghost function Views(cs: seq<Check>): (vs: seq<CheckView>)
    reads cs
    ensures |vs| == |cs|
    ensures forall i :: 0 <= i < |cs| ==> vs[i] == cs[i].View()
  {
    if cs == [] then [] else Views(cs[..|cs| - 1]) + [cs[|cs| - 1].View()]
  }

  ghost predicate AllDistinct(cs: seq<Check>) {
    forall i, j :: 0 <= i < j < |cs| ==> cs[i] != cs[j]
  }

  class Session {
    var role: Role
    const tieBreaker: nat
    var isNominating: bool
    var localCandidates: seq<Candidate>
    var remoteCandidates: seq<Candidate>
    var earlyCheckList: seq<RxCheck>
    var checkList: seq<Check>
    var checkMap: set<string>  // the keys that have an open channel
    var validCheckList: seq<Check>
    var validCheck: Check?
    var nominatedCheck: Check?
    var completeResult: Spec.Level
    var transport: TransportState  // the state of the stream transport
    // history
    ghost var notices: nat
    ghost var begun: bool
    ghost var timerArmed: bool
    ghost var silent: bool
    ghost var changes: nat

    constructor (role: Role, tieBreaker: nat, localCandidates: seq<Candidate>)
      ensures Valid() && checkList == [] && remoteCandidates == []
      ensures View() == InitialState(role, tieBreaker, localCandidates, [], [], [])
      ensures this.role == role && this.tieBreaker == tieBreaker && this.localCandidates == localCandidates
      ensures earlyCheckList == [] && checkMap == {} && validCheckList == [] && !isNominating
      ensures validCheck == null && nominatedCheck == null && completeResult == NOT_COMPLETE && transport == Negotiation
    {
      this.role := role;
      this.tieBreaker := tieBreaker;
      this.isNominating := false;
      this.localCandidates := localCandidates;
      this.remoteCandidates := [];
      this.earlyCheckList := [];
      this.checkList := [];
      this.checkMap := {};
      this.validCheckList := [];
      this.validCheck := null;
      this.nominatedCheck := null;
      this.completeResult := NOT_COMPLETE;
      this.transport := Negotiation;
      notices := 0;
      begun, timerArmed, silent, changes := false, false, false, 0;
    }

    /** Check objects are not shared, and the chosen checks are valid ones. */
    ghost predicate Valid()
      reads this
    {
      AllDistinct(checkList)
      && AllDistinct(validCheckList)
      && (forall c :: c in checkList ==> c !in validCheckList)
      && (validCheck != null ==> validCheck in validCheckList)
      && (nominatedCheck != null ==> nominatedCheck in validCheckList)
    }

    ghost function BoardView(): Board
      reads this, checkList
    {
      Board(Views(checkList), checkMap, changes)
    }

    ghost function View(): State
      reads this, checkList, validCheckList
    {
      State(role, tieBreaker, isNominating, localCandidates, remoteCandidates, earlyCheckList, BoardView(),
            Views(validCheckList),
            if validCheck == null then None else Some(validCheck.pair),
            if nominatedCheck == null then None else Some(nominatedCheck.pair),
            completeResult, transport, begun, timerArmed, notices, silent)
    }

    method FinishOneCheck(i: nat) returns (p: Option<PanicKind>)
      requires i < |checkList|
      modifies this`checkMap
      ensures p.None? <==> checkList[i].pair.key in old(checkMap)
      ensures p.Some? ==> p.value == CloseOfMissingChannel
      ensures checkMap == old(checkMap) - {checkList[i].pair.key}
    {
      var isOpen := checkList[i].pair.key in checkMap;
      checkMap := checkMap - {checkList[i].pair.key};
      p := if isOpen then None else Some(CloseOfMissingChannel);
    }

    method ChangeCheckState(i: nat, to: CheckState, err: CheckError) returns (p: Option<PanicKind>)
      requires Valid() && i < |checkList|
      modifies this`checkMap, this`changes, checkList[i]
      ensures Spec.ChangeCheckState(old(BoardView()), i, to, err) == if p.None? then Ok(BoardView()) else Panic(p.value)
      ensures checkList[i].nominated == old(checkList[i].nominated)
    {
      hide Views;
      var check := checkList[i];
      if check.state >= to {
        return None;
      }
      ghost var b := BoardView();
      check.state := to;
      check.err := err;
      changes := changes + 1;
      ghost var b1 := b.(checks := b.checks[i := b.checks[i].(state := to, err := err)], changes := b.changes + 1);
      assert BoardView() == b1 by {
        assert Views(checkList) == b1.checks;
      }
      p := None;
      if check.state >= SUCCEEDED {
        p := FinishOneCheck(i);
        assert BoardView() == b1.(open := b1.open - {check.pair.key});
      }
    }

    method CancelOneCheck(i: nat) returns (p: Option<PanicKind>)
      requires Valid() && i < |checkList|
      modifies this`checkMap, this`changes, checkList[i]
      ensures Spec.CancelOneCheck(old(BoardView()), i) == if p.None? then Ok(BoardView()) else Panic(p.value)
    {
      if checkList[i].pair.key !in checkMap {
        return Some(SendOnMissingChannel);
      }
      p := ChangeCheckState(i, FAILED, Canceled);
    }

    method RetryOneCheck(i: nat) returns (p: Option<PanicKind>)
      requires i < |checkList|
      ensures p == if checkList[i].state == IN_PROGRESS && checkList[i].pair.key !in checkMap
                   then Some(SendOnMissingChannel) else None
    {
      if checkList[i].state != IN_PROGRESS {
        return None;
      }
      p := if checkList[i].pair.key in checkMap then None else Some(SendOnMissingChannel);
    }

    /** The first loop of tryCompleteCheck. */
    method UnfreezeFoundation(foundation: int)
      requires Valid()
      modifies this`checkMap, this`changes, checkList
      ensures Spec.Unfreeze(old(BoardView()), foundation, 0) == Ok(BoardView())
    {
      hide Views;
      for k := 0 to |checkList|
        modifies this`checkMap, this`changes, checkList
        invariant Spec.Unfreeze(old(BoardView()), foundation, 0) == Spec.Unfreeze(BoardView(), foundation, k)
      {
        if checkList[k].pair.local.foundation == foundation && checkList[k].state == FROZEN {
          var p := ChangeCheckState(k, WAITING, NoError);
        }
      }
    }

    /** The second loop of tryCompleteCheck. */
    method CancelLowerChecks(priority: nat) returns (p: Option<PanicKind>)
      requires Valid()
      modifies this`checkMap, this`changes, checkList
      ensures Spec.CancelLower(old(BoardView()), priority, 0) == if p.None? then Ok(BoardView()) else Panic(p.value)
    {
      hide Views, Spec.CancelOneCheck;
      p := None;
      for k := 0 to |checkList|
        modifies this`checkMap, this`changes, checkList
        invariant p.None?
        invariant Spec.CancelLower(old(BoardView()), priority, 0) == Spec.CancelLower(BoardView(), priority, k)
      {
        var c := checkList[k];
        ghost var b := BoardView();
        if c.state < IN_PROGRESS {
          p := CancelOneCheck(k);
        } else if c.state == IN_PROGRESS && c.pair.priority <= priority {
          p := CancelOneCheck(k);
        }
        if p.Some? {
          assert Spec.CancelLower(b, priority, k) == Panic(p.value);
          return;
        }
      }
    }

    method ChangeCompleteResult(r: Spec.Level) returns (p: Option<PanicKind>)
      modifies this`completeResult
      ensures p == if r <= old(completeResult) then Some(LevelMustIncrease) else None
      ensures completeResult == if p.None? then r else old(completeResult)
    {
      if r <= completeResult {
        return Some(LevelMustIncrease);
      }
      completeResult := r;
      p := None;
    }

    /** StreamTransport.onIceComplete: a second call panics. */
    method OnIceComplete(failed: bool) returns (p: Option<PanicKind>)
      requires Valid()
      modifies this`transport, this`notices
      ensures Spec.OnIceComplete(old(View()), failed) == if p.None? then Ok(View()) else Panic(p.value)
    {
      hide Views;
      ghost var s := View();
      if transport != Negotiation {
        return Some(FinishedTwice);
      }
      notices := notices + 1;
      p := None;
      transport := if failed then TransportFailed else Running;
      assert View() == s.(transport := transport, notices := notices);
    }

    method IceComplete(failed: bool, allComplete: bool, env: Env) returns (p: Option<PanicKind>)
      requires Valid() && (failed || nominatedCheck != null)
      modifies this`completeResult, this`silent, this`transport, this`notices
      ensures (if failed then Spec.IceFailed(old(View())) else Spec.IceSucceeded(old(View()), allComplete, env))
              == if p.None? then Ok(View()) else Panic(p.value)
    {
      if failed {
        p := IceFailed();
      } else {
        p := IceSucceeded(allComplete, env);
      }
    }

    /** The branch of iceComplete with an error. */
    method IceFailed() returns (p: Option<PanicKind>)
      requires Valid()
      modifies this`completeResult, this`transport, this`notices
      ensures Spec.IceFailed(old(View())) == if p.None? then Ok(View()) else Panic(p.value)
    {
      hide Views, Spec.OnIceComplete;
      ghost var s := View();
      var before := completeResult;
      p := ChangeCompleteResult(COMPLETE_FAILURE);
      assert View() == s.(completeResult := completeResult);
      if p.None? && before < COMPLETE_SUCCESS {
        p := OnIceComplete(true);
      }
    }

    /** The branch of iceComplete without one. */
    method IceSucceeded(allComplete: bool, env: Env) returns (p: Option<PanicKind>)
      requires Valid() && nominatedCheck != null
      modifies this`completeResult, this`silent, this`transport, this`notices
      ensures Spec.IceSucceeded(old(View()), allComplete, env) == if p.None? then Ok(View()) else Panic(p.value)
    {
      hide Views, Spec.RaiseLevel, Spec.OnIceComplete;
      var before := completeResult;
      p := RaiseLevel(allComplete);
      if p.Some? {
        return;
      }
      if allComplete && checkMap != {} {
        return Some(ChecksStillOpen);
      }
      if !env.senderFound {
        return Some(NoServerSock);
      }
      ghost var s := View();
      if allComplete && nominatedCheck.pair.local.ctype.Relay? && !env.bindOk {
        silent := silent || before < COMPLETE_SUCCESS;
        assert View() == s.(silent := silent);
      } else if before < COMPLETE_SUCCESS {
        p := OnIceComplete(false);
      }
    }

    /** The level part of iceComplete without an error. */
    method RaiseLevel(allComplete: bool) returns (p: Option<PanicKind>)
      requires Valid()
      modifies this`completeResult
      ensures Spec.RaiseLevel(old(View()), allComplete) == if p.None? then Ok(View()) else Panic(p.value)
    {
      hide Views;
      ghost var s := View();
      p := None;
      if allComplete {
        p := ChangeCompleteResult(ALL_COMPLETE);
      } else if completeResult < COMPLETE_SUCCESS {
        p := ChangeCompleteResult(COMPLETE_SUCCESS);
      }
      assert View() == s.(completeResult := completeResult);
    }

    /** The rest of tryCompleteCheck. */
    method Conclude(env: Env) returns (p: Option<PanicKind>)
      requires Valid()
      modifies this`completeResult, this`silent, this`timerArmed, this`transport, this`notices
      ensures Spec.Conclude(old(View()), env) == if p.None? then Ok(View()) else Panic(p.value)
    {
      hide Views, Spec.IceFailed, Spec.IceSucceeded;
      var hasNotFinished := false;
      for k := 0 to |checkList|
        invariant !hasNotFinished && forall j :: 0 <= j < k ==> checkList[j].state >= SUCCEEDED
      {
        if checkList[k].state < SUCCEEDED {
          hasNotFinished := true;
          break;
        }
      }
      assert hasNotFinished <==> !AllFinished(View().board.checks);
      p := None;
      if nominatedCheck != null {
        p := IceComplete(false, !hasNotFinished, env);
      } else if !hasNotFinished {
        if role == Controlled {
          if validCheck == null {
            p := IceComplete(true, true, env);
            return;
          }
          p := ChangeCompleteResult(CHECK_COMPLETE);
          timerArmed := true;
        } else if isNominating {
          p := IceComplete(true, true, env);
        } else {
          p := Some(NotImplemented);
        }
      }
    }

    /** When only checks of the check list and their channels have changed. */
    twostate lemma OnlyBoardChanged()
      requires old(Valid())
      requires forall c :: c in old(validCheckList) ==> c.View() == old(c.View())
      requires unchanged(`role) && unchanged(`isNominating) && unchanged(`localCandidates)
              && unchanged(`remoteCandidates)
      requires unchanged(`earlyCheckList) && unchanged(`checkList) && unchanged(`validCheckList)
      requires unchanged(`validCheck) && unchanged(`nominatedCheck) && unchanged(`completeResult)
              && unchanged(`transport)
      requires unchanged(`notices) && unchanged(`begun) && unchanged(`timerArmed) && unchanged(`silent)
      ensures View() == old(View()).(board := BoardView())
    {
      hide Views;
      assert Views(validCheckList) == old(Views(validCheckList));
    }

    /** The part of tryCompleteCheck that updates the check list. */
    method SettleBoard(i: nat) returns (p: Option<PanicKind>)
      requires Valid() && i < |checkList|
      modifies this`checkMap, this`changes, checkList
      ensures Spec.SettleBoard(old(BoardView()), i) == if p.None? then Ok(BoardView()) else Panic(p.value)
    {
      hide Views, Spec.Unfreeze, Spec.CancelLower;
      var check := checkList[i];
      p := None;
      if check.err == NoError {
        var nominated := check.nominated;
        UnfreezeFoundation(check.pair.local.foundation);
        if nominated {
          p := CancelLowerChecks(check.pair.priority);
        }
      }
    }

    method TryCompleteCheck(i: nat, env: Env) returns (p: Option<PanicKind>)
      requires Valid() && i < |checkList|
      modifies this`checkMap, this`changes, this`completeResult, this`silent, this`timerArmed, this`transport,
           this`notices, checkList
      ensures Spec.TryCompleteCheck(old(View()), i, env) == if p.None? then Ok(View()) else Panic(p.value)
    {
      hide Views, Spec.SettleBoard, Spec.Conclude;
      p := SettleBoard(i);
      if p.Some? {
        return;
      }
      OnlyBoardChanged();
      p := Conclude(env);
    }

    method MarkValidAndNominated(check: Check)
      requires Valid() && check in validCheckList
      modifies this`validCheck, this`nominatedCheck
      ensures Valid()
      ensures View() == Spec.MarkValidAndNominated(old(View()), check.View())
    {
      hide Views;
      ghost var s := View();
      if validCheck == null || validCheck.pair.priority < check.pair.priority {
        validCheck := check;
      }
      assert View() == s.(validCheck := Better(s.validCheck, check.pair));
      MarkNominated(check);
    }

    /** The second half of markValidAndNonimated. */
    method MarkNominated(check: Check)
      requires Valid() && check in validCheckList
      modifies this`nominatedCheck
      ensures Valid()
      ensures View() == var s := old(View());
                        s.(nominatedCheck :=
                             if check.nominated then Better(s.nominatedCheck, check.pair) else s.nominatedCheck)
    {
      hide Views;
      if check.nominated {
        if nominatedCheck == null || nominatedCheck.pair.priority < check.pair.priority {
          nominatedCheck := check;
        }
      }
    }

    /** Sets the nominated flag of the k-th valid pair and considers it for both choices. */
    method FlagValid(k: nat, nominated: bool)
      requires Valid() && k < |validCheckList|
      modifies this`validCheck, this`nominatedCheck, validCheckList[k]
      ensures Valid()
      ensures var s := old(View());
              var v := s.valid[k].(nominated := nominated);
              View() == Spec.MarkValidAndNominated(s.(valid := s.valid[k := v]), v)
    {
      hide Views, Spec.MarkValidAndNominated;
      ghost var s := View();
      ghost var v := s.valid[k].(nominated := nominated);
      var check := validCheckList[k];
      check.nominated := nominated;
      assert Views(validCheckList) == s.valid[k := v];
      assert Views(checkList) == s.board.checks by {
        assert forall c :: c in checkList ==> c.View() == old(c.View());
      }
      assert View() == s.(valid := s.valid[k := v]);
      MarkValidAndNominated(check);
    }

    /** The loop of handleIncomingCheck over the valid pairs with the remote candidate of a check. */
    method NominateValid(remote: Candidate)
      requires Valid()
      modifies this`validCheck, this`nominatedCheck, validCheckList
      ensures Valid()
      ensures View() == Spec.NominateValid(old(View()), remote, 0)
    {
      hide Views, Spec.MarkValidAndNominated;
      for k := 0 to |validCheckList|
        modifies this`validCheck, this`nominatedCheck, validCheckList
        invariant Valid()
        invariant Spec.NominateValid(old(View()), remote, 0) == Spec.NominateValid(View(), remote, k)
      {
        if validCheckList[k].pair.remote == remote {
          FlagValid(k, true);
        }
      }
    }

    /** The first entry of a list of checks for the two candidates, or the length of the list. */
    static method FindPair(cs: seq<Check>, l: Candidate, r: Candidate) returns (i: nat)
      ensures i == IndexOfPair(Views(cs), l, r, 0) && i <= |cs|
    {
      i := 0;
      while i < |cs| && !(cs[i].pair.local == l && cs[i].pair.remote == r)
        invariant i <= |cs| && IndexOfPair(Views(cs), l, r, 0) == IndexOfPair(Views(cs), l, r, i)
      {
        i := i + 1;
      }
    }

    static method FindAddr(cs: seq<Candidate>, addr: string) returns (c: Option<Candidate>)
      ensures c == FirstWith(cs, addr)
    {
      for k := 0 to |cs|
        invariant FirstWith(cs, addr) == FirstWith(cs[k..], addr)
      {
        if cs[k].addr == addr {
          return Some(cs[k]);
        }
        assert cs[k..][1..] == cs[k + 1..];
      }
      c := None;
    }

    static method FindMapped(cs: seq<Candidate>, addr: string, base: string) returns (c: Option<Candidate>)
      ensures c == FirstMapped(cs, addr, base)
    {
      for k := 0 to |cs|
        invariant FirstMapped(cs, addr, base) == FirstMapped(cs[k..], addr, base)
      {
        if cs[k].addr == addr && cs[k].baseAddr == base {
          return Some(cs[k]);
        }
        assert cs[k..][1..] == cs[k + 1..];
      }
      c := None;
    }

    method FinishCheck(i: nat, to: CheckState, err: CheckError, env: Env) returns (p: Option<PanicKind>)
      requires Valid() && i < |checkList|
      modifies this`checkMap, this`changes, this`completeResult, this`silent, this`timerArmed, this`transport,
           this`notices, checkList
      ensures Spec.FinishCheck(old(View()), i, to, err, env) == if p.None? then Ok(View()) else Panic(p.value)
    {
      hide Views, Spec.ChangeCheckState, Spec.TryCompleteCheck;
      p := ChangeCheckState(i, to, err);
      if p.Some? {
        return;
      }
      OnlyBoardChanged();
      p := TryCompleteCheck(i, env);
    }

    /** The tail of the valid-pair section of handleCheckResponse when the pair is new. */
    method AddValid(check: Check)
      requires Valid() && check !in checkList && check !in validCheckList
      modifies this`validCheckList, this`validCheck, this`nominatedCheck
      ensures Valid()
      ensures multiset(validCheckList) == multiset(old(validCheckList)) + multiset{check}
      ensures SortOf(Views(validCheckList), old(Views(validCheckList)) + [check.View()])
      ensures View() == Spec.MarkValidAndNominated(old(View()).(valid := Views(validCheckList)), check.View())
    {
      hide Views, Spec.MarkValidAndNominated, SortOf, AllDistinct;
      AppendValid(check);
      MarkValidAndNominated(check);
    }

    /** Appends a valid pair and sorts the list. */
    method AppendValid(check: Check)
      requires Valid() && check !in checkList && check !in validCheckList
      modifies this`validCheckList
      ensures Valid() && check in validCheckList
      ensures multiset(validCheckList) == multiset(old(validCheckList)) + multiset{check}
      ensures SortOf(Views(validCheckList), old(Views(validCheckList)) + [check.View()])
      ensures View() == old(View()).(valid := Views(validCheckList))
    {
      hide Views, SortOf, AllDistinct;
      var sorted := SortWith(validCheckList, check);
      SetValid(sorted);
    }

    method SetValid(sorted: seq<Check>)
      requires Valid() && AllDistinct(sorted)
      requires forall c :: c in validCheckList ==> c in sorted
      requires forall c :: c in checkList ==> c !in sorted
      modifies this`validCheckList
      ensures Valid() && validCheckList == sorted
      ensures View() == old(View()).(valid := Views(validCheckList))
    {
      hide Views;
      validCheckList := sorted;
    }

    method ConstructValidPair(i: nat, l: Candidate)
      requires Valid() && i < |checkList|
      modifies this`validCheckList, this`validCheck, this`nominatedCheck, validCheckList
      ensures Valid()
      ensures forall c :: c in validCheckList ==> c in old(validCheckList) || fresh(c)
      ensures OrderFits(old(View()), i, l, Views(validCheckList))
      ensures View() == Spec.ConstructValidPair(old(View()), i, l, Views(validCheckList))
    {
      hide Views, Spec.MarkValidAndNominated, SortOf;
      var check := checkList[i];
      var k := FindPair(validCheckList, l, check.pair.remote);
      if k < |validCheckList| {
        FlagValid(k, check.nominated);
      } else {
        var newcheck := new Check(MakePair(role, l, check.pair.remote), SUCCEEDED, check.nominated);
        assert newcheck.View() == ValidPairFor(View(), i, l);
        assert View() == old(View());
        AddValid(newcheck);
        PermutedMembers(validCheckList, old(validCheckList), newcheck);
      }
    }

    /** The local candidate of a valid pair: known on this base, or learned from the response. */
    method LearnLocal(i: nat, mapped: string, env: Env) returns (l: Candidate)
      requires Valid() && i < |checkList|
      modifies this`localCandidates
      ensures l == MappedLocal(old(View()), i, mapped, env)
      ensures View() == Spec.LearnLocal(old(View()), i, mapped, env)
    {
      hide Views;
      ghost var s := View();
      var of := checkList[i].pair.local;
      var known := FindMapped(localCandidates, mapped, of.baseAddr);
      if known.Some? {
        return known.value;
      }
      l := LearnedLocal(of, mapped, env);
      localCandidates := localCandidates + [l];
      assert View() == s.(localCandidates := localCandidates);
    }

    /** The success branch of handleCheckResponse. */
    method CheckSucceeded(i: nat, mapped: string, env: Env) returns (p: Option<PanicKind>)
      requires Valid() && i < |checkList|
      modifies this, checkList, validCheckList
      ensures Valid() && forall c :: c in validCheckList ==> c in old(validCheckList) || fresh(c)
      ensures checkList == old(checkList)
      ensures
        var s := old(View());
        OrderFits(Spec.LearnLocal(s, i, mapped, env), i, MappedLocal(s, i, mapped, env), Views(validCheckList))
        && Spec.CheckSucceeded(s, i, mapped, Views(validCheckList), env)
           == if p.None? then Ok(View()) else Panic(p.value)
    {
      hide Views, Spec.ConstructValidPair, Spec.FinishCheck, OrderFits, Spec.LearnLocal, MappedLocal;
      var l := LearnLocal(i, mapped, env);
      ConstructValidPair(i, l);
      ghost var order := Views(validCheckList);
      label placed:
      p := FinishCheck(i, SUCCEEDED, NoError, env);
      assert Views(validCheckList) == order by {
        assert forall c :: c in validCheckList ==> c.View() == old@placed(c.View());
      }
    }

    method ChangeRole(newrole: Role)
      modifies this`role
      ensures View() == old(View()).(role := newrole)
    {
      hide Views;
      ghost var s := View();
      if newrole != role {
        role := newrole;
      }
      assert View() == s.(role := newrole);
    }

    /** handleCheckResponse, with the guard of processBindingResponse. */
    method ProcessBindingResponse(i: nat, from: string, res: Response, env: Env) returns (p: Option<PanicKind>)
      requires Valid() && i < |checkList|
      modifies this, checkList, validCheckList
      ensures Valid() && forall c :: c in validCheckList ==> c in old(validCheckList) || fresh(c)
      ensures checkList == old(checkList)
      ensures
        var s := old(View());
        (MakesPair(s, i, from, res) ==>
           OrderFits(Spec.LearnLocal(s, i, res.mapped.value, env), i, MappedLocal(s, i, res.mapped.value, env),
                     Views(validCheckList)))
        && Spec.ProcessBindingResponse(s, i, from, res, Views(validCheckList), env)
           == if p.None? then Ok(View()) else Panic(p.value)
    {
      hide Views, Spec.CheckSucceeded, Spec.FinishCheck, OrderFits, Spec.LearnLocal, MappedLocal, RoleAfterConflict;
      var check := checkList[i];
      p := None;
      if check.state >= SUCCEEDED {
        return;
      }
      if completeResult >= ALL_COMPLETE {
        return;
      }
      match res {
        case ErrorResponse(roleConflict, hasControlled, hasControlling) =>
          if !roleConflict {
            p := FinishCheck(i, FAILED, UnknownErrorCode, env);
            return;
          }
          var newrole := RoleAfterConflict(hasControlled, hasControlling);
          ChangeRole(newrole);
          p := RetryOneCheck(i);
        case SuccessResponse(mapped) =>
          if check.pair.remote.addr != from {
            p := FinishCheck(i, FAILED, UnknownAddress, env);
            return;
          }
          if mapped.None? {
            p := FinishCheck(i, FAILED, NoMappedAddress, env);
            return;
          }
          p := CheckSucceeded(i, mapped.value, env);
      }
    }

    method LearnRemote(rc: RxCheck, env: Env) returns (r: Option<Candidate>)
      requires Valid()
      modifies this`remoteCandidates
      ensures Spec.LearnRemote(old(View()), rc, env) == if r.Some? then Some(View()) else None
      ensures r.Some? ==> FirstWith(remoteCandidates, rc.remoteAddress) == r
      ensures r.None? ==> View() == old(View())
    {
      hide Views, FirstWith, LearnedRemote;
      r := FindAddr(remoteCandidates, rc.remoteAddress);
      if r.Some? || |remoteCandidates| > MAX_CANDIDATES {
        return;
      }
      FirstWithExtends(remoteCandidates, LearnedRemote(rc, env), rc.remoteAddress);
      LearnedRemoteAddress(rc, env);
      r := Some(LearnedRemote(rc, env));
      AppendRemote(r.value);
    }

    method AppendRemote(c: Candidate)
      modifies this`remoteCandidates
      ensures remoteCandidates == old(remoteCandidates) + [c]
      ensures View() == old(View()).(remoteCandidates := remoteCandidates)
    {
      hide Views;
      remoteCandidates := remoteCandidates + [c];
    }

    method SetNominated(i: nat, nominated: bool)
      requires Valid() && i < |checkList|
      modifies checkList[i]
      ensures View() == var s := old(View()); s.(board := Spec.SetNominated(s.board, i, nominated))
    {
      hide Views;
      ghost var b := BoardView();
      checkList[i].nominated := nominated;
      assert Views(checkList) == Spec.SetNominated(b, i, nominated).checks;
      OnlyBoardChanged();
    }

    /** The branch of handleIncomingCheck for a pair that is on the check list. */
    method TriggerListed(i: nat, userCandidate: bool, env: Env) returns (p: Option<PanicKind>)
      requires Valid() && i < |checkList|
      modifies this, checkList, validCheckList
      ensures Valid()
      ensures Spec.TriggerListed(old(View()), i, userCandidate, env) == if p.None? then Ok(View()) else Panic(p.value)
    {
      hide Views, Spec.TriggerFlagged, Spec.SetNominated;
      SetNominated(i, userCandidate || checkList[i].nominated);
      p := TriggerFlagged(i, userCandidate, env);
    }

    method TriggerFlagged(i: nat, userCandidate: bool, env: Env) returns (p: Option<PanicKind>)
      requires Valid() && i < |checkList|
      modifies this, checkList, validCheckList
      ensures Valid()
      ensures Spec.TriggerFlagged(old(View()), i, userCandidate, env) == if p.None? then Ok(View()) else Panic(p.value)
    {
      hide Views, Spec.NominateValid, Spec.TryCompleteCheck, Spec.ChangeCheckState;
      var c := checkList[i];
      p := None;
      if c.state == FROZEN || c.state == WAITING {
        if c.pair.key !in checkMap {
          return Some(TriggeredCheckNotOpen);
        }
        p := RaiseState(i, IN_PROGRESS);
      } else if c.state == IN_PROGRESS {
        p := RetryOneCheck(i);
      } else if c.state == SUCCEEDED {
        p := Renominate(i, userCandidate, env);
      }
    }

    /** The part of that branch for a pair that has succeeded. */
    method Renominate(i: nat, userCandidate: bool, env: Env) returns (p: Option<PanicKind>)
      requires Valid() && i < |checkList|
      modifies this, checkList, validCheckList
      ensures Valid()
      ensures
        var s := old(View());
        var s1 := if userCandidate then Spec.NominateValid(s, s.board.checks[i].pair.remote, 0) else s;
        Spec.TryCompleteCheck(s1, i, env) == if p.None? then Ok(View()) else Panic(p.value)
    {
      hide Views, Spec.NominateValid, Spec.TryCompleteCheck;
      if userCandidate {
        NominateValid(checkList[i].pair.remote);
      }
      p := TryCompleteCheck(i, env);
    }

    /** changeCheckState seen on the whole session. */
    method RaiseState(i: nat, to: CheckState) returns (p: Option<PanicKind>)
      requires Valid() && i < |checkList| && to < SUCCEEDED
      modifies this`checkMap, this`changes, checkList[i]
      ensures p.None?
      ensures View() == var s := old(View()); s.(board := Spec.ChangeCheckState(s.board, i, to, NoError).value)
    {
      hide Views;
      p := ChangeCheckState(i, to, NoError);
      OnlyBoardChanged();
    }

    /** The branch of handleIncomingCheck for a pair that is not on the check list. */
    method AddTriggered(l: Candidate, r: Candidate, userCandidate: bool)
      requires Valid()
      modifies this`checkList, this`checkMap
      ensures Valid()
      ensures View() == Spec.AddTriggered(old(View()), l, r, userCandidate)
    {
      hide Views;
      var c := new Check(MakePair(role, l, r), IN_PROGRESS, userCandidate);
      AppendCheck(c);
    }

    /** A check at the end of the list, with an open channel. */
    method AppendCheck(c: Check)
      requires Valid() && c !in checkList && c !in validCheckList
      modifies this`checkList, this`checkMap
      ensures Valid()
      ensures View() == var s := old(View());
                        s.(board := s.board.(checks := s.board.checks + [c.View()],
                                             open := s.board.open + {c.pair.key}))
    {
      hide Views, AllDistinct;
      AppendedDistinct(checkList, c);
      ViewsConcat(checkList, [c]);
      assert Views([c]) == [c.View()];
      checkList := checkList + [c];
      checkMap := checkMap + {c.pair.key};
      assert View() == old(View()).(board := BoardView());
    }

    method HandleIncomingCheck(rc: RxCheck, env: Env) returns (p: Option<PanicKind>)
      requires Valid()
      modifies this, checkList, validCheckList
      ensures Valid()
      ensures Spec.HandleIncomingCheck(old(View()), rc, env) == if p.None? then Ok(View()) else Panic(p.value)
    {
      hide Views, Spec.LearnRemote, Spec.TriggerListed, Spec.AddTriggered;
      var rcand := LearnRemote(rc, env);
      if rcand.None? {
        return None;
      }
      var lcand := FindAddr(localCandidates, rc.localAddress);
      if lcand.None? {
        return Some(NilLocalCandidate);
      }
      var i := FindPair(checkList, lcand.value, rcand.value);
      if i < |checkList| {
        p := TriggerListed(i, rc.userCandidate, env);
      } else {
        AddTriggered(lcand.value, rcand.value, rc.userCandidate);
        p := None;
      }
    }

    /** processBindingRequest after authentication; `conflict` says that a 487 response was sent. */
    method ProcessBindingRequest(rq: RxRequest, env: Env) returns (conflict: bool, p: Option<PanicKind>)
      requires Valid()
      modifies this, checkList, validCheckList
      ensures Valid()
      ensures conflict <==> JudgeRequest(old(role), tieBreaker, rq.controlling, rq.controlled).1.Conflict?
      ensures Spec.ProcessBindingRequest(old(View()), rq, env) == if p.None? then Ok(View()) else Panic(p.value)
    {
      hide Views, Spec.HandleIncomingCheck;
      var hasControl;
      conflict, hasControl := SettleRole(rq);
      p := None;
      if conflict || !hasControl {
        return;
      }
      if completeResult >= ALL_COMPLETE {
        return;
      }
      if checkMap == {} && completeResult == NOT_COMPLETE {
        KeepEarly(rq.check);
      } else {
        p := HandleIncomingCheck(rq.check, env);
      }
    }

    method KeepEarly(rc: RxCheck)
      modifies this`earlyCheckList
      ensures View() == var s := old(View()); s.(early := s.early + [rc])
    {
      hide Views;
      ghost var s := View();
      earlyCheckList := earlyCheckList + [rc];
      assert View() == s.(early := earlyCheckList);
    }

    /** The role part of processBindingRequest. */
    method SettleRole(rq: RxRequest) returns (conflict: bool, hasControl: bool)
      modifies this`role
      ensures
        var (r, verdict) := JudgeRequest(old(role), tieBreaker, rq.controlling, rq.controlled);
        View() == old(View()).(role := r)
        && (conflict <==> verdict.Conflict?) && (!conflict && !hasControl <==> verdict.NoRoleAttribute?)
    {
      hide Views, JudgeRequest;
      conflict, hasControl := CompareTieBreakers(rq);
    }

    /** The two comparisons of the role with the attributes of a request. */
    method CompareTieBreakers(rq: RxRequest) returns (conflict: bool, hasControl: bool)
      modifies this`role
      ensures
        var (r, verdict) := JudgeRequest(old(role), tieBreaker, rq.controlling, rq.controlled);
        role == r
        && (conflict <==> verdict.Conflict?) && (!conflict && !hasControl <==> verdict.NoRoleAttribute?)
    {
      conflict, hasControl := false, false;
      if rq.controlling.Some? {
        hasControl := true;
        if role != Controlled {
          if tieBreaker < rq.controlling.value {
            role := Controlled;
          } else {
            conflict := true;
          }
        }
      }
      if !conflict && rq.controlled.Some? {
        hasControl := true;
        if role != Controlling {
          if tieBreaker < rq.controlled.value {
            role := Controlling;
          } else {
            conflict := true;
          }
        }
      }
    }

    /** The loop's reaction to a check that got no response. */
    method ProcessTryFailed(i: nat, env: Env) returns (p: Option<PanicKind>)
      requires Valid() && i < |checkList|
      modifies this`checkMap, this`changes, this`completeResult, this`silent, this`timerArmed, this`transport,
           this`notices, checkList
      ensures Spec.ProcessTryFailed(old(View()), i, env) == if p.None? then Ok(View()) else Panic(p.value)
    {
      hide Views, Spec.FinishCheck;
      p := None;
      if checkList[i].state < SUCCEEDED {
        p := FinishCheck(i, FAILED, TriedTooManyTimes, env);
      }
    }

    /** The goroutine that waits for a nomination, once its time is up. */
    method NominationTimeout(env: Env) returns (p: Option<PanicKind>)
      requires Valid()
      modifies this`completeResult, this`silent, this`timerArmed, this`transport, this`notices
      ensures Spec.NominationTimeout(old(View())) == if p.None? then Ok(View()) else Panic(p.value)
    {
      hide Views, Spec.IceFailed;
      ghost var s := View();
      timerArmed := false;
      assert View() == s.(timerArmed := false);
      p := None;
      if nominatedCheck == null {
        p := IceComplete(true, true, env);
      }
    }

    /** startCheck, with the first loop of allcheck; false when a check has been started before. */
    method StartCheck() returns (ok: bool)
      requires Valid() && checkList != []
      modifies this`isNominating, this`checkMap, this`begun
      ensures ok <==> old(checkList[0].state) == FROZEN
      ensures View() == Spec.StartCheck(old(View()))
    {
      hide Views;
      ghost var s := View();
      if role == Controlling {
        isNominating := true;
      }
      assert View() == s.(isNominating := s.isNominating || s.role.Controlling?);
      ok := checkList[0].state == FROZEN;
      if ok {
        FillCheckMap();
      }
    }

    /** The first loop of allcheck: every check gets a channel. */
    method FillCheckMap()
      requires Valid()
      modifies this`checkMap, this`begun
      ensures View() == var s := old(View());
                        s.(board := s.board.(open := s.board.open + AllKeys(s.board.checks)), begun := true)
    {
      hide Views;
      ghost var s := View();
      for k := 0 to |checkList|
        modifies this`checkMap
        invariant checkMap == s.board.open + AllKeys(s.board.checks[..k])
      {
        checkMap := checkMap + {checkList[k].pair.key};
        AllKeysStep(s.board.checks, k);
      }
      assert s.board.checks[..|checkList|] == s.board.checks;
      begun := true;
      assert View() == s.(board := BoardView(), begun := true);
    }

    /** One iteration of the second loop of allcheck: the first check of a foundation waits. */
    method FirstPass(i: nat) returns (p: Option<PanicKind>)
      requires Valid() && i < |checkList|
      modifies this`checkMap, this`changes, checkList[i]
      ensures p.None?
      ensures Spec.FirstPass(old(View()).board, i).Ok?
      ensures View() == var s := old(View()); s.(board := Spec.FirstPass(s.board, i).value)
    {
      hide Views;
      var seen := false;
      for j := 0 to i
        invariant seen <==>
                    exists m :: 0 <= m < j && checkList[m].pair.local.foundation == checkList[i].pair.local.foundation
      {
        if checkList[j].pair.local.foundation == checkList[i].pair.local.foundation {
          seen := true;
        }
      }
      ghost var cs := View().board.checks;
      assert forall m :: 0 <= m < |cs| ==> cs[m].pair == checkList[m].pair;
      p := None;
      if !seen {
        p := RaiseState(i, WAITING);
      }
    }

    /** One iteration of the loops of allcheck that start waiting and then frozen checks. */
    method LaunchPass(i: nat, phase: CheckState) returns (p: Option<PanicKind>)
      requires Valid() && i < |checkList| && phase < IN_PROGRESS
      modifies this`checkMap, this`changes, checkList[i]
      ensures p.None?
      ensures Spec.LaunchPass(old(View()).board, i, phase).Ok?
      ensures View() == var s := old(View()); s.(board := Spec.LaunchPass(s.board, i, phase).value)
    {
      hide Views;
      p := None;
      if checkList[i].state == phase {
        p := RaiseState(i, IN_PROGRESS);
      }
    }

    /** One iteration of the loop of allcheck over the requests that came early. */
    method ReplayEarly(k: nat, env: Env) returns (p: Option<PanicKind>)
      requires Valid() && k < |earlyCheckList|
      modifies this, checkList, validCheckList
      ensures Valid()
      ensures Spec.ReplayEarly(old(View()), k, env) == if p.None? then Ok(View()) else Panic(p.value)
    {
      hide Views, Spec.HandleIncomingCheck;
      p := HandleIncomingCheck(earlyCheckList[k], env);
    }

    /** The start of onecheck when it was told to nominate. */
    method NominateOnStart(i: nat)
      requires Valid() && i < |checkList|
      modifies checkList[i]
      ensures View() == Spec.NominateOnStart(old(View()), i)
    {
      hide Views;
      if role == Controlling {
        SetNominated(i, true);
      }
    }

    /** The first loop of createCheckList. */
    method KeepFirstComponent(candidates: seq<Candidate>)
      requires remoteCandidates == []
      modifies this`remoteCandidates
      ensures remoteCandidates == FirstComponent(candidates)
      ensures View() == old(View()).(remoteCandidates := remoteCandidates)
    {
      hide Views;
      for k := 0 to |candidates|
        invariant remoteCandidates == FirstComponent(candidates[..k])
      {
        assert candidates[..k + 1][..k] == candidates[..k];
        if candidates[k].componentID != 1 {
          continue;
        }
        remoteCandidates := remoteCandidates + [candidates[k]];
      }
      assert candidates[..|candidates|] == candidates;
    }

    /** createCheckList: false when the answer holds too many candidates or no pair can be made. */
    method CreateCheckList(candidates: seq<Candidate>) returns (ok: bool, ghost sorted: seq<Pair>)
      requires Valid() && checkList == [] && remoteCandidates == []
      modifies this`remoteCandidates, this`checkList
      ensures Valid()
      ensures |candidates| > MAX_CANDIDATES ==> !ok && View() == old(View())
      ensures
        |candidates| <= MAX_CANDIDATES ==>
          IsFirstComponent(candidates, remoteCandidates)
          && ((forall c :: c in candidates ==> c.componentID == 1) ==> remoteCandidates == candidates)
          && (ok <==> Product(role, localCandidates, remoteCandidates) != [])
          && StableSortOf(sorted, Product(role, localCandidates, remoteCandidates))
          && View() == old(View()).(remoteCandidates := remoteCandidates,
                                    board := old(View()).board.(checks := FrozenChecks(Prune(sorted))))
      ensures
        |candidates| <= MAX_CANDIDATES ==>
          |checkList| == |Prune(sorted)|
          && forall i :: 0 <= i < |checkList| ==>
               checkList[i].View() == CheckView(Prune(sorted)[i], FROZEN, false, NoError)
      ensures
        |candidates| <= MAX_CANDIDATES
        && old(View()) == InitialState(role, tieBreaker, localCandidates, [], earlyCheckList, []) ==>
          View() == InitialState(role, tieBreaker, localCandidates, remoteCandidates, earlyCheckList, Prune(sorted))
    {
      hide Views, Prune, StableSortOf, Product, FrozenChecks, FirstComponent, IsFirstComponent;
      sorted := [];
      if |candidates| > MAX_CANDIDATES {
        return false, [];
      }
      KeepFirstComponent(candidates);
      FirstComponentIs(candidates);
      var full := MakeProduct(role, localCandidates, remoteCandidates);
      ok := full != [];
      var list := SortStable(full);
      sorted := list;
      list := PruneCheckList(list);
      FillCheckList(list);
      FrozenChecksAre(list);
    }

    /** Frozen checks for the pairs of the list. */
    method FillCheckList(list: seq<Pair>)
      requires Valid() && checkList == []
      modifies this`checkList
      ensures Valid()
      ensures View() == var s := old(View()); s.(board := s.board.(checks := FrozenChecks(list)))
    {
      hide Views;
      var checks: seq<Check> := MakeChecks(list);
      checkList := checks;
      assert View() == old(View()).(board := BoardView());
    }

    /** Any event, handled by the method it belongs to. `done` is the event with the order that
        the valid list was left in. */
    method Handle(e: Event, env: Env) returns (ghost done: Event, p: Option<PanicKind>)
      requires Valid() && exists order :: Enabled(View(), WithOrder(e, order), env)
      modifies this, checkList, validCheckList
      ensures Valid()
      ensures exists order :: done == WithOrder(e, order)
      ensures Enabled(old(View()), done, env)
      ensures Spec.Next(old(View()), done, env) == if p.None? then Ok(View()) else Panic(p.value)
    {
      hide Views, Spec.StartCheck, Spec.FirstPass, Spec.LaunchPass, Spec.ReplayEarly, Spec.NominateOnStart, OrderFits,
           Spec.ProcessBindingRequest, Spec.ProcessBindingResponse, Spec.ProcessTryFailed, Spec.NominationTimeout,
           MakesPair;
      p := None;
      done := WithOrder(e, []);
      match e {
        case Start =>
          var ok := StartCheck();
        case First(i) =>
          p := FirstPass(i);
        case Replay(k) =>
          p := ReplayEarly(k, env);
        case Launch(i, phase) =>
          p := LaunchPass(i, phase);
        case Nominate(i) =>
          NominateOnStart(i);
        case Request(rq) =>
          var conflict;
          conflict, p := ProcessBindingRequest(rq, env);
        case Respond(i, from, res, _) =>
          p := ProcessBindingResponse(i, from, res, env);
          done := WithOrder(e, Views(validCheckList));
        case TryFailed(i) =>
          p := ProcessTryFailed(i, env);
        case Timeout =>
          p := NominationTimeout(env);
      }
    }
  }

  lemma AllKeysStep(cs: seq<CheckView>, k: nat)
    requires k < |cs|
    ensures AllKeys(cs[..k + 1]) == AllKeys(cs[..k]) + {cs[k].pair.key}
  {
    var a, b := cs[..k], cs[..k + 1];
    forall x | x in AllKeys(a) + {cs[k].pair.key}
      ensures x in AllKeys(b)
    {
      if x in AllKeys(a) {
        var i :| 0 <= i < |a| && a[i].pair.key == x;
        assert b[i].pair.key == x;
      } else {
        assert b[k].pair.key == x;
      }
    }
  }

  lemma LearnedRemoteAddress(rc: RxCheck, env: Env)
    ensures LearnedRemote(rc, env).addr == rc.remoteAddress
  {
  }

  /** Only the first component is negotiated. */
  function FirstComponent(cs: seq<Candidate>): seq<Candidate> {
    if cs == [] then []
    else
      FirstComponent(cs[..|cs| - 1]) + (if cs[|cs| - 1].componentID == 1 then [cs[|cs| - 1]] else [])
  }

  /** The entries kept of a list are those at the given places: exactly the candidates of component 1. */
  predicate Selects(places: seq<nat>, cs: seq<Candidate>, kept: seq<Candidate>) {
    |places| == |kept|
    && (forall i, j :: 0 <= i < j < |places| ==> places[i] < places[j])
    && (forall i :: 0 <= i < |places| ==>
          places[i] < |cs| && cs[places[i]] == kept[i] && kept[i].componentID == 1)
    && forall k :: 0 <= k < |cs| && cs[k].componentID == 1 ==> k in places
  }

  /** What is kept of the answer, in its order. */
  ghost predicate IsFirstComponent(cs: seq<Candidate>, kept: seq<Candidate>) {
    exists places :: Selects(places, cs, kept)
  }

  lemma FirstComponentIs(cs: seq<Candidate>)
    ensures IsFirstComponent(cs, FirstComponent(cs))
    ensures (forall c :: c in cs ==> c.componentID == 1) ==> FirstComponent(cs) == cs
  {
    var places := PlacesOfFirst(cs);
    AllFirst(cs);
  }

  lemma {:induction false} PlacesOfFirst(cs: seq<Candidate>) returns (places: seq<nat>)
    ensures Selects(places, cs, FirstComponent(cs))
  {
    hide Selects;
    if cs == [] {
      places := [];
      NothingSelected();
    } else {
      var init := cs[..|cs| - 1];
      places := PlacesOfFirst(init);
      SelectsMore(places, cs, FirstComponent(init));
      if cs[|cs| - 1].componentID == 1 {
        places := places + [|cs| - 1];
      } else {
        assert FirstComponent(cs) == FirstComponent(init);
      }
    }
  }

  lemma NothingSelected()
    ensures Selects([], [], [])
  {
  }

  lemma SelectsMore(places: seq<nat>, cs: seq<Candidate>, kept: seq<Candidate>)
    requires cs != [] && Selects(places, cs[..|cs| - 1], kept)
    ensures var last := cs[|cs| - 1];
            if last.componentID == 1 then Selects(places + [|cs| - 1], cs, kept + [last]) else Selects(places, cs, kept)
  {
    var more := places + [|cs| - 1];
    forall k | 0 <= k < |cs| && cs[k].componentID == 1
      ensures k in more
    {
      if k < |cs| - 1 {
        assert cs[..|cs| - 1][k].componentID == 1;
        assert k in places;
      } else {
        assert more[|places|] == k;
      }
    }
  }

  lemma {:induction false} AllFirst(cs: seq<Candidate>)
    ensures (forall c :: c in cs ==> c.componentID == 1) ==> FirstComponent(cs) == cs
  {
    if cs != [] {
      var init := cs[..|cs| - 1];
      assert cs == init + [cs[|cs| - 1]];
      AllFirst(init);
    }
  }

  lemma FrozenChecksAre(ps: seq<Pair>)
    ensures |FrozenChecks(ps)| == |ps|
    ensures forall i :: 0 <= i < |ps| ==> FrozenChecks(ps)[i] == CheckView(ps[i], FROZEN, false, NoError)
  {
  }

  /** The nested loops of createCheckList. */
  method MakeProduct(role: Role, locals: seq<Candidate>, remotes: seq<Candidate>) returns (ps: seq<Pair>)
    ensures ps == Product(role, locals, remotes)
  {
    ps := [];
    for i := 0 to |locals|
      invariant ps == Product(role, locals[..i], remotes)
    {
      ghost var before := ps;
      for j := 0 to |remotes|
        invariant ps == before + Row(role, locals[i], remotes)[..j]
      {
        ps := ps + [MakePair(role, locals[i], remotes[j])];
      }
      assert locals[..i + 1][..i] == locals[..i];
    }
    assert locals[..|locals|] == locals;
  }

  /** Frozen check objects for the pairs that survive pruning. */
  method MakeChecks(ps: seq<Pair>) returns (cs: seq<Check>)
    ensures AllDistinct(cs) && forall c :: c in cs ==> fresh(c)
    ensures Views(cs) == FrozenChecks(ps)
  {
    hide Views;
    cs := [];
    for i := 0 to |ps|
      invariant AllDistinct(cs) && forall c :: c in cs ==> fresh(c)
      invariant |cs| == i && forall j :: 0 <= j < i ==> cs[j].View() == FrozenChecks(ps)[j]
    {
      var c := new Check(ps[i], FROZEN, false);
      cs := cs + [c];
    }
    assert Views(cs) == FrozenChecks(ps);
  }

  lemma ViewsConcat(a: seq<Check>, b: seq<Check>)
    ensures Views(a + b) == Views(a) + Views(b)
  {
    hide Views;
  }

  /** sort.Sort on the valid list; only the order of equal priorities is left open. */
  method SortValid(xs: seq<Check>) returns (ys: seq<Check>)
    ensures multiset(ys) == multiset(xs)
    ensures SortOf(Views(ys), Views(xs))
  {
    hide Views, SortOf;
    ys := [];
    NothingToSort();
    for i := 0 to |xs|
      invariant multiset(ys) == multiset(xs[..i])
      invariant SortOf(Views(ys), Views(xs[..i]))
    {
      assert xs[..i + 1] == xs[..i] + [xs[i]];
      ghost var before := ys;
      SortIsDown(Views(ys), Views(xs[..i]));
      ys := InsertSorted(ys, xs[i]);
      ViewsConcat(xs[..i], [xs[i]]);
      ViewsConcat(before, [xs[i]]);
      SortMore(Views(ys), Views(before), Views(xs[..i]), Views([xs[i]]));
    }
    assert xs[..|xs|] == xs;
  }

  /** A new object at the end, and the list sorted again. */
  method SortWith(cs: seq<Check>, c: Check) returns (sorted: seq<Check>)
    requires AllDistinct(cs) && c !in cs
    ensures AllDistinct(sorted) && forall x :: x in sorted <==> x in cs || x == c
    ensures multiset(sorted) == multiset(cs) + multiset{c}
    ensures SortOf(Views(sorted), Views(cs) + [c.View()])
  {
    hide Views, SortOf, AllDistinct;
    ViewsConcat(cs, [c]);
    assert Views([c]) == [c.View()];
    AppendedDistinct(cs, c);
    sorted := SortValid(cs + [c]);
    PermutedDistinct(cs + [c], sorted);
  }

  lemma NothingToSort()
    ensures SortOf(Views([]), Views([]))
  {
  }

  lemma SortIsDown(sorted: seq<CheckView>, vs: seq<CheckView>)
    requires SortOf(sorted, vs)
    ensures ViewsSortedDown(sorted)
  {
  }

  lemma SortMore(sorted: seq<CheckView>, before: seq<CheckView>, vs: seq<CheckView>, more: seq<CheckView>)
    requires SortOf(sorted, before + more) && SortOf(before, vs)
    ensures SortOf(sorted, vs + more)
  {
  }

  lemma InsertedSorted(lo: seq<CheckView>, x: CheckView, hi: seq<CheckView>)
    requires ViewsSortedDown(lo + hi)
    requires forall v :: v in hi ==> v.pair.priority < x.pair.priority
    requires lo != [] ==> lo[|lo| - 1].pair.priority >= x.pair.priority
    ensures SortOf(lo + [x] + hi, lo + hi + [x])
  {
    var vs := lo + hi;
    forall i, j | 0 <= i < j < |lo + [x] + hi|
      ensures (lo + [x] + hi)[i].pair.priority >= (lo + [x] + hi)[j].pair.priority
    {
      var a := if i <= |lo| then i else i - 1;
      var b := if j <= |lo| then j else j - 1;
      if i != |lo| && j != |lo| {
        assert vs[a].pair.priority >= vs[b].pair.priority;
      } else if j == |lo| {
        assert vs[i].pair.priority >= vs[|lo| - 1].pair.priority;
      }
    }
  }

  method InsertSorted(ys: seq<Check>, x: Check) returns (zs: seq<Check>)
    requires ViewsSortedDown(Views(ys))
    ensures multiset(zs) == multiset(ys) + multiset{x}
    ensures SortOf(Views(zs), Views(ys + [x]))
  {
    hide Views, SortOf, ViewsSortedDown;
    var k := |ys|;
    while k > 0 && ys[k - 1].pair.priority < x.pair.priority
      invariant 0 <= k <= |ys|
      invariant forall m :: k <= m < |ys| ==> ys[m].pair.priority < x.pair.priority
    {
      k := k - 1;
    }
    zs := ys[..k] + [x] + ys[k..];
    assert ys == ys[..k] + ys[k..];
    InsertedViews(ys[..k], x, ys[k..]);
  }

  lemma InsertedViews(lo: seq<Check>, x: Check, hi: seq<Check>)
    requires ViewsSortedDown(Views(lo + hi))
    requires forall m :: 0 <= m < |hi| ==> hi[m].pair.priority < x.pair.priority
    requires lo != [] ==> lo[|lo| - 1].pair.priority >= x.pair.priority
    ensures SortOf(Views(lo + [x] + hi), Views(lo + hi + [x]))
  {
    hide Views, SortOf, ViewsSortedDown;
    ViewsConcat(lo, hi);
    ViewsConcat(lo + [x], hi);
    ViewsConcat(lo, [x]);
    ViewsConcat(lo + hi, [x]);
    assert Views([x]) == [x.View()];
    forall v | v in Views(hi)
      ensures v.pair.priority < x.View().pair.priority
    {
      var m :| 0 <= m < |hi| && Views(hi)[m] == v;
      assert v == hi[m].View();
    }
    InsertedSorted(Views(lo), x.View(), Views(hi));
  }

  lemma DistinctByMultiset(xs: seq<Check>)
    ensures AllDistinct(xs) <==> forall x :: x in xs ==> multiset(xs)[x] == 1
  {
    if AllDistinct(xs) {
      forall i | 0 <= i < |xs|
        ensures multiset(xs)[xs[i]] == 1
      {
        OccursOnce(xs, i);
      }
    } else {
      var i, j :| 0 <= i < j < |xs| && xs[i] == xs[j];
      OccursTwice(xs, i, j);
    }
  }

  lemma AppendedDistinct(cs: seq<Check>, c: Check)
    requires AllDistinct(cs) && c !in cs
    ensures AllDistinct(cs + [c])
    ensures forall x :: x in cs + [c] <==> x in cs || x == c
    ensures multiset(cs + [c]) == multiset(cs) + multiset{c}
  {
  }

  lemma PermutedDistinct(xs: seq<Check>, ys: seq<Check>)
    requires multiset(xs) == multiset(ys) && AllDistinct(xs)
    ensures AllDistinct(ys) && forall x :: x in xs <==> x in ys
  {
    forall x: Check
      ensures x in xs <==> x in ys
    {
      assert x in xs <==> x in multiset(xs);
      assert x in ys <==> x in multiset(ys);
    }
    DistinctByMultiset(xs);
    DistinctByMultiset(ys);
  }

  lemma PermutedMembers(xs: seq<Check>, ys: seq<Check>, x: Check)
    requires multiset(xs) == multiset(ys) + multiset{x}
    ensures forall c :: c in xs ==> c in ys || c == x
  {
    forall c | c in xs
      ensures c in ys || c == x
    {
      assert c in multiset(xs);
    }
  }
}
