/** The check list and its channels: what the state changes of ice/icesession.go keep. */
module IceBoard {
  import opened Wrappers
  import opened IceTypes
  import opened IceSpec

  predicate KeysDistinct(cs: seq<CheckView>) {
    forall i, j :: 0 <= i < j < |cs| ==> cs[i].pair.key != cs[j].pair.key
  }

  /** Accepted state changes a check can have seen when it is in the given state. */
  function Rank(state: CheckState): nat {
    if state >= SUCCEEDED then 3 else state
  }

  function Work(cs: seq<CheckView>): nat {
    if cs == [] then 0 else Work(cs[..|cs| - 1]) + Rank(cs[|cs| - 1].state)
  }

  /** The keys of the checks that are neither Succeeded nor Failed. */
  function UnfinishedKeys(cs: seq<CheckView>): set<string> {
    if cs == [] then {}
    else
      UnfinishedKeys(cs[..|cs| - 1])
      + (if cs[|cs| - 1].state < SUCCEEDED then {cs[|cs| - 1].pair.key} else {})
  }

  lemma {:induction false} UnfinishedKeysMember(cs: seq<CheckView>, k: string)
    ensures k in UnfinishedKeys(cs) <==> exists i :: 0 <= i < |cs| && cs[i].pair.key == k && cs[i].state < SUCCEEDED
  {
    if cs != [] {
      var init, c := cs[..|cs| - 1], cs[|cs| - 1];
      UnfinishedKeysMember(init, k);
      if k in UnfinishedKeys(init) {
        var i :| 0 <= i < |init| && init[i].pair.key == k && init[i].state < SUCCEEDED;
        assert cs[i].pair.key == k;
      }
      if i :| 0 <= i < |cs| && cs[i].pair.key == k && cs[i].state < SUCCEEDED && i < |init| {
        assert init[i].pair.key == k && init[i].state < SUCCEEDED;
      }
    }
  }

  lemma UnfinishedKeysAt(cs: seq<CheckView>, i: nat)
    requires KeysDistinct(cs) && i < |cs|
    ensures cs[i].pair.key in UnfinishedKeys(cs) <==> cs[i].state < SUCCEEDED
  {
    UnfinishedKeysMember(cs, cs[i].pair.key);
  }

  lemma KeysDistinctUpdate(cs: seq<CheckView>, i: nat, c: CheckView)
    requires KeysDistinct(cs) && i < |cs| && c.pair == cs[i].pair
    ensures KeysDistinct(cs[i := c])
  {
  }

  lemma {:induction false} UnfinishedKeysUpdate(cs: seq<CheckView>, i: nat, c: CheckView)
    requires KeysDistinct(cs) && i < |cs| && c.pair == cs[i].pair && cs[i].state <= c.state
    ensures UnfinishedKeys(cs[i := c])
            == if c.state < SUCCEEDED then UnfinishedKeys(cs) else UnfinishedKeys(cs) - {c.pair.key}
  {
    var init, last := cs[..|cs| - 1], cs[|cs| - 1];
    if i == |init| {
      assert cs[i := c][..|init|] == init;
      UnfinishedKeysMember(init, c.pair.key);
    } else {
      assert cs[i := c][..|init|] == init[i := c];
      assert c.pair.key != last.pair.key;
      UnfinishedKeysUpdate(init, i, c);
    }
  }

  /** Once startCheck has filled checkMap. */
  ghost predicate BoardOk(b: Board) {
    KeysDistinct(b.checks)
    && b.open == UnfinishedKeys(b.checks)
    && (forall i :: 0 <= i < |b.checks| ==> (b.checks[i].err.NoError? <==> b.checks[i].state != FAILED))
    && b.changes <= Work(b.checks)
  }

  /** How one check may change: its state only rises, and Succeeded and Failed are absorbing. */
  predicate CheckGrows(c: CheckView, d: CheckView) {
    d.pair == c.pair && c.state <= d.state
    && (c.state >= SUCCEEDED ==> d.state == c.state && d.err == c.err)
    && (c.nominated ==> d.nominated)
  }

  /** How the list may change: checks stay in place, and new ones are in progress or beyond. */
  predicate BoardGrows(b: Board, d: Board) {
    |b.checks| <= |d.checks| && b.changes <= d.changes
    && (forall i :: 0 <= i < |b.checks| ==> CheckGrows(b.checks[i], d.checks[i]))
    && (forall i :: |b.checks| <= i < |d.checks| ==> d.checks[i].state >= IN_PROGRESS)
  }

  lemma BoardGrowsTransitive(a: Board, b: Board, c: Board)
    requires BoardGrows(a, b) && BoardGrows(b, c)
    ensures BoardGrows(a, c)
  {
    forall i | 0 <= i < |a.checks|
      ensures CheckGrows(a.checks[i], c.checks[i])
    {
      assert CheckGrows(a.checks[i], b.checks[i]) && CheckGrows(b.checks[i], c.checks[i]);
    }
    forall i | |a.checks| <= i < |c.checks|
      ensures c.checks[i].state >= IN_PROGRESS
    {
      if i < |b.checks| {
        assert CheckGrows(b.checks[i], c.checks[i]);
      }
    }
  }

  lemma {:induction false} WorkOfUpdate(cs: seq<CheckView>, i: nat, c: CheckView)
    requires i < |cs|
    ensures Work(cs[i := c]) == Work(cs) - Rank(cs[i].state) + Rank(c.state)
  {
    if i == |cs| - 1 {
      assert cs[i := c][..|cs| - 1] == cs[..|cs| - 1];
    } else {
      assert cs[i := c][..|cs| - 1] == cs[..|cs| - 1][i := c];
      WorkOfUpdate(cs[..|cs| - 1], i, c);
    }
  }

  /** The keys of the open channels, said as a set. */
  lemma OpenKeys(b: Board)
    requires BoardOk(b)
    ensures b.open == set i | 0 <= i < |b.checks| && b.checks[i].state < SUCCEEDED :: b.checks[i].pair.key
  {
    forall k: string
      ensures k in b.open <==>
                exists i :: 0 <= i < |b.checks| && b.checks[i].state < SUCCEEDED && b.checks[i].pair.key == k
    {
      UnfinishedKeysMember(b.checks, k);
    }
  }

  lemma {:induction false} NoneOpenWhenFinished(cs: seq<CheckView>)
    requires AllFinished(cs)
    ensures UnfinishedKeys(cs) == {}
  {
    if cs != [] {
      NoneOpenWhenFinished(cs[..|cs| - 1]);
    }
  }

  /** changeCheckState never closes a channel that is not open, and keeps everything above. */
  lemma ChangeKeeps(b: Board, i: nat, to: CheckState, err: CheckError)
    requires BoardOk(b) && i < |b.checks|
    requires err.NoError? <==> to != FAILED
    requires b.checks[i].state == SUCCEEDED ==> to != FAILED
    ensures ChangeCheckState(b, i, to, err).Ok?
    ensures
      var d := ChangeCheckState(b, i, to, err).value;
      BoardOk(d) && BoardGrows(b, d)
      && d.checks == (if b.checks[i].state < to then b.checks[i := b.checks[i].(state := to, err := err)] else b.checks)
  {
    var c := b.checks[i].(state := to, err := err);
    if b.checks[i].state < to {
      WorkOfUpdate(b.checks, i, c);
      KeysDistinctUpdate(b.checks, i, c);
      UnfinishedKeysAt(b.checks, i);
      UnfinishedKeysUpdate(b.checks, i, c);
    }
  }

  /** The count of changes goes up by one exactly when a check changes. */
  lemma ChangesCounted(b: Board, i: nat, to: CheckState, err: CheckError)
    requires i < |b.checks| && ChangeCheckState(b, i, to, err).Ok?
    ensures var d := ChangeCheckState(b, i, to, err).value;
            d.changes == b.changes + if d.checks == b.checks then 0 else 1
  {
  }

  lemma ErrorMeansFailed(b: Board, i: nat)
    requires BoardOk(b) && i < |b.checks|
    ensures b.checks[i].err.NoError? <==> b.checks[i].state != FAILED
  {
  }

  /** changeCheckState alone would let Succeeded become Failed; the second close of the channel
      then panics. */
  lemma SucceededToFailedPanics(b: Board, i: nat, err: CheckError)
    requires BoardOk(b) && i < |b.checks| && b.checks[i].state == SUCCEEDED
    ensures ChangeCheckState(b, i, FAILED, err) == Panic(CloseOfMissingChannel)
  {
    UnfinishedKeysAt(b.checks, i);
  }

  lemma CancelKeeps(b: Board, i: nat)
    requires BoardOk(b) && i < |b.checks| && b.checks[i].state < SUCCEEDED
    ensures CancelOneCheck(b, i).Ok?
    ensures
      var d := CancelOneCheck(b, i).value;
      BoardOk(d) && BoardGrows(b, d)
      && d.checks == b.checks[i := b.checks[i].(state := FAILED, err := Canceled)]
  {
    UnfinishedKeysAt(b.checks, i);
    ChangeKeeps(b, i, FAILED, Canceled);
  }

  function Thawed(c: CheckView, foundation: int): CheckView {
    if c.pair.local.foundation == foundation && c.state == FROZEN then c.(state := WAITING, err := NoError) else c
  }

  /** Section 7.1.2.2.2 of RFC 5245: what the first loop of tryCompleteCheck does to the list. */
  lemma {:induction false} UnfreezeKeeps(b: Board, foundation: int, k: nat)
    requires BoardOk(b) && k <= |b.checks|
    ensures Unfreeze(b, foundation, k).Ok?
    ensures
      var d := Unfreeze(b, foundation, k).value;
      BoardOk(d) && BoardGrows(b, d)
      && forall j :: 0 <= j < |b.checks| ==>
           d.checks[j] == if j >= k then Thawed(b.checks[j], foundation) else b.checks[j]
    decreases |b.checks| - k
  {
    hide BoardOk, ChangeCheckState;
    if k < |b.checks| {
      if b.checks[k].pair.local.foundation == foundation && b.checks[k].state == FROZEN {
        ChangeKeeps(b, k, WAITING, NoError);
        var b1 := ChangeCheckState(b, k, WAITING, NoError).value;
        UnfreezeKeeps(b1, foundation, k + 1);
        BoardGrowsTransitive(b, b1, Unfreeze(b1, foundation, k + 1).value);
      } else {
        UnfreezeKeeps(b, foundation, k + 1);
      }
    }
  }

  function CanceledAt(c: CheckView, priority: nat): CheckView {
    if Cancelable(c, priority) then c.(state := FAILED, err := Canceled) else c
  }

  /** Section 8.1.2 of RFC 5245: what the second loop of tryCompleteCheck does to the list. */
  lemma {:induction false} CancelLowerKeeps(b: Board, priority: nat, k: nat)
    requires BoardOk(b) && k <= |b.checks|
    ensures CancelLower(b, priority, k).Ok?
    ensures
      var d := CancelLower(b, priority, k).value;
      BoardOk(d) && BoardGrows(b, d)
      && forall j :: 0 <= j < |b.checks| ==>
           d.checks[j] == if j >= k then CanceledAt(b.checks[j], priority) else b.checks[j]
    decreases |b.checks| - k
  {
    hide BoardOk, CancelOneCheck;
    if k < |b.checks| {
      if Cancelable(b.checks[k], priority) {
        CancelKeeps(b, k);
        var b1 := CancelOneCheck(b, k).value;
        CancelLowerKeeps(b1, priority, k + 1);
        BoardGrowsTransitive(b, b1, CancelLower(b1, priority, k + 1).value);
      } else {
        CancelLowerKeeps(b, priority, k + 1);
      }
    }
  }

  /** No check waits to be started. */
  predicate NoneIdle(cs: seq<CheckView>) {
    forall i :: 0 <= i < |cs| ==> cs[i].state >= IN_PROGRESS
  }

  lemma SettleBoardKeeps(b: Board, i: nat)
    requires BoardOk(b) && i < |b.checks|
    ensures SettleBoard(b, i).Ok?
    ensures
      var d := SettleBoard(b, i).value;
      BoardOk(d) && BoardGrows(b, d)
      && |d.checks| == |b.checks|
      && forall j :: 0 <= j < |b.checks| && b.checks[j].state < SUCCEEDED ==> d.checks[j].state != SUCCEEDED
  {
    var c := b.checks[i];
    if c.err.NoError? {
      UnfreezeKeeps(b, c.pair.local.foundation, 0);
      if c.nominated {
        var b1 := Unfreeze(b, c.pair.local.foundation, 0).value;
        CancelLowerKeeps(b1, c.pair.priority, 0);
        BoardGrowsTransitive(b, b1, CancelLower(b1, c.pair.priority, 0).value);
      }
    }
  }

  /** After tryCompleteCheck for a nominated check that has not failed no check is Frozen or
      Waiting, and a check still in progress has strictly higher priority. */
  lemma SettleLeavesOnlyHigher(b: Board, i: nat)
    requires BoardOk(b) && i < |b.checks|
    requires b.checks[i].state != FAILED && b.checks[i].nominated
    ensures SettleBoard(b, i).Ok?
    ensures
      var d := SettleBoard(b, i).value;
      NoneIdle(d.checks)
      && forall j :: 0 <= j < |d.checks| && d.checks[j].state == IN_PROGRESS ==>
           d.checks[j].pair.priority > b.checks[i].pair.priority
  {
    SettleBoardKeeps(b, i);
    var c := b.checks[i];
    UnfreezeKeeps(b, c.pair.local.foundation, 0);
    CancelLowerKeeps(Unfreeze(b, c.pair.local.foundation, 0).value, c.pair.priority, 0);
  }

  /** No Frozen or Waiting check ever reappears. */
  lemma NoneIdleStays(b: Board, d: Board)
    requires BoardGrows(b, d) && NoneIdle(b.checks)
    ensures NoneIdle(d.checks)
  {
    forall i | 0 <= i < |d.checks|
      ensures d.checks[i].state >= IN_PROGRESS
    {
      if i < |b.checks| {
        assert CheckGrows(b.checks[i], d.checks[i]);
      }
    }
  }

  lemma SetNominatedKeeps(b: Board, i: nat, nominated: bool)
    requires BoardOk(b) && i < |b.checks| && (b.checks[i].nominated ==> nominated)
    ensures BoardOk(SetNominated(b, i, nominated)) && BoardGrows(b, SetNominated(b, i, nominated))
  {
    WorkOfUpdate(b.checks, i, b.checks[i].(nominated := nominated));
    KeysDistinctUpdate(b.checks, i, b.checks[i].(nominated := nominated));
    UnfinishedKeysUpdate(b.checks, i, b.checks[i].(nominated := nominated));
    UnfinishedKeysAt(b.checks, i);
  }

  /** At most three accepted changes per check. */
  lemma {:induction false} WorkBound(cs: seq<CheckView>)
    ensures Work(cs) <= 3 * |cs|
  {
    if cs != [] {
      WorkBound(cs[..|cs| - 1]);
    }
  }

  lemma WorkOfAppend(cs: seq<CheckView>, c: CheckView)
    ensures Work(cs + [c]) == Work(cs) + Rank(c.state)
  {
    assert (cs + [c])[..|cs|] == cs;
  }

  /** A triggered check that is not on the list yet. */
  lemma AppendKeeps(b: Board, c: CheckView)
    requires BoardOk(b)
    requires c.state == IN_PROGRESS && c.err.NoError?
    requires forall i :: 0 <= i < |b.checks| ==> b.checks[i].pair.key != c.pair.key
    ensures
      var d := b.(checks := b.checks + [c], open := b.open + {c.pair.key});
      BoardOk(d) && BoardGrows(b, d)
  {
    WorkOfAppend(b.checks, c);
    var d := b.(checks := b.checks + [c], open := b.open + {c.pair.key});
    assert (b.checks + [c])[..|b.checks|] == b.checks;
  }

  /** Before startCheck: every check is frozen and no channel is open. */
  ghost predicate BoardFresh(b: Board) {
    KeysDistinct(b.checks) && b.open == {} && b.changes == 0
    && forall i :: 0 <= i < |b.checks| ==> b.checks[i].state == FROZEN && b.checks[i].err.NoError?
  }

  lemma FillOpensAll(b: Board)
    requires BoardFresh(b)
    ensures BoardOk(b.(open := b.open + AllKeys(b.checks)))
  {
    forall k: string
      ensures k in AllKeys(b.checks) <==> k in UnfinishedKeys(b.checks)
    {
      UnfinishedKeysMember(b.checks, k);
    }
  }
}
