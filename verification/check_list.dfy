/** Forming the check list: product, stable sort, pruning (ice/icesession.go, sections 5.7.2 and
    5.7.3 of RFC 5245). */
module CheckList {
  import Division
  import opened PairPriority
  import opened IceTypes
  import opened Decimal

  function Row(role: Role, l: Candidate, remotes: seq<Candidate>): (ps: seq<Pair>) {
    seq(|remotes|, j requires 0 <= j < |remotes| => MakePair(role, l, remotes[j]))
  }

  /** Every local candidate with every remote one, local candidates outermost. */
  function Product(role: Role, locals: seq<Candidate>, remotes: seq<Candidate>): (ps: seq<Pair>) {
    if locals == [] then []
    else Product(role, locals[..|locals| - 1], remotes) + Row(role, locals[|locals| - 1], remotes)
  }

  /** The pair of the i-th local and the j-th remote candidate, and where it stands. */
  lemma {:induction false} ProductIs(role: Role, locals: seq<Candidate>, remotes: seq<Candidate>, i: nat, j: nat)
    requires i < |locals| && j < |remotes|
    ensures |Product(role, locals, remotes)| == |locals| * |remotes|
    ensures i * |remotes| + j < |locals| * |remotes|
    ensures var l, r := locals[i], remotes[j];
            Product(role, locals, remotes)[i * |remotes| + j]
            == Pair(l, r, l.addr + "-" + r.addr, CalcPairPriority(role, l.priority, r.priority))
  {
    hide CalcPairPriority;
    var init, n := locals[..|locals| - 1], |remotes|;
    ProductSize(role, init, remotes);
    ProductSize(role, locals, remotes);
    BelowProduct(i, j, |locals|, n);
    if i < |init| {
      ProductIs(role, init, remotes, i, j);
    }
  }

  lemma {:induction false} ProductSize(role: Role, locals: seq<Candidate>, remotes: seq<Candidate>)
    ensures |Product(role, locals, remotes)| == |locals| * |remotes|
  {
    if locals != [] {
      ProductSize(role, locals[..|locals| - 1], remotes);
      assert |locals| * |remotes| == (|locals| - 1) * |remotes| + |remotes|;
    }
  }

  lemma BelowProduct(i: nat, j: nat, m: nat, n: nat)
    requires i < m && j < n
    ensures i * n + j < m * n
  {
    Division.Product(m - i - 1, n);
    assert (m - i - 1) * n == m * n - i * n - n;
  }

  predicate SortedDown(xs: seq<Pair>) {
    forall i, j :: 0 <= i < j < |xs| ==> xs[i].priority >= xs[j].priority
  }

  /** The pairs of one priority, in order. */
  function Level(xs: seq<Pair>, v: nat): (r: seq<Pair>) {
    if xs == [] then []
    else
      var init, x := xs[..|xs| - 1], xs[|xs| - 1];
      if x.priority == v then Level(init, v) + [x] else Level(init, v)
  }

  lemma {:induction false} LevelMembers(xs: seq<Pair>, v: nat)
    ensures forall x :: x in Level(xs, v) <==> x in xs && x.priority == v
  {
    if xs != [] {
      var init, x := xs[..|xs| - 1], xs[|xs| - 1];
      LevelMembers(init, v);
      assert xs == init + [x];
    }
  }

  /** What sort.Stable promises. */
  ghost predicate StableSortOf(ys: seq<Pair>, xs: seq<Pair>) {
    SortedDown(ys) && forall v: nat :: Level(ys, v) == Level(xs, v)
  }

  lemma {:induction false} LevelConcat(a: seq<Pair>, b: seq<Pair>, v: nat)
    ensures Level(a + b, v) == Level(a, v) + Level(b, v)
  {
    if b == [] {
      assert a + b == a;
    } else {
      var init, x := b[..|b| - 1], b[|b| - 1];
      assert (a + b)[..|a + b| - 1] == a + init;
      LevelConcat(a, init, v);
    }
  }

  lemma LevelOfOne(x: Pair)
    ensures Level([x], x.priority) == [x]
    ensures forall v: nat :: v != x.priority ==> Level([x], v) == []
  {
    assert [x][..0] == [];
  }

  lemma LevelSplit(y: seq<Pair>, v: nat)
    requires y != []
    ensures Level(y, v) == (if y[0].priority == v then [y[0]] else []) + Level(y[1..], v)
  {
    assert y == [y[0]] + y[1..];
    LevelConcat([y[0]], y[1..], v);
    LevelOfOne(y[0]);
  }

  lemma SameHead(y1: seq<Pair>, y2: seq<Pair>)
    requires SortedDown(y1) && SortedDown(y2) && y1 != []
    requires forall v: nat :: Level(y1, v) == Level(y2, v)
    ensures y2 != [] && y1[0] == y2[0]
  {
    var v := y1[0].priority;
    LevelMembers(y1, v);
    LevelMembers(y2, v);
    assert y1[0] in Level(y2, v);
    var w := y2[0].priority;
    LevelMembers(y1, w);
    LevelMembers(y2, w);
    assert y2[0] in Level(y1, w);
    LevelSplit(y1, v);
    LevelSplit(y2, v);
    assert Level(y1, v)[0] == y1[0] && Level(y2, v)[0] == y2[0];
  }

  /** A stable sort is determined by what sort.Stable promises. */
  lemma {:induction false} StableSortUnique(y1: seq<Pair>, y2: seq<Pair>)
    requires SortedDown(y1) && SortedDown(y2)
    requires forall v: nat :: Level(y1, v) == Level(y2, v)
    ensures y1 == y2
  {
    if y1 == [] {
      if y2 != [] {
        SameHead(y2, y1);
      }
    } else {
      SameHead(y1, y2);
      forall v: nat
        ensures Level(y1[1..], v) == Level(y2[1..], v)
      {
        LevelSplit(y1, v);
        LevelSplit(y2, v);
        var k := if y1[0].priority == v then 1 else 0;
        assert Level(y1[1..], v) == Level(y1, v)[k..];
        assert Level(y2[1..], v) == Level(y2, v)[k..];
      }
      StableSortUnique(y1[1..], y2[1..]);
      assert y1 == [y1[0]] + y1[1..];
    }
  }

  /** Putting a pair in front of pairs of smaller priority only appends it to its level. */
  lemma InsertLevel(lo: seq<Pair>, x: Pair, hi: seq<Pair>, v: nat)
    requires forall y :: y in hi ==> y.priority < x.priority
    ensures Level(lo + [x] + hi, v) == Level(lo + hi, v) + Level([x], v)
  {
    hide Level;
    LevelConcat(lo + [x], hi, v);
    LevelConcat(lo, [x], v);
    LevelConcat(lo, hi, v);
    LevelOfOne(x);
    if v == x.priority {
      EmptyLevel(hi, v);
    }
  }

  lemma {:induction false} EmptyLevel(xs: seq<Pair>, v: nat)
    requires forall y :: y in xs ==> y.priority != v
    ensures Level(xs, v) == []
  {
    if xs != [] {
      EmptyLevel(xs[..|xs| - 1], v);
    }
  }

  /** Equal levels mean the same pairs with the same multiplicities. */
  lemma {:induction false} LevelsGiveMultiset(xs: seq<Pair>, x: Pair)
    ensures multiset(xs)[x] == multiset(Level(xs, x.priority))[x]
  {
    if xs != [] {
      var init, y := xs[..|xs| - 1], xs[|xs| - 1];
      assert xs == init + [y];
      LevelsGiveMultiset(init, x);
    }
  }

  lemma StableSortPermutes(ys: seq<Pair>, xs: seq<Pair>)
    requires StableSortOf(ys, xs)
    ensures multiset(ys) == multiset(xs)
  {
    forall x: Pair
      ensures multiset(ys)[x] == multiset(xs)[x]
    {
      LevelsGiveMultiset(xs, x);
      LevelsGiveMultiset(ys, x);
    }
  }

  /** Moves `x` in front of the sorted pairs of smaller priority, as insertion sort does. */
  method InsertStable(ys: seq<Pair>, x: Pair) returns (r: seq<Pair>)
    requires SortedDown(ys)
    ensures SortedDown(r)
    ensures forall v: nat :: Level(r, v) == Level(ys, v) + Level([x], v)
  {
    hide Level, SortedDown;
    var k := |ys|;
    while k > 0 && ys[k - 1].priority < x.priority
      invariant 0 <= k <= |ys|
      invariant forall m :: k <= m < |ys| ==> ys[m].priority < x.priority
    {
      k := k - 1;
    }
    r := ys[..k] + [x] + ys[k..];
    InsertedSorted(ys, x, k);
    assert ys[..k] + ys[k..] == ys;
    forall v: nat
      ensures Level(r, v) == Level(ys, v) + Level([x], v)
    {
      InsertLevel(ys[..k], x, ys[k..], v);
    }
  }

  lemma InsertedSorted(ys: seq<Pair>, x: Pair, k: nat)
    requires SortedDown(ys) && k <= |ys| && (k > 0 ==> ys[k - 1].priority >= x.priority)
    requires forall m :: k <= m < |ys| ==> ys[m].priority < x.priority
    ensures SortedDown(ys[..k] + [x] + ys[k..])
  {
    var r := ys[..k] + [x] + ys[k..];
    forall i, j | 0 <= i < j < |r|
      ensures r[i].priority >= r[j].priority
    {
      assert r[i] == if i < k then ys[i] else if i == k then x else ys[i - 1];
      assert r[j] == if j < k then ys[j] else if j == k then x else ys[j - 1];
    }
  }

  /** sort.Stable on a check list, as an insertion sort; by StableSortUnique the choice of
      algorithm does not matter. */
  method SortStable(xs: seq<Pair>) returns (ys: seq<Pair>)
    ensures StableSortOf(ys, xs)
    ensures multiset(ys) == multiset(xs)
  {
    ys := [];
    for i := 0 to |xs|
      invariant StableSortOf(ys, xs[..i])
    {
      ys := InsertStable(ys, xs[i]);
      forall v: nat
        ensures Level(ys, v) == Level(xs[..i + 1], v)
      {
        LevelConcat(xs[..i], [xs[i]], v);
        assert xs[..i] + [xs[i]] == xs[..i + 1];
      }
    }
    assert xs[..|xs|] == xs;
    StableSortPermutes(ys, xs);
  }

  /** The key of the pruning map: foundation and remote address, printed without a separator. */
  function PruneKey(p: Pair): string {
    Itoa(p.local.foundation) + p.remote.addr
  }

  /** The first pair of every prune key, in order. */
  function Prune(xs: seq<Pair>): (ys: seq<Pair>)
    ensures forall y :: y in ys ==> y in xs
  {
    if xs == [] then []
    else
      var init, x := xs[..|xs| - 1], xs[|xs| - 1];
      if exists y :: y in init && PruneKey(y) == PruneKey(x) then Prune(init) else Prune(init) + [x]
  }

  method PruneCheckList(xs: seq<Pair>) returns (ys: seq<Pair>)
    ensures ys == Prune(xs)
  {
    hide PruneKey, Prune, SeenIn;
    var m: map<string, bool> := map[];
    ys := [];
    NothingSeen();
    for i := 0 to |xs|
      invariant ys == Prune(xs[..i])
      invariant forall k :: k in m <==> SeenIn(xs[..i], k)
    {
      var c := xs[i];
      var key := PruneKey(c);
      PruneStep(xs[..i], c);
      SeenStep(xs[..i], c);
      assert xs[..i + 1] == xs[..i] + [c];
      if key in m {
        continue;
      }
      m := m[key := true];
      ys := ys + [c];
    }
    assert xs[..|xs|] == xs;
  }

  /** Some pair has the prune key. */
  predicate SeenIn(xs: seq<Pair>, key: string) {
    exists y :: y in xs && PruneKey(y) == key
  }

  lemma NothingSeen()
    ensures Prune([]) == [] && forall k :: !SeenIn([], k)
  {
  }

  lemma PruneStep(xs: seq<Pair>, c: Pair)
    ensures Prune(xs + [c]) == if SeenIn(xs, PruneKey(c)) then Prune(xs) else Prune(xs) + [c]
  {
    hide PruneKey;
    assert (xs + [c])[..|xs|] == xs;
  }

  lemma SeenStep(xs: seq<Pair>, c: Pair)
    ensures forall k :: SeenIn(xs + [c], k) <==> SeenIn(xs, k) || k == PruneKey(c)
  {
    hide PruneKey;
    forall k
      ensures SeenIn(xs + [c], k) <==> SeenIn(xs, k) || k == PruneKey(c)
    {
      if SeenIn(xs, k) {
        var y :| y in xs && PruneKey(y) == k;
        assert y in xs + [c];
      }
      assert c in xs + [c];
    }
  }

  /** `a` is obtained from `b` by leaving pairs out. */
  predicate IsSubsequence(a: seq<Pair>, b: seq<Pair>) {
    if b == [] then a == []
    else
      IsSubsequence(a, b[..|b| - 1])
      || (a != [] && a[|a| - 1] == b[|b| - 1] && IsSubsequence(a[..|a| - 1], b[..|b| - 1]))
  }

  lemma {:induction false} PruneIsSubsequence(xs: seq<Pair>)
    ensures IsSubsequence(Prune(xs), xs)
  {
    if xs != [] {
      var init, x := xs[..|xs| - 1], xs[|xs| - 1];
      PruneIsSubsequence(init);
      if Prune(xs) != Prune(init) {
        assert Prune(xs)[..|Prune(xs)| - 1] == Prune(init);
      }
    }
  }

  lemma {:induction false} PruneKeepsOrder(xs: seq<Pair>)
    requires SortedDown(xs)
    ensures SortedDown(Prune(xs))
  {
    if xs != [] {
      var init := xs[..|xs| - 1];
      PruneKeepsOrder(init);
      forall y | y in Prune(init)
        ensures y.priority >= xs[|xs| - 1].priority
      {
        assert y in init;
      }
    }
  }

  lemma {:induction false} PruneKeysDistinct(xs: seq<Pair>)
    ensures forall i, j :: 0 <= i < j < |Prune(xs)| ==> PruneKey(Prune(xs)[i]) != PruneKey(Prune(xs)[j])
  {
    if xs != [] {
      PruneKeysDistinct(xs[..|xs| - 1]);
      var init := xs[..|xs| - 1];
      assert forall y :: y in Prune(init) ==> y in init;
    }
  }

  /** Every pair has a pair with its prune key at or before its place that was kept. */
  lemma {:induction false} PruneKeepsRepresentative(xs: seq<Pair>, i: nat) returns (j: nat)
    requires i < |xs|
    ensures j <= i && xs[j] in Prune(xs) && PruneKey(xs[j]) == PruneKey(xs[i])
    ensures xs[i] in Prune(xs) || j < i
    decreases |xs|
  {
    hide PruneKey;
    var init, x := xs[..|xs| - 1], xs[|xs| - 1];
    if i < |init| {
      j := PruneKeepsRepresentative(init, i);
    } else if exists y :: y in init && PruneKey(y) == PruneKey(x) {
      var y :| y in init && PruneKey(y) == PruneKey(x);
      var k :| 0 <= k < |init| && init[k] == y;
      j := PruneKeepsRepresentative(init, k);
    } else {
      j := i;
    }
  }

  /** What `createCheckList` yields, for any list `sorted` that sort.Stable may return. */
  lemma CheckListFormed(role: Role, locals: seq<Candidate>, remotes: seq<Candidate>, sorted: seq<Pair>)
    requires StableSortOf(sorted, Product(role, locals, remotes))
    ensures SortedDown(Prune(sorted)) && IsSubsequence(Prune(sorted), sorted)
    ensures forall i, j :: 0 <= i < j < |Prune(sorted)| ==>
                             PruneKey(Prune(sorted)[i]) != PruneKey(Prune(sorted)[j])
    ensures forall i :: 0 <= i < |sorted| && sorted[i] !in Prune(sorted) ==>
                          exists j :: 0 <= j < i && sorted[j] in Prune(sorted)
                                      && PruneKey(sorted[j]) == PruneKey(sorted[i])
                                      && sorted[j].priority >= sorted[i].priority
    ensures Prune(sorted) == [] <==> Product(role, locals, remotes) == []
  {
    PruneKeepsOrder(sorted);
    PruneIsSubsequence(sorted);
    PruneKeysDistinct(sorted);
    forall i | 0 <= i < |sorted| && sorted[i] !in Prune(sorted)
      ensures exists j :: 0 <= j < i && sorted[j] in Prune(sorted)
                          && PruneKey(sorted[j]) == PruneKey(sorted[i])
                          && sorted[j].priority >= sorted[i].priority
    {
      var j := PruneKeepsRepresentative(sorted, i);
    }
    StableSortPermutes(sorted, Product(role, locals, remotes));
    if sorted != [] {
      var j := PruneKeepsRepresentative(sorted, 0);
    }
    assert |multiset(sorted)| == |sorted|;
    assert |multiset(Product(role, locals, remotes))| == |Product(role, locals, remotes)|;
  }

  /** No key occurs twice, as a property that does not depend on the order of the list. */
  predicate KeysUnique(xs: seq<Pair>) {
    (forall x, y :: x in xs && y in xs && x.key == y.key ==> x == y)
    && forall x :: x in xs ==> multiset(xs)[x] == 1
  }

  lemma KeysUniqueByIndex(xs: seq<Pair>)
    ensures KeysUnique(xs) <==> forall i, j :: 0 <= i < j < |xs| ==> xs[i].key != xs[j].key
  {
    if forall i, j :: 0 <= i < j < |xs| ==> xs[i].key != xs[j].key {
      forall i | 0 <= i < |xs|
        ensures multiset(xs)[xs[i]] == 1
      {
        OccursOnce(xs, i);
      }
    } else {
      var i, j :| 0 <= i < j < |xs| && xs[i].key == xs[j].key;
      if xs[i] == xs[j] {
        OccursTwice(xs, i, j);
      }
    }
  }

  lemma OccursOnce<T>(xs: seq<T>, i: nat)
    requires i < |xs| && forall j :: 0 <= j < |xs| && j != i ==> xs[j] != xs[i]
    ensures multiset(xs)[xs[i]] == 1
  {
    assert xs == xs[..i] + [xs[i]] + xs[i + 1..];
    assert xs[i] !in xs[..i] && xs[i] !in xs[i + 1..];
  }

  lemma OccursTwice<T>(xs: seq<T>, i: nat, j: nat)
    requires i < j < |xs| && xs[i] == xs[j]
    ensures multiset(xs)[xs[i]] >= 2
  {
    assert xs == xs[..j] + xs[j..];
    assert xs[i] in xs[..j] && xs[j] in xs[j..];
    assert multiset(xs)[xs[i]] == multiset(xs[..j])[xs[i]] + multiset(xs[j..])[xs[i]];
  }

  lemma {:induction false} PruneBelow(xs: seq<Pair>)
    ensures multiset(Prune(xs)) <= multiset(xs)
  {
    if xs != [] {
      assert xs == xs[..|xs| - 1] + [xs[|xs| - 1]];
      PruneBelow(xs[..|xs| - 1]);
    }
  }

  lemma {:induction false} ProductMembers(role: Role, locals: seq<Candidate>, remotes: seq<Candidate>)
    requires DistinctAddrs(locals) && DistinctAddrs(remotes)
    requires forall l :: l in locals ==> '-' !in l.addr
    ensures forall i, j :: 0 <= i < j < |Product(role, locals, remotes)| ==>
                             Product(role, locals, remotes)[i].key != Product(role, locals, remotes)[j].key
    ensures forall p :: p in Product(role, locals, remotes) ==>
                          p.local in locals && p.remote in remotes && p.key == Key(p.local, p.remote)
  {
    if locals != [] {
      var init, l := locals[..|locals| - 1], locals[|locals| - 1];
      assert locals == init + [l];
      ProductMembers(role, init, remotes);
      var a: seq<Pair>, b: seq<Pair> := Product(role, init, remotes), Row(role, l, remotes);
      forall i, j | 0 <= i < j < |a + b|
        ensures (a + b)[i].key != (a + b)[j].key
      {
        var p: Pair, q: Pair := (a + b)[i], (a + b)[j];
        if p.key == q.key && j >= |a| {
          assert i < |a| ==> p in a;
          KeyInjective(p.local, p.remote, q.local, q.remote);
        }
      }
    }
  }

  /** With distinct local and distinct remote addresses no pair is on the check list twice, and
      every pair is made of a local and a remote candidate. */
  lemma CheckListPairsDistinct(role: Role, locals: seq<Candidate>, remotes: seq<Candidate>, sorted: seq<Pair>)
    requires StableSortOf(sorted, Product(role, locals, remotes))
    requires DistinctAddrs(locals) && DistinctAddrs(remotes)
    requires forall l :: l in locals ==> '-' !in l.addr
    ensures forall i, j :: 0 <= i < j < |Prune(sorted)| ==> Prune(sorted)[i].key != Prune(sorted)[j].key
    ensures forall p :: p in Prune(sorted) ==>
                          p.local in locals && p.remote in remotes && p.key == Key(p.local, p.remote)
  {
    var full, kept := Product(role, locals, remotes), Prune(sorted);
    ProductMembers(role, locals, remotes);
    KeysUniqueByIndex(full);
    StableSortPermutes(sorted, full);
    PruneBelow(sorted);
    forall x | x in kept
      ensures x in full && multiset(kept)[x] == 1
    {
      assert x in multiset(kept) && x in multiset(full);
      assert multiset(kept)[x] <= multiset(sorted)[x] == 1;
    }
    KeysUniqueByIndex(kept);
  }
}
