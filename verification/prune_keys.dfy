/** When the keys by which the check list is pruned coincide, and what the list loses by it
    (pruneCheckList in ice/icesession.go). */
module PruneKeys {
  import opened PairPriority
  import opened IceTypes
  import opened Decimal
  import opened CheckList

  /** What the key is meant to say: the foundation of the local and the address of the remote
      candidate. */
  predicate SameKind(p: Pair, q: Pair) {
    p.local.foundation == q.local.foundation && p.remote.addr == q.remote.addr
  }

  /** The foundation of p begins that of q, and the rest of it runs into the address. */
  predicate Spills(p: Pair, q: Pair) {
    var f, g := Itoa(p.local.foundation), Itoa(q.local.foundation);
    |f| < |g| && f <= g && p.remote.addr == g[|f|..] + q.remote.addr
  }

  lemma ItoaInjective(m: int, n: int)
    requires Itoa(m) == Itoa(n)
    ensures m == n
  {
    hide Digits;
    SignOfItoa(m);
    SignOfItoa(n);
    if m < 0 && n < 0 {
      assert Digits(-m) == Itoa(m)[1..] && Digits(-n) == Itoa(n)[1..];
      DigitsInjective(-m, -n);
    } else if m >= 0 && n >= 0 {
      DigitsInjective(m, n);
    }
  }

  lemma SignOfItoa(i: int)
    ensures Itoa(i)[0] == '-' <==> i < 0
  {
    hide Digits;
    assert i >= 0 ==> IsDigit(Digits(i)[0]);
  }

  /** Two texts run together are equal to two others exactly if the parts are, or one first part
      begins the other and the rest of that begins the second part. */
  lemma ConcatsEqual(f: string, a: string, g: string, b: string)
    ensures f + a == g + b
            <==> (f == g && a == b)
                 || (|f| < |g| && f <= g && a == g[|f|..] + b)
                 || (|g| < |f| && g <= f && b == f[|g|..] + a)
  {
    if f + a == g + b {
      var k := f + a;
      assert f == k[..|f|] && a == k[|f|..] && g == k[..|g|] && b == k[|g|..];
      if |f| < |g| {
        assert f == g[..|f|];
        assert a == g[|f|..] + b;
      } else if |g| < |f| {
        assert g == f[..|g|];
        assert b == f[|g|..] + a;
      }
    }
  }

  /** The exact condition, for all pairs: keys coincide for pairs of one kind, and where one
      foundation runs into an address. */
  lemma PruneKeysCoincideIff(p: Pair, q: Pair)
    ensures PruneKey(p) == PruneKey(q) <==> SameKind(p, q) || Spills(p, q) || Spills(q, p)
  {
    hide Itoa;
    ConcatsEqual(Itoa(p.local.foundation), p.remote.addr, Itoa(q.local.foundation), q.remote.addr);
    if Itoa(p.local.foundation) == Itoa(q.local.foundation) {
      ItoaInjective(p.local.foundation, q.local.foundation);
    }
  }

  /** An address that is another one with digits in front. */
  predicate DigitsInFront(a: string, b: string) {
    |a| > |b| && a[|a| - |b|..] == b && AllDigits(a[..|a| - |b|])
  }

  lemma SpilledAddresses(p: Pair, q: Pair)
    requires Spills(p, q)
    ensures DigitsInFront(p.remote.addr, q.remote.addr)
  {
    hide Digits;
    var f, g := Itoa(p.local.foundation), Itoa(q.local.foundation);
    var d, a := g[|f|..], p.remote.addr;
    assert a[..|a| - |q.remote.addr|] == d && a[|a| - |q.remote.addr|..] == q.remote.addr;
    assert f[0] == g[0];
    assert forall i :: 1 <= i < |g| ==> IsDigit(g[i]);
  }

  // ----- the list -----

  /** The first pair of every kind, in order: what pruning is for. */
  function PruneByKind(xs: seq<Pair>): (ys: seq<Pair>)
    ensures forall y :: y in ys ==> y in xs
  {
    if xs == [] then []
    else
      var init, x := xs[..|xs| - 1], xs[|xs| - 1];
      if exists y :: y in init && SameKind(y, x) then PruneByKind(init) else PruneByKind(init) + [x]
  }

  predicate NoSpill(xs: seq<Pair>) {
    forall p, q :: p in xs && q in xs ==> !Spills(p, q)
  }

  lemma {:induction false} KindKept(xs: seq<Pair>, p: Pair) returns (k: Pair)
    requires p in xs
    ensures k in PruneByKind(xs) && SameKind(k, p)
    decreases |xs|
  {
    var init, x := xs[..|xs| - 1], xs[|xs| - 1];
    if p in init {
      k := KindKept(init, p);
    } else if exists y :: y in init && SameKind(y, x) {
      var y :| y in init && SameKind(y, x);
      k := KindKept(init, y);
    } else {
      k := x;
    }
  }

  lemma {:induction false} KindsKeptWithoutSpill(xs: seq<Pair>)
    requires NoSpill(xs)
    ensures Prune(xs) == PruneByKind(xs)
  {
    hide PruneKey, SameKind, Spills;
    if xs != [] {
      var init, x := xs[..|xs| - 1], xs[|xs| - 1];
      assert forall y :: y in init ==> y in xs;
      KindsKeptWithoutSpill(init);
      forall y | y in init
        ensures PruneKey(y) == PruneKey(x) <==> SameKind(y, x)
      {
        PruneKeysCoincideIff(y, x);
      }
    }
  }

  /** Pruning keeps the first pair of every kind if and only if no foundation of the list runs into
      an address of it. */
  lemma PruneKeepsKindsIff(xs: seq<Pair>)
    ensures Prune(xs) == PruneByKind(xs) <==> NoSpill(xs)
  {
    hide PruneKey, SameKind, Spills, Prune, PruneByKind;
    if NoSpill(xs) {
      KindsKeptWithoutSpill(xs);
    } else {
      var p, q :| p in xs && q in xs && Spills(p, q);
      var kp := KindKept(xs, p);
      var kq := KindKept(xs, q);
      PruneKeysCoincideIff(p, q);
      PruneKeysCoincideIff(kp, p);
      PruneKeysCoincideIff(kq, q);
      KindsDiffer(p, q, kp, kq);
      PruneKeysDistinct(xs);
      if Prune(xs) == PruneByKind(xs) {
        var i :| 0 <= i < |Prune(xs)| && Prune(xs)[i] == kp;
        var j :| 0 <= j < |Prune(xs)| && Prune(xs)[j] == kq;
      }
    }
  }

  lemma KindsDiffer(p: Pair, q: Pair, kp: Pair, kq: Pair)
    requires Spills(p, q) && SameKind(kp, p) && SameKind(kq, q)
    ensures kp != kq
  {
  }

  /** In particular nothing is lost if no remote address is another one with digits in front. */
  lemma PruneKeepsKindsOfPlainAddresses(xs: seq<Pair>)
    requires forall p, q :: p in xs && q in xs ==> !DigitsInFront(p.remote.addr, q.remote.addr)
    ensures Prune(xs) == PruneByKind(xs)
  {
    hide Spills;
    forall p, q | p in xs && q in xs
      ensures !Spills(p, q)
    {
      if Spills(p, q) {
        SpilledAddresses(p, q);
      }
    }
    PruneKeepsKindsIff(xs);
  }

  /** A check list that loses a pair no other pair stands for: foundations 1 and 11 at one end,
      addresses a and 1a at the other, all of one priority. */
  lemma PruneLosesPair(role: Role, l1: Candidate, l2: Candidate, r1: Candidate, r2: Candidate)
    requires l1.foundation == 1 && l2.foundation == 11 && r2.addr == "1" + r1.addr
    requires l1.priority == l2.priority && r1.priority == r2.priority
    ensures var full := Product(role, [l1, l2], [r1, r2]);
            StableSortOf(full, full) && MakePair(role, l2, r1) in full
            && forall p :: p in Prune(full) ==> !SameKind(p, MakePair(role, l2, r1))
  {
    hide Itoa, CalcPairPriority;
    var a, b, c, d := MakePair(role, l1, r1), MakePair(role, l1, r2), MakePair(role, l2, r1), MakePair(role, l2, r2);
    var full := Product(role, [l1, l2], [r1, r2]);
    ProductOfTwo(role, l1, l2, r1, r2);
    FoundationTexts();
    assert Spills(b, c);
    PruneKeysCoincideIff(b, c);
    PruneKeysCoincideIff(a, b);
    assert PruneKey(b) == PruneKey(c);
    PruneOfFour(a, b, c, d);
    assert r1.addr != r2.addr;
  }

  lemma FoundationTexts()
    ensures Itoa(1) == "1" && Itoa(11) == "11"
  {
    assert Digits(1) == "1";
    assert Digits(11) == Digits(1) + [DigitChar(1)];
  }

  lemma ProductOfTwo(role: Role, l1: Candidate, l2: Candidate, r1: Candidate, r2: Candidate)
    ensures Product(role, [l1, l2], [r1, r2])
            == [MakePair(role, l1, r1), MakePair(role, l1, r2), MakePair(role, l2, r1), MakePair(role, l2, r2)]
  {
    hide MakePair;
    assert [l1, l2][..1] == [l1] && [l1][..0] == [];
    assert Product(role, [], [r1, r2]) == [];
    assert Product(role, [l1], [r1, r2]) == Row(role, l1, [r1, r2]);
  }

  lemma PruneOfFour(a: Pair, b: Pair, c: Pair, d: Pair)
    requires PruneKey(b) == PruneKey(c)
    ensures forall p :: p in Prune([a, b, c, d]) ==> p == a || p == b || p == d
  {
    hide PruneKey;
    assert [a, b, c, d][..3] == [a, b, c] && [a, b, c][..2] == [a, b];
    assert b in [a, b];
    assert Prune([a, b, c]) == Prune([a, b]);
    assert forall p :: p in Prune([a, b]) ==> p in [a, b];
  }
}
