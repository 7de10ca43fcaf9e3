/** Exclusive or of byte slices, by machine words and byte by byte (stun/xor.go). */
module XorBytes {
  import opened Bytes

  const WORD_SIZE := 8

  /** The little-endian word made of the given bytes. */
  function WordOf(bs: seq<byte>): nat {
    if bs == [] then 0 else bs[0] + 0x100 * WordOf(bs[1..])
  }

  /** The low n bytes of a word, lowest first. */
  function BytesOf(w: nat, n: nat): (bs: seq<byte>)
    ensures |bs| == n
  {
    if n == 0 then [] else [w % 0x100] + BytesOf(w / 0x100, n - 1)
  }

  lemma {:induction false} WordBound(bs: seq<byte>)
    ensures WordOf(bs) < Pow2(8 * |bs|)
  {
    if bs != [] {
      WordBound(bs[1..]);
      EightMore(|bs| - 1);
    }
  }

  lemma EightMore(n: nat)
    ensures Pow2(8 * (n + 1)) == 0x100 * Pow2(8 * n)
  {
    var m := 8 * n;
    assert Pow2(m + 2) == 4 * Pow2(m);
    assert Pow2(m + 4) == 4 * Pow2(m + 2);
    assert Pow2(m + 6) == 4 * Pow2(m + 4);
    assert Pow2(m + 8) == 4 * Pow2(m + 6);
  }

  lemma WordStep(low: nat, rest: nat, n: nat)
    requires low < 0x100 && n > 0
    ensures BytesOf(low + 0x100 * rest, n) == [low] + BytesOf(rest, n - 1)
  {
    var w := low + 0x100 * rest;
    assert w % 0x100 == low && w / 0x100 == rest;
    BytesStep(w, n);
  }

  lemma BytesStep(w: nat, n: nat)
    requires n > 0
    ensures BytesOf(w, n) == [w % 0x100] + BytesOf(w / 0x100, n - 1)
  {
  }

  /** A word-wide exclusive or is the byte-wise one. */
  lemma {:induction false} WordXorIsByteXor(a: seq<byte>, b: seq<byte>)
    requires |a| == |b|
    ensures BytesOf(Xor(WordOf(a), WordOf(b), 8 * |a|), |a|) == XorSeq(a, b)
  {
    hide Xor, XorSeq;
    if a != [] {
      var n := |a| - 1;
      var r, s := WordOf(a[1..]), WordOf(b[1..]);
      Pow2Of8();
      XorSplits(a[0], r, b[0], s, 8, 8 * n);
      assert 8 + 8 * n == 8 * |a|;
      WordStep(Xor(a[0], b[0], 8), Xor(r, s, 8 * n), |a|);
      WordXorIsByteXor(a[1..], b[1..]);
      assert XorSeq(a, b) == [XorByte(a[0], b[0])] + XorSeq(a[1..], b[1..]);
    }
  }

  /** The word at word index i of a slice. */
  method LoadWord(a: array<byte>, i: nat) returns (w: nat)
    requires WORD_SIZE * i + WORD_SIZE <= a.Length
    ensures w == WordOf(a[WORD_SIZE * i..WORD_SIZE * i + WORD_SIZE])
  {
    w := 0;
    ghost var s := a[WORD_SIZE * i..WORD_SIZE * i + WORD_SIZE];
    var k := WORD_SIZE;
    while k > 0
      invariant 0 <= k <= WORD_SIZE && w == WordOf(s[k..])
    {
      k := k - 1;
      assert s[k..][1..] == s[k + 1..];
      w := a[WORD_SIZE * i + k] + 0x100 * w;
    }
    assert s[0..] == s;
  }

  lemma NextByte(bs: seq<byte>, k: nat, v: nat)
    requires k < |bs| && bs[k..] == BytesOf(v, |bs| - k)
    ensures bs[k] == v % 0x100 && bs[k + 1..] == BytesOf(v / 0x100, |bs| - k - 1)
  {
    BytesStep(v, |bs| - k);
    assert bs[k] == bs[k..][0] && bs[k + 1..] == bs[k..][1..];
  }

  method StoreWord(dst: array<byte>, i: nat, w: nat)
    requires WORD_SIZE * i + WORD_SIZE <= dst.Length
    modifies dst
    ensures dst[..] == old(dst[..WORD_SIZE * i]) + BytesOf(w, WORD_SIZE) + old(dst[WORD_SIZE * i + WORD_SIZE..])
  {
    hide BytesOf;
    var base, v := WORD_SIZE * i, w;
    ghost var bs, ds := BytesOf(w, WORD_SIZE), dst[..];
    for k := 0 to WORD_SIZE
      invariant bs[k..] == BytesOf(v, WORD_SIZE - k)
      invariant forall j :: 0 <= j < dst.Length ==> dst[j] == if base <= j < base + k then bs[j - base] else ds[j]
    {
      NextByte(bs, k, v);
      dst[base + k] := v % 0x100;
      v := v / 0x100;
    }
    assert dst[..] == ds[..base] + bs + ds[base + WORD_SIZE..];
  }

  /** One round of the word loop: the word of the destination becomes that of the result. */
  method XorWord(dst: array<byte>, a: array<byte>, b: array<byte>, i: nat, ghost as0: seq<byte>, ghost bs0: seq<byte>)
    requires WORD_SIZE * i + WORD_SIZE <= dst.Length
    requires |as0| == a.Length && |bs0| == b.Length
    requires WORD_SIZE * i + WORD_SIZE <= a.Length && WORD_SIZE * i + WORD_SIZE <= b.Length
    requires a[WORD_SIZE * i..] == as0[WORD_SIZE * i..] && b[WORD_SIZE * i..] == bs0[WORD_SIZE * i..]
    modifies dst
    ensures dst[..] == old(dst[..WORD_SIZE * i]) + XorSeq(as0, bs0)[WORD_SIZE * i..WORD_SIZE * i + WORD_SIZE]
                       + old(dst[WORD_SIZE * i + WORD_SIZE..])
  {
    hide XorSeq, Xor, BytesOf, WordOf;
    ghost var lo, hi := WORD_SIZE * i, WORD_SIZE * i + WORD_SIZE;
    assert a[lo..hi] == as0[lo..hi] by { assert a[lo..hi] == a[lo..][..WORD_SIZE]; }
    assert b[lo..hi] == bs0[lo..hi] by { assert b[lo..hi] == b[lo..][..WORD_SIZE]; }
    var x := LoadWord(a, i);
    var y := LoadWord(b, i);
    WordXorIsByteXor(as0[lo..hi], bs0[lo..hi]);
    assert XorSeq(as0[lo..hi], bs0[lo..hi]) == XorSeq(as0, bs0)[lo..hi];
    StoreWord(dst, i, Xor(x, y, 8 * WORD_SIZE));
  }

  lemma Behind(r: seq<byte>, s: seq<byte>, at: nat)
    requires at <= |r| && at <= |s|
    ensures (r[..at] + s[at..])[at..] == s[at..]
  {
  }

  /** One more piece of r in place of the same piece of s. */
  lemma FurtherBy(r: seq<byte>, s: seq<byte>, before: seq<byte>, lo: nat, hi: nat)
    requires lo <= hi <= |r| && hi <= |s| && before == r[..lo] + s[lo..]
    ensures before[..lo] + r[lo..hi] + before[hi..] == r[..hi] + s[hi..]
  {
    assert before[..lo] == r[..lo] && before[hi..] == s[hi..];
  }

  /** The word loop: the first w words. */
  method XorWords(dst: array<byte>, a: array<byte>, b: array<byte>, w: nat)
    requires WORD_SIZE * w <= a.Length && WORD_SIZE * w <= b.Length && WORD_SIZE * w <= dst.Length
    modifies dst
    ensures dst[..] == old(XorSeq(a[..], b[..]))[..WORD_SIZE * w] + old(dst[WORD_SIZE * w..])
  {
    hide XorSeq, Xor;
    ghost var as0, bs0, ds0 := a[..], b[..], dst[..];
    ghost var r := XorSeq(as0, bs0);
    for i := 0 to w
      invariant dst[..] == r[..WORD_SIZE * i] + ds0[WORD_SIZE * i..]
      invariant a != dst ==> a[..] == as0
      invariant b != dst ==> b[..] == bs0
    {
      ghost var before := dst[..];
      Behind(r, ds0, WORD_SIZE * i);
      XorWord(dst, a, b, i, as0, bs0);
      FurtherBy(r, ds0, before, WORD_SIZE * i, WORD_SIZE * i + WORD_SIZE);
    }
  }

  /** The byte loop from one index to another. */
  method XorRange(dst: array<byte>, a: array<byte>, b: array<byte>, from: nat, n: nat)
    requires from <= n && n <= a.Length && n <= b.Length && n <= dst.Length
    modifies dst
    ensures dst[..] == old(dst[..from]) + old(XorSeq(a[..], b[..]))[from..n] + old(dst[n..])
  {
    hide Xor, XorSeq;
    ghost var as0, bs0, ds0 := a[..], b[..], dst[..];
    ghost var r := XorSeq(as0, bs0);
    for i := from to n
      invariant forall j :: 0 <= j < dst.Length ==> dst[j] == if from <= j < i then r[j] else ds0[j]
      invariant a != dst ==> a[..] == as0
      invariant b != dst ==> b[..] == bs0
    {
      assert a[i] == as0[i] && b[i] == bs0[i];
      dst[i] := XorByte(a[i], b[i]);
    }
    assert dst[..] == ds0[..from] + r[from..n] + ds0[n..];
  }

  /** The bulk version. The destination may be one of the operands. */
  method FastXorBytes(dst: array<byte>, a: array<byte>, b: array<byte>) returns (n: nat)
    requires a.Length <= dst.Length || b.Length <= dst.Length
    modifies dst
    ensures n == |XorSeq(old(a[..]), old(b[..]))|
    ensures dst[..] == XorSeq(old(a[..]), old(b[..])) + old(dst[n..])
  {
    hide Xor, XorSeq;
    n := a.Length;
    if b.Length < n {
      n := b.Length;
    }
    var k := n - n % WORD_SIZE;
    ghost var as0, bs0, ds0 := a[..], b[..], dst[..];
    ghost var r := XorSeq(as0, bs0);
    XorWords(dst, a, b, n / WORD_SIZE);
    ghost var ds1 := dst[..];
    TailUnchanged(as0, bs0, a[..], b[..], k, n);
    XorRange(dst, a, b, k, n);
    HeadAndTail(r, ds0, ds1, k, n);
  }

  lemma HeadAndTail(r: seq<byte>, ds0: seq<byte>, ds1: seq<byte>, k: nat, n: nat)
    requires k <= n == |r| <= |ds0| && ds1 == r[..k] + ds0[k..]
    ensures ds1[..k] + r[k..n] + ds1[n..] == r + ds0[n..]
  {
    assert ds1[..k] == r[..k] && ds1[n..] == ds0[n..];
    assert r[..k] + r[k..n] == r;
  }

  /** The bytes still to be combined are those the operands had at first. */
  lemma TailUnchanged(a0: seq<byte>, b0: seq<byte>, a: seq<byte>, b: seq<byte>, k: nat, n: nat)
    requires k <= n <= |a0| == |a| && n <= |b0| == |b|
    requires a[k..] == a0[k..] && b[k..] == b0[k..]
    ensures XorSeq(a, b)[k..n] == XorSeq(a0, b0)[k..n]
  {
    hide Xor;
    forall i | k <= i < n
      ensures XorSeq(a, b)[i] == XorSeq(a0, b0)[i]
    {
      assert a[i] == a[k..][i - k] && b[i] == b[k..][i - k];
    }
  }

  /** The byte-by-byte version: the same contract, so the two cannot be told apart. */
  method SafeXorBytes(dst: array<byte>, a: array<byte>, b: array<byte>) returns (n: nat)
    requires a.Length <= dst.Length || b.Length <= dst.Length
    modifies dst
    ensures n == |XorSeq(old(a[..]), old(b[..]))|
    ensures dst[..] == XorSeq(old(a[..]), old(b[..])) + old(dst[n..])
  {
    hide Xor;
    n := a.Length;
    if b.Length < n {
      n := b.Length;
    }
    XorRange(dst, a, b, 0, n);
  }
}
