/** Message integrity and fingerprint, both computed over the message with a rewritten length field
    (stun/integrity.go, stun/fingerprint.go; sections 15.4 and 15.5 of RFC 5389). */
module StunAuth {
  import opened Wrappers
  import opened Division
  import opened Bytes
  import opened StunWire
  import opened StunMessage

  const INTEGRITY_SIZE := 20
  const FINGERPRINT_SIZE := 4
  const FINGERPRINT_XOR: uint32 := 0x5354554e

  type uint32 = x: int | 0 <= x < UINT32_LIMIT
  type Digest = s: seq<byte> | |s| == INTEGRITY_SIZE witness seq(20, i => 0)

  /** Any keyed hash and any checksum. */
  datatype Crypto = Crypto(hmac: (seq<byte>, seq<byte>) -> Digest, crc32: seq<byte> -> uint32)

  datatype AuthError =
    | AttributeNotFound
    | FingerprintBeforeIntegrity
    | IntegrityMismatch
    | AttributeLength(got: nat)
    | CRCMismatch
    | OutOfBounds

  /** What determines a built message. */
  datatype View = View(mtype: MessageType, id: TransactionID, attrs: seq<RawAttribute>) {
    function Bytes(): (b: seq<byte>)
      ensures |b| == HEADER_SIZE + |Body(attrs)|
    {
      Encode(mtype, id, attrs)
    }

    function And(more: seq<RawAttribute>): View {
      this.(attrs := attrs + more)
    }
  }

  predicate Lacks(attrs: seq<RawAttribute>, t: uint16) {
    forall i :: 0 <= i < |attrs| ==> attrs[i].atype != t
  }

  /** The index of the first attribute of a type, or the number of attributes. */
  function FirstOf(attrs: seq<RawAttribute>, t: uint16): (i: nat)
    ensures i <= |attrs| && (i < |attrs| ==> attrs[i].atype == t)
    ensures forall k :: 0 <= k < i ==> attrs[k].atype != t
  {
    if attrs == [] || attrs[0].atype == t then 0
    else
      assert forall k :: 0 < k < |attrs| ==> attrs[k] == attrs[1..][k - 1];
      1 + FirstOf(attrs[1..], t)
  }

  function Get(attrs: seq<RawAttribute>, t: uint16): Option<seq<byte>> {
    var i := FirstOf(attrs, t);
    if i < |attrs| then Some(attrs[i].value) else None
  }

  /** Get finds the value of the first attribute of a type. */
  lemma GetIs(attrs: seq<RawAttribute>, t: uint16)
    ensures Get(attrs, t).None? <==> Lacks(attrs, t)
    ensures forall i :: 0 <= i < |attrs| && attrs[i].atype == t && Lacks(attrs[..i], t) ==>
                          Get(attrs, t) == Some(attrs[i].value)
  {
    forall i | 0 <= i < |attrs| && attrs[i].atype == t && Lacks(attrs[..i], t)
      ensures Get(attrs, t) == Some(attrs[i].value)
    {
      FirstIs(attrs, t, i);
    }
  }

  lemma FirstIs(attrs: seq<RawAttribute>, t: uint16, k: nat)
    requires k < |attrs| && attrs[k].atype == t && Lacks(attrs[..k], t)
    ensures FirstOf(attrs, t) == k
  {
    assert forall i :: 0 <= i < k ==> attrs[i] == attrs[..k][i];
  }

  lemma {:induction false} TiledSizeOfMore(a: seq<RawAttribute>, x: RawAttribute)
    ensures TiledSize(a + [x]) == TiledSize(a) + ATTRIBUTE_HEADER_SIZE + PaddedLength(x.length)
  {
    hide PaddedLength;
    if a == [] {
      assert a + [x] == [x];
      assert [x][1..] == [];
    } else {
      assert (a + [x])[1..] == a[1..] + [x];
      TiledSizeOfMore(a[1..], x);
    }
  }

  lemma {:induction false} TiledSizeOfBody(a: seq<RawAttribute>)
    requires Fits(a)
    ensures TiledSize(a) == |Body(a)|
  {
    hide PaddedLength;
    if a != [] {
      var front, x := a[..|a| - 1], a[|a| - 1];
      assert a == front + [x];
      TiledSizeOfBody(front);
      TiledSizeOfMore(front, x);
    }
  }

  lemma {:induction false} TiledSizeSplits(a: seq<RawAttribute>, i: nat)
    requires i <= |a|
    ensures TiledSize(a) == TiledSize(a[..i]) + TiledSize(a[i..])
    decreases |a| - i
  {
    hide PaddedLength, TiledSize;
    if i == |a| {
      assert a[..i] == a;
      EmptyTile();
    } else {
      TiledSizeSplits(a, i + 1);
      assert a[..i + 1] == a[..i] + [a[i]];
      TiledSizeOfMore(a[..i], a[i]);
      TiledSizeStep(a[i..]);
      assert a[i..][1..] == a[i + 1..];
    }
  }

  lemma EmptyTile()
    ensures TiledSize([]) == 0
  {
  }

  // ----- integrity -----

  /** What is hashed: the message up to the integrity attribute, its length field including it. */
  function IntegrityText(v: View): seq<byte> {
    Header(v.mtype, |Body(v.attrs)| + ATTRIBUTE_HEADER_SIZE + INTEGRITY_SIZE, v.id) + Body(v.attrs)
  }

  function WithIntegrity(c: Crypto, key: seq<byte>, v: View): View {
    v.And([MakeAttribute(ATTR_MESSAGE_INTEGRITY, c.hmac(key, IntegrityText(v)))])
  }

  method AddIntegrity(c: Crypto, key: seq<byte>, m: Message) returns (err: Option<AuthError>)
    requires m.Valid() && m.rawLen >= HEADER_SIZE + m.length && m.length + 64 < UINT32_LIMIT
    modifies m`raw, m`rawLen, m`length, m`attributes, m.raw
    ensures m.Valid() && (m.raw == old(m.raw) || fresh(m.raw))
    ensures err == if Lacks(old(m.attributes), ATTR_FINGERPRINT) then None else Some(FingerprintBeforeIntegrity)
    ensures err.None? ==>
              var text := WithLength(old(m.Raw()), old(m.length) + ATTRIBUTE_HEADER_SIZE + INTEGRITY_SIZE);
              var a := MakeAttribute(ATTR_MESSAGE_INTEGRITY, c.hmac(key, text));
              m.attributes == old(m.attributes) + [a] && m.length == old(m.length) + |EncodeAttribute(a)|
              && m.Raw() == AfterAdd(old(m.Raw()), old(m.length), a)
    ensures err.Some? ==>
              m.Raw() == old(m.Raw()) && m.length == old(m.length) && m.attributes == old(m.attributes)
  {
    hide EncodeAttribute, WithLength, AfterAdd;
    for i := 0 to |m.attributes|
      invariant Lacks(m.attributes[..i], ATTR_FINGERPRINT)
    {
      if m.attributes[i].atype == ATTR_FINGERPRINT {
        return Some(FingerprintBeforeIntegrity);
      }
    }
    assert m.attributes[..|m.attributes|] == m.attributes;
    var length := m.length;
    m.length := m.length + INTEGRITY_SIZE + ATTRIBUTE_HEADER_SIZE;
    m.WriteLength();
    var v := c.hmac(key, m.raw[..m.rawLen]);
    m.length := length;
    AddAfterWithLength(old(m.Raw()), length, length + INTEGRITY_SIZE + ATTRIBUTE_HEADER_SIZE,
                       MakeAttribute(ATTR_MESSAGE_INTEGRITY, v));
    m.Add(ATTR_MESSAGE_INTEGRITY, v);
    err := None;
  }

  /** The rewritten length field does not survive. */
  lemma AddAfterWithLength(raw: seq<byte>, length: nat, n: nat, a: RawAttribute)
    requires |raw| >= HEADER_SIZE + length
    ensures AfterAdd(WithLength(raw, n), length, a) == AfterAdd(raw, length, a)
  {
    hide EncodeAttribute, PutUint16;
    assert (WithLength(raw, n)[..HEADER_SIZE + length] + EncodeAttribute(a))[..2] == raw[..2];
    assert (raw[..HEADER_SIZE + length] + EncodeAttribute(a))[..2] == raw[..2];
    assert WithLength(raw, n)[4..HEADER_SIZE + length] == raw[4..HEADER_SIZE + length];
    assert (WithLength(raw, n)[..HEADER_SIZE + length] + EncodeAttribute(a))[4..]
           == (raw[..HEADER_SIZE + length] + EncodeAttribute(a))[4..];
  }

  /** The verdict on a buffer whose body the attributes tile: the first integrity attribute must be
      the hash of everything before it, with a length field that ends with it. */
  function IntegrityVerdict(c: Crypto, key: seq<byte>, attrs: seq<RawAttribute>, raw: seq<byte>): Option<AuthError>
    requires |raw| >= HEADER_SIZE + TiledSize(attrs)
  {
    var i := FirstOf(attrs, ATTR_MESSAGE_INTEGRITY);
    if i == |attrs| then Some(AttributeNotFound)
    else
      var end := TiledSize(attrs[..i + 1]);
      assert 4 <= end <= TiledSize(attrs) by {
        TiledSizeSplits(attrs, i + 1);
        assert attrs[..i + 1] == attrs[..i] + [attrs[i]];
        TiledSizeOfMore(attrs[..i], attrs[i]);
      }
      var text := WithLength(raw, end)[..HEADER_SIZE + end - ATTRIBUTE_HEADER_SIZE - INTEGRITY_SIZE];
      if attrs[i].value == c.hmac(key, text) then None else Some(IntegrityMismatch)
  }

  /** The attributes tile the body, and the length field holds the length: so it is for messages
      that were built, and for decoded ones. */
  ghost predicate Coherent(m: Message)
    reads m, m.raw
  {
    m.Valid() && m.rawLen >= HEADER_SIZE + m.length && m.length == TiledSize(m.attributes)
    && m.Raw()[2..4] == PutUint16(m.length)
  }

  /** The space behind the first integrity attribute. */
  function SizeAfter(attrs: seq<RawAttribute>): nat {
    var first := FirstOf(attrs, ATTR_MESSAGE_INTEGRITY);
    if first < |attrs| then TiledSize(attrs[first + 1..]) else 0
  }

  /** The length that is written for the check, and the end of what is hashed, in 32 bits. */
  function CheckedLength(attrs: seq<RawAttribute>, length: uint32): uint32 {
    (length - SizeAfter(attrs)) % UINT32_LIMIT
  }

  function HashEnd(checked: uint32): uint32 {
    (HEADER_SIZE + checked - ATTRIBUTE_HEADER_SIZE - INTEGRITY_SIZE) % UINT32_LIMIT
  }

  /** The verdict on a value, from the slice and what its buffer holds behind it. Whether the lengths fit
      the slice is not looked at: the check may index out of bounds, or hash old bytes. */
  function HashVerdict(c: Crypto, key: seq<byte>, value: seq<byte>, checked: uint32, raw: seq<byte>,
                       rest: seq<byte>): Option<AuthError> {
    if |raw| <= 4 || HashEnd(checked) > |raw + rest| then Some(OutOfBounds)
    else if value == c.hmac(key, (WithLength(raw, checked) + rest)[..HashEnd(checked)]) then None
    else Some(IntegrityMismatch)
  }

  /** The verdict on any message. */
  function Verdict(c: Crypto, key: seq<byte>, attrs: seq<RawAttribute>, length: uint32, raw: seq<byte>,
                   rest: seq<byte>): Option<AuthError> {
    var i := FirstOf(attrs, ATTR_MESSAGE_INTEGRITY);
    if i == |attrs| then Some(AttributeNotFound)
    else HashVerdict(c, key, attrs[i].value, CheckedLength(attrs, length), raw, rest)
  }

  /** What the verdict is on an accepted or a built message: that of section 15.4 of RFC 5389. */
  predicate Decides(c: Crypto, key: seq<byte>, attrs: seq<RawAttribute>, raw: seq<byte>, verdict: Option<AuthError>)
    requires |raw| >= HEADER_SIZE + TiledSize(attrs)
  {
    forall i :: 0 <= i < |attrs| && attrs[i].atype == ATTR_MESSAGE_INTEGRITY
                && Lacks(attrs[..i], ATTR_MESSAGE_INTEGRITY) ==>
      var end := HEADER_SIZE + TiledSize(attrs[..i]);
      end <= |raw|
      && verdict == if attrs[i].value == c.hmac(key, raw[..2] + PutUint16(end + 4) + raw[4..end]) then None
                    else Some(IntegrityMismatch)
  }

  /** Rewrites the length field in the buffer, hashes a prefix of it, and writes the field back. */
  method CompareHash(c: Crypto, key: seq<byte>, m: Message, value: seq<byte>, checked: uint32)
    returns (err: Option<AuthError>)
    requires m.Valid()
    modifies m`length, m.raw
    ensures m.Valid()
    ensures err == HashVerdict(c, key, value, checked, old(m.Raw()), old(m.raw[m.rawLen..]))
    ensures err != Some(OutOfBounds) ==>
              m.length == old(m.length) && |m.Raw()| > 4 && m.Raw() == WithLength(old(m.Raw()), m.length)
  {
    hide WithLength;
    var length := m.length;
    m.length := checked;
    if m.rawLen <= 4 {
      return Some(OutOfBounds);
    }
    m.WriteLength();
    var startOfHMAC := HashEnd(checked);
    if startOfHMAC > m.raw.Length {
      return Some(OutOfBounds);
    }
    assert m.raw[..] == m.Raw() + m.raw[m.rawLen..];
    var expected := c.hmac(key, m.raw[..startOfHMAC]);
    assert m.raw[..startOfHMAC] == m.raw[..][..startOfHMAC];
    m.length := length;
    m.WriteLength();
    LengthRewritten(old(m.Raw()), checked, length);
    err := if value == expected then None else Some(IntegrityMismatch);
  }

  method CheckIntegrity(c: Crypto, key: seq<byte>, m: Message) returns (err: Option<AuthError>)
    requires m.Valid()
    modifies m`length, m.raw
    ensures m.Valid()
    ensures err == Verdict(c, key, m.attributes, old(m.length), old(m.Raw()), old(m.raw[m.rawLen..]))
    ensures err != Some(OutOfBounds) ==> m.length == old(m.length)
    ensures err == Some(AttributeNotFound) ==> m.Raw() == old(m.Raw())
    ensures err.None? || err == Some(IntegrityMismatch) ==>
              |m.Raw()| > 4 && m.Raw() == WithLength(old(m.Raw()), old(m.length))
    ensures old(Coherent(m)) ==>
              m.Raw() == old(m.Raw()) && m.length == old(m.length)
              && err == IntegrityVerdict(c, key, m.attributes, m.Raw())
              && (Fits(m.attributes) ==> Decides(c, key, m.attributes, m.Raw(), err))
  {
    hide TiledSize, WithLength, FirstOf, IntegrityVerdict, HashEnd, Decides, Fits;
    if Coherent(m) {
      VerdictDecides(c, key, m.attributes, m.Raw());
      CoherentVerdict(c, key, m.attributes, m.length, m.Raw(), m.raw[m.rawLen..]);
    }
    var first := FirstOf(m.attributes, ATTR_MESSAGE_INTEGRITY);
    if first == |m.attributes| {
      return Some(AttributeNotFound);
    }
    var sizeReduced := SizeAfterIntegrity(m.attributes);
    err := CompareHash(c, key, m, m.attributes[first].value, (m.length - sizeReduced) % UINT32_LIMIT);
  }

  /** The verdict on any message in numbers: the attributes behind the first integrity attribute are
      taken off the length, and the hash ends four bytes before that, all in 32 bits. */
  lemma VerdictIs(c: Crypto, key: seq<byte>, attrs: seq<RawAttribute>, length: uint32, raw: seq<byte>,
                  rest: seq<byte>, i: nat)
    ensures Lacks(attrs, ATTR_MESSAGE_INTEGRITY) ==>
              Verdict(c, key, attrs, length, raw, rest) == Some(AttributeNotFound)
    ensures i < |attrs| && attrs[i].atype == ATTR_MESSAGE_INTEGRITY && Lacks(attrs[..i], ATTR_MESSAGE_INTEGRITY) ==>
              var n: nat := (length - TiledSize(attrs[i + 1..])) % 0x1_0000_0000;
              var end := (n - 4) % 0x1_0000_0000;
              Verdict(c, key, attrs, length, raw, rest)
              == if |raw| <= 4 || end > |raw| + |rest| then Some(OutOfBounds)
                 else if attrs[i].value
                         == c.hmac(key, (raw[..2] + [n / 256 % 256, n % 256] + raw[4..] + rest)[..end]) then None
                 else Some(IntegrityMismatch)
  {
    hide TiledSize, FirstOf;
    if i < |attrs| && attrs[i].atype == ATTR_MESSAGE_INTEGRITY && Lacks(attrs[..i], ATTR_MESSAGE_INTEGRITY) {
      FirstIs(attrs, ATTR_MESSAGE_INTEGRITY, i);
    }
  }

  lemma LengthRewritten(raw: seq<byte>, n: nat, length: nat)
    requires |raw| >= 4
    ensures WithLength(WithLength(raw, n), length) == WithLength(raw, length)
    ensures raw[2..4] == PutUint16(length) ==> WithLength(raw, length) == raw
  {
    hide PutUint16;
    assert raw == raw[..2] + raw[2..4] + raw[4..];
  }

  /** Lengths that are right keep the check within the body. */
  lemma CoherentVerdict(c: Crypto, key: seq<byte>, attrs: seq<RawAttribute>, length: uint32, raw: seq<byte>,
                        rest: seq<byte>)
    requires |raw| >= HEADER_SIZE + length && length == TiledSize(attrs) && raw[2..4] == PutUint16(length)
    ensures Verdict(c, key, attrs, length, raw, rest) == IntegrityVerdict(c, key, attrs, raw) != Some(OutOfBounds)
    ensures WithLength(raw, length) == raw
  {
    hide TiledSize, FirstOf, PutUint16;
    LengthRewritten(raw, length, length);
    var first := FirstOf(attrs, ATTR_MESSAGE_INTEGRITY);
    if first < |attrs| {
      TiledSizeSplits(attrs, first + 1);
      TileThroughFirst(attrs, first);
      var n := CheckedLength(attrs, length);
      assert n == TiledSize(attrs[..first + 1]);
      var end := HashEnd(n);
      assert end == HEADER_SIZE + n - ATTRIBUTE_HEADER_SIZE - INTEGRITY_SIZE;
      assert (WithLength(raw, n) + rest)[..end] == WithLength(raw, n)[..end];
    }
  }

  lemma TileThroughFirst(attrs: seq<RawAttribute>, i: nat)
    requires i < |attrs|
    ensures TiledSize(attrs[..i + 1]) >= ATTRIBUTE_HEADER_SIZE
  {
    assert attrs[..i + 1] == attrs[..i] + [attrs[i]];
    TiledSizeOfMore(attrs[..i], attrs[i]);
  }

  /** The accumulating loop of Check: the space taken by what follows the first integrity attribute. */
  method SizeAfterIntegrity(attrs: seq<RawAttribute>) returns (sizeReduced: nat)
    ensures sizeReduced == SizeAfter(attrs)
  {
    hide TiledSize, FirstOf, PaddedLength;
    ghost var first := FirstOf(attrs, ATTR_MESSAGE_INTEGRITY);
    var afterIntegrity := false;
    sizeReduced := 0;
    for k := 0 to |attrs|
      invariant afterIntegrity <==> first < k
      invariant sizeReduced == if first < k then TiledSize(attrs[first + 1..k]) else 0
    {
      if afterIntegrity {
        sizeReduced := sizeReduced + PaddedLength(attrs[k].length);
        sizeReduced := sizeReduced + ATTRIBUTE_HEADER_SIZE;
        assert attrs[first + 1..k + 1] == attrs[first + 1..k] + [attrs[k]];
        TiledSizeOfMore(attrs[first + 1..k], attrs[k]);
      }
      if k == first {
        assert attrs[first + 1..k + 1] == [];
        EmptyTile();
      }
      if attrs[k].atype == ATTR_MESSAGE_INTEGRITY {
        afterIntegrity := true;
      }
    }
    if first < |attrs| {
      assert attrs[first + 1..|attrs|] == attrs[first + 1..];
    }
  }

  /** Section 15.4 of RFC 5389, for any buffer that the attributes tile: the check passes if and only if
      the value of the first integrity attribute is the hash of all bytes in front of that attribute,
      with a length field that counts to its end. */
  lemma IntegrityVerdictIff(c: Crypto, key: seq<byte>, attrs: seq<RawAttribute>, raw: seq<byte>, i: nat)
    requires |raw| >= HEADER_SIZE + TiledSize(attrs) && Fits(attrs)
    requires i < |attrs| && attrs[i].atype == ATTR_MESSAGE_INTEGRITY && Lacks(attrs[..i], ATTR_MESSAGE_INTEGRITY)
    ensures var n := TiledSize(attrs[..i]);
            HEADER_SIZE + n <= |raw|
            && IntegrityVerdict(c, key, attrs, raw)
               == if attrs[i].value == c.hmac(key, raw[..2] + PutUint16(n + 24) + raw[4..HEADER_SIZE + n]) then None
                  else Some(IntegrityMismatch)
  {
    hide TiledSize, FirstOf, PaddedLength, PutUint16, WithLength, IntegrityVerdict, Lacks;
    TileBefore(attrs, i);
    var n := TiledSize(attrs[..i]);
    IntegrityVerdictAt(c, key, attrs, raw, i, TiledSize(attrs[..i + 1]));
    if |attrs[i].value| == INTEGRITY_SIZE {
      PaddedIntegrity();
      RewrittenPrefix(raw, n + 24, HEADER_SIZE + n);
    }
  }

  /** A value of another size is never a hash. */
  lemma IntegrityVerdictAt(c: Crypto, key: seq<byte>, attrs: seq<RawAttribute>, raw: seq<byte>, i: nat, end: nat)
    requires |raw| >= HEADER_SIZE + TiledSize(attrs)
    requires i < |attrs| && attrs[i].atype == ATTR_MESSAGE_INTEGRITY && Lacks(attrs[..i], ATTR_MESSAGE_INTEGRITY)
    requires 4 <= end == TiledSize(attrs[..i + 1]) <= TiledSize(attrs)
    ensures var text := WithLength(raw, end)[..HEADER_SIZE + end - 24];
            IntegrityVerdict(c, key, attrs, raw)
            == if |attrs[i].value| == INTEGRITY_SIZE && attrs[i].value == c.hmac(key, text) then None
               else Some(IntegrityMismatch)
  {
    hide TiledSize, FirstOf, WithLength;
    FirstIs(attrs, ATTR_MESSAGE_INTEGRITY, i);
    assert |c.hmac(key, WithLength(raw, end)[..HEADER_SIZE + end - 24])| == INTEGRITY_SIZE;
  }

  lemma VerdictDecides(c: Crypto, key: seq<byte>, attrs: seq<RawAttribute>, raw: seq<byte>)
    requires |raw| >= HEADER_SIZE + TiledSize(attrs)
    ensures Fits(attrs) ==> Decides(c, key, attrs, raw, IntegrityVerdict(c, key, attrs, raw))
  {
    hide TiledSize, Lacks, PutUint16, IntegrityVerdict, Fits;
    if Fits(attrs) {
      forall i | 0 <= i < |attrs| && attrs[i].atype == ATTR_MESSAGE_INTEGRITY
                 && Lacks(attrs[..i], ATTR_MESSAGE_INTEGRITY)
        ensures var end := HEADER_SIZE + TiledSize(attrs[..i]);
                end <= |raw|
                && IntegrityVerdict(c, key, attrs, raw)
                   == if attrs[i].value == c.hmac(key, raw[..2] + PutUint16(end + 4) + raw[4..end]) then None
                      else Some(IntegrityMismatch)
      {
        IntegrityVerdictIff(c, key, attrs, raw, i);
      }
    }
  }

  lemma TileBefore(attrs: seq<RawAttribute>, i: nat)
    requires i < |attrs|
    ensures TiledSize(attrs[..i]) <= TiledSize(attrs[..i + 1]) <= TiledSize(attrs)
    ensures TiledSize(attrs[..i + 1])
            == TiledSize(attrs[..i]) + ATTRIBUTE_HEADER_SIZE + PaddedLength(attrs[i].length)
  {
    hide TiledSize, PaddedLength;
    TiledSizeSplits(attrs, i + 1);
    assert attrs[..i + 1] == attrs[..i] + [attrs[i]];
    TiledSizeOfMore(attrs[..i], attrs[i]);
  }

  /** So it is for any message with trailing bytes: the hash is that of the encoding up to the
      attribute. A wrong value is refused, whatever it is. */
  lemma IntegrityDecidedIff(c: Crypto, key: seq<byte>, w: View, i: nat, trailing: seq<byte>)
    requires Fits(w.attrs) && i < |w.attrs| && w.attrs[i].atype == ATTR_MESSAGE_INTEGRITY
    requires Lacks(w.attrs[..i], ATTR_MESSAGE_INTEGRITY)
    ensures |w.Bytes()| == HEADER_SIZE + TiledSize(w.attrs)
    ensures var before := Body(w.attrs[..i]);
            IntegrityVerdict(c, key, w.attrs, w.Bytes() + trailing)
            == if w.attrs[i].value == c.hmac(key, Header(w.mtype, |before| + 24, w.id) + before) then None
               else Some(IntegrityMismatch)
  {
    hide TiledSize, Body, FirstOf, EncodeAttribute, Header, WithLength, PutUint16;
    var front, back := w.attrs[..i], w.attrs[i..];
    assert w.attrs == front + back;
    TiledSizeOfBody(w.attrs);
    TiledSizeOfBody(front);
    BodyConcat(front, back);
    var raw, n := w.Bytes() + trailing, |Body(front)|;
    IntegrityVerdictIff(c, key, w.attrs, raw, i);
    var rest := Body(front) + (Body(back) + trailing);
    assert raw == Header(w.mtype, |Body(w.attrs)|, w.id) + rest;
    HeaderWithLength(w.mtype, |Body(w.attrs)|, w.id, rest, n + 24);
    RewrittenPrefix(raw, n + 24, HEADER_SIZE + n);
    assert (Header(w.mtype, n + 24, w.id) + rest)[..HEADER_SIZE + n]
           == Header(w.mtype, n + 24, w.id) + Body(front);
  }

  lemma RewrittenPrefix(raw: seq<byte>, length: nat, end: nat)
    requires 4 <= end <= |raw|
    ensures WithLength(raw, length)[..end] == raw[..2] + PutUint16(length) + raw[4..end]
  {
    hide PutUint16;
  }

  /** Whatever is added after the integrity attribute, and whatever follows the message in the
      buffer, the check hashes exactly what was hashed when the attribute was added. */
  lemma IntegrityHolds(c: Crypto, key: seq<byte>, v: View, more: seq<RawAttribute>, trailing: seq<byte>)
    requires Fits(v.attrs) && Fits(more) && Lacks(v.attrs, ATTR_MESSAGE_INTEGRITY)
    ensures var w := WithIntegrity(c, key, v).And(more);
            Fits(w.attrs) && |w.Bytes()| == HEADER_SIZE + TiledSize(w.attrs)
            && IntegrityVerdict(c, key, w.attrs, w.Bytes() + trailing) == None
  {
    hide TiledSize, Body, PaddedLength, FirstOf, EncodeAttribute, Header, WithLength, IntegrityVerdict;
    var w, k := WithIntegrity(c, key, v).And(more), |v.attrs|;
    assert w.attrs[..k] == v.attrs;
    IntegrityDecidedIff(c, key, w, k, trailing);
  }

  /** What is added: twenty bytes, the hash of the message so far with a length field that counts 24
      bytes more. */
  lemma IntegrityIs(c: Crypto, key: seq<byte>, v: View)
    ensures var value := c.hmac(key, Header(v.mtype, |Body(v.attrs)| + 24, v.id) + Body(v.attrs));
            WithIntegrity(c, key, v) == View(v.mtype, v.id, v.attrs + [RawAttribute(0x0008, 20, value)])
  {
    hide Header, Body;
  }

  lemma PaddedIntegrity()
    ensures PaddedLength(INTEGRITY_SIZE) == INTEGRITY_SIZE && PaddedLength(FINGERPRINT_SIZE) == FINGERPRINT_SIZE
  {
  }

  // ----- fingerprint -----

  function PutUint32(n: nat): (b: seq<byte>)
    ensures |b| == 4
  {
    PutUint16(n / 0x1_0000) + PutUint16(n)
  }

  function Uint32(b: seq<byte>): uint32
    requires |b| >= 4
  {
    (Uint16(b) as int) * 0x1_0000 + Uint16(b[2..])
  }

  lemma Uint32IsBigEndian(b: seq<byte>)
    requires |b| == 4
    ensures Uint32(b) == 0x100_0000 * (b[0] as int) + 0x1_0000 * (b[1] as int) + 0x100 * (b[2] as int) + b[3]
    ensures PutUint32(Uint32(b)) == b
  {
    hide PutUint16, Uint16;
    assert b[2..][..2] == b[2..];
    assert b[..2] + b[2..] == b;
    var hi: int, lo: int := Uint16(b), Uint16(b[2..]);
    DivisionIs(hi * 0x1_0000 + lo, 0x1_0000, hi, lo);
    PutOfUint16(b);
    PutOfUint16(b[2..]);
    PutModulo(hi, lo);
    assert Uint16(b) == 0x100 * (b[0] as int) + b[1] && Uint16(b[2..]) == 0x100 * (b[2] as int) + b[3] by {
      HalvesAre(b);
    }
  }

  lemma HalvesAre(b: seq<byte>)
    requires |b| == 4
    ensures Uint16(b) == 0x100 * (b[0] as int) + b[1] && Uint16(b[2..]) == 0x100 * (b[2] as int) + b[3]
  {
  }

  /** Only the low sixteen bits are put. */
  lemma PutModulo(hi: nat, lo: nat)
    ensures PutUint16(hi * 0x1_0000 + lo) == PutUint16(lo)
  {
    var x := lo / 0x100;
    DivisionIs(hi * 0x1_0000 + lo, 0x100, hi * 0x100 + x, lo % 0x100);
    DivisionIs(hi * 0x100 + x, 0x100, hi + x / 0x100, x % 0x100);
  }

  lemma Uint32OfPut(n: uint32)
    ensures Uint32(PutUint32(n)) == n
  {
    hide PutUint16, Uint16;
    Uint16OfPut(n / 0x1_0000, PutUint16(n));
    Uint16OfPut(n, []);
    assert PutUint16(n) + [] == PutUint16(n);
    assert PutUint32(n)[2..] == PutUint16(n);
  }

  lemma Pow2Of32()
    ensures Pow2(32) == UINT32_LIMIT
  {
    Pow2Of16();
    assert Pow2(20) == 0x10_0000;
    assert Pow2(24) == 0x100_0000;
    assert Pow2(28) == 0x1000_0000;
  }

  function FingerprintValue(c: Crypto, b: seq<byte>): uint32 {
    assert Pow2(32) == UINT32_LIMIT by { Pow2Of32(); }
    Xor(c.crc32(b), FINGERPRINT_XOR, 32)
  }

  function FingerprintText(v: View): seq<byte> {
    Header(v.mtype, |Body(v.attrs)| + ATTRIBUTE_HEADER_SIZE + FINGERPRINT_SIZE, v.id) + Body(v.attrs)
  }

  function WithFingerprint(c: Crypto, v: View): View {
    v.And([MakeAttribute(ATTR_FINGERPRINT, PutUint32(FingerprintValue(c, FingerprintText(v))))])
  }

  method AddFingerprint(c: Crypto, m: Message)
    requires m.Valid() && m.rawLen >= HEADER_SIZE + m.length && m.length + 64 < UINT32_LIMIT
    modifies m`raw, m`rawLen, m`length, m`attributes, m.raw
    ensures m.Valid() && (m.raw == old(m.raw) || fresh(m.raw))
    ensures var text := WithLength(old(m.Raw()), old(m.length) + ATTRIBUTE_HEADER_SIZE + FINGERPRINT_SIZE);
            var a := MakeAttribute(ATTR_FINGERPRINT, PutUint32(FingerprintValue(c, text)));
            m.attributes == old(m.attributes) + [a] && m.length == old(m.length) + |EncodeAttribute(a)|
            && m.Raw() == AfterAdd(old(m.Raw()), old(m.length), a)
  {
    hide EncodeAttribute, WithLength, AfterAdd, Xor, PutUint16, FingerprintValue;
    var l := m.length;
    m.length := m.length + FINGERPRINT_SIZE + ATTRIBUTE_HEADER_SIZE;
    m.WriteLength();
    var b := PutUint32(FingerprintValue(c, m.raw[..m.rawLen]));
    m.length := l;
    AddAfterWithLength(old(m.Raw()), l, l + FINGERPRINT_SIZE + ATTRIBUTE_HEADER_SIZE,
                       MakeAttribute(ATTR_FINGERPRINT, b));
    m.Add(ATTR_FINGERPRINT, b);
  }

  /** The verdict on the first fingerprint attribute: the checksum of all but the last eight bytes. */
  function FingerprintVerdict(c: Crypto, attrs: seq<RawAttribute>, raw: seq<byte>): Option<AuthError>
    requires |raw| >= HEADER_SIZE
  {
    match Get(attrs, ATTR_FINGERPRINT)
    case None => Some(AttributeNotFound)
    case Some(b) =>
      if |b| != FINGERPRINT_SIZE then Some(AttributeLength(|b|))
      else if Uint32(b) != FingerprintValue(c, raw[..|raw| - ATTRIBUTE_HEADER_SIZE - FINGERPRINT_SIZE]) then
        Some(CRCMismatch)
      else None
  }

  /** What is added: four bytes, the checksum of the message so far, with a length field that counts
      eight bytes more, and the bits of 0x5354554e turned over. */
  lemma FingerprintIs(c: Crypto, v: View)
    ensures var sum := c.crc32(Header(v.mtype, |Body(v.attrs)| + 8, v.id) + Body(v.attrs));
            WithFingerprint(c, v)
            == View(v.mtype, v.id, v.attrs + [RawAttribute(0x8028, 4, PutUint32(Xor(sum, 0x5354554e, 32)))])
  {
    hide Header, Body, Xor;
  }

  /** Section 15.5 of RFC 5389: the check passes if and only if the first fingerprint is four bytes long
      and holds, highest byte first, the checksum of all but the last eight bytes with the bits of
      0x5354554e turned over. */
  lemma FingerprintVerdictIff(c: Crypto, attrs: seq<RawAttribute>, raw: seq<byte>, i: nat)
    requires |raw| >= HEADER_SIZE
    ensures Lacks(attrs, ATTR_FINGERPRINT) ==> FingerprintVerdict(c, attrs, raw) == Some(AttributeNotFound)
    ensures i < |attrs| && attrs[i].atype == ATTR_FINGERPRINT && Lacks(attrs[..i], ATTR_FINGERPRINT) ==>
              var b := attrs[i].value;
              FingerprintVerdict(c, attrs, raw)
              == if |b| != 4 then Some(AttributeLength(|b|))
                 else if b == PutUint32(Xor(c.crc32(raw[..|raw| - 8]), 0x5354554e, 32)) then None
                 else Some(CRCMismatch)
  {
    hide FirstOf, Uint32, PutUint32, Xor;
    GetIs(attrs, ATTR_FINGERPRINT);
    if i < |attrs| && attrs[i].atype == ATTR_FINGERPRINT && Lacks(attrs[..i], ATTR_FINGERPRINT)
       && |attrs[i].value| == 4 {
      Uint32IsBigEndian(attrs[i].value);
      Uint32OfPut(FingerprintValue(c, raw[..|raw| - 8]));
    }
  }

  /** So it is for a message with a fingerprint at the end: any other value is refused. */
  lemma FingerprintDecidedIff(c: Crypto, v: View, value: seq<byte>)
    requires Lacks(v.attrs, ATTR_FINGERPRINT) && |value| == 4
    ensures var w := v.And([RawAttribute(ATTR_FINGERPRINT, 4, value)]);
            FingerprintVerdict(c, w.attrs, w.Bytes())
            == if value == PutUint32(Xor(c.crc32(Header(v.mtype, |Body(v.attrs)| + 8, v.id) + Body(v.attrs)),
                                         0x5354554e, 32)) then None
               else Some(CRCMismatch)
  {
    hide Body, FirstOf, EncodeAttribute, Header, Xor, PutUint32, PaddedLength, FingerprintVerdict;
    var fp := RawAttribute(ATTR_FINGERPRINT, 4, value);
    var w, n := v.And([fp]), |Body(v.attrs)|;
    assert w.attrs[..|v.attrs|] == v.attrs;
    FingerprintVerdictIff(c, w.attrs, w.Bytes(), |v.attrs|);
    BodyOfMore(v.attrs, fp);
    PaddedIntegrity();
    assert w.Bytes() == Header(v.mtype, n + 8, v.id) + Body(v.attrs) + EncodeAttribute(fp);
    assert w.Bytes()[..|w.Bytes()| - 8] == Header(v.mtype, n + 8, v.id) + Body(v.attrs);
  }

  /** The check of the fingerprint only reads, so it may come before or after the integrity check. */
  method CheckFingerprint(c: Crypto, m: Message) returns (err: Option<AuthError>)
    requires m.Valid() && m.rawLen >= HEADER_SIZE
    ensures err == FingerprintVerdict(c, m.attributes, m.Raw())
  {
    hide FirstOf, FingerprintValue, Uint32;
    var b := Get(m.attributes, ATTR_FINGERPRINT);
    if b.None? {
      return Some(AttributeNotFound);
    }
    if |b.value| != FINGERPRINT_SIZE {
      return Some(AttributeLength(|b.value|));
    }
    var val := Uint32(b.value);
    var attrStart := m.rawLen - (FINGERPRINT_SIZE + ATTRIBUTE_HEADER_SIZE);
    assert m.raw[..attrStart] == m.Raw()[..attrStart];
    var expected := FingerprintValue(c, m.raw[..attrStart]);
    err := if expected != val then Some(CRCMismatch) else None;
  }

  lemma FingerprintHolds(c: Crypto, v: View)
    requires Lacks(v.attrs, ATTR_FINGERPRINT)
    ensures var w := WithFingerprint(c, v);
            FingerprintVerdict(c, w.attrs, w.Bytes()) == None
  {
    hide Body, Header, Xor, PutUint32, FingerprintVerdict;
    FingerprintIs(c, v);
    FingerprintDecidedIff(c, v, PutUint32(FingerprintValue(c, FingerprintText(v))));
  }

  /** The main result. Whoever adds integrity, then any attributes, then perhaps a fingerprint, has
      a message that passes both checks, and so does whoever decodes it. */
  lemma SealedMessageVerifies(c: Crypto, key: seq<byte>, v: View, more: seq<RawAttribute>, fingerprint: bool)
    requires ProperType(v.mtype) && Fits(v.attrs) && Fits(more)
    requires Lacks(v.attrs, ATTR_MESSAGE_INTEGRITY) && Lacks(v.attrs, ATTR_FINGERPRINT) && Lacks(more, ATTR_FINGERPRINT)
    ensures
      var sealed := WithIntegrity(c, key, v).And(more);
      var w := if fingerprint then WithFingerprint(c, sealed) else sealed;
      && |w.Bytes()| == HEADER_SIZE + TiledSize(w.attrs)
      && IntegrityVerdict(c, key, w.attrs, w.Bytes()) == None
      && (fingerprint ==> FingerprintVerdict(c, w.attrs, w.Bytes()) == None)
      && (|w.Bytes()| < HEADER_SIZE + 0x1_0000 ==>
            Decodable(w.Bytes())
            && ParseMessage(w.Bytes()) == Success(Decoded(w.mtype, |Body(w.attrs)|, w.id, w.attrs)))
  {
    hide IntegrityVerdict, FingerprintVerdict, ParseMessage, TiledSize, Body, FirstOf, Encode, FingerprintValue,
         PutUint16, IntegrityText, FingerprintText, Decodable;
    var sealed := WithIntegrity(c, key, v).And(more);
    var w := if fingerprint then WithFingerprint(c, sealed) else sealed;
    var value := PutUint32(FingerprintValue(c, FingerprintText(sealed)));
    var last := if fingerprint then [MakeAttribute(ATTR_FINGERPRINT, value)] else [];
    IntegrityHolds(c, key, v, more + last, []);
    assert WithIntegrity(c, key, v).And(more + last).attrs == w.attrs;
    assert w.Bytes() + [] == w.Bytes();
    if fingerprint {
      FingerprintHolds(c, sealed);
    }
    if |w.Bytes()| < HEADER_SIZE + 0x1_0000 {
      EncodingDecodable(w);
      DecodeOfEncode(w.mtype, w.id, w.attrs, []);
    }
  }

  lemma EncodingDecodable(v: View)
    requires ProperType(v.mtype)
    ensures Decodable(v.Bytes())
  {
    hide Body;
  }
}
