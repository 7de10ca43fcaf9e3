/** The wire form of STUN messages as values (stun/message.go, stun/attributes.go; sections 6 and 15
    of RFC 5389). */
module StunWire {
  import opened Wrappers
  import opened Division
  import opened Bytes

  const HEADER_SIZE := 20
  const ATTRIBUTE_HEADER_SIZE := 4
  const PADDING := 4
  const MAGIC_COOKIE: seq<byte> := [0x21, 0x12, 0xA4, 0x42]

  type uint16 = x: int | 0 <= x < 0x1_0000
  type TransactionID = s: seq<byte> | |s| == 12 witness seq(12, i => 0)

  const ATTR_MESSAGE_INTEGRITY: uint16 := 0x0008
  const ATTR_XOR_MAPPED_ADDRESS: uint16 := 0x0020
  const ATTR_FINGERPRINT: uint16 := 0x8028

  function PutUint16(n: nat): (b: seq<byte>)
    ensures |b| == 2
  {
    [n / 0x100 % 0x100, n % 0x100]
  }

  function Uint16(b: seq<byte>): uint16
    requires |b| >= 2
  {
    (b[0] as int) * 0x100 + b[1]
  }

  lemma Uint16OfPut(n: nat, rest: seq<byte>)
    ensures Uint16(PutUint16(n) + rest) == n % 0x1_0000
  {
    var x := n / 0x100;
    DivisionIs(n, 0x1_0000, x / 0x100, 0x100 * (x % 0x100) + n % 0x100);
  }

  lemma PutOfUint16(b: seq<byte>)
    requires |b| >= 2
    ensures PutUint16(Uint16(b)) == b[..2]
  {
  }

  /** A 12-bit method and a 2-bit class, though the source's types are wider. */
  datatype MessageType = MessageType(method_: uint16, class_: byte)

  predicate ProperType(t: MessageType) {
    t.method_ < 0x1000 && t.class_ < 4
  }

  /** The interleaved type field. Bits 0-3, 4-6 and 7-11 of the method go to bits 0, 5 and 9, and
      the two bits of the class to bits 4 and 8; masks and shifts are remainders and multiples. */
  function TypeValue(t: MessageType): (v: nat)
    ensures v < 0x4000
  {
    t.method_ % 0x10
    + t.method_ / 0x10 % 8 * 0x20
    + t.method_ / 0x80 % 0x20 * 0x200
    + t.class_ % 2 * 0x10
    + t.class_ / 2 % 2 * 0x100
  }

  function ReadType(v: uint16): MessageType {
    MessageType(v % 0x10 + v / 0x20 % 8 * 0x10 + v / 0x200 % 0x20 * 0x80,
                v / 0x10 % 2 + v / 0x100 % 2 * 2)
  }

  lemma FieldsOfType(a: nat, c0: nat, b: nat, c1: nat, d: nat)
    requires a < 0x10 && c0 < 2 && b < 8 && c1 < 2 && d < 0x20
    ensures var v := a + 0x10 * c0 + 0x20 * b + 0x100 * c1 + 0x200 * d;
            v % 0x10 == a && v / 0x10 % 2 == c0 && v / 0x20 % 8 == b && v / 0x100 % 2 == c1 && v / 0x200 % 0x20 == d
  {
    var v := a + 0x10 * c0 + 0x20 * b + 0x100 * c1 + 0x200 * d;
    assert v / 0x10 == c0 + 2 * b + 0x10 * c1 + 0x20 * d;
    assert v / 0x20 == b + 8 * c1 + 0x10 * d;
    assert v / 0x100 == c1 + 2 * d;
    assert v / 0x200 == d;
  }

  lemma FieldsOfMethod(a: nat, b: nat, d: nat)
    requires a < 0x10 && b < 8 && d < 0x20
    ensures var m := a + 0x10 * b + 0x80 * d;
            m % 0x10 == a && m / 0x10 % 8 == b && m / 0x80 % 0x20 == d
  {
    var m := a + 0x10 * b + 0x80 * d;
    assert m / 0x10 == b + 8 * d;
    assert m / 0x80 == d;
  }

  lemma MethodFields(m: nat)
    requires m < 0x1000
    ensures m == m % 0x10 + 0x10 * (m / 0x10 % 8) + 0x80 * (m / 0x80 % 0x20)
  {
    assert m / 0x80 == m / 0x10 / 8;
  }

  lemma ValueFields(v: nat)
    requires v < 0x4000
    ensures v == v % 0x10 + 0x10 * (v / 0x10 % 2) + 0x20 * (v / 0x20 % 8) + 0x100 * (v / 0x100 % 2)
                 + 0x200 * (v / 0x200 % 0x20)
  {
    var a, b, d := v / 0x10, v / 0x10 / 2, v / 0x10 / 2 / 8;
    DivisionIs(v, 0x20, b, 0x10 * (a % 2) + v % 0x10);
    DivisionIs(v, 0x100, d, 0x20 * (b % 8) + v % 0x20);
    DivisionIs(v, 0x200, d / 2, 0x100 * (d % 2) + v % 0x100);
  }

  lemma TypeRoundTrip(t: MessageType)
    requires ProperType(t)
    ensures ReadType(TypeValue(t)) == t
  {
    var a, b, d := t.method_ % 0x10, t.method_ / 0x10 % 8, t.method_ / 0x80 % 0x20;
    var c0, c1 := t.class_ % 2, t.class_ / 2 % 2;
    MethodFields(t.method_);
    assert t.class_ == c0 + c1 * 2;
    ReadOfFields(a, c0, b, c1, d);
    TypeValueFields(t, a, c0, b, c1, d);
  }

  lemma TypeValueFields(t: MessageType, a: nat, c0: nat, b: nat, c1: nat, d: nat)
    requires a == t.method_ % 0x10 && b == t.method_ / 0x10 % 8 && d == t.method_ / 0x80 % 0x20
    requires c0 == t.class_ % 2 && c1 == t.class_ / 2 % 2
    ensures TypeValue(t) == a + 0x10 * c0 + 0x20 * b + 0x100 * c1 + 0x200 * d
  {
  }

  lemma ReadOfFields(a: nat, c0: nat, b: nat, c1: nat, d: nat)
    requires a < 0x10 && c0 < 2 && b < 8 && c1 < 2 && d < 0x20
    ensures ReadType(a + 0x10 * c0 + 0x20 * b + 0x100 * c1 + 0x200 * d)
            == MessageType(a + b * 0x10 + d * 0x80, c0 + c1 * 2)
  {
    FieldsOfType(a, c0, b, c1, d);
  }

  lemma TypeRoundTripBack(v: uint16)
    requires v < 0x4000
    ensures TypeValue(ReadType(v)) == v && ProperType(ReadType(v))
  {
    hide TypeValue, ReadType;
    var a, b, d := v % 0x10, v / 0x20 % 8, v / 0x200 % 0x20;
    var c0, c1 := v / 0x10 % 2, v / 0x100 % 2;
    ValueFields(v);
    ReadOfFields(a, c0, b, c1, d);
    FieldsOfMethod(a, b, d);
    TypeValueFields(ReadType(v), a, c0, b, c1, d);
  }

  /** Where bit i of the method and bit i of the class stand in the type field. */
  function MethodPlace(i: nat): nat {
    if i < 4 then i else if i < 7 then i + 1 else i + 2
  }

  function ClassPlace(i: nat): nat {
    if i == 0 then 4 else 8
  }

  lemma Field(n: nat, k: nat, w: nat, j: nat)
    requires j < w
    ensures Bit(Low(Shift(n, k), w), j) == Bit(n, k + j)
  {
    BitOfLow(Shift(n, k), w, j);
    BitOfShift(n, k, j);
  }

  lemma Shifts(n: nat)
    ensures Shift(n, 0) == n && Shift(n, 1) == n / 2 && Shift(n, 4) == n / 0x10 && Shift(n, 5) == n / 0x20
    ensures Shift(n, 7) == n / 0x80 && Shift(n, 8) == n / 0x100 && Shift(n, 9) == n / 0x200
  {
    ShiftStep(n, 1);
    ShiftStep(n, 2);
    ShiftStep(n, 3);
    ShiftStep(n, 4);
    ShiftStep(n, 5);
    ShiftStep(n, 6);
    ShiftStep(n, 7);
    ShiftStep(n, 8);
    ShiftStep(n, 9);
  }

  lemma {:induction false} ShiftStep(n: nat, k: nat)
    requires k > 0
    ensures Shift(n, k) == Shift(n, k - 1) / 2
  {
    if k > 1 {
      ShiftStep(n / 2, k - 1);
    }
  }

  lemma LowStep(n: nat, w: nat)
    ensures Low(n, w + 1) == n % 2 + 2 * Low(n / 2, w) && Low(n, 0) == 0
  {
  }

  lemma Low1(n: nat)
    ensures Low(n, 1) == n % 2
  {
    hide Low;
    LowStep(n, 0);
    LowStep(n / 2, 0);
  }

  lemma Low2(n: nat)
    ensures Low(n, 2) == n % 4
  {
    hide Low;
    LowStep(n, 1);
    Low1(n / 2);
    DivisionIs(n, 4, n / 2 / 2, n % 2 + 2 * (n / 2 % 2));
  }

  lemma Low3(n: nat)
    ensures Low(n, 3) == n % 8
  {
    hide Low;
    LowStep(n, 2);
    Low2(n / 2);
    DivisionIs(n, 8, n / 2 / 4, n % 2 + 2 * (n / 2 % 4));
  }

  lemma Low4(n: nat)
    ensures Low(n, 4) == n % 0x10
  {
    hide Low;
    LowStep(n, 3);
    Low3(n / 2);
    DivisionIs(n, 0x10, n / 2 / 8, n % 2 + 2 * (n / 2 % 8));
  }

  lemma Low5(n: nat)
    ensures Low(n, 5) == n % 0x20
  {
    hide Low;
    LowStep(n, 4);
    Low4(n / 2);
    DivisionIs(n, 0x20, n / 2 / 0x10, n % 2 + 2 * (n / 2 % 0x10));
  }

  lemma Lows(n: nat)
    ensures Low(n, 1) == n % 2 && Low(n, 3) == n % 8 && Low(n, 4) == n % 0x10 && Low(n, 5) == n % 0x20
  {
    hide Low;
    Low1(n);
    Low3(n);
    Low4(n);
    Low5(n);
  }

  /** Figure 3 of RFC 5389: the type field holds every bit of method and class at its place. */
  lemma TypeBits(t: MessageType, i: nat)
    requires ProperType(t) && i < 12
    ensures Bit(TypeValue(t), MethodPlace(i)) == Bit(t.method_, i)
    ensures i < 2 ==> Bit(TypeValue(t), ClassPlace(i)) == Bit(t.class_, i)
  {
    hide TypeValue, Bit, Low, Shift;
    var m, v := t.method_, TypeValue(t);
    var a, b, d, c0, c1 := m % 0x10, m / 0x10 % 8, m / 0x80 % 0x20, t.class_ % 2, t.class_ / 2 % 2;
    TypeValueFields(t, a, c0, b, c1, d);
    FieldsOfType(a, c0, b, c1, d);
    Shifts(m);
    Shifts(v);
    if i < 4 {
      Lows(m);
      Lows(v);
      Field(m, 0, 4, i);
      Field(v, 0, 4, i);
    } else if i < 7 {
      Lows(m / 0x10);
      Lows(v / 0x20);
      Field(m, 4, 3, i - 4);
      Field(v, 5, 3, i - 4);
    } else {
      Lows(m / 0x80);
      Lows(v / 0x200);
      Field(m, 7, 5, i - 7);
      Field(v, 9, 5, i - 7);
    }
    if i < 2 {
      ClassBits(t, v, i);
    }
  }

  lemma ClassBits(t: MessageType, v: nat, i: nat)
    requires i < 2 && v / 0x10 % 2 == t.class_ % 2 && v / 0x100 % 2 == t.class_ / 2 % 2
    ensures Bit(v, ClassPlace(i)) == Bit(t.class_, i)
  {
    hide Bit, Low, Shift;
    var c: nat := t.class_;
    Shifts(v);
    Shifts(c);
    if i == 0 {
      Lows(c);
      Lows(v / 0x10);
      Field(c, 0, 1, 0);
      Field(v, 4, 1, 0);
    } else {
      Lows(c / 2);
      Lows(v / 0x100);
      Field(c, 1, 1, 0);
      Field(v, 8, 1, 0);
    }
  }

  /** A type-length-value attribute; the length field is 16 bits wide. */
  datatype RawAttribute = RawAttribute(atype: uint16, length: uint16, value: seq<byte>)

  function MakeAttribute(t: uint16, v: seq<byte>): RawAttribute {
    RawAttribute(t, |v| % 0x1_0000, v)
  }

  function PaddedLength(l: nat): (n: nat)
    ensures l <= n < l + 4 && n % 4 == 0
  {
    var n := PADDING * (l / PADDING);
    if n < l then n + PADDING else n
  }

  function Zeros(n: nat): (b: seq<byte>)
    ensures |b| == n && forall i :: 0 <= i < n ==> b[i] == 0
  {
    seq(n, i => 0)
  }

  function EncodeAttribute(a: RawAttribute): (b: seq<byte>)
    ensures |b| == ATTRIBUTE_HEADER_SIZE + PaddedLength(|a.value|)
  {
    PutUint16(a.atype) + PutUint16(a.length) + a.value + Zeros(PaddedLength(|a.value|) - |a.value|)
  }

  function Body(attrs: seq<RawAttribute>): (b: seq<byte>) {
    if attrs == [] then [] else Body(attrs[..|attrs| - 1]) + EncodeAttribute(attrs[|attrs| - 1])
  }

  function Header(t: MessageType, length: nat, id: TransactionID): (b: seq<byte>)
    ensures |b| == HEADER_SIZE
  {
    PutUint16(TypeValue(t)) + PutUint16(length) + MAGIC_COOKIE + id
  }

  /** The whole message: type, transaction id and attribute list determine every byte. */
  function Encode(t: MessageType, id: TransactionID, attrs: seq<RawAttribute>): (b: seq<byte>)
    ensures |b| == HEADER_SIZE + |Body(attrs)|
  {
    Header(t, |Body(attrs)|, id) + Body(attrs)
  }

  /** Figure 2 of RFC 5389, byte by byte. */
  lemma MessageLayout(t: MessageType, id: TransactionID, attrs: seq<RawAttribute>)
    ensures var v, n, e := TypeValue(t), |Body(attrs)|, Encode(t, id, attrs);
            e == [v / 256 % 256, v % 256, n / 256 % 256, n % 256, 0x21, 0x12, 0xA4, 0x42] + id + Body(attrs)
  {
    hide TypeValue, Body;
  }

  /** Figure 4 of RFC 5389: type, length, value, and zeros up to a multiple of four. */
  lemma AttributeLayout(t: uint16, v: seq<byte>)
    ensures var e := EncodeAttribute(MakeAttribute(t, v));
            |e| % 4 == 0 && |v| + 4 <= |e| < |v| + 8
            && e[..4] == [t / 256, t % 256, |v| / 256 % 256, |v| % 256] && e[4..4 + |v|] == v
            && forall k :: 4 + |v| <= k < |e| ==> e[k] == 0
  {
    hide PaddedLength, PutUint16, Zeros, EncodeAttribute;
    HeadIs(t, |v|);
    AttributeParts(MakeAttribute(t, v), PutUint16(t) + PutUint16(|v| % 0x1_0000));
  }

  lemma AttributeParts(a: RawAttribute, head: seq<byte>)
    requires head == PutUint16(a.atype) + PutUint16(a.length)
    ensures var e := EncodeAttribute(a);
            |e| % 4 == 0 && |a.value| + 4 <= |e| < |a.value| + 8 && e[..4] == head && e[4..4 + |a.value|] == a.value
            && forall k :: 4 + |a.value| <= k < |e| ==> e[k] == 0
  {
    hide PaddedLength, PutUint16, Zeros;
    ThreeParts(head, a.value, Zeros(PaddedLength(|a.value|) - |a.value|));
  }

  lemma HeadIs(t: uint16, n: nat)
    ensures PutUint16(t) + PutUint16(n % 0x1_0000) == [t / 256, t % 256, n / 256 % 256, n % 256]
  {
    hide PutUint16;
    PutIs(t);
    PutIs(n);
  }

  lemma ThreeParts(head: seq<byte>, v: seq<byte>, tail: seq<byte>)
    requires |head| == 4
    ensures var e := head + v + tail;
            e[..4] == head && e[4..4 + |v|] == v && forall k :: 4 + |v| <= k < |e| ==> e[k] == tail[k - 4 - |v|]
  {
  }

  lemma PutIs(n: nat)
    ensures PutUint16(n % 0x1_0000) == [n / 256 % 256, n % 256]
    ensures n < 0x1_0000 ==> PutUint16(n) == [n / 256, n % 256]
  {
    Remainders(n);
  }

  lemma Remainders(n: nat)
    ensures n % 0x1_0000 / 256 % 256 == n / 256 % 256 && n % 0x1_0000 % 256 == n % 256
  {
    var x := n / 256;
    DivisionIs(n, 0x1_0000, x / 256, 256 * (x % 256) + n % 256);
  }

  lemma {:induction false} BodyConcat(a: seq<RawAttribute>, b: seq<RawAttribute>)
    ensures Body(a + b) == Body(a) + Body(b)
  {
    hide Body, EncodeAttribute;
    EmptyBody();
    if b == [] {
      assert a + b == a;
    } else {
      var front, last := b[..|b| - 1], b[|b| - 1];
      BodyConcat(a, front);
      BodyOfMore(a + front, last);
      BodyOfMore(front, last);
      assert front + [last] == b && a + front + [last] == a + b;
    }
  }

  lemma BodyOfMore(attrs: seq<RawAttribute>, a: RawAttribute)
    ensures Body(attrs + [a]) == Body(attrs) + EncodeAttribute(a)
  {
    hide EncodeAttribute;
    assert (attrs + [a])[..|attrs|] == attrs;
  }

  lemma BodyOfOne(a: RawAttribute)
    ensures Body([a]) == EncodeAttribute(a)
  {
    assert [a][..0] == [];
  }

  lemma BodySplit(attrs: seq<RawAttribute>)
    requires attrs != []
    ensures Body(attrs) == EncodeAttribute(attrs[0]) + Body(attrs[1..])
  {
    BodyOfOne(attrs[0]);
    BodyConcat([attrs[0]], attrs[1..]);
    assert attrs == [attrs[0]] + attrs[1..];
  }

  datatype DecodeError =
    | FormatError
    | UnexpectedHeaderEOF
    | BadCookie
    | BufferTooShort
    | AttributeHeaderTooShort
    | AttributeValueTooShort

  /** The attribute loop of Decode, on what is left of the body. */
  function ParseAttributes(b: seq<byte>): Result<seq<RawAttribute>, DecodeError> {
    if b == [] then Success([])
    else if |b| < ATTRIBUTE_HEADER_SIZE then Failure(AttributeHeaderTooShort)
    else
      var l := Uint16(b[2..4]);
      var next := ATTRIBUTE_HEADER_SIZE + PaddedLength(l);
      if |b| < next then Failure(AttributeValueTooShort)
      else
        var a := RawAttribute(Uint16(b), l, b[ATTRIBUTE_HEADER_SIZE..ATTRIBUTE_HEADER_SIZE + l]);
        var rest :- ParseAttributes(b[next..]);
        Success([a] + rest)
  }

  datatype Decoded = Decoded(mtype: MessageType, length: uint16, id: TransactionID, attrs: seq<RawAttribute>)
                   | ChannelData

  /** Decode. Buffers that start with the bits 01 are taken for TURN channel data. */
  function ParseMessage(buf: seq<byte>): Result<Decoded, DecodeError>
    requires |buf| >= 1 && (buf[0] / 0x40 % 2 == 1 ==> |buf| >= 4)
  {
    if buf[0] / 0x40 % 2 == 1 then
      if (Uint16(buf[2..4]) + 4) % 0x1_0000 == |buf| then Success(ChannelData) else Failure(FormatError)
    else if buf[0] >= 0x40 then Failure(FormatError)
    else if |buf| < HEADER_SIZE then Failure(UnexpectedHeaderEOF)
    else if buf[4..8] != MAGIC_COOKIE then Failure(BadCookie)
    else
      var size := Uint16(buf[2..4]);
      if |buf| < HEADER_SIZE + size then Failure(BufferTooShort)
      else
        var attrs :- ParseAttributes(buf[HEADER_SIZE..HEADER_SIZE + size]);
        Success(Decoded(ReadType(Uint16(buf)), size, buf[8..HEADER_SIZE], attrs))
  }

  /** Attributes as Decode makes them and as Add makes them for values that fit. */
  predicate Fits(attrs: seq<RawAttribute>) {
    forall i :: 0 <= i < |attrs| ==> attrs[i].length == |attrs[i].value|
  }

  lemma EncodedAttributeParts(a: RawAttribute, rest: seq<byte>)
    ensures var b := EncodeAttribute(a) + rest;
            Uint16(b) == a.atype && Uint16(b[2..4]) == a.length && b[4..4 + |a.value|] == a.value
            && b[4 + PaddedLength(|a.value|)..] == rest
  {
    var b := EncodeAttribute(a) + rest;
    var tail := PutUint16(a.length) + a.value + Zeros(PaddedLength(|a.value|) - |a.value|) + rest;
    assert b == PutUint16(a.atype) + tail;
    Uint16OfPut(a.atype, tail);
    assert b[2..4] == PutUint16(a.length) + [];
    Uint16OfPut(a.length, []);
  }

  /** Decoding undoes encoding, attribute by attribute. */
  lemma {:induction false} ParseAttributesOfBody(attrs: seq<RawAttribute>)
    requires Fits(attrs)
    ensures ParseAttributes(Body(attrs)) == Success(attrs)
  {
    hide EncodeAttribute, Body, PutUint16, Uint16;
    if attrs == [] {
      assert Body(attrs) == [] by { EmptyBody(); }
    } else {
      BodySplit(attrs);
      EncodedAttributeParts(attrs[0], Body(attrs[1..]));
      ParseAttributesOfBody(attrs[1..]);
      assert attrs == [attrs[0]] + attrs[1..];
    }
  }

  lemma EmptyBody()
    ensures Body([]) == []
  {
  }

  /** What Decode reads from any buffer that starts with a header and a body. */
  lemma {:induction false} ParseOfHeader(t: MessageType, id: TransactionID, body: seq<byte>, trailing: seq<byte>)
    requires ProperType(t) && |body| < 0x1_0000
    ensures
      ParseMessage(Header(t, |body|, id) + body + trailing)
      == match ParseAttributes(body)
         case Success(attrs) => Success(Decoded(t, |body|, id, attrs))
         case Failure(e) => Failure(e)
  {
    hide ParseAttributes, TypeValue, ReadType;
    var buf := Header(t, |body|, id) + body + trailing;
    var v := TypeValue(t);
    TypeRoundTrip(t);
    assert buf == PutUint16(v) + (PutUint16(|body|) + MAGIC_COOKIE + id + body + trailing);
    Uint16OfPut(v, PutUint16(|body|) + MAGIC_COOKIE + id + body + trailing);
    assert buf[2..4] == PutUint16(|body|) + [];
    Uint16OfPut(|body|, []);
    assert buf[4..8] == MAGIC_COOKIE;
    assert buf[8..20] == id;
    assert buf[20..20 + |body|] == body;
    assert buf[0] == v / 0x100 % 0x100 < 0x40;
  }

  /** Decode undoes Build: same type, transaction id, length and attribute sequence, whatever
      follows the message in the buffer. */
  lemma DecodeOfEncode(t: MessageType, id: TransactionID, attrs: seq<RawAttribute>, trailing: seq<byte>)
    requires ProperType(t) && Fits(attrs) && |Body(attrs)| < 0x1_0000
    ensures ParseMessage(Encode(t, id, attrs) + trailing) == Success(Decoded(t, |Body(attrs)|, id, attrs))
  {
    hide ParseMessage, Header, Body;
    ParseOfHeader(t, id, Body(attrs), trailing);
    ParseAttributesOfBody(attrs);
  }

  // ----- every accepted buffer -----

  /** What is read behind attributes that were accepted. */
  lemma {:induction false} ParseContinues(p: seq<byte>, tail: seq<byte>)
    requires ParseAttributes(p).Success?
    ensures ParseAttributes(p + tail)
            == match ParseAttributes(tail)
               case Success(rest) => Success(ParseAttributes(p).value + rest)
               case Failure(e) => Failure(e)
    decreases |p|
  {
    hide PaddedLength, Uint16, ParseAttributes;
    if p == [] {
      assert p + tail == tail;
      EmptyCase();
      assert forall rest: seq<RawAttribute> :: [] + rest == rest;
    } else {
      ParseStep(p);
      var next := ATTRIBUTE_HEADER_SIZE + PaddedLength(Uint16(p[2..4]));
      ParseContinues(p[next..], tail);
      assert (p + tail)[next..] == p[next..] + tail && (p + tail)[2..4] == p[2..4];
      assert Uint16(p + tail) == Uint16(p) by { Uint16OfFront(p, tail); }
      ParseRound(p + tail);
      ParseRound(p);
      assert (p + tail)[4..4 + Uint16(p[2..4])] == p[4..4 + Uint16(p[2..4])];
      if ParseAttributes(tail).Success? {
        var first, rest := ParseAttributes(p).value[0], ParseAttributes(p[next..]).value;
        assert [first] + (rest + ParseAttributes(tail).value) == [first] + rest + ParseAttributes(tail).value;
      }
    }
  }

  lemma Uint16OfFront(b: seq<byte>, rest: seq<byte>)
    requires |b| >= 2
    ensures Uint16(b + rest) == Uint16(b)
  {
  }

  /** One round on any bytes that hold an attribute. */
  lemma ParseRound(b: seq<byte>)
    requires |b| >= ATTRIBUTE_HEADER_SIZE && |b| >= ATTRIBUTE_HEADER_SIZE + PaddedLength(Uint16(b[2..4]))
    ensures var l := Uint16(b[2..4]);
            ParseAttributes(b)
            == match ParseAttributes(b[ATTRIBUTE_HEADER_SIZE + PaddedLength(l)..])
               case Success(rest) =>
                 Success([RawAttribute(Uint16(b), l, b[ATTRIBUTE_HEADER_SIZE..ATTRIBUTE_HEADER_SIZE + l])] + rest)
               case Failure(e) => Failure(e)
  {
    hide PaddedLength, Uint16;
  }

  /** Where reading stops with an error: fewer than four bytes are left, or fewer than the length in
      the third and fourth byte says, padded. */
  lemma ParseRefuses(p: seq<byte>, tail: seq<byte>)
    requires ParseAttributes(p).Success? && tail != []
    ensures |tail| < 4 ==> ParseAttributes(p + tail) == Failure(AttributeHeaderTooShort)
    ensures |tail| >= 4 && |tail| < 4 + PaddedLength(256 * (tail[2] as int) + tail[3]) ==>
              ParseAttributes(p + tail) == Failure(AttributeValueTooShort)
  {
    hide ParseAttributes, PaddedLength;
    ParseContinues(p, tail);
    TooShort(tail);
  }

  lemma TooShort(b: seq<byte>)
    requires b != []
    ensures |b| < 4 ==> ParseAttributes(b) == Failure(AttributeHeaderTooShort)
    ensures |b| >= 4 && |b| < 4 + PaddedLength(256 * (b[2] as int) + b[3]) ==>
              ParseAttributes(b) == Failure(AttributeValueTooShort)
  {
    hide PaddedLength;
  }

  /** The exact condition under which a body is read as a list of attributes: they tile it, and their
      encoding is the body but for its padding. */
  lemma BodyReadsAsIff(b: seq<byte>, attrs: seq<RawAttribute>)
    ensures ParseAttributes(b) == Success(attrs)
            <==> Fits(attrs) && TiledSize(attrs) == |b| && Body(attrs) == ZeroPadding(b, attrs)
  {
    hide ParseAttributes, Fits, TiledSize, Body, ZeroPadding;
    if ParseAttributes(b).Success? {
      ParsedAttributesTile(b);
    }
    if Fits(attrs) && TiledSize(attrs) == |b| && Body(attrs) == ZeroPadding(b, attrs) {
      TilingIsRead(b, attrs);
    }
  }

  lemma {:induction false} TilingIsRead(b: seq<byte>, attrs: seq<RawAttribute>)
    requires Fits(attrs) && TiledSize(attrs) == |b| && Body(attrs) == ZeroPadding(b, attrs)
    ensures ParseAttributes(b) == Success(attrs)
    decreases |attrs|
  {
    hide ParseAttributes, TiledSize, Body, ZeroPadding, PaddedLength, EncodeAttribute, Uint16;
    if attrs == [] {
      EmptyTiling();
    } else {
      var a := attrs[0];
      TiledSizeStep(attrs);
      ZeroPaddingStep(b, attrs);
      BodySplit(attrs);
      FirstTile(b, a, Body(attrs[1..]), ZeroPadding(b[ATTRIBUTE_HEADER_SIZE + PaddedLength(a.length)..], attrs[1..]));
      TilingIsRead(b[ATTRIBUTE_HEADER_SIZE + PaddedLength(a.length)..], attrs[1..]);
      ParseRound(b);
      assert attrs == [a] + attrs[1..];
    }
  }

  lemma EmptyTiling()
    ensures TiledSize([]) == 0 && ParseAttributes([]) == Success([])
  {
  }

  /** The first tile of the bytes, from what its encoding is. */
  lemma FirstTile(b: seq<byte>, a: RawAttribute, rest: seq<byte>, padded: seq<byte>)
    requires a.length == |a.value| && |b| >= ATTRIBUTE_HEADER_SIZE + PaddedLength(a.length)
    requires var used := ATTRIBUTE_HEADER_SIZE + a.length;
             EncodeAttribute(a) + rest
             == b[..used] + Zeros(ATTRIBUTE_HEADER_SIZE + PaddedLength(a.length) - used) + padded
    ensures Uint16(b) == a.atype && Uint16(b[2..4]) == a.length
    ensures b[ATTRIBUTE_HEADER_SIZE..ATTRIBUTE_HEADER_SIZE + a.length] == a.value && rest == padded
  {
    hide PaddedLength, Uint16;
    var e := EncodeAttribute(a);
    EncodedAttributeParts(a, rest);
    var used := ATTRIBUTE_HEADER_SIZE + a.length;
    var c := b[..used] + Zeros(ATTRIBUTE_HEADER_SIZE + PaddedLength(a.length) - used) + padded;
    assert c[..used] == b[..used];
    assert b == b[..used] + b[used..];
    assert c == b[..used] + c[used..];
    Uint16OfFront(b[..used], b[used..]);
    Uint16OfFront(b[..used], c[used..]);
    assert b[2..4] == b[..used][2..4] == c[2..4];
    assert c[4..used] == b[4..used];
  }

  /** The whole decision on a received buffer, in the order the source takes it. */
  lemma MessageReadsAs(buf: seq<byte>)
    requires |buf| >= 1 && (buf[0] / 64 % 2 == 1 ==> |buf| >= 4)
    ensures var r := ParseMessage(buf);
      if buf[0] / 64 % 2 == 1 then
        r == if (256 * (buf[2] as int) + buf[3] + 4) % 65536 == |buf| then Success(ChannelData)
             else Failure(FormatError)
      else if buf[0] >= 128 then r == Failure(FormatError)
      else if |buf| < 20 then r == Failure(UnexpectedHeaderEOF)
      else if buf[4..8] != [0x21, 0x12, 0xA4, 0x42] then r == Failure(BadCookie)
      else
        var size := 256 * (buf[2] as int) + buf[3];
        if |buf| < 20 + size then r == Failure(BufferTooShort)
        else match ParseAttributes(buf[20..20 + size])
             case Failure(e) => r == Failure(e)
             case Success(attrs) =>
               r.Success? && r.value.Decoded? && r.value.attrs == attrs && r.value.length == size
               && r.value.id == buf[8..20] && TypeValue(r.value.mtype) == 256 * (buf[0] as int) + buf[1]
               && ProperType(r.value.mtype)
  {
    hide ParseAttributes, TypeValue, ReadType;
    if |buf| >= 20 && buf[0] < 64 {
      TypeRoundTripBack(Uint16(buf));
    }
  }

  function TiledSize(attrs: seq<RawAttribute>): nat {
    if attrs == [] then 0 else ATTRIBUTE_HEADER_SIZE + PaddedLength(attrs[0].length) + TiledSize(attrs[1..])
  }

  /** The body with the bytes that the attributes leave as padding set to zero. */
  function ZeroPadding(b: seq<byte>, attrs: seq<RawAttribute>): seq<byte> {
    if attrs == [] then b
    else
      var used := ATTRIBUTE_HEADER_SIZE + attrs[0].length;
      var next := ATTRIBUTE_HEADER_SIZE + PaddedLength(attrs[0].length);
      if |b| < next then b else b[..used] + Zeros(next - used) + ZeroPadding(b[next..], attrs[1..])
  }

  /** The attributes of an accepted body tile it exactly, and encoding them again gives the body
      back but for its padding. */
  lemma {:induction false} ParsedAttributesTile(b: seq<byte>)
    requires ParseAttributes(b).Success?
    ensures
      var attrs := ParseAttributes(b).value;
      Fits(attrs) && TiledSize(attrs) == |b| && |b| % 4 == 0 && Body(attrs) == ZeroPadding(b, attrs)
      && |Body(attrs)| == |b|
  {
    hide Body, EncodeAttribute, PutUint16, Uint16, Fits, TiledSize, ZeroPadding, PaddedLength, Zeros, ParseAttributes;
    if b == [] {
      EmptyCase();
    } else {
      ParseStep(b);
      var l := Uint16(b[2..4]);
      var next := ATTRIBUTE_HEADER_SIZE + PaddedLength(l);
      ParsedAttributesTile(b[next..]);
      TileStep(b, l, ParseAttributes(b).value);
    }
  }

  lemma ParseStep(b: seq<byte>)
    requires b != [] && ParseAttributes(b).Success?
    ensures
      |b| >= ATTRIBUTE_HEADER_SIZE &&
      var l := Uint16(b[2..4]);
      var next := ATTRIBUTE_HEADER_SIZE + PaddedLength(l);
      && |b| >= next && ParseAttributes(b[next..]).Success?
      && ParseAttributes(b).value
         == [RawAttribute(Uint16(b), l, b[ATTRIBUTE_HEADER_SIZE..ATTRIBUTE_HEADER_SIZE + l])]
            + ParseAttributes(b[next..]).value
  {
    hide PaddedLength, Uint16;
    assert |b| >= ATTRIBUTE_HEADER_SIZE;
    var next := ATTRIBUTE_HEADER_SIZE + PaddedLength(Uint16(b[2..4]));
    assert |b| >= next;
    assert ParseAttributes(b[next..]).Success?;
  }

  lemma TileStep(b: seq<byte>, l: uint16, attrs: seq<RawAttribute>)
    requires |b| >= ATTRIBUTE_HEADER_SIZE && l == Uint16(b[2..4])
    requires |b| >= ATTRIBUTE_HEADER_SIZE + PaddedLength(l)
    requires attrs != []
    requires attrs[0] == RawAttribute(Uint16(b), l, b[ATTRIBUTE_HEADER_SIZE..ATTRIBUTE_HEADER_SIZE + l])
    requires
      var rest := b[ATTRIBUTE_HEADER_SIZE + PaddedLength(l)..];
      Fits(attrs[1..]) && TiledSize(attrs[1..]) == |rest| && |rest| % 4 == 0
          && Body(attrs[1..]) == ZeroPadding(rest, attrs[1..])
      && |Body(attrs[1..])| == |rest|
    ensures
      Fits(attrs) && TiledSize(attrs) == |b| && |b| % 4 == 0 && Body(attrs) == ZeroPadding(b, attrs)
      && |Body(attrs)| == |b|
  {
    hide Body, EncodeAttribute, PutUint16, Uint16, Fits, TiledSize, ZeroPadding, PaddedLength, Zeros;
    BodySplit(attrs);
    ReencodedAttribute(b, l);
    FitsStep(attrs);
    TiledSizeStep(attrs);
    ZeroPaddingStep(b, attrs);
  }

  lemma EmptyCase()
    ensures ParseAttributes([]) == Success([])
    ensures Fits([]) && TiledSize([]) == 0 && Body([]) == [] && ZeroPadding([], []) == []
  {
  }

  lemma FitsStep(attrs: seq<RawAttribute>)
    requires attrs != [] && attrs[0].length == |attrs[0].value| && Fits(attrs[1..])
    ensures Fits(attrs)
  {
    forall i | 0 <= i < |attrs|
      ensures attrs[i].length == |attrs[i].value|
    {
      if i > 0 {
        assert attrs[i] == attrs[1..][i - 1];
      }
    }
  }

  lemma ZeroPaddingStep(b: seq<byte>, attrs: seq<RawAttribute>)
    requires attrs != [] && |b| >= ATTRIBUTE_HEADER_SIZE + PaddedLength(attrs[0].length)
    ensures var used := ATTRIBUTE_HEADER_SIZE + attrs[0].length;
            var next := ATTRIBUTE_HEADER_SIZE + PaddedLength(attrs[0].length);
            ZeroPadding(b, attrs) == b[..used] + Zeros(next - used) + ZeroPadding(b[next..], attrs[1..])
  {
  }

  lemma TiledSizeStep(attrs: seq<RawAttribute>)
    requires attrs != []
    ensures TiledSize(attrs) == ATTRIBUTE_HEADER_SIZE + PaddedLength(attrs[0].length) + TiledSize(attrs[1..])
  {
  }

  lemma ReencodedAttribute(b: seq<byte>, l: uint16)
    requires |b| >= 4 && l == Uint16(b[2..4]) && |b| >= 4 + PaddedLength(l)
    ensures EncodeAttribute(RawAttribute(Uint16(b), l, b[4..4 + l])) == b[..4 + l] + Zeros(PaddedLength(l) - l)
  {
    PutOfUint16(b);
    PutOfUint16(b[2..4]);
    assert b[2..4][..2] == b[2..4];
    assert b[..4 + l] == b[..2] + b[2..4] + b[4..4 + l];
  }

  /** For every accepted buffer that is not channel data: its length field is a multiple of four and
      the tiled size of its attributes, the encoding of what was decoded is the buffer but for
      padding and what follows the message, and decoding that encoding changes nothing. */
  lemma DecodedIsFixedPoint(buf: seq<byte>)
    requires |buf| >= 1 && (buf[0] / 0x40 % 2 == 1 ==> |buf| >= 4)
    ensures
      ParseMessage(buf).Success? && ParseMessage(buf).value.Decoded? ==>
        var m := ParseMessage(buf).value;
        m.length % 4 == 0 && m.length == TiledSize(m.attrs) && HEADER_SIZE + m.length <= |buf|
        && Encode(m.mtype, m.id, m.attrs)
           == buf[..HEADER_SIZE] + ZeroPadding(buf[HEADER_SIZE..HEADER_SIZE + m.length], m.attrs)
        && Encode(m.mtype, m.id, m.attrs)[0] < 0x40
        && ParseMessage(Encode(m.mtype, m.id, m.attrs)) == Success(m)
  {
    if ParseMessage(buf).Success? && ParseMessage(buf).value.Decoded? {
      AcceptedIsFixedPoint(buf);
    }
  }

  lemma HeaderSlices(buf: seq<byte>)
    requires |buf| >= HEADER_SIZE
    ensures buf[..HEADER_SIZE] == buf[..2] + buf[2..4] + buf[4..8] + buf[8..HEADER_SIZE]
  {
  }

  lemma AcceptedIsFixedPoint(buf: seq<byte>)
    requires |buf| >= 1 && (buf[0] / 0x40 % 2 == 1 ==> |buf| >= 4)
    requires ParseMessage(buf).Success? && ParseMessage(buf).value.Decoded?
    ensures
      var m := ParseMessage(buf).value;
      m.length % 4 == 0 && m.length == TiledSize(m.attrs) && HEADER_SIZE + m.length <= |buf|
      && Encode(m.mtype, m.id, m.attrs)
         == buf[..HEADER_SIZE] + ZeroPadding(buf[HEADER_SIZE..HEADER_SIZE + m.length], m.attrs)
      && Encode(m.mtype, m.id, m.attrs)[0] < 0x40
      && ParseMessage(Encode(m.mtype, m.id, m.attrs)) == Success(m)
  {
    hide ParseAttributes, Body, TypeValue, ReadType, ZeroPadding, TiledSize;
    var m := ParseMessage(buf).value;
    var body := buf[HEADER_SIZE..HEADER_SIZE + m.length];
    ParsedAttributesTile(body);
    var v := Uint16(buf);
    assert v < 0x4000;
    TypeRoundTripBack(v);
    PutOfUint16(buf);
    PutOfUint16(buf[2..4]);
    assert buf[2..4][..2] == buf[2..4];
    HeaderSlices(buf);
    DecodeOfEncode(m.mtype, m.id, m.attrs, []);
    var e := Encode(m.mtype, m.id, m.attrs);
    assert e + [] == e;
  }
}
