/** STUN messages built and decoded in a reused buffer (stun/message.go). */
module StunMessage {
  import opened Wrappers
  import opened Bytes
  import opened StunWire

  const UINT32_LIMIT := 0x1_0000_0000
  const METHOD_CHANNEL_DATA: uint16 := 0x4000
  const CLASS_SUCCESS_RESPONSE: byte := 2

  /** A buffer with its length field rewritten. */
  function WithLength(raw: seq<byte>, length: nat): (r: seq<byte>)
    requires |raw| >= 4
    ensures |r| == |raw|
  {
    raw[..2] + PutUint16(length) + raw[4..]
  }

  /** The buffer after an attribute is put behind the body of the given length. */
  function AfterAdd(raw: seq<byte>, length: nat, a: RawAttribute): (r: seq<byte>)
    requires |raw| >= HEADER_SIZE + length
  {
    WithLength(raw[..HEADER_SIZE + length] + EncodeAttribute(a), length + |EncodeAttribute(a)|)
  }

  lemma HeaderWithLength(t: MessageType, n: nat, id: TransactionID, rest: seq<byte>, m: nat)
    ensures WithLength(Header(t, n, id) + rest, m) == Header(t, m, id) + rest
  {
    hide TypeValue, PutUint16;
    assert (Header(t, n, id) + rest)[..2] == PutUint16(TypeValue(t));
    assert (Header(t, n, id) + rest)[4..] == MAGIC_COOKIE + id + rest;
  }

  /** Adding behind an encoding gives the encoding of the longer attribute list. */
  lemma AddKeepsEncoding(t: MessageType, id: TransactionID, attrs: seq<RawAttribute>, a: RawAttribute)
    ensures AfterAdd(Encode(t, id, attrs), |Body(attrs)|, a) == Encode(t, id, attrs + [a])
    ensures |Body(attrs + [a])| == |Body(attrs)| + |EncodeAttribute(a)|
  {
    hide Body, Header, EncodeAttribute, WithLength;
    BodyOfMore(attrs, a);
    var e, n := EncodeAttribute(a), |Body(attrs)|;
    assert Encode(t, id, attrs)[..HEADER_SIZE + n] == Encode(t, id, attrs);
    assert Encode(t, id, attrs) + e == Header(t, n, id) + (Body(attrs) + e);
    HeaderWithLength(t, n, id, Body(attrs) + e, n + |e|);
  }

  /** What Decode leaves in the attribute list, also when it stops at an error. */
  function ParsedAttributes(b: seq<byte>): seq<RawAttribute> {
    if |b| < ATTRIBUTE_HEADER_SIZE then []
    else
      var l := Uint16(b[2..4]);
      var next := ATTRIBUTE_HEADER_SIZE + PaddedLength(l);
      if |b| < next then []
      else
        [RawAttribute(Uint16(b), l, b[ATTRIBUTE_HEADER_SIZE..ATTRIBUTE_HEADER_SIZE + l])]
        + ParsedAttributes(b[next..])
  }

  predicate Decodable(buf: seq<byte>) {
    |buf| >= 1 && (buf[0] / 0x40 % 2 == 1 ==> |buf| >= 4)
  }

  predicate HeaderAccepted(buf: seq<byte>) {
    |buf| >= HEADER_SIZE && buf[0] < 0x40 && buf[4..8] == MAGIC_COOKIE
    && |buf| >= HEADER_SIZE + Uint16(buf[2..4])
  }

  /** A slice of the buffer starts at its first byte, so it is known by its length; the capacity is
      that of the buffer. */
  class Message {
    var raw: array<byte>
    var rawLen: nat
    var mtype: MessageType
    var length: nat
    var transactionID: TransactionID
    var attributes: seq<RawAttribute>

    ghost predicate Valid()
      reads this
    {
      rawLen <= raw.Length && length < UINT32_LIMIT
    }

    ghost function Raw(): (s: seq<byte>)
      requires Valid()
      reads this, raw
      ensures |s| == rawLen
    {
      raw[..rawLen]
    }

    /** The buffer holds exactly the encoding of type, transaction id and attributes. */
    ghost predicate Built()
      reads this, raw
    {
      Valid() && Raw() == Encode(mtype, transactionID, attributes) && length == |Body(attributes)|
    }

    constructor (capacity: nat)
      ensures Valid() && fresh(raw) && rawLen == 0 && length == 0 && attributes == []
    {
      raw := new byte[capacity];
      rawLen := 0;
      length := 0;
      attributes := [];
      mtype := MessageType(0, 0);
      transactionID := seq(12, i => 0);
    }

    /** Appending one zero byte: in place if there is room, else in a larger copy of any size. */
    method AppendZero()
      requires Valid()
      modifies this`raw, this`rawLen, raw
      ensures Valid() && (raw == old(raw) || fresh(raw))
      ensures Raw() == old(Raw()) + [0]
      ensures if old(rawLen < raw.Length) then raw == old(raw) else raw.Length > old(raw.Length)
    {
      if rawLen == raw.Length {
        var c: nat :| c > rawLen;
        var larger := new byte[c];
        forall i | 0 <= i < rawLen {
          larger[i] := raw[i];
        }
        assert larger[..rawLen] == raw[..rawLen];
        raw := larger;
      }
      raw[rawLen] := 0;
      rawLen := rawLen + 1;
    }

    /** Makes the slice longer by v bytes whose contents are whatever the buffer held there. */
    method Grow(v: nat)
      requires Valid()
      modifies this`raw, this`rawLen, raw
      ensures Valid() && (raw == old(raw) || fresh(raw))
      ensures rawLen == old(rawLen) + v && Raw()[..old(rawLen)] == old(Raw())
    {
      var n := rawLen + v;
      while raw.Length < n
        invariant Valid() && (raw == old(raw) || fresh(raw))
        invariant old(rawLen) <= rawLen && Raw()[..old(rawLen)] == old(Raw())
        decreases n - raw.Length, raw.Length - rawLen
      {
        AppendZero();
      }
      assert raw[..n][..old(rawLen)] == raw[..rawLen][..old(rawLen)];
      rawLen := n;
    }

    method Put(at: nat, bs: seq<byte>)
      requires Valid() && at + |bs| <= rawLen
      modifies raw
      ensures Raw() == old(Raw())[..at] + bs + old(Raw())[at + |bs|..]
      ensures raw[rawLen..] == old(raw[rawLen..])
    {
      forall i | 0 <= i < |bs| {
        raw[at + i] := bs[i];
      }
    }

    /** Writes the length field; valid only if the slice holds more than four bytes. */
    method WriteLength()
      requires Valid() && rawLen > 4
      modifies raw
      ensures Raw() == WithLength(old(Raw()), length) && raw[rawLen..] == old(raw[rawLen..])
    {
      Put(2, PutUint16(length));
    }

    method WriteType()
      requires Valid() && rawLen >= 2
      modifies raw
      ensures Raw() == PutUint16(TypeValue(mtype)) + old(Raw())[2..]
    {
      Put(0, PutUint16(TypeValue(mtype)));
    }

    method WriteTransactionID()
      requires Valid() && rawLen >= HEADER_SIZE
      modifies raw
      ensures Raw() == old(Raw())[..8] + transactionID + old(Raw())[HEADER_SIZE..]
    {
      Put(8, transactionID);
    }

    method Reset()
      requires Valid()
      modifies this`rawLen, this`length, this`attributes
      ensures Valid() && rawLen == 0 && length == 0 && attributes == []
    {
      rawLen := 0;
      length := 0;
      attributes := [];
    }

    method WriteHeader()
      requires Valid()
      modifies this`raw, this`rawLen, raw
      ensures Valid() && (raw == old(raw) || fresh(raw))
      ensures rawLen == (if old(rawLen) < HEADER_SIZE then old(rawLen) + HEADER_SIZE else old(rawLen))
      ensures Raw()[..HEADER_SIZE] == Header(mtype, length, transactionID)
      ensures old(rawLen) >= HEADER_SIZE ==> Raw()[HEADER_SIZE..] == old(Raw())[HEADER_SIZE..]
    {
      hide PutUint16, TypeValue;
      if rawLen < HEADER_SIZE {
        Grow(HEADER_SIZE);
      }
      ghost var tail := Raw()[HEADER_SIZE..];
      WriteType();
      assert Raw()[HEADER_SIZE..] == tail;
      WriteLength();
      assert Raw()[HEADER_SIZE..] == tail;
      Put(4, MAGIC_COOKIE);
      assert Raw()[HEADER_SIZE..] == tail;
      WriteTransactionID();
    }

    /** Type, length and value of an attribute into the space allocated at the end of the slice. */
    method PutAttribute(first: nat, a: RawAttribute)
      requires Valid() && rawLen == first + ATTRIBUTE_HEADER_SIZE + |a.value|
      modifies raw
      ensures Raw() == old(Raw())[..first] + PutUint16(a.atype) + PutUint16(a.length) + a.value
    {
      hide PutUint16;
      Put(first, PutUint16(a.atype));
      Put(first + 2, PutUint16(a.length));
      Put(first + ATTRIBUTE_HEADER_SIZE, a.value);
    }

    /** Allocates the space for an attribute, which may grow the slice too far first, and fills it. */
    method Allocate(first: nat, a: RawAttribute)
      requires Valid() && first <= rawLen
      modifies this`raw, this`rawLen, raw
      ensures Valid() && (raw == old(raw) || fresh(raw))
      ensures Raw() == old(Raw())[..first] + PutUint16(a.atype) + PutUint16(a.length) + a.value
    {
      hide PutUint16;
      var last := first + ATTRIBUTE_HEADER_SIZE + |a.value|;
      Grow(last);
      rawLen := last;
      assert Raw()[..first] == old(Raw())[..first];
      PutAttribute(first, a);
    }

    /** Extends the slice, which may grow too far first, to the given end with zero bytes. */
    method Pad(last: nat, bytesToAdd: nat)
      requires Valid() && last == rawLen + bytesToAdd
      modifies this`raw, this`rawLen, raw
      ensures Valid() && (raw == old(raw) || fresh(raw))
      ensures Raw() == old(Raw()) + Zeros(bytesToAdd)
    {
      hide Zeros;
      Grow(last);
      rawLen := last;
      assert Raw()[..last - bytesToAdd] == old(Raw());
      Put(last - bytesToAdd, Zeros(bytesToAdd));
    }

    /** The padding of a value of n bytes. The source tests the 16-bit length and pads the real one. */
    method AddPadding(n: nat)
      requires Valid() && length + PADDING < UINT32_LIMIT
      modifies this`raw, this`rawLen, this`length, raw
      ensures Valid() && (raw == old(raw) || fresh(raw))
      ensures Raw() == old(Raw()) + Zeros(PaddedLength(n) - n)
      ensures length == old(length) + PaddedLength(n) - n
    {
      hide Zeros, PaddedLength;
      PaddingNeeded(n);
      if n % 0x1_0000 % PADDING != 0 {
        var bytesToAdd := PaddedLength(n) - n;
        Pad(rawLen + bytesToAdd, bytesToAdd);
        length := length + bytesToAdd;
      }
    }

    /** Puts an attribute behind the body. Whatever the buffer held there before is overwritten. */
    method Add(t: uint16, v: seq<byte>)
      requires Valid() && rawLen >= HEADER_SIZE + length
      requires HEADER_SIZE + length + ATTRIBUTE_HEADER_SIZE + |v| + PADDING < UINT32_LIMIT
      modifies this`raw, this`rawLen, this`length, this`attributes, raw
      ensures Valid() && (raw == old(raw) || fresh(raw))
      ensures attributes == old(attributes) + [MakeAttribute(t, v)]
      ensures length == old(length) + |EncodeAttribute(MakeAttribute(t, v))|
      ensures Raw() == AfterAdd(old(Raw()), old(length), MakeAttribute(t, v))
    {
      hide PutUint16, Zeros, PaddedLength, WithLength, EncodeAttribute, AfterAdd;
      var first, attr := HEADER_SIZE + length, MakeAttribute(t, v);
      Allocate(first, attr);
      length := length + ATTRIBUTE_HEADER_SIZE + |v|;
      AddPadding(|v|);
      EncodingAfter(old(Raw())[..first], attr);
      attributes := attributes + [attr];
      WriteLength();
      AfterAddParts(old(Raw()), old(length), attr);
    }

    /** The attribute loop reads the body by repeated slicing. */
    method DecodeAttributes(body: seq<byte>) returns (err: Option<DecodeError>)
      modifies this`attributes
      ensures attributes == ParsedAttributes(body)
      ensures err == match ParseAttributes(body) case Success(_) => None case Failure(e) => Some(e)
      ensures err.None? ==> ParseAttributes(body) == Success(attributes)
    {
      hide Uint16, PaddedLength, ParseAttributes, ParsedAttributes;
      attributes := [];
      var offset := 0;
      var b := body;
      assert forall rest: seq<RawAttribute> :: [] + rest == rest;
      while offset < |body|
        invariant 0 <= offset && offset + |b| == |body|
        invariant attributes + ParsedAttributes(b) == ParsedAttributes(body)
        invariant ParseAttributes(body)
                  == match ParseAttributes(b)
                     case Success(rest) => Success(attributes + rest)
                     case Failure(e) => Failure(e)
      {
        ghost var bOld, done := b, attributes;
        ParsedBefore(bOld);
        if |b| < ATTRIBUTE_HEADER_SIZE {
          return Some(AttributeHeaderTooShort);
        }
        var t, aL := Uint16(b), Uint16(b[2..4]);
        var aBuffL := PaddedLength(aL);
        b := b[ATTRIBUTE_HEADER_SIZE..];
        offset := offset + ATTRIBUTE_HEADER_SIZE;
        if |b| < aBuffL {
          return Some(AttributeValueTooShort);
        }
        var a := RawAttribute(t, aL, b[..aL]);
        offset := offset + aBuffL;
        b := b[aBuffL..];
        assert a.value == bOld[ATTRIBUTE_HEADER_SIZE..ATTRIBUTE_HEADER_SIZE + aL];
        assert b == bOld[ATTRIBUTE_HEADER_SIZE + aBuffL..];
        attributes := attributes + [a];
        Reassociate(done, a, ParsedAttributes(b));
        if ParseAttributes(b).Success? {
          Reassociate(done, a, ParseAttributes(b).value);
        }
      }
      NothingLeft(attributes);
      err := None;
    }

    /** Reads the slice into the other fields. An error in the header leaves them as they were, an
        error in the body leaves the attributes read before it. */
    method Decode() returns (err: Option<DecodeError>)
      requires Valid() && Decodable(Raw())
      modifies this`mtype, this`length, this`transactionID, this`attributes
      ensures Valid()
      ensures err == match ParseMessage(Raw()) case Success(_) => None case Failure(e) => Some(e)
      ensures match ParseMessage(Raw())
              case Success(Decoded(t, l, id, attrs)) =>
                mtype == t && length == l && transactionID == id && attributes == attrs
              case Success(ChannelData) =>
                mtype == MessageType(0x4000, 2)
                && length == old(length) && transactionID == old(transactionID) && attributes == old(attributes)
              case Failure(_) =>
                if HeaderAccepted(Raw()) then
                  mtype == ReadType(Uint16(Raw())) && length == Uint16(Raw()[2..4])
                  && transactionID == Raw()[8..HEADER_SIZE]
                  && attributes == ParsedAttributes(Raw()[HEADER_SIZE..HEADER_SIZE + length])
                else
                  mtype == old(mtype) && length == old(length)
                  && transactionID == old(transactionID) && attributes == old(attributes)
    {
      hide Uint16, ReadType, ParseAttributes, ParsedAttributes;
      var buf := raw[..rawLen];
      var firstByte := buf[0];
      if firstByte / 0x40 % 2 == 1 {
        var n: int := Uint16(buf[2..4]);
        if (n + 4) % 0x1_0000 == |buf| {
          mtype := MessageType(METHOD_CHANNEL_DATA, CLASS_SUCCESS_RESPONSE);
          return None;
        }
        return Some(FormatError);
      }
      if firstByte / 0x40 != 0 {
        return Some(FormatError);
      }
      if |buf| < HEADER_SIZE {
        return Some(UnexpectedHeaderEOF);
      }
      var t, size := Uint16(buf[0..2]), Uint16(buf[2..4]);
      assert t == Uint16(buf) by { Uint16OfPrefix(buf); }
      var fullSize := HEADER_SIZE + size;
      if buf[4..8] != MAGIC_COOKIE {
        return Some(BadCookie);
      }
      if |buf| < fullSize {
        return Some(BufferTooShort);
      }
      mtype := ReadType(t);
      length := size;
      transactionID := buf[8..HEADER_SIZE];
      err := DecodeAttributes(buf[HEADER_SIZE..fullSize]);
    }

    /** Copies a received buffer into the message and decodes it. */
    method Write(tBuf: seq<byte>) returns (n: nat, err: Option<DecodeError>)
      requires Valid() && Decodable(tBuf)
      modifies this, raw
      ensures Valid() && (raw == old(raw) || fresh(raw))
      ensures n == |tBuf| && Raw() == tBuf
      ensures err == match ParseMessage(tBuf) case Success(_) => None case Failure(e) => Some(e)
      ensures match ParseMessage(tBuf)
              case Success(Decoded(t, l, id, attrs)) =>
                mtype == t && length == l && transactionID == id && attributes == attrs
              case _ => true
    {
      hide ParseMessage, Uint16, ReadType, ParsedAttributes, HeaderAccepted;
      if raw.Length < |tBuf| {
        var c: nat :| c >= |tBuf|;
        raw := new byte[c];
      }
      rawLen := |tBuf|;
      Put(0, tBuf);
      n := |tBuf|;
      err := Decode();
    }
  }

  /** An error in the body leaves exactly the attributes in front of it. */
  lemma {:induction false} ReadBeforeError(p: seq<byte>, tail: seq<byte>)
    requires ParseAttributes(p).Success?
    requires tail != [] && (|tail| >= 4 ==> |tail| < 4 + PaddedLength(256 * (tail[2] as int) + tail[3]))
    ensures ParsedAttributes(p + tail) == ParseAttributes(p).value
    decreases |p|
  {
    hide PaddedLength, Uint16, ParseAttributes, ParsedAttributes;
    ParsedBefore(p + tail);
    if p == [] {
      assert p + tail == tail;
      NothingLeft([]);
      Uint16IsBigEndian(tail);
    } else {
      ParseStep(p);
      var next := ATTRIBUTE_HEADER_SIZE + PaddedLength(Uint16(p[2..4]));
      assert (p + tail)[next..] == p[next..] + tail && (p + tail)[2..4] == p[2..4];
      assert (p + tail)[4..4 + Uint16(p[2..4])] == p[4..4 + Uint16(p[2..4])];
      Uint16OfFront(p, tail);
      ReadBeforeError(p[next..], tail);
    }
  }

  lemma Uint16IsBigEndian(b: seq<byte>)
    ensures |b| >= 4 ==> Uint16(b[2..4]) == 256 * (b[2] as int) + b[3]
  {
  }

  lemma EncodingAfter(before: seq<byte>, a: RawAttribute)
    ensures before + PutUint16(a.atype) + PutUint16(a.length) + a.value + Zeros(PaddedLength(|a.value|) - |a.value|)
            == before + EncodeAttribute(a)
  {
  }

  lemma AfterAddParts(raw: seq<byte>, length: nat, a: RawAttribute)
    requires |raw| >= HEADER_SIZE + length
    ensures AfterAdd(raw, length, a)
            == WithLength(raw[..HEADER_SIZE + length] + EncodeAttribute(a), length + |EncodeAttribute(a)|)
  {
  }

  lemma PaddingNeeded(n: nat)
    ensures n % 0x1_0000 % PADDING != 0 <==> PaddedLength(n) != n
    ensures PaddedLength(n) == n ==> Zeros(PaddedLength(n) - n) == []
  {
    assert n % 0x1_0000 % 4 == n % 4;
  }

  lemma Reassociate(done: seq<RawAttribute>, a: RawAttribute, rest: seq<RawAttribute>)
    ensures done + ([a] + rest) == done + [a] + rest
  {
  }

  lemma NothingLeft(done: seq<RawAttribute>)
    ensures ParsedAttributes([]) == [] && ParseAttributes([]) == Success([]) && done + [] == done
  {
  }

  /** One round of the two parsing functions. */
  lemma ParsedBefore(b: seq<byte>)
    requires b != []
    ensures
      if |b| < ATTRIBUTE_HEADER_SIZE then
        ParsedAttributes(b) == [] && ParseAttributes(b) == Failure(AttributeHeaderTooShort)
      else
        var l := Uint16(b[2..4]);
        var next := ATTRIBUTE_HEADER_SIZE + PaddedLength(l);
        if |b| < next then ParsedAttributes(b) == [] && ParseAttributes(b) == Failure(AttributeValueTooShort)
        else
          var a := RawAttribute(Uint16(b), l, b[ATTRIBUTE_HEADER_SIZE..ATTRIBUTE_HEADER_SIZE + l]);
          ParsedAttributes(b) == [a] + ParsedAttributes(b[next..])
          && ParseAttributes(b) == match ParseAttributes(b[next..])
                                   case Success(rest) => Success([a] + rest)
                                   case Failure(e) => Failure(e)
  {
    hide Uint16, PaddedLength;
  }

  lemma Uint16OfPrefix(b: seq<byte>)
    requires |b| >= 2
    ensures Uint16(b[0..2]) == Uint16(b)
  {
  }
}
