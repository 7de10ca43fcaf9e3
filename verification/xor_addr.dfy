/** Addresses masked with the magic cookie and the transaction id (stun/xoraddr.go; section 15.2 of
    RFC 5389). */
module XorAddress {
  import opened Wrappers
  import opened Bytes
  import opened StunWire
  import opened StunMessage
  import opened StunAuth
  import opened XorBytes

  const IPV4_LENGTH := 4
  const IPV6_LENGTH := 16
  const FAMILY_IPV4: uint16 := 1
  const FAMILY_IPV6: uint16 := 2
  const COOKIE_HIGH: uint16 := 0x2112

  datatype AddressError =
    | BadIPLength
    | NoSuchAttribute
    | BadFamily(family: uint16)
    | UnexpectedEOF
    | AttributeOverflow(got: nat, max: nat)

  predicate AllZero(p: seq<byte>) {
    forall i :: 0 <= i < |p| ==> p[i] == 0
  }

  /** An IPv4 address in its sixteen-byte form. */
  predicate Mapped(ip: seq<byte>) {
    |ip| == IPV6_LENGTH && AllZero(ip[..10]) && ip[10] == 0xff && ip[11] == 0xff
  }

  function Canonical(ip: seq<byte>): seq<byte> {
    if Mapped(ip) then ip[12..16] else ip
  }

  function Mask(id: TransactionID): (k: seq<byte>)
    ensures |k| == IPV6_LENGTH
  {
    MAGIC_COOKIE + id
  }

  function MaskPort(port: int): uint16 {
    assert Pow2(16) == 0x1_0000 by { Pow2Of16(); }
    Xor(port % 0x1_0000, COOKIE_HIGH, 16)
  }

  /** The value of the attribute for an address. */
  function AddressValue(ip: seq<byte>, port: int, id: TransactionID): Result<seq<byte>, AddressError> {
    var c := Canonical(ip);
    if |c| != IPV4_LENGTH && |c| != IPV6_LENGTH then Failure(BadIPLength)
    else
      Success(PutUint16(if |c| == IPV4_LENGTH then FAMILY_IPV4 else FAMILY_IPV6) + PutUint16(MaskPort(port))
              + XorSeq(c, Mask(id)))
  }

  datatype Address = Address(ip: seq<byte>, port: int)

  /** Reading a value: the new address, which also an error may have touched, and the error. A value
      shorter than its family says leaves zeros at the end. */
  function ReadAddress(v: seq<byte>, id: TransactionID, before: Address): (r: (Address, Option<AddressError>))
    requires |v| >= 2
  {
    var family := Uint16(v);
    if family != FAMILY_IPV4 && family != FAMILY_IPV6 then (before, Some(BadFamily(family)))
    else
      var n := if family == FAMILY_IPV6 then IPV6_LENGTH else IPV4_LENGTH;
      if |v| <= 4 then (Address(Zeros(n), before.port), Some(UnexpectedEOF))
      else if |v| - 4 > n then (Address(Zeros(n), before.port), Some(AttributeOverflow(|v| - 4, n)))
      else (Address(XorSeq(v[4..], Mask(id)) + Zeros(n + 4 - |v|), MaskPort(Uint16(v[2..4]))), None)
  }

  /** Section 15.2 of RFC 5389, bit by bit: the port modulo 2^16 is turned over where 0x2112 has ones. */
  lemma PortMasked(port: int, k: nat)
    requires k < 16
    ensures Bit(MaskPort(port), k) == (Bit(port % 0x1_0000, k) + Bit(0x2112, k)) % 2
  {
    hide Xor;
    XorBits(port % 0x1_0000, COOKIE_HIGH, 16, k);
  }

  /** The value byte by byte: zero, the family, the masked port, and the address turned over where the
      magic cookie, and behind it the transaction id, have ones. An IPv4 address in sixteen bytes counts
      as its last four. */
  lemma AddressLayout(ip: seq<byte>, port: int, id: TransactionID)
    requires |ip| == 4 || |ip| == 16
    ensures var four := |ip| == 4 || (ip[..12] == seq(10, i => 0) + [255, 255]);
            var plain := if |ip| == 4 then ip else if four then ip[12..] else ip;
            var v := AddressValue(ip, port, id);
            v.Success? && |v.value| == 4 + |plain|
            && v.value[..2] == [0, if four then 1 else 2]
            && v.value[2..4] == [MaskPort(port) / 256, MaskPort(port) % 256]
            && v.value[4..] == XorSeq(plain, [0x21, 0x12, 0xA4, 0x42] + id)
  {
    hide MaskPort, XorSeq, PutUint16, Mapped;
    MappedIs(ip);
    assert Mapped(ip) ==> |ip| == 16;
    PutSmall(MaskPort(port));
    PutSmall(FAMILY_IPV4);
    PutSmall(FAMILY_IPV6);
  }

  lemma PutSmall(n: uint16)
    ensures PutUint16(n) == [n / 256, n % 256]
  {
  }

  lemma MappedIs(ip: seq<byte>)
    ensures Mapped(ip) <==> |ip| == 16 && ip[..12] == seq(10, i => 0) + [255, 255]
  {
    if |ip| == 16 {
      assert ip[..12] == ip[..10] + [ip[10], ip[11]];
      assert ip[..10] == ip[..12][..10];
      var wanted := seq(10, i => 0) + [255, 255];
      assert wanted[..10] == seq(10, i => 0) && wanted[10] == 255 && wanted[11] == 255;
    }
  }

  /** Every value of at least two bytes: how it is refused, and what a short one leaves. */
  lemma AddressReadsAs(v: seq<byte>, id: TransactionID, before: Address)
    requires |v| >= 2
    ensures var family := 256 * (v[0] as int) + v[1];
            var n := if family == 2 then 16 else 4;
            ReadAddress(v, id, before)
            == if family != 1 && family != 2 then (before, Some(BadFamily(family)))
               else if |v| <= 4 then (Address(Zeros(n), before.port), Some(UnexpectedEOF))
               else if |v| > n + 4 then (Address(Zeros(n), before.port), Some(AttributeOverflow(|v| - 4, n)))
               else (Address(XorSeq(v[4..], [0x21, 0x12, 0xA4, 0x42] + id) + Zeros(n + 4 - |v|),
                             MaskPort(256 * (v[2] as int) + v[3])), None)
  {
    hide MaskPort, XorSeq;
  }

  lemma PortUnmasked(port: int)
    ensures MaskPort(MaskPort(port)) == port % 0x1_0000
  {
    hide Xor, Pow2;
    Pow2Of16();
    XorCancels(port % 0x1_0000, COOKIE_HIGH, 16);
  }

  /** An address added under a transaction id reads back under it: IPv4 addresses in four bytes
      whatever form they had, and the port modulo 2^16. */
  lemma AddressRoundTrip(ip: seq<byte>, port: int, id: TransactionID, before: Address)
    requires |ip| == IPV4_LENGTH || |ip| == IPV6_LENGTH
    ensures AddressValue(ip, port, id).Success?
    ensures var v := AddressValue(ip, port, id).value;
            4 < |v| <= 20 && ReadAddress(v, id, before) == (Address(Canonical(ip), port % 0x1_0000), None)
  {
    hide XorSeq, PutUint16, Uint16, MaskPort;
    var c, v := Canonical(ip), AddressValue(ip, port, id).value;
    var family: uint16 := if |c| == IPV4_LENGTH then FAMILY_IPV4 else FAMILY_IPV6;
    var masked := XorSeq(c, Mask(id));
    assert v == PutUint16(family) + (PutUint16(MaskPort(port)) + masked);
    Uint16OfPut(family, PutUint16(MaskPort(port)) + masked);
    assert v[2..4] == PutUint16(MaskPort(port)) + [];
    Uint16OfPut(MaskPort(port), []);
    PortUnmasked(port);
    XorSeqCancels(c, Mask(id));
    assert v[4..] == masked;
    assert c + Zeros(0) == c;
  }

  /** The round trip gives back what was put in exactly for four-byte and proper IPv6 addresses with
      a sixteen-bit port. */
  lemma AddressUnchangedIff(ip: seq<byte>, port: int, id: TransactionID, before: Address)
    ensures (AddressValue(ip, port, id).Success?
             && |AddressValue(ip, port, id).value| >= 2
             && ReadAddress(AddressValue(ip, port, id).value, id, before) == (Address(ip, port), None))
            <==> 0 <= port < 0x1_0000 && (|ip| == IPV4_LENGTH || (|ip| == IPV6_LENGTH && !Mapped(ip)))
  {
    hide ReadAddress, XorSeq, MaskPort, PutUint16;
    if |ip| == IPV4_LENGTH || |ip| == IPV6_LENGTH {
      AddressRoundTrip(ip, port, id, before);
      assert Mapped(ip) ==> |Canonical(ip)| == IPV4_LENGTH;
    }
  }

  method IsZeros(p: seq<byte>) returns (zero: bool)
    ensures zero <==> AllZero(p)
  {
    for i := 0 to |p|
      invariant AllZero(p[..i])
    {
      if p[i] != 0 {
        return false;
      }
    }
    assert p[..|p|] == p;
    zero := true;
  }

  /** The two-part mask in a buffer of its own. */
  method MakeMask(id: TransactionID) returns (xorValue: array<byte>)
    ensures fresh(xorValue) && xorValue[..] == Mask(id)
  {
    xorValue := new byte[IPV6_LENGTH];
    forall i | 0 <= i < 4 {
      xorValue[i] := MAGIC_COOKIE[i];
    }
    forall i | 0 <= i < 12 {
      xorValue[4 + i] := id[i];
    }
  }

  method FromSeq(s: seq<byte>) returns (a: array<byte>)
    ensures fresh(a) && a[..] == s
  {
    a := new byte[|s|];
    forall i | 0 <= i < |s| {
      a[i] := s[i];
    }
  }

  method AddAddress(ip0: seq<byte>, port: int, m: Message, t: uint16) returns (err: Option<AddressError>)
    requires m.Valid() && m.rawLen >= HEADER_SIZE + m.length && m.length + 64 < UINT32_LIMIT
    modifies m`raw, m`rawLen, m`length, m`attributes, m.raw
    ensures m.Valid() && (m.raw == old(m.raw) || fresh(m.raw))
    ensures match AddressValue(ip0, port, m.transactionID)
            case Success(v) =>
              err == None && m.attributes == old(m.attributes) + [MakeAttribute(t, v)]
              && m.length == old(m.length) + |EncodeAttribute(MakeAttribute(t, v))|
              && m.Raw() == AfterAdd(old(m.Raw()), old(m.length), MakeAttribute(t, v))
            case Failure(e) =>
              err == Some(e) && m.Raw() == old(m.Raw()) && m.length == old(m.length)
                  && m.attributes == old(m.attributes)
  {
    hide XorSeq, PutUint16, EncodeAttribute, AfterAdd;
    var family, ip := FAMILY_IPV4, ip0;
    if |ip0| == IPV6_LENGTH {
      var zero := IsZeros(ip[0..10]);
      assert ip[..10] == ip[0..10];
      if zero && ip[10] == 0xff && ip[11] == 0xff {
        ip := ip[12..16];
      } else {
        family := FAMILY_IPV6;
      }
    } else if |ip| != IPV4_LENGTH {
      return Some(BadIPLength);
    }
    var xorValue := MakeMask(m.transactionID);
    var plain := FromSeq(ip);
    var masked := new byte[|ip|];
    var n := FastXorBytes(masked, plain, xorValue);
    assert masked[..] == XorSeq(ip, Mask(m.transactionID));
    m.Add(t, PutUint16(family) + PutUint16(MaskPort(port)) + masked[..]);
    err := None;
  }

  /** An address whose buffer is reused from one decoding to the next. */
  class XorMappedAddress {
    var ip: array<byte>
    var ipLen: nat
    var port: int

    ghost predicate Valid()
      reads this
    {
      ipLen <= ip.Length
    }

    ghost function Value(): Address
      requires Valid()
      reads this, ip
    {
      Address(ip[..ipLen], port)
    }

    constructor ()
      ensures Valid() && fresh(ip)
    {
      ip := new byte[0];
      ipLen := 0;
      port := 0;
    }

    /** Makes the buffer hold exactly n zeros, in place if it has room. */
    method ClearIP(n: nat)
      requires Valid()
      modifies this`ip, this`ipLen, ip
      ensures Valid() && (ip == old(ip) || fresh(ip)) && ipLen == n
      ensures ip[..ipLen] == Zeros(n)
    {
      if ipLen < n {
        ipLen := ip.Length;
        if ipLen < n {
          var c: nat :| c >= n;
          ip := new byte[c];
        }
      }
      ipLen := n;
      for i := 0 to n
        invariant ipLen == n <= ip.Length && (ip == old(ip) || fresh(ip)) && port == old(port)
        invariant AllZero(ip[..i])
      {
        ip[i] := 0;
      }
    }

    /** Decodes the first attribute of a type. The source reads two bytes of its value unasked. */
    method GetFromAs(m: Message, t: uint16) returns (err: Option<AddressError>)
      requires Valid() && ip != m.raw
      requires var v := Get(m.attributes, t); v.Some? ==> |v.value| >= 2
      modifies this, ip
      ensures Valid() && (ip == old(ip) || fresh(ip))
      ensures match Get(m.attributes, t)
              case None => err == Some(NoSuchAttribute) && Value() == old(Value())
              case Some(v) => (Value(), err) == ReadAddress(v, m.transactionID, old(Value()))
    {
      hide XorSeq, Uint16, FirstOf, MaskPort;
      var got := Get(m.attributes, t);
      if got.None? {
        return Some(NoSuchAttribute);
      }
      var v := got.value;
      var family := Uint16(v[0..2]);
      Uint16OfPrefix(v);
      if family != FAMILY_IPV6 && family != FAMILY_IPV4 {
        return Some(BadFamily(family));
      }
      var n := if family == FAMILY_IPV6 then IPV6_LENGTH else IPV4_LENGTH;
      ClearIP(n);
      if |v| <= 4 {
        return Some(UnexpectedEOF);
      }
      if |v| - 4 > n {
        return Some(AttributeOverflow(|v| - 4, n));
      }
      port := MaskPort(Uint16(v[2..4]));
      Unmask(v[4..], m.transactionID);
      err := None;
    }

    /** The masked bytes into the cleared buffer; what they do not reach stays zero. */
    method Unmask(value: seq<byte>, id: TransactionID)
      requires Valid() && ip[..ipLen] == Zeros(ipLen) && |value| <= ipLen <= IPV6_LENGTH
      modifies ip
      ensures ip[..ipLen] == XorSeq(value, Mask(id)) + Zeros(ipLen - |value|)
    {
      hide XorSeq;
      ghost var n := ipLen;
      var xorValue := MakeMask(id);
      var masked := FromSeq(value);
      assert forall i :: 0 <= i < n ==> ip[i] == ip[..ipLen][i];
      var copied := FastXorBytes(ip, masked, xorValue);
      assert copied == |value|;
      assert forall i :: copied <= i < n ==> ip[i] == Zeros(n)[i];
      assert ip[..ipLen] == XorSeq(value, Mask(id)) + Zeros(n - |value|);
    }
  }
}
