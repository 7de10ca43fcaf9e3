/** Building a message as a fold of setters, and what a receiver of the bytes gets (stun/helpers.go). */
module StunBuild {
  import opened Wrappers
  import opened Bytes
  import opened StunWire
  import opened StunMessage
  import opened StunAuth
  import opened XorAddress

  /** AttributeSetter stands for every setter whose value does not depend on the message. */
  datatype Setter =
    | TypeSetter(t: MessageType)
    | TransactionIDSetter(id: TransactionID)
    | AttributeSetter(atype: uint16, value: seq<byte>)
    | AddressSetter(atype: uint16, ip: seq<byte>, port: int)
    | IntegritySetter(key: seq<byte>)
    | FingerprintSetter

  datatype BuildError = AuthFailed(a: AuthError) | AddressFailed(e: AddressError)

  function Apply(c: Crypto, v: View, s: Setter): Result<View, BuildError> {
    match s
    case TypeSetter(t) => Success(v.(mtype := t))
    case TransactionIDSetter(id) => Success(v.(id := id))
    case AttributeSetter(t, value) => Success(v.And([MakeAttribute(t, value)]))
    case AddressSetter(t, ip, port) =>
      (match AddressValue(ip, port, v.id)
       case Success(value) => Success(v.And([MakeAttribute(t, value)]))
       case Failure(e) => Failure(AddressFailed(e)))
    case IntegritySetter(key) =>
      if Lacks(v.attrs, ATTR_FINGERPRINT) then Success(WithIntegrity(c, key, v))
      else Failure(AuthFailed(FingerprintBeforeIntegrity))
    case FingerprintSetter => Success(WithFingerprint(c, v))
  }

  /** All setters in order, up to the first that fails. */
  function ApplyAll(c: Crypto, v: View, setters: seq<Setter>): (View, Option<BuildError>)
    decreases |setters|
  {
    if setters == [] then (v, None)
    else match Apply(c, v, setters[0])
         case Success(w) => ApplyAll(c, w, setters[1..])
         case Failure(e) => (v, Some(e))
  }

  /** What each setter adds, and when it is refused: an address by its length, integrity behind a
      fingerprint. */
  lemma SettersDo(c: Crypto, v: View, t: MessageType, id: TransactionID, a: uint16, value: seq<byte>, ip: seq<byte>,
                  port: int, key: seq<byte>)
    ensures Apply(c, v, TypeSetter(t)) == Success(View(t, v.id, v.attrs))
    ensures Apply(c, v, TransactionIDSetter(id)) == Success(View(v.mtype, id, v.attrs))
    ensures Apply(c, v, AttributeSetter(a, value))
            == Success(View(v.mtype, v.id, v.attrs + [RawAttribute(a, |value| % 65536, value)]))
    ensures |ip| == 4 || |ip| == 16 ==>
              AddressValue(ip, port, v.id).Success?
              && Apply(c, v, AddressSetter(a, ip, port))
                 == Apply(c, v, AttributeSetter(a, AddressValue(ip, port, v.id).value))
    ensures |ip| != 4 && |ip| != 16 ==>
              Apply(c, v, AddressSetter(a, ip, port)) == Failure(AddressFailed(BadIPLength))
    ensures (exists i :: 0 <= i < |v.attrs| && v.attrs[i].atype == 0x8028) ==>
              Apply(c, v, IntegritySetter(key)) == Failure(AuthFailed(FingerprintBeforeIntegrity))
    ensures (forall i :: 0 <= i < |v.attrs| ==> v.attrs[i].atype != 0x8028) ==>
              Apply(c, v, IntegritySetter(key)) == Success(WithIntegrity(c, key, v))
    ensures Apply(c, v, FingerprintSetter) == Success(WithFingerprint(c, v))
  {
    hide WithIntegrity, WithFingerprint, XorSeq, PutUint16, MaskPort;
  }

  function LastType(setters: seq<Setter>, t: MessageType): MessageType {
    if setters == [] then t else LastType(setters[1..], if setters[0].TypeSetter? then setters[0].t else t)
  }

  function LastID(setters: seq<Setter>, id: TransactionID): TransactionID {
    if setters == [] then id else LastID(setters[1..], if setters[0].TransactionIDSetter? then setters[0].id else id)
  }

  /** The setters that add an attribute, in order. */
  function Adding(setters: seq<Setter>): seq<Setter> {
    if setters == [] then []
    else
      (if setters[0].TypeSetter? || setters[0].TransactionIDSetter? then [] else [setters[0]]) + Adding(setters[1..])
  }

  predicate AddedBy(a: RawAttribute, s: Setter) {
    match s
    case AttributeSetter(t, value) => a == RawAttribute(t, |value| % 65536, value)
    case AddressSetter(t, _, _) => a.atype == t
    case IntegritySetter(_) => a.atype == 0x0008 && |a.value| == 20
    case FingerprintSetter => a.atype == 0x8028 && |a.value| == 4
    case _ => false
  }

  /** What was built says what the setters say: the last type, the last id, and one attribute for each
      setter that adds one, in order. */
  lemma {:induction false} BuiltInOrder(c: Crypto, v: View, setters: seq<Setter>)
    requires ApplyAll(c, v, setters).1.None?
    ensures var w := ApplyAll(c, v, setters).0;
            w.mtype == LastType(setters, v.mtype) && w.id == LastID(setters, v.id)
            && |w.attrs| == |v.attrs| + |Adding(setters)| && w.attrs[..|v.attrs|] == v.attrs
            && forall k :: 0 <= k < |Adding(setters)| ==> AddedBy(w.attrs[|v.attrs| + k], Adding(setters)[k])
    decreases |setters|
  {
    hide Apply, AddedBy;
    if setters != [] {
      var u := Apply(c, v, setters[0]).value;
      BuiltInOrder(c, u, setters[1..]);
      OneAdded(c, v, setters[0]);
      var w := ApplyAll(c, v, setters).0;
      assert w.attrs[..|v.attrs|] == w.attrs[..|u.attrs|][..|v.attrs|];
      if |u.attrs| > |v.attrs| {
        assert w.attrs[|v.attrs|] == w.attrs[..|u.attrs|][|v.attrs|];
      }
    }
  }

  lemma OneAdded(c: Crypto, v: View, s: Setter)
    requires Apply(c, v, s).Success?
    ensures var u := Apply(c, v, s).value;
            u.mtype == (if s.TypeSetter? then s.t else v.mtype)
            && u.id == (if s.TransactionIDSetter? then s.id else v.id)
            && if s.TypeSetter? || s.TransactionIDSetter? then u.attrs == v.attrs
               else |u.attrs| == |v.attrs| + 1 && u.attrs[..|v.attrs|] == v.attrs && AddedBy(u.attrs[|v.attrs|], s)
  {
    hide AddressValue, PutUint32, FingerprintValue, FingerprintText, IntegrityText;
  }

  /** An upper bound of the space the setters take. */
  function Space(setters: seq<Setter>): nat {
    if setters == [] then 0 else SpaceOf(setters[0]) + Space(setters[1..])
  }

  function SpaceOf(s: Setter): nat {
    match s
    case AttributeSetter(_, value) => ATTRIBUTE_HEADER_SIZE + |value| + PADDING
    case _ => 64
  }

  ghost function ViewOf(m: Message): View
    reads m
  {
    View(m.mtype, m.transactionID, m.attributes)
  }

  lemma RetypedEncoding(t: MessageType, u: MessageType, id: TransactionID, attrs: seq<RawAttribute>)
    ensures PutUint16(TypeValue(u)) + Encode(t, id, attrs)[2..] == Encode(u, id, attrs)
  {
    hide PutUint16, TypeValue, Body;
  }

  lemma ReidentifiedEncoding(t: MessageType, id: TransactionID, id2: TransactionID, attrs: seq<RawAttribute>)
    ensures Encode(t, id, attrs)[..8] + id2 + Encode(t, id, attrs)[HEADER_SIZE..] == Encode(t, id2, attrs)
  {
    hide PutUint16, TypeValue, Body;
  }

  lemma LengthOfEncoding(v: View, n: nat)
    ensures WithLength(v.Bytes(), |Body(v.attrs)| + n) == Header(v.mtype, |Body(v.attrs)| + n, v.id) + Body(v.attrs)
  {
    HeaderWithLength(v.mtype, |Body(v.attrs)|, v.id, Body(v.attrs), |Body(v.attrs)| + n);
  }

  method ApplyTo(c: Crypto, m: Message, s: Setter) returns (err: Option<BuildError>)
    requires m.Built() && m.length + SpaceOf(s) + 64 < UINT32_LIMIT
    modifies m, m.raw
    ensures m.Built() && (m.raw == old(m.raw) || fresh(m.raw))
    ensures m.length <= old(m.length) + SpaceOf(s)
    ensures match Apply(c, old(ViewOf(m)), s)
            case Success(w) => err == None && ViewOf(m) == w
            case Failure(e) => err == Some(e) && ViewOf(m) == old(ViewOf(m))
  {
    hide Encode, Body, EncodeAttribute, AfterAdd, WithLength, AddressValue, PaddedLength, TypeValue, PutUint16,
         FingerprintValue;
    ghost var v := ViewOf(m);
    err := None;
    match s
    case TypeSetter(t) =>
      m.mtype := t;
      m.WriteType();
      RetypedEncoding(v.mtype, t, v.id, v.attrs);
    case TransactionIDSetter(id) =>
      m.transactionID := id;
      m.WriteTransactionID();
      ReidentifiedEncoding(v.mtype, v.id, id, v.attrs);
    case AttributeSetter(t, value) =>
      m.Add(t, value);
      AddKeepsEncoding(v.mtype, v.id, v.attrs, MakeAttribute(t, value));
      SmallAttribute(t, value);
    case AddressSetter(t, ip, port) =>
      var e := AddAddress(ip, port, m, t);
      AddressIsShort(ip, port, v.id);
      if e.Some? {
        err := Some(AddressFailed(e.value));
      } else {
        ghost var value := AddressValue(ip, port, v.id).value;
        AddKeepsEncoding(v.mtype, v.id, v.attrs, MakeAttribute(t, value));
        SmallAttribute(t, value);
      }
    case IntegritySetter(key) =>
      LengthOfEncoding(v, ATTRIBUTE_HEADER_SIZE + INTEGRITY_SIZE);
      var e := AddIntegrity(c, key, m);
      if e.Some? {
        err := Some(AuthFailed(e.value));
      } else {
        ghost var value := c.hmac(key, IntegrityText(v));
        AddKeepsEncoding(v.mtype, v.id, v.attrs, MakeAttribute(ATTR_MESSAGE_INTEGRITY, value));
        SmallAttribute(ATTR_MESSAGE_INTEGRITY, value);
      }
    case FingerprintSetter =>
      LengthOfEncoding(v, ATTRIBUTE_HEADER_SIZE + FINGERPRINT_SIZE);
      AddFingerprint(c, m);
      ghost var value := PutUint32(FingerprintValue(c, FingerprintText(v)));
      AddKeepsEncoding(v.mtype, v.id, v.attrs, MakeAttribute(ATTR_FINGERPRINT, value));
      SmallAttribute(ATTR_FINGERPRINT, value);
  }

  lemma SmallAttribute(t: uint16, value: seq<byte>)
    ensures |EncodeAttribute(MakeAttribute(t, value))| < ATTRIBUTE_HEADER_SIZE + |value| + PADDING
  {
  }

  lemma AddressIsShort(ip: seq<byte>, port: int, id: TransactionID)
    ensures AddressValue(ip, port, id).Success? ==> |AddressValue(ip, port, id).value| <= 20
  {
    hide XorSeq, PutUint16;
  }

  /** Whatever the buffer, the attributes and the length were before, the message is afterwards the
      pure encoding of what the setters describe. */
  method Build(c: Crypto, m: Message, setters: seq<Setter>) returns (err: Option<BuildError>)
    requires m.Valid() && Space(setters) + 64 < UINT32_LIMIT
    modifies m, m.raw
    ensures m.Built() && (m.raw == old(m.raw) || fresh(m.raw))
    ensures (ViewOf(m), err) == ApplyAll(c, View(old(m.mtype), old(m.transactionID), []), setters)
  {
    hide Apply, Header, Encode, Body, SpaceOf;
    m.Reset();
    m.WriteHeader();
    EmptyEncoding(m.mtype, m.transactionID);
    assert m.Raw() == m.Raw()[..HEADER_SIZE];
    ghost var start := ViewOf(m);
    assert setters[0..] == setters;
    for i := 0 to |setters|
      invariant m.Built() && (m.raw == old(m.raw) || fresh(m.raw))
      invariant m.length + Space(setters[i..]) + 64 < UINT32_LIMIT
      invariant ApplyAll(c, ViewOf(m), setters[i..]) == ApplyAll(c, start, setters)
    {
      ghost var v := ViewOf(m);
      assert setters[i..][0] == setters[i] && setters[i..][1..] == setters[i + 1..];
      err := ApplyTo(c, m, setters[i]);
      if err.Some? {
        return;
      }
    }
    err := None;
  }

  lemma EmptyEncoding(t: MessageType, id: TransactionID)
    ensures Encode(t, id, []) == Header(t, 0, id) && |Body([])| == 0
  {
    hide Header;
  }

  // ----- what the result depends on -----

  /** The setters set the type and the id, each before anything that depends on it. */
  predicate Determined(setters: seq<Setter>, typeSet: bool, idSet: bool) {
    if setters == [] then typeSet && idSet
    else match setters[0]
         case TypeSetter(_) => Determined(setters[1..], true, idSet)
         case TransactionIDSetter(_) => Determined(setters[1..], typeSet, true)
         case AttributeSetter(_, _) => Determined(setters[1..], typeSet, idSet)
         case AddressSetter(_, _, _) => idSet && Determined(setters[1..], typeSet, idSet)
         case _ => typeSet && idSet && Determined(setters[1..], typeSet, idSet)
  }

  /** A reused message builds to the same bytes as any other. */
  lemma {:induction false} BuildForgets(c: Crypto, v: View, w: View, setters: seq<Setter>, typeSet: bool, idSet: bool)
    requires v.attrs == w.attrs && (typeSet ==> v.mtype == w.mtype) && (idSet ==> v.id == w.id)
    requires Determined(setters, typeSet, idSet)
    ensures ApplyAll(c, v, setters).1 == ApplyAll(c, w, setters).1
    ensures ApplyAll(c, v, setters).1.None? ==> ApplyAll(c, v, setters).0 == ApplyAll(c, w, setters).0
    decreases |setters|
  {
    hide AddressValue, WithIntegrity, WithFingerprint, Lacks, MakeAttribute;
    if setters != [] {
      var v1, w1 := Apply(c, v, setters[0]), Apply(c, w, setters[0]);
      assert v1.Success? <==> w1.Success?;
      if v1.Success? {
        BuildForgets(c, v1.value, w1.value, setters[1..],
                     typeSet || setters[0].TypeSetter?, idSet || setters[0].TransactionIDSetter?);
      }
    }
  }

  predicate Made(attrs: seq<RawAttribute>) {
    forall i :: 0 <= i < |attrs| ==> attrs[i] == MakeAttribute(attrs[i].atype, attrs[i].value)
  }

  lemma {:induction false} BuiltAttributesAreMade(c: Crypto, v: View, setters: seq<Setter>)
    requires Made(v.attrs)
    ensures Made(ApplyAll(c, v, setters).0.attrs)
    decreases |setters|
  {
    hide FingerprintText, IntegrityText, AddressValue, FingerprintValue;
    if setters != [] && Apply(c, v, setters[0]).Success? {
      BuiltAttributesAreMade(c, Apply(c, v, setters[0]).value, setters[1..]);
    }
  }

  lemma NothingIsMade()
    ensures Made([])
  {
  }

  lemma {:induction false} SmallBodyFits(attrs: seq<RawAttribute>)
    requires Made(attrs) && |Body(attrs)| < 0x1_0000
    ensures Fits(attrs)
  {
    hide PaddedLength, EncodeAttribute;
    if attrs != [] {
      var front, last := attrs[..|attrs| - 1], attrs[|attrs| - 1];
      assert |EncodeAttribute(last)| < 0x1_0000;
      assert forall i :: 0 <= i < |front| ==> front[i] == attrs[i];
      SmallBodyFits(front);
    }
  }

  /** Decode undoes Build: for every sequence of setters whose message fits, the receiver gets type,
      id, length and attribute sequence back. */
  lemma DecodeUndoesBuild(c: Crypto, t: MessageType, id: TransactionID, setters: seq<Setter>)
    ensures var w := ApplyAll(c, View(t, id, []), setters).0;
            ProperType(w.mtype) && |Body(w.attrs)| < 0x1_0000 ==>
              Decodable(w.Bytes())
              && ParseMessage(w.Bytes()) == Success(Decoded(w.mtype, |Body(w.attrs)|, w.id, w.attrs))
  {
    hide ApplyAll, ParseMessage, Encode, Body, Decodable;
    var w := ApplyAll(c, View(t, id, []), setters).0;
    BuiltAttributesAreMade(c, View(t, id, []), setters);
    if ProperType(w.mtype) && |Body(w.attrs)| < 0x1_0000 {
      SmallBodyFits(w.attrs);
      EncodingDecodable(w);
      DecodeOfEncode(w.mtype, w.id, w.attrs, []);
      assert w.Bytes() + [] == w.Bytes();
    }
  }

  lemma BuiltIsCoherent(m: Message)
    requires m.Built() && Fits(m.attributes)
    ensures Coherent(m)
  {
    hide Body, TiledSize, PutUint16, TypeValue;
    TiledSizeOfBody(m.attributes);
  }

  lemma {:induction false} ApplyAllConcat(c: Crypto, v: View, a: seq<Setter>, b: seq<Setter>)
    ensures ApplyAll(c, v, a + b)
            == var r := ApplyAll(c, v, a); if r.1.Some? then r else ApplyAll(c, r.0, b)
    decreases |a|
  {
    hide Apply;
    if a == [] {
      assert a + b == b;
    } else {
      assert (a + b)[1..] == a[1..] + b;
      if Apply(c, v, a[0]).Success? {
        ApplyAllConcat(c, Apply(c, v, a[0]).value, a[1..], b);
      }
    }
  }

  lemma ApplyOne(c: Crypto, v: View, s: Setter)
    ensures ApplyAll(c, v, [s])
            == match Apply(c, v, s) case Success(w) => (w, None) case Failure(e) => (v, Some(e))
  {
    hide Apply;
    assert [s][1..] == [];
  }

  function AttributesOf(setters: seq<Setter>): (attrs: seq<RawAttribute>)
    requires forall i :: 0 <= i < |setters| ==> setters[i].AttributeSetter?
    ensures |attrs| == |setters|
    ensures forall i :: 0 <= i < |attrs| ==> attrs[i] == MakeAttribute(setters[i].atype, setters[i].value)
  {
    seq(|setters|, i requires 0 <= i < |setters| => MakeAttribute(setters[i].atype, setters[i].value))
  }

  lemma {:induction false} AttributesAreAdded(c: Crypto, v: View, setters: seq<Setter>)
    requires forall i :: 0 <= i < |setters| ==> setters[i].AttributeSetter?
    ensures ApplyAll(c, v, setters) == (v.And(AttributesOf(setters)), None)
    decreases |setters|
  {
    hide MakeAttribute;
    if setters == [] {
      assert v.attrs + [] == v.attrs;
    } else {
      var w := v.And([MakeAttribute(setters[0].atype, setters[0].value)]);
      AttributesAreAdded(c, w, setters[1..]);
      assert w.attrs + AttributesOf(setters[1..]) == v.attrs + AttributesOf(setters);
    }
  }

  /** What a message built with integrity, attributes and a fingerprint consists of. */
  lemma SealedParts(c: Crypto, key: seq<byte>, start: View, first: seq<Setter>, more: seq<Setter>)
    returns (v: View, attrs: seq<RawAttribute>)
    requires forall i :: 0 <= i < |more| ==> more[i].AttributeSetter?
    requires ApplyAll(c, start, first + [IntegritySetter(key)] + more + [FingerprintSetter]).1.None?
    ensures ApplyAll(c, start, first) == (v, None) && attrs == AttributesOf(more)
    ensures ApplyAll(c, start, first + [IntegritySetter(key)] + more + [FingerprintSetter]).0
            == WithFingerprint(c, WithIntegrity(c, key, v).And(attrs))
  {
    hide ApplyAll, WithIntegrity, WithFingerprint, Lacks;
    v := ApplyAll(c, start, first).0;
    attrs := AttributesOf(more);
    ApplyAllConcat(c, start, first, [IntegritySetter(key)]);
    ApplyOne(c, v, IntegritySetter(key));
    ApplyAllConcat(c, start, first + [IntegritySetter(key)], more);
    AttributesAreAdded(c, WithIntegrity(c, key, v), more);
    ApplyAllConcat(c, start, first + [IntegritySetter(key)] + more, [FingerprintSetter]);
    ApplyOne(c, WithIntegrity(c, key, v).And(attrs), FingerprintSetter);
  }

  lemma PartsFit(c: Crypto, key: seq<byte>, v: View, more: seq<RawAttribute>)
    requires Fits(WithFingerprint(c, WithIntegrity(c, key, v).And(more)).attrs)
    ensures Fits(v.attrs) && Fits(more)
  {
    hide FingerprintValue, FingerprintText, IntegrityText, MakeAttribute, Fits;
    var sealed := WithIntegrity(c, key, v);
    FitsSplits(sealed.And(more).attrs, WithFingerprint(c, sealed.And(more)).attrs[|sealed.And(more).attrs|..]);
    FitsSplits(sealed.attrs, more);
    FitsSplits(v.attrs, sealed.attrs[|v.attrs|..]);
  }

  lemma FitsSplits(a: seq<RawAttribute>, b: seq<RawAttribute>)
    requires Fits(a + b)
    ensures Fits(a) && Fits(b)
  {
    assert forall i :: 0 <= i < |a| ==> a[i] == (a + b)[i];
    assert forall i :: 0 <= i < |b| ==> b[i] == (a + b)[|a| + i];
  }

  /** Sender and receiver: the sender builds with integrity, further attributes and a fingerprint.
      Both ends find the message authentic, the fingerprint before and after integrity, and both
      still hold the message as it was built. */
  method DeliverSealed(c: Crypto, key: seq<byte>, m: Message, d: Message, first: seq<Setter>, more: seq<Setter>)
    returns (err: Option<BuildError>, verdicts: seq<Option<AuthError>>)
    requires m.Valid() && d.Valid() && m != d && m.raw != d.raw
    requires Space(first + [IntegritySetter(key)] + more + [FingerprintSetter]) + 64 < UINT32_LIMIT
    requires forall i :: 0 <= i < |more| ==> more[i].AttributeSetter? && more[i].atype != ATTR_FINGERPRINT
    requires var v := ApplyAll(c, View(m.mtype, m.transactionID, []), first);
             v.1.None? ==>
               Lacks(v.0.attrs, ATTR_MESSAGE_INTEGRITY) && Lacks(v.0.attrs, ATTR_FINGERPRINT)
               && ProperType(v.0.mtype)
    modifies m, d, m.raw, d.raw
    ensures m.Built()
    ensures (ViewOf(m), err) == ApplyAll(c, View(old(m.mtype), old(m.transactionID), []),
                                         first + [IntegritySetter(key)] + more + [FingerprintSetter])
    ensures err.None? && m.length < 0x1_0000 ==>
              d.Built() && ViewOf(d) == ViewOf(m) && d.length == m.length
              && verdicts == [None, None, None, None, None, None]
  {
    hide Apply, ApplyAll, ParseMessage, Encode, Body, TiledSize, IntegrityVerdict, FingerprintVerdict, Space,
         Decodable, WithIntegrity, WithFingerprint, ProperType, Fits, Lacks, Made;
    ghost var start := View(m.mtype, m.transactionID, []);
    verdicts := [];
    err := Build(c, m, first + [IntegritySetter(key)] + more + [FingerprintSetter]);
    if err.Some? || m.length >= 0x1_0000 {
      return;
    }
    ghost var w := ViewOf(m);
    SealedVerdicts(c, key, start, first, more, w);
    BuiltIsCoherent(m);
    var n, e := d.Write(m.raw[..m.rawLen]);
    assert d.Built();
    BuiltIsCoherent(d);
    var atSender := CheckAll(c, key, m);
    var atReceiver := CheckAll(c, key, d);
    verdicts := atSender + atReceiver;
  }

  /** The fingerprint before and after integrity. */
  method CheckAll(c: Crypto, key: seq<byte>, m: Message) returns (verdicts: seq<Option<AuthError>>)
    requires Coherent(m)
    modifies m`length, m.raw
    ensures Coherent(m) && m.length == old(m.length) && m.Raw() == old(m.Raw())
    ensures var f := FingerprintVerdict(c, m.attributes, m.Raw());
            verdicts == [f, IntegrityVerdict(c, key, m.attributes, m.Raw()), f]
  {
    hide FingerprintVerdict, IntegrityVerdict, Verdict, TiledSize, WithLength;
    var f1 := CheckFingerprint(c, m);
    var i := CheckIntegrity(c, key, m);
    var f2 := CheckFingerprint(c, m);
    verdicts := [f1, i, f2];
  }

  lemma SealedVerdicts(c: Crypto, key: seq<byte>, start: View, first: seq<Setter>, more: seq<Setter>, w: View)
    requires start.attrs == []
    requires forall i :: 0 <= i < |more| ==> more[i].AttributeSetter? && more[i].atype != ATTR_FINGERPRINT
    requires var v := ApplyAll(c, start, first);
             v.1.None? ==>
               Lacks(v.0.attrs, ATTR_MESSAGE_INTEGRITY) && Lacks(v.0.attrs, ATTR_FINGERPRINT)
               && ProperType(v.0.mtype)
    requires (w, None) == ApplyAll(c, start, first + [IntegritySetter(key)] + more + [FingerprintSetter])
    requires |Body(w.attrs)| < 0x1_0000
    ensures |w.Bytes()| == HEADER_SIZE + TiledSize(w.attrs) && Fits(w.attrs)
    ensures IntegrityVerdict(c, key, w.attrs, w.Bytes()) == None
    ensures FingerprintVerdict(c, w.attrs, w.Bytes()) == None
    ensures Decodable(w.Bytes())
    ensures ParseMessage(w.Bytes()) == Success(Decoded(w.mtype, |Body(w.attrs)|, w.id, w.attrs))
  {
    hide Apply, ApplyAll, ParseMessage, Encode, Body, TiledSize, IntegrityVerdict, FingerprintVerdict, Decodable,
         WithIntegrity, WithFingerprint, ProperType, Fits, Made, MakeAttribute;
    NothingIsMade();
    BuiltAttributesAreMade(c, start, first + [IntegritySetter(key)] + more + [FingerprintSetter]);
    SmallBodyFits(w.attrs);
    var v, attrs := SealedParts(c, key, start, first, more);
    PartsFit(c, key, v, attrs);
    assert Lacks(attrs, ATTR_FINGERPRINT) by { TypesOfAttributes(more); }
    SealedMessageVerifies(c, key, v, attrs, true);
  }

  lemma TypesOfAttributes(setters: seq<Setter>)
    requires forall i :: 0 <= i < |setters| ==> setters[i].AttributeSetter? && setters[i].atype != ATTR_FINGERPRINT
    ensures Lacks(AttributesOf(setters), ATTR_FINGERPRINT)
  {
  }
}
