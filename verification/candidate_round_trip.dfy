/** Parsing undoes printing, candidate by candidate, exactly for the candidates that can be printed
    (ice/candidate.go). */
module CandidateRoundTrip {
  import opened Wrappers
  import opened Decimal
  import opened Text
  import opened IceTypes
  import opened PairPriority
  import opened CandidateText

  /** A host and a port, neither bracketed nor holding a colon or a space. */
  predicate PlainAddress(a: string) {
    var i := IndexOf(a, COLON);
    i < |a| && COLON !in a[i + 1..] && '[' !in a && ']' !in a && SPACE !in a
  }

  predicate MachineInt(i: int) {
    INT64_MIN <= i <= INT64_MAX
  }

  /** The numbers of a candidate are Go ints. */
  predicate MachineInts(c: Candidate) {
    MachineInt(c.foundation) && MachineInt(c.componentID) && MachineInt(c.priority)
  }

  predicate Printable(c: Candidate) {
    c.transport != NoTransport && c.ctype != UnknownType
    && c.foundation >= 0 && c.componentID >= 0 && c.priority >= 0 && PlainAddress(c.addr)
  }

  // ----- addresses -----

  /** Joining what splitting gives restores the address exactly if it has one colon and no bracket. */
  lemma HostPortJoins(a: string)
    requires SPACE !in a
    ensures HostPort(a).0 + [COLON] + HostPort(a).1 == a <==> PlainAddress(a)
    ensures SPACE !in HostPort(a).0 && SPACE !in HostPort(a).1
  {
    hide Digits, Itoa;
    var i, j := LastIndexOf(a, COLON), IndexOf(a, COLON);
    if j == |a| {
      assert COLON !in a;
      assert HostPort(a) == ("", "");
      assert ("" + [COLON] + "")[0] == COLON;
    } else {
      assert i < |a| && j <= i;
      if a[0] == '[' {
        BracketedHostPort(a);
      } else if j < i || '[' in a || ']' in a {
        assert j < i ==> a[..i][j] == COLON;
        assert HostPort(a) == ("", "");
        assert "" + [COLON] + "" == [COLON];
        SecondColon(a, i, j);
        assert a != [COLON];
      } else {
        assert a == a[..i] + [COLON] + a[i + 1..];
        assert COLON !in a[i + 1..];
      }
    }
  }

  lemma SecondColon(a: string, i: nat, j: nat)
    requires i < |a| && a[i] == COLON && j == IndexOf(a, COLON)
    ensures j < i ==> !PlainAddress(a)
  {
    if j < i {
      assert a[j + 1..][i - j - 1] == COLON;
    }
  }

  lemma BracketedHostPort(a: string)
    requires a != "" && a[0] == '[' && SPACE !in a
    ensures HostPort(a).0 + [COLON] + HostPort(a).1 != a
    ensures SPACE !in HostPort(a).0 && SPACE !in HostPort(a).1
  {
    var hp := HostPort(a);
    if SplitHostPort(a).Some? {
      assert |hp.0 + [COLON] + hp.1| < |a|;
    } else {
      assert ("" + [COLON] + "")[0] == COLON;
    }
  }

  // ----- the six fields -----

  lemma FieldParsed(c: Candidate, pos: nat, v: string, rest: string)
    requires pos < MANDATORY_ELEMENTS && SPACE !in v
    ensures Mandatory(c, pos, v + " " + rest)
            == var r := ApplyField(c, pos, v);
               if r.1.Some? then (r.0, "", r.1) else Mandatory(r.0, pos + 1, rest)
  {
    hide ApplyField;
    var s := v + " " + rest;
    IndexIs(s, SPACE, |v|);
    assert s[..|v|] == v && s[|v| + 1..] == rest;
  }

  lemma ItoaHasNoSpace(i: int)
    ensures SPACE !in Itoa(i)
  {
    hide Digits;
  }

  /** The candidate after its first four fields, with the numbers that were read. */
  function FourFields(f: int, id: int, t: Transport, p: int): Candidate {
    BLANK.(foundation := f, componentID := id, transport := t, priority := p)
  }

  function ReadTransport(t: Transport): Transport {
    if t == UDP then UDP else OtherTransport
  }

  lemma FirstFields(f: int, id: int, t: Transport, p: int, rest: string)
    ensures
      var m := Mandatory(BLANK, 0,
                         Itoa(f) + " " + (Itoa(id) + " " + (TransportText(t) + " " + (Itoa(p) + " " + rest))));
      var pf, pid, pp := ParseInt(Itoa(f)), ParseInt(Itoa(id)), ParseInt(Itoa(p));
      if pf.Some? && pid.Some? && pp.Some? then
        m == Mandatory(FourFields(pf.value, pid.value, ReadTransport(t), pp.value), 4, rest)
      else m.2.Some?
  {
    hide Itoa, ParseInt, Mandatory;
    ItoaHasNoSpace(f);
    ItoaHasNoSpace(id);
    ItoaHasNoSpace(p);
    var r3 := Itoa(p) + " " + rest;
    var r2 := TransportText(t) + " " + r3;
    var r1 := Itoa(id) + " " + r2;
    FieldParsed(BLANK, 0, Itoa(f), r1);
    var pf, pid := ParseInt(Itoa(f)), ParseInt(Itoa(id));
    if pf.Some? {
      var c1 := BLANK.(foundation := pf.value);
      FieldParsed(c1, 1, Itoa(id), r2);
      if pid.Some? {
        var c2 := c1.(componentID := pid.value);
        FieldParsed(c2, 2, TransportText(t), r3);
        FieldParsed(c2.(transport := ReadTransport(t)), 3, Itoa(p), rest);
      }
    }
  }

  /** Nothing after the fourth field changes the first four, and addresses hold no spaces. */
  lemma {:induction false} AddressFieldsKeep(c: Candidate, pos: nat, s: string)
    requires pos >= 4 && SPACE !in c.addr
    ensures var d := Mandatory(c, pos, s).0;
            d == c.(addr := d.addr) && SPACE !in d.addr
    decreases |s|
  {
    hide ParseInt;
    var n := IndexOf(s, SPACE);
    if pos < MANDATORY_ELEMENTS && n < |s| {
      var r := ApplyField(c, pos, s[..n]);
      assert SPACE !in s[..n];
      AddressFieldsKeep(r.0, pos + 1, s[n + 1..]);
    }
  }

  lemma {:induction false} AttributesKeep(c: Candidate, words: seq<string>)
    ensures var d := Attributes(c, words).0;
            d.addr == c.addr && d.transport == c.transport && d.foundation == c.foundation
            && d.componentID == c.componentID && d.priority == c.priority
    decreases |words|
  {
    hide ParseInt;
    if |words| >= 2 {
      AttributesKeep(ApplyAttribute(c, words[0], words[1]).0, words[2..]);
    }
  }

  // ----- the attributes -----

  lemma WordThen(v: string, rest: string)
    requires SPACE !in v
    ensures Words(v + " " + rest) == (if v == "" then [] else [v]) + Words(rest)
  {
    var s := v + " " + rest;
    assert (" " + rest)[1..] == rest;
    if v == "" {
      assert s == " " + rest;
    } else {
      IndexIs(s, SPACE, |v|);
      assert s[..|v|] == v && s[|v|..] == " " + rest;
    }
  }

  lemma LastWord(v: string)
    requires SPACE !in v
    ensures Words(v) == if |v| <= 1 then [] else [v]
  {
  }

  /** The words behind the type of a server reflexive candidate. A port of one character is lost. */
  function RelatedWords(h: string, q: string): seq<string> {
    ["raddr"] + (if h == "" then [] else [h]) + ["rport"] + (if |q| <= 1 then [] else [q])
  }

  lemma RelatedTextWords(h: string, q: string)
    requires SPACE !in h && SPACE !in q
    ensures Words("raddr " + h + " rport " + q) == RelatedWords(h, q)
  {
    hide Words;
    var port := "rport" + " " + q;
    WordThen("raddr", h + " " + port);
    WordThen(h, port);
    WordThen("rport", q);
    LastWord(q);
    assert "raddr " + h + " rport " + q == "raddr" + " " + (h + " " + port);
  }

  /** The words behind the type of a candidate. */
  function BaseWords(c: Candidate): seq<string> {
    if c.ctype.ServerReflexive? then
      Words("raddr " + HostPort(c.baseAddr).0 + " rport " + HostPort(c.baseAddr).1)
    else []
  }

  lemma TailWords(c: Candidate)
    ensures Words(PrintTail(c)) == ["typ", TypeText(c.ctype)] + BaseWords(c)
  {
    hide Words, HostPort;
    var t := TypeText(c.ctype);
    if c.ctype.ServerReflexive? {
      var related := "raddr " + HostPort(c.baseAddr).0 + " rport " + HostPort(c.baseAddr).1;
      WordThen("typ", t + " " + related);
      WordThen(t, related);
      assert PrintTail(c) == "typ" + " " + (t + " " + related);
    } else {
      WordThen("typ", t);
      LastWord(t);
      assert PrintTail(c) == "typ" + " " + t;
    }
  }

  function RelatedAddress(h: string, q: string): string {
    if h == "" then "rport" else if |q| <= 1 then h else h + [COLON] + q
  }

  lemma RelatedParsed(c: Candidate, h: string, q: string)
    ensures Attributes(c, RelatedWords(h, q)) == (c.(relatedAddr := RelatedAddress(h, q)), None)
  {
    hide ParseInt;
    var w := RelatedWords(h, q);
    if h == "" {
      assert w == ["raddr", "rport"] + if |q| <= 1 then [] else [q];
    } else if |q| <= 1 {
      assert w == ["raddr", h, "rport"];
    } else {
      assert w == ["raddr", h, "rport", q];
      assert w[2..] == ["rport", q];
      assert Attributes(c.(relatedAddr := h), ["rport", q]) == (c.(relatedAddr := h + [COLON] + q), None) by {
        assert ["rport", q][2..] == [];
      }
    }
  }

  lemma TypeRead(t: CandidateType)
    ensures TypeOf(TypeText(t)) == if t == UnknownType then None else Some(t)
  {
    assert "prflx"[0] == 'p' && "srflx"[0] == 's' && "relay"[0] == 'r' && "host"[0] == 'h' && "unknown"[0] == 'u';
  }

  lemma TailParsed(c: Candidate, d: Candidate)
    ensures var r := Attributes(d, Words(PrintTail(c)));
            if c.ctype == UnknownType then r.1.Some? else r == Attributes(d.(ctype := c.ctype), BaseWords(c))
  {
    hide ParseInt, HostPort, Words, PrintTail, TypeOf, BaseWords;
    TailWords(c);
    TypeRead(c.ctype);
    var words := Words(PrintTail(c));
    assert words[0] == "typ" && words[1] == TypeText(c.ctype);
    TypeKey(d, TypeText(c.ctype));
    assert words[2..] == BaseWords(c);
  }

  /** What a base address without a space adds. */
  lemma BaseParsed(c: Candidate, d: Candidate)
    requires c.ctype.ServerReflexive? ==> SPACE !in c.baseAddr
    ensures Attributes(d, BaseWords(c))
            == (d.(relatedAddr := if c.ctype.ServerReflexive? then
                                    RelatedAddress(HostPort(c.baseAddr).0, HostPort(c.baseAddr).1)
                                  else d.relatedAddr), None)
  {
    hide ParseInt, HostPort, Words, RelatedWords, RelatedAddress;
    if c.ctype.ServerReflexive? {
      HostPortJoins(c.baseAddr);
      RelatedTextWords(HostPort(c.baseAddr).0, HostPort(c.baseAddr).1);
      RelatedParsed(d, HostPort(c.baseAddr).0, HostPort(c.baseAddr).1);
    }
  }

  /** A value that its key accepts. */
  predicate Reads(key: string, v: string) {
    (key == "generation" || key == "network-cost" ==> ParseInt(v).Some?)
    && (key == "typ" ==> TypeOf(v).Some?)
  }

  /** The type that the last of the words taken two by two gives, if any does. */
  function LastType(words: seq<string>, t: CandidateType): CandidateType {
    if |words| < 2 then t
    else LastType(words[2..], if words[0] == "typ" && TypeOf(words[1]).Some? then TypeOf(words[1]).value else t)
  }

  predicate AllRead(words: seq<string>) {
    forall k :: 0 <= k < |words| / 2 ==> Reads(words[2 * k], words[2 * k + 1])
  }

  /** The words of the base address are read, and the candidate keeps its type. Nothing but a space in
      the address can prevent it. */
  predicate KeepsType(c: Candidate) {
    AllRead(BaseWords(c)) && LastType(BaseWords(c), c.ctype) == c.ctype
  }

  lemma {:induction false} AttributesReadIff(d: Candidate, words: seq<string>)
    ensures var r := Attributes(d, words);
            (r.1.None? <==> AllRead(words)) && (r.1.None? ==> r.0.ctype == LastType(words, d.ctype))
    decreases |words|
  {
    hide ParseInt, TypeOf;
    if |words| >= 2 {
      AttributesReadIff(ApplyAttribute(d, words[0], words[1]).0, words[2..]);
      AllReadFromSecond(words);
    }
  }

  lemma AllReadFromSecond(words: seq<string>)
    requires |words| >= 2
    ensures AllRead(words) <==> Reads(words[0], words[1]) && AllRead(words[2..])
  {
    hide Reads;
    var rest := words[2..];
    if AllRead(words) {
      assert Reads(words[2 * 0], words[2 * 0 + 1]);
      forall k | 0 <= k < |rest| / 2
        ensures Reads(rest[2 * k], rest[2 * k + 1])
      {
        assert Reads(words[2 * (k + 1)], words[2 * (k + 1) + 1]);
      }
    }
    if Reads(words[0], words[1]) && AllRead(rest) {
      forall k | 0 <= k < |words| / 2
        ensures Reads(words[2 * k], words[2 * k + 1])
      {
        assert k > 0 ==> Reads(rest[2 * (k - 1)], rest[2 * (k - 1) + 1]);
      }
    }
  }

  lemma PlainBaseKeepsType(c: Candidate)
    requires c.ctype.ServerReflexive? ==> SPACE !in c.baseAddr
    ensures KeepsType(c)
  {
    hide ParseInt, HostPort, Words, RelatedAddress, AllRead, LastType, BaseWords;
    BaseParsed(c, c);
    AttributesReadIff(c, BaseWords(c));
  }

  lemma TypeKey(d: Candidate, v: string)
    ensures ApplyAttribute(d, "typ", v)
            == match TypeOf(v) case None => (d, Some(UnknownCandidateType)) case Some(t) => (d.(ctype := t), None)
  {
    assert |"generation"| != |"typ"| && |"network-cost"| != |"typ"|;
  }

  // ----- the whole -----

  /** Both forms of the text, with the attribute's letter and as the value of a line. */
  lemma PrefixesDropped(s: string)
    ensures Unprefixed("a=candidate:" + s) == s && Unprefixed("candidate:" + s) == s
  {
    var b := "candidate:" + s;
    assert "a=candidate:" + s == "a=" + b;
    assert ("a=" + b)[2..] == b && b[10..] == s;
  }

  lemma PrintsFourThenRest(c: Candidate)
    ensures PrintFields(c)
            == Itoa(c.foundation) + " " + (Itoa(c.componentID) + " " + (TransportText(c.transport) + " "
               + (Itoa(c.priority) + " " + (HostPort(c.addr).0 + " " + (HostPort(c.addr).1 + " " + PrintTail(c))))))
  {
  }

  /** The text up to the type, in the order of section 15.1 of RFC 5245. */
  function Head(c: Candidate, h: string, p: string): string {
    Itoa(c.foundation) + " " + (Itoa(c.componentID) + " " + ((if c.transport == UDP then "UDP" else "Unknown") + " "
    + (Itoa(c.priority) + " " + (h + " " + (p + " ")))))
  }

  /** What is printed, character by character. */
  lemma PrintLayout(c: Candidate, h: string, p: string, bh: string, bp: string)
    requires HostPort(c.addr) == (h, p) && HostPort(c.baseAddr) == (bh, bp)
    ensures Print(c)
            == "a=candidate:" + Head(c, h, p)
               + match c.ctype
                 case Host => "typ host"
                 case PeerReflexive => "typ prflx"
                 case Relay => "typ relay"
                 case ServerReflexive => "typ srflx raddr " + bh + " rport " + bp
                 case UnknownType => "typ unknown"
  {
    hide HostPort, Itoa, PrintTail, Head;
    TailLayout(c, bh, bp);
    HeadIsFields(c, h, p, PrintTail(c));
    PrintsFourThenRest(c);
  }

  lemma TailLayout(c: Candidate, bh: string, bp: string)
    requires HostPort(c.baseAddr) == (bh, bp)
    ensures PrintTail(c)
            == match c.ctype
               case Host => "typ host"
               case PeerReflexive => "typ prflx"
               case Relay => "typ relay"
               case ServerReflexive => "typ srflx raddr " + bh + " rport " + bp
               case UnknownType => "typ unknown"
  {
    hide HostPort;
    assert "typ " + "srflx" + (" raddr " + bh + " rport " + bp) == "typ srflx raddr " + bh + " rport " + bp;
  }

  /** Section 15.1 of RFC 5245: what type is read from a text with a word in its place. */
  lemma TypeIsRead(c: Candidate, h: string, p: string, w: string)
    requires MachineInts(c) && c.foundation >= 0 && c.componentID >= 0 && c.priority >= 0
    requires SPACE !in h && SPACE !in p && SPACE !in w && |w| > 1
    ensures var r := Parse(BLANK, "candidate:" + (Head(c, h, p) + ("typ " + w)));
            var d := BLANK.(foundation := c.foundation, componentID := c.componentID,
                            transport := if c.transport == UDP then UDP else OtherTransport,
                            priority := c.priority, addr := h + ":" + p);
            r == if w == "host" then (d.(ctype := Host), None)
                 else if w == "srflx" then (d.(ctype := ServerReflexive), None)
                 else if w == "prflx" then (d.(ctype := PeerReflexive), None)
                 else if w == "relay" then (d.(ctype := Relay), None)
                 else (d, Some(UnknownCandidateType))
  {
    hide Mandatory, Attributes, Words, Itoa, ParseInt, ParseFields, TypeOf, TypeText;
    var tail := "typ " + w;
    var s := Head(c, h, p) + tail;
    PrefixesDropped(s);
    ParseIntOfItoa(c.foundation);
    ParseIntOfItoa(c.componentID);
    ParseIntOfItoa(c.priority);
    HeadIsFields(c, h, p, tail);
    FirstFields(c.foundation, c.componentID, c.transport, c.priority, h + " " + (p + " " + tail));
    var d := FourFields(c.foundation, c.componentID, ReadTransport(c.transport), c.priority);
    AddressParsed(d, h, p, tail);
    OneTypeRead(d.(addr := h + [COLON] + p), w);
    ParsedByFields(s);
  }

  lemma HeadIsFields(c: Candidate, h: string, p: string, tail: string)
    ensures Head(c, h, p) + tail
            == Itoa(c.foundation) + " " + (Itoa(c.componentID) + " " + (TransportText(c.transport) + " "
               + (Itoa(c.priority) + " " + (h + " " + (p + " " + tail)))))
  {
    hide Itoa;
  }

  lemma ParsedByFields(s: string)
    ensures ParseFields(BLANK, s)
            == var m := Mandatory(BLANK, 0, s); if m.2.Some? then (m.0, m.2) else Attributes(m.0, Words(m.1))
  {
    hide Mandatory, Attributes, Words;
  }

  lemma OneTypeRead(d: Candidate, w: string)
    requires SPACE !in w && |w| > 1
    ensures Attributes(d, Words("typ " + w))
            == if w == "host" then (d.(ctype := Host), None)
               else if w == "srflx" then (d.(ctype := ServerReflexive), None)
               else if w == "prflx" then (d.(ctype := PeerReflexive), None)
               else if w == "relay" then (d.(ctype := Relay), None)
               else (d, Some(UnknownCandidateType))
  {
    hide Words, ParseInt, TypeOf, TypeText;
    WordThen("typ", w);
    LastWord(w);
    assert "typ " + w == "typ" + " " + w;
    var words := ["typ", w];
    assert ["typ"] + [w] == words;
    TypeKey(d, w);
    WordOfType(w);
    assert words[2..] == [];
  }

  lemma WordOfType(w: string)
    ensures TypeOf(w)
            == if w == "host" then Some(Host) else if w == "srflx" then Some(ServerReflexive)
               else if w == "prflx" then Some(PeerReflexive) else if w == "relay" then Some(Relay) else None
  {
    TypeWords(w, Host);
    TypeWords(w, ServerReflexive);
    TypeWords(w, PeerReflexive);
    TypeWords(w, Relay);
    if TypeOf(w).Some? {
      TypeWords(w, TypeOf(w).value);
    }
  }

  /** What parsing makes of a printed candidate whose numbers and addresses allow it. */
  function Recovered(c: Candidate): Candidate {
    BLANK.(foundation := c.foundation, componentID := c.componentID, transport := ReadTransport(c.transport),
           priority := c.priority, addr := c.addr, ctype := c.ctype,
           relatedAddr := if c.ctype.ServerReflexive? then
                            RelatedAddress(HostPort(c.baseAddr).0, HostPort(c.baseAddr).1)
                          else "")
  }

  lemma AddressParsed(d: Candidate, h: string, q: string, tail: string)
    requires SPACE !in h && SPACE !in q
    ensures Mandatory(d, 4, h + " " + (q + " " + tail)) == (d.(addr := h + [COLON] + q), tail, None)
  {
    hide Mandatory, ParseInt;
    FieldParsed(d, 4, h, q + " " + tail);
    FieldParsed(d.(addr := h), 5, q, tail);
    assert Mandatory(d.(addr := h + [COLON] + q), 6, tail) == (d.(addr := h + [COLON] + q), tail, None) by {
      MandatoryDone(d.(addr := h + [COLON] + q), tail);
    }
  }

  /** The candidate read so far when the words behind the type are next. */
  function ReadUpToType(c: Candidate): Candidate {
    FourFields(c.foundation, c.componentID, ReadTransport(c.transport), c.priority).(addr := c.addr, ctype := c.ctype)
  }

  lemma PrintableParses(c: Candidate)
    requires MachineInts(c) && Printable(c)
    ensures ParseFields(BLANK, PrintFields(c)) == Attributes(ReadUpToType(c), BaseWords(c))
  {
    hide Mandatory, Attributes, Words, Itoa, ParseInt, HostPort, PrintTail, PrintFields, BaseWords;
    ParseIntOfItoa(c.foundation);
    ParseIntOfItoa(c.componentID);
    ParseIntOfItoa(c.priority);
    HostPortJoins(c.addr);
    var h, q := HostPort(c.addr).0, HostPort(c.addr).1;
    PrintsFourThenRest(c);
    FirstFields(c.foundation, c.componentID, c.transport, c.priority, h + " " + (q + " " + PrintTail(c)));
    var d := FourFields(c.foundation, c.componentID, ReadTransport(c.transport), c.priority);
    AddressParsed(d, h, q, PrintTail(c));
    TailParsed(c, d.(addr := c.addr));
  }

  lemma ParsedIsPrintable(c: Candidate)
    requires MachineInts(c)
    requires ParseFields(BLANK, PrintFields(c)).1.None? && Equal(ParseFields(BLANK, PrintFields(c)).0, c)
    ensures Printable(c)
  {
    hide Mandatory, Attributes, Words, Itoa, ParseInt, HostPort, PrintTail, PrintFields, PlainAddress, BaseWords;
    var h, q := HostPort(c.addr).0, HostPort(c.addr).1;
    var rest := h + " " + (q + " " + PrintTail(c));
    PrintsFourThenRest(c);
    FirstFields(c.foundation, c.componentID, c.transport, c.priority, rest);
    var pf, pid, pp := ParseInt(Itoa(c.foundation)), ParseInt(Itoa(c.componentID)), ParseInt(Itoa(c.priority));
    var d := FourFields(pf.value, pid.value, ReadTransport(c.transport), pp.value);
    var m := Mandatory(d, 4, rest);
    AddressFieldsKeep(d, 4, rest);
    AttributesKeep(m.0, Words(m.1));
    ParseIntOfItoa(c.foundation);
    ParseIntOfItoa(c.componentID);
    ParseIntOfItoa(c.priority);
    HostPortJoins(c.addr);
    AddressParsed(d, h, q, PrintTail(c));
    TailParsed(c, m.0);
  }

  lemma ReadKeepsRest(c: Candidate)
    requires Printable(c)
    ensures var r := Attributes(ReadUpToType(c), BaseWords(c));
            r.1.None? && Equal(r.0, c) <==> KeepsType(c)
  {
    hide Attributes, BaseWords, AllRead, LastType, PlainAddress;
    AttributesReadIff(ReadUpToType(c), BaseWords(c));
    AttributesKeep(ReadUpToType(c), BaseWords(c));
  }

  lemma RecoveredIsEqual(c: Candidate)
    requires Printable(c)
    ensures Equal(Recovered(c), c)
  {
  }

  lemma PlainHasNoSpace(a: string)
    requires PlainAddress(a)
    ensures SPACE !in a
  {
  }

  /** Parse undoes String exactly for the candidates of known type and transport with non-negative
      numbers, an address that has one colon and neither brackets nor spaces, and a base address whose
      words do not give another type. */
  lemma ParseUndoesPrintIff(c: Candidate)
    requires MachineInts(c)
    ensures var r := Parse(BLANK, Print(c));
            r.1.None? && Equal(r.0, c) <==> Printable(c) && KeepsType(c)
    ensures Parse(BLANK, "candidate:" + PrintFields(c)) == Parse(BLANK, Print(c))
  {
    hide ParseFields, PrintFields, Printable, KeepsType, Equal, Attributes;
    PrefixesDropped(PrintFields(c));
    if Printable(c) {
      PrintableParses(c);
      ReadKeepsRest(c);
    } else if ParseFields(BLANK, PrintFields(c)).1.None? && Equal(ParseFields(BLANK, PrintFields(c)).0, c) {
      ParsedIsPrintable(c);
    }
  }

  /** With a base address that holds no space nothing else is lost but what Recovered leaves out. */
  lemma PlainCandidateRecovered(c: Candidate)
    requires MachineInts(c) && Printable(c) && (c.ctype.ServerReflexive? ==> SPACE !in c.baseAddr)
    ensures Parse(BLANK, Print(c)) == (Recovered(c), None) && KeepsType(c)
  {
    hide ParseFields, PrintFields, Printable, KeepsType, Attributes, BaseWords, HostPort, RelatedAddress;
    PrefixesDropped(PrintFields(c));
    PrintableParses(c);
    PlainBaseKeepsType(c);
    BaseParsed(c, ReadUpToType(c));
  }

  /** A base address that does not come back: a word in it reads as another type. */
  lemma BaseGivesType(c: Candidate)
    requires c.ctype == ServerReflexive && c.baseAddr == "h typ host:22"
    ensures !KeepsType(c)
  {
    hide Words, AllRead, HostPort, TypeOf;
    BaseSplits();
    ThreeWords("h", "typ", "host", "22");
    assert "h" + " " + "typ" + " " + "host" == "h typ host";
    var words := BaseWords(c);
    assert words[2..] == ["typ", "host", "rport", "22"] && words[2..][2..] == ["rport", "22"];
    assert words[2..][2..][2..] == [];
    TypeRead(Host);
    assert "raddr" != "typ" && "rport" != "typ";
    assert LastType(["rport", "22"], Host) == Host;
    assert LastType(words[2..], c.ctype) == Host;
  }

  /** The host of such an address, word by word. */
  lemma ThreeWords(a: string, k: string, v: string, q: string)
    requires SPACE !in a && SPACE !in k && SPACE !in v && SPACE !in q
    requires a != "" && k != "" && v != "" && |q| > 1
    ensures Words("raddr " + (a + " " + k + " " + v) + " rport " + q) == ["raddr", a, k, v, "rport", q]
  {
    hide Words;
    var port := "rport" + " " + q;
    WordThen("raddr", a + " " + (k + " " + (v + " " + port)));
    WordThen(a, k + " " + (v + " " + port));
    WordThen(k, v + " " + port);
    WordThen(v, port);
    WordThen("rport", q);
    LastWord(q);
    assert "raddr " + (a + " " + k + " " + v) + " rport " + q
           == "raddr" + " " + (a + " " + (k + " " + (v + " " + port)));
  }

  lemma BaseSplits()
    ensures HostPort("h typ host:22") == ("h typ host", "22")
  {
    var a := "h typ host:22";
    assert a[10] == COLON;
    assert LastIndexOf(a, COLON) == 10;
    assert a[..10] == "h typ host" && a[11..] == "22";
  }

  /** The related address of a server reflexive candidate comes back as its base, unless the port of
      the base is one character long: then only the host does. */
  lemma RelatedAddressRecovered(c: Candidate)
    requires MachineInts(c) && Printable(c) && c.ctype.ServerReflexive?
    requires PlainAddress(c.baseAddr) && HostPort(c.baseAddr).0 != ""
    ensures var r := Parse(BLANK, Print(c)).0;
            r.relatedAddr == c.baseAddr <==> |HostPort(c.baseAddr).1| > 1
  {
    hide Parse, Print, HostPort, PlainAddress;
    PlainHasNoSpace(c.baseAddr);
    HostPortJoins(c.baseAddr);
    PlainCandidateRecovered(c);
    var h, q := HostPort(c.baseAddr).0, HostPort(c.baseAddr).1;
    assert |h + [COLON] + q| > |h|;
  }
}
