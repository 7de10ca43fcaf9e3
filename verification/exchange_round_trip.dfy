/** What one agent offers is what the other reads (ice/icestreamtransport.go). */
module ExchangeRoundTrip {
  import opened Wrappers
  import opened Decimal
  import opened Text
  import Lines = SdpLines
  import opened IceTypes
  import opened PairPriority
  import Candidates = CandidateText
  import RoundTrip = CandidateRoundTrip
  import opened IceExchange

  /** A user fragment or a password that survives a line. */
  predicate Word(s: string) {
    s != "" && COLON !in s && NEWLINE !in s && !IsSpace(s[|s| - 1])
  }

  predicate EndsInText(s: string) {
    s != "" && !IsSpace(s[|s| - 1])
  }

  /** A candidate that survives a line. */
  predicate Sendable(c: Candidate) {
    RoundTrip.MachineInts(c) && RoundTrip.Printable(c) && NEWLINE !in c.addr
    && (c.ctype.ServerReflexive? ==>
          RoundTrip.PlainAddress(c.baseAddr) && NEWLINE !in c.baseAddr && EndsInText(Candidates.HostPort(c.baseAddr).1))
  }

  /** An address that the net package prints as it is, as it does with IPv4 addresses. */
  predicate Resolvable(addr: string, ipText: string -> string) {
    var ip := ResolvedIP(ipText, addr);
    ip != "" && (forall i :: 0 <= i < |ip| ==> !IsSpace(ip[i])) && ip + [COLON] + Itoa(ResolvedPort(addr)) == addr
  }

  predicate Exchangeable(o: Offer, ipText: string -> string) {
    Word(o.user) && Word(o.password)
    && (forall i :: 0 <= i < |o.candidates| ==> Sendable(o.candidates[i]))
    && FirstWith(o.candidates, o.defaultCandidate.addr).Some? && Resolvable(o.defaultCandidate.addr, ipText)
  }

  // ----- from text to lines -----

  function WithBlank(texts: seq<string>): seq<string> {
    texts + [""]
  }

  lemma {:induction false} TerminatedIsJoined(ls: seq<Lines.Line>)
    ensures Terminated(ls) == Join(WithBlank(Lines.PrintAll(ls)), NEWLINE)
  {
    hide Lines.Print;
    if ls == [] {
      assert WithBlank(Lines.PrintAll(ls)) == [""];
    } else {
      var front, last := ls[..|ls| - 1], ls[|ls| - 1];
      TerminatedIsJoined(front);
      assert Lines.PrintAll(ls) == Lines.PrintAll(front) + [Lines.Print(last)];
      JoinLast(Lines.PrintAll(front), Lines.Print(last));
    }
  }

  lemma JoinLast(texts: seq<string>, last: string)
    ensures Join(WithBlank(texts + [last]), NEWLINE) == Join(WithBlank(texts), NEWLINE) + last + [NEWLINE]
  {
    hide Join;
    JoinMore(texts + [last], NEWLINE, "");
    assert Join(texts + [last], NEWLINE) + [NEWLINE] + "" == Join(texts + [last], NEWLINE) + [NEWLINE];
    JoinOne(last);
    if texts != [] {
      JoinMore(texts, NEWLINE, last);
      JoinMore(texts, NEWLINE, "");
      assert Join(texts, NEWLINE) + [NEWLINE] + "" == Join(texts, NEWLINE) + [NEWLINE];
    } else {
      JoinOne("");
      assert [] + [last] == [last];
      assert WithBlank([]) == [""];
      assert "" + last == last;
    }
  }

  lemma JoinOne(s: string)
    ensures Join([s], NEWLINE) == s
  {
  }

  lemma {:induction false} NonBlankMore(texts: seq<string>)
    ensures Lines.NonBlank(WithBlank(texts)) == Lines.NonBlank(texts)
  {
    hide Trim;
    if texts == [] {
      TrimOfEmpty();
      assert WithBlank([])[1..] == [];
    } else {
      assert WithBlank(texts)[1..] == WithBlank(texts[1..]);
      NonBlankMore(texts[1..]);
    }
  }

  /** Lines with a newline behind each are read like lines with newlines between them. */
  lemma TerminatedParses(ls: seq<Lines.Line>)
    requires Lines.AllGood(ls)
    ensures Lines.ParseSession(Terminated(ls)) == (ls, true)
  {
    hide Lines.Good, Lines.Print, Split, Join, Lines.NonBlank, Trimmed, Terminated, Lines.ParseLines;
    var texts := Lines.PrintAll(ls);
    forall i | 0 <= i < |ls|
      ensures Trimmed(texts[i]) && NEWLINE !in texts[i]
    {
      Lines.GoodPrintIsTrimmed(ls[i]);
    }
    TerminatedIsJoined(ls);
    SplitOfJoin(WithBlank(texts), NEWLINE);
    NonBlankMore(texts);
    Lines.NonBlankOfTrimmed(texts);
    Lines.ParsePrinted(ls);
  }

  // ----- the lines are good -----

  lemma PartsOfAddress(a: string)
    requires RoundTrip.PlainAddress(a)
    ensures var hp := Candidates.HostPort(a);
            COLON !in hp.0 && COLON !in hp.1 && (NEWLINE !in a ==> NEWLINE !in hp.0 && NEWLINE !in hp.1)
  {
    hide Candidates.HostPort;
    RoundTrip.HostPortJoins(a);
    var hp, i := Candidates.HostPort(a), IndexOf(a, COLON);
    assert a[|hp.0|] == COLON;
    assert forall k :: i < k < |a| ==> a[k] == a[i + 1..][k - i - 1];
    assert |hp.0| == i;
    assert hp.0 == a[..i] && hp.1 == a[i + 1..];
  }

  predicate Inline(s: string) {
    COLON !in s && NEWLINE !in s
  }

  lemma PartsAreInline(a: string)
    requires RoundTrip.PlainAddress(a) && NEWLINE !in a
    ensures Inline(Candidates.HostPort(a).0) && Inline(Candidates.HostPort(a).1)
  {
    hide Candidates.HostPort, RoundTrip.PlainAddress;
    PartsOfAddress(a);
  }

  lemma TransportIsInline(t: Transport)
    ensures Inline(Candidates.TransportText(t))
  {
  }

  lemma ItoaIsInline(i: int)
    ensures Inline(Itoa(i))
  {
    hide Digits;
  }

  lemma EndOfConcat(a: string, b: string)
    requires EndsInText(b)
    ensures EndsInText(a + b)
  {
  }

  lemma TailIsGood(c: Candidate)
    requires Sendable(c)
    ensures Inline(Candidates.PrintTail(c)) && EndsInText(Candidates.PrintTail(c))
  {
    hide Candidates.HostPort, RoundTrip.PlainAddress, RoundTrip.MachineInts;
    var t := Candidates.TypeText(c.ctype);
    assert Inline("typ " + t) && EndsInText("typ " + t);
    if c.ctype.ServerReflexive? {
      PartsOfAddress(c.baseAddr);
      var h, q := Candidates.HostPort(c.baseAddr).0, Candidates.HostPort(c.baseAddr).1;
      assert Candidates.PrintTail(c) == "typ " + t + (" raddr " + h + " rport " + q);
      EndOfConcat("typ " + t, " raddr " + h + " rport " + q);
    } else {
      assert Candidates.PrintTail(c) == "typ " + t;
    }
  }

  lemma FieldsAreGood(c: Candidate)
    requires Sendable(c)
    ensures Inline(Candidates.PrintFields(c)) && EndsInText(Candidates.PrintFields(c))
  {
    hide Candidates.HostPort, Candidates.PrintTail, RoundTrip.PlainAddress, Itoa, Inline, EndsInText,
         Candidates.PrintFields, Candidates.TransportText, RoundTrip.MachineInts;
    TailIsGood(c);
    var h, q := Candidates.HostPort(c.addr).0, Candidates.HostPort(c.addr).1;
    PartsAreInline(c.addr);
    var s6 := FieldIsGood(q, Candidates.PrintTail(c));
    var s5 := FieldIsGood(h, s6);
    ItoaIsInline(c.priority);
    var s4 := FieldIsGood(Itoa(c.priority), s5);
    TransportIsInline(c.transport);
    var s3 := FieldIsGood(Candidates.TransportText(c.transport), s4);
    ItoaIsInline(c.componentID);
    var s2 := FieldIsGood(Itoa(c.componentID), s3);
    ItoaIsInline(c.foundation);
    var s1 := FieldIsGood(Itoa(c.foundation), s2);
    RoundTrip.PrintsFourThenRest(c);
  }

  lemma FieldIsGood(v: string, rest: string) returns (s: string)
    requires Inline(v) && Inline(rest) && EndsInText(rest)
    ensures s == v + " " + rest && Inline(s) && EndsInText(s)
  {
    s := v + " " + rest;
  }

  lemma PrefixedValueIsGood(t: char, prefix: string, v: string)
    requires !IsSpace(t) && t != Lines.DELIMITER && NEWLINE !in prefix && NEWLINE !in v && EndsInText(v)
    ensures Lines.Good(Lines.Line(t, prefix + v))
  {
  }

  lemma FixedLinesAreGood()
    ensures Lines.Good(Lines.Line('v', "0")) && Lines.Good(Lines.Line('s', "ice")) && Lines.Good(Lines.Line('t', "0 0"))
  {
  }

  lemma OriginIsGood()
    ensures Lines.Good(Lines.Line('o', "- " + SESSION_ID + " " + SESSION_ID + " IN IP4 localhost"))
  {
    hide Lines.Good;
    PrefixedValueIsGood('o', "- " + SESSION_ID + " " + SESSION_ID, " IN IP4 localhost");
  }

  lemma PreambleIsGood(o: Offer, ip: string, port: int)
    requires Word(o.user) && Word(o.password)
    requires ip != "" && forall i :: 0 <= i < |ip| ==> !IsSpace(ip[i])
    ensures Lines.AllGood(Preamble(o, ip, port))
  {
    hide Itoa, Lines.Good;
    FixedLinesAreGood();
    OriginIsGood();
    PrefixedValueIsGood('a', "ice-ufrag:", o.user);
    PrefixedValueIsGood('a', "ice-pwd:", o.password);
    ItoaIsInline(port);
    PrefixedValueIsGood('m', "audio " + Itoa(port), " RTP/AVP 0");
    PrefixedValueIsGood('c', "IN IP4 ", ip);
  }

  lemma CandidateLinesAreGood(cs: seq<Candidate>)
    requires forall i :: 0 <= i < |cs| ==> Sendable(cs[i])
    ensures Lines.AllGood(CandidateLines(cs))
  {
    hide Sendable, Lines.Good, Candidates.PrintFields;
    forall i | 0 <= i < |cs|
      ensures Lines.Good(CandidateLines(cs)[i])
    {
      FieldsAreGood(cs[i]);
      PrefixedValueIsGood('a', "candidate:", Candidates.PrintFields(cs[i]));
    }
  }

  /** The text of an offer (RFC 4566, and section 15 of RFC 5245): the fixed lines, and a line for each
      candidate, in order. */
  lemma OfferText(o: Offer, ipText: string -> string)
    ensures var ip := ipText(Candidates.HostPort(o.defaultCandidate.addr).0);
            var port := Itoa(AtoiOrRest(Candidates.HostPort(o.defaultCandidate.addr).1));
            Terminated(OfferLines(o, ipText))
            == "v=0\n" + ("o=- " + "3414953978" + " " + "3414953978" + " IN IP4 localhost\n") + "s=ice\n" + "t=0 0\n"
               + ("a=ice-ufrag:" + o.user + "\n") + ("a=ice-pwd:" + o.password + "\n")
               + ("m=audio " + port + " RTP/AVP 0\n") + ("c=IN IP4 " + ip + "\n")
               + CandidateText(o.candidates)
  {
    hide Terminated, Itoa, Candidates.HostPort, CandidateText, Preamble;
    var ip := ipText(Candidates.HostPort(o.defaultCandidate.addr).0);
    var port := AtoiOrRest(Candidates.HostPort(o.defaultCandidate.addr).1);
    TerminatedConcat(Preamble(o, ip, port), CandidateLines(o.candidates));
    PreambleText(o, ip, port);
    CandidateTextIs(o.candidates);
  }

  /** Each candidate as it is printed, with a newline behind it. */
  function CandidateText(cs: seq<Candidate>): string {
    if cs == [] then "" else CandidateText(cs[..|cs| - 1]) + Candidates.Print(cs[|cs| - 1]) + "\n"
  }

  lemma {:induction false} CandidateTextIs(cs: seq<Candidate>)
    ensures Terminated(CandidateLines(cs)) == CandidateText(cs)
  {
    hide Terminated, Candidates.Print, Lines.Print, CandidateLine;
    TerminatedEmpty();
    if cs != [] {
      var init, last := cs[..|cs| - 1], cs[|cs| - 1];
      CandidateTextIs(init);
      assert CandidateLines(cs) == CandidateLines(init) + [CandidateLine(last)];
      TerminatedMore(CandidateLines(init), CandidateLine(last));
      LineOfCandidate(last);
    }
  }

  lemma {:induction false} TerminatedConcat(a: seq<Lines.Line>, b: seq<Lines.Line>)
    ensures Terminated(a + b) == Terminated(a) + Terminated(b)
  {
    hide Terminated, Lines.Print;
    TerminatedEmpty();
    if b == [] {
      assert a + b == a;
    } else {
      var init, last := b[..|b| - 1], b[|b| - 1];
      TerminatedConcat(a, init);
      TerminatedMore(a + init, last);
      TerminatedMore(init, last);
      assert a + init + [last] == a + b && init + [last] == b;
    }
  }

  lemma PreambleText(o: Offer, ip: string, port: int)
    ensures Terminated(Preamble(o, ip, port))
            == "v=0\n" + ("o=- " + "3414953978" + " " + "3414953978" + " IN IP4 localhost\n") + "s=ice\n" + "t=0 0\n"
               + ("a=ice-ufrag:" + o.user + "\n") + ("a=ice-pwd:" + o.password + "\n")
               + ("m=audio " + Itoa(port) + " RTP/AVP 0\n") + ("c=IN IP4 " + ip + "\n")
  {
    hide Terminated, Itoa, Lines.Print;
    var p := Preamble(o, ip, port);
    FixedLinesText();
    OriginText("3414953978");
    NamesText(o);
    AddressText(ip, Itoa(port));
    EightLines(p);
  }

  lemma FixedLinesText()
    ensures Lines.Print(Lines.Line('v', "0")) + [NEWLINE] == "v=0\n"
    ensures Lines.Print(Lines.Line('s', "ice")) + [NEWLINE] == "s=ice\n"
    ensures Lines.Print(Lines.Line('t', "0 0")) + [NEWLINE] == "t=0 0\n"
  {
  }

  lemma OriginText(id: string)
    ensures Lines.Print(Lines.Line('o', "- " + id + " " + id + " IN IP4 localhost")) + [NEWLINE]
            == "o=- " + id + " " + id + " IN IP4 localhost\n"
  {
  }

  lemma NamesText(o: Offer)
    ensures Lines.Print(Lines.Line('a', "ice-ufrag:" + o.user)) + [NEWLINE] == "a=ice-ufrag:" + o.user + "\n"
    ensures Lines.Print(Lines.Line('a', "ice-pwd:" + o.password)) + [NEWLINE] == "a=ice-pwd:" + o.password + "\n"
  {
  }

  lemma AddressText(ip: string, port: string)
    ensures Lines.Print(Lines.Line('m', "audio " + port + " RTP/AVP 0")) + [NEWLINE]
            == "m=audio " + port + " RTP/AVP 0\n"
    ensures Lines.Print(Lines.Line('c', "IN IP4 " + ip)) + [NEWLINE] == "c=IN IP4 " + ip + "\n"
  {
  }

  lemma EightLines(p: seq<Lines.Line>)
    requires |p| == 8
    ensures Terminated(p)
            == (Lines.Print(p[0]) + [NEWLINE]) + (Lines.Print(p[1]) + [NEWLINE]) + (Lines.Print(p[2]) + [NEWLINE])
               + (Lines.Print(p[3]) + [NEWLINE]) + (Lines.Print(p[4]) + [NEWLINE]) + (Lines.Print(p[5]) + [NEWLINE])
               + (Lines.Print(p[6]) + [NEWLINE]) + (Lines.Print(p[7]) + [NEWLINE])
  {
    hide Terminated, Lines.Print;
    TerminatedEmpty();
    assert p[..0] == [] && p[..8] == p;
    LineMore(p, 0);
    LineMore(p, 1);
    LineMore(p, 2);
    LineMore(p, 3);
    LineMore(p, 4);
    LineMore(p, 5);
    LineMore(p, 6);
    LineMore(p, 7);
  }

  lemma LineMore(p: seq<Lines.Line>, i: nat)
    requires i < |p|
    ensures Terminated(p[..i + 1]) == Terminated(p[..i]) + (Lines.Print(p[i]) + [NEWLINE])
  {
    hide Terminated, Lines.Print;
    TerminatedMore(p[..i], p[i]);
    assert p[..i + 1] == p[..i] + [p[i]];
  }

  // ----- what the lines say -----

  lemma {:induction false} ApplyLinesConcat(d: Description, a: seq<Lines.Line>, b: seq<Lines.Line>)
    ensures ApplyLines(d, a + b) == var r := ApplyLines(d, a); if r.1.Some? then r else ApplyLines(r.0, b)
    decreases |a|
  {
    hide ApplyLine;
    if a == [] {
      assert a + b == b;
    } else {
      assert (a + b)[1..] == a[1..] + b;
      if ApplyLine(d, a[0]).1.None? {
        ApplyLinesConcat(ApplyLine(d, a[0]).0, a[1..], b);
      }
    }
  }

  lemma ApplyFirst(d: Description, e: Description, l: Lines.Line, rest: seq<Lines.Line>)
    requires ApplyLine(d, l) == (e, None)
    ensures ApplyLines(d, [l] + rest) == ApplyLines(e, rest)
  {
    hide ApplyLine;
    assert ([l] + rest)[1..] == rest;
  }

  lemma ApplyNone(d: Description)
    ensures ApplyLines(d, []) == (d, None)
  {
  }

  lemma PortScanned(port: int)
    requires RoundTrip.MachineInt(port)
    ensures ScanPort("audio " + Itoa(port) + " RTP/AVP 0") == Some(port)
  {
    hide Itoa, ScanDecimal, ScanWord, IsSpace;
    var rest := " RTP/AVP 0";
    var w := Itoa(port) + rest;
    assert "audio " + Itoa(port) + rest == "audio" + (" " + w);
    ItoaStartsInText(port);
    WordScanned("audio", w);
    DecimalScanned(port, rest);
  }

  lemma ItoaStartsInText(i: int)
    ensures !IsSpace(Itoa(i)[0])
  {
    hide Digits;
    if i >= 0 {
      assert IsDigit(Digits(i)[0]);
    }
  }

  lemma DecimalScanned(n: int, rest: string)
    requires RoundTrip.MachineInt(n) && rest != "" && !IsDigit(rest[0])
    ensures ScanDecimal(Itoa(n) + rest) == Some(n)
  {
    hide Digits, NumberOf, DigitPrefix;
    var digits := Digits(if n < 0 then -n else n);
    DigitPrefixOf(digits, rest);
    NumberOfDigits(if n < 0 then -n else n);
    if n < 0 {
      assert (Itoa(n) + rest)[1..] == digits + rest;
    } else {
      assert IsDigit(digits[0]);
    }
  }

  lemma WordScanned(word: string, rest: string)
    requires rest != "" && !IsSpace(rest[0])
    ensures ScanWord(word + (" " + rest), word) == Some(rest)
  {
    var v := word + (" " + rest);
    assert v[|word|..] == " " + rest;
    assert (" " + rest)[1..] == rest;
    assert TrimLeft(rest) == rest;
    assert v[|word|] == ' ' && v[..|word|] == word;
  }

  lemma {:induction false} UpToSpaceWhole(s: string)
    requires forall i :: 0 <= i < |s| ==> !IsSpace(s[i])
    ensures UpToSpace(s) == s
  {
    if s != "" {
      UpToSpaceWhole(s[1..]);
    }
  }

  lemma IPScanned(ip: string)
    requires ip != "" && forall i :: 0 <= i < |ip| ==> !IsSpace(ip[i])
    ensures ScanIP("IN IP4 " + ip) == Some(ip)
  {
    hide ScanWord;
    var rest := "IP4 " + ip;
    assert "IN IP4 " + ip == "IN" + (" " + rest);
    WordScanned("IN", rest);
    assert rest == "IP4" + (" " + ip);
    WordScanned("IP4", ip);
    UpToSpaceWhole(ip);
  }

  lemma PreambleRead(o: Offer, ip: string, port: int, rest: seq<Lines.Line>)
    requires Word(o.user) && Word(o.password) && RoundTrip.MachineInt(port)
    requires ip != "" && forall i :: 0 <= i < |ip| ==> !IsSpace(ip[i])
    ensures ApplyLines(EMPTY, Preamble(o, ip, port) + rest)
            == ApplyLines(Description(o.user, o.password, port, ip, [], None), rest)
  {
    hide ApplyLines, Itoa, ScanPort, ScanIP, Split, Candidates.Parse;
    var p := Preamble(o, ip, port);
    PortScanned(port);
    IPScanned(ip);
    KeyAndValue("ice-ufrag", o.user);
    KeyAndValue("ice-pwd", o.password);
    assert "ice-ufrag:" + o.user == "ice-ufrag" + [COLON] + o.user;
    assert "ice-pwd:" + o.password == "ice-pwd" + [COLON] + o.password;
    var d1 := EMPTY.(user := o.user);
    var d2 := d1.(password := o.password);
    var d3 := d2.(defaultPort := port);
    var d4 := d3.(defaultIP := ip);
    assert |"ice-ufrag"| != |"ice-pwd"|;
    ApplyFirst(d3, d4, p[7], rest);
    ApplyFirst(d2, d3, p[6], [p[7]] + rest);
    ApplyFirst(d1, d2, p[5], [p[6]] + ([p[7]] + rest));
    ApplyFirst(EMPTY, d1, p[4], [p[5]] + ([p[6]] + ([p[7]] + rest)));
    var tail := [p[4]] + ([p[5]] + ([p[6]] + ([p[7]] + rest)));
    ApplyFirst(EMPTY, EMPTY, p[3], tail);
    ApplyFirst(EMPTY, EMPTY, p[2], [p[3]] + tail);
    ApplyFirst(EMPTY, EMPTY, p[1], [p[2]] + ([p[3]] + tail));
    ApplyFirst(EMPTY, EMPTY, p[0], [p[1]] + ([p[2]] + ([p[3]] + tail)));
    assert p + rest == [p[0]] + ([p[1]] + ([p[2]] + ([p[3]] + tail)));
  }

  function RecoveredAll(cs: seq<Candidate>): (rs: seq<Candidate>)
    ensures |rs| == |cs| && forall i :: 0 <= i < |rs| ==> rs[i] == RoundTrip.Recovered(cs[i])
  {
    seq(|cs|, i requires 0 <= i < |cs| => RoundTrip.Recovered(cs[i]))
  }

  lemma SendableSpaceFree(c: Candidate)
    requires Sendable(c)
    ensures RoundTrip.MachineInts(c) && RoundTrip.Printable(c) && (c.ctype.ServerReflexive? ==> SPACE !in c.baseAddr)
  {
  }

  lemma CandidateRead(d: Description, c: Candidate)
    requires Sendable(c)
    ensures ApplyLine(d, CandidateLine(c)) == (d.(candidates := d.candidates + [RoundTrip.Recovered(c)]), None)
  {
    hide Sendable, Candidates.Parse, Candidates.PrintFields, Candidates.Print, RoundTrip.Printable,
         RoundTrip.Recovered, Split, RoundTrip.MachineInts, Candidates.Equal;
    FieldsAreGood(c);
    SendableSpaceFree(c);
    RoundTrip.ParseUndoesPrintIff(c);
    RoundTrip.PlainCandidateRecovered(c);
    KeyAndValue("candidate", Candidates.PrintFields(c));
    assert "candidate:" + Candidates.PrintFields(c) == "candidate" + [COLON] + Candidates.PrintFields(c);
    assert "candidate"[0] != "ice-ufrag"[0] && "candidate"[0] != "ice-pwd"[0];
  }

  lemma ListsStep(cs: seq<Candidate>)
    requires cs != []
    ensures CandidateLines(cs) == [CandidateLine(cs[0])] + CandidateLines(cs[1..])
    ensures RecoveredAll(cs) == [RoundTrip.Recovered(cs[0])] + RecoveredAll(cs[1..])
  {
    hide CandidateLine, RoundTrip.Recovered;
  }

  lemma {:induction false} CandidatesRead(d: Description, cs: seq<Candidate>)
    requires forall i :: 0 <= i < |cs| ==> Sendable(cs[i])
    ensures ApplyLines(d, CandidateLines(cs)) == (d.(candidates := d.candidates + RecoveredAll(cs)), None)
    decreases |cs|
  {
    hide Sendable, ApplyLine, ApplyLines, RoundTrip.Recovered, CandidateLine, CandidateLines, RecoveredAll;
    if cs == [] {
      ApplyNone(d);
      assert CandidateLines(cs) == [] && RecoveredAll(cs) == [];
      assert d.candidates + RecoveredAll(cs) == d.candidates;
    } else {
      CandidateRead(d, cs[0]);
      var e := d.(candidates := d.candidates + [RoundTrip.Recovered(cs[0])]);
      ListsStep(cs);
      ApplyFirst(d, e, CandidateLine(cs[0]), CandidateLines(cs[1..]));
      CandidatesRead(e, cs[1..]);
      assert e.candidates + RecoveredAll(cs[1..])
             == d.candidates + ([RoundTrip.Recovered(cs[0])] + RecoveredAll(cs[1..]));
    }
  }

  lemma {:induction false} RecoveredAddress(cs: seq<Candidate>, addr: string)
    ensures FirstWith(RecoveredAll(cs), addr)
            == match FirstWith(cs, addr) case None => None case Some(c) => Some(RoundTrip.Recovered(c))
  {
    if cs != [] {
      assert RecoveredAll(cs)[1..] == RecoveredAll(cs[1..]);
      RecoveredAddress(cs[1..], addr);
    }
  }

  /** The description that the other side reads. */
  function Received(o: Offer, ipText: string -> string): Description {
    Description(o.user, o.password, ResolvedPort(o.defaultCandidate.addr), ResolvedIP(ipText, o.defaultCandidate.addr),
                RecoveredAll(o.candidates), FirstWith(RecoveredAll(o.candidates), o.defaultCandidate.addr))
  }

  lemma OfferIsRead(o: Offer, ipText: string -> string)
    requires Exchangeable(o, ipText)
    ensures Decode(Terminated(OfferLines(o, ipText))) == (Received(o, ipText), None)
  {
    hide Sendable, Preamble, Terminated, ApplyLines, Lines.ParseSession, ResolvedIP, ResolvedPort, Lines.Good,
         RecoveredAll, CandidateLines;
    var addr := o.defaultCandidate.addr;
    var ip, port := ResolvedIP(ipText, addr), ResolvedPort(addr);
    PreambleIsGood(o, ip, port);
    CandidateLinesAreGood(o.candidates);
    GoodConcat(Preamble(o, ip, port), CandidateLines(o.candidates));
    TerminatedParses(OfferLines(o, ipText));
    PreambleRead(o, ip, port, CandidateLines(o.candidates));
    CandidatesRead(Description(o.user, o.password, port, ip, [], None), o.candidates);
    assert [] + RecoveredAll(o.candidates) == RecoveredAll(o.candidates);
    RecoveredAddress(o.candidates, addr);
    assert o.candidates != [];
  }

  lemma GoodConcat(a: seq<Lines.Line>, b: seq<Lines.Line>)
    requires Lines.AllGood(a) && Lines.AllGood(b)
    ensures Lines.AllGood(a + b)
  {
  }

  /** The main result: the other side recovers the user fragment, the password, every candidate in
      order, equal to the one that was offered, and a default candidate with the default address. */
  lemma DecodeUndoesEncode(o: Offer, ipText: string -> string)
    requires Exchangeable(o, ipText)
    ensures var r := Decode(Terminated(OfferLines(o, ipText)));
      && r.1.None? && r.0.user == o.user && r.0.password == o.password
      && |r.0.candidates| == |o.candidates|
      && (forall i :: 0 <= i < |o.candidates| ==> Candidates.Equal(r.0.candidates[i], o.candidates[i]))
      && r.0.defaultCandidate.Some? && r.0.defaultCandidate.value in r.0.candidates
      && r.0.defaultCandidate.value.addr == o.defaultCandidate.addr
  {
    hide Sendable, Decode, Terminated, OfferLines, Resolvable, ResolvedIP, Candidates.Equal, RoundTrip.Recovered;
    OfferIsRead(o, ipText);
    RecoveredAddress(o.candidates, o.defaultCandidate.addr);
    forall i | 0 <= i < |o.candidates|
      ensures Candidates.Equal(RecoveredAll(o.candidates)[i], o.candidates[i])
    {
      SendableSpaceFree(o.candidates[i]);
      RoundTrip.RecoveredIsEqual(o.candidates[i]);
    }
  }

  lemma SampleAddress()
    ensures Candidates.HostPort("h:1") == ("h", "1") && RoundTrip.PlainAddress("h:1") && NEWLINE !in "h:1"
  {
    var a := "h:1";
    IndexIs(a, COLON, 1);
    assert Candidates.LastIndexOf(a, COLON) == 1;
    assert a[..1] == "h" && a[2..] == "1";
  }

  /** There are such offers. */
  lemma SomeOfferIsExchangeable() returns (o: Offer)
    ensures Exchangeable(o, (s: string) => s)
  {
    hide Candidates.HostPort, RoundTrip.PlainAddress;
    var c := BLANK.(addr := "h:1", transport := UDP, ctype := Host);
    o := Offer("u", "p", [c], c);
    SampleAddress();
    AtoiOfItoa(1);
    assert Itoa(1) == "1";
    assert ResolvedIP((s: string) => s, "h:1") == "h" && ResolvedPort("h:1") == 1;
    assert "h" + [COLON] + "1" == "h:1";
  }

  /** What a gathered candidate must be like for its offer to be read: its address and, if it is
      server reflexive, its base must be plain, its type known and its foundation not negative. */
  predicate Offerable(c: Candidate) {
    c.ctype != UnknownType && 0 <= c.foundation <= INT64_MAX && RoundTrip.PlainAddress(c.addr) && NEWLINE !in c.addr
    && (c.ctype.ServerReflexive? ==>
          RoundTrip.PlainAddress(c.baseAddr) && NEWLINE !in c.baseAddr && EndsInText(Candidates.HostPort(c.baseAddr).1))
  }

  /** For candidates as they are gathered, component ids and priorities are never in the way, and the
      default that is read has the address of the last candidate. */
  lemma GatheredOfferIsRead(user: string, password: string, cs: seq<Candidate>, id: int, ipText: string -> string)
    requires cs != [] && 0 <= id <= INT64_MAX && Word(user) && Word(password)
    requires forall i :: 0 <= i < |cs| ==> Offerable(cs[i])
    requires Resolvable(cs[|cs| - 1].addr, ipText)
    ensures var o := GatheredOffer(user, password, cs, id);
            var r := Decode(Terminated(OfferLines(o, ipText)));
      && r.1.None? && r.0.user == user && r.0.password == password && |r.0.candidates| == |cs|
      && (forall i :: 0 <= i < |cs| ==> Candidates.Equal(r.0.candidates[i], o.candidates[i]))
      && r.0.defaultCandidate.Some? && r.0.defaultCandidate.value.addr == cs[|cs| - 1].addr
  {
    hide Decode, Terminated, OfferLines, Resolvable, ResolvedIP, Candidates.Equal, Sendable, Offerable,
         RoundTrip.PlainAddress;
    var o := GatheredOffer(user, password, cs, id);
    forall i | 0 <= i < |cs|
      ensures Sendable(o.candidates[i])
    {
      GatheredIsSendable(cs[i], id);
    }
    assert o.defaultCandidate in o.candidates;
    DecodeUndoesEncode(o, ipText);
  }

  lemma GatheredIsSendable(c: Candidate, id: int)
    requires Offerable(c) && 0 <= id <= INT64_MAX
    ensures Sendable(c.(componentID := id,
                        priority := CalcCandidatePriority(c.ctype, DEFAULT_PREFERENCE, id),
                        transport := UDP))
  {
    hide RoundTrip.PlainAddress, Candidates.HostPort, CalcCandidatePriority, EndsInText;
    CandidatePriorityInRange(c.ctype, DEFAULT_PREFERENCE, id);
  }
}
