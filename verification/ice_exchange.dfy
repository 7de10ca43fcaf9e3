/** The session description two ICE agents exchange (ice/icestreamtransport.go). */
module IceExchange {
  import opened Wrappers
  import opened Decimal
  import opened Text
  import Lines = SdpLines
  import opened IceTypes
  import opened PairPriority
  import Candidates = CandidateText
  import RoundTrip = CandidateRoundTrip

  const COLON: char := ':'
  const DEFAULT_PREFERENCE := 0xffff
  const SESSION_ID := "3414953978"

  /** What one side offers. */
  datatype Offer = Offer(user: string, password: string, candidates: seq<Candidate>, defaultCandidate: Candidate)

  /** The last steps of GetCandidates: every candidate gets its component, priority and transport,
      and the last one becomes the default. The source crashes on an empty list. */
  function Gathered(cs: seq<Candidate>, id: int): (r: seq<Candidate>)
    ensures |r| == |cs|
  {
    seq(|cs|, i requires 0 <= i < |cs| =>
      cs[i].(componentID := id,
             priority := CalcCandidatePriority(cs[i].ctype, DEFAULT_PREFERENCE, id),
             transport := UDP))
  }

  /** What GetCandidates leaves: one component id, the priority of section 4.1.2.1 of RFC 5245 with the
      highest local preference, and UDP; the last candidate is the default. */
  lemma GatheredIs(user: string, password: string, cs: seq<Candidate>, id: int, i: nat)
    requires i < |cs|
    ensures var o := GatheredOffer(user, password, cs, id);
      && o.user == user && o.password == password && |o.candidates| == |cs|
      && o.candidates[i] == cs[i].(componentID := id, transport := UDP,
                                   priority := CalcCandidatePriority(cs[i].ctype, 65535, id))
      && o.defaultCandidate == o.candidates[|cs| - 1]
  {
  }

  function GatheredOffer(user: string, password: string, cs: seq<Candidate>, id: int): Offer
    requires cs != []
  {
    Offer(user, password, Gathered(cs, id), Gathered(cs, id)[|cs| - 1])
  }

  /** strconv.Atoi with its error ignored. */
  function AtoiOrRest(s: string): int {
    match Atoi(s)
    case Success(i) => i
    case Failure(Syntax) => 0
    case Failure(Range) => if s[0] == '-' then INT64_MIN else INT64_MAX
  }

  /** A text that is no number counts as zero, a number that does not fit as the nearest that does. */
  lemma PortOrRest(s: string)
    ensures Atoi(s).Success? ==> AtoiOrRest(s) == Atoi(s).value
    ensures Atoi(s) == Failure(Syntax) ==> AtoiOrRest(s) == 0
    ensures Atoi(s) == Failure(Range) ==>
              AtoiOrRest(s) == if s[0] == '-' then -0x8000_0000_0000_0000 else 0x7FFF_FFFF_FFFF_FFFF
  {
  }

  /** addrToUDPAddr. How the net package rewrites the text of an IP address is a parameter. */
  function ResolvedIP(ipText: string -> string, addr: string): string {
    ipText(Candidates.HostPort(addr).0)
  }

  function ResolvedPort(addr: string): (port: int)
    ensures RoundTrip.MachineInt(port)
  {
    AtoiOrRest(Candidates.HostPort(addr).1)
  }

  // ----- encoding -----

  function CandidateLine(c: Candidate): Lines.Line {
    Lines.Line('a', "candidate:" + Candidates.PrintFields(c))
  }

  function CandidateLines(cs: seq<Candidate>): (ls: seq<Lines.Line>)
    ensures |ls| == |cs| && forall i :: 0 <= i < |ls| ==> ls[i] == CandidateLine(cs[i])
  {
    seq(|cs|, i requires 0 <= i < |cs| => CandidateLine(cs[i]))
  }

  function Preamble(o: Offer, ip: string, port: int): seq<Lines.Line> {
    [Lines.Line('v', "0"), Lines.Line('o', "- " + SESSION_ID + " " + SESSION_ID + " IN IP4 localhost"),
     Lines.Line('s', "ice"),
     Lines.Line('t', "0 0"), Lines.Line('a', "ice-ufrag:" + o.user), Lines.Line('a', "ice-pwd:" + o.password),
     Lines.Line('m', "audio " + Itoa(port) + " RTP/AVP 0"), Lines.Line('c', "IN IP4 " + ip)]
  }

  function OfferLines(o: Offer, ipText: string -> string): seq<Lines.Line> {
    Preamble(o, ResolvedIP(ipText, o.defaultCandidate.addr), ResolvedPort(o.defaultCandidate.addr))
    + CandidateLines(o.candidates)
  }

  /** Every line with a newline behind it. */
  function Terminated(ls: seq<Lines.Line>): string {
    if ls == [] then "" else Terminated(ls[..|ls| - 1]) + Lines.Print(ls[|ls| - 1]) + [NEWLINE]
  }

  lemma TerminatedMore(ls: seq<Lines.Line>, l: Lines.Line)
    ensures Terminated(ls + [l]) == Terminated(ls) + Lines.Print(l) + [NEWLINE]
  {
    assert (ls + [l])[..|ls|] == ls;
  }

  lemma TerminatedEmpty()
    ensures Terminated([]) == ""
  {
  }

  lemma LineOfCandidate(c: Candidate)
    ensures Lines.Print(CandidateLine(c)) == Candidates.Print(c)
  {
    hide Candidates.PrintFields;
  }

  method AppendLines(b: string, ls: seq<Lines.Line>, ghost before: seq<Lines.Line>) returns (s: string)
    requires b == Terminated(before)
    ensures s == Terminated(before + ls)
  {
    hide Lines.Print, Terminated;
    s := b;
    assert before + ls[..0] == before;
    for k := 0 to |ls|
      invariant s == Terminated(before + ls[..k])
    {
      TerminatedMore(before + ls[..k], ls[k]);
      assert before + ls[..k + 1] == before + ls[..k] + [ls[k]];
      s := s + Lines.Print(ls[k]) + [NEWLINE];
    }
    assert ls[..|ls|] == ls;
  }

  method AppendCandidates(b: string, cs: seq<Candidate>, ghost before: seq<Lines.Line>) returns (s: string)
    requires b == Terminated(before)
    ensures s == Terminated(before + CandidateLines(cs))
  {
    hide Lines.Print, Candidates.Print, Terminated, CandidateLine;
    s := b;
    ghost var ls := CandidateLines(cs);
    assert before + ls[..0] == before;
    for k := 0 to |cs|
      invariant s == Terminated(before + ls[..k])
    {
      TerminatedMore(before + ls[..k], ls[k]);
      assert before + ls[..k + 1] == before + ls[..k] + [ls[k]];
      LineOfCandidate(cs[k]);
      s := s + Candidates.Print(cs[k]) + [NEWLINE];
    }
    assert ls[..|ls|] == ls;
  }

  /** Writes the fixed lines and then one line for each candidate. */
  method EncodeSession(session: Option<Offer>, ipText: string -> string) returns (s: string, ok: bool)
    ensures ok <==> session.Some?
    ensures ok ==> s == Terminated(OfferLines(session.value, ipText))
  {
    hide Preamble, ResolvedIP, ResolvedPort, Terminated, CandidateLines;
    if session.None? {
      return "", false;
    }
    var o := session.value;
    var preamble := Preamble(o, ResolvedIP(ipText, o.defaultCandidate.addr), ResolvedPort(o.defaultCandidate.addr));
    TerminatedEmpty();
    s := AppendLines("", preamble, []);
    assert [] + preamble == preamble;
    s := AppendCandidates(s, o.candidates, preamble);
    ok := true;
  }

  // ----- scanning -----

  function DigitPrefix(s: string): (d: string)
    ensures AllDigits(d)
  {
    if s != "" && IsDigit(s[0]) then [s[0]] + DigitPrefix(s[1..]) else ""
  }

  /** The decimal verb of fmt.Sscanf, on text without leading space. */
  function ScanDecimal(s: string): Option<int> {
    var sign := if s != "" && s[0] == '-' then -1 else 1;
    var d := DigitPrefix(if s != "" && (s[0] == '-' || s[0] == '+') then s[1..] else s);
    if d == "" || !(INT64_MIN <= sign * NumberOf(d) <= INT64_MAX) then None else Some(sign * NumberOf(d))
  }

  /** A literal of a format and the space behind it: at least one space of the text, unless the text
      ends. */
  function ScanWord(v: string, w: string): Option<string> {
    if !(w <= v) then None
    else if v[|w|..] != "" && !IsSpace(v[|w|]) then None
    else Some(TrimLeft(v[|w|..]))
  }

  /** fmt.Sscanf with "audio %d RTP/": only the number counts, as errors are ignored. */
  function ScanPort(v: string): Option<int> {
    match ScanWord(v, "audio")
    case None => None
    case Some(rest) => ScanDecimal(rest)
  }

  function UpToSpace(s: string): (t: string)
    ensures t <= s
  {
    if s == "" || IsSpace(s[0]) then "" else [s[0]] + UpToSpace(s[1..])
  }

  /** fmt.Sscanf with "IN IP4 %s". */
  function ScanIP(v: string): Option<string> {
    match ScanWord(v, "IN")
    case None => None
    case Some(rest) =>
      match ScanWord(rest, "IP4")
      case None => None
      case Some(token) => if token == "" then None else Some(UpToSpace(token))
  }

  /** A literal of a format and the space behind it. */
  lemma WordReads(w: string, blank: string, rest: string)
    requires (forall i :: 0 <= i < |blank| ==> IsSpace(blank[i])) && (rest != "" ==> !IsSpace(rest[0]))
    ensures ScanWord(w + (blank + rest), w) == if blank == "" && rest != "" then None else Some(rest)
  {
    hide IsSpace;
    var v := w + (blank + rest);
    assert v[|w|..] == blank + rest && v[..|w|] == w;
    if blank != "" {
      assert v[|w|] == blank[0];
    } else if rest != "" {
      assert v[|w|] == rest[0];
    }
    BlankTrimmed(blank, rest);
  }

  lemma {:induction false} BlankTrimmed(blank: string, rest: string)
    requires (forall i :: 0 <= i < |blank| ==> IsSpace(blank[i])) && (rest != "" ==> !IsSpace(rest[0]))
    ensures TrimLeft(blank + rest) == rest
  {
    hide IsSpace;
    if blank == "" {
      assert blank + rest == rest;
    } else {
      assert (blank + rest)[1..] == blank[1..] + rest;
      BlankTrimmed(blank[1..], rest);
    }
  }

  lemma WordMissing(v: string, w: string)
    ensures !(w <= v) ==> ScanWord(v, w) == None
  {
  }

  /** A sign or none, and digits as far as they go. */
  lemma DecimalReads(sign: string, d: string, rest: string)
    requires (sign == "" || sign == "-" || sign == "+") && AllDigits(d)
    requires rest != "" ==> !IsDigit(rest[0])
    requires sign + d == "" && rest != "" ==> rest[0] != '-' && rest[0] != '+'
    ensures var i := if sign == "-" then -(NumberOf(d) as int) else NumberOf(d);
            ScanDecimal(sign + (d + rest))
            == if d == "" || !(-0x8000_0000_0000_0000 <= i < 0x8000_0000_0000_0000) then None else Some(i)
  {
    hide NumberOf, DigitPrefix;
    var s := sign + (d + rest);
    DigitPrefixOf(d, rest);
    if sign == "" {
      assert s == d + rest;
    } else {
      assert s[1..] == d + rest;
    }
  }

  lemma {:induction false} DigitPrefixOf(d: string, rest: string)
    requires AllDigits(d) && (rest != "" ==> !IsDigit(rest[0]))
    ensures DigitPrefix(d + rest) == d
  {
    if d == "" {
      assert d + rest == rest;
    } else {
      assert (d + rest)[1..] == d[1..] + rest;
      DigitPrefixOf(d[1..], rest);
    }
  }

  /** The port and the address that are scanned, from the words of the formats. */
  lemma ScansAre(blank: string, rest: string, blank2: string, ip: string, more: string)
    requires blank != "" && blank2 != "" && ip != ""
    requires forall i :: 0 <= i < |blank| ==> IsSpace(blank[i])
    requires forall i :: 0 <= i < |blank2| ==> IsSpace(blank2[i])
    requires forall i :: 0 <= i < |ip| ==> !IsSpace(ip[i])
    requires (rest != "" ==> !IsSpace(rest[0])) && (more != "" ==> IsSpace(more[0]))
    ensures ScanPort("audio" + (blank + rest)) == ScanDecimal(rest)
    ensures ScanIP("IN" + (blank + ("IP4" + (blank2 + (ip + more))))) == Some(ip)
    ensures ScanIP("IN" + (blank + "IP4")) == None
  {
    hide IsSpace, ScanDecimal, ScanWord;
    assert !IsSpace('I') by { NoSpaces(); }
    WordReads("audio", blank, rest);
    var second := "IP4" + (blank2 + (ip + more));
    WordReads("IN", blank, second);
    WordReads("IP4", blank2, ip + more);
    WordReads("IN", blank, "IP4");
    assert "IP4" == "IP4" + ("" + "");
    WordReads("IP4", "", "");
    UpToSpaceIs(ip, more);
  }

  lemma NoSpaces()
    ensures !IsSpace('I')
  {
  }

  lemma {:induction false} UpToSpaceIs(t: string, more: string)
    requires (forall i :: 0 <= i < |t| ==> !IsSpace(t[i])) && (more != "" ==> IsSpace(more[0]))
    ensures UpToSpace(t + more) == t
  {
    hide IsSpace;
    if t == "" {
      assert t + more == more;
    } else {
      assert (t + more)[1..] == t[1..] + more;
      UpToSpaceIs(t[1..], more);
    }
  }

  // ----- decoding -----

  datatype Description = Description(
    user: string,
    password: string,
    defaultPort: int,
    defaultIP: string,
    candidates: seq<Candidate>,
    defaultCandidate: Option<Candidate>)

  const EMPTY: Description := Description("", "", 0, "", [], None)

  datatype DecodeFailure =
    | BadLine
    | BadAttribute
    | BadCandidate(why: Candidates.ParseFailure)
    | Incomplete
    | NoDefaultCandidate

  function ApplyLine(d: Description, l: Lines.Line): (Description, Option<DecodeFailure>) {
    if l.ltype == 'a' then
      var ss := Split(l.value, COLON);
      if |ss| != 2 then (d, Some(BadAttribute))
      else if ss[0] == "ice-ufrag" then (d.(user := ss[1]), None)
      else if ss[0] == "ice-pwd" then (d.(password := ss[1]), None)
      else if ss[0] == "candidate" then
        var r := Candidates.Parse(BLANK, l.value);
        if r.1.Some? then (d, Some(BadCandidate(r.1.value))) else (d.(candidates := d.candidates + [r.0]), None)
      else (d, None)
    else if l.ltype == 'm' then
      (match ScanPort(l.value) case None => (d, None) case Some(p) => (d.(defaultPort := p), None))
    else if l.ltype == 'c' then
      (match ScanIP(l.value) case None => (d, None) case Some(ip) => (d.(defaultIP := ip), None))
    else (d, None)
  }

  /** What each line sets: later lines win, candidates gather, and lines of other types and attributes
      with other keys are passed over. An attribute must hold exactly one colon. */
  lemma LinesSet(d: Description, key: string, v: string, t: char, whole: string)
    requires ':' !in key && ':' !in v
    ensures ApplyLine(d, Lines.Line('a', key + ":" + v))
            == if key == "ice-ufrag" then (d.(user := v), None)
               else if key == "ice-pwd" then (d.(password := v), None)
               else if key != "candidate" then (d, None)
               else
                 var r := Candidates.Parse(BLANK, key + ":" + v);
                 if r.1.Some? then (d, Some(BadCandidate(r.1.value)))
                 else (d.(candidates := d.candidates + [r.0]), None)
    ensures |Split(whole, ':')| != 2 ==> ApplyLine(d, Lines.Line('a', whole)) == (d, Some(BadAttribute))
    ensures ApplyLine(d, Lines.Line('m', whole))
            == (if ScanPort(whole).Some? then d.(defaultPort := ScanPort(whole).value) else d, None)
    ensures ApplyLine(d, Lines.Line('c', whole))
            == (if ScanIP(whole).Some? then d.(defaultIP := ScanIP(whole).value) else d, None)
    ensures t != 'a' && t != 'm' && t != 'c' ==> ApplyLine(d, Lines.Line(t, whole)) == (d, None)
  {
    hide Split, Candidates.Parse, ScanPort, ScanIP;
    assert key + ":" + v == key + [COLON] + v;
    KeyAndValue(key, v);
  }

  lemma KeyAndValue(key: string, v: string)
    requires COLON !in key && COLON !in v
    ensures Split(key + [COLON] + v, COLON) == [key, v]
  {
    hide Split;
    SplitAt(key, COLON, v);
    SplitWhole(v, COLON);
  }

  function ApplyLines(d: Description, ls: seq<Lines.Line>): (Description, Option<DecodeFailure>)
    decreases |ls|
  {
    if ls == [] then (d, None)
    else
      var r := ApplyLine(d, ls[0]);
      if r.1.Some? then r else ApplyLines(r.0, ls[1..])
  }

  predicate Complete(d: Description) {
    d.user != "" && d.password != "" && d.defaultIP != "" && d.candidates != []
  }

  function DefaultAddr(d: Description): string {
    d.defaultIP + [COLON] + Itoa(d.defaultPort)
  }

  /** The checks at the end, and the search for the default candidate. */
  function Finished(d: Description): (Description, Option<DecodeFailure>) {
    if !Complete(d) then (d, Some(Incomplete))
    else
      var c := FirstWith(d.candidates, DefaultAddr(d));
      (d.(defaultCandidate := c), if c.Some? then None else Some(NoDefaultCandidate))
  }

  function Decode(text: string): (Description, Option<DecodeFailure>) {
    var s := Lines.ParseSession(text);
    if !s.1 then (EMPTY, Some(BadLine))
    else
      var r := ApplyLines(EMPTY, s.0);
      if r.1.Some? then r else Finished(r.0)
  }

  /** How decoding ends: at the first bad line of the text, at the first refused line, without one of
      the four things that must be there, or with the first candidate that has the default address. */
  lemma DecodeEnds(text: string)
    ensures var (ls, ok) := Lines.ParseSession(text);
            var (d, err) := ApplyLines(EMPTY, ls);
            Decode(text)
            == if !ok then (EMPTY, Some(BadLine))
               else if err.Some? then (d, err)
               else if d.user == "" || d.password == "" || d.defaultIP == "" || d.candidates == [] then
                 (d, Some(Incomplete))
               else
                 var c := FirstWith(d.candidates, d.defaultIP + ":" + Itoa(d.defaultPort));
                 (d.(defaultCandidate := c), if c.Some? then None else Some(NoDefaultCandidate))
    ensures EMPTY == Description("", "", 0, "", [], None)
  {
    hide ApplyLines, Lines.ParseSession, FirstWith, Itoa;
  }

  /** The loop over the lines. */
  method DecodeLines(ls: seq<Lines.Line>) returns (d: Description, err: Option<DecodeFailure>)
    ensures (d, err) == ApplyLines(EMPTY, ls)
  {
    hide ApplyLine;
    d := EMPTY;
    assert ls[0..] == ls;
    for k := 0 to |ls|
      invariant ApplyLines(d, ls[k..]) == ApplyLines(EMPTY, ls)
    {
      assert ls[k..][1..] == ls[k + 1..];
      d, err := ApplyTo(d, ls[k]);
      if err.Some? {
        return;
      }
    }
    err := None;
  }

  /** The search for the first candidate with the default address. */
  method FindDefault(cs: seq<Candidate>, addr: string) returns (c: Option<Candidate>)
    ensures c == FirstWith(cs, addr)
  {
    for k := 0 to |cs|
      invariant FirstWith(cs[..k], addr).None?
    {
      FirstWithExtends(cs[..k], cs[k], addr);
      assert cs[..k + 1] == cs[..k] + [cs[k]];
      if cs[k].addr == addr {
        FirstWithPrefix(cs, k + 1, addr);
        return Some(cs[k]);
      }
    }
    assert cs[..|cs|] == cs;
    c := None;
  }

  method DecodeSession(text: string) returns (d: Description, err: Option<DecodeFailure>)
    ensures (d, err) == Decode(text)
  {
    hide ApplyLines, Lines.ParseSession, DefaultAddr, FirstWith;
    var ls, ok := Lines.DecodeSession(text, []);
    assert [] + Lines.ParseSession(text).0 == Lines.ParseSession(text).0;
    if !ok {
      return EMPTY, Some(BadLine);
    }
    d, err := DecodeLines(ls);
    if err.Some? {
      return;
    }
    if d.user == "" || d.password == "" || d.defaultIP == "" || d.candidates == [] {
      return d, Some(Incomplete);
    }
    var c := FindDefault(d.candidates, DefaultAddr(d));
    d := d.(defaultCandidate := c);
    err := if c.None? then Some(NoDefaultCandidate) else None;
  }

  lemma FirstWithStep(cs: seq<Candidate>, addr: string)
    ensures FirstWith(cs, addr)
            == if cs == [] then None else if cs[0].addr == addr then Some(cs[0]) else FirstWith(cs[1..], addr)
  {
  }

  lemma {:induction false} FirstWithPrefix(cs: seq<Candidate>, k: nat, addr: string)
    requires k <= |cs| && FirstWith(cs[..k], addr).Some?
    ensures FirstWith(cs, addr) == FirstWith(cs[..k], addr)
  {
    hide FirstWith;
    FirstWithStep(cs[..k], addr);
    FirstWithStep(cs, addr);
    if cs[0].addr != addr {
      assert cs[..k][1..] == cs[1..][..k - 1];
      FirstWithPrefix(cs[1..], k - 1, addr);
    }
  }

  method ApplyTo(d0: Description, l: Lines.Line) returns (d: Description, err: Option<DecodeFailure>)
    ensures (d, err) == ApplyLine(d0, l)
  {
    hide Split, Candidates.Parse, ScanPort, ScanIP;
    d, err := d0, None;
    if l.ltype == 'a' {
      var ss := Split(l.value, COLON);
      if |ss| != 2 {
        return d, Some(BadAttribute);
      }
      if ss[0] == "ice-ufrag" {
        d := d.(user := ss[1]);
      } else if ss[0] == "ice-pwd" {
        d := d.(password := ss[1]);
      } else if ss[0] == "candidate" {
        var parser := new Candidates.CandidateParser(l.value, BLANK);
        var e := parser.ParseAll();
        if e.Some? {
          return d, Some(BadCandidate(e.value));
        }
        d := d.(candidates := d.candidates + [parser.c]);
      }
    } else if l.ltype == 'm' {
      var p := ScanPort(l.value);
      if p.Some? {
        d := d.(defaultPort := p.value);
      }
    } else if l.ltype == 'c' {
      var ip := ScanIP(l.value);
      if ip.Some? {
        d := d.(defaultIP := ip.value);
      }
    }
  }
}
