/** Candidates as lines of text, printed and parsed (ice/candidate.go). */
module CandidateText {
  import opened Wrappers
  import opened Decimal
  import opened Text
  import opened IceTypes
  import opened PairPriority

  const MIN_BUF_LEN := 10
  const MANDATORY_ELEMENTS := 6
  const COLON: char := ':'

  // ----- printing -----

  /** net.SplitHostPort. */
  function SplitHostPort(s: string): Option<(string, string)> {
    var i := LastIndexOf(s, COLON);
    if i == |s| then None
    else if s[0] == '[' then
      var end := IndexOf(s, ']');
      if end + 1 == i && '[' !in s[1..] && ']' !in s[end + 1..] then Some((s[1..end], s[i + 1..])) else None
    else if COLON in s[..i] || '[' in s || ']' in s then None
    else Some((s[..i], s[i + 1..]))
  }

  function LastIndexOf(s: string, c: char): (i: nat)
    ensures i <= |s| && (i < |s| ==> s[i] == c)
    ensures forall k :: (if i < |s| then i else -1) < k < |s| ==> s[k] != c
  {
    if s == "" then 0
    else if s[|s| - 1] == c then |s| - 1
    else
      var i := LastIndexOf(s[..|s| - 1], c);
      if i == |s| - 1 then |s| else i
  }

  /** What splits: a host without colon and brackets, or a bracketed one without further brackets, then a
      colon and a port without colon and brackets. Nothing else does. */
  lemma HostPortSplitsIff(s: string, h: string, p: string)
    ensures SplitHostPort(s) == Some((h, p))
            <==> ':' !in p && '[' !in h && ']' !in h && '[' !in p && ']' !in p
                 && ((':' !in h && s == h + ":" + p) || s == "[" + h + "]:" + p)
  {
    if s == h + ":" + p && ':' !in p && ':' !in h && '[' !in h && ']' !in h && '[' !in p && ']' !in p {
      PlainSplits(s, h, p);
    } else if s == "[" + h + "]:" + p && ':' !in p && '[' !in h && ']' !in h && '[' !in p && ']' !in p {
      BracketedSplits(s, h, p);
    }
    if SplitHostPort(s) == Some((h, p)) {
      SplitIsPlain(s, h, p);
    }
  }

  lemma PlainSplits(s: string, h: string, p: string)
    requires s == h + ":" + p && ':' !in p && ':' !in h && '[' !in h && ']' !in h && '[' !in p && ']' !in p
    ensures SplitHostPort(s) == Some((h, p))
  {
    LastIndexIs(s, |h|);
    assert s[..|h|] == h && s[|h| + 1..] == p;
  }

  lemma BracketedSplits(s: string, h: string, p: string)
    requires s == "[" + h + "]:" + p && ':' !in p && '[' !in h && ']' !in h && '[' !in p && ']' !in p
    ensures SplitHostPort(s) == Some((h, p))
  {
    BracketedText(s, h, p);
    LastIndexIs(s, |h| + 2);
    IndexIs(s, ']', |h| + 1);
  }

  lemma BracketedText(s: string, h: string, p: string)
    requires s == "[" + h + "]:" + p
    ensures |s| == |h| + |p| + 3 && s[0] == '[' && s[|h| + 1] == ']' && s[|h| + 2] == ':'
    ensures s[1..|h| + 1] == h && s[|h| + 3..] == p
    ensures '[' !in h && '[' !in p ==> '[' !in s[1..]
    ensures ']' !in h ==> forall k :: 0 <= k < |h| + 1 ==> s[k] != ']'
    ensures ']' !in p ==> ']' !in s[|h| + 2..]
    ensures ':' !in p ==> forall k :: |h| + 2 < k < |s| ==> s[k] != ':'
  {
    assert s[1..] == h + "]:" + p && s[|h| + 2..] == ":" + p;
    assert forall k :: 0 <= k < |h| ==> s[k + 1] == h[k];
    assert forall k :: 0 <= k < |p| ==> s[|h| + 3 + k] == p[k];
  }

  lemma SplitIsPlain(s: string, h: string, p: string)
    requires SplitHostPort(s) == Some((h, p))
    ensures ':' !in p && '[' !in h && ']' !in h && '[' !in p && ']' !in p
    ensures (':' !in h && s == h + ":" + p) || s == "[" + h + "]:" + p
  {
    var i := LastIndexOf(s, COLON);
    if s[0] == '[' {
      BracketedParts(s, i, IndexOf(s, ']'));
    } else {
      PlainParts(s, i);
    }
  }

  lemma PlainParts(s: string, i: nat)
    requires i < |s| && s[i] == COLON && '[' !in s && ']' !in s && COLON !in s[..i]
    requires forall k :: i < k < |s| ==> s[k] != COLON
    ensures var (h, p) := (s[..i], s[i + 1..]);
            s == h + ":" + p && ':' !in p && '[' !in h && ']' !in h && '[' !in p && ']' !in p
  {
  }

  lemma BracketedParts(s: string, i: nat, end: nat)
    requires end + 1 == i < |s| && s[i] == COLON && s[0] == '[' && s[end] == ']' && end > 0
    requires '[' !in s[1..] && ']' !in s[end + 1..] && forall k :: 0 <= k < end ==> s[k] != ']'
    requires forall k :: i < k < |s| ==> s[k] != COLON
    ensures var (h, p) := (s[1..end], s[i + 1..]);
            s == "[" + h + "]:" + p && ':' !in p && '[' !in h && ']' !in h && '[' !in p && ']' !in p
  {
    var h, p := s[1..end], s[i + 1..];
    assert forall k :: 0 <= k < |p| ==> p[k] == s[end + 1..][k + 1] && p[k] == s[1..][i + k];
    assert forall k :: 0 <= k < |h| ==> h[k] == s[1..][k];
    assert s == "[" + h + "]:" + p;
  }

  lemma LastIndexIs(s: string, i: nat)
    requires i < |s| && s[i] == COLON && forall k :: i < k < |s| ==> s[k] != COLON
    ensures LastIndexOf(s, COLON) == i
  {
  }

  /** The host and the port that are printed; both empty if the address cannot be split. */
  function HostPort(addr: string): (string, string) {
    match SplitHostPort(addr)
    case None => ("", "")
    case Some(hp) => hp
  }

  function TransportText(t: Transport): string {
    if t == UDP then "UDP" else "Unknown"
  }

  function TypeText(t: CandidateType): string {
    match t
    case Host => "host"
    case ServerReflexive => "srflx"
    case PeerReflexive => "prflx"
    case Relay => "relay"
    case UnknownType => "unknown"
  }

  /** Everything behind the transport address. */
  function PrintTail(c: Candidate): string {
    "typ " + TypeText(c.ctype)
    + if c.ctype.ServerReflexive? then " raddr " + HostPort(c.baseAddr).0 + " rport " + HostPort(c.baseAddr).1 else ""
  }

  /** What follows the attribute name in the printed candidate. */
  function PrintFields(c: Candidate): string {
    Itoa(c.foundation) + " " + (Itoa(c.componentID) + " " + (TransportText(c.transport) + " " + (Itoa(c.priority) + " "
    + (HostPort(c.addr).0 + " " + (HostPort(c.addr).1 + " " + PrintTail(c))))))
  }

  function Print(c: Candidate): string {
    "a=candidate:" + PrintFields(c)
  }

  /** Candidate.Equal. */
  predicate Equal(c: Candidate, b: Candidate) {
    c.addr == b.addr && c.transport == b.transport && c.foundation == b.foundation && c.componentID == b.componentID
    && c.priority == b.priority && c.ctype == b.ctype
  }

  // ----- numbers -----

  datatype ParseFailure = BufferTooSmall | BadNumber | UnknownCandidateType

  predicate IsHex(c: char) {
    IsDigit(c) || 'a' <= c <= 'f' || 'A' <= c <= 'F'
  }

  function HexValue(c: char): nat
    requires IsHex(c)
  {
    if IsDigit(c) then DigitValue(c) else if 'a' <= c then 10 + (c - 'a') as nat else 10 + (c - 'A') as nat
  }

  function HexPrefix(s: string): (h: string)
    ensures forall i :: 0 <= i < |h| ==> IsHex(h[i])
  {
    if s != "" && IsHex(s[0]) then [s[0]] + HexPrefix(s[1..]) else ""
  }

  function HexNumber(h: string): nat
    requires forall i :: 0 <= i < |h| ==> IsHex(h[i])
  {
    if h == "" then 0 else HexNumber(h[..|h| - 1]) * 16 + HexValue(h[|h| - 1])
  }

  /** fmt.Sscanf with %x, on text that starts with a digit or is at most one character long. */
  function ScanHex(s: string): Option<int> {
    var h := HexPrefix(s);
    if h == "" || HexNumber(h) > INT64_MAX then None else Some(HexNumber(h))
  }

  /** The characters before the first digit are skipped, all but the last if there is none. */
  function SkipToDigit(v: string): string {
    if |v| > 1 && !IsDigit(v[0]) then SkipToDigit(v[1..]) else v
  }

  /** A sign is skipped too, and what is no decimal number may still start like a hexadecimal one. */
  function ParseInt(v: string): Option<int> {
    var w := SkipToDigit(v);
    match Atoi(w)
    case Success(i) => Some(i)
    case Failure(_) => ScanHex(w)
  }

  /** How an integer is read: what stands in front of the first digit is skipped, but never the last
      character. What then is no decimal number is read as hexadecimal as far as it goes, without a sign. */
  lemma {:induction false} IntReads(junk: string, w: string)
    requires w != "" && forall i :: 0 <= i < |junk| ==> !IsDigit(junk[i])
    requires |w| == 1 || IsDigit(w[0])
    ensures ParseInt(junk + w) == ParseInt(w)
    ensures Atoi(w).Success? ==> ParseInt(w) == Some(Atoi(w).value)
    ensures Atoi(w).Failure? ==> ParseInt(w) == ScanHex(w)
    ensures ParseInt("") == None
  {
    hide Atoi, ScanHex;
    if junk == "" {
      assert junk + w == w;
      EmptyIsNoNumber();
    } else {
      assert (junk + w)[1..] == junk[1..] + w;
      IntReads(junk[1..], w);
    }
  }

  lemma EmptyIsNoNumber()
    ensures ParseInt("") == None
  {
  }

  /** Hexadecimal digits of either case up to the first other character, within 64 bits. */
  lemma HexReads(h: string, rest: string)
    requires h != "" && (forall i :: 0 <= i < |h| ==> h[i] in "0123456789abcdefABCDEF")
    requires rest != "" ==> rest[0] !in "0123456789abcdefABCDEF"
    ensures forall i :: 0 <= i < |h| ==> IsHex(h[i])
    ensures ScanHex(h + rest) == if HexNumber(h) < 0x8000_0000_0000_0000 then Some(HexNumber(h)) else None
    ensures rest != "" ==> ScanHex(rest) == None
  {
    hide HexNumber, IsHex, HexPrefix;
    HexIs(h);
    HexIs(rest);
    HexPrefixIs(h, rest);
  }

  lemma HexIs(s: string)
    ensures forall i :: 0 <= i < |s| ==> (IsHex(s[i]) <==> s[i] in "0123456789abcdefABCDEF")
  {
    forall i | 0 <= i < |s|
      ensures IsHex(s[i]) <==> s[i] in "0123456789abcdefABCDEF"
    {
      IsHexCharacter(s[i]);
    }
  }

  lemma IsHexCharacter(c: char)
    ensures IsHex(c) <==> c in "0123456789abcdefABCDEF"
  {
  }

  lemma {:induction false} HexPrefixIs(h: string, rest: string)
    requires forall i :: 0 <= i < |h| ==> IsHex(h[i])
    requires rest != "" ==> !IsHex(rest[0])
    ensures HexPrefix(h + rest) == h && (rest != "" ==> HexPrefix(rest) == "")
  {
    if h == "" {
      assert h + rest == rest;
    } else {
      assert (h + rest)[1..] == h[1..] + rest;
      HexPrefixIs(h[1..], rest);
    }
  }

  lemma HexNumberIs(h: string, d: nat)
    requires (forall i :: 0 <= i < |h| ==> IsHex(h[i])) && d < 16
    ensures forall i :: 0 <= i <= |h| ==>
                          IsHex((h + ["0123456789abcdef"[d]])[i]) && IsHex((h + ["0123456789ABCDEF"[d]])[i])
    ensures HexNumber("") == 0
    ensures HexNumber(h + ["0123456789abcdef"[d]]) == 16 * HexNumber(h) + d
    ensures HexNumber(h + ["0123456789ABCDEF"[d]]) == 16 * HexNumber(h) + d
  {
    assert (h + ["0123456789abcdef"[d]])[..|h|] == h && (h + ["0123456789ABCDEF"[d]])[..|h|] == h;
    HexValues(d);
  }

  lemma HexValues(d: nat)
    requires d < 16
    ensures IsHex("0123456789abcdef"[d]) && HexValue("0123456789abcdef"[d]) == d
    ensures IsHex("0123456789ABCDEF"[d]) && HexValue("0123456789ABCDEF"[d]) == d
  {
  }

  method ParseIntLoop(v: string) returns (r: Option<int>)
    ensures r == ParseInt(v)
  {
    hide Atoi, ScanHex;
    var i := 0;
    while i + 1 < |v| && !IsDigit(v[i])
      invariant 0 <= i <= |v| && (v != "" ==> i < |v|)
      invariant SkipToDigit(v[i..]) == SkipToDigit(v)
    {
      assert v[i..][1..] == v[i + 1..];
      i := i + 1;
    }
    var n := Atoi(v[i..]);
    if n.Success? {
      return Some(n.value);
    }
    r := ScanHex(v[i..]);
  }

  lemma ParseIntOfItoa(i: int)
    requires INT64_MIN <= i <= INT64_MAX
    ensures ParseInt(Itoa(i)) == Some(i) <==> i >= 0
  {
    hide Atoi, ScanHex;
    AtoiOfItoa(i);
    if i >= 0 {
      assert IsDigit(Digits(i)[0]);
    } else {
      assert Itoa(i)[1..] == Digits(-i);
      NeverNegative(Digits(-i));
    }
  }

  lemma NeverNegative(s: string)
    requires s != "" && AllDigits(s)
    ensures SkipToDigit(s) == s
    ensures Atoi(s).Success? ==> Atoi(s).value >= 0
    ensures ScanHex(s).Some? ==> ScanHex(s).value >= 0
  {
  }

  // ----- parsing -----

  /** One of the six fields at the start; the candidate stays as it was if the field is refused. */
  function ApplyField(c: Candidate, pos: nat, v: string): (Candidate, Option<ParseFailure>) {
    if pos == 2 then (c.(transport := if v == "udp" || v == "UDP" then UDP else OtherTransport), None)
    else if pos == 4 then (c.(addr := v), None)
    else if pos == 5 then (c.(addr := c.addr + [COLON] + v), None)
    else
      match ParseInt(v)
      case None => (c, Some(BadNumber))
      case Some(i) =>
        (if pos == 0 then c.(foundation := i) else if pos == 1 then c.(componentID := i) else c.(priority := i), None)
  }

  function TypeOf(v: string): Option<CandidateType> {
    if v == "host" then Some(Host)
    else if v == "prflx" then Some(PeerReflexive)
    else if v == "relay" then Some(Relay)
    else if v == "srflx" then Some(ServerReflexive)
    else None
  }

  /** Section 15.1 of RFC 5245: the words for the types, and no others. */
  lemma TypeWords(v: string, t: CandidateType)
    ensures TypeOf(v) == Some(t)
            <==> (v == "host" && t == Host) || (v == "srflx" && t == ServerReflexive)
                 || (v == "prflx" && t == PeerReflexive) || (v == "relay" && t == Relay)
    ensures TypeText(Host) == "host" && TypeText(ServerReflexive) == "srflx" && TypeText(PeerReflexive) == "prflx"
            && TypeText(Relay) == "relay" && TypeText(UnknownType) == "unknown"
  {
  }

  function ApplyAttribute(c: Candidate, key: string, v: string): (Candidate, Option<ParseFailure>) {
    if key == "generation" then
      (match ParseInt(v) case None => (c, Some(BadNumber)) case Some(i) => (c.(generation := i), None))
    else if key == "network-cost" then
      (match ParseInt(v) case None => (c, Some(BadNumber)) case Some(i) => (c.(networkCost := i), None))
    else if key == "typ" then
      (match TypeOf(v) case None => (c, Some(UnknownCandidateType)) case Some(t) => (c.(ctype := t), None))
    else if key == "raddr" then (c.(relatedAddr := v), None)
    else if key == "rport" then (c.(relatedAddr := c.relatedAddr + [COLON] + v), None)
    else (c.(attributes := c.attributes + [(key, v)]), None)
  }

  /** What the attributes behind the six fields set; those that are not known are kept with their keys. */
  lemma AttributesSet(c: Candidate, key: string, v: string)
    ensures ApplyAttribute(c, "typ", v)
            == if TypeOf(v).Some? then (c.(ctype := TypeOf(v).value), None) else (c, Some(UnknownCandidateType))
    ensures ApplyAttribute(c, "raddr", v) == (c.(relatedAddr := v), None)
    ensures ApplyAttribute(c, "rport", v) == (c.(relatedAddr := c.relatedAddr + ":" + v), None)
    ensures ApplyAttribute(c, "generation", v)
            == if ParseInt(v).Some? then (c.(generation := ParseInt(v).value), None) else (c, Some(BadNumber))
    ensures ApplyAttribute(c, "network-cost", v)
            == if ParseInt(v).Some? then (c.(networkCost := ParseInt(v).value), None) else (c, Some(BadNumber))
    ensures key != "typ" && key != "raddr" && key != "rport" && key != "generation" && key != "network-cost" ==>
              ApplyAttribute(c, key, v) == (c.(attributes := c.attributes + [(key, v)]), None)
  {
    hide ParseInt, TypeOf;
    assert |"typ"| != |"generation"| && |"typ"| != |"network-cost"| && |"raddr"| != |"typ"| && |"rport"| != |"typ"|;
    assert |"raddr"| != |"generation"| && |"raddr"| != |"network-cost"| && "raddr"[1] != "rport"[1];
    assert |"rport"| != |"generation"| && |"rport"| != |"network-cost"| && |"generation"| != |"network-cost"|;
  }

  /** What the six fields set: foundation, component, transport, priority, host and port. */
  lemma FieldsSet(c: Candidate, v: string)
    ensures ApplyField(c, 2, v)
            == (c.(transport := if v == "UDP" || v == "udp" then UDP else OtherTransport), None)
    ensures ApplyField(c, 4, v) == (c.(addr := v), None) && ApplyField(c, 5, v) == (c.(addr := c.addr + ":" + v), None)
    ensures ParseInt(v) == None ==>
              ApplyField(c, 0, v) == ApplyField(c, 1, v) == ApplyField(c, 3, v) == (c, Some(BadNumber))
    ensures ParseInt(v).Some? ==>
              ApplyField(c, 0, v) == (c.(foundation := ParseInt(v).value), None)
              && ApplyField(c, 1, v) == (c.(componentID := ParseInt(v).value), None)
              && ApplyField(c, 3, v) == (c.(priority := ParseInt(v).value), None)
  {
    hide ParseInt;
  }

  /** The fields that a space ends, six at most; a last field without one is not looked at. The
      second result is the text behind the sixth. */
  function Mandatory(c: Candidate, pos: nat, s: string): (Candidate, string, Option<ParseFailure>)
    decreases |s|
  {
    var n := IndexOf(s, SPACE);
    if pos >= MANDATORY_ELEMENTS then (c, s, None)
    else if n == |s| then (c, "", None)
    else
      var r := ApplyField(c, pos, s[..n]);
      if r.1.Some? then (r.0, "", r.1) else Mandatory(r.0, pos + 1, s[n + 1..])
  }

  /** The words of the text; the last one is lost if it is one character at the very end. */
  function Words(s: string): seq<string>
    decreases |s|
  {
    if s == "" then []
    else if s[0] == SPACE then Words(s[1..])
    else
      var n := IndexOf(s, SPACE);
      if n < |s| then [s[..n]] + Words(s[n..])
      else if n == 1 then []
      else [s]
  }

  /** Words taken two by two as key and value. */
  function Attributes(c: Candidate, words: seq<string>): (Candidate, Option<ParseFailure>)
    decreases |words|
  {
    if |words| < 2 then (c, None)
    else
      var r := ApplyAttribute(c, words[0], words[1]);
      if r.1.Some? then r else Attributes(r.0, words[2..])
  }

  function TrimPrefix(s: string, prefix: string): string {
    if prefix <= s then s[|prefix|..] else s
  }

  function Unprefixed(buf: string): string
    requires |buf| >= MIN_BUF_LEN
  {
    var b := if buf[0] == 'a' then TrimPrefix(buf, "a=") else buf;
    if b[0] == 'c' then TrimPrefix(b, "candidate:") else b
  }

  /** A candidate may come with "a=", with "candidate:", with both or with neither. */
  lemma PrefixesAre(s: string)
    requires |s| >= 10
    ensures "a=" <= s && "candidate:" <= s[2..] ==> Unprefixed(s) == s[12..]
    ensures "a=" <= s && !("candidate:" <= s[2..]) ==> Unprefixed(s) == s[2..]
    ensures "candidate:" <= s ==> Unprefixed(s) == s[10..]
    ensures !("a=" <= s) && !("candidate:" <= s) ==> Unprefixed(s) == s
  {
    assert "a="[0] == 'a' && "candidate:"[0] == 'c';
    if "a=" <= s {
      assert s[0] == 'a';
      if "candidate:" <= s[2..] {
        assert |s| >= 12 && s[2..][10..] == s[12..];
      }
    }
  }

  function ParseFields(c: Candidate, s: string): (Candidate, Option<ParseFailure>) {
    var m := Mandatory(c, 0, s);
    if m.2.Some? then (m.0, m.2) else Attributes(m.0, Words(m.1))
  }

  function Parse(c: Candidate, buf: string): (Candidate, Option<ParseFailure>) {
    if |buf| < MIN_BUF_LEN then (c, Some(BufferTooSmall)) else ParseFields(c, Unprefixed(buf))
  }

  lemma ShortIsRefused(c: Candidate, s: string)
    ensures |s| < 10 ==> Parse(c, s) == (c, Some(BufferTooSmall))
    ensures |s| >= 10 ==> Parse(c, s) == ParseFields(c, Unprefixed(s))
  {
    hide ParseFields, Unprefixed;
  }

  // ----- the parser's loops -----

  class CandidateParser {
    var buf: string
    var c: Candidate

    constructor (text: string, target: Candidate)
      ensures buf == text && c == target
    {
      buf, c := text, target;
    }

    method ParseField(pos: nat, v: string) returns (err: Option<ParseFailure>)
      requires pos < MANDATORY_ELEMENTS
      modifies `c
      ensures (c, err) == ApplyField(old(c), pos, v)
    {
      err := None;
      if pos == 2 {
        if v == "udp" || v == "UDP" {
          c := c.(transport := UDP);
        } else {
          c := c.(transport := OtherTransport);
        }
      } else if pos == 4 {
        c := c.(addr := v);
      } else if pos == 5 {
        c := c.(addr := c.addr + [COLON] + v);
      } else {
        var i := ParseIntLoop(v);
        if i.None? {
          return Some(BadNumber);
        }
        if pos == 0 {
          c := c.(foundation := i.value);
        } else if pos == 1 {
          c := c.(componentID := i.value);
        } else {
          c := c.(priority := i.value);
        }
      }
    }

    method ParseAttribute(key: string, v: string) returns (err: Option<ParseFailure>)
      modifies `c
      ensures (c, err) == ApplyAttribute(old(c), key, v)
    {
      err := None;
      if key == "generation" || key == "network-cost" {
        var i := ParseIntLoop(v);
        if i.None? {
          return Some(BadNumber);
        }
        if key == "generation" {
          c := c.(generation := i.value);
        } else {
          c := c.(networkCost := i.value);
        }
      } else if key == "typ" {
        var t := TypeOf(v);
        if t.None? {
          return Some(UnknownCandidateType);
        }
        c := c.(ctype := t.value);
      } else if key == "raddr" {
        c := c.(relatedAddr := v);
      } else if key == "rport" {
        c := c.(relatedAddr := c.relatedAddr + [COLON] + v);
      } else {
        c := c.(attributes := c.attributes + [(key, v)]);
      }
    }

    /** The first loop: `last` is the index behind the sixth space, if a character follows it. */
    method ParseMandatory() returns (last: nat, err: Option<ParseFailure>)
      modifies `c
      ensures last <= |buf|
      ensures var m := Mandatory(old(c), 0, buf);
              c == m.0 && err == m.2 && (err.None? ==> m.1 == if last == 0 then "" else buf[last..])
      ensures last > 0 ==> last < |buf| && buf[last - 1] == SPACE
    {
      hide ApplyField, Mandatory, IndexOf;
      ghost var whole := Mandatory(c, 0, buf);
      var pos, l := 0, 0;
      last := 0;
      assert buf[0..] == buf;
      for i := 0 to |buf|
        invariant 0 <= l <= i && pos <= MANDATORY_ELEMENTS && (pos == MANDATORY_ELEMENTS ==> l == 0)
        invariant forall k :: i - l <= k < i ==> buf[k] != SPACE
        invariant pos > 0 && l == 0 ==> i > 0 && buf[i - 1] == SPACE
        invariant Mandatory(c, pos, buf[i - l..]) == whole
      {
        if pos > MANDATORY_ELEMENTS - 1 {
          last := i;
          MandatoryDone(c, buf[i..]);
          return last, None;
        }
        if buf[i] != SPACE {
          l := l + 1;
          continue;
        }
        MandatoryStep(c, pos, buf, i - l, i);
        err := ParseField(pos, buf[i - l..i]);
        if err.Some? {
          return;
        }
        pos := pos + 1;
        l := 0;
      }
      MandatoryEnd(c, pos, buf[|buf| - l..]);
      err := None;
    }

    /** The second loop: the key and the value are the stretches from `start` to `end` and from
        `vStart`; zero says that there is none yet. The text begins with a space. */
    method ParseAttributes(text: string) returns (err: Option<ParseFailure>)
      requires text != "" && text[0] == SPACE
      modifies `c
      ensures (c, err) == Attributes(old(c), Words(text))
    {
      hide ApplyAttribute, Words, Attributes;
      ghost var whole := Attributes(c, Words(text));
      var start, end, vStart := 0, 0, 0;
      assert text[0..] == text;
      for i := 0 to |text|
        invariant Phase(text, i, start, end, vStart)
        invariant i < |text| || start == 0 || (vStart == 0 && end > 0)
        invariant Remaining(c, text, i, start, end, vStart) == whole
      {
        if text[i] != SPACE && i != |text| - 1 {
          if start == 0 {
            StartKey(text, i);
            start := i;
            continue;
          }
          if vStart == 0 && end != 0 {
            vStart := i;
          }
          continue;
        }
        if start == 0 {
          SkipBlank(c, text, i);
          continue;
        }
        if end == 0 {
          EndKey(c, text, i, start);
          end := i;
          continue;
        }
        if vStart == 0 {
          SkipBeforeValue(c, text, i, text[start..end]);
          continue;
        }
        var valueEnd := i;
        if i == |text| - 1 && text[|text| - 1] != SPACE {
          valueEnd := |text|;
        }
        EndValue(c, text, i, valueEnd, vStart, text[start..end]);
        err := ParseAttribute(text[start..end], text[vStart..valueEnd]);
        if err.Some? {
          return;
        }
        vStart, end, start := 0, 0, 0;
      }
      assert text[|text|..] == "";
      NothingRemains(c, if start > 0 && end > 0 then [text[start..end]] else []);
      err := None;
    }

    method ParseAll() returns (err: Option<ParseFailure>)
      modifies this
      ensures (c, err) == Parse(old(c), old(buf))
    {
      hide Mandatory, Attributes, Words;
      if |buf| < MIN_BUF_LEN {
        return Some(BufferTooSmall);
      }
      if buf[0] == 'a' {
        buf := TrimPrefix(buf, "a=");
      }
      if buf[0] == 'c' {
        buf := TrimPrefix(buf, "candidate:");
      }
      var last;
      last, err := ParseMandatory();
      if err.Some? {
        return;
      }
      if last == 0 {
        NothingRemains(c, []);
        return None;
      }
      LeadingSpace(buf[last - 1..]);
      assert buf[last - 1..][1..] == buf[last..];
      err := ParseAttributes(buf[last - 1..]);
    }
  }

  lemma MandatoryStep(c: Candidate, pos: nat, s: string, from: nat, i: nat)
    requires from <= i < |s| && s[i] == SPACE && forall k :: from <= k < i ==> s[k] != SPACE
    requires pos < MANDATORY_ELEMENTS
    ensures Mandatory(c, pos, s[from..])
            == var r := ApplyField(c, pos, s[from..i]);
               if r.1.Some? then (r.0, "", r.1) else Mandatory(r.0, pos + 1, s[i + 1..])
  {
    hide ApplyField;
    IndexIs(s[from..], SPACE, i - from);
    assert s[from..][..i - from] == s[from..i] && s[from..][i - from + 1..] == s[i + 1..];
  }

  lemma MandatoryDone(c: Candidate, s: string)
    ensures Mandatory(c, MANDATORY_ELEMENTS, s) == (c, s, None)
  {
  }

  lemma MandatoryEnd(c: Candidate, pos: nat, s: string)
    requires SPACE !in s && (pos == MANDATORY_ELEMENTS ==> s == "") && pos <= MANDATORY_ELEMENTS
    ensures Mandatory(c, pos, s) == (c, "", None)
  {
  }

  lemma LeadingSpace(s: string)
    requires s != "" && s[0] == SPACE
    ensures Words(s) == Words(s[1..])
  {
  }

  /** Where the second loop stands: between attributes, in a key, behind it, or in a value. */
  predicate Phase(text: string, i: nat, start: nat, end: nat, vStart: nat) {
    && i <= |text|
    && (start == 0 ==> end == 0 && vStart == 0)
    && (start > 0 ==> start < |text| && start <= i)
    && (start > 0 && end == 0 ==> vStart == 0 && start < i && forall k :: start <= k < i ==> text[k] != SPACE)
    && (end > 0 ==> start < end <= i)
    && (vStart > 0 ==> end > 0 && vStart < i && forall k :: vStart <= k < i ==> text[k] != SPACE)
  }

  /** What is still to come, in terms of the words from the last boundary on. */
  function Remaining(c: Candidate, text: string, i: nat, start: nat, end: nat, vStart: nat)
    : (Candidate, Option<ParseFailure>)
    requires Phase(text, i, start, end, vStart)
  {
    if start == 0 then Attributes(c, Words(text[i..]))
    else if end == 0 then Attributes(c, Words(text[start..]))
    else if vStart == 0 then Attributes(c, [text[start..end]] + Words(text[i..]))
    else Attributes(c, [text[start..end]] + Words(text[vStart..]))
  }

  lemma NothingRemains(c: Candidate, words: seq<string>)
    requires |words| < 2
    ensures Words("") == [] && Attributes(c, words + Words("")) == (c, None) && Attributes(c, Words("")) == (c, None)
  {
  }

  lemma StartKey(text: string, i: nat)
    requires i < |text|
    ensures forall k :: i <= k < i + 1 ==> text[k] == text[i]
  {
  }

  lemma SkipBlank(c: Candidate, text: string, i: nat)
    requires i < |text| && (text[i] == SPACE || i == |text| - 1)
    ensures Attributes(c, Words(text[i..])) == Attributes(c, Words(text[i + 1..]))
  {
    hide ApplyAttribute;
    assert text[i..][1..] == text[i + 1..];
  }

  lemma SkipBeforeValue(c: Candidate, text: string, i: nat, key: string)
    requires i < |text| && (text[i] == SPACE || i == |text| - 1)
    ensures Attributes(c, [key] + Words(text[i..])) == Attributes(c, [key] + Words(text[i + 1..]))
  {
    hide ApplyAttribute;
    assert text[i..][1..] == text[i + 1..];
  }

  lemma EndKey(c: Candidate, text: string, i: nat, start: nat)
    requires start < i < |text| && (text[i] == SPACE || i == |text| - 1)
    requires forall k :: start <= k < i ==> text[k] != SPACE
    ensures Attributes(c, Words(text[start..])) == Attributes(c, [text[start..i]] + Words(text[i + 1..]))
  {
    hide ApplyAttribute;
    WordEnds(text, i, start);
  }

  /** A run of other characters from `start` that a space or the end of the text ends at i. */
  lemma WordEnds(text: string, i: nat, start: nat)
    requires start < i < |text| && (text[i] == SPACE || i == |text| - 1)
    requires forall k :: start <= k < i ==> text[k] != SPACE
    ensures text[i] == SPACE ==> Words(text[start..]) == [text[start..i]] + Words(text[i + 1..])
    ensures text[i] != SPACE ==> Words(text[start..]) == [text[start..]] && Words(text[i + 1..]) == []
  {
    var s := text[start..];
    if text[i] == SPACE {
      IndexIs(s, SPACE, i - start);
      assert s[..i - start] == text[start..i] && s[i - start..] == text[i..];
      assert text[i..][1..] == text[i + 1..];
    } else {
      assert IndexOf(s, SPACE) == |s|;
    }
  }

  lemma EndValue(c: Candidate, text: string, i: nat, valueEnd: nat, vStart: nat, key: string)
    requires vStart < i < |text| && (text[i] == SPACE || i == |text| - 1)
    requires valueEnd == if i == |text| - 1 && text[i] != SPACE then |text| else i
    requires forall k :: vStart <= k < i ==> text[k] != SPACE
    ensures Attributes(c, [key] + Words(text[vStart..]))
            == var r := ApplyAttribute(c, key, text[vStart..valueEnd]);
               if r.1.Some? then r else Attributes(r.0, Words(text[i + 1..]))
  {
    hide ApplyAttribute, Words;
    WordEnds(text, i, vStart);
    var words := [key] + Words(text[vStart..]);
    assert words[2..] == Words(text[i + 1..]);
    assert text[vStart..|text|] == text[vStart..];
  }
}
