/** Lines of a session description and the scanner that finds them (sdp/sdp.go). */
module SdpLines {
  import opened Wrappers
  import opened Text

  const DELIMITER: char := '='
  const RUNE_ERROR: char := '\U{FFFD}'

  /** The type of a line is one character. */
  datatype Line = Line(ltype: char, value: string)

  function Print(l: Line): string {
    [l.ltype, DELIMITER] + l.value
  }

  /** The first character of what stands before the first delimiter, and all that stands after it. */
  function ParseLine(b: string): Option<Line> {
    var d := IndexOf(b, DELIMITER);
    if d == |b| then None
    else Some(Line(if d == 0 then RUNE_ERROR else b[0], b[d + 1..]))
  }

  /** A line that can come out of a text again. */
  predicate Good(l: Line) {
    !IsSpace(l.ltype) && l.ltype != DELIMITER && NEWLINE !in l.value
    && (l.value != "" ==> !IsSpace(l.value[|l.value| - 1]))
  }

  predicate AllGood(s: seq<Line>) {
    forall i :: 0 <= i < |s| ==> Good(s[i])
  }

  lemma ParseOfPrint(l: Line)
    requires l.ltype != DELIMITER
    ensures ParseLine(Print(l)) == Some(l)
  {
    IndexIs(Print(l), DELIMITER, 1);
    assert Print(l)[2..] == l.value;
  }

  /** Section 5 of RFC 4566: one character, "=", the value. Only the first character in front of the first
      delimiter counts, and without any the replacement character stands for it. */
  lemma LineReadsAs(key: string, v: string)
    requires '=' !in key
    ensures ParseLine(key + "=" + v) == Some(Line(if key == "" then '\U{FFFD}' else key[0], v))
    ensures ParseLine(key) == None
    ensures key != "" ==> Print(Line(key[0], v)) == [key[0]] + "=" + v
  {
    var b := key + "=" + v;
    IndexIs(b, DELIMITER, |key|);
    assert b[|key| + 1..] == v;
  }

  lemma GoodType(l: Line)
    requires Good(l)
    ensures l.ltype != DELIMITER
  {
  }

  lemma ParsedIsGood(b: string)
    requires Trimmed(b) && NEWLINE !in b && ParseLine(b).Some?
    ensures Good(ParseLine(b).value)
  {
    var d := IndexOf(b, DELIMITER);
    var value := b[d + 1..];
    assert forall k :: 0 <= k < |value| ==> value[k] == b[d + 1 + k];
  }

  lemma GoodPrintIsTrimmed(l: Line)
    requires Good(l)
    ensures Trimmed(Print(l)) && NEWLINE !in Print(l)
  {
  }

  /** The non-empty trimmed pieces among those given. */
  function NonBlank(parts: seq<string>): seq<string> {
    if parts == [] then []
    else (if Trim(parts[0]) == "" then [] else [Trim(parts[0])]) + NonBlank(parts[1..])
  }

  function Pieces(text: string): seq<string> {
    NonBlank(Split(text, NEWLINE))
  }

  lemma {:induction false} NonBlankPieces(parts: seq<string>)
    requires Free(parts, NEWLINE)
    ensures forall i :: 0 <= i < |NonBlank(parts)| ==> Trimmed(NonBlank(parts)[i]) && NEWLINE !in NonBlank(parts)[i]
  {
    hide Trim;
    if parts != [] {
      NonBlankPieces(parts[1..]);
      TrimKeepsFree(parts[0], NEWLINE);
    }
  }

  lemma {:induction false} NonBlankOfTrimmed(parts: seq<string>)
    requires forall i :: 0 <= i < |parts| ==> Trimmed(parts[i])
    ensures NonBlank(parts) == parts
  {
    hide Trim, Trimmed;
    if parts != [] {
      TrimOfTrimmed(parts[0]);
      NonBlankOfTrimmed(parts[1..]);
      assert parts == [parts[0]] + parts[1..];
    }
  }

  /** What decoding leaves: the lines before the first that has no delimiter, and whether all had. */
  function ParseLines(pieces: seq<string>): (seq<Line>, bool) {
    if pieces == [] then ([], true)
    else match ParseLine(pieces[0])
         case None => ([], false)
         case Some(l) => var (ls, ok) := ParseLines(pieces[1..]); ([l] + ls, ok)
  }

  function ParseSession(text: string): (seq<Line>, bool) {
    ParseLines(Pieces(text))
  }

  function PrintAll(s: seq<Line>): (texts: seq<string>)
    ensures |texts| == |s| && forall i :: 0 <= i < |s| ==> texts[i] == Print(s[i])
  {
    seq(|s|, i requires 0 <= i < |s| => Print(s[i]))
  }

  function PrintSession(s: seq<Line>): string {
    Join(PrintAll(s), NEWLINE)
  }

  lemma {:induction false} ParsePrinted(s: seq<Line>)
    requires AllGood(s)
    ensures ParseLines(PrintAll(s)) == (s, true)
  {
    hide Print, ParseLine, Good;
    if s != [] {
      assert Good(s[0]);
      GoodType(s[0]);
      ParseOfPrint(s[0]);
      ParsePrinted(s[1..]);
      assert PrintAll(s)[1..] == PrintAll(s[1..]);
      assert s == [s[0]] + s[1..];
    }
  }

  lemma PrintedPieces(s: seq<Line>)
    requires AllGood(s)
    ensures Pieces(PrintSession(s)) == PrintAll(s)
  {
    hide Print, Good, Split, Join, Trim, Trimmed;
    if s == [] {
      BlankPieces();
    } else {
      forall i | 0 <= i < |s|
        ensures Trimmed(PrintAll(s)[i]) && NEWLINE !in PrintAll(s)[i]
      {
        GoodPrintIsTrimmed(s[i]);
      }
      SplitOfJoin(PrintAll(s), NEWLINE);
      NonBlankOfTrimmed(PrintAll(s));
    }
  }

  lemma BlankPieces()
    ensures Pieces("") == [] && Join([], NEWLINE) == ""
  {
    hide Split, Trim;
    SplitWhole("", NEWLINE);
    TrimOfEmpty();
    assert NonBlank([""][1..]) == [];
  }

  /** The pieces line by line: a line is trimmed, and dropped if nothing is left. */
  lemma PiecesAre(line: string, rest: string)
    requires NEWLINE !in line
    ensures Pieces(line) == if Trim(line) == "" then [] else [Trim(line)]
    ensures Pieces(line + "\n" + rest) == Pieces(line) + Pieces(rest)
  {
    hide Split, Trim;
    SplitWhole(line, NEWLINE);
    SplitAt(line, NEWLINE, rest);
    assert [line][1..] == [] && NonBlank([]) == [];
    assert ([line] + Split(rest, NEWLINE))[1..] == Split(rest, NEWLINE);
  }

  /** Decoding stops at the first piece without a delimiter and has read every piece in front of it. */
  lemma {:induction false} ReadUpToBad(pieces: seq<string>, k: nat)
    requires k <= |pieces| && (k < |pieces| ==> '=' !in pieces[k])
    requires forall i :: 0 <= i < k ==> '=' in pieces[i]
    ensures var (ls, ok) := ParseLines(pieces);
            (ok <==> k == |pieces|) && |ls| == k
            && forall i :: 0 <= i < k ==> ParseLine(pieces[i]) == Some(ls[i])
  {
    hide ParseLine;
    if pieces != [] {
      HasDelimiter(pieces[0]);
      if k > 0 {
        ReadUpToBad(pieces[1..], k - 1);
      }
    }
  }

  lemma HasDelimiter(b: string)
    ensures ParseLine(b).Some? <==> '=' in b
  {
  }

  lemma {:induction false} ParsedLinesAreGood(pieces: seq<string>)
    requires forall i :: 0 <= i < |pieces| ==> Trimmed(pieces[i]) && NEWLINE !in pieces[i]
    ensures AllGood(ParseLines(pieces).0)
  {
    hide Good, ParseLine, Trimmed;
    if pieces != [] && ParseLine(pieces[0]).Some? {
      ParsedIsGood(pieces[0]);
      ParsedLinesAreGood(pieces[1..]);
    }
  }

  lemma SessionLinesAreGood(text: string)
    ensures AllGood(ParseSession(text).0)
  {
    JoinOfSplit(text, NEWLINE);
    NonBlankPieces(Split(text, NEWLINE));
    ParsedLinesAreGood(Pieces(text));
  }

  /** Decoding undoes printing exactly for the sessions whose lines are all good. */
  lemma RoundTripIffGood(s: seq<Line>)
    ensures ParseSession(PrintSession(s)) == (s, true) <==> AllGood(s)
  {
    hide Good, ParseLines, PrintSession, Pieces;
    if AllGood(s) {
      PrintedPieces(s);
      ParsePrinted(s);
    }
    SessionLinesAreGood(PrintSession(s));
  }

  /** Whatever text was accepted, printing what was decoded and decoding it again changes nothing. */
  lemma DecodeIsIdempotent(text: string)
    ensures var s := ParseSession(text).0; ParseSession(PrintSession(s)) == (s, true)
  {
    SessionLinesAreGood(text);
    RoundTripIffGood(ParseSession(text).0);
  }

  // ----- the scanner -----

  lemma {:induction false} FirstPiece(rest: string, n: nat)
    requires rest != ""
    requires n == IndexOf(rest, NEWLINE)
    ensures var end := if n < |rest| then n + 1 else |rest|;
            Pieces(rest) == (if Trim(rest[..end]) == "" then [] else [Trim(rest[..end])]) + Pieces(rest[end..])
  {
    hide Trim;
    if n < |rest| {
      assert rest[..n + 1] == rest[..n] + [NEWLINE];
      TrimOfLine(rest[..n]);
      assert Split(rest, NEWLINE) == [rest[..n]] + Split(rest[n + 1..], NEWLINE);
    } else {
      BlankPieces();
      assert rest[..|rest|] == rest;
      assert Split(rest, NEWLINE) == [rest];
      assert NonBlank([rest][1..]) == [];
    }
  }

  lemma Slices(s: string, a: nat, b: nat)
    requires a <= b <= |s|
    ensures s[a..][..b - a] == s[a..b] && s[a..][b - a..] == s[b..]
  {
  }

  /** The piece between two positions, and what follows it. */
  lemma NextPiece(v: string, pos: nat, end: nat)
    requires pos < |v|
    requires var n := IndexOf(v[pos..], NEWLINE); end == if n < |v[pos..]| then pos + n + 1 else |v|
    ensures Pieces(v[pos..])
            == (if Trim(v[pos..end]) == "" then [] else [Trim(v[pos..end])]) + Pieces(v[end..])
  {
    hide Pieces, Trim, IndexOf;
    FirstPiece(v[pos..], IndexOf(v[pos..], NEWLINE));
    Slices(v, pos, end);
  }

  class SliceScanner {
    var pos: nat
    var end: nat
    var v: string
    var line: string

    ghost predicate Valid()
      reads this
    {
      v == "" || end <= |v|
    }

    /** What is still to be scanned. */
    ghost function Rest(): string
      requires Valid()
      reads this
    {
      if v == "" then "" else v[end..]
    }

    constructor (text: string)
      ensures Valid() && Rest() == text && end == 0
    {
      pos, end, v, line := 0, 0, text, "";
    }

    /** Yields the next piece, and its position strictly advances; at the end it forgets the text. */
    method Scan() returns (more: bool)
      requires Valid()
      modifies this
      ensures Valid()
      ensures more <==> Pieces(old(Rest())) != []
      ensures more ==> [line] + Pieces(Rest()) == Pieces(old(Rest())) && v == old(v) && old(end) <= pos < end
      ensures !more ==> line == "" && Rest() == ""
    {
      hide Pieces, Trim, IndexOf, IsSpace;
      ghost var all := Pieces(Rest());
      while true
        invariant Valid() && v == old(v) && old(end) <= end
        invariant Pieces(Rest()) == all
        decreases |v| - end
      {
        pos := end;
        if pos >= |v| {
          BlankPieces();
          line := "";
          v := "";
          return false;
        }
        var newLinePos := IndexOf(v[pos..], NEWLINE);
        if newLinePos < |v[pos..]| {
          end := pos + newLinePos + 1;
        } else {
          end := |v|;
        }
        NextPiece(v, pos, end);
        line := Trim(v[pos..end]);
        if line != "" {
          return true;
        }
      }
    }
  }

  /** Decode appends to the value that is there; the error leaves the line as it was. */
  method DecodeLine(l: Line, b: string) returns (r: Line, ok: bool)
    ensures match ParseLine(b)
            case None => !ok && r == l
            case Some(p) => ok && r == Line(p.ltype, l.value + p.value)
  {
    var delimiter := IndexOf(b, DELIMITER);
    if delimiter == |b| {
      return l, false;
    }
    var key := b[..delimiter];
    var t := if key == "" then RUNE_ERROR else key[0];
    r, ok := Line(t, l.value + b[delimiter + 1..]), true;
  }

  /** The lines so far, followed by those of the pieces to come, are all that is wanted. */
  predicate Progress(s: seq<Line>, pieces: seq<string>, all: (seq<Line>, bool)) {
    all == (s + ParseLines(pieces).0, ParseLines(pieces).1)
  }

  lemma ProgressStep(s: seq<Line>, piece: string, rest: seq<string>, all: (seq<Line>, bool))
    requires Progress(s, [piece] + rest, all)
    ensures match ParseLine(piece)
            case None => all == (s, false)
            case Some(l) => Progress(s + [Line(l.ltype, "" + l.value)], rest, all)
  {
    hide ParseLine;
    assert ([piece] + rest)[1..] == rest;
    if ParseLine(piece).Some? {
      var l, ls := ParseLine(piece).value, ParseLines(rest).0;
      assert "" + l.value == l.value;
      assert s + ([l] + ls) == s + [l] + ls;
    } else {
      assert s + [] == s;
    }
  }

  lemma ProgressEnds(s: seq<Line>, all: (seq<Line>, bool))
    requires Progress(s, [], all)
    ensures all == (s, true)
  {
    assert s + [] == s;
  }

  lemma ProgressStarts(s: seq<Line>, text: string)
    ensures Progress(s, Pieces(text), (s + ParseSession(text).0, ParseSession(text).1))
  {
    hide Pieces;
  }

  /** Decodes behind the lines already given, up to the first line without a delimiter. */
  method DecodeSession(text: string, s0: seq<Line>) returns (s: seq<Line>, ok: bool)
    ensures (s, ok) == (s0 + ParseSession(text).0, ParseSession(text).1)
  {
    hide Pieces, ParseLine, ParseLines, ParseSession, Progress;
    s, ok := s0, true;
    ghost var all := (s0 + ParseSession(text).0, ParseSession(text).1);
    ProgressStarts(s0, text);
    var scanner := new SliceScanner(text);
    var more := scanner.Scan();
    while more
      invariant scanner.Valid() && fresh(scanner) && ok
      invariant Progress(s, if more then [scanner.line] + Pieces(scanner.Rest()) else [], all)
      decreases more, |scanner.Rest()|
    {
      ProgressStep(s, scanner.line, Pieces(scanner.Rest()), all);
      var line;
      line, ok := DecodeLine(Line(RUNE_ERROR, ""), scanner.line);
      if !ok {
        return;
      }
      s := s + [line];
      more := scanner.Scan();
    }
    ProgressEnds(s, all);
  }

  method AppendLine(b: string, l: Line) returns (r: string)
    ensures r == b + Print(l)
  {
    r := b + [l.ltype];
    r := r + [DELIMITER];
    r := r + l.value;
  }

  /** All lines with newlines between them. */
  method AppendSession(b: string, s: seq<Line>) returns (r: string)
    ensures r == b + PrintSession(s)
  {
    hide Print;
    r := b;
    var last := |s| - 1;
    for i := 0 to |s|
      invariant r == b + PrintSession(s[..i]) + if 0 < i < |s| then [NEWLINE] else ""
    {
      r := AppendLine(r, s[i]);
      PrintMore(s[..i], s[i]);
      assert s[..i + 1] == s[..i] + [s[i]];
      if i < last {
        r := r + [NEWLINE];
      }
    }
    assert s[..|s|] == s;
  }

  lemma PrintMore(s: seq<Line>, l: Line)
    ensures PrintSession(s + [l]) == PrintSession(s) + (if s == [] then "" else [NEWLINE]) + Print(l)
  {
    hide Print;
    assert PrintAll(s + [l]) == PrintAll(s) + [Print(l)];
    if s != [] {
      JoinMore(PrintAll(s), NEWLINE, Print(l));
    }
  }
}
