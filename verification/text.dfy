/** Splitting, joining and trimming of text. Characters are Unicode code points. */
module Text {

  const NEWLINE: char := '\n'
  const SPACE: char := ' '

  /** unicode.IsSpace. */
  predicate IsSpace(c: char) {
    var n := c as int;
    0x09 <= n <= 0x0D || n == 0x20 || n == 0x85 || n == 0xA0 || n == 0x1680 || 0x2000 <= n <= 0x200A
    || n == 0x2028 || n == 0x2029 || n == 0x202F || n == 0x205F || n == 0x3000
  }

  /** The characters with the Unicode property White_Space. */
  const WHITE_SPACE := "\U{0009}\U{000A}\U{000B}\U{000C}\U{000D}\U{0020}\U{0085}\U{00A0}\U{1680}"
                       + "\U{2000}\U{2001}\U{2002}\U{2003}\U{2004}\U{2005}\U{2006}\U{2007}\U{2008}\U{2009}\U{200A}"
                       + "\U{2028}\U{2029}\U{202F}\U{205F}\U{3000}"

  lemma SpacesAre(c: char)
    ensures IsSpace(c) <==> c in WHITE_SPACE
  {
  }

  /** The index of the first occurrence, or the length. */
  function IndexOf(s: string, c: char): (i: nat)
    ensures i <= |s| && (i < |s| ==> s[i] == c)
    ensures forall k :: 0 <= k < i ==> s[k] != c
  {
    if s == "" || s[0] == c then 0 else 1 + IndexOf(s[1..], c)
  }

  lemma IndexIs(s: string, c: char, i: nat)
    requires i < |s| && s[i] == c && forall k :: 0 <= k < i ==> s[k] != c
    ensures IndexOf(s, c) == i
  {
  }

  /** The pieces between occurrences of a separator; always at least one. */
  function Split(s: string, c: char): (parts: seq<string>)
    ensures |parts| > 0
    decreases |s|
  {
    var i := IndexOf(s, c);
    if i == |s| then [s] else [s[..i]] + Split(s[i + 1..], c)
  }

  function Join(parts: seq<string>, c: char): string {
    if parts == [] then ""
    else if |parts| == 1 then parts[0]
    else parts[0] + [c] + Join(parts[1..], c)
  }

  predicate Free(parts: seq<string>, c: char) {
    forall i :: 0 <= i < |parts| ==> c !in parts[i]
  }

  lemma SplitAt(a: string, c: char, rest: string)
    requires c !in a
    ensures Split(a + [c] + rest, c) == [a] + Split(rest, c)
  {
    var s := a + [c] + rest;
    IndexIs(s, c, |a|);
    assert s[..|a|] == a && s[|a| + 1..] == rest;
  }

  lemma SplitWhole(a: string, c: char)
    requires c !in a
    ensures Split(a, c) == [a]
  {
  }

  /** Splitting undoes joining. */
  lemma {:induction false} SplitOfJoin(parts: seq<string>, c: char)
    requires parts != [] && Free(parts, c)
    ensures Split(Join(parts, c), c) == parts
  {
    hide Split;
    if |parts| == 1 {
      SplitWhole(parts[0], c);
      assert parts == [parts[0]];
    } else {
      SplitOfJoin(parts[1..], c);
      SplitAt(parts[0], c, Join(parts[1..], c));
      assert parts == [parts[0]] + parts[1..];
    }
  }

  /** Joining undoes splitting, and the pieces are free of the separator. */
  lemma {:induction false} JoinOfSplit(s: string, c: char)
    ensures Join(Split(s, c), c) == s && Free(Split(s, c), c)
    decreases |s|
  {
    var i := IndexOf(s, c);
    if i < |s| {
      JoinOfSplit(s[i + 1..], c);
      assert s == s[..i] + [c] + s[i + 1..];
      assert Split(s, c)[1..] == Split(s[i + 1..], c);
      assert c !in s[..i];
    }
  }

  lemma {:induction false} JoinMore(parts: seq<string>, c: char, last: string)
    requires parts != []
    ensures Join(parts + [last], c) == Join(parts, c) + [c] + last
  {
    if |parts| == 1 {
      assert (parts + [last])[1..] == [last];
    } else {
      assert (parts + [last])[1..] == parts[1..] + [last];
      JoinMore(parts[1..], c, last);
    }
  }

  function TrimLeft(s: string): (t: string)
    ensures |t| <= |s|
    ensures t != "" ==> !IsSpace(t[0])
  {
    if s != "" && IsSpace(s[0]) then TrimLeft(s[1..]) else s
  }

  function TrimRight(s: string): (t: string)
    ensures t <= s
    ensures t != "" ==> !IsSpace(t[|t| - 1])
  {
    if s != "" && IsSpace(s[|s| - 1]) then TrimRight(s[..|s| - 1]) else s
  }

  /** bytes.TrimSpace. */
  function Trim(s: string): (t: string)
    ensures t != "" ==> !IsSpace(t[0]) && !IsSpace(t[|t| - 1])
  {
    TrimRight(TrimLeft(s))
  }

  predicate Trimmed(s: string) {
    s != "" && !IsSpace(s[0]) && !IsSpace(s[|s| - 1])
  }

  lemma TrimOfTrimmed(s: string)
    requires Trimmed(s)
    ensures Trim(s) == s != ""
  {
  }

  lemma {:induction false} TrimLeftIsSuffix(s: string)
    ensures TrimLeft(s) == s[|s| - |TrimLeft(s)|..]
  {
    if s != "" && IsSpace(s[0]) {
      TrimLeftIsSuffix(s[1..]);
    }
  }

  lemma TrimKeepsFree(s: string, c: char)
    requires c !in s
    ensures c !in Trim(s)
  {
    var t := TrimLeft(s);
    TrimLeftIsSuffix(s);
    assert forall k :: 0 <= k < |t| ==> t[k] == s[|s| - |t| + k];
  }

  /** What is trimmed off is space, at both ends; by its contract the rest neither begins nor ends with it. */
  lemma TrimIs(s: string) returns (a: string, b: string)
    ensures s == a + Trim(s) + b
    ensures (forall i :: 0 <= i < |a| ==> IsSpace(a[i])) && forall i :: 0 <= i < |b| ==> IsSpace(b[i])
  {
    hide IsSpace, TrimLeft, TrimRight;
    a := LeftTrimmed(s);
    b := RightTrimmed(TrimLeft(s));
  }

  lemma {:induction false} LeftTrimmed(s: string) returns (a: string)
    ensures s == a + TrimLeft(s) && forall i :: 0 <= i < |a| ==> IsSpace(a[i])
  {
    hide IsSpace;
    if s != "" && IsSpace(s[0]) {
      a := LeftTrimmed(s[1..]);
      a := [s[0]] + a;
    } else {
      a := "";
    }
  }

  lemma {:induction false} RightTrimmed(s: string) returns (b: string)
    ensures s == TrimRight(s) + b && forall i :: 0 <= i < |b| ==> IsSpace(b[i])
  {
    hide IsSpace;
    if s != "" && IsSpace(s[|s| - 1]) {
      b := RightTrimmed(s[..|s| - 1]);
      b := b + [s[|s| - 1]];
    } else {
      b := "";
    }
  }

  lemma TrimOfEmpty()
    ensures Trim("") == ""
  {
  }

  /** A newline at the end makes no difference to trimming. */
  lemma TrimOfLine(s: string)
    ensures Trim(s + [NEWLINE]) == Trim(s)
  {
    TrimLeftOfLine(s);
  }

  lemma {:induction false} TrimLeftOfLine(s: string)
    ensures TrimLeft(s + [NEWLINE]) == if TrimLeft(s) == "" then "" else TrimLeft(s) + [NEWLINE]
  {
    hide TrimLeft, IsSpace;
    NewlineIsSpace();
    TrimLeftStep(s);
    TrimLeftStep(s + [NEWLINE]);
    if s == "" {
      assert (s + [NEWLINE])[1..] == "";
      TrimLeftStep("");
    } else {
      assert (s + [NEWLINE])[1..] == s[1..] + [NEWLINE];
      TrimLeftOfLine(s[1..]);
    }
  }

  lemma NewlineIsSpace()
    ensures IsSpace(NEWLINE)
  {
  }

  lemma TrimLeftStep(s: string)
    ensures TrimLeft(s) == if s != "" && IsSpace(s[0]) then TrimLeft(s[1..]) else s
  {
  }
}
