/** Candidates, candidate pairs and checks (ice/candidate.go, ice/checklist.go). */
module IceTypes {
  import opened Wrappers
  import opened PairPriority

  datatype Transport = NoTransport | UDP | OtherTransport

  /** A candidate never changes once a session owns it, so it is a value. */
  datatype Candidate = Candidate(
    addr: string,
    baseAddr: string,
    relatedAddr: string,
    transport: Transport,
    foundation: int,
    componentID: int,
    priority: int,
    ctype: CandidateType,
    networkCost: int,
    generation: int,
    attributes: seq<(string, string)>)

  /** A zero-valued candidate, as `new(Candidate)` makes it. */
  const BLANK: Candidate := Candidate("", "", "", NoTransport, 0, 0, 0, UnknownType, 0, 0, [])

  /** Addresses printed by the net package from an IP and a port hold no dash. */
  type AddrText = s: string | '-' !in s witness ""

  /** The states of a check, in the order the source compares them. */
  type CheckState = x: int | 0 <= x <= 4
  const FROZEN: CheckState := 0
  const WAITING: CheckState := 1
  const IN_PROGRESS: CheckState := 2
  const SUCCEEDED: CheckState := 3
  const FAILED: CheckState := 4

  datatype CheckError = NoError | Canceled | TriedTooManyTimes | UnknownErrorCode | UnknownAddress | NoMappedAddress

  /** The part of a check that is fixed when the check is made. */
  datatype Pair = Pair(local: Candidate, remote: Candidate, key: string, priority: nat)

  /** What a check looks like at one moment. */
  datatype CheckView = CheckView(pair: Pair, state: CheckState, nominated: bool, err: CheckError)

  /** The name under which a check's channel is kept. */
  function Key(l: Candidate, r: Candidate): string {
    l.addr + "-" + r.addr
  }

  function MakePair(role: Role, l: Candidate, r: Candidate): Pair {
    Pair(l, r, Key(l, r), CalcPairPriority(role, l.priority, r.priority))
  }

  /** Keys of pairs whose local addresses hold no dash identify both addresses. */
  lemma KeyInjective(l1: Candidate, r1: Candidate, l2: Candidate, r2: Candidate)
    requires '-' !in l1.addr && '-' !in l2.addr
    requires Key(l1, r1) == Key(l2, r2)
    ensures l1.addr == l2.addr && r1.addr == r2.addr
  {
    var k := Key(l1, r1);
    assert k[|l1.addr|] == '-' && k[|l2.addr|] == '-';
    assert forall t :: 0 <= t < |l1.addr| ==> k[t] == l1.addr[t] != '-';
    assert forall t :: 0 <= t < |l2.addr| ==> k[t] == l2.addr[t] != '-';
    assert l1.addr == k[..|l1.addr|] && l2.addr == k[..|l2.addr|];
    assert r1.addr == k[|l1.addr| + 1..] && r2.addr == k[|l2.addr| + 1..];
  }

  /** The first candidate with the given address. */
  function FirstWith(cs: seq<Candidate>, addr: string): (r: Option<Candidate>)
    ensures r.Some? ==> r.value in cs && r.value.addr == addr
    ensures r.None? <==> forall c :: c in cs ==> c.addr != addr
  {
    if cs == [] then None
    else if cs[0].addr == addr then Some(cs[0])
    else FirstWith(cs[1..], addr)
  }

  lemma {:induction false} FirstWithExtends(cs: seq<Candidate>, c: Candidate, addr: string)
    ensures FirstWith(cs + [c], addr)
            == if FirstWith(cs, addr).Some? then FirstWith(cs, addr)
               else if c.addr == addr then Some(c) else None
  {
    if cs == [] {
      assert cs + [c] == [c];
      assert [c][1..] == [];
    } else {
      assert (cs + [c])[1..] == cs[1..] + [c];
      FirstWithExtends(cs[1..], c, addr);
    }
  }

  predicate DistinctAddrs(cs: seq<Candidate>) {
    forall i, j :: 0 <= i < j < |cs| ==> cs[i].addr != cs[j].addr
  }

  /** Among candidates with distinct addresses every candidate is the first one with its address. */
  lemma FirstWithDistinct(cs: seq<Candidate>, c: Candidate)
    requires DistinctAddrs(cs) && c in cs
    ensures FirstWith(cs, c.addr) == Some(c)
  {
  }
}
