/** Candidate and pair priorities (ice/candidate.go, ice/icesession.go). */
module PairPriority {

  datatype Role = Unknown | Controlling | Controlled

  const TWO_31: int := 0x8000_0000
  const TWO_32: int := 0x1_0000_0000

  datatype CandidateType = UnknownType | Host | ServerReflexive | PeerReflexive | Relay

  function TypePreference(t: CandidateType): int {
    match t
    case Host => 126
    case ServerReflexive => 100
    case PeerReflexive => 110
    case Relay => 0
    case UnknownType => 0
  }

  /** The masks of the source are written as remainders; they agree with its two's complement
      masks for negative preferences and component ids too. */
  function CalcCandidatePriority(t: CandidateType, localPreference: int, componentID: int): int {
    (TypePreference(t) % 0x100) * 0x100_0000
    + (localPreference % 0x1_0000) * 0x100
    + (256 - componentID) % 0x100
  }

  /** The conversion of a Go int to uint32. */
  function ToUint32(x: int): nat {
    x % TWO_32
  }

  /** The pair priority with the source's 32-bit shift: `max << 1` loses its top bit. */
  function CalcPairPriority(role: Role, localPriority: int, remotePriority: int): nat {
    var o := ToUint32(if role.Controlling? then localPriority else remotePriority);
    var a := ToUint32(if role.Controlling? then remotePriority else localPriority);
    var min := if o > a then a else o;
    var max := if o > a then o else a;
    min * TWO_32 + (max * 2) % TWO_32 + (if o > a then 1 else 0)
  }

  /** Section 5.7.2 of RFC 5245: G is the controlling agent's priority, D the controlled one's. */
  function PairFormula(g: int, d: int): int {
    var min := if g < d then g else d;
    var max := if g < d then d else g;
    min * TWO_32 + 2 * max + (if g > d then 1 else 0)
  }

  predicate InRange(p: int) {
    0 <= p < TWO_31
  }

  lemma CandidatePriorityInRange(t: CandidateType, localPreference: int, componentID: int)
    ensures 0 <= CalcCandidatePriority(t, localPreference, componentID) <= 126 * 0x100_0000 + 0xFF_FFFF
    ensures InRange(CalcCandidatePriority(t, localPreference, componentID))
  {
    assert 0 <= (localPreference % 0x1_0000) * 0x100 <= 0xFFFF * 0x100;
    assert 0 <= (256 - componentID) % 0x100 <= 0xFF;
  }

  /** Candidates of the same component are ordered by type first, then by local preference. */
  lemma CandidatePriorityOrdersByType(t1: CandidateType, t2: CandidateType, p1: int, p2: int, c1: int, c2: int)
    requires TypePreference(t1) < TypePreference(t2)
    ensures CalcCandidatePriority(t1, p1, c1) < CalcCandidatePriority(t2, p2, c2)
  {
    assert (p1 % 0x1_0000) * 0x100 + (256 - c1) % 0x100 < 0x100_0000;
  }

  /** The type preferences of section 4.1.2.2 of RFC 5245, highest first. */
  function TypeRank(t: CandidateType): nat {
    match t
    case Host => 3
    case PeerReflexive => 2
    case ServerReflexive => 1
    case Relay => 0
    case UnknownType => 0
  }

  /** Section 4.1.2.1 of RFC 5245, for the preferences and component ids it allows. */
  lemma CandidatePriorityIsFormula(t: CandidateType, localPreference: int, componentID: int)
    requires 0 <= localPreference <= 65535 && 1 <= componentID <= 256
    ensures var typePreference := if t == Host then 126 else if t == PeerReflexive then 110
                                  else if t == ServerReflexive then 100 else 0;
            CalcCandidatePriority(t, localPreference, componentID)
            == 0x100_0000 * typePreference + 0x100 * localPreference + (256 - componentID)
  {
  }

  /** Host before peer reflexive before server reflexive before relay; among equals the higher local
      preference, and then the lower component id. */
  lemma CandidatePriorityOrders(t1: CandidateType, t2: CandidateType, p1: int, p2: int, c1: int, c2: int)
    requires 0 <= p1 <= 65535 && 0 <= p2 <= 65535 && 1 <= c1 <= 256 && 1 <= c2 <= 256
    ensures CalcCandidatePriority(t1, p1, c1) < CalcCandidatePriority(t2, p2, c2)
            <==> TypeRank(t1) < TypeRank(t2)
                 || (TypeRank(t1) == TypeRank(t2) && (p1 < p2 || (p1 == p2 && c1 > c2)))
  {
    hide CalcCandidatePriority;
    CandidatePriorityIsFormula(t1, p1, c1);
    CandidatePriorityIsFormula(t2, p2, c2);
  }

  /** Preferences count modulo 2^16 and component ids modulo 2^8, as the masks have it. */
  lemma CandidatePriorityWraps(t: CandidateType, localPreference: int, componentID: int)
    ensures CalcCandidatePriority(t, localPreference, componentID)
            == CalcCandidatePriority(t, localPreference % 65536, (componentID - 1) % 256 + 1)
  {
    assert (256 - componentID) % 0x100 == (256 - ((componentID - 1) % 256 + 1)) % 0x100;
  }

  /** For 32-bit priorities the shift is exact precisely when both are below 2^31. */
  lemma PairPriorityIsFormula(role: Role, l: int, r: int)
    requires 0 <= l < TWO_32 && 0 <= r < TWO_32
    ensures InRange(l) && InRange(r) <==>
            CalcPairPriority(role, l, r)
            == PairFormula(if role.Controlling? then l else r, if role.Controlling? then r else l)
  {
    hide CalcPairPriority;
    var g, d := if role.Controlling? then l else r, if role.Controlling? then r else l;
    PairPriorityParts(role, l, r);
    ShiftIsExactIff(if g < d then d else g);
  }

  lemma PairPriorityParts(role: Role, l: int, r: int)
    requires 0 <= l < TWO_32 && 0 <= r < TWO_32
    ensures var g, d := if role.Controlling? then l else r, if role.Controlling? then r else l;
            CalcPairPriority(role, l, r)
            == (if g < d then g else d) * TWO_32 + ((if g < d then d else g) * 2) % TWO_32 + (if g > d then 1 else 0)
  {
    ToUint32OfSmall(l);
    ToUint32OfSmall(r);
  }

  /** Priorities count modulo 2^32. */
  lemma PairPriorityWraps(role: Role, l: int, r: int)
    ensures CalcPairPriority(role, l, r) == CalcPairPriority(role, l % TWO_32, r % TWO_32)
  {
    ToUint32OfSmall(l % TWO_32);
    ToUint32OfSmall(r % TWO_32);
  }

  lemma ToUint32OfSmall(x: int)
    requires 0 <= x < TWO_32
    ensures ToUint32(x) == x
  {
  }

  lemma ShiftIsExactIff(x: int)
    requires 0 <= x < TWO_32
    ensures (x * 2) % TWO_32 == 2 * x <==> x < TWO_31
  {
  }

  lemma FormulaInjective(g1: int, d1: int, g2: int, d2: int)
    requires InRange(g1) && InRange(d1) && InRange(g2) && InRange(d2)
    requires PairFormula(g1, d1) == PairFormula(g2, d2)
    ensures g1 == g2 && d1 == d2
  {
    var min1 := if g1 < d1 then g1 else d1;
    var min2 := if g2 < d2 then g2 else d2;
    assert 0 <= PairFormula(g1, d1) - min1 * TWO_32 < TWO_32;
    assert 0 <= PairFormula(g2, d2) - min2 * TWO_32 < TWO_32;
    assert min1 == min2;
  }

  /** Two pairs of in-range candidates have equal priority only when they are made of the same
      two priorities, and the two agents, who see the same pair from opposite ends in opposite
      roles, compute the same value. */
  lemma PairPriorityIdentifiesPair(role: Role, l1: int, r1: int, l2: int, r2: int)
    requires InRange(l1) && InRange(r1) && InRange(l2) && InRange(r2)
    ensures CalcPairPriority(role, l1, r1) == CalcPairPriority(role, l2, r2) <==> l1 == l2 && r1 == r2
    ensures CalcPairPriority(Controlling, l1, r1) == CalcPairPriority(Controlled, r1, l1)
  {
    PairPriorityIsFormula(role, l1, r1);
    PairPriorityIsFormula(role, l2, r2);
    if CalcPairPriority(role, l1, r1) == CalcPairPriority(role, l2, r2) {
      if role.Controlling? {
        FormulaInjective(l1, r1, l2, r2);
      } else {
        FormulaInjective(r1, l1, r2, l2);
      }
    }
  }

  /** A change of role moves a pair's priority by at most one. */
  lemma RoleSwitchMovesByAtMostOne(role1: Role, role2: Role, l: int, r: int)
    requires InRange(l) && InRange(r)
    ensures -1 <= CalcPairPriority(role1, l, r) - CalcPairPriority(role2, l, r) <= 1
  {
    PairPriorityIsFormula(role1, l, r);
    PairPriorityIsFormula(role2, l, r);
  }

  /** Hence a list sorted before `changeRole` stays in order afterwards, except between pairs
      that have the same smaller and the same larger priority. */
  lemma RoleSwitchKeepsOrder(role1: Role, role2: Role, l1: int, r1: int, l2: int, r2: int)
    requires InRange(l1) && InRange(r1) && InRange(l2) && InRange(r2)
    requires {l1, r1} != {l2, r2}
    requires CalcPairPriority(role1, l1, r1) > CalcPairPriority(role1, l2, r2)
    ensures CalcPairPriority(role2, l1, r1) > CalcPairPriority(role2, l2, r2)
  {
    hide CalcPairPriority;
    PairPriorityBounds(role1, l1, r1);
    PairPriorityBounds(role1, l2, r2);
    PairPriorityBounds(role2, l1, r1);
    PairPriorityBounds(role2, l2, r2);
    EndsDiffer(l1, r1, l2, r2);
  }

  function Min(l: int, r: int): int {
    if l < r then l else r
  }

  function Max(l: int, r: int): int {
    if l < r then r else l
  }

  /** Whatever the role, the priority is fixed by the two ends but for the tie bit. */
  lemma PairPriorityBounds(role: Role, l: int, r: int)
    requires InRange(l) && InRange(r)
    ensures 0 <= CalcPairPriority(role, l, r) - (Min(l, r) * TWO_32 + 2 * Max(l, r)) <= 1
  {
    hide CalcPairPriority;
    PairPriorityIsFormula(role, l, r);
  }

  lemma EndsDiffer(l1: int, r1: int, l2: int, r2: int)
    requires {l1, r1} != {l2, r2}
    ensures Min(l1, r1) != Min(l2, r2) || Max(l1, r1) != Max(l2, r2)
  {
    assert {Min(l1, r1), Max(l1, r1)} == {l1, r1};
    assert {Min(l2, r2), Max(l2, r2)} == {l2, r2};
  }
}
