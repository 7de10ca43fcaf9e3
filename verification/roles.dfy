/** The role rules of ice/icesession.go. */
module Roles {
  import opened Wrappers
  import opened PairPriority

  datatype Verdict = Accepted | Conflict | NoRoleAttribute

  /** The role part of processBindingRequest: the ICE-CONTROLLING and ICE-CONTROLLED attributes are
      looked at in turn, and the first may change the role the second is compared with. */
  function JudgeRequest(role: Role, tieBreaker: nat, controlling: Option<nat>, controlled: Option<nat>)
    : (r: (Role, Verdict))
  {
    if controlling.Some? && !role.Controlled? && tieBreaker >= controlling.value then (role, Conflict)
    else
      var role1 := if controlling.Some? then Controlled else role;
      if controlled.Some? && !role1.Controlling? && tieBreaker >= controlled.value then (role1, Conflict)
      else
        var role2 := if controlled.Some? then Controlling else role1;
        (role2, if controlling.None? && controlled.None? then NoRoleAttribute else Accepted)
  }

  /** Section 7.2.1.1 of RFC 5245. A request in the agent's own role, or to an agent that has none, is
      accepted, and the role given up, exactly if the agent's tie-breaker is smaller; ties refuse. With
      both attributes the second is held against the role that the first has left. */
  lemma RequestJudged(role: Role, tie: nat, v: nat, w: nat)
    ensures JudgeRequest(role, tie, None, None) == (role, NoRoleAttribute)
    ensures JudgeRequest(role, tie, Some(v), None)
            == if role == Controlled || tie < v then (Controlled, Accepted) else (role, Conflict)
    ensures JudgeRequest(role, tie, None, Some(w))
            == if role == Controlling || tie < w then (Controlling, Accepted) else (role, Conflict)
    ensures JudgeRequest(role, tie, Some(v), Some(w))
            == if role != Controlled && tie >= v then (role, Conflict)
               else if tie < w then (Controlling, Accepted)
               else (Controlled, Conflict)
  {
  }

  /** The role a 487 response leads to: it is read off the attributes of the response. */
  function RoleAfterConflict(hasControlled: bool, hasControlling: bool): Role {
    if hasControlled then Controlling
    else if hasControlling then Controlled
    else Unknown
  }

  /** The attribute buildBindingRequest sends: anything but controlling counts as controlled. */
  function SentAs(role: Role): Role {
    if role.Controlling? then Controlling else Controlled
  }
}
