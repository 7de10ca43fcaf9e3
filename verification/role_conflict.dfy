/** A role conflict between two agents over a network that loses, repeats and reorders datagrams
    (section 7.2.1.1 of RFC 5245). */
module RoleConflict {
  import opened Wrappers
  import opened PairPriority
  import opened Roles

  datatype Side = Strong | Weak

  function Peer(s: Side): Side {
    match s case Strong => Weak case Weak => Strong
  }

  /** Datagrams: a request with the sender's role attribute and tie-breaker, or the 487 response,
      which carries no role attribute (sendResponse adds none). */
  datatype Datagram =
    | Request(sender: Side, sentAs: Role, tieBreaker: nat)
    | ConflictResponse(receiver: Side)

  /** Both agents and the datagrams in flight. `Strong` names the agent with the larger
      tie-breaker. Delivery leaves a datagram in flight, so it may arrive again, in any order. */
  datatype Network = Network(strong: Role, weak: Role, strongTie: nat, weakTie: nat, flight: set<Datagram>) {

    function RoleOf(s: Side): Role {
      match s case Strong => strong case Weak => weak
    }

    function TieOf(s: Side): nat {
      match s case Strong => strongTie case Weak => weakTie
    }

    function WithRole(s: Side, r: Role): Network {
      match s case Strong => this.(strong := r) case Weak => this.(weak := r)
    }
  }

  datatype Move = Send(sender: Side) | Deliver(d: Datagram) | Lose(d: Datagram)

  function Receive(n: Network, d: Datagram): Network {
    match d
    case Request(sender, sentAs, tie) =>
      var me := Peer(sender);
      var (role, verdict) :=
        JudgeRequest(n.RoleOf(me), n.TieOf(me),
                     if sentAs.Controlling? then Some(tie) else None,
                     if sentAs.Controlling? then None else Some(tie));
      var n1 := n.WithRole(me, role);
      if verdict.Conflict? then n1.(flight := n1.flight + {ConflictResponse(sender)}) else n1
    case ConflictResponse(receiver) =>
      n.WithRole(receiver, RoleAfterConflict(false, false))
  }

  /** One move; a datagram that is not in flight is neither delivered nor lost. */
  function Next(n: Network, m: Move): Network {
    match m
    case Send(s) => n.(flight := n.flight + {Request(s, SentAs(n.RoleOf(s)), n.TieOf(s))})
    case Deliver(d) => if d in n.flight then Receive(n, d) else n
    case Lose(d) => n.(flight := n.flight - {d})
  }

  /** What the moves are: a request says role and tie-breaker of its sender, any role but controlling
      passing for controlled; only a loss takes a datagram away; a refusal answers the sender; and an
      answer leaves its receiver without a role. */
  lemma MovesAre(n: Network, s: Side, d: Datagram)
    ensures Next(n, Send(s))
            == n.(flight := n.flight + {Request(s, if n.RoleOf(s) == Controlling then Controlling else Controlled,
                                                n.TieOf(s))})
    ensures Next(n, Lose(d)) == n.(flight := n.flight - {d})
    ensures d !in n.flight ==> Next(n, Deliver(d)) == n
    ensures d in n.flight && d.ConflictResponse? ==> Next(n, Deliver(d)) == n.WithRole(d.receiver, Unknown)
    ensures d in n.flight && d.Request? ==>
              var me, other := Peer(d.sender), d.sender;
              var t := Next(n, Deliver(d));
              var told := if d.sentAs == Controlling then Controlled else Controlling;
              t == if n.RoleOf(me) == told || n.TieOf(me) < d.tieBreaker then n.WithRole(me, told)
                   else n.(flight := n.flight + {ConflictResponse(other)})
  {
  }

  function Run(n: Network, moves: seq<Move>): Network
    decreases |moves|
  {
    if moves == [] then n else Run(Next(n, moves[0]), moves[1..])
  }

  /** Nothing is in flight and both agents have a proper role. */
  predicate Initial(n: Network) {
    n.strongTie > n.weakTie && n.flight == {} && !n.strong.Unknown? && !n.weak.Unknown?
  }

  /** What holds in every run that starts with `role` at the strong agent. */
  ghost predicate StrongHolds(n: Network, role: Role) {
    n.strongTie > n.weakTie
    && n.strong == role && !role.Unknown?
    && (forall d :: d in n.flight && d.Request? && d.sender.Strong? ==>
                      d.sentAs == role && d.tieBreaker == n.strongTie)
    && (forall d :: d in n.flight && d.Request? && d.sender.Weak? ==> d.tieBreaker == n.weakTie)
    && ConflictResponse(Strong) !in n.flight
  }

  lemma StrongHoldsKept(n: Network, m: Move, role: Role)
    requires StrongHolds(n, role)
    ensures StrongHolds(Next(n, m), role)
  {
    match m {
      case Send(s) =>
      case Deliver(d) =>
      case Lose(d) =>
    }
  }

  /** In every run the agent with the larger tie-breaker keeps its role and is never sent a
      conflict response. */
  lemma {:induction false} StrongNeverSwitches(n: Network, moves: seq<Move>, role: Role)
    requires StrongHolds(n, role)
    ensures Run(n, moves).strong == role && ConflictResponse(Strong) !in Run(n, moves).flight
    ensures StrongHolds(Run(n, moves), role)
    decreases |moves|
  {
    if moves != [] {
      StrongHoldsKept(n, moves[0], role);
      StrongNeverSwitches(Next(n, moves[0]), moves[1..], role);
    }
  }

  lemma StrongNeverSwitchesFromStart(n: Network, moves: seq<Move>)
    requires Initial(n)
    ensures Run(n, moves).strong == n.strong
  {
    StrongNeverSwitches(n, moves, n.strong);
  }

  predicate Opposite(n: Network) {
    (n.strong == Controlling && n.weak == Controlled) || (n.strong == Controlled && n.weak == Controlling)
  }

  /** In every run, once the weak agent processes a request of the strong one, however old, the
      roles are opposite. */
  lemma StrongRequestSettles(n: Network, moves: seq<Move>, d: Datagram)
    requires Initial(n)
    requires d in Run(n, moves).flight && d.Request? && d.sender.Strong?
    ensures Opposite(Next(Run(n, moves), Deliver(d)))
  {
    StrongNeverSwitches(n, moves, n.strong);
  }

  /** Opposite roles, no conflict response in flight, and no request of the weak agent in flight
      that contradicts its present role. */
  ghost predicate Settled(n: Network) {
    Opposite(n)
    && (forall d :: d in n.flight ==> d.Request?)
    && (forall d :: d in n.flight && d.Request? ==> d.sentAs == n.RoleOf(d.sender))
  }

  /** Settled states are closed under every move, hence under every run. */
  lemma {:induction false} SettledForEver(n: Network, moves: seq<Move>)
    requires Settled(n)
    ensures Settled(Run(n, moves))
    ensures Run(n, moves).strong == n.strong && Run(n, moves).weak == n.weak
    decreases |moves|
  {
    if moves != [] {
      SettledForEver(Next(n, moves[0]), moves[1..]);
    }
  }

  /** From any such state: when what the weak agent and its conflict responses left in flight
      is lost and it processes one request of the strong agent, the state is settled for ever. */
  lemma SettlesAfterLossAndOneRequest(n: Network, role: Role, moves: seq<Move>)
    requires StrongHolds(n, role)
    requires forall d :: d in n.flight ==> d.Request? && d.sender.Strong?
    ensures Settled(Run(Next(Next(n, Send(Strong)), Deliver(Request(Strong, SentAs(n.strong), n.strongTie))), moves))
  {
    var d := Request(Strong, SentAs(n.strong), n.strongTie);
    var n1 := Next(n, Send(Strong));
    StrongHoldsKept(n, Send(Strong), role);
    StrongHoldsKept(n1, Deliver(d), role);
    SettledForEver(Next(n1, Deliver(d)), moves);
  }

  /** The weak agent's request as it would send it now, and what the strong agent makes of it. */
  function WeakRequest(n: Network): Datagram {
    Request(Weak, SentAs(n.weak), n.weakTie)
  }

  function WeakVerdict(n: Network): Verdict {
    JudgeRequest(n.strong, n.strongTie,
                 if SentAs(n.weak).Controlling? then Some(n.weakTie) else None,
                 if SentAs(n.weak).Controlling? then None else Some(n.weakTie)).1
  }

  /** The exact condition for the conflict response to settle a conflict. It carries no role
      attribute, so it always leads to the unknown role, which sends as controlled: from then on the
      weak agent's requests are accepted if and only if the strong agent is controlling. Section
      7.1.2.1 of RFC 5245 has the weak agent switch, which settles both cases. */
  lemma ConflictResponseSettlesIff(n: Network)
    requires n.strongTie > n.weakTie && WeakVerdict(n).Conflict?
    ensures
      var asked := Next(Next(n, Send(Weak)), Deliver(WeakRequest(n)));
      var n1 := Next(asked, Deliver(ConflictResponse(Weak)));
      && n1.weak == Unknown && n1.strong == n.strong
      && (WeakVerdict(n1).Accepted? <==> n.strong == Controlling)
      && (n.strong != Controlling ==>
            WeakVerdict(n1).Conflict? && WeakRequest(n1) == Request(Weak, Controlled, n.weakTie))
  {
    var a := Next(n, Send(Weak));
    assert WeakRequest(n) in a.flight;
    assert ConflictResponse(Weak) in Next(a, Deliver(WeakRequest(n))).flight;
  }

  /** When the weak agent is refused: exactly when it sends in the strong agent's role, or the strong
      agent has none. */
  lemma RefusedIff(n: Network)
    requires n.strongTie > n.weakTie
    ensures WeakVerdict(n).Conflict? <==> n.strong == SentAs(n.weak) || n.strong == Unknown
  {
  }
}
