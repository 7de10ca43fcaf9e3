/** The transaction table of the STUN agent (stun/agent.go). Each call is a step under the lock that
    takes transactions out of the table, and handler calls made afterwards without the lock. */
module StunAgent {
  import opened Wrappers
  import opened StunWire
  import opened StunAuth

  type Handler = nat
  type Caller = nat

  datatype AgentError =
    | AgentClosed
    | TransactionNotExists
    | TransactionExists
    | TransactionStopped
    | TransactionTimeOut
    | OtherError(code: int)

  datatype Event = Received(m: View) | Failed(error: AgentError)

  /** The ticket tells apart the successful starts; ids and handlers may be used again. */
  datatype Transaction = Transaction(id: TransactionID, deadline: int, h: Handler, ticket: nat)

  /** A handler call that a caller owes or has made. */
  datatype Call = Registered(caller: Caller, t: Transaction, e: Event) | Default(caller: Caller, e: Event)

  datatype Table = Table(transactions: map<TransactionID, Transaction>, closed: bool, zeroHandler: Option<Handler>)

  /** What a step under the lock leaves: the table, the calls to be made, and the error. */
  datatype Locked = Locked(table: Table, calls: seq<Call>, err: Option<AgentError>)

  function LockStart(a: Table, id: TransactionID, deadline: int, h: Handler, ticket: nat): Locked {
    if a.closed then Locked(a, [], Some(AgentClosed))
    else if id in a.transactions then Locked(a, [], Some(TransactionExists))
    else Locked(a.(transactions := a.transactions[id := Transaction(id, deadline, h, ticket)]), [], None)
  }

  function LockStop(a: Table, c: Caller, id: TransactionID, error: AgentError): Locked {
    if a.closed then Locked(a, [], Some(AgentClosed))
    else if id !in a.transactions then Locked(a, [], Some(TransactionNotExists))
    else Locked(a.(transactions := a.transactions - {id}), [Registered(c, a.transactions[id], Failed(error))], None)
  }

  function Expired(a: Table, time: int): set<TransactionID> {
    set id | id in a.transactions && a.transactions[id].deadline < time
  }

  /** The order in which a map is walked: each key once. */
  predicate Lists(order: seq<TransactionID>, ids: set<TransactionID>) {
    (forall id :: id in order ==> id in ids) && (forall id :: id in ids ==> id in order)
    && (forall i, j :: 0 <= i < j < |order| ==> order[i] != order[j])
  }

  function CallsFor(m: map<TransactionID, Transaction>, c: Caller, order: seq<TransactionID>, e: Event)
    : (calls: seq<Call>)
    requires forall id :: id in order ==> id in m
    ensures |calls| == |order|
    ensures forall i :: 0 <= i < |order| ==> calls[i] == Registered(c, m[order[i]], e)
  {
    seq(|order|, i requires 0 <= i < |order| => Registered(c, m[order[i]], e))
  }

  function LockCollect(a: Table, c: Caller, time: int, order: seq<TransactionID>): Locked
    requires a.closed || Lists(order, Expired(a, time))
  {
    if a.closed then Locked(a, [], Some(AgentClosed))
    else Locked(a.(transactions := a.transactions - Expired(a, time)),
                CallsFor(a.transactions, c, order, Failed(TransactionTimeOut)), None)
  }

  function LockProcess(a: Table, c: Caller, m: View): Locked {
    if a.closed then Locked(a, [], Some(AgentClosed))
    else if m.id in a.transactions then
      Locked(a.(transactions := a.transactions - {m.id}), [Registered(c, a.transactions[m.id], Received(m))], None)
    else Locked(a, [Default(c, Received(m))], None)
  }

  /** Close calls the handlers while it holds the lock. */
  function LockClose(a: Table, c: Caller, order: seq<TransactionID>): Locked
    requires a.closed || Lists(order, a.transactions.Keys)
  {
    if a.closed then Locked(a, [], Some(AgentClosed))
    else Locked(Table(map[], true, None), CallsFor(a.transactions, c, order, Failed(AgentClosed)), None)
  }

  // ----- any number of callers -----

  /** The agent, the calls its callers still owe, the calls made, and the successful starts. */
  datatype System = System(table: Table, hands: seq<Call>, log: seq<Call>, starts: seq<Transaction>,
                           defaults: seq<(Handler, Event)>)

  datatype Step =
    | Start(id: TransactionID, deadline: int, h: Handler)
    | Stop(c: Caller, id: TransactionID, error: AgentError)
    | Collect(c: Caller, time: int, order: seq<TransactionID>)
    | Process(c: Caller, m: View)
    | Close(c: Caller, order: seq<TransactionID>)
    | Fire(i: nat)

  /** A caller makes its calls in order; callers overtake one another freely. */
  predicate Enabled(s: System, step: Step) {
    match step
    case Collect(_, time, order) => s.table.closed || Lists(order, Expired(s.table, time))
    case Close(_, order) => s.table.closed || Lists(order, s.table.transactions.Keys)
    case Fire(i) => i < |s.hands| && forall j :: 0 <= j < i ==> s.hands[j].caller != s.hands[i].caller
    case _ => true
  }

  function Next(s: System, step: Step): System
    requires Enabled(s, step)
  {
    match step
    case Start(id, deadline, h) =>
      var r := LockStart(s.table, id, deadline, h, |s.starts|);
      if r.err.Some? then s
      else s.(table := r.table, starts := s.starts + [Transaction(id, deadline, h, |s.starts|)])
    case Stop(c, id, error) =>
      var r := LockStop(s.table, c, id, error);
      s.(table := r.table, hands := s.hands + r.calls)
    case Collect(c, time, order) =>
      var r := LockCollect(s.table, c, time, order);
      s.(table := r.table, hands := s.hands + r.calls)
    case Process(c, m) =>
      var r := LockProcess(s.table, c, m);
      s.(table := r.table, hands := s.hands + r.calls)
    case Close(c, order) =>
      var r := LockClose(s.table, c, order);
      s.(table := r.table, log := s.log + r.calls)
    case Fire(i) =>
      var call := s.hands[i];
      var left := s.hands[..i] + s.hands[i + 1..];
      match call
      case Registered(_, _, _) => s.(hands := left, log := s.log + [call])
      case Default(_, e) =>
        // the default handler is looked up without the lock
        if s.table.zeroHandler.Some? then s.(hands := left, defaults := s.defaults + [(s.table.zeroHandler.value, e)])
        else s.(hands := left)
  }

  /** The calls for some pending transactions, in the order of their ids, all with one event. */
  predicate CallsOf(calls: seq<Call>, m: map<TransactionID, Transaction>, c: Caller, order: seq<TransactionID>,
                    e: Event)
  {
    |calls| == |order|
    && forall k :: 0 <= k < |order| ==> order[k] in m && calls[k] == Registered(c, m[order[k]], e)
  }

  /** What every step does, said of the states before and after it: which handlers are called, with
      which event, and what is left in the table. On a closed agent nothing happens. */
  ghost predicate Effect(s: System, step: Step, n: System) {
    match step
    case Start(id, deadline, h) =>
      var t := Transaction(id, deadline, h, |s.starts|);
      n == if s.table.closed || id in s.table.transactions then s
           else s.(table := s.table.(transactions := s.table.transactions[id := t]), starts := s.starts + [t])
    case Stop(c, id, error) =>
      n == if s.table.closed || id !in s.table.transactions then s
           else s.(table := s.table.(transactions := s.table.transactions - {id}),
                   hands := s.hands + [Registered(c, s.table.transactions[id], Failed(error))])
    case Process(c, m) =>
      n == if s.table.closed then s
           else if m.id in s.table.transactions then
             s.(table := s.table.(transactions := s.table.transactions - {m.id}),
                hands := s.hands + [Registered(c, s.table.transactions[m.id], Received(m))])
           else s.(hands := s.hands + [Default(c, Received(m))])
    case Collect(c, time, order) =>
      if s.table.closed then n == s
      else
        var m := s.table.transactions;
        n == s.(table := s.table.(transactions := n.table.transactions), hands := n.hands)
        && n.table.transactions == (map id | id in m && m[id].deadline >= time :: m[id])
        && s.hands <= n.hands && CallsOf(n.hands[|s.hands|..], m, c, order, Failed(TransactionTimeOut))
        && forall id :: id in order <==> id in m && m[id].deadline < time
    case Close(c, order) =>
      if s.table.closed then n == s
      else
        n == s.(table := Table(map[], true, None), log := n.log)
        && s.log <= n.log && CallsOf(n.log[|s.log|..], s.table.transactions, c, order, Failed(AgentClosed))
        && forall id :: id in order <==> id in s.table.transactions
    case Fire(i) =>
      i < |s.hands|
      && var call, left := s.hands[i], s.hands[..i] + s.hands[i + 1..];
         n == if call.Registered? then s.(hands := left, log := s.log + [call])
              else if s.table.zeroHandler.Some? then
                s.(hands := left, defaults := s.defaults + [(s.table.zeroHandler.value, call.e)])
              else s.(hands := left)
  }

  lemma NextHasEffect(s: System, step: Step)
    requires Enabled(s, step)
    ensures Effect(s, step, Next(s, step))
  {
    var n := Next(s, step);
    assert s.hands + [] == s.hands && s.log + [] == s.log;
    match step
    case Collect(c, time, order) =>
      if !s.table.closed {
        var calls := CallsFor(s.table.transactions, c, order, Failed(TransactionTimeOut));
        assert n.hands == s.hands + calls;
        assert n.hands[|s.hands|..] == calls;
      }
    case Close(c, order) =>
      if !s.table.closed {
        var calls := CallsFor(s.table.transactions, c, order, Failed(AgentClosed));
        assert n.log == s.log + calls;
        assert n.log[|s.log|..] == calls;
      }
    case _ =>
  }

  predicate Initial(s: System) {
    s.table.transactions == map[] && !s.table.closed && s.hands == [] && s.log == [] && s.starts == []
        && s.defaults == []
  }

  /** How often a start is among some calls. */
  function Count(calls: seq<Call>, t: Transaction): nat {
    if calls == [] then 0
    else (if calls[0].Registered? && calls[0].t == t then 1 else 0) + Count(calls[1..], t)
  }

  predicate Pending(a: Table, t: Transaction) {
    t.id in a.transactions && a.transactions[t.id] == t
  }

  /** How often a start is pending, taken or fired, in all. */
  function Places(s: System, t: Transaction): nat {
    (if Pending(s.table, t) then 1 else 0) + Count(s.hands, t) + Count(s.log, t)
  }

  /** A transaction that was really started. */
  predicate Started(s: System, t: Transaction) {
    t.ticket < |s.starts| && s.starts[t.ticket] == t
  }

  predicate Genuine(s: System) {
    (forall id :: id in s.table.transactions ==>
        Started(s, s.table.transactions[id]) && s.table.transactions[id].id == id)
    && (forall i :: 0 <= i < |s.hands| ==> s.hands[i].Registered? ==> Started(s, s.hands[i].t))
    && (forall i :: 0 <= i < |s.log| ==> s.log[i].Registered? && Started(s, s.log[i].t))
    && (forall k :: 0 <= k < |s.starts| ==> s.starts[k].ticket == k)
  }

  /** Every start is in exactly one place, and a closed table is empty. */
  predicate Inv(s: System) {
    Genuine(s)
    && (forall k :: 0 <= k < |s.starts| ==> Places(s, s.starts[k]) == 1)
    && (s.table.closed ==> s.table.transactions == map[])
  }

  lemma {:induction false} CountConcat(a: seq<Call>, b: seq<Call>, t: Transaction)
    ensures Count(a + b, t) == Count(a, t) + Count(b, t)
  {
    if a == [] {
      assert a + b == b;
    } else {
      assert (a + b)[1..] == a[1..] + b;
      CountConcat(a[1..], b, t);
    }
  }

  lemma CountOne(call: Call, t: Transaction)
    ensures Count([call], t) == if call.Registered? && call.t == t then 1 else 0
  {
    assert [call][1..] == [];
  }

  lemma CountRemoved(calls: seq<Call>, i: nat, t: Transaction)
    requires i < |calls|
    ensures Count(calls, t) == Count(calls[..i] + calls[i + 1..], t) + Count([calls[i]], t)
  {
    assert calls == calls[..i] + ([calls[i]] + calls[i + 1..]);
    CountConcat(calls[..i], [calls[i]] + calls[i + 1..], t);
    CountConcat([calls[i]], calls[i + 1..], t);
    CountConcat(calls[..i], calls[i + 1..], t);
  }

  lemma {:induction false} CountAbsent(calls: seq<Call>, t: Transaction)
    requires forall i :: 0 <= i < |calls| ==> calls[i].Registered? ==> calls[i].t != t
    ensures Count(calls, t) == 0
  {
    if calls != [] {
      assert forall i :: 0 <= i < |calls[1..]| ==> calls[1..][i] == calls[i + 1];
      CountAbsent(calls[1..], t);
    }
  }

  lemma {:induction false} CountPresent(calls: seq<Call>, t: Transaction, i: nat)
    requires i < |calls| && calls[i].Registered? && calls[i].t == t
    ensures Count(calls, t) >= 1
  {
    if i > 0 {
      CountPresent(calls[1..], t, i - 1);
    }
  }

  lemma CountTwice(calls: seq<Call>, t: Transaction, i: nat, j: nat)
    requires i < j < |calls|
    requires calls[i].Registered? && calls[i].t == t && calls[j].Registered? && calls[j].t == t
    ensures Count(calls, t) >= 2
  {
    hide Count;
    assert calls == calls[..j] + calls[j..];
    CountConcat(calls[..j], calls[j..], t);
    CountPresent(calls[..j], t, i);
    CountPresent(calls[j..], t, 0);
  }

  /** Among the calls for listed ids, a pending transaction is there once if its id is listed. */
  lemma {:induction false} CountListed(a: Table, c: Caller, order: seq<TransactionID>, e: Event, t: Transaction)
    requires forall id :: id in order ==> id in a.transactions && a.transactions[id].id == id
    requires forall i, j :: 0 <= i < j < |order| ==> order[i] != order[j]
    ensures Count(CallsFor(a.transactions, c, order, e), t) == if Pending(a, t) && t.id in order then 1 else 0
  {
    if order != [] {
      var rest := order[1..];
      assert forall i :: 0 <= i < |rest| ==> rest[i] == order[i + 1];
      CountListed(a, c, rest, e, t);
      assert CallsFor(a.transactions, c, order, e)
             == [Registered(c, a.transactions[order[0]], e)] + CallsFor(a.transactions, c, rest, e);
      CountConcat([Registered(c, a.transactions[order[0]], e)], CallsFor(a.transactions, c, rest, e), t);
      CountOne(Registered(c, a.transactions[order[0]], e), t);
      assert order[0] !in rest;
    }
  }

  lemma StartKeeps(s: System, id: TransactionID, deadline: int, h: Handler)
    requires Inv(s)
    ensures Inv(Next(s, Step.Start(id, deadline, h)))
  {
    hide Count;
    var n := Next(s, Step.Start(id, deadline, h));
    if n != s {
      var t := Transaction(id, deadline, h, |s.starts|);
      CountAbsent(s.hands, t);
      CountAbsent(s.log, t);
      forall k | 0 <= k < |n.starts|
        ensures Places(n, n.starts[k]) == 1
      {
        if k < |s.starts| {
          assert n.starts[k] == s.starts[k];
          assert Places(s, s.starts[k]) == 1;
        }
      }
    }
  }

  /** Taking listed transactions out of the table and into hands, or into the log, moves them. */
  lemma TakenMoves(s: System, c: Caller, order: seq<TransactionID>, e: Event, logged: bool, closed: bool)
    requires Inv(s)
    requires Lists(order, Taken(s.table, order)) && (closed ==> Lists(order, s.table.transactions.Keys))
    requires forall id :: id in order ==> id in s.table.transactions
    ensures Inv(AfterTaking(s, c, order, e, logged, closed))
  {
    hide Count, CallsFor, Places, Genuine, Lists;
    var n := AfterTaking(s, c, order, e, logged, closed);
    TakenStaysGenuine(s, c, order, e, logged, closed);
    forall k | 0 <= k < |n.starts|
      ensures Places(n, n.starts[k]) == 1
    {
      TakenKeepsPlaces(s, c, order, e, logged, closed, s.starts[k]);
    }
    if closed {
      EverythingTaken(s.table, order);
    }
  }

  lemma EverythingTaken(a: Table, order: seq<TransactionID>)
    requires Lists(order, a.transactions.Keys)
    ensures a.transactions - Taken(a, order) == map[]
  {
  }

  lemma TakenStaysGenuine(s: System, c: Caller, order: seq<TransactionID>, e: Event, logged: bool, closed: bool)
    requires Genuine(s) && forall id :: id in order ==> id in s.table.transactions
    ensures Genuine(AfterTaking(s, c, order, e, logged, closed))
  {
    hide CallsFor;
    var calls := CallsFor(s.table.transactions, c, order, e);
    forall i | 0 <= i < |calls|
      ensures calls[i].Registered? && Started(s, calls[i].t)
    {
      assert order[i] in order;
    }
  }

  lemma TakenKeepsPlaces(s: System, c: Caller, order: seq<TransactionID>, e: Event, logged: bool, closed: bool,
                         t: Transaction)
    requires Genuine(s) && Lists(order, Taken(s.table, order))
    requires forall id :: id in order ==> id in s.table.transactions
    ensures Places(AfterTaking(s, c, order, e, logged, closed), t) == Places(s, t)
  {
    hide Count, CallsFor;
    var calls := CallsFor(s.table.transactions, c, order, e);
    CountListed(s.table, c, order, e, t);
    CountConcat(s.hands, calls, t);
    CountConcat(s.log, calls, t);
  }

  function Taken(a: Table, order: seq<TransactionID>): set<TransactionID> {
    set id | id in a.transactions && id in order
  }

  function AfterTaking(s: System, c: Caller, order: seq<TransactionID>, e: Event, logged: bool, closed: bool): System
    requires forall id :: id in order ==> id in s.table.transactions
  {
    var calls := CallsFor(s.table.transactions, c, order, e);
    var m := s.table.transactions - Taken(s.table, order);
    var table := if closed then Table(m, true, None) else s.table.(transactions := m);
    if logged then s.(table := table, log := s.log + calls) else s.(table := table, hands := s.hands + calls)
  }

  lemma FireKeeps(s: System, i: nat)
    requires Inv(s) && Enabled(s, Fire(i))
    ensures Inv(Next(s, Fire(i)))
  {
    hide Count;
    var n := Next(s, Fire(i));
    var call := s.hands[i];
    var left := s.hands[..i] + s.hands[i + 1..];
    assert n.hands == left;
    assert forall j :: 0 <= j < |left| ==> left[j] == if j < i then s.hands[j] else s.hands[j + 1];
    forall k | 0 <= k < |n.starts|
      ensures Places(n, n.starts[k]) == 1
    {
      var t := s.starts[k];
      assert Places(s, t) == 1;
      CountRemoved(s.hands, i, t);
      CountOne(call, t);
      CountConcat(s.log, [call], t);
    }
  }

  lemma NoCalls(m: map<TransactionID, Transaction>, c: Caller, e: Event)
    ensures CallsFor(m, c, [], e) == []
  {
  }

  lemma OneListed(a: Table, id: TransactionID)
    requires id in a.transactions
    ensures Lists([id], Taken(a, [id])) && Taken(a, [id]) == {id}
  {
  }

  lemma CallsMore(m: map<TransactionID, Transaction>, c: Caller, order: seq<TransactionID>, id: TransactionID,
                  e: Event)
    requires id in m && forall i :: i in order ==> i in m
    ensures CallsFor(m, c, order + [id], e) == CallsFor(m, c, order, e) + [Registered(c, m[id], e)]
  {
  }

  lemma OneCall(m: map<TransactionID, Transaction>, c: Caller, id: TransactionID, e: Event)
    requires id in m
    ensures CallsFor(m, c, [id], e) == [Registered(c, m[id], e)]
  {
  }

  /** Every step of every caller keeps the invariant. */
  lemma NextKeeps(s: System, step: Step)
    requires Inv(s) && Enabled(s, step)
    ensures Inv(Next(s, step))
  {
    hide Inv, Count, CallsFor;
    assert s.hands + [] == s.hands && s.log + [] == s.log;
    match step
    case Start(id, deadline, h) => StartKeeps(s, id, deadline, h);
    case Stop(c, id, error) =>
      if !s.table.closed && id in s.table.transactions {
        OneListed(s.table, id);
        OneCall(s.table.transactions, c, id, Failed(error));
        TakenMoves(s, c, [id], Failed(error), false, false);
      }
    case Collect(c, time, order) =>
      if !s.table.closed {
        assert Taken(s.table, order) == Expired(s.table, time);
        TakenMoves(s, c, order, Failed(TransactionTimeOut), false, false);
      }
    case Process(c, m) =>
      if !s.table.closed {
        if m.id in s.table.transactions {
          OneListed(s.table, m.id);
          OneCall(s.table.transactions, c, m.id, Received(m));
          TakenMoves(s, c, [m.id], Received(m), false, false);
        } else {
          DefaultKeeps(s, Default(c, Received(m)));
        }
      }
    case Close(c, order) =>
      if !s.table.closed {
        assert Taken(s.table, order) == s.table.transactions.Keys;
        assert s.table.transactions - s.table.transactions.Keys == map[];
        TakenMoves(s, c, order, Failed(AgentClosed), true, true);
      }
    case Fire(i) => FireKeeps(s, i);
  }

  lemma DefaultKeeps(s: System, call: Call)
    requires Inv(s) && call.Default?
    ensures Inv(s.(hands := s.hands + [call]))
  {
    hide Count;
    forall t: Transaction
      ensures Count(s.hands + [call], t) == Count(s.hands, t)
    {
      CountConcat(s.hands, [call], t);
      CountOne(call, t);
    }
    var n := s.(hands := s.hands + [call]);
    forall k | 0 <= k < |n.starts|
      ensures Places(n, n.starts[k]) == 1
    {
      assert Places(s, s.starts[k]) == 1;
    }
  }

  predicate IsRun(run: seq<System>, steps: seq<Step>) {
    |run| == |steps| + 1 && Initial(run[0])
    && forall i :: 0 <= i < |steps| ==> Enabled(run[i], steps[i]) && run[i + 1] == Next(run[i], steps[i])
  }

  lemma {:induction false} RunKeeps(run: seq<System>, steps: seq<Step>, i: nat)
    requires IsRun(run, steps) && i < |run|
    ensures Inv(run[i])
  {
    if i == 0 {
    } else {
      RunKeeps(run, steps, i - 1);
      NextKeeps(run[i - 1], steps[i - 1]);
    }
  }

  lemma {:induction false} LogGrows(run: seq<System>, steps: seq<Step>, i: nat, j: nat)
    requires IsRun(run, steps) && i <= j < |run|
    ensures run[i].log <= run[j].log && run[i].starts <= run[j].starts
    ensures run[i].table.closed ==> run[j].table.closed && run[j].starts == run[i].starts
    decreases j - i
  {
    if i < j {
      LogGrows(run, steps, i, j - 1);
      assert run[j] == Next(run[j - 1], steps[j - 1]);
    }
  }

  /** In every run of any number of callers: a start is at every moment in exactly one of pending,
      taken by one caller, or fired; the handler called is the one that was registered; no two of the
      calls made belong to the same start; and once the agent is closed and nothing is in hand, all
      starts have fired. */
  lemma HandlersRunExactlyOnce(run: seq<System>, steps: seq<Step>, n: nat)
    requires IsRun(run, steps) && n < |run|
    ensures var s := run[n];
      && (forall k :: 0 <= k < |s.starts| ==>
            (if Pending(s.table, s.starts[k]) then 1 else 0)
            + Count(s.hands, s.starts[k]) + Count(s.log, s.starts[k]) == 1)
      && (forall i :: 0 <= i < |s.log| ==> s.log[i].Registered? && Started(s, s.log[i].t))
      && (forall i, j :: 0 <= i < j < |s.log| ==> s.log[i].t != s.log[j].t)
      && (s.table.closed && (forall i :: 0 <= i < |s.hands| ==> s.hands[i].Default?) ==>
            forall k :: 0 <= k < |s.starts| ==> Count(s.log, s.starts[k]) == 1)
  {
    hide Count;
    RunKeeps(run, steps, n);
    var s := run[n];
    forall k | 0 <= k < |s.starts|
      ensures (if Pending(s.table, s.starts[k]) then 1 else 0)
              + Count(s.hands, s.starts[k]) + Count(s.log, s.starts[k]) == 1
    {
      assert Places(s, s.starts[k]) == 1;
    }
    forall i, j | 0 <= i < j < |s.log|
      ensures s.log[i].t != s.log[j].t
    {
      var t := s.log[i].t;
      assert Places(s, s.starts[t.ticket]) == 1;
      if s.log[j].t == t {
        CountTwice(s.log, t, i, j);
      }
    }
    if s.table.closed && (forall i :: 0 <= i < |s.hands| ==> s.hands[i].Default?) {
      forall k | 0 <= k < |s.starts|
        ensures Count(s.log, s.starts[k]) == 1
      {
        CountAbsent(s.hands, s.starts[k]);
      }
    }
  }

  /** The step made the call: a registered handler is told of the message that came for its id, of the
      error it was stopped with, of the time that ran out on it, or of the end of the agent; the default
      handler only of messages for which no transaction was pending. */
  predicate MadeBy(s: System, step: Step, call: Call) {
    !s.table.closed
    && match call
       case Default(caller, e) =>
         step.Process? && step.c == caller && e == Received(step.m) && step.m.id !in s.table.transactions
       case Registered(caller, t, e) =>
         Pending(s.table, t)
         && match step
            case Process(c, m) => c == caller && e == Received(m) && m.id == t.id
            case Stop(c, id, error) => c == caller && e == Failed(error) && id == t.id
            case Collect(c, time, _) => c == caller && e == Failed(TransactionTimeOut) && t.deadline < time
            case Close(c, _) => c == caller && e == Failed(AgentClosed)
            case _ => false
  }

  lemma MadeNow(s: System, step: Step, call: Call)
    requires Inv(s) && Enabled(s, step)
    requires call in Next(s, step).hands + Next(s, step).log && call !in s.hands + s.log
    ensures MadeBy(s, step, call)
  {
    hide Count;
    NextHasEffect(s, step);
  }

  /** In every run: every call that was made or is in hand was caused by one step, which decides its
      event. So a handler that hears of a message hears of one with its own id. */
  lemma {:induction false} EveryCallHasItsStep(run: seq<System>, steps: seq<Step>, n: nat, call: Call) returns (k: nat)
    requires IsRun(run, steps) && n < |run| && call in run[n].hands + run[n].log
    ensures k < n && MadeBy(run[k], steps[k], call)
    ensures call.Registered? && call.e.Received? ==> call.e.m.id == call.t.id
  {
    hide MadeBy, Next, Inv, IsRun, Enabled;
    CallsNeedSteps(run, steps, n, call);
    RunKeeps(run, steps, n - 1);
    StepOfRun(run, steps, n - 1);
    if call in run[n - 1].hands + run[n - 1].log {
      k := EveryCallHasItsStep(run, steps, n - 1, call);
    } else {
      k := n - 1;
      MadeNow(run[k], steps[k], call);
      MessageIsItsOwn(run[k], steps[k], call);
    }
  }

  lemma StepOfRun(run: seq<System>, steps: seq<Step>, k: nat)
    requires IsRun(run, steps) && k + 1 < |run|
    ensures k < |steps| && Enabled(run[k], steps[k]) && run[k + 1] == Next(run[k], steps[k])
  {
  }

  lemma CallsNeedSteps(run: seq<System>, steps: seq<Step>, n: nat, call: Call)
    requires IsRun(run, steps) && n < |run| && call in run[n].hands + run[n].log
    ensures n > 0
  {
  }

  lemma MessageIsItsOwn(s: System, step: Step, call: Call)
    requires MadeBy(s, step, call)
    ensures call.Registered? && call.e.Received? ==> call.e.m.id == call.t.id
  {
  }

  /** The default handler hears of messages only. */
  lemma {:induction false} DefaultsHearMessages(run: seq<System>, steps: seq<Step>, n: nat, i: nat)
    requires IsRun(run, steps) && n < |run| && i < |run[n].defaults|
    ensures run[n].defaults[i].1.Received?
  {
    hide MadeBy;
    assert n > 0;
    if i < |run[n - 1].defaults| {
      NextHasEffect(run[n - 1], steps[n - 1]);
      DefaultsHearMessages(run, steps, n - 1, i);
    } else {
      NextHasEffect(run[n - 1], steps[n - 1]);
      var call := run[n - 1].hands[steps[n - 1].i];
      var k := EveryCallHasItsStep(run, steps, n - 1, call);
      DefaultIsMessage(run[k], steps[k], call);
    }
  }

  lemma DefaultIsMessage(s: System, step: Step, call: Call)
    requires MadeBy(s, step, call) && call.Default?
    ensures call.e.Received?
  {
  }

  /** Collect takes exactly the pending transactions whose deadline is before the given time. */
  lemma CollectTakesExpired(s: System, c: Caller, time: int, order: seq<TransactionID>, k: nat)
    requires Inv(s) && Enabled(s, Collect(c, time, order)) && !s.table.closed
    requires k < |s.starts| && Pending(s.table, s.starts[k])
    ensures var n := Next(s, Collect(c, time, order));
            var t := s.starts[k];
            if t.deadline < time then !Pending(n.table, t) && Count(n.hands, t) == 1
            else Pending(n.table, t) && n.table.transactions[t.id] == t && Count(n.hands, t) == 0
  {
    hide Count;
    var n, t := Next(s, Collect(c, time, order)), s.starts[k];
    assert Places(s, t) == 1;
    NextKeeps(s, Collect(c, time, order));
    assert Places(n, n.starts[k]) == 1;
    assert n.log == s.log;
  }

  // ----- the methods, as one caller runs them -----

  /** The table with its default handler; the handler calls it makes are recorded in order. */
  class Agent {
    var transactions: map<TransactionID, Transaction>
    var closed: bool
    var zeroHandler: Option<Handler>
    var started: nat
    var log: seq<Call>
    var defaults: seq<(Handler, Event)>

    ghost function Contents(): Table
      reads this
    {
      Table(transactions, closed, zeroHandler)
    }

    constructor (h: Option<Handler>)
      ensures Contents() == Table(map[], false, h) && log == [] && defaults == [] && started == 0
    {
      transactions, closed, zeroHandler := map[], false, h;
      started, log, defaults := 0, [], [];
    }

    method HandleEvent(call: Call)
      requires call.Registered?
      modifies `log
      ensures log == old(log) + [call]
    {
      log := log + [call];
    }

    method Start(id: TransactionID, deadline: int, h: Handler) returns (err: Option<AgentError>)
      modifies `transactions, `started
      ensures var r := LockStart(old(Contents()), id, deadline, h, old(started));
              Contents() == r.table && err == r.err && started == old(started) + if err.None? then 1 else 0
      ensures err == if old(closed) then Some(AgentClosed)
                     else if id in old(transactions) then Some(TransactionExists)
                     else None
    {
      if closed {
        return Some(AgentClosed);
      }
      if id in transactions {
        return Some(TransactionExists);
      }
      transactions := transactions[id := Transaction(id, deadline, h, started)];
      started := started + 1;
      err := None;
    }

    method StopWithError(c: Caller, id: TransactionID, error: AgentError) returns (err: Option<AgentError>)
      modifies `transactions, `log
      ensures var r := LockStop(old(Contents()), c, id, error);
              Contents() == r.table && log == old(log) + r.calls && err == r.err
      ensures err == if old(closed) then Some(AgentClosed)
                     else if id !in old(transactions) then Some(TransactionNotExists)
                     else None
    {
      if closed {
        return Some(AgentClosed);
      }
      if id !in transactions {
        assert transactions - {id} == transactions;
        transactions := transactions - {id};
        return Some(TransactionNotExists);
      }
      var t := transactions[id];
      transactions := transactions - {id};
      HandleEvent(Registered(c, t, Failed(error)));
      err := None;
    }

    method Process(c: Caller, m: View) returns (err: Option<AgentError>)
      modifies `transactions, `log, `defaults
      ensures var r := LockProcess(old(Contents()), c, m);
              Contents() == r.table && err == r.err
              && (if r.calls != [] && r.calls[0].Default? then
                    log == old(log)
                    && defaults == old(defaults)
                       + if zeroHandler.Some? then [(zeroHandler.value, r.calls[0].e)] else []
                  else log == old(log) + r.calls && defaults == old(defaults))
      ensures err == if old(closed) then Some(AgentClosed) else None
      ensures !old(closed) && m.id in old(transactions) ==>
                log == old(log) + [Registered(c, old(transactions)[m.id], Received(m))] && defaults == old(defaults)
      ensures !old(closed) && m.id !in old(transactions) && zeroHandler.Some? ==>
                defaults == old(defaults) + [(zeroHandler.value, Received(m))]
    {
      if closed {
        return Some(AgentClosed);
      }
      if m.id in transactions {
        var t := transactions[m.id];
        transactions := transactions - {m.id};
        HandleEvent(Registered(c, t, Received(m)));
      } else if zeroHandler.Some? {
        defaults := defaults + [(zeroHandler.value, Received(m))];
      }
      err := None;
    }

    /** Walks the table in an order that is reported but not determined. */
    method ExpiredTransactions(time: int) returns (toRemove: seq<TransactionID>)
      ensures Lists(toRemove, Expired(Contents(), time))
    {
      toRemove := [];
      var rest := transactions.Keys;
      while rest != {}
        invariant rest <= transactions.Keys
        invariant forall id :: id in toRemove <==> id in Expired(Contents(), time) && id !in rest
        invariant forall i, j :: 0 <= i < j < |toRemove| ==> toRemove[i] != toRemove[j]
        decreases |rest|
      {
        var id :| id in rest;
        rest := rest - {id};
        if transactions[id].deadline < time {
          toRemove := toRemove + [id];
        }
      }
    }

    /** The handler calls after the lock is given back, or in Close before it is. */
    method CallAll(c: Caller, m: map<TransactionID, Transaction>, order: seq<TransactionID>, e: Event)
      requires forall id :: id in order ==> id in m
      modifies `log
      ensures log == old(log) + CallsFor(m, c, order, e)
    {
      for i := 0 to |order|
        invariant log == old(log) + CallsFor(m, c, order, e)[..i]
      {
        HandleEvent(Registered(c, m[order[i]], e));
      }
    }

    method Collect(c: Caller, time: int) returns (err: Option<AgentError>, toRemove: seq<TransactionID>)
      modifies `transactions, `log
      ensures old(closed) || Lists(toRemove, Expired(old(Contents()), time))
      ensures var r := LockCollect(old(Contents()), c, time, toRemove);
              Contents() == r.table && log == old(log) + r.calls && err == r.err
      ensures err == if old(closed) then Some(AgentClosed) else None
    {
      if closed {
        return Some(AgentClosed), [];
      }
      toRemove := ExpiredTransactions(time);
      var m := transactions;
      for i := 0 to |toRemove|
        invariant log == old(log)
        invariant transactions == m - (set k | 0 <= k < i :: toRemove[k])
      {
        transactions := transactions - {toRemove[i]};
      }
      assert (set k | 0 <= k < |toRemove| :: toRemove[k]) == Expired(old(Contents()), time);
      CallAll(c, m, toRemove, Failed(TransactionTimeOut));
      err := None;
    }

    method Close(c: Caller) returns (err: Option<AgentError>, order: seq<TransactionID>)
      modifies `transactions, `closed, `zeroHandler, `log
      ensures old(closed) || Lists(order, old(transactions).Keys)
      ensures var r := LockClose(old(Contents()), c, order);
              Contents() == r.table && log == old(log) + r.calls && err == r.err
      ensures err == if old(closed) then Some(AgentClosed) else None
    {
      if closed {
        return Some(AgentClosed), [];
      }
      hide CallsFor;
      order := [];
      NoCalls(transactions, c, Failed(AgentClosed));
      var rest := transactions.Keys;
      while rest != {}
        invariant transactions == old(transactions) && rest <= transactions.Keys
        invariant forall id :: id in order <==> id in transactions && id !in rest
        invariant forall i, j :: 0 <= i < j < |order| ==> order[i] != order[j]
        invariant log == old(log) + CallsFor(transactions, c, order, Failed(AgentClosed))
        decreases |rest|
      {
        var id :| id in rest;
        rest := rest - {id};
        HandleEvent(Registered(c, transactions[id], Failed(AgentClosed)));
        CallsMore(transactions, c, order, id, Failed(AgentClosed));
        order := order + [id];
      }
      transactions, closed, zeroHandler := map[], true, None;
      err := None;
    }
  }
}
