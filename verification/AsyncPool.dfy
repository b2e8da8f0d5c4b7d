/** The async pool: clients come back in a task of their own, and some slots never do. */
module AsyncPool {
  import opened Wrappers
  import Pool

  /** The pool with the clients whose return is pending and the number of slots given up. */
  datatype System = System(pool: Pool.System, pending: set<Pool.ClientId>, leaked: nat)

  datatype Action =
    | Shared(action: Pool.Action)
    | Drop(client: Pool.ClientId)
    | Return(client: Pool.ClientId)
    | Cancel(ticket: Pool.Ticket)

  function Start(config: Pool.PoolConfig): System { System(Pool.Start(config), {}, 0) }

  /** A handle dropped while its client is closed, or a `get` future dropped while it connects. */
  predicate Leaks(s: System, a: Action) {
    match a
    case Drop(client) => client in s.pool.held && client in s.pool.shut
    case Cancel(ticket) => ticket in s.pool.connecting
    case _ => false
  }

  function StepReturn(s: System, client: Pool.ClientId): System {
    match Pool.PutBack(s.pool.inner, client, false)
    case None => s.(pool := s.pool.(crashed := true))
    case Some(p) =>
      var pool := s.pool.(inner := p);
      System(if s.pool.inner.closed then pool.(gone := pool.gone + {client})
             else pool.(queued := pool.queued + [client]),
             s.pending - {client}, s.leaked)
  }

  /** The sync pool's drop is not an action here. */
  function Step(s: System, a: Action): System {
    match a
    case Shared(action) => if action.Drop? then s else s.(pool := Pool.Step(s.pool, action))
    case Drop(client) =>
      if client !in s.pool.held then s
      else
        var pool := s.pool.(held := s.pool.held - {client});
        if client in s.pool.shut
        then System(pool.(gone := pool.gone + {client}), s.pending, s.leaked + 1)
        else System(pool, s.pending + {client}, s.leaked)
    case Return(client) => if client in s.pending then StepReturn(s, client) else s
    case Cancel(ticket) =>
      if ticket !in s.pool.connecting then s
      else System(s.pool.(connecting := s.pool.connecting - {ticket}), s.pending, s.leaked + 1)
  }

  function Run(s: System, actions: seq<Action>): System
    decreases |actions|
  {
    if actions == [] then s else Run(Step(s, actions[0]), actions[1..])
  }

  /** The sync pool that this is: a pending return is a handle still held. */
  function Abstract(s: System): Pool.System {
    s.pool.(held := s.pool.held + s.pending)
  }

  /** What an action is there: a client handed to its return task is still held, and nobody else can touch it. */
  function Abstracted(s: System, a: Action): seq<Pool.Action> {
    match a
    case Shared(action) =>
      if action.Drop? || (action.CloseClient? && action.client !in s.pool.held) then [] else [action]
    case Return(client) => if client in s.pending then [Pool.Action.Drop(client)] else []
    case _ => []
  }

  function AbstractRun(s: System, actions: seq<Action>): seq<Pool.Action>
    decreases |actions|
  {
    if actions == [] then [] else Abstracted(s, actions[0]) + AbstractRun(Step(s, actions[0]), actions[1..])
  }

  ghost predicate Inv(s: System) {
    && Pool.Inv(Abstract(s), s.leaked)
    && s.pending !! s.pool.held
    && s.pending !! s.pool.shut
  }

  /** The pool with its handles and return tasks. The locked sections are those of the sync pool; only dropping
      differs. */
  class AsyncPool {
    const inner: Pool.SyncPool
    /** The clients of live handles, of spawned return tasks, and those that were closed. */
    var held: set<Pool.ClientId>
    var pending: set<Pool.ClientId>
    var shut: set<Pool.ClientId>
    ghost var system: System

    /** The objects are what the system says. */
    ghost predicate Valid()
      reads this, inner
    {
      && system.pool.inner == inner.State()
      && system.pool.held == held && system.pending == pending && system.pool.shut == shut
    }

    constructor (inner: Pool.SyncPool, ghost config: Pool.PoolConfig)
      requires inner.State() == Pool.Start(config).inner
      ensures Valid() && system == Start(config) && this.inner == inner
    {
      this.inner, this.held, this.pending, this.shut := inner, {}, {}, {};
      this.system := Start(config);
    }

    /** The locked section of `get`. */
    method TryReserve(ghost ticket: Pool.Ticket) returns (r: Pool.Reservation)
      requires Valid() && ticket !in system.pool.connecting
      modifies this, inner
      ensures Valid() && system == Step(old(system), Shared(Pool.Get(ticket)))
      ensures r == Pool.Reserve(old(system.pool.inner)).0
    {
      r := inner.TryReserve();
      if r.Reused? {
        held := held + {r.client};
      }
      system := Step(system, Shared(Pool.Get(ticket)));
    }

    /** The connect succeeded: the handle is made without the lock. */
    method ConnectOk(client: Pool.ClientId, ghost ticket: Pool.Ticket)
      requires Valid() && ticket in system.pool.connecting && client == system.pool.next
      modifies this
      ensures Valid() && system == Step(old(system), Shared(Pool.ConnectOk(ticket)))
    {
      held := held + {client};
      system := Step(system, Shared(Pool.ConnectOk(ticket)));
    }

    /** The locked section after a failed connect. */
    method ConnectFailed(ghost ticket: Pool.Ticket)
      requires Valid() && ticket in system.pool.connecting
      modifies this, inner
      ensures Valid() && system == Step(old(system), Shared(Pool.ConnectFail(ticket)))
    {
      var _ := inner.ConnectFailed();
      system := Step(system, Shared(Pool.ConnectFail(ticket)));
    }

    /** A user closes the client of a handle. */
    method CloseClient(client: Pool.ClientId)
      requires Valid() && client in held
      modifies this
      ensures Valid() && system == Step(old(system), Shared(Pool.CloseClient(client)))
    {
      shut := shut + {client};
      system := Step(system, Shared(Pool.CloseClient(client)));
    }

    /** The pooled connection's `drop`: a dead client is forgotten with its slot, another gets a return task. */
    method Drop(client: Pool.ClientId)
      requires Valid() && client in held
      modifies this
      ensures Valid() && system == Step(old(system), Action.Drop(client))
    {
      held := held - {client};
      if client !in shut {
        pending := pending + {client};
      }
      system := Step(system, Action.Drop(client));
    }

    /** The return task. */
    method Return(client: Pool.ClientId)
      requires Valid() && client in pending
      modifies this, inner
      ensures Valid() && system == Step(old(system), Action.Return(client))
    {
      var ok := inner.Drop(client, false);
      if ok {
        pending := pending - {client};
      }
      system := Step(system, Action.Return(client));
    }

    /** A `get` future is dropped while it connects. */
    method Cancel(ghost ticket: Pool.Ticket)
      requires Valid() && ticket in system.pool.connecting
      modifies this
      ensures Valid() && system == Step(old(system), Action.Cancel(ticket))
    {
      system := Step(system, Action.Cancel(ticket));
    }

    /** `close` */
    method Close() returns (drained: seq<Pool.ClientId>)
      requires Valid()
      modifies this, inner
      ensures Valid() && system == Step(old(system), Shared(Pool.ClosePool)) && drained == old(inner.idle)
    {
      drained := inner.Close();
      system := Step(system, Shared(Pool.ClosePool));
    }
  }

  // ---------------------------------------------------------------------------
  // Refinement
  // ---------------------------------------------------------------------------

  lemma RunOne(s: Pool.System, a: Pool.Action)
    ensures Pool.Run(s, [a]) == Pool.Step(s, a) && Pool.Run(s, []) == s
  {
    hide Pool.Step;
    assert [a][1..] == [];
  }

  lemma SharedRefines(s: System, action: Pool.Action)
    requires Inv(s) && Abstracted(s, Shared(action)) == [action]
    ensures Abstract(Step(s, Shared(action))) == Pool.Step(Abstract(s), action)
  {
    hide Pool.Counted, Pool.Placed, Pool.Queued;
    var all := s.pool.held + s.pending;
    match action
    case Get(ticket) =>
      if s.pool.inner.idle != [] {
        var c := s.pool.inner.idle[0];
        assert (s.pool.held + {c}) + s.pending == all + {c};
      }
    case ConnectOk(_) => assert (s.pool.held + {s.pool.next}) + s.pending == all + {s.pool.next};
    case _ =>
  }

  lemma ReturnRefines(s: System, client: Pool.ClientId)
    requires Inv(s) && client in s.pending
    ensures Abstract(StepReturn(s, client)) == Pool.Step(Abstract(s), Pool.Action.Drop(client))
  {
    hide Pool.Inv;
    assert s.pool.held + (s.pending - {client}) == (s.pool.held + s.pending) - {client};
  }

  /** An action that leaks nothing is its abstraction, or nothing, to the sync pool. */
  lemma StepRefines(s: System, a: Action)
    requires Inv(s) && !Leaks(s, a)
    ensures Abstract(Step(s, a)) == Pool.Run(Abstract(s), Abstracted(s, a))
    ensures Step(s, a).leaked == s.leaked
  {
    hide Inv, Pool.Step, Pool.Run;
    match a
    case Shared(action) =>
      RunOne(Abstract(s), action);
      if Abstracted(s, a) == [action] { SharedRefines(s, action); } else { Untouched(s, action); }
    case Return(client) =>
      RunOne(Abstract(s), Pool.Action.Drop(client));
      if client in s.pending { ReturnRefines(s, client); }
    case Drop(client) =>
      RunOne(Abstract(s), Pool.Action.Drop(client));
      if client in s.pool.held {
        assert (s.pool.held - {client}) + (s.pending + {client}) == s.pool.held + s.pending;
      }
    case Cancel(ticket) => RunOne(Abstract(s), Pool.ClosePool);
  }

  lemma Untouched(s: System, action: Pool.Action)
    requires action.Drop? || (action.CloseClient? && action.client !in s.pool.held)
    ensures Step(s, Shared(action)) == s
  {
  }

  // ---------------------------------------------------------------------------
  // Every reachable state
  // ---------------------------------------------------------------------------

  lemma StartHolds(config: Pool.PoolConfig)
    requires config.Valid()
    ensures Inv(Start(config)) && Abstract(Start(config)) == Pool.Start(config)
  {
    hide Pool.Inv;
    Pool.StartHolds(config);
    assert Abstract(Start(config)) == Pool.Start(config);
  }

  /** Who holds what stays apart. */
  lemma StepSeparates(s: System, a: Action)
    requires Inv(s)
    ensures var s' := Step(s, a); s'.pending !! s'.pool.held && s'.pending !! s'.pool.shut
  {
    hide Pool.Counted, Pool.Distinct;
    match a
    case Shared(action) =>
      match action {
        case Get(ticket) =>
          if s.pool.inner.idle != [] { assert s.pool.inner.idle[0] !in s.pending; }
        case ConnectOk(_) => assert s.pool.next !in s.pending;
        case _ =>
      }
    case _ =>
  }

  lemma DeadDropKeeps(t: Pool.System, leaked: nat, client: Pool.ClientId)
    requires Pool.Inv(t, leaked) && client in t.held
    ensures Pool.Inv(t.(held := t.held - {client}, gone := t.gone + {client}), leaked + 1)
  {
    hide Pool.Distinct;
  }

  lemma CancelKeeps(t: Pool.System, leaked: nat, ticket: Pool.Ticket)
    requires Pool.Inv(t, leaked) && ticket in t.connecting
    ensures Pool.Inv(t.(connecting := t.connecting - {ticket}), leaked + 1)
  {
    hide Pool.Distinct;
  }

  /** A leak moves one slot from the threads to the leaked. */
  lemma LeakKeeps(s: System, a: Action)
    requires Inv(s) && Leaks(s, a)
    ensures Pool.Inv(Abstract(Step(s, a)), Step(s, a).leaked) && Step(s, a).leaked == s.leaked + 1
  {
    hide Pool.Inv;
    var t := Abstract(s);
    match a
    case Drop(client) =>
      DeadDropKeeps(t, s.leaked, client);
      assert (s.pool.held - {client}) + s.pending == t.held - {client};
      assert Abstract(Step(s, a)) == t.(held := t.held - {client}, gone := t.gone + {client});
    case Cancel(ticket) => CancelKeeps(t, s.leaked, ticket);
  }

  lemma StepKeeps(s: System, a: Action)
    requires Inv(s)
    ensures Inv(Step(s, a))
    ensures Step(s, a).leaked == s.leaked + if Leaks(s, a) then 1 else 0
  {
    StepSeparates(s, a);
    hide Step, Abstract, Pool.Inv, Leaks, Abstracted;
    if Leaks(s, a) {
      LeakKeeps(s, a);
    } else {
      StepRefines(s, a);
      Pool.RunKeeps(Abstract(s), s.leaked, Abstracted(s, a));
    }
  }

  lemma {:induction false} RunKeeps(s: System, actions: seq<Action>)
    requires Inv(s)
    ensures Inv(Run(s, actions))
    ensures Run(s, actions).leaked == s.leaked + LeaksOf(s, actions)
    decreases |actions|
  {
    hide Step, Inv, Leaks;
    if actions != [] {
      StepKeeps(s, actions[0]);
      RunKeeps(Step(s, actions[0]), actions[1..]);
    }
  }

  /** The number of leaking actions of a run. */
  function LeaksOf(s: System, actions: seq<Action>): nat
    decreases |actions|
  {
    if actions == [] then 0
    else (if Leaks(s, actions[0]) then 1 else 0) + LeaksOf(Step(s, actions[0]), actions[1..])
  }

  lemma {:induction false} MaxSizeStays(s: System, actions: seq<Action>)
    ensures Run(s, actions).pool.inner.maxSize == s.pool.inner.maxSize
    decreases |actions|
  {
    if actions != [] {
      hide Pool.Step;
      MaxSizeStep(s, actions[0]);
      MaxSizeStays(Step(s, actions[0]), actions[1..]);
    }
  }

  lemma MaxSizeStep(s: System, a: Action)
    ensures Step(s, a).pool.inner.maxSize == s.pool.inner.maxSize
  {
  }

  /** Under every interleaving, with leaks: the count is live handles, connects in flight, pending returns and leaks;
      the bound holds and nothing underflows. */
  lemma AsyncBound(config: Pool.PoolConfig, actions: seq<Action>)
    requires config.Valid()
    ensures var s := Run(Start(config), actions);
            && s.pool.inner.active
               == |s.pool.held| + |s.pool.connecting| + |s.pending| + LeaksOf(Start(config), actions)
            && s.pool.inner.active + |s.pool.inner.idle| <= config.maxSize
            && !s.pool.crashed
  {
    hide Run, LeaksOf, Pool.Placed, Pool.Queued;
    StartHolds(config);
    RunKeeps(Start(config), actions);
    MaxSizeStays(Start(config), actions);
    var s := Run(Start(config), actions);
    DisjointUnion(s.pool.held, s.pending);
  }

  lemma DisjointUnion(a: set<Pool.ClientId>, b: set<Pool.ClientId>)
    requires a !! b
    ensures |a + b| == |a| + |b|
  {
  }

  lemma {:induction false} RunConcat(s: Pool.System, a: seq<Pool.Action>, b: seq<Pool.Action>)
    ensures Pool.Run(s, a + b) == Pool.Run(Pool.Run(s, a), b)
    decreases |a|
  {
    hide Pool.Step;
    if a == [] {
      assert a + b == b;
    } else {
      assert (a + b)[1..] == a[1..] + b;
      RunConcat(Pool.Step(s, a[0]), a[1..], b);
    }
  }

  /** A run without leaks is a run of the sync pool: same queue, same counts, same answers to every `get`. */
  lemma {:induction false} RunRefines(s: System, actions: seq<Action>)
    requires Inv(s) && LeaksOf(s, actions) == 0
    ensures Abstract(Run(s, actions)) == Pool.Run(Abstract(s), AbstractRun(s, actions))
    decreases |actions|
  {
    hide Step, Inv, Leaks, Abstract, Abstracted, Pool.Step;
    if actions != [] {
      var s' := Step(s, actions[0]);
      StepKeeps(s, actions[0]);
      StepRefines(s, actions[0]);
      RunRefines(s', actions[1..]);
      RunConcat(Abstract(s), Abstracted(s, actions[0]), AbstractRun(s', actions[1..]));
    }
  }

  /** A leaked slot is lost for good: whatever happens later, everything else fits into what is left. */
  lemma {:induction false} LeaksArePermanent(s: System, actions: seq<Action>)
    requires Inv(s)
    ensures var s' := Run(s, actions);
            |s'.pool.held| + |s'.pool.connecting| + |s'.pending| + |s'.pool.inner.idle|
            <= s.pool.inner.maxSize - s.leaked
  {
    hide Run, LeaksOf, Pool.Placed, Pool.Queued;
    RunKeeps(s, actions);
    MaxSizeStays(s, actions);
    var s' := Run(s, actions);
    DisjointUnion(s'.pool.held, s'.pending);
  }

  /** Once every slot has leaked, no `get` ever succeeds again. */
  lemma {:induction false} AllLeaked(s: System, actions: seq<Action>)
    requires Inv(s) && s.leaked == s.pool.inner.maxSize
    ensures var s' := Run(s, actions);
            && s.pool.answers <= s'.pool.answers
            && forall i :: |s.pool.answers| <= i < |s'.pool.answers| ==> s'.pool.answers[i].Refused?
    decreases |actions|
  {
    if actions != [] {
      var a := actions[0];
      StepKeeps(s, a);
      NoAnswer(s, a);
      MaxSizeStep(s, a);
      NoLeakLeft(s, a);
      hide Step, Inv, Leaks;
      AllLeaked(Step(s, a), actions[1..]);
    }
  }

  lemma NoLeakLeft(s: System, a: Action)
    requires Inv(s) && s.leaked == s.pool.inner.maxSize
    ensures !Leaks(s, a)
  {
    hide Pool.Placed, Pool.Queued;
    var t := Abstract(s);
    assert |t.held| == 0 && |t.connecting| == 0;
  }

  lemma NoAnswer(s: System, a: Action)
    requires Inv(s) && s.leaked == s.pool.inner.maxSize
    ensures var s' := Step(s, a);
            s'.pool.answers == s.pool.answers
            || exists e :: s'.pool.answers == s.pool.answers + [Pool.Refused(e)]
  {
    hide Pool.Placed, Pool.Queued;
    var t := Abstract(s);
    assert |t.held| == 0 && |t.connecting| == 0 && t.inner.idle == [];
    match a
    case Shared(action) =>
      match action {
        case Get(ticket) => assert Pool.Reserve(s.pool.inner).0.Refused?;
        case _ =>
      }
    case _ =>
  }

  /** A pool of one, without a queue. */
  function Single(held: set<Pool.ClientId>, connecting: set<Pool.Ticket>, shut: set<Pool.ClientId>,
                  gone: set<Pool.ClientId>, next: Pool.ClientId, answers: seq<Pool.Reservation>, leaked: nat): System
  {
    System(Pool.System(Pool.Inner(1, [], if answers == [] then 0 else 1, false), held, connecting, shut, gone, next,
                       [], [], [], answers, false), {}, leaked)
  }

  lemma LeakSteps()
    ensures var one := [Pool.Reserved];
            && Step(Single({}, {}, {}, {}, 0, [], 0), Shared(Pool.Get(0))) == Single({}, {0}, {}, {}, 0, one, 0)
            && Step(Single({}, {0}, {}, {}, 0, one, 0), Shared(Pool.ConnectOk(0))) == Single({0}, {}, {}, {}, 1, one, 0)
            && Step(Single({0}, {}, {}, {}, 1, one, 0), Shared(Pool.CloseClient(0)))
               == Single({0}, {}, {0}, {}, 1, one, 0)
            && Step(Single({0}, {}, {0}, {}, 1, one, 0), Drop(0)) == Single({}, {}, {0}, {0}, 1, one, 1)
            && Step(Single({}, {}, {0}, {0}, 1, one, 1), Shared(Pool.Get(1))).pool.answers
               == [Pool.Reserved, Pool.Refused(Pool.PoolExhausted(1))]
  {
    assert {0 as nat} - {0} == {} && {} + {0 as nat} == {0};
  }

  /** It comes to that: one handle whose client is closed before it is dropped, and a pool of one refuses for good. */
  lemma OneLeakEmptiesThePool(dsn: string)
    requires dsn != ""
    ensures var start := Start(Pool.PoolConfig(dsn, 1, 0));
            var s := Run(start, [Shared(Pool.Get(0)), Shared(Pool.ConnectOk(0)), Shared(Pool.CloseClient(0)), Drop(0)]);
            && Inv(s) && s.leaked == s.pool.inner.maxSize == 1
            && Step(s, Shared(Pool.Get(1))).pool.answers == [Pool.Reserved, Pool.Refused(Pool.PoolExhausted(1))]
  {
    var config := Pool.PoolConfig(dsn, 1, 0);
    assert Start(config) == Single({}, {}, {}, {}, 0, [], 0);
    StartHolds(config);
    LeakSteps();
    hide Step, Inv;
    RunKeeps(Start(config), [Shared(Pool.Get(0)), Shared(Pool.ConnectOk(0)), Shared(Pool.CloseClient(0)), Drop(0)]);
    FourSteps(Start(config), Shared(Pool.Get(0)), Shared(Pool.ConnectOk(0)), Shared(Pool.CloseClient(0)), Drop(0));
  }

  lemma FourSteps(s: System, a: Action, b: Action, c: Action, d: Action)
    ensures Run(s, [a, b, c, d]) == Step(Step(Step(Step(s, a), b), c), d)
  {
    hide Step;
    assert [a, b, c, d][1..] == [b, c, d] && [b, c, d][1..] == [c, d] && [c, d][1..] == [d] && [d][1..] == [];
    var t := Step(Step(s, a), b);
    assert Run(t, [c, d]) == Run(Step(t, c), [d]) == Run(Step(Step(t, c), d), []);
  }
}
