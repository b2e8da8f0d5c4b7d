/** The connection pool: its shared state, the sections that hold its lock, and every interleaving of them. */
module Pool {
  import opened Wrappers

  // ---------------------------------------------------------------------------
  // The shared state and the locked sections
  // ---------------------------------------------------------------------------

  datatype PoolConfig = PoolConfig(dsn: string, maxSize: nat, minIdle: nat) {
    predicate Valid() { dsn != "" && maxSize > 0 && minIdle <= maxSize }
  }

  datatype PoolError = ConnectFailure | PoolExhausted(max: nat) | PoolClosed | InvalidConfig

  /** A client, by the order in which it was connected. */
  type ClientId = nat

  datatype Inner = Inner(maxSize: nat, idle: seq<ClientId>, active: nat, closed: bool)

  /** How the locked section of `get` ends: with a client, with a reserved slot, or with an error. */
  datatype Reservation = Reused(client: ClientId) | Reserved | Refused(error: PoolError)

  function Reserve(p: Inner): (Reservation, Inner) {
    if p.closed then (Refused(PoolClosed), p)
    else if p.idle != [] then (Reused(p.idle[0]), p.(idle := p.idle[1..], active := p.active + 1))
    else if p.active + |p.idle| < p.maxSize then (Reserved, p.(active := p.active + 1))
    else (Refused(PoolExhausted(p.maxSize)), p)
  }

  /** The section after a failed connect; None where the count would go below zero. */
  function Unreserve(p: Inner): Option<Inner> {
    if p.active == 0 then None else Some(p.(active := p.active - 1))
  }

  /** The section of the pooled connection's `drop`. */
  function PutBack(p: Inner, client: ClientId, dead: bool): Option<Inner> {
    if p.active == 0 then None
    else if !p.closed && !dead then Some(p.(active := p.active - 1, idle := p.idle + [client]))
    else Some(p.(active := p.active - 1))
  }

  function Shut(p: Inner): Inner { p.(closed := true, idle := []) }

  /** The ids of the first n clients. */
  function FirstClients(n: nat): (s: seq<ClientId>)
    ensures |s| == n && forall i :: 0 <= i < n ==> s[i] == i
  {
    seq(n, i => i)
  }

  class SyncPool {
    const config: PoolConfig
    var idle: seq<ClientId>
    var activeCount: nat
    var closed: bool

    constructor Assemble(config: PoolConfig, idle: seq<ClientId>)
      ensures this.config == config && State() == Inner(config.maxSize, idle, 0, false)
    {
      this.config, this.idle, this.activeCount, this.closed := config, idle, 0, false;
    }

    ghost function State(): Inner
      reads this
    {
      Inner(config.maxSize, idle, activeCount, closed)
    }

    /** `validate` */
    static method Validate(config: PoolConfig) returns (ok: bool)
      ensures ok <==> config.Valid()
    {
      if config.dsn == "" {
        return false;
      }
      if config.maxSize == 0 {
        return false;
      }
      if config.minIdle > config.maxSize {
        return false;
      }
      return true;
    }

    /** `new`: `connects` says which connection attempts succeed. */
    static method New(config: PoolConfig, connects: nat -> bool) returns (r: Outcome<SyncPool, PoolError>)
      ensures !config.Valid() ==> r == Err(InvalidConfig)
      ensures config.Valid() ==>
                (r == Err(ConnectFailure) <==> exists i :: 0 <= i < config.minIdle && !connects(i))
      ensures config.Valid() && !r.Ok? ==> r == Err(ConnectFailure)
      ensures r.Ok? ==>
                && fresh(r.value)
                && r.value.State() == Inner(config.maxSize, FirstClients(config.minIdle), 0, false)
    {
      var ok := Validate(config);
      if !ok {
        return Err(InvalidConfig);
      }
      var idle := [];
      var i := 0;
      while i < config.minIdle
        invariant 0 <= i <= config.minIdle && idle == FirstClients(i)
        invariant forall j :: 0 <= j < i ==> connects(j)
      {
        if !connects(i) {
          return Err(ConnectFailure);
        }
        idle := idle + [i];
        i := i + 1;
      }
      var pool := new SyncPool.Assemble(config, idle);
      return Ok(pool);
    }

    /** The locked section of `get`. */
    method TryReserve() returns (r: Reservation)
      modifies this
      ensures (r, State()) == Reserve(old(State()))
    {
      if closed {
        return Refused(PoolClosed);
      }
      if idle != [] {
        r := Reused(idle[0]);
        idle := idle[1..];
        activeCount := activeCount + 1;
        return;
      }
      var total := activeCount + |idle|;
      if total < config.maxSize {
        activeCount := activeCount + 1;
        return Reserved;
      }
      return Refused(PoolExhausted(config.maxSize));
    }

    /** The locked section after a failed connect. */
    method ConnectFailed() returns (ok: bool)
      modifies this
      ensures ok == Unreserve(old(State())).Some?
      ensures State() == if ok then Unreserve(old(State())).value else old(State())
    {
      if activeCount == 0 {
        return false;
      }
      activeCount := activeCount - 1;
      return true;
    }

    /** `get` without other threads in between: `connection` is the client a new connection would give. */
    method Get(connection: Option<ClientId>) returns (r: Outcome<ClientId, PoolError>)
      modifies this
      ensures var (step, p) := Reserve(old(State()));
              match step
              case Refused(e) => r == Err(e) && State() == p == old(State())
              case Reused(client) => r == Ok(client) && State() == p
              case Reserved =>
                if connection.Some? then r == Ok(connection.value) && State() == p
                else r == Err(ConnectFailure) && State() == old(State())
    {
      var step := TryReserve();
      match step
      case Refused(e) => return Err(e);
      case Reused(client) => return Ok(client);
      case Reserved =>
        if connection.Some? {
          return Ok(connection.value);
        }
        var _ := ConnectFailed();
        return Err(ConnectFailure);
    }

    /** The pooled connection's `drop`. */
    method Drop(client: ClientId, dead: bool) returns (ok: bool)
      modifies this
      ensures ok == PutBack(old(State()), client, dead).Some?
      ensures State() == if ok then PutBack(old(State()), client, dead).value else old(State())
    {
      if activeCount == 0 {
        return false;
      }
      activeCount := activeCount - 1;
      if !closed && !dead {
        idle := idle + [client];
      }
      return true;
    }

    /** `close`: the idle clients are closed in queue order. */
    method Close() returns (drained: seq<ClientId>)
      modifies this
      ensures State() == Shut(old(State())) && drained == old(idle)
    {
      closed := true;
      drained := [];
      while idle != []
        invariant drained + idle == old(idle)
        invariant State() == Inner(config.maxSize, idle, old(activeCount), true)
        decreases |idle|
      {
        assert idle == [idle[0]] + idle[1..];
        drained := drained + [idle[0]];
        idle := idle[1..];
      }
    }
  }

  // ---------------------------------------------------------------------------
  // Any number of threads
  // ---------------------------------------------------------------------------

  /** A `get` whose connect is under way. */
  type Ticket = nat

  /** The pool, what the threads hold, and history: clients put into the queue, handed out from it, and drained. */
  datatype System = System(
    inner: Inner, held: set<ClientId>, connecting: set<Ticket>, shut: set<ClientId>, gone: set<ClientId>,
    next: ClientId, queued: seq<ClientId>, issued: seq<ClientId>, drained: seq<ClientId>,
    answers: seq<Reservation>, crashed: bool)

  datatype Action =
    | Get(ticket: Ticket)
    | ConnectOk(ticket: Ticket)
    | ConnectFail(ticket: Ticket)
    | Drop(client: ClientId)
    | CloseClient(client: ClientId)
    | ClosePool

  function Start(config: PoolConfig): System {
    var idle := FirstClients(config.minIdle);
    System(Inner(config.maxSize, idle, 0, false), {}, {}, {}, {}, config.minIdle, idle, [], [], [], false)
  }

  /** The first section of `get`. */
  function StepGet(s: System, ticket: Ticket): System {
    var (r, p) := Reserve(s.inner);
    var s := s.(inner := p, answers := s.answers + [r]);
    match r
    case Reused(client) => s.(held := s.held + {client}, issued := s.issued + [client])
    case Reserved => s.(connecting := s.connecting + {ticket})
    case Refused(_) => s
  }

  function StepConnectOk(s: System, ticket: Ticket): System {
    s.(connecting := s.connecting - {ticket}, held := s.held + {s.next}, next := s.next + 1)
  }

  function StepConnectFail(s: System, ticket: Ticket): System {
    match Unreserve(s.inner)
    case Some(p) => s.(connecting := s.connecting - {ticket}, inner := p)
    case None => s.(crashed := true)
  }

  function StepDrop(s: System, client: ClientId): System {
    match PutBack(s.inner, client, client in s.shut)
    case None => s.(crashed := true)
    case Some(p) =>
      var s' := s.(inner := p, held := s.held - {client});
      if !s.inner.closed && client !in s.shut then s'.(queued := s.queued + [client])
      else s'.(gone := s.gone + {client})
  }

  function StepClosePool(s: System): System {
    s.(inner := Shut(s.inner), drained := s.drained + s.inner.idle, gone := s.gone + set c | c in s.inner.idle)
  }

  /** One thread's next section. An action that nobody can take changes nothing. */
  function Step(s: System, a: Action): System {
    match a
    case Get(ticket) => if ticket in s.connecting then s else StepGet(s, ticket)
    case ConnectOk(ticket) => if ticket in s.connecting then StepConnectOk(s, ticket) else s
    case ConnectFail(ticket) => if ticket in s.connecting then StepConnectFail(s, ticket) else s
    case Drop(client) => if client in s.held then StepDrop(s, client) else s
    case CloseClient(client) => if client in s.held then s.(shut := s.shut + {client}) else s
    case ClosePool => StepClosePool(s)
  }

  function Run(s: System, actions: seq<Action>): System
    decreases |actions|
  {
    if actions == [] then s else Run(Step(s, actions[0]), actions[1..])
  }

  ghost predicate Distinct(s: seq<ClientId>) {
    forall i, j :: 0 <= i < j < |s| ==> s[i] != s[j]
  }

  /** The count is what threads hold or are about to (and slots given up for good, which only the async pool has),
      and the whole stays within the maximum. */
  ghost predicate Counted(s: System, leaked: nat) {
    && s.inner.active == |s.held| + |s.connecting| + leaked
    && s.inner.active + |s.inner.idle| <= s.inner.maxSize
    && !s.crashed
  }

  /** Every client ever connected is in exactly one place: the queue, one handle, or gone. */
  ghost predicate Placed(s: System) {
    && Distinct(s.inner.idle)
    && (forall c :: c in s.inner.idle ==> c < s.next && c !in s.held && c !in s.gone)
    && (forall c :: c in s.held ==> c < s.next && c !in s.gone)
    && (forall c :: c in s.gone ==> c < s.next)
    && (forall c :: 0 <= c < s.next ==> c in s.inner.idle || c in s.held || c in s.gone)
  }

  /** Idle clients are open, a closed pool has none, and the queue is first in, first out. */
  ghost predicate Queued(s: System) {
    && (forall c :: c in s.inner.idle ==> c !in s.shut)
    && (s.inner.closed ==> s.inner.idle == [])
    && (!s.inner.closed ==> s.drained == [])
    && s.queued == s.issued + s.drained + s.inner.idle
    && (forall c :: c in s.shut ==> c < s.next)
  }

  ghost predicate Inv(s: System, leaked: nat) { Counted(s, leaked) && Placed(s) && Queued(s) }

  // ---------------------------------------------------------------------------
  // Every reachable state
  // ---------------------------------------------------------------------------

  lemma StartHolds(config: PoolConfig)
    requires config.Valid()
    ensures Inv(Start(config), 0)
  {
    var idle := FirstClients(config.minIdle);
    forall c | 0 <= c < config.minIdle
      ensures c in idle
    {
      assert idle[c] == c;
    }
    assert [] + [] + idle == idle;
  }

  /** The accepted configurations are those with a connection string and room for one client whose first state keeps the
      bound. */
  lemma ValidExactly(config: PoolConfig)
    ensures config.Valid() <==> config.dsn != "" && config.maxSize >= 1 && Inv(Start(config), 0)
  {
    if config.Valid() { StartHolds(config); }
  }

  lemma PlacesAfterPop(idle: seq<ClientId>)
    requires idle != [] && Distinct(idle)
    ensures Distinct(idle[1..])
    ensures forall c :: c in idle[1..] <==> c in idle && c != idle[0]
  {
    forall c | c in idle && c != idle[0]
      ensures c in idle[1..]
    {
      var i :| 0 <= i < |idle| && idle[i] == c;
      assert idle[1..][i - 1] == c;
    }
  }

  lemma PlacesAfterPush(idle: seq<ClientId>, client: ClientId)
    requires Distinct(idle) && client !in idle
    ensures Distinct(idle + [client])
    ensures forall c :: c in idle + [client] <==> c in idle || c == client
  {
  }

  lemma GetCounts(s: System, leaked: nat, ticket: Ticket)
    requires Counted(s, leaked) && Placed(s) && ticket !in s.connecting
    ensures Counted(StepGet(s, ticket), leaked)
  {
    hide Distinct;
    if s.inner.idle != [] { assert s.inner.idle[0] in s.inner.idle; }
  }

  lemma GetPlaces(s: System, ticket: Ticket)
    requires Placed(s)
    ensures Placed(StepGet(s, ticket))
  {
    hide Distinct;
    if s.inner.idle != [] { PlacesAfterPop(s.inner.idle); }
  }

  lemma GetQueues(s: System, ticket: Ticket)
    requires Queued(s)
    ensures Queued(StepGet(s, ticket))
  {
    var idle := s.inner.idle;
    if !s.inner.closed && idle != [] {
      assert s.issued + [] + idle == (s.issued + [idle[0]]) + [] + idle[1..];
      assert forall c :: c in idle[1..] ==> c in idle;
    }
  }

  lemma ConnectKeeps(s: System, leaked: nat, ticket: Ticket)
    requires Inv(s, leaked) && ticket in s.connecting
    ensures Inv(StepConnectOk(s, ticket), leaked) && Inv(StepConnectFail(s, ticket), leaked)
  {
    hide Distinct;
    assert s.next !in s.held;
  }

  lemma DropCounts(s: System, leaked: nat, client: ClientId)
    requires Counted(s, leaked) && client in s.held
    ensures Counted(StepDrop(s, client), leaked)
  {
  }

  lemma DropPlaces(s: System, leaked: nat, client: ClientId)
    requires Counted(s, leaked) && Placed(s) && client in s.held
    ensures Placed(StepDrop(s, client))
  {
    hide Distinct;
    if !s.inner.closed && client !in s.shut { PlacesAfterPush(s.inner.idle, client); }
  }

  lemma DropQueues(s: System, client: ClientId)
    requires Queued(s) && client in s.held
    ensures Queued(StepDrop(s, client))
  {
    if !s.inner.closed && client !in s.shut {
      assert s.issued + s.drained + (s.inner.idle + [client]) == (s.issued + s.drained + s.inner.idle) + [client];
    }
  }

  lemma ClosePoolKeeps(s: System, leaked: nat)
    requires Inv(s, leaked)
    ensures Inv(StepClosePool(s), leaked)
  {
    assert s.issued + (s.drained + s.inner.idle) + [] == s.issued + s.drained + s.inner.idle;
  }

  lemma CloseClientKeeps(s: System, leaked: nat, client: ClientId)
    requires Inv(s, leaked) && client in s.held
    ensures Inv(s.(shut := s.shut + {client}), leaked)
  {
    hide Distinct;
  }

  /** Whatever the threads do next, the invariant is kept. */
  lemma StepKeeps(s: System, leaked: nat, a: Action)
    requires Inv(s, leaked)
    ensures Inv(Step(s, a), leaked)
  {
    hide Counted, Placed, Queued, StepGet, StepConnectOk, StepConnectFail, StepDrop, StepClosePool;
    match a
    case Get(ticket) =>
      if ticket !in s.connecting {
        GetCounts(s, leaked, ticket);
        GetPlaces(s, ticket);
        GetQueues(s, ticket);
      }
    case ConnectOk(ticket) => if ticket in s.connecting { ConnectKeeps(s, leaked, ticket); }
    case ConnectFail(ticket) => if ticket in s.connecting { ConnectKeeps(s, leaked, ticket); }
    case Drop(client) =>
      if client in s.held {
        DropCounts(s, leaked, client);
        DropPlaces(s, leaked, client);
        DropQueues(s, client);
      }
    case CloseClient(client) => if client in s.held { CloseClientKeeps(s, leaked, client); }
    case ClosePool => ClosePoolKeeps(s, leaked);
  }

  lemma {:induction false} RunKeeps(s: System, leaked: nat, actions: seq<Action>)
    requires Inv(s, leaked)
    ensures Inv(Run(s, actions), leaked)
    decreases |actions|
  {
    hide Step, Inv;
    if actions != [] {
      StepKeeps(s, leaked, actions[0]);
      RunKeeps(Step(s, actions[0]), leaked, actions[1..]);
    }
  }

  /** From any valid configuration, under every interleaving of any number of threads: the bound and the accounting
      hold, and no count ever goes below zero. */
  lemma PoolBound(config: PoolConfig, actions: seq<Action>)
    requires config.Valid()
    ensures var s := Run(Start(config), actions);
            && s.inner.active == |s.held| + |s.connecting|
            && s.inner.active + |s.inner.idle| <= config.maxSize
            && !s.crashed
  {
    hide Run;
    StartHolds(config);
    RunKeeps(Start(config), 0, actions);
    MaxSizeStays(Start(config), actions);
  }

  lemma {:induction false} MaxSizeStays(s: System, actions: seq<Action>)
    ensures Run(s, actions).inner.maxSize == s.inner.maxSize
    decreases |actions|
  {
    if actions != [] { MaxSizeStays(Step(s, actions[0]), actions[1..]); }
  }

  /** `get` is refused for want of room exactly when every slot is held or being connected. */
  lemma ExhaustedExactly(config: PoolConfig, actions: seq<Action>)
    requires config.Valid()
    ensures var s := Run(Start(config), actions);
            && (Reserve(s.inner).0 == Refused(PoolExhausted(config.maxSize))
                <==> !s.inner.closed && |s.held| + |s.connecting| == config.maxSize)
            && (Reserve(s.inner).0 == Refused(PoolClosed) <==> s.inner.closed)
  {
    hide Run;
    StartHolds(config);
    RunKeeps(Start(config), 0, actions);
    MaxSizeStays(Start(config), actions);
  }

  /** A pool is closed exactly when somebody has closed it. */
  lemma {:induction false} ClosedByClosing(s: System, actions: seq<Action>)
    ensures Run(s, actions).inner.closed <==> s.inner.closed || ClosePool in actions
    decreases |actions|
  {
    if actions != [] {
      ClosedByClosing(Step(s, actions[0]), actions[1..]);
      assert actions == [actions[0]] + actions[1..];
    }
  }

  /** What `get` answers, in every reachable state: the client longest in the queue if there is one, else a new
      connection if there is room. */
  lemma GetAnswers(config: PoolConfig, actions: seq<Action>)
    requires config.Valid()
    ensures var s := Run(Start(config), actions);
            Reserve(s.inner).0
            == if ClosePool in actions then Refused(PoolClosed)
               else if |s.issued| < |s.queued| then Reused(s.queued[|s.issued|])
               else if |s.held| + |s.connecting| < config.maxSize then Reserved
               else Refused(PoolExhausted(config.maxSize))
  {
    hide Run;
    StartHolds(config);
    RunKeeps(Start(config), 0, actions);
    MaxSizeStays(Start(config), actions);
    ClosedByClosing(Start(config), actions);
    var s := Run(Start(config), actions);
    if !s.inner.closed { assert s.queued == s.issued + s.inner.idle; }
  }

  function Gets(tickets: seq<Ticket>): seq<Action> {
    if tickets == [] then [] else [Get(tickets[0])] + Gets(tickets[1..])
  }

  function Reuses(clients: seq<ClientId>): (r: seq<Reservation>)
    ensures |r| == |clients| && forall i :: 0 <= i < |r| ==> r[i] == Reused(clients[i])
  {
    if clients == [] then [] else [Reused(clients[0])] + Reuses(clients[1..])
  }

  /** The first n idle clients have been handed out between two states, in order. */
  ghost predicate Drains(s: System, s': System, n: nat)
    requires n <= |s.inner.idle|
  {
    && s'.answers == s.answers + Reuses(s.inner.idle[..n])
    && s'.inner.idle == s.inner.idle[n..]
    && forall c :: c in s'.held <==> c in s.held || c in s.inner.idle[..n]
  }

  lemma GetReuses(s: System, ticket: Ticket)
    requires !s.inner.closed && s.inner.idle != [] && ticket !in s.connecting
    ensures var s' := Step(s, Get(ticket));
            && Drains(s, s', 1) && !s'.inner.closed && s'.connecting == s.connecting
  {
    var c := s.inner.idle[0];
    assert s.inner.idle[..1] == [c] && Reuses([c]) == [Reused(c)];
  }

  lemma SplitFirst(idle: seq<ClientId>, n: nat)
    requires n < |idle|
    ensures idle[..n + 1] == idle[..1] + idle[1..][..n] && idle[1..][n..] == idle[n + 1..]
  {
  }

  lemma ReusesConcat(a: seq<ClientId>, b: seq<ClientId>)
    ensures Reuses(a + b) == Reuses(a) + Reuses(b)
  {
  }

  lemma AnswersRegroup(a: seq<Reservation>, b: seq<Reservation>, c: seq<Reservation>)
    ensures (a + b) + c == a + (b + c)
  {
  }

  lemma DrainsOn(s: System, s1: System, s2: System, n: nat)
    requires n < |s.inner.idle| && Drains(s, s1, 1) && Drains(s1, s2, n)
    ensures Drains(s, s2, n + 1)
  {
    hide Reuses;
    var idle := s.inner.idle;
    SplitFirst(idle, n);
    ReusesConcat(idle[..1], idle[1..][..n]);
    AnswersRegroup(s.answers, Reuses(idle[..1]), Reuses(idle[1..][..n]));
    forall c
      ensures c in s2.held <==> c in s.held || c in idle[..n + 1]
    {
      assert c in idle[..n + 1] <==> c in idle[..1] || c in idle[1..][..n];
    }
  }

  /** As many `get`s as there are idle clients are given those, in order. */
  lemma {:induction false} GetsDrain(s: System, tickets: seq<Ticket>)
    requires !s.inner.closed && |tickets| <= |s.inner.idle| && forall t :: t in tickets ==> t !in s.connecting
    ensures Drains(s, Run(s, Gets(tickets)), |tickets|)
    decreases |tickets|
  {
    if tickets == [] {
      assert s.answers + [] == s.answers;
    } else {
      assert tickets[0] in tickets && forall t :: t in tickets[1..] ==> t in tickets;
      GetReuses(s, tickets[0]);
      assert Gets(tickets)[1..] == Gets(tickets[1..]);
      hide Step, Reuses;
      var s1 := Step(s, Get(tickets[0]));
      GetsDrain(s1, tickets[1..]);
      hide Drains;
      DrainsOn(s, s1, Run(s1, Gets(tickets[1..])), |tickets| - 1);
    }
  }

  /** An open client dropped into an open pool goes to the end of the queue, and the `get`s that reach the end are given
      those before it and then it. */
  lemma DroppedComesBack(config: PoolConfig, actions: seq<Action>, c: ClientId, tickets: seq<Ticket>)
    requires config.Valid() && ClosePool !in actions
    requires var s := Run(Start(config), actions);
             && c in s.held && c !in s.shut
             && |tickets| == |s.inner.idle| + 1 && forall t :: t in tickets ==> t !in s.connecting
    ensures var s := Run(Start(config), actions);
            var s' := Run(Step(s, Drop(c)), Gets(tickets));
            && Step(s, Drop(c)).inner.idle == s.inner.idle + [c] && c !in Step(s, Drop(c)).held
            && s'.answers == s.answers + Reuses(s.inner.idle) + [Reused(c)] && c in s'.held && s'.inner.idle == []
  {
    hide Run, Gets, Step, Inv, Start;
    StartHolds(config);
    RunKeeps(Start(config), 0, actions);
    ClosedByClosing(Start(config), actions);
    assert !Start(config).inner.closed by { NewIsOpen(config); }
    var s := Run(Start(config), actions);
    var s1 := Step(s, Drop(c));
    DropQueuesUp(s, c);
    GetsDrain(s1, tickets);
    AllDrained(s, s1, Run(s1, Gets(tickets)), c);
  }

  lemma NewIsOpen(config: PoolConfig)
    ensures !Start(config).inner.closed
  {
  }

  lemma DropQueuesUp(s: System, c: ClientId)
    requires Inv(s, 0) && !s.inner.closed && c in s.held && c !in s.shut
    ensures var s1 := Step(s, Drop(c));
            && s1.inner == s.inner.(active := s1.inner.active, idle := s.inner.idle + [c])
            && s1.held == s.held - {c} && s1.answers == s.answers && s1.connecting == s.connecting
  {
    hide Placed, Queued;
  }

  lemma AllDrained(s: System, s1: System, s2: System, c: ClientId)
    requires s1.inner.idle == s.inner.idle + [c] && s1.answers == s.answers
    requires Drains(s1, s2, |s1.inner.idle|)
    ensures s2.answers == s.answers + Reuses(s.inner.idle) + [Reused(c)] && c in s2.held && s2.inner.idle == []
  {
    hide Reuses;
    var idle := s1.inner.idle;
    assert idle[..|idle|] == idle && idle[|idle| - 1] == c;
    assert c in idle;
    ReusesConcat(s.inner.idle, [c]);
    assert Reuses([c]) == [Reused(c)];
    AnswersRegroup(s.answers, Reuses(s.inner.idle), [Reused(c)]);
  }

  /** A closed client, or any client of a closed pool, is gone when it is dropped; its slot is free again. */
  lemma DroppedForGood(config: PoolConfig, actions: seq<Action>, c: ClientId)
    requires config.Valid()
    requires var s := Run(Start(config), actions); c in s.held && (c in s.shut || ClosePool in actions)
    ensures var s := Run(Start(config), actions);
            var s' := Step(s, Drop(c));
            && c in s'.gone && c !in s'.held && s'.inner.idle == s.inner.idle
            && s'.inner.active + 1 == s.inner.active
            && (ClosePool !in actions && s.inner.idle == [] ==> Reserve(s'.inner).0 == Reserved)
  {
    hide Run;
    StartHolds(config);
    RunKeeps(Start(config), 0, actions);
    MaxSizeStays(Start(config), actions);
    ClosedByClosing(Start(config), actions);
  }

  /** Every client ever connected is in exactly one place, and idle ones are open. */
  lemma Ownership(config: PoolConfig, actions: seq<Action>, c: ClientId)
    requires config.Valid() && c < Run(Start(config), actions).next
    ensures var s := Run(Start(config), actions);
            && multiset(s.inner.idle)[c] + (if c in s.held then 1 else 0) + (if c in s.gone then 1 else 0) == 1
            && (c in s.inner.idle ==> c !in s.shut)
  {
    hide Run;
    StartHolds(config);
    RunKeeps(Start(config), 0, actions);
    DistinctOnce(Run(Start(config), actions).inner.idle, c);
  }

  lemma {:induction false} DistinctOnce(s: seq<ClientId>, c: ClientId)
    requires Distinct(s)
    ensures multiset(s)[c] == if c in s then 1 else 0
  {
    if s != [] {
      DistinctOnce(s[1..], c);
      assert s == [s[0]] + s[1..];
    }
  }

  /** Clients are handed out in the order in which they came into the queue. */
  lemma FirstInFirstOut(config: PoolConfig, actions: seq<Action>)
    requires config.Valid()
    ensures var s := Run(Start(config), actions);
            s.issued <= s.queued && (!s.inner.closed ==> s.queued == s.issued + s.inner.idle)
  {
    hide Run;
    StartHolds(config);
    RunKeeps(Start(config), 0, actions);
    var s := Run(Start(config), actions);
    assert s.queued == s.issued + (s.drained + s.inner.idle);
  }

  /** Once closed, a pool stays closed and empty, hands out nothing and reserves nothing. */
  lemma {:induction false} ClosedForGood(s: System, leaked: nat, actions: seq<Action>)
    requires Inv(s, leaked) && s.inner.closed
    ensures var s' := Run(s, actions);
            && s'.inner.closed && s'.inner.idle == [] && s'.issued == s.issued && s'.connecting <= s.connecting
            && s.answers <= s'.answers
            && forall i :: |s.answers| <= i < |s'.answers| ==> s'.answers[i] == Refused(PoolClosed)
    decreases |actions|
  {
    if actions != [] {
      var a := actions[0];
      StepKeeps(s, leaked, a);
      ClosedStep(s, leaked, a);
      ClosedForGood(Step(s, a), leaked, actions[1..]);
    }
  }

  lemma ClosedStep(s: System, leaked: nat, a: Action)
    requires Inv(s, leaked) && s.inner.closed
    ensures var s' := Step(s, a);
            && s'.inner.closed && s'.issued == s.issued && s'.connecting <= s.connecting
            && (s'.answers == s.answers || s'.answers == s.answers + [Refused(PoolClosed)])
  {
  }
}
