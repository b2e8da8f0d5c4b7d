/** Any sequence of calls on one client and its prepared statements, over any server and any faults. */
module Runs {
  import opened Bytes
  import opened Wrappers
  import opened Types
  import opened Response
  import opened Link
  import opened Session
  import opened Cursor
  import Interpolation

  datatype Op =
    | DoExecute(sql: string, params: seq<Value>)
    | DoQuery(sql: string, params: seq<Value>)
    | DoPrepare(sql: string)
    | DoCommit
    | DoRollback
    | DoPing
    | DoSetAutoCommit(autoCommit: bool)
    | DoClose
    | StatementDo(index: nat, params: seq<Value>)
    | StatementAsk(index: nat, params: seq<Value>)
    | StatementEnd(index: nat)

  /** The client, the statements ever prepared, and the handles nobody can close any more. */
  datatype World = World(client: ClientState, statements: seq<StatementState>, lost: multiset<i32>)

  function Positive(handle: i32): multiset<i32> {
    if handle > 0 then multiset{handle} else multiset{}
  }

  /** The handle that the header of a reply names, whatever becomes of the rest of the reply. */
  function NamedBy(a: Ask, d: seq<byte>): multiset<i32> {
    if (a.AskRun? || a.AskPrepare?) && ReadHeader(d).Done? then Positive(ReadHeader(d).value.1) else multiset{}
  }

  /** The handle that the first reply among the events names. */
  function Named(events: seq<Event>): multiset<i32> {
    if |events| >= 2 && events[1].Got? then NamedBy(events[1].ask, events[1].data) else multiset{}
  }

  /** The first reply is accepted by its parser. */
  predicate Accepted(events: seq<Event>) {
    |events| >= 2 && events[1].Got? && Understand(events[1].ask, events[1].data).Ok?
  }

  /** The first reply starts a query, and every fetch that is needed is answered. */
  predicate Gathered(events: seq<Event>) {
    Started(events).Some?
    && (Missing(Started(events).value) ==> Answered(events[2..], AsI32(|Started(events).value.rows|)))
  }

  // The handles that nobody closes: those of refused replies, and those of queries that do not gather their rows.

  function ExecuteLoses(c: ClientState, sql: string): multiset<i32> {
    var events := Since(c.wire, Execute(c, sql).1.wire);
    if Accepted(events) then multiset{} else Named(events)
  }

  function QueryLoses(c: ClientState, sql: string): multiset<i32> {
    var events := Since(c.wire, Query(c, sql).1.wire);
    if Gathered(events) then multiset{} else Named(events)
  }

  function PrepareLoses(c: ClientState, sql: string): multiset<i32> {
    var events := Since(c.wire, Prepare(c, sql).1.wire);
    if Accepted(events) then multiset{} else Named(events)
  }

  function Step(w: World, op: Op, floats: Interpolation.FloatText): World {
    match op
    case DoExecute(sql, params) =>
      var text := Interpolated(sql, params, floats);
      w.(client := Execute(w.client, text).1, lost := w.lost + ExecuteLoses(w.client, text))
    case DoQuery(sql, params) =>
      var text := Interpolated(sql, params, floats);
      w.(client := Query(w.client, text).1, lost := w.lost + QueryLoses(w.client, text))
    case DoPrepare(sql) =>
      var (r, c) := Prepare(w.client, sql);
      w.(client := c, statements := if r.Ok? then w.statements + [r.value] else w.statements,
         lost := w.lost + PrepareLoses(w.client, sql))
    case DoCommit => w.(client := Commit(w.client).1)
    case DoRollback => w.(client := Rollback(w.client).1)
    case DoPing => w.(client := Ping(w.client).1)
    case DoSetAutoCommit(ac) => w.(client := w.client.(autoCommit := ac))
    case DoClose => w.(client := Close(w.client))
    case StatementDo(i, params) =>
      if i >= |w.statements| then w
      else
        var s := w.statements[i];
        var text := Interpolated(s.sql, params, floats);
        w.(client := StatementExecute(s, w.client, params, floats).1,
           lost := if s.closed || params == [] then w.lost else w.lost + ExecuteLoses(w.client, text))
    case StatementAsk(i, params) =>
      if i >= |w.statements| then w
      else
        var s := w.statements[i];
        var text := Interpolated(s.sql, params, floats);
        w.(client := StatementQuery(s, w.client, params, floats).1,
           lost := if s.closed || params == [] then w.lost else w.lost + QueryLoses(w.client, text))
    case StatementEnd(i) =>
      if i >= |w.statements| then w
      else
        var s := w.statements[i];
        var (s', c) := StatementClose(s, w.client);
        World(c, w.statements[i := s'],
              if s.closed || w.client.open then w.lost else w.lost + Positive(s.handle))
  }

  function Run(w: World, ops: seq<Op>, floats: Interpolation.FloatText): World
    decreases |ops|
  {
    if ops == [] then w else Run(Step(w, ops[0], floats), ops[1..], floats)
  }

  /** A client that has just been handed its token. */
  function Fresh(input: seq<byte>, faults: seq<Option<nat>>, cas: CasInfo, autoCommit: bool, proto: int): World {
    World(ClientState(true, Wire(input, faults, cas, []), autoCommit, proto), [], multiset{})
  }
}
