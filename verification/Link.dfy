/** One connection: framed requests and replies over a byte stream that may fail at any step. */
module Link {
  import opened Bytes
  import opened Wrappers
  import opened Types
  import opened Response
  import opened Writer
  import opened Request
  import Utf8

  datatype ClientError = Protocol(error: ProtocolError) | Io | ConnectionClosed

  /** A position that can still be made 1-based. */
  type Position = x: i32 | x < I32_MAX

  /** What the client asks the server. */
  datatype Ask =
    | AskRun(sql: string, autoCommit: bool, proto: int)
    | AskPrepare(sql: string, autoCommit: bool)
    | AskExecute(handle: i32, stmt: StatementType, columns: seq<ColumnMetaData>, autoCommit: bool, proto: int)
    | AskFetch(handle: i32, current: Position, columns: seq<ColumnMetaData>, stmt: StatementType)
    | AskClose(handle: i32)
    | AskEnd(action: byte)
    | AskVersion(autoCommit: bool)
    | AskLeave

  const DEFAULT_FETCH_SIZE: i32 := 100

  /** The function code of a request. */
  function Code(a: Ask): byte {
    match a
    case AskRun(_, _, _) => PREPARE_AND_EXECUTE
    case AskPrepare(_, _) => PREPARE
    case AskExecute(_, _, _, _, _) => EXECUTE
    case AskFetch(_, _, _, _) => FETCH
    case AskClose(_) => CLOSE_REQ_HANDLE
    case AskEnd(_) => END_TRAN
    case AskVersion(_) => GET_DB_VERSION
    case AskLeave => CON_CLOSE
  }

  /** Its arguments. */
  function ArgsOf(a: Ask): seq<seq<byte>> {
    match a
    case AskRun(sql, ac, _) => PrepareAndExecuteArgs(sql, ac)
    case AskPrepare(sql, ac) => PrepareArgs(sql, ac)
    case AskExecute(h, stmt, _, ac, _) => ExecuteArgs(h, stmt.IsSelect(), [], ac)
    case AskFetch(h, current, _, _) => FetchArgs(h, current, DEFAULT_FETCH_SIZE)
    case AskClose(h) => [Be32(h)]
    case AskEnd(action) => [[action]]
    case AskVersion(ac) => [[AsByte(ac)]]
    case AskLeave => []
  }

  function Body(a: Ask): seq<byte> { Payloads(Code(a), ArgsOf(a)) }

  /** The text a request carries. */
  function SqlOf(a: Ask): string {
    match a
    case AskRun(sql, _, _) => sql
    case AskPrepare(sql, _) => sql
    case _ => ""
  }

  /** The arguments of a framed request, read from its bytes. */
  function Arguments(frame: seq<byte>): Option<seq<seq<byte>>> {
    if |frame| < 9 then None else Split(frame[9..])
  }

  lemma ArgsFit(a: Ask)
    requires |Utf8.Encode(SqlOf(a))| < I32_MAX
    ensures Sendable(ArgsOf(a))
  {
    hide Utf8.Encode, Be32;
  }

  /** Every request the client can send is one function code and a list of arguments that reads back, from the
      framed bytes, as exactly what was meant. */
  lemma EveryRequestSplits(a: Ask, cas: CasInfo)
    requires |Utf8.Encode(SqlOf(a))| < I32_MAX
    ensures var frame := Frame(Body(a), cas);
            |frame| >= 9 && frame[4..8] == cas && frame[8] == Code(a) && Arguments(frame) == Some(ArgsOf(a))
  {
    ArgsFit(a);
    hide Utf8.Encode, Split, Join, ArgsOf, Code, Frame, SqlOf, Sendable;
    SplitInverts(ArgsOf(a));
    FrameParts(Code(a), Join(ArgsOf(a)), cas);
  }

  lemma FrameParts(fc: byte, args: seq<byte>, cas: CasInfo)
    ensures var frame := Frame([fc] + args, cas);
            |frame| >= 9 && frame[4..8] == cas && frame[8] == fc && frame[9..] == args
  {
    hide BeU32;
    var frame := Frame([fc] + args, cas);
    assert frame[9..] == args;
    assert frame[4..8] == cas;
  }

  datatype Answer =
    | Ran(run: PrepareAndExecuteResult)
    | Prepared(prepared: PrepareResult)
    | Executed(executed: ExecuteResult)
    | Fetched(batch: FetchResult)
    | Version(version: string)
    | Done

  predicate Answers(a: Ask, r: Answer) {
    match a
    case AskRun(_, _, _) => r.Ran?
    case AskPrepare(_, _) => r.Prepared?
    case AskExecute(_, _, _, _, _) => r.Executed?
    case AskFetch(_, _, _, _) => r.Fetched?
    case AskVersion(_) => r.Version?
    case _ => r.Done?
  }

  /** The parser applied to the reply, and the token the reply hands over. */
  function Understand(a: Ask, data: seq<byte>): (r: Outcome<(Answer, CasInfo), ProtocolError>)
    ensures r.Ok? ==> Answers(a, r.value.0)
  {
    match a
    case AskRun(_, _, proto) =>
      var (v, cas) :- ReadPrepareAndExecute(data, proto).Result();
      Ok((Ran(v), cas))
    case AskPrepare(_, _) =>
      var (v, cas) :- ReadPrepare(data).Result();
      Ok((Prepared(v), cas))
    case AskExecute(_, stmt, columns, _, proto) =>
      var (v, cas) :- ReadExecute(data, columns, stmt, proto).Result();
      Ok((Executed(v), cas))
    case AskFetch(_, _, columns, stmt) =>
      var (v, cas) :- ReadFetch(data, columns, stmt).Result();
      Ok((Fetched(v), cas))
    case AskVersion(_) =>
      var (v, cas) :- ReadDbVersion(data).Result();
      Ok((Version(v), cas))
    case _ =>
      var cas :- ReadSimple(data).Result();
      Ok((Done, cas))
  }

  /** What has gone over the wire. */
  datatype Event = Sent(ask: Ask, frame: seq<byte>) | Got(ask: Ask, data: seq<byte>)

  /** A connection: the bytes the server will have sent, which stream operations fail (and how many bytes are
      lost then), the current token, and the history. */
  datatype Wire = Wire(input: seq<byte>, faults: seq<Option<nat>>, cas: CasInfo, log: seq<Event>) {
    function Fault(): Option<nat> { if faults == [] then None else faults[0] }

    /** The wire after a stream operation. */
    function Used(): Wire { if faults == [] then this else this.(faults := faults[1..]) }

    function Lose(n: nat): Wire { this.(input := if n <= |input| then input[n..] else []) }
  }

  function Send(w: Wire, a: Ask, frame: seq<byte>): (bool, Wire) {
    (w.Fault().None?, w.Used().(log := w.log + [Sent(a, frame)]))
  }

  /** `read_exact`: all the bytes or an error, with any number of them lost. */
  function ReadExact(w: Wire, n: nat): (r: (Option<seq<byte>>, Wire))
    ensures r.1.log == w.log && r.1.cas == w.cas && |r.1.input| <= |w.input|
    ensures r.0.Some? ==> |r.0.value| == n && |r.1.input| == |w.input| - n
  {
    match w.Fault()
    case Some(lost) => (None, w.Used().Lose(lost))
    case None =>
      if |w.input| < n then (None, w.Used().Lose(n)) else (Some(w.input[..n]), w.Used().Lose(n))
  }

  /** `recv_framed` */
  function Recv(w: Wire, a: Ask): (r: (Option<seq<byte>>, Wire))
    ensures r.0.Some? ==> |r.1.input| < |w.input|
  {
    var (head, w) := ReadExact(w, 4);
    match head
    case None => (None, w)
    case Some(len) =>
      var (data, w) := ReadExact(w, Unsigned(len) + 4);
      match data
      case None => (None, w)
      case Some(d) => (Some(d), w.(log := w.log + [Got(a, d)]))
  }

  /** `send_framed`, then `recv_framed`. */
  function Exchange(w: Wire, a: Ask): (r: (Option<seq<byte>>, Wire))
    ensures r.0.Some? ==> |r.1.input| < |w.input|
  {
    var (sent, w) := Send(w, a, Frame(Body(a), w.cas));
    if !sent then (None, w) else Recv(w, a)
  }

  /** One request and its reply. The token of a close-handle reply is not kept. */
  function Call(w: Wire, a: Ask): (r: (Outcome<Answer, ClientError>, Wire))
    ensures r.0.Ok? ==> Answers(a, r.0.value) && |r.1.input| < |w.input|
  {
    var (data, w) := Exchange(w, a);
    match data
    case None => (Err(Io), w)
    case Some(d) =>
      match Understand(a, d)
      case Err(e) => (Err(Protocol(e)), w)
      case Crash => (Crash, w)
      case Ok((answer, cas)) => (Ok(answer), if a.AskClose? then w else w.(cas := cas))
  }

  /** The contract of Call, for proofs that hide its body. */
  lemma CallAnswers(w: Wire, a: Ask)
    ensures Call(w, a).0.Ok? ==> Answers(a, Call(w, a).0.value) && |Call(w, a).1.input| < |w.input|
  {
  }

  /** On a stream without faults, receiving is taking one frame off the input. */
  lemma RecvReceives(w: Wire, a: Ask)
    requires w.faults == []
    ensures Recv(w, a).0 == (match Receive(w.input) case None => None case Some((d, _)) => Some(d))
    ensures Receive(w.input).Some? ==>
              Recv(w, a).1 == w.(input := Receive(w.input).value.1, log := w.log + [Got(a, Receive(w.input).value.0)])
  {
    hide Unsigned;
    if |w.input| >= 4 {
      var n := Unsigned(w.input[..4]) + 4;
      if |w.input| - 4 >= n {
        assert w.input[4..][..n] == w.input[4..4 + n];
        assert w.input[4..][n..] == w.input[4 + n..];
      }
    }
  }

  // ---------------------------------------------------------------------------
  // The connection object
  // ---------------------------------------------------------------------------

  class Connection {
    var input: seq<byte>
    var faults: seq<Option<nat>>
    var casInfo: CasInfo
    ghost var log: seq<Event>

    constructor (input: seq<byte>, faults: seq<Option<nat>>, casInfo: CasInfo)
      ensures Link() == Wire(input, faults, casInfo, [])
    {
      this.input, this.faults, this.casInfo, this.log := input, faults, casInfo, [];
    }

    ghost function Link(): Wire
      reads this
    {
      Wire(input, faults, casInfo, log)
    }

    method NextFault() returns (fault: Option<nat>)
      modifies `faults
      ensures fault == old(Link().Fault())
      ensures Link() == old(Link().Used())
    {
      if faults == [] {
        return None;
      }
      fault := faults[0];
      faults := faults[1..];
    }

    method SendFramed(frame: seq<byte>, ghost a: Ask) returns (ok: bool)
      modifies this
      ensures (ok, Link()) == Send(old(Link()), a, frame)
    {
      var fault := NextFault();
      log := log + [Sent(a, frame)];
      ok := fault.None?;
    }

    method ReadExactBytes(n: nat) returns (r: Option<seq<byte>>)
      modifies this
      ensures (r, Link()) == ReadExact(old(Link()), n)
    {
      var fault := NextFault();
      match fault
      case Some(lost) =>
        input := if lost <= |input| then input[lost..] else [];
        return None;
      case None =>
        if |input| < n {
          input := [];
          return None;
        }
        r := Some(input[..n]);
        input := input[n..];
    }

    method RecvFramed(ghost a: Ask) returns (r: Option<seq<byte>>)
      modifies this
      ensures (r, Link()) == Recv(old(Link()), a)
    {
      hide ReadExact, Unsigned;
      var head := ReadExactBytes(4);
      if head.None? {
        return None;
      }
      r := ReadExactBytes(Unsigned(head.value) + 4);
      if r.Some? {
        log := log + [Got(a, r.value)];
      }
    }

    method RoundTrip(request: seq<byte>, ghost a: Ask) returns (r: Option<seq<byte>>)
      requires request == Frame(Body(a), casInfo)
      modifies this
      ensures (r, Link()) == Exchange(old(Link()), a)
    {
      hide Recv, Frame, Body;
      var ok := SendFramed(request, a);
      if !ok {
        return None;
      }
      r := RecvFramed(a);
    }

    method SetCasInfo(cas: CasInfo)
      modifies `casInfo
      ensures Link() == old(Link()).(cas := cas)
    {
      casInfo := cas;
    }
  }
}
