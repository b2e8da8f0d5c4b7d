/** Request builders and bind-parameter encoding. */
module Request {
  import opened Bytes
  import opened Wrappers
  import opened Types
  import opened Codec
  import opened Rows
  import opened Writer
  import Utf8

  const END_TRAN: byte := 1
  const PREPARE: byte := 2
  const EXECUTE: byte := 3
  const CLOSE_REQ_HANDLE: byte := 6
  const FETCH: byte := 8
  const GET_DB_VERSION: byte := 15
  const CON_CLOSE: byte := 31
  const PREPARE_AND_EXECUTE: byte := 41

  const PREPARE_NORMAL: byte := 0
  const EXECUTE_NORMAL: byte := 0
  const EXECUTE_QUERY_ALL: byte := 2

  function AsByte(b: bool): byte { if b then 1 else 0 }

  /** The payload of a request. */
  function Payloads(fc: byte, args: seq<seq<byte>>): seq<byte> { [fc] + Join(args) }

  // ---------------------------------------------------------------------------
  // What each request says: its arguments, in order
  // ---------------------------------------------------------------------------

  function PrepareAndExecuteArgs(sql: string, autoCommit: bool): seq<seq<byte>> {
    [Be32(3), Utf8.Encode(sql) + [0], [PREPARE_NORMAL], [AsByte(autoCommit)], [EXECUTE_QUERY_ALL],
     Be32(0), Be32(0), [], Be32(0) + Be32(0), Be32(0)]
  }

  function PrepareArgs(sql: string, autoCommit: bool): seq<seq<byte>> {
    [Utf8.Encode(sql) + [0], [PREPARE_NORMAL], [AsByte(autoCommit)]]
  }

  function ExecuteArgs(handle: i32, fetch: bool, params: seq<Value>, autoCommit: bool): seq<seq<byte>> {
    [Be32(handle), [EXECUTE_NORMAL], Be32(0), Be32(0), BindCells(params), [AsByte(fetch)],
     [AsByte(autoCommit)], [1], Be32(0) + Be32(0), Be32(0)]
  }

  /** `current` rows are already here; the position asked for is 1-based. */
  function FetchArgs(handle: i32, current: i32, size: i32): seq<seq<byte>>
    requires current < I32_MAX
  {
    [Be32(handle), Be32(current + 1), Be32(size), [0], Be32(0)]
  }

  // ---------------------------------------------------------------------------
  // The builders
  // ---------------------------------------------------------------------------

  method WritePrepareAndExecute(sql: string, autoCommit: bool, cas: CasInfo) returns (request: seq<byte>)
    ensures request == Frame(Payloads(PREPARE_AND_EXECUTE, PrepareAndExecuteArgs(sql, autoCommit)), cas)
  {
    hide Join, Be32, Arg, Holds, AsByte, Utf8.Encode, AsI32;
    var w := new PacketWriter();
    PrepareAndExecuteHead(w, sql, autoCommit);
    PrepareAndExecuteTail(w);
    TenArguments(Be32(3), Utf8.Encode(sql) + [0], [PREPARE_NORMAL], [AsByte(autoCommit)], [EXECUTE_QUERY_ALL],
                 Be32(0), Be32(0), [], Be32(0) + Be32(0), Be32(0));
    Finished(w.buf, PREPARE_AND_EXECUTE, PrepareAndExecuteArgs(sql, autoCommit));
    request := PacketWriter.BuildRequest(w.buf, cas);
  }

  method PrepareAndExecuteHead(w: PacketWriter, sql: string, autoCommit: bool)
    requires w.buf == []
    modifies w
    ensures Holds(w.buf, PREPARE_AND_EXECUTE,
                  [] + [Be32(3)] + [Utf8.Encode(sql) + [0]] + [[PREPARE_NORMAL]] + [[AsByte(autoCommit)]]
                  + [[EXECUTE_QUERY_ALL]])
  {
    hide Join, Be32, Arg, Holds, AsByte, Utf8.Encode;
    w.WriteByte(PREPARE_AND_EXECUTE);
    Begun(PREPARE_AND_EXECUTE);
    w.AddInt(3);
    w.WriteNullTermString(sql);
    w.AddByte(PREPARE_NORMAL);
    w.AddByte(AsByte(autoCommit));
    w.AddByte(EXECUTE_QUERY_ALL);
  }

  /** The sizes, the bare zero of the absent parameters, the cache time and the timeout. */
  method PrepareAndExecuteTail(w: PacketWriter)
    modifies w
    ensures forall fc, args :: Holds(old(w.buf), fc, args) ==>
              Holds(w.buf, fc, args + [Be32(0)] + [Be32(0)] + [[]] + [Be32(0) + Be32(0)] + [Be32(0)])
  {
    hide Join, Be32, Arg, Holds;
    w.AddInt(0);
    w.AddInt(0);
    ghost var before := w.buf;
    w.WriteInt(0);
    NullArgument(before, w.buf);
    before := w.buf;
    w.WriteInt(8);
    w.WriteInt(0);
    w.WriteInt(0);
    CacheArgument(before, w.buf);
    w.AddInt(0);
  }

  method WritePrepare(sql: string, autoCommit: bool, cas: CasInfo) returns (request: seq<byte>)
    ensures request == Frame(Payloads(PREPARE, PrepareArgs(sql, autoCommit)), cas)
  {
    hide Join, Be32, Arg, Holds, AsByte, Utf8.Encode;
    var w := new PacketWriter();
    w.WriteByte(PREPARE);
    Begun(PREPARE);
    w.WriteNullTermString(sql);
    w.AddByte(PREPARE_NORMAL);
    w.AddByte(AsByte(autoCommit));
    ghost var args := PrepareArgs(sql, autoCommit);
    assert [] + [args[0]] + [args[1]] + [args[2]] == args;
    Finished(w.buf, PREPARE, args);
    request := PacketWriter.BuildRequest(w.buf, cas);
  }

  method WriteExecute(handle: i32, stmt: StatementType, params: seq<Value>, autoCommit: bool, cas: CasInfo)
    returns (request: seq<byte>)
    ensures request == Frame(Payloads(EXECUTE, ExecuteArgs(handle, stmt.IsSelect(), params, autoCommit)), cas)
  {
    var payload := ExecutePayload(handle, stmt.IsSelect(), params, autoCommit);
    request := PacketWriter.BuildRequest(payload, cas);
  }

  method ExecutePayload(handle: i32, fetch: bool, params: seq<Value>, autoCommit: bool) returns (payload: seq<byte>)
    ensures payload == Payloads(EXECUTE, ExecuteArgs(handle, fetch, params, autoCommit))
  {
    hide Join, Be32, Arg, Holds, BindCells, AsByte, Utf8.Encode, AsI32;
    var w := new PacketWriter();
    ExecuteHead(w, handle);
    var bindData := EncodeBindParams(params);
    WriteBindData(w, bindData);
    ExecuteTail(w, fetch, autoCommit);
    TenArguments(Be32(handle), [EXECUTE_NORMAL], Be32(0), Be32(0), BindCells(params), [AsByte(fetch)],
                 [AsByte(autoCommit)], [1], Be32(0) + Be32(0), Be32(0));
    Finished(w.buf, EXECUTE, ExecuteArgs(handle, fetch, params, autoCommit));
    payload := w.buf;
  }

  method ExecuteHead(w: PacketWriter, handle: i32)
    requires w.buf == []
    modifies w
    ensures Holds(w.buf, EXECUTE, [] + [Be32(handle)] + [[EXECUTE_NORMAL]] + [Be32(0)] + [Be32(0)])
  {
    hide Join, Be32, Arg, Holds;
    w.WriteByte(EXECUTE);
    Begun(EXECUTE);
    w.AddInt(handle);
    w.AddByte(EXECUTE_NORMAL);
    w.AddInt(0);
    w.AddInt(0);
  }

  method ExecuteTail(w: PacketWriter, fetch: bool, autoCommit: bool)
    modifies w
    ensures forall fc, args :: Holds(old(w.buf), fc, args) ==>
              Holds(w.buf, fc, args + [[AsByte(fetch)]] + [[AsByte(autoCommit)]] + [[1]] + [Be32(0) + Be32(0)]
                               + [Be32(0)])
  {
    hide Join, Be32, Arg, Holds, AsByte;
    w.WriteInt(1);
    w.WriteByte(AsByte(fetch));
    ByteArgument(old(w.buf), AsByte(fetch), w.buf);
    w.AddByte(AsByte(autoCommit));
    w.AddByte(1);
    w.AddCacheTime();
    w.AddInt(0);
  }

  /** No parameters are a bare zero length; that is the empty argument. */
  method WriteBindData(w: PacketWriter, bindData: seq<byte>)
    modifies w
    ensures forall fc, args :: Holds(old(w.buf), fc, args) ==> Holds(w.buf, fc, args + [bindData])
  {
    if bindData == [] {
      w.WriteInt(0);
      NullArgument(old(w.buf), w.buf);
    } else {
      w.AddBytes(bindData);
    }
  }

  method WriteFetch(handle: i32, current: i32, size: i32, cas: CasInfo) returns (request: seq<byte>)
    requires current < I32_MAX
    ensures request == Frame(Payloads(FETCH, FetchArgs(handle, current, size)), cas)
  {
    hide Join, Be32, Arg, Holds, AsByte, Utf8.Encode;
    var w := new PacketWriter();
    w.WriteByte(FETCH);
    Begun(FETCH);
    w.AddInt(handle);
    w.AddInt(current + 1);
    w.AddInt(size);
    w.AddByte(0);
    w.AddInt(0);
    ghost var args := FetchArgs(handle, current, size);
    assert [] + [args[0]] + [args[1]] + [args[2]] + [args[3]] + [args[4]] == args;
    Finished(w.buf, FETCH, args);
    request := PacketWriter.BuildRequest(w.buf, cas);
  }

  method WriteCloseReqHandle(handle: i32, cas: CasInfo) returns (request: seq<byte>)
    ensures request == Frame(Payloads(CLOSE_REQ_HANDLE, [Be32(handle)]), cas)
  {
    var w := new PacketWriter();
    w.WriteByte(CLOSE_REQ_HANDLE);
    Begun(CLOSE_REQ_HANDLE);
    w.AddInt(handle);
    assert [] + [Be32(handle)] == [Be32(handle)];
    Finished(w.buf, CLOSE_REQ_HANDLE, [Be32(handle)]);
    request := PacketWriter.BuildRequest(w.buf, cas);
  }

  /** `write_end_tran` (1 commits, 2 rolls back) and `write_get_db_version` (the auto-commit flag). */
  method WriteByteRequest(fc: byte, v: byte, cas: CasInfo) returns (request: seq<byte>)
    ensures request == Frame(Payloads(fc, [[v]]), cas)
  {
    var w := new PacketWriter();
    w.WriteByte(fc);
    Begun(fc);
    w.AddByte(v);
    assert [] + [[v]] == [[v]];
    Finished(w.buf, fc, [[v]]);
    request := PacketWriter.BuildRequest(w.buf, cas);
  }

  method WriteConClose(cas: CasInfo) returns (request: seq<byte>)
    ensures request == Frame(Payloads(CON_CLOSE, []), cas)
  {
    var w := new PacketWriter();
    w.WriteByte(CON_CLOSE);
    Begun(CON_CLOSE);
    Finished(w.buf, CON_CLOSE, []);
    request := PacketWriter.BuildRequest(w.buf, cas);
  }

  lemma TenArguments<T>(a: T, b: T, c: T, d: T, e: T, f: T, g: T, h: T, i: T, j: T)
    ensures [] + [a] + [b] + [c] + [d] + [e] + [f] + [g] + [h] + [i] + [j] == [a, b, c, d, e, f, g, h, i, j]
  {
  }

  lemma Begun(fc: byte)
    ensures Holds([] + [fc], fc, [])
  {
    assert [] + [fc] == [fc] + Join([]);
  }

  lemma Finished(buf: seq<byte>, fc: byte, args: seq<seq<byte>>)
    requires Holds(buf, fc, args)
    ensures buf == Payloads(fc, args)
  {
  }

  // The raw writes that stand for an argument.

  lemma NullArgument(before: seq<byte>, after: seq<byte>)
    requires after == before + Be32(0)
    ensures forall fc, args :: Holds(before, fc, args) ==> Holds(after, fc, args + [[]])
  {
    assert Arg([]) == Be32(0);
    Appended(before, [], after);
  }

  lemma CacheArgument(before: seq<byte>, after: seq<byte>)
    requires after == before + Be32(8) + Be32(0) + Be32(0)
    ensures forall fc, args :: Holds(before, fc, args) ==> Holds(after, fc, args + [Be32(0) + Be32(0)])
  {
    assert after == before + Arg(Be32(0) + Be32(0));
    Appended(before, Be32(0) + Be32(0), after);
  }

  lemma ByteArgument(before: seq<byte>, b: byte, after: seq<byte>)
    requires after == before + Be32(1) + [b]
    ensures forall fc, args :: Holds(before, fc, args) ==> Holds(after, fc, args + [[b]])
  {
    assert after == before + Arg([b]);
    Appended(before, [b], after);
  }

  /** Every request payload is one function code and a list of arguments that reads back uniquely. */
  lemma RequestsSplit(sql: string, autoCommit: bool, handle: i32, current: i32, size: i32, fetch: bool,
                      params: seq<Value>)
    requires |Utf8.Encode(sql)| < I32_MAX && current < I32_MAX && |BindCells(params)| <= I32_MAX
    ensures Split(Payloads(PREPARE_AND_EXECUTE, PrepareAndExecuteArgs(sql, autoCommit))[1..])
            == Some(PrepareAndExecuteArgs(sql, autoCommit))
    ensures Split(Payloads(PREPARE, PrepareArgs(sql, autoCommit))[1..]) == Some(PrepareArgs(sql, autoCommit))
    ensures Split(Payloads(EXECUTE, ExecuteArgs(handle, fetch, params, autoCommit))[1..])
            == Some(ExecuteArgs(handle, fetch, params, autoCommit))
    ensures Split(Payloads(FETCH, FetchArgs(handle, current, size))[1..]) == Some(FetchArgs(handle, current, size))
  {
    hide Split, Join, Utf8.Encode, BindCells, Be32;
    SplitInverts(PrepareAndExecuteArgs(sql, autoCommit));
    SplitInverts(PrepareArgs(sql, autoCommit));
    SplitInverts(ExecuteArgs(handle, fetch, params, autoCommit));
    SplitInverts(FetchArgs(handle, current, size));
  }

  // ---------------------------------------------------------------------------
  // Bind parameters
  // ---------------------------------------------------------------------------

  /** The type a bound value is announced as. */
  function BindType(v: Value): DataType {
    match v
    case Null => NullType
    case Bool(_) => ShortType
    case Short(_) => ShortType
    case Int(_) => IntType
    case Long(_) => BigintType
    case Float(_) => FloatType
    case Double(_) => DoubleType
    case Str(_) => StringType
    case Raw(_) => VarBitType
    case Date(_, _, _) => DatetimeType
    case Time(_, _, _) => TimeType
    case Timestamp(_, _, _, _, _, _) => TimestampType
    case Datetime(_, _, _, _, _, _, _) => DatetimeType
  }

  /** Its type byte. */
  function BindTag(v: Value): byte { BindType(v).Code() }

  /** The bytes after it. Dates and times always take the fourteen bytes of a datetime. */
  function BindPayload(v: Value): seq<byte> {
    match v
    case Bool(b) => Be16(AsByte(b))
    case Str(t) => Utf8.Encode(t) + [0]
    case Date(y, m, d) => Triple(y, m, d) + Triple(0, 0, 0) + Be16(0)
    case Time(h, m, s) => Triple(0, 0, 0) + Triple(h, m, s) + Be16(0)
    case Timestamp(y, m, d, h, n, s) => Triple(y, m, d) + Triple(h, n, s) + Be16(0)
    case _ => Payload(v, 0)
  }

  function BindCell(v: Value): seq<byte> {
    if v.Null? then Be32(0)
    else Be32(AsI32(1 + |BindPayload(v)|)) + ([BindTag(v)] + BindPayload(v))
  }

  function BindCells(ps: seq<Value>): seq<byte> {
    if ps == [] then [] else BindCell(ps[0]) + BindCells(ps[1..])
  }

  method EncodeOneParam(w: PacketWriter, v: Value)
    modifies w
    ensures w.buf == old(w.buf) + BindCell(v)
  {
    hide Be16, Be32, Be64, BeU32, BeU64, Utf8.Encode, AsI32, Triple, DataType.Code, BindCell;
    match v {
      case Null =>
        NullIsZero();
        w.WriteInt(0);
      case Bool(b) => EncodeShort(w, v, ShortType.Code(), if b then 1 else 0);
      case Short(n) => EncodeShort(w, v, ShortType.Code(), n);
      case Int(n) => EncodeInt(w, v, IntType.Code(), n);
      case Long(n) => EncodeLong(w, v, BigintType.Code(), n);
      case Float(n) => EncodeFloat(w, v, FloatType.Code(), n);
      case Double(n) => EncodeDouble(w, v, DoubleType.Code(), n);
      case Str(t) => EncodeText(w, t);
      case Raw(b) => EncodeRaw(w, b);
      case Date(y, m, d) => EncodeSeven(w, v, DatetimeType.Code(), y, m, d, 0, 0, 0, 0);
      case Datetime(y, m, d, h, n, s, ms) => EncodeSeven(w, v, DatetimeType.Code(), y, m, d, h, n, s, ms);
      case Time(h, m, s) => EncodeSeven(w, v, TimeType.Code(), 0, 0, 0, h, m, s, 0);
      case Timestamp(y, m, d, h, n, s) => EncodeSeven(w, v, TimestampType.Code(), y, m, d, h, n, s, 0);
    }
  }

  lemma NullIsZero()
    ensures BindCell(Null) == Be32(0)
  {
  }

  // The writes of the cases: size, type and value.

  ghost predicate BindsAs(v: Value, tag: byte, payload: seq<byte>) {
    !v.Null? && BindTag(v) == tag && BindPayload(v) == payload
  }

  method EncodeShort(w: PacketWriter, ghost v: Value, tag: byte, n: i16)
    requires BindsAs(v, tag, Be16(n))
    modifies w
    ensures w.buf == old(w.buf) + BindCell(v)
  {
    hide Be16, Be32, Be64, BeU32, BeU64, BindTag, BindPayload;
    w.WriteInt(3);
    w.WriteByte(tag);
    w.WriteShort(n);
    BindCellSplits(old(w.buf), v);
  }

  method EncodeInt(w: PacketWriter, ghost v: Value, tag: byte, n: i32)
    requires BindsAs(v, tag, Be32(n))
    modifies w
    ensures w.buf == old(w.buf) + BindCell(v)
  {
    hide Be16, Be32, Be64, BeU32, BeU64, BindTag, BindPayload;
    w.WriteInt(5);
    w.WriteByte(tag);
    w.WriteInt(n);
    BindCellSplits(old(w.buf), v);
  }

  method EncodeLong(w: PacketWriter, ghost v: Value, tag: byte, n: i64)
    requires BindsAs(v, tag, Be64(n))
    modifies w
    ensures w.buf == old(w.buf) + BindCell(v)
  {
    hide Be16, Be32, Be64, BeU32, BeU64, BindTag, BindPayload;
    w.WriteInt(9);
    w.WriteByte(tag);
    w.WriteLong(n);
    BindCellSplits(old(w.buf), v);
  }

  method EncodeFloat(w: PacketWriter, ghost v: Value, tag: byte, n: u32)
    requires BindsAs(v, tag, BeU32(n))
    modifies w
    ensures w.buf == old(w.buf) + BindCell(v)
  {
    hide Be16, Be32, Be64, BeU32, BeU64, BindTag, BindPayload;
    w.WriteInt(5);
    w.WriteByte(tag);
    w.WriteFloat(n);
    BindCellSplits(old(w.buf), v);
  }

  method EncodeDouble(w: PacketWriter, ghost v: Value, tag: byte, n: u64)
    requires BindsAs(v, tag, BeU64(n))
    modifies w
    ensures w.buf == old(w.buf) + BindCell(v)
  {
    hide Be16, Be32, Be64, BeU32, BeU64, BindTag, BindPayload;
    w.WriteInt(9);
    w.WriteByte(tag);
    w.WriteDouble(n);
    BindCellSplits(old(w.buf), v);
  }

  method EncodeText(w: PacketWriter, t: string)
    modifies w
    ensures w.buf == old(w.buf) + BindCell(Str(t))
  {
    var bytes := Utf8.Encode(t);
    assert BindsAs(Str(t), StringType.Code(), bytes + [0]);
    hide Be32, Utf8.Encode, AsI32, BindTag, BindPayload;
    w.WriteInt(AsI32(1 + |bytes| + 1));
    w.WriteByte(StringType.Code());
    w.WriteRawBytes(bytes);
    w.WriteByte(0);
    BindCellSplits(old(w.buf), Str(t));
  }

  method EncodeRaw(w: PacketWriter, b: seq<byte>)
    modifies w
    ensures w.buf == old(w.buf) + BindCell(Raw(b))
  {
    assert BindsAs(Raw(b), VarBitType.Code(), b);
    hide Be32, AsI32, BindTag, BindPayload;
    w.WriteInt(AsI32(1 + |b|));
    w.WriteByte(VarBitType.Code());
    w.WriteRawBytes(b);
    BindCellSplits(old(w.buf), Raw(b));
  }

  /** Every date and time case: size, type and seven shorts. */
  method EncodeSeven(w: PacketWriter, ghost v: Value, tag: byte, y: i16, m: i16, d: i16, h: i16, n: i16, s: i16,
                     ms: i16)
    requires BindsAs(v, tag, Triple(y, m, d) + Triple(h, n, s) + Be16(ms))
    modifies w
    ensures w.buf == old(w.buf) + BindCell(v)
  {
    hide Be16, Be32, BindTag, BindPayload;
    WriteSeven(w, tag, y, m, d, h, n, s, ms);
    BindCellSplits(old(w.buf), v);
  }

  method WriteSeven(w: PacketWriter, tag: byte, y: i16, m: i16, d: i16, h: i16, n: i16, s: i16, ms: i16)
    modifies w
    ensures w.buf == old(w.buf) + Be32(15) + [tag] + (Triple(y, m, d) + Triple(h, n, s) + Be16(ms))
  {
    hide Be16, Be32;
    w.WriteInt(15);
    w.WriteByte(tag);
    w.WriteShort(y);
    w.WriteShort(m);
    w.WriteShort(d);
    w.WriteShort(h);
    w.WriteShort(n);
    w.WriteShort(s);
    w.WriteShort(ms);
  }

  lemma BindCellSplits(before: seq<byte>, v: Value)
    requires !v.Null?
    ensures before + BindCell(v) == before + Be32(AsI32(1 + |BindPayload(v)|)) + [BindTag(v)] + BindPayload(v)
  {
    hide Be32, BindTag, BindPayload;
  }

  method EncodeBindParams(params: seq<Value>) returns (r: seq<byte>)
    ensures r == BindCells(params)
  {
    hide BindCell;
    if params == [] {
      return [];
    }
    var w := new PacketWriter();
    var i := 0;
    assert [] + BindCells(params) == BindCells(params);
    while i < |params|
      invariant 0 <= i <= |params|
      invariant w.buf + BindCells(params[i..]) == BindCells(params)
    {
      ghost var before := w.buf;
      EncodeOneParam(w, params[i]);
      assert params[i..][1..] == params[i + 1..];
      assert w.buf + BindCells(params[i + 1..]) == before + (BindCell(params[i]) + BindCells(params[i + 1..]));
      i := i + 1;
    }
    assert w.buf + [] == w.buf;
    return w.buf;
  }

  /** What a bound value is read back as. */
  function Canonical(v: Value): Value {
    match v
    case Bool(b) => Short(AsByte(b))
    case Date(y, m, d) => Datetime(y, m, d, 0, 0, 0, 0)
    case Raw(b) => if b == [] then Null else v
    case Str(t) => Str(Utf8.StripNuls(t))
    case _ => v
  }

  function CanonicalRow(ps: seq<Value>): seq<Value> {
    if ps == [] then [] else [Canonical(ps[0])] + CanonicalRow(ps[1..])
  }

  /** The cell of a CALL row that a bound value's bytes are. */
  function BindAs(v: Value): Cell {
    match v
    case Null => NullCell(0)
    case Raw(b) => if b == [] then TaggedNull(VarBitType.Code()) else Tagged(VarBitType.Code(), v, 0)
    case Str(t) => Tagged(StringType.Code(), Canonical(v), |Utf8.Encode(t)| - |Utf8.StripBytes(Utf8.Encode(t))| + 1)
    case _ => Tagged(BindTag(v), Canonical(v), 0)
  }

  predicate BindFits(v: Value) {
    |BindPayload(v)| < I32_MAX
  }

  /** A bound value that has a tagged cell. */
  predicate BindsTagged(v: Value) {
    !v.Null? && !v.Time? && !v.Timestamp? && v != Raw([])
  }

  lemma TagCarries(v: Value)
    requires BindsTagged(v)
    ensures DataTypeOf(BindTag(v)).Some? && Carries(DataTypeOf(BindTag(v)).value, Canonical(v))
  {
    hide DataTypeOf, DataType.Code;
    DataTypeOfCode(BindType(v));
  }

  lemma PayloadBinds(v: Value)
    requires BindsTagged(v)
    ensures BindAs(v) == Tagged(BindTag(v), Canonical(v), BindAs(v).pad)
    ensures Payload(Canonical(v), BindAs(v).pad) == BindPayload(v) != []
  {
    hide Be16, Be32, Be64, BeU32, BeU64, Utf8.Encode, Utf8.StripBytes;
    if v.Str? {
      var pad := BindAs(v).pad;
      Utf8.StripCommutes(v.text);
      Utf8.StripSplits(Utf8.Encode(v.text));
      assert Zeros(pad) == Zeros(pad - 1) + [0];
    }
  }

  lemma TaggedIsCell(v: Value, dt: DataType, rest: seq<byte>)
    requires BindsTagged(v) && BindFits(v)
    requires DataTypeOf(BindTag(v)).Some? && Carries(DataTypeOf(BindTag(v)).value, Canonical(v))
    requires BindAs(v) == Tagged(BindTag(v), Canonical(v), BindAs(v).pad)
    requires Payload(Canonical(v), BindAs(v).pad) == BindPayload(v) != []
    ensures Fits(BindAs(v), dt, true)
    ensures BindCell(v) + rest == EncodeCell(BindAs(v), rest)
    ensures BindAs(v).Meaning() == Canonical(v)
  {
    hide Be32, AsI32, Payload, BindPayload, DataTypeOf, Carries, BindAs, BindTag, Canonical, BindCell;
    Reassociate(v, rest);
  }

  lemma NullsAreCells(v: Value, dt: DataType, rest: seq<byte>)
    requires v.Null? || v == Raw([])
    ensures Fits(BindAs(v), dt, true)
    ensures BindCell(v) + rest == EncodeCell(BindAs(v), rest)
    ensures BindAs(v).Meaning() == Canonical(v)
  {
    hide Be32, Utf8.Encode;
    if v == Raw([]) {
      Reassociate(v, rest);
      assert [VarBitType.Code()] + ([] + rest) == [VarBitType.Code()] + rest;
    }
  }

  lemma BindIsCell(v: Value, dt: DataType, rest: seq<byte>)
    requires Bindable(v)
    ensures Fits(BindAs(v), dt, true)
    ensures BindCell(v) + rest == EncodeCell(BindAs(v), rest)
    ensures BindAs(v).Meaning() == Canonical(v)
  {
    hide BindAs, BindCell, BindPayload, EncodeCell, Fits, BindTag, Canonical, DataTypeOf, Carries, Payload;
    if BindsTagged(v) {
      TagCarries(v);
      PayloadBinds(v);
      TaggedIsCell(v, dt, rest);
    } else {
      NullsAreCells(v, dt, rest);
    }
  }

  lemma Reassociate(v: Value, rest: seq<byte>)
    requires !v.Null?
    ensures BindCell(v) + rest == Be32(AsI32(1 + |BindPayload(v)|)) + ([BindTag(v)] + (BindPayload(v) + rest))
  {
    hide Be32, BindPayload, BindTag;
  }

  /** A parameter whose cell is exact. */
  predicate Bindable(v: Value) {
    BindFits(v) && !v.Time? && !v.Timestamp?
  }

  lemma BindCellInverts(v: Value, dt: DataType, rest: seq<byte>)
    requires Bindable(v)
    ensures ReadCell(dt, true, BindCell(v) + rest) == Done(Canonical(v), rest)
  {
    BindIsCell(v, dt, rest);
    hide ReadCell, BindCell, EncodeCell, Canonical, BindAs, Fits;
    CellInverts(BindAs(v), dt, true, rest);
  }

  /** Exactly the two excluded kinds fail: their fourteen bytes are more than the reader takes. */
  lemma BindExact(v: Value, dt: DataType, rest: seq<byte>)
    requires BindFits(v)
    ensures ReadCell(dt, true, BindCell(v) + rest) == Done(Canonical(v), rest) <==> !v.Time? && !v.Timestamp?
  {
    if v.Time? {
      TimeIsLost(v, dt, rest);
    } else if v.Timestamp? {
      TimestampLeavesBytes(v, dt, rest);
    } else {
      BindCellInverts(v, dt, rest);
    }
  }

  /** A bound time comes back as midnight, and eight of its bytes are taken for the next cell. */
  lemma TimeIsLost(v: Value, dt: DataType, rest: seq<byte>)
    requires v.Time?
    ensures ReadCell(dt, true, BindCell(v) + rest)
            == Done(Time(0, 0, 0), Triple(v.hour, v.minute, v.second) + (Be16(0) + rest))
  {
    hide Be16, Be32, Signed, ReadTriple;
    var tail := Triple(v.hour, v.minute, v.second) + (Be16(0) + rest);
    Reassociate(v, rest);
    assert BindPayload(v) + rest == Triple(0, 0, 0) + tail;
    TripleInverts(0, 0, 0, tail);
    assert DataTypeOf(14) == Some(TimeType);
    hide DataTypeOf;
  }

  /** A bound timestamp comes back, but its last two bytes are taken for the next cell. */
  lemma TimestampLeavesBytes(v: Value, dt: DataType, rest: seq<byte>)
    requires v.Timestamp?
    ensures ReadCell(dt, true, BindCell(v) + rest) == Done(v, Be16(0) + rest)
  {
    hide Be16, Be32, Signed, ReadTimestamp;
    Reassociate(v, rest);
    assert BindPayload(v) + rest == Payload(v, 0) + (Be16(0) + rest);
    TimestampInverts(v, Be16(0) + rest);
    assert DataTypeOf(15) == Some(TimestampType);
    hide DataTypeOf;
  }
}
