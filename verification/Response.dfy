/** Column metadata, result infos and the top-level response parsers. */
module Response {
  import opened Bytes
  import opened Wrappers
  import opened Types
  import opened Codec
  import opened Rows

  // ---------------------------------------------------------------------------
  // What the parsers read
  // ---------------------------------------------------------------------------

  /** A length and a text; a negative length becomes a huge usize. */
  function ReadString(s: seq<byte>): Parse<string> {
    var (n, rest) :- ReadInt(s);
    ReadText(AsUsize(n), rest)
  }

  /** One type byte, or two when the first has bit 0x80 set. */
  function ReadColumnType(s: seq<byte>): Parse<DataType> {
    var (legacy, rest) :- ReadByte(s);
    var (code, rest) :- if legacy >= 0x80 then ReadByte(rest) else Done(legacy, rest);
    match DataTypeOf(code)
    case Some(d) => Done(d, rest)
    case None => Fail(UnsupportedType(code))
  }

  function ReadFlag(s: seq<byte>): Parse<bool> {
    var (b, rest) :- ReadByte(s);
    Done(b == 1, rest)
  }

  datatype KeyFlags = KeyFlags(autoIncrement: bool, unique: bool, primary: bool, foreign: bool)

  function ReadKeyFlags(s: seq<byte>): Parse<KeyFlags> {
    var (autoIncrement, rest) :- ReadFlag(s);
    var (unique, rest) :- ReadFlag(rest);
    var (primary, rest) :- ReadFlag(rest);
    var (_, rest) :- ReadByte(rest);
    var (_, rest) :- ReadByte(rest);
    var (foreign, rest) :- ReadFlag(rest);
    var (_, rest) :- ReadByte(rest);
    Done(KeyFlags(autoIncrement, unique, primary, foreign), rest)
  }

  function ReadColumn(s: seq<byte>): Parse<ColumnMetaData> {
    var (columnType, rest) :- ReadColumnType(s);
    var (scale, rest) :- ReadShort(rest);
    var (precision, rest) :- ReadInt(rest);
    var (name, rest) :- ReadString(rest);
    var (realName, rest) :- ReadString(rest);
    var (tableName, rest) :- ReadString(rest);
    var (isNullable, rest) :- ReadFlag(rest);
    var (defaultValue, rest) :- ReadString(rest);
    var (keys, rest) :- ReadKeyFlags(rest);
    Done(ColumnMetaData(columnType, scale, precision, name, realName, tableName, isNullable, defaultValue,
                        keys.autoIncrement, keys.unique, keys.primary, keys.foreign), rest)
  }

  const ColumnReader: seq<byte> -> Parse<ColumnMetaData> := s => ReadColumn(s)

  /** `parse_column_metadata` */
  function ReadColumns(count: i32, s: seq<byte>): Parse<seq<ColumnMetaData>> {
    if count < 0 then Panic else Many(ColumnReader, count, s)
  }

  function ReadInfo(s: seq<byte>): Parse<ResultInfo> {
    var (stmt, rest) :- ReadByte(s);
    var (count, rest) :- ReadInt(rest);
    var (oid, rest) :- Take(8, rest);
    var (_, rest) :- ReadInt(rest);
    var (_, rest) :- ReadInt(rest);
    Done(ResultInfo(StatementTypeOf(stmt), count, oid), rest)
  }

  const InfoReader: seq<byte> -> Parse<ResultInfo> := s => ReadInfo(s)

  /** `parse_result_infos` */
  function ReadInfos(count: i32, s: seq<byte>): Parse<seq<ResultInfo>> {
    if count < 0 then Panic else Many(InfoReader, count, s)
  }

  /** CAS_INFO and a response code; a negative code is followed by the server's error. */
  function ReadHeader(s: seq<byte>): Parse<(CasInfo, i32)> {
    var (cas, rest) :- Take(4, s);
    var (code, rest) :- ReadInt(rest);
    if code < 0 then
      var (e, _) :- ReadError(rest);
      Fail(ServerError(e.0, e.1))
    else Done((cas, code), rest)
  }

  datatype Described = Described(statementType: StatementType, bindCount: i32, columns: seq<ColumnMetaData>)

  /** The statement description common to FC=2 and FC=41 replies. */
  function ReadDescribed(s: seq<byte>): Parse<Described> {
    var (_, rest) :- ReadInt(s);
    var (stmt, rest) :- ReadByte(rest);
    var (bindCount, rest) :- ReadInt(rest);
    var (_, rest) :- ReadByte(rest);
    var (count, rest) :- ReadInt(rest);
    var (columns, rest) :- ReadColumns(count, rest);
    Done(Described(StatementTypeOf(stmt), bindCount, columns), rest)
  }

  /** The result infos common to FC=3 and FC=41 replies, with the fields newer protocols add. */
  function ReadExecuted(proto: int, s: seq<byte>): Parse<seq<ResultInfo>> {
    var (_, rest) :- ReadByte(s);
    var (count, rest) :- ReadInt(rest);
    var (infos, rest) :- ReadInfos(count, rest);
    var (_, rest) :- if proto > 1 then Take(1, rest) else Done([], rest);
    var (_, rest) :- if proto > 4 then Take(4, rest) else Done([], rest);
    Done(infos, rest)
  }

  /** The optional inline row block. `lenient` is FC=3's refusal to read rows without columns. */
  function ReadInline(columns: seq<ColumnMetaData>, stmt: StatementType, lenient: bool, s: seq<byte>)
    : Parse<(i32, seq<Row>)>
  {
    if stmt.IsSelect() && |s| >= 8 then
      var (_, rest) :- ReadInt(s);
      var (count, rest) :- ReadInt(rest);
      if count > 0 && !(lenient && columns == []) then
        var (rows, rest) :- ReadRows(count, columns, stmt, rest);
        Done((count, rows), rest)
      else Done((count, []), rest)
    else Done((0, []), s)
  }

  /** `parse_prepare_and_execute` */
  function ReadPrepareAndExecute(data: seq<byte>, proto: int): Parse<(PrepareAndExecuteResult, CasInfo)> {
    var (header, rest) :- ReadHeader(data);
    var (d, rest) :- ReadDescribed(rest);
    var (total, rest) :- ReadInt(rest);
    var (infos, rest) :- ReadExecuted(proto, rest);
    var (inline, rest) :- ReadInline(d.columns, d.statementType, false, rest);
    Done((PrepareAndExecuteResult(header.1, d.statementType, d.bindCount, d.columns, total, infos, inline.0, inline.1),
          header.0), rest)
  }

  /** `parse_prepare` */
  function ReadPrepare(data: seq<byte>): Parse<(PrepareResult, CasInfo)> {
    var (header, rest) :- ReadHeader(data);
    var (d, rest) :- ReadDescribed(rest);
    Done((PrepareResult(header.1, d.statementType, d.bindCount, d.columns), header.0), rest)
  }

  /** `parse_execute` */
  function ReadExecute(data: seq<byte>, columns: seq<ColumnMetaData>, stmt: StatementType, proto: int)
    : Parse<(ExecuteResult, CasInfo)>
  {
    var (header, rest) :- ReadHeader(data);
    var (infos, rest) :- ReadExecuted(proto, rest);
    var (inline, rest) :- ReadInline(columns, stmt, true, rest);
    Done((ExecuteResult(header.1, infos, inline.0, inline.1), header.0), rest)
  }

  /** The tuple count and the rows of an FC=8 reply. */
  function ReadBatch(columns: seq<ColumnMetaData>, stmt: StatementType, s: seq<byte>): Parse<FetchResult> {
    var (count, rest) :- ReadInt(s);
    if count > 0 && columns != [] then
      var (rows, rest) :- ReadRows(count, columns, stmt, rest);
      Done(FetchResult(count, rows), rest)
    else Done(FetchResult(count, []), rest)
  }

  /** `parse_fetch` */
  function ReadFetch(data: seq<byte>, columns: seq<ColumnMetaData>, stmt: StatementType)
    : Parse<(FetchResult, CasInfo)>
  {
    var (header, rest) :- ReadHeader(data);
    var (batch, rest) :- ReadBatch(columns, stmt, rest);
    Done((batch, header.0), rest)
  }

  /** `parse_simple_response` */
  function ReadSimple(data: seq<byte>): Parse<CasInfo> {
    var (header, rest) :- ReadHeader(data);
    Done(header.0, rest)
  }

  /** `parse_get_db_version` */
  function ReadDbVersion(data: seq<byte>): Parse<(string, CasInfo)> {
    var (header, rest) :- ReadHeader(data);
    var (version, rest) :- ReadText(|rest|, rest);
    Done((version, header.0), rest)
  }

  // ---------------------------------------------------------------------------
  // The parsers
  // ---------------------------------------------------------------------------

  method ParseString(reader: PacketReader) returns (r: Outcome<string, ProtocolError>)
    requires reader.Valid()
    modifies reader
    ensures reader.Valid() && old(reader.pos) <= reader.pos
    ensures Agrees(r, ReadString(old(reader.Unread())), reader.Unread())
  {
    var n :- reader.ParseInt();
    r := reader.ParseNullTermString(AsUsize(n));
  }

  method ParseColumnType(reader: PacketReader) returns (r: Outcome<DataType, ProtocolError>)
    requires reader.Valid()
    modifies reader
    ensures reader.Valid() && old(reader.pos) <= reader.pos
    ensures Agrees(r, ReadColumnType(old(reader.Unread())), reader.Unread())
  {
    hide DataTypeOf;
    var code :- reader.ParseByte();
    if code >= 0x80 {
      code :- reader.ParseByte();
    }
    match DataTypeOf(code)
    case Some(d) => return Ok(d);
    case None => return Err(UnsupportedType(code));
  }

  method ParseFlag(reader: PacketReader) returns (r: Outcome<bool, ProtocolError>)
    requires reader.Valid()
    modifies reader
    ensures reader.Valid() && old(reader.pos) <= reader.pos
    ensures Agrees(r, ReadFlag(old(reader.Unread())), reader.Unread())
  {
    var b :- reader.ParseByte();
    return Ok(b == 1);
  }

  method ParseKeyFlags(reader: PacketReader) returns (r: Outcome<KeyFlags, ProtocolError>)
    requires reader.Valid()
    modifies reader
    ensures reader.Valid() && old(reader.pos) <= reader.pos
    ensures Agrees(r, ReadKeyFlags(old(reader.Unread())), reader.Unread())
  {
    hide ReadByte, ReadFlag;
    var autoIncrement :- ParseFlag(reader);
    var unique :- ParseFlag(reader);
    var primary :- ParseFlag(reader);
    var _ :- reader.ParseByte();
    var _ :- reader.ParseByte();
    var foreign :- ParseFlag(reader);
    var _ :- reader.ParseByte();
    return Ok(KeyFlags(autoIncrement, unique, primary, foreign));
  }

  /** The loop body of `parse_column_metadata`. */
  method ParseColumn(reader: PacketReader) returns (r: Outcome<ColumnMetaData, ProtocolError>)
    requires reader.Valid()
    modifies reader
    ensures reader.Valid() && old(reader.pos) <= reader.pos
    ensures Agrees(r, ReadColumn(old(reader.Unread())), reader.Unread())
  {
    hide ReadColumnType, ReadShort, ReadInt, ReadString, ReadFlag, ReadKeyFlags;
    var columnType :- ParseColumnType(reader);
    var scale :- reader.ParseShort();
    var precision :- reader.ParseInt();
    var name :- ParseString(reader);
    var realName :- ParseString(reader);
    var tableName :- ParseString(reader);
    var isNullable :- ParseFlag(reader);
    var defaultValue :- ParseString(reader);
    var keys :- ParseKeyFlags(reader);
    return Ok(ColumnMetaData(columnType, scale, precision, name, realName, tableName, isNullable, defaultValue,
                             keys.autoIncrement, keys.unique, keys.primary, keys.foreign));
  }

  method ParseColumnMetadata(reader: PacketReader, count: i32)
    returns (r: Outcome<seq<ColumnMetaData>, ProtocolError>)
    requires reader.Valid()
    modifies reader
    ensures reader.Valid() && old(reader.pos) <= reader.pos
    ensures Agrees(r, ReadColumns(count, old(reader.Unread())), reader.Unread())
  {
    hide ReadColumn;
    if count < 0 {
      return Crash;
    }
    var cols := [];
    var i := 0;
    AfterNothing(Many(ColumnReader, count, reader.Unread()));
    while i < count
      invariant 0 <= i <= count && reader.Valid() && old(reader.pos) <= reader.pos
      invariant After(cols, Many(ColumnReader, count - i, reader.Unread()))
                == Many(ColumnReader, count, old(reader.Unread()))
    {
      assert ColumnReader(reader.Unread()) == ReadColumn(reader.Unread());
      var col :- ParseColumn(reader);
      AfterPush(cols, col, Many(ColumnReader, count - i - 1, reader.Unread()));
      cols := cols + [col];
      i := i + 1;
    }
    assert cols + [] == cols;
    return Ok(cols);
  }

  method ParseInfo(reader: PacketReader) returns (r: Outcome<ResultInfo, ProtocolError>)
    requires reader.Valid()
    modifies reader
    ensures reader.Valid() && old(reader.pos) <= reader.pos
    ensures Agrees(r, ReadInfo(old(reader.Unread())), reader.Unread())
  {
    hide StatementTypeOf, ReadInt, ReadByte, Take;
    var stmt :- reader.ParseByte();
    var count :- reader.ParseInt();
    var oid :- reader.ParseRawBytes(8);
    var _ :- reader.ParseInt();
    var _ :- reader.ParseInt();
    return Ok(ResultInfo(StatementTypeOf(stmt), count, oid));
  }

  method ParseResultInfos(reader: PacketReader, count: i32) returns (r: Outcome<seq<ResultInfo>, ProtocolError>)
    requires reader.Valid()
    modifies reader
    ensures reader.Valid() && old(reader.pos) <= reader.pos
    ensures Agrees(r, ReadInfos(count, old(reader.Unread())), reader.Unread())
  {
    hide ReadInfo;
    if count < 0 {
      return Crash;
    }
    var infos := [];
    var i := 0;
    AfterNothing(Many(InfoReader, count, reader.Unread()));
    while i < count
      invariant 0 <= i <= count && reader.Valid() && old(reader.pos) <= reader.pos
      invariant After(infos, Many(InfoReader, count - i, reader.Unread()))
                == Many(InfoReader, count, old(reader.Unread()))
    {
      assert InfoReader(reader.Unread()) == ReadInfo(reader.Unread());
      var info :- ParseInfo(reader);
      AfterPush(infos, info, Many(InfoReader, count - i - 1, reader.Unread()));
      infos := infos + [info];
      i := i + 1;
    }
    assert infos + [] == infos;
    return Ok(infos);
  }

  method ParseHeader(reader: PacketReader) returns (r: Outcome<(CasInfo, i32), ProtocolError>)
    requires reader.Valid()
    modifies reader
    ensures reader.Valid() && old(reader.pos) <= reader.pos
    ensures Agrees(r, ReadHeader(old(reader.Unread())), reader.Unread())
  {
    var cas :- reader.ParseRawBytes(4);
    var code :- reader.ParseInt();
    if code < 0 {
      var e :- reader.ReadErrorReply();
      return Err(ServerError(e.0, e.1));
    }
    return Ok((cas, code));
  }

  method ParseDescribed(reader: PacketReader) returns (r: Outcome<Described, ProtocolError>)
    requires reader.Valid()
    modifies reader
    ensures reader.Valid() && old(reader.pos) <= reader.pos
    ensures Agrees(r, ReadDescribed(old(reader.Unread())), reader.Unread())
  {
    hide StatementTypeOf, ReadInt, ReadByte, ReadColumns;
    var _ :- reader.ParseInt();
    var stmt :- reader.ParseByte();
    var bindCount :- reader.ParseInt();
    var _ :- reader.ParseByte();
    var count :- reader.ParseInt();
    var columns :- ParseColumnMetadata(reader, count);
    return Ok(Described(StatementTypeOf(stmt), bindCount, columns));
  }

  method ParseExecuted(reader: PacketReader, proto: int) returns (r: Outcome<seq<ResultInfo>, ProtocolError>)
    requires reader.Valid()
    modifies reader
    ensures reader.Valid() && old(reader.pos) <= reader.pos
    ensures Agrees(r, ReadExecuted(proto, old(reader.Unread())), reader.Unread())
  {
    hide ReadInt, ReadByte, ReadInfos, Take;
    var _ :- reader.ParseByte();
    var count :- reader.ParseInt();
    var infos :- ParseResultInfos(reader, count);
    if proto > 1 {
      var _ :- reader.ParseRawBytes(1);
    }
    if proto > 4 {
      var _ :- reader.ParseRawBytes(4);
    }
    return Ok(infos);
  }

  method ParseInline(reader: PacketReader, columns: seq<ColumnMetaData>, stmt: StatementType, lenient: bool)
    returns (r: Outcome<(i32, seq<Row>), ProtocolError>)
    requires reader.Valid()
    modifies reader
    ensures reader.Valid() && old(reader.pos) <= reader.pos
    ensures Agrees(r, ReadInline(columns, stmt, lenient, old(reader.Unread())), reader.Unread())
  {
    hide ReadInt, ReadRows;
    if !stmt.IsSelect() || reader.Remaining() < 8 {
      return Ok((0, []));
    }
    var _ :- reader.ParseInt();
    var count :- reader.ParseInt();
    if count > 0 && !(lenient && columns == []) {
      var rows :- ParseRowData(reader, count, columns, stmt);
      return Ok((count, rows));
    }
    return Ok((count, []));
  }

  method ParsePrepareAndExecute(data: seq<byte>, proto: int)
    returns (r: Outcome<(PrepareAndExecuteResult, CasInfo), ProtocolError>)
    ensures r == ReadPrepareAndExecute(data, proto).Result()
  {
    hide ReadHeader, ReadDescribed, ReadInt, ReadExecuted, ReadInline;
    var reader := new PacketReader(data);
    var header :- ParseHeader(reader);
    var d :- ParseDescribed(reader);
    var total :- reader.ParseInt();
    var infos :- ParseExecuted(reader, proto);
    var inline :- ParseInline(reader, d.columns, d.statementType, false);
    return Ok((PrepareAndExecuteResult(header.1, d.statementType, d.bindCount, d.columns, total, infos,
                                       inline.0, inline.1), header.0));
  }

  method ParsePrepare(data: seq<byte>) returns (r: Outcome<(PrepareResult, CasInfo), ProtocolError>)
    ensures r == ReadPrepare(data).Result()
  {
    hide ReadHeader, ReadDescribed;
    var reader := new PacketReader(data);
    var header :- ParseHeader(reader);
    var d :- ParseDescribed(reader);
    return Ok((PrepareResult(header.1, d.statementType, d.bindCount, d.columns), header.0));
  }

  method ParseExecute(data: seq<byte>, columns: seq<ColumnMetaData>, stmt: StatementType, proto: int)
    returns (r: Outcome<(ExecuteResult, CasInfo), ProtocolError>)
    ensures r == ReadExecute(data, columns, stmt, proto).Result()
  {
    hide ReadHeader, ReadExecuted, ReadInline;
    var reader := new PacketReader(data);
    var header :- ParseHeader(reader);
    var infos :- ParseExecuted(reader, proto);
    var inline :- ParseInline(reader, columns, stmt, true);
    return Ok((ExecuteResult(header.1, infos, inline.0, inline.1), header.0));
  }

  method ParseBatch(reader: PacketReader, columns: seq<ColumnMetaData>, stmt: StatementType)
    returns (r: Outcome<FetchResult, ProtocolError>)
    requires reader.Valid()
    modifies reader
    ensures reader.Valid() && old(reader.pos) <= reader.pos
    ensures Agrees(r, ReadBatch(columns, stmt, old(reader.Unread())), reader.Unread())
  {
    hide ReadInt, ReadRows;
    var count :- reader.ParseInt();
    if count > 0 && columns != [] {
      var rows :- ParseRowData(reader, count, columns, stmt);
      return Ok(FetchResult(count, rows));
    }
    return Ok(FetchResult(count, []));
  }

  method ParseFetch(data: seq<byte>, columns: seq<ColumnMetaData>, stmt: StatementType)
    returns (r: Outcome<(FetchResult, CasInfo), ProtocolError>)
    ensures r == ReadFetch(data, columns, stmt).Result()
  {
    hide ReadHeader, ReadBatch;
    var reader := new PacketReader(data);
    var header :- ParseHeader(reader);
    var batch :- ParseBatch(reader, columns, stmt);
    return Ok((batch, header.0));
  }

  method ParseSimpleResponse(data: seq<byte>) returns (r: Outcome<CasInfo, ProtocolError>)
    ensures r == ReadSimple(data).Result()
  {
    hide ReadHeader;
    var reader := new PacketReader(data);
    var header :- ParseHeader(reader);
    return Ok(header.0);
  }

  method ParseGetDbVersion(data: seq<byte>) returns (r: Outcome<(string, CasInfo), ProtocolError>)
    ensures r == ReadDbVersion(data).Result()
  {
    hide ReadHeader;
    var reader := new PacketReader(data);
    var header :- ParseHeader(reader);
    var version :- reader.ParseNullTermString(reader.Remaining());
    return Ok((version, header.0));
  }
}
