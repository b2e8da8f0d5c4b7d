/** The encoding of server replies, and the inversion of the response parsers. */
module Replies {
  import opened Bytes
  import opened Wrappers
  import opened Types
  import opened Codec
  import opened Rows
  import opened Response
  import Utf8

  /** A text with the NULs a server puts after it. */
  datatype WireText = WireText(text: string, pad: nat) {
    predicate Fits() {
      Utf8.NoTrailingNul(text) && |Utf8.Encode(text)| + pad <= I32_MAX
    }

    function Body(): seq<byte> { Utf8.Encode(text) + Zeros(pad) }
  }

  function EncodeString(w: WireText, rest: seq<byte>): seq<byte> {
    Be32(AsI32(|w.Body()|)) + (w.Body() + rest)
  }

  /** A column as sent: `legacy` is the flag byte of the two-byte type form. */
  datatype WireColumn = WireColumn(
    legacy: Option<byte>, columnType: DataType, scale: i16, precision: i32,
    name: WireText, realName: WireText, tableName: WireText, nullable: byte, defaultValue: WireText,
    autoIncrement: byte, uniqueKey: byte, primaryKey: byte, reverseIndex: byte, reverseUnique: byte,
    foreignKey: byte, shared: byte)
  {
    predicate Fits() {
      && (legacy.Some? ==> legacy.value >= 0x80)
      && name.Fits() && realName.Fits() && tableName.Fits() && defaultValue.Fits()
    }

    function Meaning(): ColumnMetaData {
      ColumnMetaData(columnType, scale, precision, name.text, realName.text, tableName.text, nullable == 1,
                     defaultValue.text, autoIncrement == 1, uniqueKey == 1, primaryKey == 1, foreignKey == 1)
    }

    function TypeBytes(): seq<byte> {
      if legacy.Some? then [legacy.value, columnType.Code()] else [columnType.Code()]
    }

    function KeyBytes(): seq<byte> {
      [autoIncrement, uniqueKey, primaryKey, reverseIndex, reverseUnique, foreignKey, shared]
    }
  }

  function EncodeColumn(w: WireColumn, rest: seq<byte>): seq<byte> {
    var flags := w.KeyBytes() + rest;
    var nullable := [w.nullable] + EncodeString(w.defaultValue, flags);
    var names := EncodeString(w.name, EncodeString(w.realName, EncodeString(w.tableName, nullable)));
    w.TypeBytes() + (Be16(w.scale) + (Be32(w.precision) + names))
  }

  function EncodeColumns(ws: seq<WireColumn>, rest: seq<byte>): seq<byte> {
    if ws == [] then rest else EncodeColumn(ws[0], EncodeColumns(ws[1..], rest))
  }

  function ColumnsMeaning(ws: seq<WireColumn>): (r: seq<ColumnMetaData>)
    ensures |r| == |ws|
  {
    if ws == [] then [] else [ws[0].Meaning()] + ColumnsMeaning(ws[1..])
  }

  /** A result info as sent, with its two cache times. */
  datatype WireInfo = WireInfo(stmt: byte, count: i32, oid: seq<byte>, sec: i32, usec: i32) {
    function Meaning(): ResultInfo { ResultInfo(StatementTypeOf(stmt), count, oid) }
  }

  function EncodeInfo(w: WireInfo, rest: seq<byte>): seq<byte> {
    [w.stmt] + (Be32(w.count) + (w.oid + (Be32(w.sec) + (Be32(w.usec) + rest))))
  }

  function EncodeInfos(ws: seq<WireInfo>, rest: seq<byte>): seq<byte> {
    if ws == [] then rest else EncodeInfo(ws[0], EncodeInfos(ws[1..], rest))
  }

  function InfosMeaning(ws: seq<WireInfo>): (r: seq<ResultInfo>)
    ensures |r| == |ws|
  {
    if ws == [] then [] else [ws[0].Meaning()] + InfosMeaning(ws[1..])
  }

  function EncodeHeader(cas: CasInfo, code: i32, rest: seq<byte>): seq<byte> {
    cas + (Be32(code) + rest)
  }

  /** A reply with a negative response code: the server's error code and message follow. */
  function EncodeError(cas: CasInfo, response: i32, code: i32, message: WireText): seq<byte> {
    EncodeHeader(cas, response, Be32(code) + message.Body())
  }

  /** The statement description of FC=2 and FC=41 replies; `lifetime` and `updatable` are dropped. */
  datatype WireStatement = WireStatement(
    lifetime: i32, stmt: byte, bindCount: i32, updatable: byte, columns: seq<WireColumn>)
  {
    predicate Fits() {
      |columns| <= I32_MAX && forall c :: c in columns ==> c.Fits()
    }

    function Meaning(): Described {
      Described(StatementTypeOf(stmt), bindCount, ColumnsMeaning(columns))
    }
  }

  function EncodeDescribed(w: WireStatement, rest: seq<byte>): seq<byte> {
    var columns := Be32(AsI32(|w.columns|)) + EncodeColumns(w.columns, rest);
    Be32(w.lifetime) + ([w.stmt] + (Be32(w.bindCount) + ([w.updatable] + columns)))
  }

  /** The execution part of FC=3 and FC=41 replies, with the fields of newer protocols. */
  datatype WireExecution = WireExecution(reusable: byte, infos: seq<WireInfo>, columnInfo: byte, shard: i32) {
    predicate Fits() {
      |infos| <= I32_MAX && forall i :: i in infos ==> |i.oid| == 8
    }
  }

  function EncodeExecuted(w: WireExecution, proto: int, rest: seq<byte>): seq<byte> {
    var shard := if proto > 4 then Be32(w.shard) + rest else rest;
    var extra := if proto > 1 then [w.columnInfo] + shard else shard;
    [w.reusable] + (Be32(AsI32(|w.infos|)) + EncodeInfos(w.infos, extra))
  }

  /** The optional inline block: a fetch code and rows, or no rows under a count that announces none. */
  datatype WireInline = WireInline(fetchCode: i32, count: i32, rows: seq<WireRow>)

  predicate InlineFits(w: Option<WireInline>, columns: seq<ColumnMetaData>, stmt: StatementType, tail: seq<byte>) {
    match w
    case None => stmt.IsSelect() ==> |tail| < 8
    case Some(b) =>
      && stmt.IsSelect()
      && (if b.count > 0 then |b.rows| == b.count else b.rows == [])
      && forall row :: row in b.rows ==> RowFits(row, columns, stmt.IsCall())
  }

  function EncodeInline(w: Option<WireInline>, tail: seq<byte>): seq<byte> {
    match w
    case None => tail
    case Some(b) => Be32(b.fetchCode) + (Be32(b.count) + EncodeRows(b.rows, tail))
  }

  function InlineRows(w: Option<WireInline>): seq<WireRow> {
    match w
    case None => []
    case Some(b) => b.rows
  }

  /** The count the block announces, and the rows in it. */
  function InlineMeaning(w: Option<WireInline>): (i32, seq<Row>) {
    (if w.Some? then w.value.count else 0, RowsMeaning(InlineRows(w)))
  }

  /** Rows that are left unread where there are no columns to read them by. */
  function Readable(rows: seq<Row>, columns: seq<ColumnMetaData>): seq<Row> {
    if columns == [] then [] else rows
  }

  // ---------------------------------------------------------------------------
  // Inversion of the parts
  // ---------------------------------------------------------------------------

  lemma StringInverts(w: WireText, rest: seq<byte>)
    requires w.Fits()
    ensures ReadString(EncodeString(w, rest)) == Done(w.text, rest)
  {
    hide ReadText;
    TextInverts(w.text, w.pad, rest);
  }

  lemma ColumnTypeInverts(w: WireColumn, rest: seq<byte>)
    requires w.Fits()
    ensures ReadColumnType(w.TypeBytes() + rest) == Done(w.columnType, rest)
  {
    hide DataTypeOf;
    DataTypeOfCode(w.columnType);
    var s := w.TypeBytes() + rest;
    if w.legacy.Some? {
      assert s[1..] == [w.columnType.Code()] + rest;
    }
  }

  lemma KeyFlagsInvert(w: WireColumn, rest: seq<byte>)
    ensures ReadKeyFlags(w.KeyBytes() + rest)
            == Done(KeyFlags(w.autoIncrement == 1, w.uniqueKey == 1, w.primaryKey == 1, w.foreignKey == 1), rest)
  {
    var s := w.KeyBytes() + rest;
    assert s[1..][1..][1..][1..][1..][1..][1..] == rest;
  }

  lemma ColumnInverts(w: WireColumn, rest: seq<byte>)
    requires w.Fits()
    ensures ReadColumn(EncodeColumn(w, rest)) == Done(w.Meaning(), rest)
  {
    hide ReadColumnType, ReadString, EncodeString, ReadKeyFlags, Signed;
    var flags := w.KeyBytes() + rest;
    var nullable := [w.nullable] + EncodeString(w.defaultValue, flags);
    var table := EncodeString(w.tableName, nullable);
    var realName := EncodeString(w.realName, table);
    ColumnTypeInverts(w, Be16(w.scale) + (Be32(w.precision) + EncodeString(w.name, realName)));
    StringInverts(w.name, realName);
    StringInverts(w.realName, table);
    StringInverts(w.tableName, nullable);
    StringInverts(w.defaultValue, flags);
    KeyFlagsInvert(w, rest);
  }

  lemma {:induction false} ColumnsInvert(ws: seq<WireColumn>, rest: seq<byte>)
    requires forall w :: w in ws ==> w.Fits()
    ensures Many(ColumnReader, |ws|, EncodeColumns(ws, rest)) == Done(ColumnsMeaning(ws), rest)
  {
    hide ReadColumn, EncodeColumn;
    if ws != [] {
      ColumnInverts(ws[0], EncodeColumns(ws[1..], rest));
      ColumnsInvert(ws[1..], rest);
      assert ColumnReader(EncodeColumns(ws, rest)) == ReadColumn(EncodeColumns(ws, rest));
    }
  }

  lemma InfoInverts(w: WireInfo, rest: seq<byte>)
    requires |w.oid| == 8
    ensures ReadInfo(EncodeInfo(w, rest)) == Done(w.Meaning(), rest)
  {
    hide StatementTypeOf, Signed;
  }

  lemma {:induction false} InfosInvert(ws: seq<WireInfo>, rest: seq<byte>)
    requires forall w :: w in ws ==> |w.oid| == 8
    ensures Many(InfoReader, |ws|, EncodeInfos(ws, rest)) == Done(InfosMeaning(ws), rest)
  {
    hide ReadInfo, EncodeInfo;
    if ws != [] {
      InfoInverts(ws[0], EncodeInfos(ws[1..], rest));
      InfosInvert(ws[1..], rest);
      assert InfoReader(EncodeInfos(ws, rest)) == ReadInfo(EncodeInfos(ws, rest));
    }
  }

  lemma HeaderInverts(cas: CasInfo, code: i32, rest: seq<byte>)
    requires code >= 0
    ensures ReadHeader(EncodeHeader(cas, code, rest)) == Done((cas, code), rest)
  {
    hide Signed;
  }

  lemma DescribedInverts(w: WireStatement, rest: seq<byte>)
    requires w.Fits()
    ensures ReadDescribed(EncodeDescribed(w, rest)) == Done(w.Meaning(), rest)
  {
    hide StatementTypeOf, Signed;
    ColumnsInvert(w.columns, rest);
  }

  lemma ExecutedInverts(w: WireExecution, proto: int, rest: seq<byte>)
    requires w.Fits()
    ensures ReadExecuted(proto, EncodeExecuted(w, proto, rest)) == Done(InfosMeaning(w.infos), rest)
  {
    hide Signed;
    var shard := if proto > 4 then Be32(w.shard) + rest else rest;
    var extra := if proto > 1 then [w.columnInfo] + shard else shard;
    InfosInvert(w.infos, extra);
  }

  lemma InlineInverts(w: Option<WireInline>, columns: seq<ColumnMetaData>, stmt: StatementType, lenient: bool,
                      tail: seq<byte>)
    requires InlineFits(w, columns, stmt, tail)
    ensures ReadInline(columns, stmt, lenient, EncodeInline(w, tail)).Done?
    ensures ReadInline(columns, stmt, lenient, EncodeInline(w, tail)).value
            == (InlineMeaning(w).0, if lenient then Readable(InlineMeaning(w).1, columns) else InlineMeaning(w).1)
  {
    hide Signed;
    if w.Some? { RowsInvert(w.value.rows, columns, stmt.IsCall(), tail); }
  }

  // ---------------------------------------------------------------------------
  // Whole replies
  // ---------------------------------------------------------------------------

  /** An FC=41 reply. */
  datatype WireReply = WireReply(
    cas: CasInfo, handle: i32, statement: WireStatement, total: i32, execution: WireExecution,
    inline: Option<WireInline>, tail: seq<byte>)
  {
    predicate Fits() {
      && handle >= 0 && statement.Fits() && execution.Fits()
      && InlineFits(inline, ColumnsMeaning(statement.columns), StatementTypeOf(statement.stmt), tail)
    }

    function Meaning(): PrepareAndExecuteResult {
      var d := statement.Meaning();
      PrepareAndExecuteResult(handle, d.statementType, d.bindCount, d.columns, total, InfosMeaning(execution.infos),
                              InlineMeaning(inline).0, InlineMeaning(inline).1)
    }
  }

  function EncodeReply(w: WireReply, proto: int): seq<byte> {
    var executed := EncodeExecuted(w.execution, proto, EncodeInline(w.inline, w.tail));
    EncodeHeader(w.cas, w.handle, EncodeDescribed(w.statement, Be32(w.total) + executed))
  }

  /** Parsing any FC=41 reply gives back every retained field, under every protocol version. */
  lemma ReplyInverts(w: WireReply, proto: int)
    requires w.Fits()
    ensures ReadPrepareAndExecute(EncodeReply(w, proto), proto).Result() == Ok((w.Meaning(), w.cas))
  {
    hide ReadHeader, ReadDescribed, ReadExecuted, ReadInline;
    var inline := EncodeInline(w.inline, w.tail);
    var executed := EncodeExecuted(w.execution, proto, inline);
    HeaderInverts(w.cas, w.handle, EncodeDescribed(w.statement, Be32(w.total) + executed));
    DescribedInverts(w.statement, Be32(w.total) + executed);
    ScalarsInvert(executed);
    ExecutedInverts(w.execution, proto, inline);
    InlineInverts(w.inline, ColumnsMeaning(w.statement.columns), StatementTypeOf(w.statement.stmt), false, w.tail);
  }

  function EncodePrepareReply(cas: CasInfo, handle: i32, w: WireStatement, tail: seq<byte>): seq<byte> {
    EncodeHeader(cas, handle, EncodeDescribed(w, tail))
  }

  function PrepareMeaning(handle: i32, w: WireStatement): PrepareResult {
    PrepareResult(handle, w.Meaning().statementType, w.Meaning().bindCount, w.Meaning().columns)
  }

  lemma PrepareInverts(cas: CasInfo, handle: i32, w: WireStatement, tail: seq<byte>)
    requires handle >= 0 && w.Fits()
    ensures ReadPrepare(EncodePrepareReply(cas, handle, w, tail)) == Done((PrepareMeaning(handle, w), cas), tail)
  {
    hide ReadHeader, ReadDescribed;
    HeaderInverts(cas, handle, EncodeDescribed(w, tail));
    DescribedInverts(w, tail);
  }

  function EncodeExecuteReply(
    cas: CasInfo, total: i32, w: WireExecution, proto: int, inline: Option<WireInline>, tail: seq<byte>): seq<byte>
  {
    EncodeHeader(cas, total, EncodeExecuted(w, proto, EncodeInline(inline, tail)))
  }

  /** Parsing any FC=3 reply gives back every retained field, for any column list: without columns, as in a statement
      that is no SELECT, there are no rows, and none are read should the reply announce some. */
  lemma ExecuteInverts(cas: CasInfo, total: i32, w: WireExecution, proto: int, inline: Option<WireInline>,
                       tail: seq<byte>, columns: seq<ColumnMetaData>, stmt: StatementType)
    requires total >= 0 && w.Fits() && InlineFits(inline, columns, stmt, tail)
    ensures ReadExecute(EncodeExecuteReply(cas, total, w, proto, inline, tail), columns, stmt, proto).Result()
            == Ok((ExecuteResult(total, InfosMeaning(w.infos), InlineMeaning(inline).0,
                                 Readable(InlineMeaning(inline).1, columns)), cas))
  {
    hide ReadHeader, ReadExecuted, ReadInline;
    HeaderInverts(cas, total, EncodeExecuted(w, proto, EncodeInline(inline, tail)));
    ExecutedInverts(w, proto, EncodeInline(inline, tail));
    InlineInverts(inline, columns, stmt, true, tail);
  }

  /** An FC=8 reply that announces a number of rows, whatever follows. */
  function EncodeAnnounced(cas: CasInfo, code: i32, count: i32, body: seq<byte>): seq<byte> {
    EncodeHeader(cas, code, Be32(count) + body)
  }

  function EncodeFetchReply(cas: CasInfo, code: i32, rows: seq<WireRow>, tail: seq<byte>): seq<byte> {
    EncodeAnnounced(cas, code, AsI32(|rows|), EncodeRows(rows, tail))
  }

  /** Parsing any FC=8 reply gives back its rows, none included, for any column list. */
  lemma {:induction false} FetchInverts(cas: CasInfo, code: i32, rows: seq<WireRow>, tail: seq<byte>,
                                        columns: seq<ColumnMetaData>, stmt: StatementType)
    requires code >= 0 && |rows| <= I32_MAX
    requires forall row :: row in rows ==> RowFits(row, columns, stmt.IsCall())
    ensures ReadFetch(EncodeFetchReply(cas, code, rows, tail), columns, stmt)
            == Done((FetchResult(|rows|, Readable(RowsMeaning(rows), columns)), cas),
                    if columns == [] then EncodeRows(rows, tail) else tail)
  {
    hide ReadHeader, Signed, RowFits, EncodeHeader, Be32;
    if rows == [] {
      assert EncodeRows(rows, tail) == tail && RowsMeaning(rows) == [];
    }
    hide Many, RowReader, EncodeRows, RowsMeaning;
    assert ReadInt(Be32(AsI32(|rows|)) + EncodeRows(rows, tail)) == Done(|rows|, EncodeRows(rows, tail));
    HeaderInverts(cas, code, Be32(AsI32(|rows|)) + EncodeRows(rows, tail));
    RowsInvert(rows, columns, stmt.IsCall(), tail);
  }

  /** A reply that announces no rows, or fewer, is taken at its word. */
  lemma NothingAnnounced(cas: CasInfo, code: i32, count: i32, body: seq<byte>,
                         columns: seq<ColumnMetaData>, stmt: StatementType)
    requires code >= 0 && count <= 0
    ensures ReadFetch(EncodeAnnounced(cas, code, count, body), columns, stmt)
            == Done((FetchResult(count, []), cas), body)
  {
    hide ReadHeader, Signed, EncodeHeader, Be32, ReadRows;
    assert ReadInt(Be32(count) + body) == Done(count, body);
    HeaderInverts(cas, code, Be32(count) + body);
  }

  /** A reply that is only a token and a code gives the token. */
  lemma SimpleInverts(cas: CasInfo, code: i32, rest: seq<byte>)
    requires code >= 0
    ensures ReadSimple(EncodeHeader(cas, code, rest)).Result() == Ok(cas)
  {
    hide ReadHeader, EncodeHeader;
    HeaderInverts(cas, code, rest);
  }

  /** A version reply gives the token and the text. */
  lemma VersionInverts(cas: CasInfo, code: i32, version: WireText)
    requires code >= 0 && version.Fits()
    ensures ReadDbVersion(EncodeHeader(cas, code, version.Body())).Result() == Ok((version.text, cas))
  {
    hide ReadHeader, EncodeHeader, ReadText;
    HeaderInverts(cas, code, version.Body());
    TextInverts(version.text, version.pad, []);
    assert version.Body() + [] == version.Body();
  }

  /** A negative response code gives exactly the encoded error, from every parser. */
  lemma ErrorInverts(cas: CasInfo, response: i32, code: i32, message: WireText,
                     columns: seq<ColumnMetaData>, stmt: StatementType, proto: int)
    requires response < 0 && message.Fits()
    ensures var data := EncodeError(cas, response, code, message);
            var error := ServerError(code, message.text);
            && ReadPrepareAndExecute(data, proto) == Fail(error)
            && ReadPrepare(data) == Fail(error)
            && ReadExecute(data, columns, stmt, proto) == Fail(error)
            && ReadFetch(data, columns, stmt) == Fail(error)
            && ReadSimple(data) == Fail(error)
            && ReadDbVersion(data) == Fail(error)
  {
    hide Signed, ReadText;
    var data := EncodeError(cas, response, code, message);
    var body := message.Body();
    TextInverts(message.text, message.pad, []);
    assert body + [] == body;
    assert ReadError(Be32(code) + body) == Done((code, message.text), []);
    assert ReadHeader(data) == Fail(ServerError(code, message.text));
    hide ReadHeader;
  }
}
