/** The wire format in literal bytes: integers, type codes, cells, versions and whole replies. */
module Layouts {
  import opened Bytes
  import opened Wrappers
  import opened Types
  import opened Codec
  import opened Rows
  import opened Response
  import opened Replies
  import opened Request
  import Utf8

  // ---------------------------------------------------------------------------
  // Integers and texts
  // ---------------------------------------------------------------------------

  lemma LastByte(s: seq<byte>, n: nat)
    requires 0 < n <= |s|
    ensures Unsigned(s[..n]) == 0x100 * Unsigned(s[..n - 1]) + s[n - 1]
  {
    assert s[..n][..n - 1] == s[..n - 1];
  }

  /** Eight bytes are four and four more. */
  lemma EightBytes(s: seq<byte>)
    requires |s| == 8
    ensures Unsigned(s)
            == 0x1_0000_0000 * Unsigned(s[..4]) + 0x100_0000 * (s[4] as int) + 0x1_0000 * (s[5] as int)
               + 0x100 * (s[6] as int) + s[7]
    ensures Signed(s) == Unsigned(s) - if s[0] >= 0x80 then 0x1_0000_0000_0000_0000 else 0
  {
    hide Unsigned, Pow256;
    Pow256Widths();
    LastByte(s, 8);
    LastByte(s, 7);
    LastByte(s, 6);
    LastByte(s, 5);
    assert s[..8] == s;
    BigEndianBytes(s[0], s[1], s[2], s[3]);
    assert s[..4] == [s[0], s[1], s[2], s[3]];
  }

  /** Characters of one to four bytes. */
  lemma Utf8Bytes()
    ensures Utf8.EncodeChar('A') == [0x41] && Utf8.EncodeChar('\U{e9}') == [0xC3, 0xA9]
    ensures Utf8.EncodeChar('\U{20ac}') == [0xE2, 0x82, 0xAC]
    ensures Utf8.EncodeChar('\U{1f600}') == [0xF0, 0x9F, 0x98, 0x80]
  {
  }

  // ---------------------------------------------------------------------------
  // Cells
  // ---------------------------------------------------------------------------

  /** A value of a type byte and a size: raw bytes when the byte is no type. */
  function ReadTagged(tag: byte, size: nat, s: seq<byte>): Parse<Value> {
    match DataTypeOf(tag)
    case Some(d) => ReadValue(d, size, s)
    case None => (var (b, rest) :- Take(size, s); Done(Raw(b), rest))
  }

  /** Four bytes of size; in a CALL row and a column of type NULL (0), one byte of type. */
  lemma CellLayout(column: byte, call: bool, s: seq<byte>)
    requires DataTypeOf(column).Some? && |s| >= 5
    ensures var size, dt := Signed(s[..4]), DataTypeOf(column).value;
            && (size <= 0 ==> ReadCell(dt, call, s) == Done(Null, s[4..]))
            && (size == 1 && (call || column == 0) ==> ReadCell(dt, call, s) == Done(Null, s[5..]))
            && (size > 1 && (call || column == 0) ==> ReadCell(dt, call, s) == ReadTagged(s[4], size - 1, s[5..]))
            && (size > 0 && !call && column != 0 ==> ReadCell(dt, call, s) == ReadTagged(column, size, s[4..]))
  {
    Pow256Widths();
    NumberBytes();
    DataTypeOfCode(NullType);
    hide Signed, ReadValue, DataTypeOf;
    assert s[4..][1..] == s[5..];
  }

  /** The texts are 1 to 4, 7 and 25; the raw types 5, 6, 16 to 19, 23 and 24; 20 and above 25 are none. */
  lemma TextAndRawLayout(tag: byte, size: nat, s: seq<byte>)
    requires |s| >= size
    ensures 1 <= tag <= 4 || tag == 7 || tag == 25 ==>
              ReadTagged(tag, size, s)
              == match Utf8.Decode(Utf8.StripBytes(s[..size]))
                 case Some(t) => Done(Str(t), s[size..])
                 case None => Fail(InvalidPacket)
    ensures tag == 5 || tag == 6 || 16 <= tag <= 20 || 23 <= tag <= 24 || tag > 25 ==>
              ReadTagged(tag, size, s) == Done(Raw(s[..size]), s[size..])
  {
    hide Utf8.Decode, Utf8.StripBytes;
    DataTypeBytes(tag);
    hide DataTypeOf;
  }

  /** Integers: 9 is 16 bits, 8 is 32 and 21 is 64; 0 is NULL. */
  lemma IntegerLayout(size: nat, s: seq<byte>)
    requires |s| >= 8
    ensures ReadTagged(0, size, s) == Done(Null, s)
    ensures -0x8000 <= Signed(s[..2]) < 0x8000 && ReadTagged(9, size, s) == Done(Short(Signed(s[..2])), s[2..])
    ensures -0x8000_0000 <= Signed(s[..4]) < 0x8000_0000
            && ReadTagged(8, size, s) == Done(Int(Signed(s[..4])), s[4..])
    ensures -0x8000_0000_0000_0000 <= Signed(s[..8]) < 0x8000_0000_0000_0000
            && ReadTagged(21, size, s) == Done(Long(Signed(s[..8])), s[8..])
  {
    hide Signed;
    Pow256Widths();
    NumberBytes();
    hide DataTypeOf;
  }

  /** Floating point: 11 is a single pattern, 10 and 12 are double patterns. */
  lemma FloatLayout(size: nat, s: seq<byte>)
    requires |s| >= 8
    ensures Unsigned(s[..4]) < 0x1_0000_0000 && ReadTagged(11, size, s) == Done(Float(Unsigned(s[..4])), s[4..])
    ensures Unsigned(s[..8]) < 0x1_0000_0000_0000_0000
            && ReadTagged(10, size, s) == ReadTagged(12, size, s) == Done(Double(Unsigned(s[..8])), s[8..])
  {
    hide Unsigned;
    Pow256Widths();
    NumberBytes();
    hide DataTypeOf;
  }

  /** Dates and times: year, month, day, hour, minute, second, millisecond, in two bytes each. */
  lemma ClockLayout(size: nat, s: seq<byte>)
    requires |s| >= 14
    ensures ReadTagged(13, size, s) == Done(Date(Signed(s[..2]), Signed(s[2..4]), Signed(s[4..6])), s[6..])
    ensures ReadTagged(14, size, s) == Done(Time(Signed(s[..2]), Signed(s[2..4]), Signed(s[4..6])), s[6..])
    ensures ReadTagged(15, size, s)
            == Done(Timestamp(Signed(s[..2]), Signed(s[2..4]), Signed(s[4..6]), Signed(s[6..8]), Signed(s[8..10]),
                              Signed(s[10..12])), s[12..])
    ensures ReadTagged(22, size, s)
            == Done(Datetime(Signed(s[..2]), Signed(s[2..4]), Signed(s[4..6]), Signed(s[6..8]), Signed(s[8..10]),
                             Signed(s[10..12]), Signed(s[12..14])), s[14..])
  {
    hide Signed, ReadTriple;
    ClockBytes();
    hide DataTypeOf;
    TripleLayout(s);
    TripleLayout(s[6..]);
    assert s[6..][..2] == s[6..8] && s[6..][2..4] == s[8..10] && s[6..][4..6] == s[10..12] && s[6..][6..] == s[12..];
    assert s[12..][..2] == s[12..14] && s[12..][2..] == s[14..];
  }

  lemma TripleLayout(s: seq<byte>)
    requires |s| >= 6
    ensures -0x8000 <= Signed(s[..2]) < 0x8000 && -0x8000 <= Signed(s[2..4]) < 0x8000
            && -0x8000 <= Signed(s[4..6]) < 0x8000
    ensures ReadTriple(s) == Done((Signed(s[..2]), Signed(s[2..4]), Signed(s[4..6])), s[6..])
  {
    hide Signed;
    Pow256Widths();
    assert s[2..][..2] == s[2..4] && s[2..][2..] == s[4..] && s[4..][..2] == s[4..6] && s[4..][2..] == s[6..];
  }

  // ---------------------------------------------------------------------------
  // Column types and protocol versions
  // ---------------------------------------------------------------------------

  /** A type is one byte, or a byte from 0x80 and another one. */
  lemma ColumnTypeLayout(legacy: byte, code: byte, rest: seq<byte>)
    ensures legacy < 0x80 && DataTypeOf(legacy).Some? ==>
              ReadColumnType([legacy] + rest) == Done(DataTypeOf(legacy).value, rest)
    ensures legacy >= 0x80 && DataTypeOf(code).Some? ==>
              ReadColumnType([legacy, code] + rest) == Done(DataTypeOf(code).value, rest)
    ensures legacy >= 0x80 && DataTypeOf(code).None? ==>
              ReadColumnType([legacy, code] + rest) == Fail(UnsupportedType(code))
  {
    hide DataTypeOf;
    assert ([legacy] + rest)[1..] == rest;
    assert ([legacy, code] + rest)[1..] == [code] + rest;
    assert ([code] + rest)[1..] == rest;
  }

  /** After the result infos come nothing up to version 1, a byte up to version 4, and five bytes from version 5. */
  lemma VersionLayout(proto: int, s: seq<byte>)
    requires |s| >= 10 && s[1..5] == [0, 0, 0, 0]
    ensures ReadExecuted(proto, s) == Done([], if proto <= 1 then s[5..] else if proto <= 4 then s[6..] else s[10..])
  {
    BigEndianBytes(0, 0, 0, 0);
    hide Signed, Unsigned;
    assert s[1..][..4] == s[1..5] && s[1..][4..] == s[5..];
    assert s[5..][1..] == s[6..] && s[6..][4..] == s[10..];
  }

  // ---------------------------------------------------------------------------
  // Whole replies
  // ---------------------------------------------------------------------------

  /** A token, a code, and what follows. */
  lemma HeaderBytes(code: byte, rest: seq<byte>)
    requires code < 0x80
    ensures EncodeHeader([1, 2, 3, 4], code, rest) == [1, 2, 3, 4, 0, 0, 0, code] + rest
  {
    SmallInts(code);
    hide Be32;
  }

  lemma TextBytes(w: WireText, body: seq<byte>, rest: seq<byte>)
    requires w.Body() == body && |body| < 0x80
    ensures EncodeString(w, rest) == [0, 0, 0, |body|] + (body + rest)
  {
    SmallInts(|body|);
    hide Be32, WireText.Body;
  }

  lemma TextBodies()
    ensures WireText("id", 1).Body() == [0x69, 0x64, 0] && WireText("i", 1).Body() == [0x69, 0]
    ensures WireText("t", 0).Body() == [0x74] && WireText("", 0).Body() == []
    ensures WireText("id", 1).Fits() && WireText("i", 1).Fits() && WireText("t", 0).Fits() && WireText("", 0).Fits()
  {
    assert "id"[1..] == "d" && "d"[1..] == "" && "i"[1..] == "" && "t"[1..] == "";
    assert Utf8.Encode("d") == [0x64] && Utf8.Encode("id") == [0x69, 0x64];
    assert Utf8.Encode("i") == [0x69] && Utf8.Encode("t") == [0x74];
    assert Zeros(1) == [0] && Zeros(0) == [];
  }

  /** An INT column `id` of table `t`, really called `i`, of scale 2 and precision 10: nullable, with an empty default,
      auto-increment and primary key, and with the flags that are skipped set. */
  const ID: WireColumn :=
    WireColumn(None, IntType, 2, 10, WireText("id", 1), WireText("i", 1), WireText("t", 0), 1, WireText("", 0),
               1, 0, 1, 1, 1, 0, 1)

  function ColumnLiteral(rest: seq<byte>): seq<byte> {
    [8] + ([0, 2] + ([0, 0, 0, 10] + ([0, 0, 0, 3] + ([0x69, 0x64, 0] + ([0, 0, 0, 2] + ([0x69, 0]
    + ([0, 0, 0, 1] + ([0x74] + ([1] + ([0, 0, 0, 0] + ([] + ([1, 0, 1, 1, 1, 0, 1] + rest))))))))))))
  }

  function IdMeaning(): ColumnMetaData {
    ColumnMetaData(IntType, 2, 10, "id", "i", "t", true, "", true, false, true, false)
  }

  lemma ColumnMeans()
    ensures ID.Fits() && ID.Meaning() == IdMeaning()
  {
    TextBodies();
    hide WireText.Fits;
  }

  lemma ColumnBytes(rest: seq<byte>)
    ensures EncodeColumn(ID, rest) == ColumnLiteral(rest)
  {
    IntTypeByte();
    SmallInts(2);
    SmallInts(10);
    TextBodies();
    hide Be16, Be32, EncodeString, DataType.Code, WireText.Body, WireText.Fits;
    var flags: seq<byte> := [1, 0, 1, 1, 1, 0, 1] + rest;
    var nullable := [1] + EncodeString(WireText("", 0), flags);
    var table := EncodeString(WireText("t", 0), nullable);
    var realName := EncodeString(WireText("i", 1), table);
    TextBytes(WireText("", 0), [], flags);
    TextBytes(WireText("t", 0), [0x74], nullable);
    TextBytes(WireText("i", 1), [0x69, 0], table);
    TextBytes(WireText("id", 1), [0x69, 0x64, 0], realName);
  }

  lemma IntTypeByte()
    ensures IntType.Code() == 8
  {
  }

  /** The description of a SELECT with one bind parameter and that column. */
  const STATEMENT: WireStatement := WireStatement(0, 21, 1, 0, [ID])

  function StatementLiteral(rest: seq<byte>): seq<byte> {
    [0, 0, 0, 0] + ([21] + ([0, 0, 0, 1] + ([0] + ([0, 0, 0, 1] + ColumnLiteral(rest)))))
  }

  lemma StatementLayout(rest: seq<byte>)
    ensures EncodeDescribed(STATEMENT, rest) == StatementLiteral(rest)
  {
    SmallInts(0);
    SmallInts(1);
    ColumnBytes(rest);
    hide Be32, EncodeColumn, ColumnLiteral;
    assert [ID][1..] == [];
    assert EncodeColumns([ID], rest) == EncodeColumn(ID, rest);
  }

  lemma StatementMeans()
    ensures STATEMENT.Fits() && STATEMENT.Meaning() == Described(StatementTypeOf(21), 1, [IdMeaning()])
  {
    ColumnMeans();
    hide IdMeaning, WireColumn.Meaning, WireColumn.Fits, StatementTypeOf;
    assert [ID][1..] == [];
    assert ColumnsMeaning([ID]) == [ID.Meaning()];
  }

  /** Two rows were selected; the last two fields are there from versions 2 and 5. */
  const EXECUTION: WireExecution := WireExecution(0, [WireInfo(21, 2, [9, 8, 7, 6, 5, 4, 3, 2], 0, 0)], 1, 3)

  function ExecutionLiteral(rest: seq<byte>): seq<byte> {
    [0] + ([0, 0, 0, 1] + ([21] + ([0, 0, 0, 2] + ([9, 8, 7, 6, 5, 4, 3, 2] + ([0, 0, 0, 0] + ([0, 0, 0, 0]
    + ([1] + ([0, 0, 0, 3] + rest))))))))
  }

  lemma ExecutionBytes(rest: seq<byte>)
    ensures EncodeExecuted(EXECUTION, 7, rest) == ExecutionLiteral(rest) && EXECUTION.Fits()
    ensures InfosMeaning(EXECUTION.infos) == [ResultInfo(StatementTypeOf(21), 2, [9, 8, 7, 6, 5, 4, 3, 2])]
  {
    SmallInts(0);
    SmallInts(1);
    SmallInts(2);
    SmallInts(3);
    hide Be32, StatementTypeOf;
    var info := EXECUTION.infos[0];
    assert EXECUTION.infos[1..] == [];
    var extra := [1] + (Be32(3) + rest);
    assert EncodeInfos(EXECUTION.infos, extra) == EncodeInfo(info, extra);
  }

  /** One row, of the number 42. */
  const ROW: WireRow := WireRow(1, [2, 3, 4, 5, 6, 7, 8, 9], [Plain(Int(42), 0)])

  function RowLiteral(rest: seq<byte>): seq<byte> {
    [0, 0, 0, 1] + ([2, 3, 4, 5, 6, 7, 8, 9] + ([0, 0, 0, 4] + ([0, 0, 0, 42] + rest)))
  }

  lemma CellBytes(rest: seq<byte>)
    ensures EncodeCell(Plain(Int(42), 0), rest) == [0, 0, 0, 4] + ([0, 0, 0, 42] + rest)
  {
    SmallInts(4);
    SmallInts(42);
    hide Be32;
  }

  lemma RowBytes(rest: seq<byte>)
    ensures EncodeRows([ROW], rest) == RowLiteral(rest)
  {
    SmallInts(1);
    CellBytes(rest);
    hide Be32, EncodeCell;
    assert [ROW][1..] == [] && ROW.cells[1..] == [];
    assert EncodeCells(ROW.cells, rest) == EncodeCell(Plain(Int(42), 0), rest);
  }

  lemma RowMeans()
    ensures RowFits(ROW, [IdMeaning()], false) && RowsMeaning([ROW]) == [[Int(42)]]
  {
    assert [ROW][1..] == [] && ROW.cells[1..] == [];
    assert CellsMeaning(ROW.cells) == [Int(42)];
  }

  /** An FC=41 reply of protocol version 7, byte by byte. */
  function SelectLiteral(tail: seq<byte>): seq<byte> {
    var rows := [0, 0, 0, 0] + ([0, 0, 0, 1] + RowLiteral(tail));
    [1, 2, 3, 4, 0, 0, 0, 7] + StatementLiteral([0, 0, 0, 2] + ExecutionLiteral(rows))
  }

  function SelectReply(tail: seq<byte>): WireReply {
    WireReply([1, 2, 3, 4], 7, STATEMENT, 2, EXECUTION, Some(WireInline(0, 1, [ROW])), tail)
  }

  lemma SelectBytes(tail: seq<byte>)
    ensures EncodeReply(SelectReply(tail), 7) == SelectLiteral(tail)
  {
    SmallInts(0);
    SmallInts(1);
    SmallInts(2);
    RowBytes(tail);
    hide Be32, EncodeRows, RowLiteral, StatementLiteral, ExecutionLiteral, EncodeDescribed, EncodeExecuted,
      EncodeHeader;
    var rows := EncodeInline(Some(WireInline(0, 1, [ROW])), tail);
    ExecutionBytes(rows);
    var rest := [0, 0, 0, 2] + ExecutionLiteral(rows);
    StatementLayout(rest);
    HeaderBytes(7, StatementLiteral(rest));
  }

  lemma SelectMeans(tail: seq<byte>)
    ensures SelectReply(tail).Fits()
    ensures SelectReply(tail).Meaning()
            == PrepareAndExecuteResult(7, StatementTypeOf(21), 1, [IdMeaning()], 2,
                                       [ResultInfo(StatementTypeOf(21), 2, [9, 8, 7, 6, 5, 4, 3, 2])], 1, [[Int(42)]])
  {
    RowMeans();
    StatementBytes(21);
    StatementMeans();
    ExecutionBytes([]);
    hide RowsMeaning, RowFits, IdMeaning, StatementTypeOf, WireStatement.Fits, WireExecution.Fits, InfosMeaning,
      ColumnsMeaning;
  }

  lemma SelectReplyBytes(tail: seq<byte>)
    ensures ReadPrepareAndExecute(SelectLiteral(tail), 7).Result()
            == Ok((PrepareAndExecuteResult(7, StatementTypeOf(21), 1, [IdMeaning()], 2,
                                           [ResultInfo(StatementTypeOf(21), 2, [9, 8, 7, 6, 5, 4, 3, 2])], 1,
                                           [[Int(42)]]), [1, 2, 3, 4]))
  {
    hide IdMeaning, StatementTypeOf, EncodeReply, ReadPrepareAndExecute, WireReply.Fits, WireReply.Meaning,
      SelectLiteral;
    SelectBytes(tail);
    SelectMeans(tail);
    ReplyInverts(SelectReply(tail), 7);
  }

  /** An FC=2 reply, byte by byte. */
  lemma PrepareReplyBytes(tail: seq<byte>)
    ensures ReadPrepare([1, 2, 3, 4, 0, 0, 0, 7] + StatementLiteral(tail)).Result()
            == Ok((PrepareResult(7, StatementTypeOf(21), 1, [IdMeaning()]), [1, 2, 3, 4]))
  {
    hide IdMeaning, StatementTypeOf, StatementLiteral, EncodeDescribed, EncodeHeader, ReadPrepare, WireStatement.Fits,
      WireStatement.Meaning;
    StatementLayout(tail);
    StatementMeans();
    HeaderBytes(7, StatementLiteral(tail));
    PrepareInverts([1, 2, 3, 4], 7, STATEMENT, tail);
  }

  /** An FC=3 reply of protocol version 7, byte by byte. */
  lemma ExecuteReplyBytes(tail: seq<byte>)
    ensures var rows := [0, 0, 0, 0] + ([0, 0, 0, 1] + RowLiteral(tail));
            ReadExecute([1, 2, 3, 4, 0, 0, 0, 2] + ExecutionLiteral(rows), [IdMeaning()], StatementTypeOf(21),
                        7).Result()
            == Ok((ExecuteResult(2, [ResultInfo(StatementTypeOf(21), 2, [9, 8, 7, 6, 5, 4, 3, 2])], 1, [[Int(42)]]),
                   [1, 2, 3, 4]))
  {
    SmallInts(0);
    SmallInts(1);
    RowBytes(tail);
    RowMeans();
    StatementBytes(21);
    hide Be32, EncodeRows, RowLiteral, RowsMeaning, RowFits, IdMeaning, StatementTypeOf, ExecutionLiteral,
      EncodeExecuted, EncodeHeader, ReadExecute, WireExecution.Fits, InfosMeaning;
    var inline := WireInline(0, 1, [ROW]);
    var rows := EncodeInline(Some(inline), tail);
    ExecutionBytes(rows);
    HeaderBytes(2, ExecutionLiteral(rows));
    ExecuteInverts([1, 2, 3, 4], 2, EXECUTION, 7, Some(inline), tail, [IdMeaning()], StatementTypeOf(21));
  }

  /** An FC=8 reply, byte by byte. */
  lemma FetchReplyBytes(tail: seq<byte>)
    ensures ReadFetch([1, 2, 3, 4, 0, 0, 0, 0] + ([0, 0, 0, 1] + RowLiteral(tail)), [IdMeaning()],
                      StatementTypeOf(21)).Result()
            == Ok((FetchResult(1, [[Int(42)]]), [1, 2, 3, 4]))
  {
    SmallInts(1);
    RowBytes(tail);
    RowMeans();
    StatementBytes(21);
    hide Be32, EncodeRows, RowLiteral, RowsMeaning, RowFits, IdMeaning, StatementTypeOf, EncodeHeader, ReadFetch;
    HeaderBytes(0, [0, 0, 0, 1] + RowLiteral(tail));
    FetchInverts([1, 2, 3, 4], 0, [ROW], tail, [IdMeaning()], StatementTypeOf(21));
  }

  /** A flag is set by the byte 1 alone. */
  lemma FlagBytes(b: byte, rest: seq<byte>)
    ensures ReadFlag([b] + rest) == Done(b == 1, rest)
  {
    assert ([b] + rest)[1..] == rest;
  }

  // ---------------------------------------------------------------------------
  // Bind parameters
  // ---------------------------------------------------------------------------

  /** The type byte that each value is bound under. */
  lemma BindTypes(v: Value)
    ensures BindTag(v)
            == match v
               case Null => 0
               case Bool(_) => 9
               case Short(_) => 9
               case Int(_) => 8
               case Long(_) => 21
               case Float(_) => 11
               case Double(_) => 12
               case Str(_) => 2
               case Raw(_) => 6
               case Date(_, _, _) => 22
               case Time(_, _, _) => 14
               case Timestamp(_, _, _, _, _, _) => 15
               case Datetime(_, _, _, _, _, _, _) => 22
  {
  }

  /** A boolean is bound as the short 1 or 0, and NULL as a size of zero. */
  lemma BoolBytes(b: bool)
    ensures BindCell(Null) == [0, 0, 0, 0]
    ensures BindCell(Bool(b)) == [0, 0, 0, 3, 9, 0, if b then 1 else 0]
    ensures Canonical(Bool(b)) == Short(if b then 1 else 0)
  {
    SmallInts(0);
    SmallInts(1);
    SmallInts(3);
    BindTypes(Bool(b));
    hide Be16, Be32, BindTag;
  }

  /** A date is bound as a datetime at midnight: fifteen bytes, type 22, seven shorts. */
  lemma DateBytes(y: i16, m: i16, d: i16)
    ensures BindCell(Date(y, m, d))
            == [0, 0, 0, 15] + ([22] + (Be16(y) + (Be16(m) + (Be16(d) + [0, 0, 0, 0, 0, 0, 0, 0]))))
  {
    SmallInts(15);
    BindTypes(Date(y, m, d));
    Midnight();
    hide Be16, Be32, BindTag, Triple;
    Regroup(Triple(y, m, d), Triple(0, 0, 0), Be16(0));
    Spread(y, m, d, [0, 0, 0, 0, 0, 0, 0, 0]);
  }

  lemma Midnight()
    ensures Triple(0, 0, 0) + Be16(0) == [0, 0, 0, 0, 0, 0, 0, 0]
  {
    SmallInts(0);
    hide Be16;
  }

  lemma Spread(a: i16, b: i16, c: i16, rest: seq<byte>)
    ensures Triple(a, b, c) + rest == Be16(a) + (Be16(b) + (Be16(c) + rest)) && |Triple(a, b, c)| == 6
  {
    hide Be16;
  }
}
