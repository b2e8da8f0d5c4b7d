/** What the response parsers do on arbitrary bytes: exactly when they panic, and that nothing but an
    encoding is accepted. */
module Malformed {
  import opened Bytes
  import opened Wrappers
  import opened Types
  import opened Codec
  import opened Rows
  import opened Response
  import opened Replies
  import Utf8

  // ---------------------------------------------------------------------------
  // Panics: only a negative count makes `with_capacity` panic
  // ---------------------------------------------------------------------------

  lemma TextNeverPanics()
    ensures forall n, s :: !ReadText(n, s).Panic?
  {
  }

  lemma ColumnNeverPanics(s: seq<byte>)
    ensures !ReadColumn(s).Panic?
  {
    TextNeverPanics();
    hide ReadText, Signed, DataTypeOf;
  }

  lemma {:induction false} ColumnsNeverPanic(n: nat, s: seq<byte>)
    ensures !Many(ColumnReader, n, s).Panic?
  {
    hide ReadColumn;
    if n > 0 {
      ColumnNeverPanics(s);
      assert ColumnReader(s) == ReadColumn(s);
      if ReadColumn(s).Done? { ColumnsNeverPanic(n - 1, ReadColumn(s).rest); }
    }
  }

  lemma {:induction false} InfosNeverPanic(n: nat, s: seq<byte>)
    ensures !Many(InfoReader, n, s).Panic?
  {
    hide StatementTypeOf, Signed;
    if n > 0 && ReadInfo(s).Done? { InfosNeverPanic(n - 1, ReadInfo(s).rest); }
  }

  lemma ValueNeverPanics(dt: DataType, size: nat, s: seq<byte>)
    ensures !ReadValue(dt, size, s).Panic?
  {
    TextNeverPanics();
    hide ReadText, Signed, Unsigned;
  }

  lemma CellNeverPanics(dt: DataType, call: bool, s: seq<byte>)
    ensures !ReadCell(dt, call, s).Panic?
  {
    hide ReadValue, Signed, DataTypeOf;
    if |s| >= 4 {
      var size, body := ReadInt(s).value, ReadInt(s).rest;
      if size > 0 { ValueNeverPanics(dt, size, body); }
      if size > 0 && body != [] {
        var d := DataTypeOf(body[0]);
        if d.Some? { ValueNeverPanics(d.value, size - 1, body[1..]); }
      }
    }
  }

  lemma {:induction false} CellsNeverPanic(columns: seq<ColumnMetaData>, call: bool, s: seq<byte>)
    ensures !ReadCells(columns, call, s).Panic?
    decreases columns
  {
    hide ReadCell;
    if columns != [] {
      CellNeverPanics(columns[0].columnType, call, s);
      var v := ReadCell(columns[0].columnType, call, s);
      if v.Done? { CellsNeverPanic(columns[1..], call, v.rest); }
    }
  }

  lemma {:induction false} RowsNeverPanic(n: nat, columns: seq<ColumnMetaData>, call: bool, s: seq<byte>)
    ensures !Many(RowReader(columns, call), n, s).Panic?
    decreases n
  {
    hide ReadCells, Signed;
    if n > 0 {
      assert RowReader(columns, call)(s) == ReadRow(columns, call, s);
      if |s| >= 12 { CellsNeverPanic(columns, call, s[4..][8..]); }
      if ReadRow(columns, call, s).Done? { RowsNeverPanic(n - 1, columns, call, ReadRow(columns, call, s).rest); }
    }
  }

  lemma ExecutedPanics(proto: int, s: seq<byte>)
    ensures ReadExecuted(proto, s).Panic? <==> |s| >= 5 && Signed(s[1..5]) < 0
  {
    hide Signed;
    if |s| >= 5 {
      assert s[1..][..4] == s[1..5];
      Pow256Widths();
      if Signed(s[1..5]) >= 0 { InfosNeverPanic(Signed(s[1..5]), s[1..][4..]); }
    }
  }

  lemma DescribedPanics(s: seq<byte>)
    ensures ReadDescribed(s).Panic? <==> |s| >= 14 && Signed(s[10..14]) < 0
    ensures |s| >= 14 && Signed(s[10..14]) >= 0 && Many(ColumnReader, Signed(s[10..14]), s[14..]).Done?
            <==> ReadDescribed(s).Done?
    ensures ReadDescribed(s).Done? ==>
              && ReadDescribed(s).rest == Many(ColumnReader, Signed(s[10..14]), s[14..]).rest
              && ReadDescribed(s).value.columns == Many(ColumnReader, Signed(s[10..14]), s[14..]).value
  {
    hide Signed, StatementTypeOf, Many;
    if |s| >= 14 {
      assert s[4..][1..][4..][1..] == s[10..];
      assert s[10..][..4] == s[10..14];
      assert s[10..][4..] == s[14..];
      Pow256Widths();
      if Signed(s[10..14]) >= 0 { ColumnsNeverPanic(Signed(s[10..14]), s[14..]); }
    }
  }

  /** The header of data announces a success. */
  predicate Succeeds(data: seq<byte>) {
    |data| >= 8 && Signed(data[4..8]) >= 0
  }

  lemma HeaderReads(data: seq<byte>)
    ensures !ReadHeader(data).Panic?
    ensures ReadHeader(data).Done? <==> Succeeds(data)
    ensures Succeeds(data) ==> ReadHeader(data) == Done((data[..4], Signed(data[4..8])), data[8..])
  {
    TextNeverPanics();
    hide Signed, ReadText;
    if |data| >= 8 {
      assert data[4..][..4] == data[4..8];
      assert data[4..][4..] == data[8..];
      Pow256Widths();
    }
  }

  lemma Window(data: seq<byte>)
    requires |data| >= 22
    ensures data[8..][10..14] == data[18..22] && data[8..][14..] == data[22..]
  {
  }

  lemma CountWindow(s: seq<byte>)
    requires |s| >= 9
    ensures s[4..][1..5] == s[5..9]
  {
  }

  /** FC=2: the column count sits at a fixed place. */
  lemma PreparePanics(data: seq<byte>)
    ensures ReadPrepare(data).Panic? <==> Succeeds(data) && |data| >= 22 && Signed(data[18..22]) < 0
  {
    hide ReadHeader, ReadDescribed, Signed;
    HeaderReads(data);
    if Succeeds(data) {
      DescribedPanics(data[8..]);
      if |data| >= 22 { Window(data); }
    }
  }

  /** FC=3: the result count sits at a fixed place. */
  lemma ExecutePanics(data: seq<byte>, columns: seq<ColumnMetaData>, stmt: StatementType, proto: int)
    ensures ReadExecute(data, columns, stmt, proto).Panic?
            <==> Succeeds(data) && |data| >= 13 && Signed(data[9..13]) < 0
  {
    hide ReadHeader, ReadExecuted, Signed, ReadInline;
    HeaderReads(data);
    if Succeeds(data) {
      ExecutedPanics(proto, data[8..]);
      if |data| >= 13 { assert data[8..][1..5] == data[9..13]; }
      var e := ReadExecuted(proto, data[8..]);
      if e.Done? { InlineNeverPanics(columns, stmt, true, e.rest); }
    }
  }

  lemma InlineNeverPanics(columns: seq<ColumnMetaData>, stmt: StatementType, lenient: bool, s: seq<byte>)
    ensures !ReadInline(columns, stmt, lenient, s).Panic?
  {
    hide Signed, Many, RowReader;
    if |s| >= 8 {
      var count := Signed(s[4..][..4]);
      if count > 0 { RowsNeverPanic(count, columns, stmt.IsCall(), s[4..][4..]); }
    }
  }

  /** FC=41: either count, the second one wherever the columns end. */
  lemma PrepareAndExecutePanics(data: seq<byte>, proto: int)
    ensures ReadPrepareAndExecute(data, proto).Panic? <==>
              && Succeeds(data) && |data| >= 22
              && (|| Signed(data[18..22]) < 0
                  || (var columns := Many(ColumnReader, Signed(data[18..22]), data[22..]);
                      columns.Done? && |columns.rest| >= 9 && Signed(columns.rest[5..9]) < 0))
  {
    hide ReadHeader, ReadDescribed, Signed, ReadExecuted, ReadInline, Many;
    HeaderReads(data);
    if Succeeds(data) {
      DescribedPanics(data[8..]);
      if |data| >= 22 { Window(data); }
      var d := ReadDescribed(data[8..]);
      if d.Done? {
        if |d.rest| >= 4 {
          ExecutedPanics(proto, d.rest[4..]);
          if |d.rest| >= 9 { CountWindow(d.rest); }
          var e := ReadExecuted(proto, d.rest[4..]);
          if e.Done? { InlineNeverPanics(d.value.columns, d.value.statementType, false, e.rest); }
        }
      }
    }
  }

  /** FC=8 and the replies without vectors never panic. */
  lemma OthersNeverPanic(data: seq<byte>, columns: seq<ColumnMetaData>, stmt: StatementType)
    ensures !ReadFetch(data, columns, stmt).Panic?
    ensures !ReadSimple(data).Panic?
    ensures !ReadDbVersion(data).Panic?
  {
    TextNeverPanics();
    hide ReadHeader, Signed, ReadText, Many, RowReader;
    HeaderReads(data);
    if Succeeds(data) && |data| >= 12 {
      var count := Signed(data[8..][..4]);
      if count > 0 { RowsNeverPanic(count, columns, stmt.IsCall(), data[8..][4..]); }
    }
  }

  lemma MinusOneAndZero()
    ensures Signed([255, 255, 255, 255]) == -1 && Signed([0, 0, 0, 0]) == 0
  {
    Pow256Widths();
    var ones: seq<byte> := [255, 255, 255, 255];
    var zeros: seq<byte> := [0, 0, 0, 0];
    assert ones[..3] == [255, 255, 255] && ones[..3][..2] == [255, 255] && ones[..3][..2][..1] == [255];
    assert zeros[..3] == [0, 0, 0] && zeros[..3][..2] == [0, 0] && zeros[..3][..2][..1] == [0];
    assert Unsigned([255]) == 255 && Unsigned([255, 255]) == 0xffff && Unsigned([255, 255, 255]) == 0xff_ffff;
    assert Unsigned([0]) == 0 && Unsigned([0, 0]) == 0 && Unsigned([0, 0, 0]) == 0;
  }

  lemma FourAt(s: seq<byte>, i: nat)
    requires i + 4 <= |s|
    ensures s[i..i + 4] == [s[i], s[i + 1], s[i + 2], s[i + 3]]
  {
  }

  /** Packets that do it: a column count of -1. */
  lemma ColumnCountPanics(proto: int)
    ensures var p := [0, 0, 0, 0, 0, 0, 0, 0, 0, 0, 0, 0, 21, 0, 0, 0, 0, 0, 255, 255, 255, 255];
            ReadPrepare(p).Panic? && ReadPrepareAndExecute(p, proto).Panic?
  {
    hide Signed, ReadPrepare, ReadPrepareAndExecute, Many;
    MinusOneAndZero();
    var p: seq<byte> := [0, 0, 0, 0, 0, 0, 0, 0, 0, 0, 0, 0, 21, 0, 0, 0, 0, 0, 255, 255, 255, 255];
    FourAt(p, 4);
    FourAt(p, 18);
    PreparePanics(p);
    PrepareAndExecutePanics(p, proto);
  }

  /** A result count of -1. */
  lemma ResultCountPanics(columns: seq<ColumnMetaData>, stmt: StatementType, proto: int)
    ensures ReadExecute([0, 0, 0, 0, 0, 0, 0, 0, 0, 255, 255, 255, 255], columns, stmt, proto).Panic?
  {
    hide Signed, ReadExecute;
    MinusOneAndZero();
    var p: seq<byte> := [0, 0, 0, 0, 0, 0, 0, 0, 0, 255, 255, 255, 255];
    FourAt(p, 4);
    FourAt(p, 9);
    ExecutePanics(p, columns, stmt, proto);
  }

  // ---------------------------------------------------------------------------
  // Soundness: what the parsers of replies without rows accept is an encoding
  // ---------------------------------------------------------------------------

  /** Longer inputs than this cannot exist in memory. */
  const MAX_INPUT: int := 0x8000_0000_0000_0000

  lemma IntIsBe32(s: seq<byte>)
    requires |s| >= 4
    ensures ReadInt(s).Done? && s == Be32(ReadInt(s).value) + ReadInt(s).rest
  {
    Be32OfSigned(s[..4]);
  }

  lemma ShortIsBe16(s: seq<byte>)
    requires |s| >= 2
    ensures ReadShort(s).Done? && s == Be16(ReadShort(s).value) + ReadShort(s).rest
  {
    Be16OfSigned(s[..2]);
  }

  lemma StringSound(s: seq<byte>) returns (w: WireText)
    requires ReadString(s).Done? && |s| < MAX_INPUT
    ensures w.Fits() && w.text == ReadString(s).value
    ensures s == EncodeString(w, ReadString(s).rest) && |ReadString(s).rest| <= |s|
  {
    hide Signed, Be32, Utf8.Encode, Utf8.Decode, Utf8.StripBytes, Utf8.NoTrailingNul;
    IntIsBe32(s);
    var n, body := ReadInt(s).value, ReadInt(s).rest;
    var raw := body[..n];
    var kept := Utf8.StripBytes(raw);
    w := WireText(ReadString(s).value, n - |kept|);
    Utf8.EncodeOfDecode(kept);
    Utf8.StripSplits(raw);
    Utf8.EndOfText(w.text);
    assert body == raw + body[n..];
  }

  /** A column that parses is the encoding of a wire column. */
  lemma ColumnSound(s: seq<byte>) returns (w: WireColumn)
    requires ReadColumn(s).Done? && |s| < MAX_INPUT
    ensures w.Fits() && w.Meaning() == ReadColumn(s).value
    ensures s == EncodeColumn(w, ReadColumn(s).rest)
  {
    hide ReadString, EncodeString, ReadColumnType, ReadKeyFlags, Signed, Be16, Be32;
    var legacy := TypeSound(s);
    var dt := ReadColumnType(s);
    ShortIsBe16(dt.rest);
    var scale := ReadShort(dt.rest);
    IntIsBe32(scale.rest);
    var precision := ReadInt(scale.rest);
    var name := StringSound(precision.rest);
    var s1 := ReadString(precision.rest).rest;
    var realName := StringSound(s1);
    var s2 := ReadString(s1).rest;
    var tableName := StringSound(s2);
    var s3 := ReadString(s2).rest;
    var defaultValue := StringSound(s3[1..]);
    var k := ReadString(s3[1..]).rest;
    KeysSound(k);
    w := WireColumn(legacy, dt.value, scale.value, precision.value, name, realName, tableName, s3[0], defaultValue,
                    k[0], k[1], k[2], k[3], k[4], k[5], k[6]);
    assert s3 == [s3[0]] + s3[1..];
  }

  lemma TypeSound(s: seq<byte>) returns (legacy: Option<byte>)
    requires ReadColumnType(s).Done?
    ensures legacy.Some? ==> legacy.value >= 0x80
    ensures var dt := ReadColumnType(s);
            && s == (if legacy.Some? then [legacy.value, dt.value.Code()] else [dt.value.Code()]) + dt.rest
            && |dt.rest| <= |s|
  {
    legacy := if s[0] >= 0x80 then Some(s[0]) else None;
  }

  lemma KeysSound(k: seq<byte>)
    requires ReadKeyFlags(k).Done?
    ensures |k| >= 7 && ReadKeyFlags(k).rest == k[7..]
    ensures ReadKeyFlags(k).value == KeyFlags(k[0] == 1, k[1] == 1, k[2] == 1, k[5] == 1)
    ensures k == [k[0], k[1], k[2], k[3], k[4], k[5], k[6]] + k[7..]
  {
    assert k[1..][1..][1..][1..][1..][1..][1..] == k[7..];
  }

  lemma {:induction false} ColumnsSound(n: nat, s: seq<byte>) returns (ws: seq<WireColumn>)
    requires Many(ColumnReader, n, s).Done? && |s| < MAX_INPUT
    ensures |ws| == n && (forall w :: w in ws ==> w.Fits())
    ensures ColumnsMeaning(ws) == Many(ColumnReader, n, s).value
    ensures s == EncodeColumns(ws, Many(ColumnReader, n, s).rest)
  {
    hide ReadColumn, EncodeColumn;
    if n == 0 {
      ws := [];
    } else {
      assert ColumnReader(s) == ReadColumn(s);
      var w := ColumnSound(s);
      ColumnShrinks(s);
      var rest := ColumnsSound(n - 1, ReadColumn(s).rest);
      ws := [w] + rest;
    }
  }

  lemma ColumnShrinks(s: seq<byte>)
    requires ReadColumn(s).Done?
    ensures |ReadColumn(s).rest| < |s|
  {
    StringShrinks();
    TypeShrinks();
    hide ReadString, Signed, ReadColumnType;
  }

  lemma TypeShrinks()
    ensures forall s :: ReadColumnType(s).Done? ==> |ReadColumnType(s).rest| < |s|
  {
    hide DataTypeOf;
  }

  lemma StringShrinks()
    ensures forall s :: ReadString(s).Done? ==> |ReadString(s).rest| <= |s|
  {
    TextShrinks();
    hide ReadText, Signed;
  }

  lemma TextShrinks()
    ensures forall n, s :: ReadText(n, s).Done? ==> |ReadText(n, s).rest| <= |s|
  {
  }

  /** The FC=2 parser accepts exactly the encodings of successful replies, and on each of them returns what was
      encoded. */
  lemma PrepareExact(data: seq<byte>, result: PrepareResult, cas: CasInfo, tail: seq<byte>)
    requires |data| < MAX_INPUT
    ensures ReadPrepare(data) == Done((result, cas), tail)
            <==> exists w: WireStatement, handle: i32 ::
                   && w.Fits() && handle >= 0 && data == EncodePrepareReply(cas, handle, w, tail)
                   && result == PrepareMeaning(handle, w)
  {
    if ReadPrepare(data) == Done((result, cas), tail) {
      var w, handle := PrepareSound(data);
    }
    forall w: WireStatement, handle: i32 |
      w.Fits() && handle >= 0 && data == EncodePrepareReply(cas, handle, w, tail)
      ensures ReadPrepare(data) == Done((PrepareMeaning(handle, w), cas), tail)
    {
      PrepareInverts(cas, handle, w, tail);
    }
  }

  lemma PrepareSound(data: seq<byte>) returns (w: WireStatement, handle: i32)
    requires ReadPrepare(data).Done? && |data| < MAX_INPUT
    ensures w.Fits() && handle >= 0
    ensures var r := ReadPrepare(data);
            data == EncodePrepareReply(r.value.1, handle, w, r.rest) && r.value.0 == PrepareMeaning(handle, w)
  {
    hide ReadHeader, ReadDescribed, Signed, EncodeDescribed, EncodeHeader;
    HeaderReads(data);
    handle := HeaderSound(data);
    w := DescribedSound(data[8..]);
  }

  lemma HeaderSound(data: seq<byte>) returns (code: i32)
    requires Succeeds(data)
    ensures code == Signed(data[4..8]) >= 0 && data == EncodeHeader(data[..4], code, data[8..])
  {
    hide Signed;
    Pow256Widths();
    code := Signed(data[4..8]);
    IntIsBe32(data[4..]);
    assert data[4..][..4] == data[4..8] && data[4..][4..] == data[8..];
    assert data == data[..4] + data[4..];
  }

  lemma DescribedSound(s: seq<byte>) returns (w: WireStatement)
    requires ReadDescribed(s).Done? && |s| < MAX_INPUT
    ensures w.Fits() && w.Meaning() == ReadDescribed(s).value
    ensures s == EncodeDescribed(w, ReadDescribed(s).rest)
  {
    hide ReadInt, ReadByte, StatementTypeOf, Many, Be32, AsI32, EncodeColumns, ColumnsMeaning;
    IntAt(s);
    var s1 := ReadInt(s).rest;
    ByteAt(s1);
    IntAt(s1[1..]);
    var s2 := ReadInt(s1[1..]).rest;
    ByteAt(s2);
    IntAt(s2[1..]);
    var count, s3 := ReadInt(s2[1..]).value, ReadInt(s2[1..]).rest;
    var columns := ColumnsSound(count, s3);
    w := WireStatement(ReadInt(s).value, s1[0], ReadInt(s1[1..]).value, s2[0], columns);
  }

  lemma IntAt(s: seq<byte>)
    requires ReadInt(s).Done?
    ensures s == Be32(ReadInt(s).value) + ReadInt(s).rest && |ReadInt(s).rest| <= |s|
  {
    IntIsBe32(s);
  }

  lemma ByteAt(s: seq<byte>)
    requires ReadByte(s).Done?
    ensures s != [] && ReadByte(s) == Done(s[0], s[1..]) && s == [s[0]] + s[1..]
  {
  }

  lemma EightAt(s: seq<byte>)
    requires Take(8, s).Done?
    ensures |s| >= 8 && Take(8, s) == Done(s[..8], s[8..]) && s == s[..8] + s[8..]
  {
  }

  lemma InfoSound(s: seq<byte>) returns (w: WireInfo)
    requires ReadInfo(s).Done?
    ensures |w.oid| == 8 && w.Meaning() == ReadInfo(s).value
    ensures s == EncodeInfo(w, ReadInfo(s).rest)
  {
    hide ReadInt, ReadByte, Take, StatementTypeOf, Be32;
    ByteAt(s);
    IntAt(s[1..]);
    var s1 := ReadInt(s[1..]).rest;
    EightAt(s1);
    IntAt(s1[8..]);
    var s2 := ReadInt(s1[8..]).rest;
    IntAt(s2);
    w := WireInfo(s[0], ReadInt(s[1..]).value, s1[..8], ReadInt(s1[8..]).value, ReadInt(s2).value);
  }

  lemma {:induction false} InfosSound(n: nat, s: seq<byte>) returns (ws: seq<WireInfo>)
    requires Many(InfoReader, n, s).Done?
    ensures |ws| == n && (forall w :: w in ws ==> |w.oid| == 8)
    ensures InfosMeaning(ws) == Many(InfoReader, n, s).value
    ensures s == EncodeInfos(ws, Many(InfoReader, n, s).rest)
    decreases n
  {
    hide ReadInfo, EncodeInfo;
    if n == 0 {
      ws := [];
    } else {
      assert InfoReader(s) == ReadInfo(s);
      var w := InfoSound(s);
      var rest := InfosSound(n - 1, ReadInfo(s).rest);
      ws := [w] + rest;
    }
  }

  /** The fields that newer protocols add. */
  lemma ExtraSound(proto: int, s: seq<byte>) returns (columnInfo: byte, shard: i32, rest: seq<byte>)
    requires proto > 1 ==> |s| >= 1
    requires proto > 4 ==> |s| >= 5
    ensures rest == (if proto > 4 then s[5..] else if proto > 1 then s[1..] else s)
    ensures s == (if proto > 1 then [columnInfo] + (if proto > 4 then Be32(shard) + rest else rest) else rest)
  {
    columnInfo, shard, rest := 0, 0, s;
    if proto > 1 {
      columnInfo, rest := s[0], s[1..];
      if proto > 4 {
        IntIsBe32(s[1..]);
        hide Be32, Signed;
        shard, rest := ReadInt(s[1..]).value, s[5..];
        assert s[1..][4..] == s[5..];
      }
    }
  }

  lemma ExecutedSound(proto: int, s: seq<byte>) returns (w: WireExecution)
    requires ReadExecuted(proto, s).Done?
    ensures w.Fits() && InfosMeaning(w.infos) == ReadExecuted(proto, s).value
    ensures s == EncodeExecuted(w, proto, ReadExecuted(proto, s).rest)
  {
    hide ReadInt, ReadByte, Many, Be32, EncodeInfos, InfosMeaning;
    ByteAt(s);
    IntAt(s[1..]);
    var count, s1 := ReadInt(s[1..]).value, ReadInt(s[1..]).rest;
    var infos := InfosSound(count, s1);
    var s2 := Many(InfoReader, count, s1).rest;
    var columnInfo, shard, rest := ExtraSound(proto, s2);
    w := WireExecution(s[0], infos, columnInfo, shard);
    ExtraRead(proto, s, s2, rest);
  }

  lemma ExtraRead(proto: int, s: seq<byte>, s2: seq<byte>, rest: seq<byte>)
    requires ReadExecuted(proto, s).Done? && ReadByte(s).Done? && ReadInt(ReadByte(s).rest).Done?
    requires var n := ReadInt(ReadByte(s).rest);
             n.value >= 0 && Many(InfoReader, n.value, n.rest).Done? && Many(InfoReader, n.value, n.rest).rest == s2
    requires proto > 1 ==> |s2| >= 1
    requires proto > 4 ==> |s2| >= 5
    requires rest == (if proto > 4 then s2[5..] else if proto > 1 then s2[1..] else s2)
    ensures ReadExecuted(proto, s).rest == rest
  {
    hide ReadInt, ReadByte, Many;
    if proto > 4 { assert s2[1..][4..] == s2[5..]; }
  }

  lemma NoRowBlock(columns: seq<ColumnMetaData>, stmt: StatementType, lenient: bool, s: seq<byte>)
    requires !stmt.IsSelect()
    ensures ReadInline(columns, stmt, lenient, s) == Done((0, []), s) && EncodeInline(None, s) == s
  {
  }

  /** For a statement that is no SELECT, the FC=3 parser accepts exactly the encodings of successful replies, and on
      each of them returns what was encoded. */
  lemma ExecuteExact(data: seq<byte>, columns: seq<ColumnMetaData>, stmt: StatementType, proto: int,
                     result: ExecuteResult, cas: CasInfo, tail: seq<byte>)
    requires !stmt.IsSelect()
    ensures ReadExecute(data, columns, stmt, proto) == Done((result, cas), tail)
            <==> exists w: WireExecution, total: i32 ::
                   && w.Fits() && total >= 0 && data == EncodeExecuteReply(cas, total, w, proto, None, tail)
                   && result == ExecuteResult(total, InfosMeaning(w.infos), 0, [])
  {
    hide ReadHeader, ReadExecuted, ReadInline, Signed, EncodeExecuted, EncodeInline, EncodeHeader, InfosMeaning;
    if ReadExecute(data, columns, stmt, proto) == Done((result, cas), tail) {
      HeaderReads(data);
      var total := HeaderSound(data);
      var w := ExecutedSound(proto, data[8..]);
      NoRowBlock(columns, stmt, true, ReadExecuted(proto, data[8..]).rest);
      assert data == EncodeExecuteReply(cas, total, w, proto, None, tail);
    }
    forall w: WireExecution, total: i32 |
      w.Fits() && total >= 0 && data == EncodeExecuteReply(cas, total, w, proto, None, tail)
      ensures ReadExecute(data, columns, stmt, proto)
              == Done((ExecuteResult(total, InfosMeaning(w.infos), 0, []), cas), tail)
    {
      HeaderInverts(cas, total, EncodeExecuted(w, proto, EncodeInline(None, tail)));
      ExecutedInverts(w, proto, EncodeInline(None, tail));
      NoRowBlock(columns, stmt, true, tail);
    }
  }

  /** A reply to a statement that is no SELECT. */
  predicate NoSelect(w: WireReply) {
    w.Fits() && !StatementTypeOf(w.statement.stmt).IsSelect()
  }

  /** The same for the FC=41 parser. */
  lemma PrepareAndExecuteExact(data: seq<byte>, proto: int, result: PrepareAndExecuteResult, cas: CasInfo,
                               tail: seq<byte>)
    requires |data| < MAX_INPUT && !result.statementType.IsSelect()
    ensures ReadPrepareAndExecute(data, proto) == Done((result, cas), tail)
            <==> exists w: WireReply ::
                   && NoSelect(w) && data == EncodeReply(w, proto)
                   && result == w.Meaning() && cas == w.cas && tail == w.tail
  {
    hide ReadPrepareAndExecute, EncodeReply, WireReply.Meaning, NoSelect;
    if ReadPrepareAndExecute(data, proto) == Done((result, cas), tail) {
      var w := PrepareAndExecuteSound(data, proto);
    }
    forall w: WireReply | NoSelect(w) && data == EncodeReply(w, proto)
      ensures ReadPrepareAndExecute(data, proto) == Done((w.Meaning(), w.cas), w.tail)
    {
      NoSelectInverts(w, proto);
    }
  }

  lemma NoSelectInverts(w: WireReply, proto: int)
    requires NoSelect(w)
    ensures ReadPrepareAndExecute(EncodeReply(w, proto), proto) == Done((w.Meaning(), w.cas), w.tail)
  {
    hide ReadHeader, ReadDescribed, ReadExecuted, ReadInline;
    assert w.inline == None;
    var executed := EncodeExecuted(w.execution, proto, w.tail);
    HeaderInverts(w.cas, w.handle, EncodeDescribed(w.statement, Be32(w.total) + executed));
    DescribedInverts(w.statement, Be32(w.total) + executed);
    ScalarsInvert(executed);
    ExecutedInverts(w.execution, proto, w.tail);
    NoRowBlock(ColumnsMeaning(w.statement.columns), StatementTypeOf(w.statement.stmt), false, w.tail);
  }

  lemma PrepareAndExecuteSound(data: seq<byte>, proto: int) returns (w: WireReply)
    requires ReadPrepareAndExecute(data, proto).Done? && |data| < MAX_INPUT
    requires !ReadPrepareAndExecute(data, proto).value.0.statementType.IsSelect()
    ensures var r := ReadPrepareAndExecute(data, proto);
            NoSelect(w) && data == EncodeReply(w, proto) && r.value == (w.Meaning(), w.cas) && r.rest == w.tail
  {
    hide ReadHeader, ReadDescribed, Signed, EncodeDescribed, EncodeHeader, ReadExecuted, EncodeExecuted, ReadInline,
      ReadInt, Be32;
    HeaderReads(data);
    var handle := HeaderSound(data);
    var statement := DescribedSound(data[8..]);
    var d := ReadDescribed(data[8..]);
    IntAt(d.rest);
    var total := ReadInt(d.rest);
    var execution := ExecutedSound(proto, total.rest);
    var tail := ReadExecuted(proto, total.rest).rest;
    NoRowBlock(d.value.columns, d.value.statementType, false, tail);
    w := WireReply(data[..4], handle, statement, total.value, execution, None, tail);
  }
}
