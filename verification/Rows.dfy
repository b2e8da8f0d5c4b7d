/** Row data: cells, rows and `parse_row_data`. */
module Rows {
  import opened Bytes
  import opened Wrappers
  import opened Types
  import opened Codec
  import Utf8

  // ---------------------------------------------------------------------------
  // What the row parser reads
  // ---------------------------------------------------------------------------

  /** `read_value`: the declared size is used by text and raw types only. */
  function ReadValue(dt: DataType, size: nat, s: seq<byte>): Parse<Value> {
    if dt.Textual() then
      var (t, rest) :- ReadText(size, s);
      Done(Str(t), rest)
    else if dt.Opaque() then
      var (b, rest) :- Take(size, s);
      Done(Raw(b), rest)
    else match dt
      case ShortType => (var (v, rest) :- ReadShort(s); Done(Short(v), rest))
      case IntType => (var (v, rest) :- ReadInt(s); Done(Int(v), rest))
      case BigintType => (var (v, rest) :- ReadLong(s); Done(Long(v), rest))
      case FloatType => (var (v, rest) :- ReadFloat(s); Done(Float(v), rest))
      case DoubleType => (var (v, rest) :- ReadDouble(s); Done(Double(v), rest))
      case MonetaryType => (var (v, rest) :- ReadDouble(s); Done(Double(v), rest))
      case DateType => ReadDate(s)
      case TimeType => ReadTime(s)
      case TimestampType => ReadTimestamp(s)
      case DatetimeType => ReadDatetime(s)
      case _ => Done(Null, s)
  }

  /** One cell. In a CALL result, and in a column of type NULL, the first byte names the type. */
  function ReadCell(dt: DataType, call: bool, s: seq<byte>): Parse<Value> {
    var (size, rest) :- ReadInt(s);
    if size <= 0 then Done(Null, rest)
    else if call || dt.NullType? then
      var (tag, rest) :- ReadByte(rest);
      if size == 1 then Done(Null, rest)
      else match DataTypeOf(tag)
        case Some(d) => ReadValue(d, size - 1, rest)
        case None => (var (b, rest) :- Take(size - 1, rest); Done(Raw(b), rest))
    else ReadValue(dt, size, rest)
  }

  function ReadCells(columns: seq<ColumnMetaData>, call: bool, s: seq<byte>): (r: Parse<Row>)
    ensures r.Done? ==> |r.value| == |columns|
  {
    if columns == [] then Done([], s)
    else
      var (v, rest) :- ReadCell(columns[0].columnType, call, s);
      var (vs, rest) :- ReadCells(columns[1..], call, rest);
      Done([v] + vs, rest)
  }

  function ReadRow(columns: seq<ColumnMetaData>, call: bool, s: seq<byte>): Parse<Row> {
    var (_, rest) :- ReadInt(s);
    var (_, rest) :- Take(8, rest);
    ReadCells(columns, call, rest)
  }

  function RowReader(columns: seq<ColumnMetaData>, call: bool): seq<byte> -> Parse<Row> {
    s => ReadRow(columns, call, s)
  }

  /** `parse_row_data`: `with_capacity` panics on a negative count. */
  function ReadRows(count: i32, columns: seq<ColumnMetaData>, stmt: StatementType, s: seq<byte>): Parse<seq<Row>> {
    if count < 0 then Panic else Many(RowReader(columns, stmt.IsCall()), count, s)
  }

  // ---------------------------------------------------------------------------
  // The parser itself
  // ---------------------------------------------------------------------------

  method ParseValue(reader: PacketReader, dt: DataType, size: nat) returns (r: Outcome<Value, ProtocolError>)
    requires reader.Valid()
    modifies reader
    ensures reader.Valid() && old(reader.pos) <= reader.pos
    ensures Agrees(r, ReadValue(dt, size, old(reader.Unread())), reader.Unread())
  {
    if dt.Textual() {
      var t :- reader.ParseNullTermString(size);
      return Ok(Str(t));
    }
    if dt.Opaque() {
      var b :- reader.ParseRawBytes(size);
      return Ok(Raw(b));
    }
    match dt {
      case ShortType => { var v :- reader.ParseShort(); return Ok(Short(v)); }
      case IntType => { var v :- reader.ParseInt(); return Ok(Int(v)); }
      case BigintType => { var v :- reader.ParseLong(); return Ok(Long(v)); }
      case FloatType => { var v :- reader.ParseFloat(); return Ok(Float(v)); }
      case DoubleType => { var v :- reader.ParseDouble(); return Ok(Double(v)); }
      case MonetaryType => { var v :- reader.ParseDouble(); return Ok(Double(v)); }
      case DateType => { r := reader.ParseDate(); }
      case TimeType => { r := reader.ParseTime(); }
      case TimestampType => { r := reader.ParseTimestamp(); }
      case DatetimeType => { r := reader.ParseDatetime(); }
      case _ => { r := Ok(Null); }
    }
  }

  method ParseCell(reader: PacketReader, dt: DataType, call: bool) returns (r: Outcome<Value, ProtocolError>)
    requires reader.Valid()
    modifies reader
    ensures reader.Valid() && old(reader.pos) <= reader.pos
    ensures Agrees(r, ReadCell(dt, call, old(reader.Unread())), reader.Unread())
  {
    hide ReadValue, ReadInt, ReadByte, Take, DataTypeOf;
    var size :- reader.ParseInt();
    if size <= 0 {
      return Ok(Null);
    }
    var actualSize, colType := size, dt;
    if call || colType.NullType? {
      var tag :- reader.ParseByte();
      actualSize := actualSize - 1;
      if actualSize == 0 {
        return Ok(Null);
      }
      match DataTypeOf(tag) {
        case Some(d) => { colType := d; }
        case None => {
          var b :- reader.ParseRawBytes(actualSize);
          return Ok(Raw(b));
        }
      }
    }
    r := ParseValue(reader, colType, actualSize);
  }

  /** The inner loop of `parse_row_data`. */
  method ParseCells(reader: PacketReader, columns: seq<ColumnMetaData>, call: bool)
    returns (r: Outcome<Row, ProtocolError>)
    requires reader.Valid()
    modifies reader
    ensures reader.Valid() && old(reader.pos) <= reader.pos
    ensures Agrees(r, ReadCells(columns, call, old(reader.Unread())), reader.Unread())
  {
    hide ReadCell;
    var row: Row := [];
    var j := 0;
    assert columns[0..] == columns;
    AfterNothing(ReadCells(columns, call, reader.Unread()));
    while j < |columns|
      invariant 0 <= j <= |columns| && reader.Valid() && old(reader.pos) <= reader.pos
      invariant After(row, ReadCells(columns[j..], call, reader.Unread()))
                == ReadCells(columns, call, old(reader.Unread()))
    {
      assert columns[j..][1..] == columns[j + 1..];
      var v :- ParseCell(reader, columns[j].columnType, call);
      AfterPush(row, v, ReadCells(columns[j + 1..], call, reader.Unread()));
      row := row + [v];
      j := j + 1;
    }
    assert row + [] == row;
    return Ok(row);
  }

  /** The body of the outer loop. */
  method ParseRow(reader: PacketReader, columns: seq<ColumnMetaData>, call: bool)
    returns (r: Outcome<Row, ProtocolError>)
    requires reader.Valid()
    modifies reader
    ensures reader.Valid() && old(reader.pos) <= reader.pos
    ensures Agrees(r, ReadRow(columns, call, old(reader.Unread())), reader.Unread())
  {
    var _ :- reader.ParseInt();
    var _ :- reader.ParseRawBytes(8);
    r := ParseCells(reader, columns, call);
  }

  /** The outer loop. */
  method ParseRows(reader: PacketReader, count: nat, columns: seq<ColumnMetaData>, call: bool)
    returns (r: Outcome<seq<Row>, ProtocolError>)
    requires reader.Valid()
    modifies reader
    ensures reader.Valid() && old(reader.pos) <= reader.pos
    ensures Agrees(r, Many(RowReader(columns, call), count, old(reader.Unread())), reader.Unread())
  {
    hide ReadRow;
    var rows := [];
    var i := 0;
    AfterNothing(Many(RowReader(columns, call), count, reader.Unread()));
    while i < count
      invariant 0 <= i <= count && reader.Valid() && old(reader.pos) <= reader.pos
      invariant After(rows, Many(RowReader(columns, call), count - i, reader.Unread()))
                == Many(RowReader(columns, call), count, old(reader.Unread()))
    {
      assert RowReader(columns, call)(reader.Unread()) == ReadRow(columns, call, reader.Unread());
      var row :- ParseRow(reader, columns, call);
      AfterPush(rows, row, Many(RowReader(columns, call), count - i - 1, reader.Unread()));
      rows := rows + [row];
      i := i + 1;
    }
    assert rows + [] == rows;
    return Ok(rows);
  }

  method ParseRowData(reader: PacketReader, tupleCount: i32, columns: seq<ColumnMetaData>, stmt: StatementType)
    returns (r: Outcome<seq<Row>, ProtocolError>)
    requires reader.Valid()
    modifies reader
    ensures reader.Valid() && old(reader.pos) <= reader.pos
    ensures Agrees(r, ReadRows(tupleCount, columns, stmt, old(reader.Unread())), reader.Unread())
  {
    if tupleCount < 0 {
      return Crash;
    }
    r := ParseRows(reader, tupleCount, columns, stmt.IsCall());
  }

  // ---------------------------------------------------------------------------
  // The encoding of rows. Encoders take the bytes that follow.
  // ---------------------------------------------------------------------------

  /** A cell as a server may send it. `pad` counts the NULs after a text. */
  datatype Cell =
    | NullCell(size: i32)
    | Plain(value: Value, pad: nat)
    | TaggedNull(tag: byte)
    | Tagged(tag: byte, value: Value, pad: nat)
  {
    function Meaning(): Value {
      if NullCell? || TaggedNull? then Null else value
    }
  }

  /** Value v has a payload of type dt. Type NULL has none. */
  predicate Carries(dt: DataType, v: Value) {
    if dt.Textual() then v.Str? && Utf8.NoTrailingNul(v.text)
    else if dt.Opaque() then v.Raw?
    else match dt
      case ShortType => v.Short?
      case IntType => v.Int?
      case BigintType => v.Long?
      case FloatType => v.Float?
      case DoubleType => v.Double?
      case MonetaryType => v.Double?
      case DateType => v.Date?
      case TimeType => v.Time?
      case TimestampType => v.Timestamp?
      case DatetimeType => v.Datetime?
      case _ => false
  }

  function Triple(a: i16, b: i16, c: i16): (s: seq<byte>)
    ensures |s| == 6
  {
    Be16(a) + Be16(b) + Be16(c)
  }

  /** The payload of a value, with `pad` NULs after a text. */
  function Payload(v: Value, pad: nat): seq<byte> {
    match v
    case Short(n) => Be16(n)
    case Int(n) => Be32(n)
    case Long(n) => Be64(n)
    case Float(n) => BeU32(n)
    case Double(n) => BeU64(n)
    case Str(t) => Utf8.Encode(t) + Zeros(pad)
    case Raw(b) => b
    case Date(y, m, d) => Triple(y, m, d)
    case Time(h, m, s) => Triple(h, m, s)
    case Timestamp(y, m, d, h, n, s) => Triple(y, m, d) + Triple(h, n, s)
    case Datetime(y, m, d, h, n, s, ms) => Triple(y, m, d) + Triple(h, n, s) + Be16(ms)
    case Null => []
    case Bool(_) => []
  }

  /** Cell c is one a column of type dt may hold; a tag that is no data type carries raw bytes. */
  predicate Fits(c: Cell, dt: DataType, call: bool) {
    match c
    case NullCell(size) => size <= 0
    case Plain(v, pad) =>
      !call && !dt.NullType? && Carries(dt, v) && 1 <= |Payload(v, pad)| <= I32_MAX
    case TaggedNull(_) => call || dt.NullType?
    case Tagged(tag, v, pad) =>
      && (call || dt.NullType?)
      && (match DataTypeOf(tag)
          case Some(d) => Carries(d, v)
          case None => v.Raw?)
      && 1 <= |Payload(v, pad)| < I32_MAX
  }

  function EncodeCell(c: Cell, rest: seq<byte>): seq<byte> {
    match c
    case NullCell(size) => Be32(size) + rest
    case Plain(v, pad) => Be32(AsI32(|Payload(v, pad)|)) + (Payload(v, pad) + rest)
    case TaggedNull(tag) => Be32(1) + ([tag] + rest)
    case Tagged(tag, v, pad) => Be32(AsI32(1 + |Payload(v, pad)|)) + ([tag] + (Payload(v, pad) + rest))
  }

  function EncodeCells(cells: seq<Cell>, rest: seq<byte>): seq<byte> {
    if cells == [] then rest else EncodeCell(cells[0], EncodeCells(cells[1..], rest))
  }

  /** A row: an index and an object id, both ignored, and one cell for each column. */
  datatype WireRow = WireRow(index: i32, oid: seq<byte>, cells: seq<Cell>)

  predicate RowFits(row: WireRow, columns: seq<ColumnMetaData>, call: bool) {
    && |row.oid| == 8
    && |row.cells| == |columns|
    && forall i :: 0 <= i < |columns| ==> Fits(row.cells[i], columns[i].columnType, call)
  }

  function EncodeRow(row: WireRow, rest: seq<byte>): seq<byte> {
    Be32(row.index) + (row.oid + EncodeCells(row.cells, rest))
  }

  function EncodeRows(rows: seq<WireRow>, rest: seq<byte>): seq<byte> {
    if rows == [] then rest else EncodeRow(rows[0], EncodeRows(rows[1..], rest))
  }

  function CellsMeaning(cells: seq<Cell>): (r: Row)
    ensures |r| == |cells|
  {
    if cells == [] then [] else [cells[0].Meaning()] + CellsMeaning(cells[1..])
  }

  function RowsMeaning(rows: seq<WireRow>): (r: seq<Row>)
    ensures |r| == |rows|
  {
    if rows == [] then [] else [CellsMeaning(rows[0].cells)] + RowsMeaning(rows[1..])
  }

  // ---------------------------------------------------------------------------
  // Inversion
  // ---------------------------------------------------------------------------

  lemma TextInverts(t: string, pad: nat, rest: seq<byte>)
    requires Utf8.NoTrailingNul(t)
    ensures ReadText(|Utf8.Encode(t)| + pad, (Utf8.Encode(t) + Zeros(pad)) + rest) == Done(t, rest)
  {
    hide Utf8.Encode, Utf8.Decode, Utf8.StripBytes, Zeros;
    Utf8.EndOfText(t);
    Utf8.StripIsUnique(Utf8.Encode(t), pad);
    Utf8.DecodeOfEncode(t);
  }

  lemma TripleInverts(a: i16, b: i16, c: i16, rest: seq<byte>)
    ensures ReadTriple(Triple(a, b, c) + rest) == Done((a, b, c), rest)
  {
    assert Triple(a, b, c) + rest == Be16(a) + (Be16(b) + (Be16(c) + rest));
  }

  lemma ScalarsInvert(rest: seq<byte>)
    ensures forall n: i16 :: ReadShort(Be16(n) + rest) == Done(n, rest)
    ensures forall n: i32 :: ReadInt(Be32(n) + rest) == Done(n, rest)
    ensures forall n: i64 :: ReadLong(Be64(n) + rest) == Done(n, rest)
    ensures forall n: u32 :: ReadFloat(BeU32(n) + rest) == Done(n, rest)
    ensures forall n: u64 :: ReadDouble(BeU64(n) + rest) == Done(n, rest)
  {
  }

  lemma TimestampInverts(v: Value, rest: seq<byte>)
    requires v.Timestamp?
    ensures ReadTimestamp(Payload(v, 0) + rest) == Done(v, rest)
  {
    var tail := Triple(v.hour, v.minute, v.second) + rest;
    TripleInverts(v.year, v.month, v.day, tail);
    TripleInverts(v.hour, v.minute, v.second, rest);
    assert Payload(v, 0) + rest == Triple(v.year, v.month, v.day) + tail;
  }

  lemma DatetimeInverts(v: Value, rest: seq<byte>)
    requires v.Datetime?
    ensures ReadDatetime(Payload(v, 0) + rest) == Done(v, rest)
  {
    var tail := Triple(v.hour, v.minute, v.second) + (Be16(v.ms) + rest);
    TripleInverts(v.year, v.month, v.day, tail);
    TripleInverts(v.hour, v.minute, v.second, Be16(v.ms) + rest);
    assert Payload(v, 0) + rest == Triple(v.year, v.month, v.day) + tail;
  }

  lemma ValueInverts(dt: DataType, v: Value, pad: nat, rest: seq<byte>)
    requires Carries(dt, v)
    ensures ReadValue(dt, |Payload(v, pad)|, (Payload(v, pad) + rest)) == Done(v, rest)
  {
    hide Signed, Unsigned, ReadText, ReadTimestamp, ReadDatetime, ReadTriple;
    if dt.Textual() {
      TextInverts(v.text, pad, rest);
    } else if !dt.Opaque() {
      match v
      case Date(y, m, d) => TripleInverts(y, m, d, rest);
      case Time(h, m, s) => TripleInverts(h, m, s, rest);
      case Timestamp(y, m, d, h, n, s) =>
        TimestampInverts(v, rest);
      case Datetime(y, m, d, h, n, s, ms) =>
        DatetimeInverts(v, rest);
      case _ => ScalarsInvert(rest);
    }
  }

  lemma RawInverts(v: Value, pad: nat, rest: seq<byte>)
    requires v.Raw?
    ensures Take(|Payload(v, pad)|, Payload(v, pad) + rest) == Done(v.raw, rest)
  {
  }

  lemma TaggedInverts(tag: byte, v: Value, pad: nat, dt: DataType, call: bool, rest: seq<byte>)
    requires Fits(Tagged(tag, v, pad), dt, call)
    ensures ReadCell(dt, call, EncodeCell(Tagged(tag, v, pad), rest)) == Done(v, rest)
  {
    hide ReadValue, Carries, Payload, DataTypeOf, Be32, Signed, AsI32;
    var n, body := |Payload(v, pad)|, Payload(v, pad) + rest;
    assert ReadInt(Be32(1 + n) + ([tag] + body)) == Done(1 + n, [tag] + body);
    assert ReadByte([tag] + body) == Done(tag, body);
    var d := DataTypeOf(tag);
    if d.Some? { ValueInverts(d.value, v, pad, rest); } else { RawInverts(v, pad, rest); }
  }

  lemma CellInverts(c: Cell, dt: DataType, call: bool, rest: seq<byte>)
    requires Fits(c, dt, call)
    ensures ReadCell(dt, call, EncodeCell(c, rest)) == Done(c.Meaning(), rest)
  {
    hide ReadValue, Carries, Payload, DataTypeOf, Be32, Signed, AsI32;
    match c
    case NullCell(_) =>
    case Plain(v, pad) => ValueInverts(dt, v, pad, rest);
    case TaggedNull(_) =>
    case Tagged(tag, v, pad) => TaggedInverts(tag, v, pad, dt, call, rest);
  }

  lemma {:induction false} CellsInvert(cells: seq<Cell>, columns: seq<ColumnMetaData>, call: bool, rest: seq<byte>)
    requires |cells| == |columns|
    requires forall i :: 0 <= i < |columns| ==> Fits(cells[i], columns[i].columnType, call)
    ensures ReadCells(columns, call, EncodeCells(cells, rest)) == Done(CellsMeaning(cells), rest)
  {
    if cells != [] {
      CellInverts(cells[0], columns[0].columnType, call, EncodeCells(cells[1..], rest));
      CellsInvert(cells[1..], columns[1..], call, rest);
    }
  }

  lemma RowInverts(row: WireRow, columns: seq<ColumnMetaData>, call: bool, rest: seq<byte>)
    requires RowFits(row, columns, call)
    ensures ReadRow(columns, call, EncodeRow(row, rest)) == Done(CellsMeaning(row.cells), rest)
  {
    CellsInvert(row.cells, columns, call, rest);
    assert ReadInt(EncodeRow(row, rest)) == Done(row.index, row.oid + EncodeCells(row.cells, rest));
  }

  /** Parsing any row encoding gives back the rows and stops exactly at its end. */
  lemma {:induction false} RowsInvert(rows: seq<WireRow>, columns: seq<ColumnMetaData>, call: bool, rest: seq<byte>)
    requires forall row :: row in rows ==> RowFits(row, columns, call)
    ensures Many(RowReader(columns, call), |rows|, EncodeRows(rows, rest)) == Done(RowsMeaning(rows), rest)
  {
    if rows != [] {
      RowInverts(rows[0], columns, call, EncodeRows(rows[1..], rest));
      RowsInvert(rows[1..], columns, call, rest);
      assert RowReader(columns, call)(EncodeRows(rows, rest)) == ReadRow(columns, call, EncodeRows(rows, rest));
    }
  }
}
