/** Data types, statement types, values and parsed results of the CAS protocol. */
module Types {
  import opened Bytes
  import opened Wrappers

  datatype DataType =
    | NullType | CharType | StringType | NCharType | VarNCharType | BitType | VarBitType | NumericType
    | IntType | ShortType | MonetaryType | FloatType | DoubleType | DateType | TimeType | TimestampType
    | SetType | MultisetType | SequenceType | ObjectType | BigintType | DatetimeType | BlobType | ClobType
    | EnumType
  {
    /** The byte sent on the wire. */
    function Code(): byte {
      match this
      case NullType => 0 case CharType => 1 case StringType => 2 case NCharType => 3
      case VarNCharType => 4 case BitType => 5 case VarBitType => 6 case NumericType => 7
      case IntType => 8 case ShortType => 9 case MonetaryType => 10 case FloatType => 11
      case DoubleType => 12 case DateType => 13 case TimeType => 14 case TimestampType => 15
      case SetType => 16 case MultisetType => 17 case SequenceType => 18 case ObjectType => 19
      case BigintType => 21 case DatetimeType => 22 case BlobType => 23 case ClobType => 24
      case EnumType => 25
    }

    /** Columns read by `parse_null_term_string`. */
    predicate Textual() {
      CharType? || StringType? || NCharType? || VarNCharType? || EnumType? || NumericType?
    }

    /** Columns read by `parse_raw_bytes`. */
    predicate Opaque() {
      BitType? || VarBitType? || BlobType? || ClobType? || SetType? || MultisetType? || SequenceType? || ObjectType?
    }
  }

  /** `DataType::from_u8`: 20 is a gap and 26 and above are unknown. */
  function DataTypeOf(b: byte): (r: Option<DataType>)
    ensures r.Some? ==> r.value.Code() == b
    ensures r.None? ==> forall d: DataType :: d.Code() != b
  {
    match b
    case 0 => Some(NullType) case 1 => Some(CharType) case 2 => Some(StringType) case 3 => Some(NCharType)
    case 4 => Some(VarNCharType) case 5 => Some(BitType) case 6 => Some(VarBitType) case 7 => Some(NumericType)
    case 8 => Some(IntType) case 9 => Some(ShortType) case 10 => Some(MonetaryType) case 11 => Some(FloatType)
    case 12 => Some(DoubleType) case 13 => Some(DateType) case 14 => Some(TimeType) case 15 => Some(TimestampType)
    case 16 => Some(SetType) case 17 => Some(MultisetType) case 18 => Some(SequenceType) case 19 => Some(ObjectType)
    case 21 => Some(BigintType) case 22 => Some(DatetimeType) case 23 => Some(BlobType) case 24 => Some(ClobType)
    case 25 => Some(EnumType)
    case _ => None
  }

  lemma DataTypeOfCode(d: DataType)
    ensures DataTypeOf(d.Code()) == Some(d)
  {
  }

  /** The statement types 0 (ALTER CLASS) to 24 (CALL) by their codes, stored procedures and the rest. */
  datatype StatementType = Statement(code: byte) | CallSP | Unknown {
    predicate IsSelect() { this == Statement(SELECT_CODE) }

    predicate IsCall() { this == Statement(CALL_CODE) || CallSP? }
  }

  const SELECT_CODE: byte := 21
  const CALL_CODE: byte := 24

  /** `StatementType::from_u8`. */
  function StatementTypeOf(b: byte): StatementType {
    if b <= CALL_CODE then Statement(b)
    else if b == 0x7E then CallSP
    else Unknown
  }

  /** The bytes that stand for a SELECT and for the calls; the known ones are told apart, and the others are not. */
  lemma StatementBytes(b: byte)
    ensures StatementTypeOf(b).IsSelect() <==> b == 21
    ensures StatementTypeOf(b).IsCall() <==> b == 24 || b == 0x7E
    ensures forall c: byte :: StatementTypeOf(b) == StatementTypeOf(c)
                              <==> b == c || (b > 24 && c > 24 && b != 0x7E && c != 0x7E)
  {
  }

  /** The bytes that stand for the data types: texts, raw bytes, the rest, and none. */
  lemma DataTypeBytes(b: byte)
    ensures DataTypeOf(b).None? <==> b == 20 || b > 25
    ensures DataTypeOf(b).Some? && DataTypeOf(b).value.Textual() <==> 1 <= b <= 4 || b == 7 || b == 25
    ensures DataTypeOf(b).Some? && DataTypeOf(b).value.Opaque()
            <==> b == 5 || b == 6 || 16 <= b <= 19 || b == 23 || b == 24
  {
  }

  lemma NumberBytes()
    ensures DataTypeOf(0) == Some(NullType) && DataTypeOf(8) == Some(IntType) && DataTypeOf(9) == Some(ShortType)
    ensures DataTypeOf(10) == Some(MonetaryType) && DataTypeOf(11) == Some(FloatType)
    ensures DataTypeOf(12) == Some(DoubleType) && DataTypeOf(21) == Some(BigintType)
  {
  }

  lemma ClockBytes()
    ensures DataTypeOf(13) == Some(DateType) && DataTypeOf(14) == Some(TimeType)
    ensures DataTypeOf(15) == Some(TimestampType) && DataTypeOf(22) == Some(DatetimeType)
  {
  }

  /** A database value. Floats are their bit patterns. */
  datatype Value =
    | Null
    | Bool(b: bool)
    | Short(short: i16)
    | Int(int32: i32)
    | Long(int64: i64)
    | Float(bits32: u32)
    | Double(bits64: u64)
    | Str(text: string)
    | Raw(raw: seq<byte>)
    | Date(year: i16, month: i16, day: i16)
    | Time(hour: i16, minute: i16, second: i16)
    | Timestamp(year: i16, month: i16, day: i16, hour: i16, minute: i16, second: i16)
    | Datetime(year: i16, month: i16, day: i16, hour: i16, minute: i16, second: i16, ms: i16)

  type Row = seq<Value>

  datatype ProtocolError =
    | UnexpectedEof(expected: nat, available: nat)
    | InvalidPacket
    | ServerError(code: i32, message: string)
    | UnsupportedType(tag: byte)

  /** The token a reply hands to the next request. */
  type CasInfo = s: seq<byte> | |s| == 4 witness [0, 0, 0, 0]

  datatype ColumnMetaData = ColumnMetaData(
    columnType: DataType, scale: i16, precision: i32, name: string, realName: string, tableName: string,
    isNullable: bool, defaultValue: string, isAutoIncrement: bool, isUniqueKey: bool, isPrimaryKey: bool,
    isForeignKey: bool)

  datatype ResultInfo = ResultInfo(stmtType: StatementType, resultCount: i32, oid: seq<byte>)

  datatype PrepareAndExecuteResult = PrepareAndExecuteResult(
    queryHandle: i32, statementType: StatementType, bindCount: i32, columns: seq<ColumnMetaData>,
    totalTupleCount: i32, resultInfos: seq<ResultInfo>, tupleCount: i32, rows: seq<Row>)

  datatype PrepareResult = PrepareResult(
    queryHandle: i32, statementType: StatementType, bindCount: i32, columns: seq<ColumnMetaData>)

  datatype ExecuteResult = ExecuteResult(
    totalTupleCount: i32, resultInfos: seq<ResultInfo>, tupleCount: i32, rows: seq<Row>)

  datatype FetchResult = FetchResult(tupleCount: i32, rows: seq<Row>)
}
