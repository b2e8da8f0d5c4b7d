/** A reader of one SQL literal, and what it makes of formatted values. */
module SqlReader {
  import opened Bytes
  import opened Wrappers
  import opened Types
  import opened Interpolation
  import Text

  /** What a literal stands for. */
  datatype Sql =
    | SqlNull
    | SqlNumber(n: int)
    | SqlText(text: string)
    | SqlBytes(bytes: seq<byte>)
    | SqlDate(date: seq<int>)
    | SqlTime(time: seq<int>)
    | SqlTimestamp(timestamp: seq<int>)
    | SqlDatetime(datetime: seq<int>)

  // ---------------------------------------------------------------------------
  // The reader
  // ---------------------------------------------------------------------------

  /** The length of the digits a text starts with. */
  function DigitRun(s: string): (n: nat)
    ensures n <= |s|
  {
    if s != [] && Text.IsDigit(s[0]) then 1 + DigitRun(s[1..]) else 0
  }

  /** A number, with an optional minus sign, as far as its digits go. */
  function ReadNumber(s: string): Option<(int, string)> {
    var sign := if s != [] && s[0] == '-' then 1 else 0;
    var n := sign + DigitRun(s[sign..]);
    match Text.Integer(s[..n])
    case Some(v) => if n > sign then Some((v, s[n..])) else None
    case None => None
  }

  /** Numbers with these separators between them, and nothing else. */
  function ReadFields(s: string, separators: string): Option<seq<int>>
    decreases |separators|
  {
    match ReadNumber(s)
    case None => None
    case Some((n, rest)) =>
      if separators == [] then if rest == [] then Some([n]) else None
      else if rest == [] || rest[0] != separators[0] then None
      else match ReadFields(rest[1..], separators[1..])
        case Some(ns) => Some([n] + ns)
        case None => None
  }

  /** What stands before the first quote. */
  function Keyword(s: string): string {
    if s == [] || s[0] == QUOTE then [] else [s[0]] + Keyword(s[1..])
  }

  function ReadQuoted(keyword: string, body: string): Option<Sql> {
    if keyword == "" then Some(SqlText(body))
    else if keyword == "X" then
      match Text.UnHex(body) case Some(b) => Some(SqlBytes(b)) case None => None
    else if keyword == "DATE" then
      match ReadFields(body, "--") case Some(ns) => Some(SqlDate(ns)) case None => None
    else if keyword == "TIME" then
      match ReadFields(body, "::") case Some(ns) => Some(SqlTime(ns)) case None => None
    else if keyword == "TIMESTAMP" then
      match ReadFields(body, "-- ::") case Some(ns) => Some(SqlTimestamp(ns)) case None => None
    else if keyword == "DATETIME" then
      match ReadFields(body, "-- ::.") case Some(ns) => Some(SqlDatetime(ns)) case None => None
    else None
  }

  /** One literal: NULL, a number, or a quoted text after a keyword. */
  function ReadSql(s: string): Option<Sql> {
    if QUOTE in s then
      if |Literals(s)| == 1 then ReadQuoted(Keyword(s), Literals(s)[0]) else None
    else if s == "NULL" then Some(SqlNull)
    else match Text.Integer(s)
      case Some(n) => if s != [] then Some(SqlNumber(n)) else None
      case None => None
  }

  /** What a bound value stands for: true is 1 and false is 0. Floats are not read. */
  function Means(v: Value): Sql
    requires !v.Float? && !v.Double?
  {
    match v
    case Null => SqlNull
    case Bool(b) => SqlNumber(if b then 1 else 0)
    case Short(n) => SqlNumber(n)
    case Int(n) => SqlNumber(n)
    case Long(n) => SqlNumber(n)
    case Str(t) => SqlText(t)
    case Raw(b) => SqlBytes(b)
    case Date(y, m, d) => SqlDate([y, m, d])
    case Time(h, n, s) => SqlTime([h, n, s])
    case Timestamp(y, m, d, h, n, s) => SqlTimestamp([y, m, d, h, n, s])
    case Datetime(y, m, d, h, n, s, ms) => SqlDatetime([y, m, d, h, n, s, ms])
  }

  // ---------------------------------------------------------------------------
  // Fields
  // ---------------------------------------------------------------------------

  lemma {:induction false} DigitsRun(digits: string, rest: string)
    requires (forall c :: c in digits ==> Text.IsDigit(c)) && (rest != [] ==> !Text.IsDigit(rest[0]))
    ensures DigitRun(digits + rest) == |digits|
  {
    if digits == [] {
      assert digits + rest == rest;
    } else {
      assert digits[0] in digits && forall c :: c in digits[1..] ==> c in digits;
      DigitsRun(digits[1..], rest);
      assert (digits + rest)[1..] == digits[1..] + rest;
    }
  }

  /** A padded number is read up to whatever is no digit. */
  lemma NumberReads(n: int, width: nat, rest: string)
    requires rest != [] ==> !Text.IsDigit(rest[0])
    ensures ReadNumber(Text.Padded(n, width) + rest) == Some((n, rest))
  {
    hide Text.Integer, Text.Filled;
    Text.IntegerOfPadded(n, width);
    var p := Text.Padded(n, width);
    var s := p + rest;
    if n < 0 {
      var digits := Text.Filled(-n, width - 1);
      DigitsRun(digits, rest);
      assert s[1..] == digits + rest;
    } else {
      DigitsRun(p, rest);
      assert p[0] in p && s[0..] == s;
    }
    assert s[..|p|] == p && s[|p|..] == rest;
  }

  function Prepend(n: int, r: Option<seq<int>>): Option<seq<int>> {
    match r case Some(ns) => Some([n] + ns) case None => None
  }

  lemma FieldStep(n: int, width: nat, c: char, rest: string, separators: string)
    requires !Text.IsDigit(c)
    ensures ReadFields(Text.Padded(n, width) + ([c] + rest), [c] + separators)
            == Prepend(n, ReadFields(rest, separators))
  {
    hide ReadNumber, Text.Padded;
    NumberReads(n, width, [c] + rest);
    assert ([c] + rest)[1..] == rest && ([c] + separators)[1..] == separators;
  }

  lemma LastField(n: int, width: nat)
    ensures ReadFields(Text.Padded(n, width), "") == Some([n])
  {
    hide ReadNumber, Text.Padded;
    NumberReads(n, width, "");
    assert Text.Padded(n, width) + "" == Text.Padded(n, width);
  }

  lemma ThreeParts(a: string, b: string, c: string, separator: char, rest: string)
    ensures (a + [separator] + b + [separator] + c) + rest
            == a + ([separator] + (b + ([separator] + (c + rest))))
  {
  }

  /** Three numbers and the same separator between them. */
  lemma TwoSteps(a: int, b: int, wide: nat, c: char, rest: string, separators: string)
    requires !Text.IsDigit(c)
    ensures ReadFields(Text.Padded(a, wide) + ([c] + (Text.Padded(b, 2) + ([c] + rest))), [c, c] + separators)
            == Prepend(a, Prepend(b, ReadFields(rest, separators)))
  {
    hide ReadFields, Text.Padded;
    FieldStep(b, 2, c, rest, separators);
    FieldStep(a, wide, c, Text.Padded(b, 2) + ([c] + rest), [c] + separators);
    assert [c] + ([c] + separators) == [c, c] + separators;
  }

  lemma DateReads(y: i16, m: i16, d: i16)
    ensures ReadFields(DateText(y, m, d), "--") == Some([y, m, d])
  {
    hide ReadFields, Text.Padded;
    var last := Text.Padded(d, 2);
    ThreeParts(Text.Padded(y, 4), Text.Padded(m, 2), last, '-', "");
    assert last + "" == last && DateText(y, m, d) + "" == DateText(y, m, d);
    TwoSteps(y, m, 4, '-', last, "");
    assert ['-', '-'] + "" == "--";
    LastField(d, 2);
    ThreeOf(y, m, [d]);
    assert [y as int, m] + [d] == [y, m, d];
  }

  lemma ThreeOf(a: int, b: int, rest: seq<int>)
    ensures Prepend(a, Prepend(b, Some(rest))) == Some([a, b] + rest)
  {
    assert [a] + ([b] + rest) == [a, b] + rest;
  }

  /** A time of day, and what its last number starts. */
  lemma TimeStarts(h: i16, n: i16, s: i16, rest: string, separators: string)
    ensures ReadFields(TimeText(h, n, s) + rest, "::" + separators)
            == Prepend(h, Prepend(n, ReadFields(Text.Padded(s, 2) + rest, separators)))
  {
    hide ReadFields, Text.Padded;
    ThreeParts(Text.Padded(h, 2), Text.Padded(n, 2), Text.Padded(s, 2), ':', rest);
    TwoSteps(h, n, 2, ':', Text.Padded(s, 2) + rest, separators);
  }

  lemma TimeReads(h: i16, n: i16, s: i16)
    ensures ReadFields(TimeText(h, n, s), "::") == Some([h, n, s])
  {
    hide ReadFields, Text.Padded, TimeText;
    TimeStarts(h, n, s, "", "");
    assert TimeText(h, n, s) + "" == TimeText(h, n, s) && "::" + "" == "::";
    assert Text.Padded(s, 2) + "" == Text.Padded(s, 2);
    LastField(s, 2);
    ThreeOf(h, n, [s]);
    assert [h as int, n] + [s] == [h, n, s];
  }

  lemma DateThenTime(y: i16, m: i16, d: i16, clock: string, separators: string)
    ensures ReadFields(DateText(y, m, d) + " " + clock, "-- " + separators)
            == Prepend(y, Prepend(m, Prepend(d, ReadFields(clock, separators))))
  {
    hide ReadFields, Text.Padded;
    var last, rest := Text.Padded(d, 2), [' '] + clock;
    assert DateText(y, m, d) + " " + clock == DateText(y, m, d) + rest;
    ThreeParts(Text.Padded(y, 4), Text.Padded(m, 2), last, '-', rest);
    TwoSteps(y, m, 4, '-', last + rest, " " + separators);
    assert ['-', '-'] + (" " + separators) == "-- " + separators;
    assert [' '] + separators == " " + separators;
    FieldStep(d, 2, ' ', clock, separators);
  }

  lemma TimestampReads(y: i16, m: i16, d: i16, h: i16, n: i16, s: i16)
    ensures ReadFields(DateText(y, m, d) + " " + TimeText(h, n, s), "-- ::") == Some([y, m, d, h, n, s])
  {
    hide ReadFields, Text.Padded, TimeText, DateText;
    DateThenTime(y, m, d, TimeText(h, n, s), "::");
    assert "-- " + "::" == "-- ::";
    TimeReads(h, n, s);
    ThreeOf(m, d, [h, n, s]);
    assert [y as int] + ([m as int, d] + [h, n, s]) == [y, m, d, h, n, s];
  }

  lemma DatetimeReads(y: i16, m: i16, d: i16, h: i16, n: i16, s: i16, ms: i16)
    ensures ReadFields(DateText(y, m, d) + " " + TimeText(h, n, s) + "." + Text.Padded(ms, 3), "-- ::.")
            == Some([y, m, d, h, n, s, ms])
  {
    hide ReadFields, Text.Padded, TimeText, DateText;
    var millis := ['.'] + Text.Padded(ms, 3);
    var clock := TimeText(h, n, s) + millis;
    assert DateText(y, m, d) + " " + TimeText(h, n, s) + "." + Text.Padded(ms, 3) == DateText(y, m, d) + " " + clock;
    assert "-- " + "::." == "-- ::." && "::" + "." == "::." && ['.'] + "" == ".";
    DateThenTime(y, m, d, clock, "::.");
    TimeStarts(h, n, s, millis, ".");
    FieldStep(s, 2, '.', Text.Padded(ms, 3), "");
    LastField(ms, 3);
    assert [s as int] + [ms] == [s, ms] && [h as int, n] + [s, ms] == [h, n, s, ms];
    ThreeOf(h, n, [s, ms]);
    ThreeOf(m, d, [h, n, s, ms]);
    assert [y as int] + ([m as int, d] + [h, n, s, ms]) == [y, m, d, h, n, s, ms];
  }

  // ---------------------------------------------------------------------------
  // Formatted values
  // ---------------------------------------------------------------------------

  lemma {:induction false} KeywordOf(prefix: string, body: string)
    requires QUOTE !in prefix
    ensures Keyword(Quoted(prefix, body)) == prefix && QUOTE in Quoted(prefix, body)
  {
    if prefix == [] {
      assert Quoted(prefix, body)[0] == QUOTE;
    } else {
      KeywordOf(prefix[1..], body);
      assert Quoted(prefix, body)[1..] == Quoted(prefix[1..], body);
      assert prefix == [prefix[0]] + prefix[1..];
    }
  }

  /** A quoted literal after a keyword is read by its keyword. */
  lemma QuotedReads(keyword: string, body: string)
    requires QUOTE !in keyword && QUOTE !in body
    ensures ReadSql(Quoted(keyword, body)) == ReadQuoted(keyword, body)
  {
    hide Literals, Quoted, ReadQuoted;
    KeywordOf(keyword, body);
    QuotedLiteral(keyword, body);
  }

  lemma TextReads(t: string)
    ensures ReadSql(Quoted("", Escape(t))) == Some(SqlText(t))
  {
    hide Literals, Quoted, Escape;
    KeywordOf("", Escape(t));
    EscapedReads(t);
  }

  lemma NumbersRead(n: int)
    ensures ReadSql(Text.Decimal(n)) == Some(SqlNumber(n))
  {
    hide Text.Integer;
    Text.IntegerOfDecimal(n);
    assert 'N' in "NULL" by { assert "NULL"[0] == 'N'; }
  }

  lemma BytesRead(b: seq<byte>)
    ensures ReadSql(Quoted("X", Text.Hex(b))) == Some(SqlBytes(b))
  {
    hide Text.UnHex, ReadSql, Quoted;
    Text.UnHexOfHex(b);
    QuotedReads("X", Text.Hex(b));
  }

  lemma BareReads(b: bool)
    ensures ReadSql("NULL") == Some(SqlNull) && ReadSql(if b then "1" else "0") == Some(SqlNumber(if b then 1 else 0))
  {
    assert "1"[..0] == "" && "0"[..0] == "";
    assert Text.Number("") == Some(0);
    assert Text.Number("1") == Some(1) && Text.Number("0") == Some(0);
  }

  lemma ClockReads(v: Value, floats: FloatText)
    requires v.Date? || v.Time? || v.Timestamp? || v.Datetime?
    ensures ReadSql(FormatValue(v, floats)) == Some(Means(v))
  {
    hide Text.Padded, ReadFields, DateText, TimeText, ReadSql, Quoted;
    match v
    case Date(y, m, d) =>
      ClockText(y, m, d, 0, 0, 0, 0);
      QuotedReads("DATE", DateText(y, m, d));
      DateReads(y, m, d);
    case Time(h, n, s) =>
      ClockText(0, 0, 0, h, n, s, 0);
      QuotedReads("TIME", TimeText(h, n, s));
      TimeReads(h, n, s);
    case Timestamp(y, m, d, h, n, s) =>
      ClockText(y, m, d, h, n, s, 0);
      QuotedReads("TIMESTAMP", DateText(y, m, d) + " " + TimeText(h, n, s));
      TimestampReads(y, m, d, h, n, s);
    case Datetime(y, m, d, h, n, s, ms) =>
      ClockText(y, m, d, h, n, s, ms);
      QuotedReads("DATETIME", DateText(y, m, d) + " " + TimeText(h, n, s) + "." + Text.Padded(ms, 3));
      DatetimeReads(y, m, d, h, n, s, ms);
  }

  /** Every value that is no float is read back from its text. */
  lemma FormattedReads(v: Value, floats: FloatText)
    requires !v.Float? && !v.Double?
    ensures ReadSql(FormatValue(v, floats)) == Some(Means(v))
  {
    hide Text.Decimal, Text.Hex, ReadSql, Quoted, Escape, DateText, TimeText, Text.Padded;
    match v
    case Null => BareReads(true);
    case Bool(b) => BareReads(b);
    case Short(n) => NumbersRead(n);
    case Int(n) => NumbersRead(n);
    case Long(n) => NumbersRead(n);
    case Str(t) => TextReads(t);
    case Raw(b) => BytesRead(b);
    case _ => ClockReads(v, floats);
  }

  /** The text that `interpolate_params` makes is the template's pieces with one literal between any two, in the order
      of the parameters, and each literal reads as the value that was bound. */
  lemma InterpolationMeans(sql: string, params: seq<Value>, floats: FloatText)
    requires forall v :: v in params ==> !v.Float? && !v.Double?
    ensures exists literals ::
              && |literals| == |params|
              && Substitute(sql, Fills(params, floats), false)
                 == Concat(Weave(Pieces(sql, |params|, false), literals))
              && forall i :: 0 <= i < |params| ==> ReadSql(literals[i]) == Some(Means(params[i]))
  {
    hide ReadSql, FormatValue, Substitute, Pieces, Weave, Concat;
    var literals := Fills(params, floats);
    SubstituteWeaves(sql, literals, false);
    forall i | 0 <= i < |params|
      ensures ReadSql(literals[i]) == Some(Means(params[i]))
    {
      FillAt(params, floats, i);
      FormattedReads(params[i], floats);
    }
  }

  // ---------------------------------------------------------------------------
  // Instances
  // ---------------------------------------------------------------------------

  /** A small number on two places. */
  lemma TwoPlaces(n: nat)
    requires n < 10
    ensures Text.Padded(n, 2) == ['0', ('0' as int + n) as char]
    ensures Text.Padded(n, 3) == ['0', '0', ('0' as int + n) as char]
  {
    assert Text.ZeroDigits(0) == "" && Text.ZeroDigits(1) == "0" && Text.ZeroDigits(2) == "00";
  }

  lemma Year()
    ensures Text.Padded(2024, 4) == "2024"
  {
    assert Text.Digits(2) == "2" && Text.Digits(20) == "20" && Text.Digits(202) == "202" && Text.Digits(2024) == "2024";
    assert Text.ZeroDigits(0) == "";
  }

  /** Values as they stand in SQL text. */
  lemma FormattedBare(floats: FloatText)
    ensures FormatValue(Null, floats) == "NULL"
    ensures FormatValue(Bool(true), floats) == "1" && FormatValue(Bool(false), floats) == "0"
    ensures FormatValue(Short(7), floats) == "7" && FormatValue(Int(42), floats) == "42"
    ensures FormatValue(Long(-42), floats) == "-42"
  {
    assert Text.Digits(4) == "4" && Text.Digits(42) == "42" && Text.Digits(7) == "7";
  }

  lemma FormattedText(floats: FloatText)
    ensures FormatValue(Str("it's"), floats) == "'it''s'"
  {
    assert "it's"[1..] == "t's" && "t's"[1..] == "'s" && "'s"[1..] == "s" && "s"[1..] == "";
    assert Escape("s") == "s";
    assert Escape("'s") == "''s";
    assert Escape("t's") == "t''s";
    assert Escape("it's") == "it''s";
    hide Escape;
  }

  lemma FormattedBytes(floats: FloatText)
    ensures FormatValue(Raw([0xDE, 0xAD]), floats) == "X'dead'"
  {
    var b: seq<byte> := [0xDE, 0xAD];
    assert b[1..] == [0xAD] && b[1..][1..] == [];
    assert Text.Hex([0xAD]) == "ad";
    assert Text.Hex(b) == "dead";
    hide Text.Hex;
  }

  lemma FormattedDate(floats: FloatText)
    ensures FormatValue(Date(2024, 5, 3), floats) == "DATE'2024-05-03'"
  {
    DateLiteral();
    hide DateText, TimeText;
  }

  lemma FormattedTime(floats: FloatText)
    ensures FormatValue(Time(9, 8, 7), floats) == "TIME'09:08:07'"
  {
    TimeLiteral();
    hide DateText, TimeText;
  }

  lemma FormattedTimestamp(floats: FloatText)
    ensures FormatValue(Timestamp(2024, 5, 3, 9, 8, 7), floats) == "TIMESTAMP'2024-05-03 09:08:07'"
  {
    MomentLiteral();
    hide DateText, TimeText;
  }

  lemma FormattedDatetime(floats: FloatText)
    ensures FormatValue(Datetime(2024, 5, 3, 9, 8, 7, 6), floats) == "DATETIME'2024-05-03 09:08:07.006'"
  {
    MomentLiteral();
    TwoPlaces(6);
    hide DateText, TimeText, Text.Padded;
    AtMillis("2024-05-03 09:08:07", Text.Padded(6, 3));
  }

  lemma AtMillis(moment: string, millis: string)
    requires moment == "2024-05-03 09:08:07" && millis == "006"
    ensures Quoted("DATETIME", moment + "." + millis) == "DATETIME'2024-05-03 09:08:07.006'"
  {
  }

  lemma MomentLiteral()
    ensures DateText(2024, 5, 3) + " " + TimeText(9, 8, 7) == "2024-05-03 09:08:07"
  {
    DateLiteral();
    TimeLiteral();
    hide DateText, TimeText;
  }

  lemma DateLiteral()
    ensures DateText(2024, 5, 3) == "2024-05-03"
  {
    Year();
    TwoPlaces(5);
    TwoPlaces(3);
    hide Text.Padded;
  }

  lemma TimeLiteral()
    ensures TimeText(9, 8, 7) == "09:08:07"
  {
    TwoPlaces(9);
    TwoPlaces(8);
    TwoPlaces(7);
    hide Text.Padded;
  }
}
