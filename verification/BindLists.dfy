/** Which parameter lists the row parser reads back: exactly those without times and timestamps. */
module BindLists {
  import opened Bytes
  import opened Wrappers
  import opened Types
  import opened Codec
  import opened Rows
  import opened Request
  import Utf8

  // ---------------------------------------------------------------------------
  // How many bytes a cell takes, whatever bytes they are
  // ---------------------------------------------------------------------------

  /** The width of a value that does not depend on the declared size. */
  function Width(v: Value): nat {
    match v
    case Short(_) => 2
    case Int(_) => 4
    case Float(_) => 4
    case Long(_) => 8
    case Double(_) => 8
    case Date(_, _, _) => 6
    case Time(_, _, _) => 6
    case Timestamp(_, _, _, _, _, _) => 12
    case Datetime(_, _, _, _, _, _, _) => 14
    case _ => 0
  }

  /** A value of `size` declared bytes that takes the first n of s. */
  ghost predicate Takes(v: Value, size: nat, s: seq<byte>, n: nat) {
    && n <= |s|
    && match v
       case Str(t) => n == size && Utf8.StripBytes(s[..n]) == Utf8.Encode(t)
       case Raw(b) => n == size == |b|
       case Bool(_) => false
       case _ => n == Width(v)
  }

  lemma TripleTakes(s: seq<byte>)
    requires ReadTriple(s).Done?
    ensures |s| >= 6 && ReadTriple(s).rest == s[6..]
  {
    hide Signed;
    assert s[2..][2..] == s[4..] && s[4..][2..] == s[6..];
  }

  lemma ClockTakes(s: seq<byte>)
    ensures ReadTimestamp(s).Done? ==>
              ReadTimestamp(s).value.Timestamp? && |s| >= 12 && ReadTimestamp(s).rest == s[12..]
    ensures ReadDatetime(s).Done? ==>
              ReadDatetime(s).value.Datetime? && |s| >= 14 && ReadDatetime(s).rest == s[14..]
  {
    hide Signed, ReadTriple;
    if ReadTriple(s).Done? {
      TripleTakes(s);
      if ReadTriple(s[6..]).Done? {
        TripleTakes(s[6..]);
        assert s[6..][6..] == s[12..];
        if |s| >= 14 { assert s[12..][2..] == s[14..]; }
      }
    }
  }

  lemma ValueTakes(dt: DataType, size: nat, s: seq<byte>) returns (n: nat)
    requires ReadValue(dt, size, s).Done?
    ensures Takes(ReadValue(dt, size, s).value, size, s, n) && ReadValue(dt, size, s).rest == s[n..]
  {
    hide Signed, Unsigned, ReadTriple, Utf8.Encode, Utf8.Decode, Utf8.StripBytes, ReadTimestamp, ReadDatetime;
    n := if dt.Textual() || dt.Opaque() then size else Width(ReadValue(dt, size, s).value);
    if dt.NullType? {
      assert s[0..] == s;
    } else if dt.Textual() {
      Utf8.EncodeOfDecode(Utf8.StripBytes(s[..size]));
    } else if dt.DateType? || dt.TimeType? {
      TripleTakes(s);
    } else if dt.TimestampType? || dt.DatetimeType? {
      ClockTakes(s);
    }
  }

  /** A cell of a CALL row: NULLs take four bytes, or five with a type; other values take five and their own. */
  lemma CellTakes(dt: DataType, s: seq<byte>) returns (n: nat)
    requires ReadCell(dt, true, s).Done?
    ensures |s| >= 4 && 4 <= n <= |s| && ReadCell(dt, true, s).rest == s[n..]
    ensures var v, size := ReadCell(dt, true, s).value, Signed(s[..4]);
            if v.Null? then n == (if size <= 0 then 4 else 5)
            else size >= 2 && n >= 5 && Takes(v, size - 1, s[5..], n - 5)
  {
    hide Signed, Unsigned, ReadValue, DataTypeOf, Utf8.Encode, Utf8.StripBytes;
    Pow256Widths();
    var size := Signed(s[..4]);
    if size <= 0 {
      n := 4;
    } else {
      assert s[4..][1..] == s[5..];
      if size == 1 {
        n := 5;
      } else {
        var d := DataTypeOf(s[4..][0]);
        if d.Some? {
          var m := ValueTakes(d.value, size - 1, s[5..]);
          n := 5 + m;
        } else {
          n := 4 + size;
        }
        assert s[5..][n - 5..] == s[n..];
      }
    }
  }

  // ---------------------------------------------------------------------------
  // A reader that lags behind
  // ---------------------------------------------------------------------------

  /** Bytes before the next cell that should have been read with the one before; a single one is zero. */
  predicate Lag(b: seq<byte>) {
    b != [] && (|b| == 1 ==> b[0] == 0)
  }

  lemma {:induction false} LeadingZero(b: seq<byte>)
    ensures Bytes.Unsigned([0] + b) == Bytes.Unsigned(b)
  {
    if b == [] {
      assert ([0] + b)[..0] == [];
    } else {
      LeadingZero(b[..|b| - 1]);
      assert ([0] + b)[..|b|] == [0] + b[..|b| - 1];
    }
  }

  /** One zero byte too early, a size is read without its last byte. */
  lemma SizeTooEarly(size: i32, s: seq<byte>)
    requires size >= 0 && |s| >= 5 && s[0] == 0 && s[1..5] == Be32(size)
    ensures Signed(s[..4]) == size / 256
  {
    Pow256Widths();
    var b := Be32(size);
    assert b == BigEndian(size / 256, 3) + [size % 256];
    var high := BigEndian(size / 256, 3);
    UnsignedOfBigEndian(size / 256, 3);
    assert s[1..4] == s[1..5][..3] == high;
    assert s[..4] == [0] + high;
    LeadingZero(high);
  }

  /** The stream of a lagging reader. */
  function Stream(b: seq<byte>, v: Value, tail: seq<byte>): seq<byte> { b + BindCell(v) + tail }

  /** What is left when the lag stays: a lag, and the cells after this one. */
  ghost predicate StillLags(s: seq<byte>, n: nat, front: nat) {
    n <= front <= |s| && Lag(s[n..front])
  }

  lemma OwnCell(b: seq<byte>, v: Value, tail: seq<byte>)
    requires BindFits(v)
    ensures var s, d := Stream(b, v, tail), |b|;
            var front := d + |BindCell(v)|;
            && |BindCell(v)| >= 4 && s[..d] == b && s[front..] == tail && |s| == front + |tail|
            && s[d..d + 4] == Be32(if v.Null? then 0 else 1 + |BindPayload(v)|)
            && (!v.Null? ==> |BindCell(v)| == 5 + |BindPayload(v)| && s[d + 4] == BindTag(v)
                             && s[d + 5..front] == BindPayload(v))
  {
    hide BindPayload, BindTag, Be32;
    InTheMiddle(b, BindCell(v), tail);
    if !v.Null? {
      var s, d := Stream(b, v, tail), |b|;
      var own := s[d..d + |BindCell(v)|];
      CellParts(Be32(AsI32(1 + |BindPayload(v)|)), BindTag(v), BindPayload(v));
      assert s[d + 4] == own[4] && s[d + 5..d + |BindCell(v)|] == own[5..];
    }
    assert Stream(b, v, tail)[|b|..|b| + 4] == BindCell(v)[..4];
  }

  lemma InTheMiddle(b: seq<byte>, own: seq<byte>, tail: seq<byte>)
    ensures var s := b + own + tail;
            s[..|b|] == b && s[|b|..|b| + |own|] == own && s[|b| + |own|..] == tail
  {
  }

  lemma CellParts(size: seq<byte>, tag: byte, payload: seq<byte>)
    requires |size| == 4
    ensures var own := size + ([tag] + payload);
            |own| == 5 + |payload| && own[..4] == size && own[4] == tag && own[5..] == payload
  {
  }

  /** A reader one byte early does not see a small cell at all, and never the right size of a large one. */
  lemma OneEarly(b: seq<byte>, v: Value, tail: seq<byte>)
    requires BindFits(v) && |b| == 1 && Lag(b)
    ensures Signed(Stream(b, v, tail)[..4]) == (if v.Null? then 0 else 1 + |BindPayload(v)|) / 256
  {
    hide BindPayload, Be32, Signed, BindCell, BindTag;
    OwnCell(b, v, tail);
    var s := Stream(b, v, tail);
    assert s[0] == s[..1][0];
    SizeTooEarly(if v.Null? then 0 else 1 + |BindPayload(v)|, s);
  }

  /** The widths of what a bound value writes. */
  lemma BindWidth(v: Value)
    ensures v.Short? || v.Int? || v.Float? || v.Long? || v.Double? || v.Datetime? ==> |BindPayload(v)| == Width(v)
    ensures v.Bool? ==> |BindPayload(v)| == 2
    ensures v.Date? || v.Time? || v.Timestamp? ==> |BindPayload(v)| == 14
    ensures v.Raw? ==> |BindPayload(v)| == |v.raw|
  {
    hide Be16, Be32, Be64, BeU32, BeU64, Utf8.Encode;
  }

  /** Enough for the lag to stay: two bytes left of this cell, or a last one that is zero. */
  lemma LagStays(s: seq<byte>, n: nat, front: nat)
    requires front <= |s|
    requires n + 2 <= front || (n + 1 == front && s[n] == 0)
    ensures StillLags(s, n, front)
  {
  }

  lemma LastOfNull(b: seq<byte>)
    requires b == Be32(0)
    ensures b[3] == 0
  {
    Pow256Widths();
    assert Be32(0) == BigEndian(0, 3) + [0];
  }

  /** A NULL takes at most five bytes. */
  lemma NullLags(b: seq<byte>, v: Value, n: nat, tail: seq<byte>)
    requires Lag(b) && BindFits(v) && (v.Null? || v == Raw([]))
    requires n == if Signed(Stream(b, v, tail)[..4]) <= 0 then 4 else 5
    ensures StillLags(Stream(b, v, tail), n, |b| + |BindCell(v)|)
  {
    hide BindCell, BindTag, Be32, Signed, Stream, StillLags;
    var s, d := Stream(b, v, tail), |b|;
    var front := d + |BindCell(v)|;
    OwnCell(b, v, tail);
    if d == 1 { OneEarly(b, v, tail); }
    if v.Null? {
      LastOfNull(s[d..d + 4]);
      assert s[d..d + 4][3] == s[d + 3];
    }
    LagStays(s, n, front);
  }

  /** A value that is read with its own width leaves as much as there was; one byte early it is not read. */
  lemma SameWidthLags(b: seq<byte>, v: Value, n: nat, tail: seq<byte>)
    requires Lag(b) && BindFits(v) && !v.Null? && v != Raw([]) && !v.Str?
    requires n >= 5 && Signed(Stream(b, v, tail)[..4]) >= 2
    requires v.Raw? ==> Signed(Stream(b, v, tail)[..4]) == 1 + |v.raw|
    requires n == 5 + if v.Raw? then |v.raw| else Width(Canonical(v))
    ensures StillLags(Stream(b, v, tail), n, |b| + |BindCell(v)|)
  {
    hide BindCell, BindTag, Be32, Signed, Stream, StillLags, BindPayload;
    OwnCell(b, v, tail);
    BindWidth(v);
    if |b| == 1 {
      OneEarly(b, v, tail);
    }
    LagStays(Stream(b, v, tail), n, |b| + |BindCell(v)|);
  }

  /** Everything but texts. */
  lemma PlainLags(b: seq<byte>, v: Value, dt: DataType, tail: seq<byte>) returns (n: nat)
    requires Lag(b) && BindFits(v) && !v.Str?
    requires ReadCell(dt, true, Stream(b, v, tail)).Done?
    requires ReadCell(dt, true, Stream(b, v, tail)).value == Canonical(v)
    ensures n <= |Stream(b, v, tail)| && ReadCell(dt, true, Stream(b, v, tail)).rest == Stream(b, v, tail)[n..]
    ensures StillLags(Stream(b, v, tail), n, |b| + |BindCell(v)|)
  {
    hide ReadCell, BindPayload, BindTag, BindCell, Be32, Signed, Stream, StillLags, Lag, BindFits;
    n := CellTakes(dt, Stream(b, v, tail));
    if v.Null? || v == Raw([]) {
      NullLags(b, v, n, tail);
    } else {
      SameWidthLags(b, v, n, tail);
    }
  }

  /** A text is read whole only if the tag before it is read too, as text. */
  lemma TextLags(b: seq<byte>, v: Value, dt: DataType, tail: seq<byte>) returns (n: nat)
    requires Lag(b) && BindFits(v) && v.Str?
    requires ReadCell(dt, true, Stream(b, v, tail)).Done?
    requires ReadCell(dt, true, Stream(b, v, tail)).value == Canonical(v)
    ensures n <= |Stream(b, v, tail)| && ReadCell(dt, true, Stream(b, v, tail)).rest == Stream(b, v, tail)[n..]
    ensures StillLags(Stream(b, v, tail), n, |b| + |BindCell(v)|)
  {
    hide ReadCell, BindTag, BindCell, Be32, Signed, Stream, StillLags, Utf8.Encode, Utf8.StripBytes;
    var s, d := Stream(b, v, tail), |b|;
    var front := d + |BindCell(v)|;
    n := CellTakes(dt, s);
    OwnCell(b, v, tail);
    assert BindTag(v) == 2 by { StringTag(v); }
    var e := Utf8.Encode(v.text);
    Utf8.StripCommutes(v.text);
    var payload := s[5..][..n - 5];
    assert payload == s[5..n];
    assert s[d + 5..front] == e + [0];
    assert s[front - 1] == 0 by { assert s[d + 5..front][|e|] == 0; }
    if n >= front { TextTooLong(s, d, n, front, e); }
    LagStays(s, n, front);
  }

  lemma StringTag(v: Value)
    requires v.Str?
    ensures BindTag(v) == 2
  {
  }

  /** Bytes that hold the tag and then the text are not the text. */
  lemma TextTooLong(s: seq<byte>, d: nat, n: nat, front: nat, e: seq<byte>)
    requires 1 <= d && front == d + 6 + |e| <= n <= |s|
    requires s[d + 4] == 2 && s[d + 5..front] == e + [0]
    ensures Utf8.StripBytes(s[5..n]) != Utf8.StripBytes(e)
  {
    var p, kept := s[5..n], Utf8.StripBytes(e);
    assert p[d - 1] == 2;
    if kept != [] {
      var last := |kept| - 1;
      assert e[last] != 0;
      assert s[d + 5..front][last] == e[last];
      assert p[d + last] == s[d + 5 + last] == s[d + 5..front][last];
    }
  }

  /** Reading a bound value too early, and getting it, leaves the reader too early. */
  lemma CellLags(b: seq<byte>, v: Value, dt: DataType, tail: seq<byte>) returns (b': seq<byte>)
    requires Lag(b) && BindFits(v)
    requires ReadCell(dt, true, Stream(b, v, tail)).Done?
    requires ReadCell(dt, true, Stream(b, v, tail)).value == Canonical(v)
    ensures Lag(b') && ReadCell(dt, true, Stream(b, v, tail)).rest == b' + tail
  {
    hide ReadCell, BindCell, Stream, Canonical, Lag, BindFits, BindPayload, BindTag, Be32;
    var n: nat;
    if v.Str? { n := TextLags(b, v, dt, tail); } else { n := PlainLags(b, v, dt, tail); }
    b' := LagAndTail(b, v, tail, n);
  }

  lemma LagAndTail(b: seq<byte>, v: Value, tail: seq<byte>, n: nat) returns (b': seq<byte>)
    requires BindFits(v) && StillLags(Stream(b, v, tail), n, |b| + |BindCell(v)|)
    ensures Lag(b') && n <= |Stream(b, v, tail)| && Stream(b, v, tail)[n..] == b' + tail
  {
    hide BindCell, Stream, Lag, BindFits, BindPayload, BindTag, Be32;
    OwnCell(b, v, tail);
    var s, front := Stream(b, v, tail), |b| + |BindCell(v)|;
    b' := s[n..front];
    assert s[n..] == s[n..front] + s[front..];
  }

  /** So a lagging reader never catches up. */
  lemma {:induction false} CellsLag(b: seq<byte>, ps: seq<Value>, columns: seq<ColumnMetaData>, rest: seq<byte>)
    requires Lag(b) && |columns| == |ps| && forall v :: v in ps ==> BindFits(v)
    requires ReadCells(columns, true, b + BindCells(ps) + rest).Done?
    requires ReadCells(columns, true, b + BindCells(ps) + rest).value == CanonicalRow(ps)
    ensures |ReadCells(columns, true, b + BindCells(ps) + rest).rest| > |rest|
    decreases |ps|
  {
    hide ReadCell, BindCell, Canonical, BindFits;
    if ps == [] {
      assert b + [] + rest == b + rest;
    } else {
      var tail := BindCells(ps[1..]) + rest;
      assert b + BindCells(ps) + rest == Stream(b, ps[0], tail);
      assert ps[0] in ps && forall v :: v in ps[1..] ==> v in ps;
      var first := ReadCell(columns[0].columnType, true, Stream(b, ps[0], tail));
      CanonicalTail(ps);
      assert first.value == CanonicalRow(ps)[0] == Canonical(ps[0]);
      var b' := CellLags(b, ps[0], columns[0].columnType, tail);
      Regroup(b', BindCells(ps[1..]), rest);
      var others := ReadCells(columns[1..], true, b' + BindCells(ps[1..]) + rest);
      assert ReadCells(columns, true, Stream(b, ps[0], tail)).value == [first.value] + others.value;
      assert others.value == CanonicalRow(ps[1..]);
      CellsLag(b', ps[1..], columns[1..], rest);
    }
  }

  // ---------------------------------------------------------------------------
  // Lists
  // ---------------------------------------------------------------------------

  predicate Timeless(ps: seq<Value>) {
    forall v :: v in ps ==> !v.Time? && !v.Timestamp?
  }

  /** The bytes a bound time or timestamp leaves unread. */
  function Leftover(v: Value): seq<byte>
    requires v.Time? || v.Timestamp?
  {
    if v.Time? then Triple(v.hour, v.minute, v.second) + Be16(0) else Be16(0)
  }

  lemma ClockLeaves(v: Value, dt: DataType, tail: seq<byte>)
    requires v.Time? || v.Timestamp?
    ensures ReadCell(dt, true, BindCell(v) + tail).Done?
    ensures ReadCell(dt, true, BindCell(v) + tail).rest == Leftover(v) + tail
    ensures Lag(Leftover(v))
  {
    hide ReadCell, BindCell, Be16;
    if v.Time? {
      TimeIsLost(v, dt, tail);
      Regroup(Triple(v.hour, v.minute, v.second), Be16(0), tail);
    } else {
      TimestampLeavesBytes(v, dt, tail);
    }
  }

  lemma RestExact(first: Value, columns: seq<ColumnMetaData>, s: seq<byte>, tail: seq<byte>, expected: Row,
                  rest: seq<byte>)
    requires columns != [] && |expected| == |columns| && expected[0] == first
    requires ReadCell(columns[0].columnType, true, s) == Done(first, tail)
    ensures ReadCells(columns, true, s) == Done(expected, rest)
            <==> ReadCells(columns[1..], true, tail) == Done(expected[1..], rest)
  {
    hide ReadCell;
    var others := ReadCells(columns[1..], true, tail);
    if others.Done? {
      assert ([first] + others.value)[1..] == others.value;
      assert expected == [first] + expected[1..];
    }
  }

  lemma NeverExact(v: Value, ps: seq<Value>, columns: seq<ColumnMetaData>, rest: seq<byte>)
    requires ps != [] && ps[0] == v && (v.Time? || v.Timestamp?)
    requires |columns| == |ps| && forall u :: u in ps ==> BindFits(u)
    ensures ReadCells(columns, true, BindCells(ps) + rest) != Done(CanonicalRow(ps), rest)
  {
    hide ReadCell, BindCell, Canonical, BindFits, Leftover, Lag, CanonicalRow;
    var tail, all := BindCells(ps[1..]) + rest, ReadCells(columns, true, BindCells(ps) + rest);
    Regroup(BindCell(v), BindCells(ps[1..]), rest);
    if all == Done(CanonicalRow(ps), rest) {
      ClockLeaves(v, columns[0].columnType, tail);
      CanonicalTail(ps);
      Regroup(Leftover(v), BindCells(ps[1..]), rest);
      RestExact(Canonical(v), columns, BindCells(ps) + rest, Leftover(v) + tail, CanonicalRow(ps), rest);
      assert forall u :: u in ps[1..] ==> u in ps;
      CellsLag(Leftover(v), ps[1..], columns[1..], rest);
    }
  }

  lemma NothingBound(columns: seq<ColumnMetaData>, rest: seq<byte>)
    requires columns == []
    ensures ReadCells(columns, true, BindCells([]) + rest) == Done(CanonicalRow([]), rest)
  {
    assert BindCells([]) + rest == rest;
  }

  lemma CanonicalTail(ps: seq<Value>)
    requires ps != []
    ensures |CanonicalRow(ps)| == |ps| && CanonicalRow(ps)[0] == Canonical(ps[0])
    ensures CanonicalRow(ps)[1..] == CanonicalRow(ps[1..])
  {
    hide Canonical;
    CanonicalLength(ps);
  }

  lemma {:induction false} CanonicalLength(ps: seq<Value>)
    ensures |CanonicalRow(ps)| == |ps|
  {
    hide Canonical;
    if ps != [] { CanonicalLength(ps[1..]); }
  }

  lemma {:induction false} CellsExact(ps: seq<Value>, columns: seq<ColumnMetaData>, rest: seq<byte>)
    requires |columns| == |ps| && forall v :: v in ps ==> BindFits(v)
    ensures ReadCells(columns, true, BindCells(ps) + rest) == Done(CanonicalRow(ps), rest) <==> Timeless(ps)
  {
    hide ReadCell, BindCell, Canonical, BindFits, Leftover, Lag, CanonicalRow;
    if ps == [] {
      NothingBound(columns, rest);
    } else {
      var v, tail := ps[0], BindCells(ps[1..]) + rest;
      assert v in ps && forall u :: u in ps[1..] ==> u in ps;
      assert forall u :: u in ps ==> u == v || u in ps[1..];
      Regroup(BindCell(v), BindCells(ps[1..]), rest);
      CanonicalTail(ps);
      CellsExact(ps[1..], columns[1..], rest);
      if v.Time? || v.Timestamp? {
        NeverExact(v, ps, columns, rest);
      } else {
        BindCellInverts(v, columns[0].columnType, tail);
        RestExact(Canonical(v), columns, BindCells(ps) + rest, tail, CanonicalRow(ps), rest);
      }
    }
  }

  /** Encoded parameters placed after a row header are one CALL row, consumed exactly and holding the canonical
      values, if and only if none of them is a time or a timestamp. */
  lemma BindListExact(ps: seq<Value>, columns: seq<ColumnMetaData>, index: i32, oid: seq<byte>, rest: seq<byte>)
    requires |columns| == |ps| && |oid| == 8
    requires forall v :: v in ps ==> BindFits(v)
    ensures ReadRow(columns, true, Be32(index) + (oid + (BindCells(ps) + rest))) == Done(CanonicalRow(ps), rest)
            <==> Timeless(ps)
  {
    hide Be32, Signed, BindCells, CanonicalRow, ReadCells, BindFits;
    CellsExact(ps, columns, rest);
  }
}
