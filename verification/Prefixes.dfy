/** The row parser never looks past what it consumes, and a cut-off row block is reported as such. */
module Prefixes {
  import opened Bytes
  import opened Wrappers
  import opened Types
  import opened Codec
  import opened Rows
  import Utf8

  /** Bytes appended to the input of a read change nothing unless the read ran out of bytes. */
  ghost predicate Extends<T>(small: Parse<T>, big: Parse<T>, more: seq<byte>) {
    small.HitsEnd() || big == small.Extend(more)
  }

  lemma TakeExtends(n: nat, s: seq<byte>, more: seq<byte>)
    ensures Extends(Take(n, s), Take(n, s + more), more)
  {
    if n <= |s| {
      assert (s + more)[..n] == s[..n];
      assert (s + more)[n..] == s[n..] + more;
    }
  }

  lemma TripleExtends(s: seq<byte>, more: seq<byte>)
    ensures Extends(ReadTriple(s), ReadTriple(s + more), more)
  {
    hide Signed;
    TakeExtends(2, s, more);
    if |s| >= 2 {
      TakeExtends(2, s[2..], more);
      if |s| >= 4 { TakeExtends(2, s[2..][2..], more); }
    }
  }

  lemma TextExtends(n: nat, s: seq<byte>, more: seq<byte>)
    ensures Extends(ReadText(n, s), ReadText(n, s + more), more)
  {
    hide Utf8.Decode, Utf8.StripBytes;
    TakeExtends(n, s, more);
  }

  lemma TimestampExtends(s: seq<byte>, more: seq<byte>)
    ensures Extends(ReadTimestamp(s), ReadTimestamp(s + more), more)
  {
    hide ReadTriple;
    TripleExtends(s, more);
    if ReadTriple(s).Done? { TripleExtends(ReadTriple(s).rest, more); }
  }

  lemma DatetimeExtends(s: seq<byte>, more: seq<byte>)
    ensures Extends(ReadDatetime(s), ReadDatetime(s + more), more)
  {
    hide ReadTriple, Signed;
    TripleExtends(s, more);
    if ReadTriple(s).Done? {
      var s1 := ReadTriple(s).rest;
      TripleExtends(s1, more);
      if ReadTriple(s1).Done? { TakeExtends(2, ReadTriple(s1).rest, more); }
    }
  }

  lemma ValueExtends(dt: DataType, size: nat, s: seq<byte>, more: seq<byte>)
    ensures Extends(ReadValue(dt, size, s), ReadValue(dt, size, s + more), more)
  {
    hide ReadText, ReadTriple, ReadTimestamp, ReadDatetime, Signed, Unsigned, Take;
    TextExtends(size, s, more);
    TakeExtends(size, s, more);
    TakeExtends(2, s, more);
    TakeExtends(4, s, more);
    TakeExtends(8, s, more);
    TripleExtends(s, more);
    TimestampExtends(s, more);
    DatetimeExtends(s, more);
  }

  lemma CellExtends(dt: DataType, call: bool, s: seq<byte>, more: seq<byte>)
    ensures Extends(ReadCell(dt, call, s), ReadCell(dt, call, s + more), more)
  {
    hide ReadValue, Signed, Take, DataTypeOf;
    TakeExtends(4, s, more);
    var size := ReadInt(s);
    if size.Done? && size.value > 0 {
      var body := size.rest;
      ValueExtends(dt, size.value, body, more);
      TakeExtends(1, body, more);
      var tag := ReadByte(body);
      if tag.Done? {
        TakeExtends(size.value - 1, tag.rest, more);
        var d := DataTypeOf(tag.value);
        if d.Some? { ValueExtends(d.value, size.value - 1, tag.rest, more); }
      }
    }
  }

  lemma {:induction false} CellsExtend(columns: seq<ColumnMetaData>, call: bool, s: seq<byte>, more: seq<byte>)
    ensures Extends(ReadCells(columns, call, s), ReadCells(columns, call, s + more), more)
    decreases columns
  {
    hide ReadCell;
    if columns != [] {
      CellExtends(columns[0].columnType, call, s, more);
      var v := ReadCell(columns[0].columnType, call, s);
      if v.Done? { CellsExtend(columns[1..], call, v.rest, more); }
    }
  }

  lemma RowExtends(columns: seq<ColumnMetaData>, call: bool, s: seq<byte>, more: seq<byte>)
    ensures Extends(ReadRow(columns, call, s), ReadRow(columns, call, s + more), more)
  {
    hide ReadCells, Signed;
    TakeExtends(4, s, more);
    if |s| >= 4 {
      TakeExtends(8, s[4..], more);
      if |s| >= 12 { CellsExtend(columns, call, s[4..][8..], more); }
    }
  }

  /** On any bytes at all, well formed or not, what follows a block of rows does not affect it. */
  lemma {:induction false} RowsExtend(
    n: nat, columns: seq<ColumnMetaData>, call: bool, s: seq<byte>, more: seq<byte>)
    ensures Extends(Many(RowReader(columns, call), n, s), Many(RowReader(columns, call), n, s + more), more)
    decreases n
  {
    hide ReadRow;
    if n > 0 {
      RowExtends(columns, call, s, more);
      assert RowReader(columns, call)(s) == ReadRow(columns, call, s);
      assert RowReader(columns, call)(s + more) == ReadRow(columns, call, s + more);
      var row := ReadRow(columns, call, s);
      if row.Done? { RowsExtend(n - 1, columns, call, row.rest, more); }
    }
  }

  /** Cutting the input anywhere inside the bytes a successful read consumed gives UnexpectedEof. */
  lemma {:induction false} RowsTruncated(n: nat, columns: seq<ColumnMetaData>, call: bool, s: seq<byte>, k: nat)
    requires Many(RowReader(columns, call), n, s).Done?
    requires k < |s| - |Many(RowReader(columns, call), n, s).rest|
    ensures Many(RowReader(columns, call), n, s[..k]).HitsEnd()
  {
    RowsExtend(n, columns, call, s[..k], s[k..]);
    assert s[..k] + s[k..] == s;
  }

  /** Every strict prefix of an encoding of rows is reported as cut off. */
  lemma {:induction false} EncodedRowsTruncated(rows: seq<WireRow>, columns: seq<ColumnMetaData>, call: bool, k: nat)
    requires forall row :: row in rows ==> RowFits(row, columns, call)
    requires k < |EncodeRows(rows, [])|
    ensures Many(RowReader(columns, call), |rows|, EncodeRows(rows, [])[..k]).HitsEnd()
  {
    RowsInvert(rows, columns, call, []);
    RowsTruncated(|rows|, columns, call, EncodeRows(rows, []), k);
  }
}
