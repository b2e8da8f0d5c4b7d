/** Client-side interpolation of parameters into SQL text, and what a quote-doubling scanner reads back. */
module Interpolation {
  import opened Bytes
  import opened Wrappers
  import opened Types
  import Text

  const QUOTE: char := '\''
  const MARK: char := '?'

  // ---------------------------------------------------------------------------
  // Formatting a value
  // ---------------------------------------------------------------------------

  /** The decimal text of floats, which is the standard library's business. */
  datatype FloatText = FloatText(single: u32 -> string, double: u64 -> string) {
    ghost predicate Plain() {
      && (forall b: u32 :: QUOTE !in single(b))
      && (forall b: u64 :: QUOTE !in double(b))
    }
  }

  /** `replace('\'', "''")` */
  function Escape(t: string): string {
    if t == [] then [] else (if t[0] == QUOTE then [QUOTE, QUOTE] else [t[0]]) + Escape(t[1..])
  }

  function Quoted(prefix: string, body: string): string {
    prefix + [QUOTE] + body + [QUOTE]
  }

  function DateText(y: i16, m: i16, d: i16): string {
    Text.Padded(y, 4) + "-" + Text.Padded(m, 2) + "-" + Text.Padded(d, 2)
  }

  function TimeText(h: i16, m: i16, s: i16): string {
    Text.Padded(h, 2) + ":" + Text.Padded(m, 2) + ":" + Text.Padded(s, 2)
  }

  /** `format_value` */
  function FormatValue(v: Value, floats: FloatText): string {
    match v
    case Null => "NULL"
    case Bool(b) => if b then "1" else "0"
    case Short(n) => Text.Decimal(n)
    case Int(n) => Text.Decimal(n)
    case Long(n) => Text.Decimal(n)
    case Float(bits) => floats.single(bits)
    case Double(bits) => floats.double(bits)
    case Str(t) => Quoted("", Escape(t))
    case Raw(b) => Quoted("X", Text.Hex(b))
    case Date(y, m, d) => Quoted("DATE", DateText(y, m, d))
    case Time(h, m, s) => Quoted("TIME", TimeText(h, m, s))
    case Timestamp(y, m, d, h, n, s) => Quoted("TIMESTAMP", DateText(y, m, d) + " " + TimeText(h, n, s))
    case Datetime(y, m, d, h, n, s, ms) =>
      Quoted("DATETIME", DateText(y, m, d) + " " + TimeText(h, n, s) + "." + Text.Padded(ms, 3))
  }

  function Fills(params: seq<Value>, floats: FloatText): (r: seq<string>)
    ensures |r| == |params|
  {
    if params == [] then [] else [FormatValue(params[0], floats)] + Fills(params[1..], floats)
  }

  // ---------------------------------------------------------------------------
  // Interpolation as a character automaton whose state is the quote parity
  // ---------------------------------------------------------------------------

  /** Replaces unquoted marks by fills, left to right, as long as there are fills. */
  function Substitute(s: string, fills: seq<string>, inside: bool): string {
    if s == [] then []
    else if !inside && s[0] == MARK && fills != [] then fills[0] + Substitute(s[1..], fills[1..], false)
    else [s[0]] + Substitute(s[1..], fills, inside != (s[0] == QUOTE))
  }

  lemma SubstituteStep(before: string, s: string, fills: seq<string>, inside: bool)
    requires s != []
    ensures !inside && s[0] == MARK && fills != [] ==>
              before + Substitute(s, fills, inside) == (before + fills[0]) + Substitute(s[1..], fills[1..], false)
    ensures inside || s[0] != MARK || fills == [] ==>
              before + Substitute(s, fills, inside)
              == (before + [s[0]]) + Substitute(s[1..], fills, inside != (s[0] == QUOTE))
  {
  }

  /** `interpolate_params`: the iterator is the position i. */
  method InterpolateParams(sql: string, params: seq<Value>, floats: FloatText) returns (result: string)
    ensures result == Substitute(sql, Fills(params, floats), false)
  {
    hide Substitute, FormatValue;
    if params == [] {
      NothingToFill(sql, false);
      return sql;
    }
    ghost var fills := Fills(params, floats);
    result := "";
    assert [] + Substitute(sql, fills, false) == Substitute(sql, fills, false);
    var paramIdx := 0;
    var i := 0;
    assert sql[0..] == sql && fills[0..] == fills;
    while i < |sql|
      invariant 0 <= i <= |sql| && 0 <= paramIdx <= |params|
      invariant result + Substitute(sql[i..], fills[paramIdx..], false) == Substitute(sql, fills, false)
    {
      var ch := sql[i];
      SubstituteStep(result, sql[i..], fills[paramIdx..], false);
      assert sql[i..][1..] == sql[i + 1..];
      i := i + 1;
      if ch == MARK && paramIdx < |params| {
        FillAt(params, floats, paramIdx);
        assert fills[paramIdx..][1..] == fills[paramIdx + 1..];
        result := result + FormatValue(params[paramIdx], floats);
        paramIdx := paramIdx + 1;
      } else if ch == QUOTE {
        result := result + [ch];
        var closed := false;
        while i < |sql| && !closed
          invariant 0 <= i <= |sql|
          invariant result + Substitute(sql[i..], fills[paramIdx..], !closed) == Substitute(sql, fills, false)
        {
          SubstituteStep(result, sql[i..], fills[paramIdx..], true);
          assert sql[i..][1..] == sql[i + 1..];
          result := result + [sql[i]];
          closed := sql[i] == QUOTE;
          i := i + 1;
        }
        if !closed { assert sql[i..] == []; }
        SubstituteNothing(fills[paramIdx..]);
      } else {
        result := result + [ch];
      }
    }
    assert sql[i..] == [];
    SubstituteNothing(fills[paramIdx..]);
    assert result + [] == result;
  }

  lemma SubstituteNothing(fills: seq<string>)
    ensures Substitute([], fills, true) == Substitute([], fills, false) == []
  {
  }

  lemma {:induction false} FillAt(params: seq<Value>, floats: FloatText, i: nat)
    requires i < |params|
    ensures Fills(params, floats)[i] == FormatValue(params[i], floats)
  {
    if i > 0 { FillAt(params[1..], floats, i - 1); }
  }

  /** Without parameters the loop would copy the text: the early return is the same. */
  lemma {:induction false} NothingToFill(s: string, inside: bool)
    ensures Substitute(s, [], inside) == s
  {
    if s != [] { NothingToFill(s[1..], inside != (s[0] == QUOTE)); }
  }

  // ---------------------------------------------------------------------------
  // The template cut at the marks that are replaced
  // ---------------------------------------------------------------------------

  /** The number of unquoted marks. */
  function Marks(s: string, inside: bool): nat {
    if s == [] then 0
    else (if !inside && s[0] == MARK then 1 else 0) + Marks(s[1..], inside != (s[0] == QUOTE))
  }

  /** The text before, between and after the first n unquoted marks. */
  function Pieces(s: string, n: nat, inside: bool): (r: seq<string>)
    ensures r != []
  {
    if s == [] then [[]]
    else if !inside && s[0] == MARK && n > 0 then [[]] + Pieces(s[1..], n - 1, false)
    else
      var r := Pieces(s[1..], n, inside != (s[0] == QUOTE));
      [[s[0]] + r[0]] + r[1..]
  }

  function Concat(segments: seq<string>): string {
    if segments == [] then [] else segments[0] + Concat(segments[1..])
  }

  /** Pieces and fills, alternating. */
  function Weave(pieces: seq<string>, fills: seq<string>): (r: seq<string>)
    requires |pieces| >= 1
    ensures r != [] && r[0] == pieces[0]
  {
    if |pieces| == 1 || fills == [] then [pieces[0]]
    else [pieces[0], fills[0]] + Weave(pieces[1..], fills[1..])
  }

  /** As many marks are replaced as there are marks and parameters. */
  lemma {:induction false} PieceCount(s: string, n: nat, inside: bool)
    ensures |Pieces(s, n, inside)| == (if Marks(s, inside) < n then Marks(s, inside) else n) + 1
  {
    if s != [] {
      PieceCount(s[1..], if !inside && s[0] == MARK && n > 0 then n - 1 else n, inside != (s[0] == QUOTE));
    }
  }

  lemma WeaveHead(c: char, pieces: seq<string>, fills: seq<string>)
    requires |pieces| >= 1
    ensures Concat(Weave([[c] + pieces[0]] + pieces[1..], fills)) == [c] + Concat(Weave(pieces, fills))
  {
    var longer := [[c] + pieces[0]] + pieces[1..];
    var w, w' := Weave(pieces, fills), Weave(longer, fills);
    assert longer[1..] == pieces[1..];
    assert w'[1..] == w[1..];
    assert ([c] + w[0]) + Concat(w[1..]) == [c] + (w[0] + Concat(w[1..]));
  }

  /** The result is the pieces with the fills between them: everything else is copied verbatim. */
  lemma {:induction false} SubstituteWeaves(s: string, fills: seq<string>, inside: bool)
    ensures Substitute(s, fills, inside) == Concat(Weave(Pieces(s, |fills|, inside), fills))
  {
    if s == [] {
      assert Weave([[]], fills) == [[]];
      assert Concat([[]]) == [];
    } else if !inside && s[0] == MARK && fills != [] {
      SubstituteWeaves(s[1..], fills[1..], false);
      var rest := Pieces(s[1..], |fills| - 1, false);
      assert ([[]] + rest)[1..] == rest;
      var w := Weave(rest, fills[1..]);
      assert Weave([[]] + rest, fills) == [[], fills[0]] + w;
      assert ([[], fills[0]] + w)[1..] == [fills[0]] + w;
      assert Concat([fills[0]] + w) == fills[0] + Concat(w);
    } else {
      SubstituteWeaves(s[1..], fills, inside != (s[0] == QUOTE));
      WeaveHead(s[0], Pieces(s[1..], |fills|, inside != (s[0] == QUOTE)), fills);
    }
  }

  function MarkList(n: nat): (r: seq<string>)
    ensures |r| == n && forall m :: m in r ==> m == [MARK]
  {
    if n == 0 then [] else [[MARK]] + MarkList(n - 1)
  }

  /** Marks in place of marks change nothing. */
  lemma {:induction false} MarksForMarks(s: string, n: nat, inside: bool)
    ensures Substitute(s, MarkList(n), inside) == s
  {
    if s != [] {
      if !inside && s[0] == MARK && n > 0 {
        MarksForMarks(s[1..], n - 1, false);
        assert MarkList(n)[0] == [MARK] && MarkList(n)[1..] == MarkList(n - 1);
      } else {
        MarksForMarks(s[1..], n, inside != (s[0] == QUOTE));
      }
      assert [s[0]] + s[1..] == s;
    }
  }

  /** Marks put back between the pieces give the template. */
  lemma PiecesOfTemplate(s: string, n: nat, inside: bool)
    ensures Concat(Weave(Pieces(s, n, inside), MarkList(n))) == s
  {
    SubstituteWeaves(s, MarkList(n), inside);
    MarksForMarks(s, n, inside);
  }

  // ---------------------------------------------------------------------------
  // Reading literals back
  // ---------------------------------------------------------------------------

  /** The string literals of SQL text, a doubled quote being one quote (section 5.3 of ISO/IEC 9075-2). */
  function Literals(s: string): seq<string>
    decreases |s|
  {
    if s == [] then []
    else if s[0] == QUOTE then Literal(s[1..], [])
    else Literals(s[1..])
  }

  /** The scan inside a literal whose text so far is `text`. */
  function Literal(s: string, text: string): (r: seq<string>)
    ensures r != []
    decreases |s|
  {
    if s == [] then [text]
    else if s[0] != QUOTE then Literal(s[1..], text + [s[0]])
    else if |s| > 1 && s[1] == QUOTE then Literal(s[2..], text + [QUOTE])
    else [text] + Literals(s[1..])
  }

  function Quotes(s: string): nat {
    if s == [] then 0 else (if s[0] == QUOTE then 1 else 0) + Quotes(s[1..])
  }

  predicate Even(s: string) { Quotes(s) % 2 == 0 }

  /** A closing quote would meet an opening one, and be read as a doubled quote. */
  predicate Touch(a: string, b: string) {
    a != [] && b != [] && a[|a| - 1] == QUOTE && b[0] == QUOTE
  }

  lemma {:induction false} LiteralsConcat(a: string, b: string)
    requires Even(a) && !Touch(a, b)
    ensures Literals(a + b) == Literals(a) + Literals(b)
    decreases |a|
  {
    if a == [] {
      assert a + b == b;
    } else {
      assert (a + b)[1..] == a[1..] + b;
      if a[0] == QUOTE { LiteralConcat(a[1..], [], b); } else { LiteralsConcat(a[1..], b); }
    }
  }

  lemma {:induction false} LiteralConcat(a: string, text: string, b: string)
    requires !Even(a) && !Touch(a, b)
    ensures Literal(a + b, text) == Literal(a, text) + Literals(b)
    decreases |a|
  {
    assert (a + b)[1..] == a[1..] + b;
    if a[0] != QUOTE {
      LiteralConcat(a[1..], text + [a[0]], b);
    } else if |a| > 1 && a[1] == QUOTE {
      assert (a + b)[2..] == a[2..] + b;
      assert Quotes(a) == 1 + Quotes(a[1..]) == 2 + Quotes(a[1..][1..]);
      assert a[1..][1..] == a[2..];
      LiteralConcat(a[2..], text + [QUOTE], b);
    } else {
      LiteralsConcat(a[1..], b);
      assert [text] + (Literals(a[1..]) + Literals(b)) == ([text] + Literals(a[1..])) + Literals(b);
    }
  }

  lemma {:induction false} LiteralCount(s: string, text: string, other: string)
    ensures |Literal(s, text)| == |Literal(s, other)|
    decreases |s|
  {
    if s != [] {
      if s[0] != QUOTE {
        LiteralCount(s[1..], text + [s[0]], other + [s[0]]);
      } else if |s| > 1 && s[1] == QUOTE {
        LiteralCount(s[2..], text + [QUOTE], other + [QUOTE]);
      }
    }
  }

  /** Where quotes touch, two literals become one. */
  lemma {:induction false} LiteralsMerge(a: string, b: string)
    requires Even(a) && Touch(a, b)
    ensures |Literals(a + b)| == |Literals(a)| + |Literals(b)| - 1
    decreases |a|
  {
    assert (a + b)[1..] == a[1..] + b;
    if a[0] == QUOTE { LiteralMerges(a[1..], [], b); } else { LiteralsMerge(a[1..], b); }
  }

  lemma {:induction false} LiteralMerges(a: string, text: string, b: string)
    requires !Even(a) && Touch(a, b)
    ensures |Literal(a + b, text)| == |Literal(a, text)| + |Literals(b)| - 1
    decreases |a|
  {
    assert (a + b)[1..] == a[1..] + b;
    if a[0] != QUOTE {
      LiteralMerges(a[1..], text + [a[0]], b);
    } else if |a| > 1 && a[1] == QUOTE {
      assert (a + b)[2..] == a[2..] + b;
      assert Quotes(a) == 1 + Quotes(a[1..]) == 2 + Quotes(a[1..][1..]);
      assert a[1..][1..] == a[2..];
      LiteralMerges(a[2..], text + [QUOTE], b);
    } else if |a| == 1 {
      assert (a + b)[2..] == b[1..];
      LiteralCount(b[1..], text + [QUOTE], []);
      assert Literals(a[1..]) == [];
    } else {
      LiteralsMerge(a[1..], b);
    }
  }

  function AllLiterals(segments: seq<string>): seq<string> {
    if segments == [] then [] else Literals(segments[0]) + AllLiterals(segments[1..])
  }

  /** No segment ends in a quote that meets a quote in what follows. */
  predicate Apart(segments: seq<string>) {
    segments != [] ==> !Touch(segments[0], Concat(segments[1..])) && Apart(segments[1..])
  }

  /** All segments but the last leave the parity as it was. */
  predicate Balanced(segments: seq<string>) {
    forall i :: 0 <= i < |segments| - 1 ==> Even(segments[i])
  }

  /** The scanner reads the segments one by one exactly when they are apart. */
  lemma {:induction false} ScanSegments(segments: seq<string>)
    requires Balanced(segments)
    ensures Literals(Concat(segments)) == AllLiterals(segments) <==> Apart(segments)
    ensures |Literals(Concat(segments))| <= |AllLiterals(segments)|
  {
    if |segments| == 1 {
      assert Concat(segments) == segments[0] + [] == segments[0];
      assert AllLiterals(segments) == Literals(segments[0]) + [] == Literals(segments[0]);
    } else if |segments| > 1 {
      var a, rest := segments[0], segments[1..];
      ScanSegments(rest);
      if Touch(a, Concat(rest)) {
        LiteralsMerge(a, Concat(rest));
      } else {
        LiteralsConcat(a, Concat(rest));
        SamePrefix(Literals(a), Literals(Concat(rest)), AllLiterals(rest));
      }
    }
  }

  lemma SamePrefix(a: seq<string>, b: seq<string>, c: seq<string>)
    ensures a + b == a + c <==> b == c
  {
    assert (a + b)[|a|..] == b && (a + c)[|a|..] == c;
  }

  // ---------------------------------------------------------------------------
  // The segments of an interpolation
  // ---------------------------------------------------------------------------

  /** The literals a bound value contributes: its text, unescaped. */
  function ValueLiterals(v: Value): seq<string> {
    match v
    case Str(t) => [t]
    case Raw(b) => [Text.Hex(b)]
    case Date(y, m, d) => [DateText(y, m, d)]
    case Time(h, m, s) => [TimeText(h, m, s)]
    case Timestamp(y, m, d, h, n, s) => [DateText(y, m, d) + " " + TimeText(h, n, s)]
    case Datetime(y, m, d, h, n, s, ms) =>
      [DateText(y, m, d) + " " + TimeText(h, n, s) + "." + Text.Padded(ms, 3)]
    case _ => []
  }

  lemma {:induction false} NoQuotes(s: string)
    requires QUOTE !in s
    ensures Quotes(s) == 0 && Literals(s) == []
  {
    if s != [] { NoQuotes(s[1..]); }
  }

  lemma {:induction false} QuotesConcat(a: string, b: string)
    ensures Quotes(a + b) == Quotes(a) + Quotes(b)
  {
    if a == [] {
      assert a + b == b;
    } else {
      assert (a + b)[1..] == a[1..] + b;
      QuotesConcat(a[1..], b);
    }
  }

  lemma {:induction false} EscapedLiteral(t: string, text: string)
    ensures Literal(Escape(t) + [QUOTE], text) == [text + t]
    ensures Even(Escape(t))
    decreases |t|
  {
    var s := Escape(t) + [QUOTE];
    if t == [] {
      assert s == [QUOTE] && s[1..] == [];
      assert text + t == text;
    } else {
      var head := if t[0] == QUOTE then [QUOTE, QUOTE] else [t[0]];
      EscapedLiteral(t[1..], text + [t[0]]);
      assert s == head + (Escape(t[1..]) + [QUOTE]);
      assert (text + [t[0]]) + t[1..] == text + t;
      QuotesConcat(head, Escape(t[1..]));
      assert Quotes(head) == if t[0] == QUOTE then 2 else 0 by { assert head[1..] == [] || head[1..] == [QUOTE]; }
    }
  }

  lemma {:induction false} PlainLiteral(body: string, text: string)
    requires QUOTE !in body
    ensures Literal(body + [QUOTE], text) == [text + body]
    decreases |body|
  {
    var s := body + [QUOTE];
    if body == [] {
      assert s == [QUOTE] && s[1..] == [];
      assert text + body == text;
    } else {
      PlainLiteral(body[1..], text + [body[0]]);
      assert s[1..] == body[1..] + [QUOTE];
      assert (text + [body[0]]) + body[1..] == text + body;
    }
  }

  lemma QuotedLiteral(prefix: string, body: string)
    requires QUOTE !in prefix && QUOTE !in body
    ensures Literals(Quoted(prefix, body)) == [body] && Even(Quoted(prefix, body))
  {
    NoQuotes(prefix);
    NoQuotes(body);
    PlainLiteral(body, []);
    var rest := [QUOTE] + (body + [QUOTE]);
    assert Quoted(prefix, body) == prefix + rest;
    assert rest[1..] == body + [QUOTE];
    LiteralsConcat(prefix, rest);
    QuotesConcat(prefix, rest);
    QuotesConcat(body, [QUOTE]);
    assert [] + body == body;
    assert Quotes([QUOTE]) == 1;
  }

  lemma EscapedReads(t: string)
    ensures Even(Quoted("", Escape(t)))
    ensures Literals(Quoted("", Escape(t))) == [t]
  {
    EscapedLiteral(t, []);
    var s := Quoted("", Escape(t));
    assert s == [QUOTE] + (Escape(t) + [QUOTE]);
    assert s[1..] == Escape(t) + [QUOTE];
    QuotesConcat(Escape(t), [QUOTE]);
    assert Quotes([QUOTE]) == 1;
    assert [] + t == t;
  }

  /** The text of dates and times has no quote. */
  lemma ClockText(y: i16, m: i16, d: i16, h: i16, n: i16, s: i16, ms: i16)
    ensures QUOTE !in DateText(y, m, d)
    ensures QUOTE !in TimeText(h, n, s)
    ensures QUOTE !in DateText(y, m, d) + " " + TimeText(h, n, s)
    ensures QUOTE !in DateText(y, m, d) + " " + TimeText(h, n, s) + "." + Text.Padded(ms, 3)
  {
    hide Text.Padded;
  }

  /** The formatted values without quotes. */
  predicate Bare(v: Value) {
    v.Null? || v.Bool? || v.Short? || v.Int? || v.Long? || v.Float? || v.Double?
  }

  lemma BareText(v: Value, floats: FloatText)
    requires floats.Plain() && Bare(v)
    ensures QUOTE !in FormatValue(v, floats)
  {
    hide Text.Decimal;
  }

  /** Every formatted value leaves the parity alone and reads back as what was bound. */
  lemma FormattedLiterals(v: Value, floats: FloatText)
    requires floats.Plain()
    ensures Even(FormatValue(v, floats))
    ensures Literals(FormatValue(v, floats)) == ValueLiterals(v)
  {
    hide Text.Padded, Text.Hex, Text.Decimal, Literals, Quotes, DateText, TimeText, Quoted, Escape;
    if Bare(v) {
      BareText(v, floats);
      NoQuotes(FormatValue(v, floats));
    } else {
      match v
      case Str(t) => EscapedReads(t);
      case Raw(b) => QuotedLiteral("X", Text.Hex(b));
      case Date(y, m, d) =>
        ClockText(y, m, d, 0, 0, 0, 0);
        QuotedLiteral("DATE", DateText(y, m, d));
      case Time(h, n, s) =>
        ClockText(0, 0, 0, h, n, s, 0);
        QuotedLiteral("TIME", TimeText(h, n, s));
      case Timestamp(y, m, d, h, n, s) =>
        ClockText(y, m, d, h, n, s, 0);
        QuotedLiteral("TIMESTAMP", DateText(y, m, d) + " " + TimeText(h, n, s));
      case Datetime(y, m, d, h, n, s, ms) =>
        ClockText(y, m, d, h, n, s, ms);
        QuotedLiteral("DATETIME", DateText(y, m, d) + " " + TimeText(h, n, s) + "." + Text.Padded(ms, 3));
    }
  }

  /** Every piece but the last is balanced. */
  lemma {:induction false} PiecesBalanced(s: string, n: nat, inside: bool)
    ensures var r := Pieces(s, n, inside);
            && (|r| > 1 ==> Even(r[0]) == !inside)
            && forall i :: 1 <= i < |r| - 1 ==> Even(r[i])
  {
    if s != [] {
      if !inside && s[0] == MARK && n > 0 {
        PiecesBalanced(s[1..], n - 1, false);
      } else {
        var r := Pieces(s[1..], n, inside != (s[0] == QUOTE));
        PiecesBalanced(s[1..], n, inside != (s[0] == QUOTE));
        assert ([s[0]] + r[0])[1..] == r[0];
      }
    }
  }

  lemma {:induction false} WeaveBalanced(pieces: seq<string>, fills: seq<string>)
    requires |pieces| >= 1
    requires forall i :: 0 <= i < |pieces| - 1 ==> Even(pieces[i])
    requires forall f :: f in fills ==> Even(f)
    ensures Balanced(Weave(pieces, fills))
  {
    if |pieces| > 1 && fills != [] {
      WeaveBalanced(pieces[1..], fills[1..]);
      var w := Weave(pieces[1..], fills[1..]);
      forall i | 0 <= i < |w| + 1
        ensures Even(Weave(pieces, fills)[i])
      {
        if i >= 2 { assert Weave(pieces, fills)[i] == w[i - 2]; }
      }
    }
  }

  /** The literals of the pieces with the given ones between them. */
  function Interleave(pieces: seq<string>, between: seq<seq<string>>): seq<string>
    requires |pieces| >= 1
  {
    if |pieces| == 1 || between == [] then Literals(pieces[0])
    else Literals(pieces[0]) + between[0] + Interleave(pieces[1..], between[1..])
  }

  lemma {:induction false} WeaveLiterals(pieces: seq<string>, fills: seq<string>, between: seq<seq<string>>)
    requires |pieces| >= 1 && |fills| == |between|
    requires forall i :: 0 <= i < |fills| ==> Literals(fills[i]) == between[i]
    ensures AllLiterals(Weave(pieces, fills)) == Interleave(pieces, between)
  {
    if |pieces| > 1 && fills != [] {
      var w := Weave(pieces[1..], fills[1..]);
      WeaveLiterals(pieces[1..], fills[1..], between[1..]);
      var all := [pieces[0], fills[0]] + w;
      assert all[1..] == [fills[0]] + w && all[1..][1..] == w;
      assert AllLiterals(all) == Literals(pieces[0]) + (Literals(fills[0]) + AllLiterals(w));
    } else {
      assert AllLiterals([pieces[0]]) == Literals(pieces[0]) + [];
    }
  }

  function ParamLiterals(params: seq<Value>): (r: seq<seq<string>>)
    ensures |r| == |params| && forall i :: 0 <= i < |r| ==> r[i] == ValueLiterals(params[i])
  {
    seq(|params|, i requires 0 <= i < |params| => ValueLiterals(params[i]))
  }

  lemma {:induction false} FillsRead(params: seq<Value>, floats: FloatText)
    requires floats.Plain()
    ensures forall f :: f in Fills(params, floats) ==> Even(f)
    ensures forall i :: 0 <= i < |params| ==> Literals(Fills(params, floats)[i]) == ValueLiterals(params[i])
  {
    hide FormatValue, ValueLiterals;
    var fills := Fills(params, floats);
    forall i | 0 <= i < |params|
      ensures Even(fills[i]) && Literals(fills[i]) == ValueLiterals(params[i])
    {
      FillAt(params, floats, i);
      FormattedLiterals(params[i], floats);
    }
  }

  /** The result, cut at its seams. */
  function Segments(sql: string, params: seq<Value>, floats: FloatText): seq<string> {
    Weave(Pieces(sql, |params|, false), Fills(params, floats))
  }

  /** The scanner reads the literals of the template's pieces and the bound values, in order, exactly when no
      quote of a piece meets a quote of a value, and no quotes of two values meet. */
  lemma {:induction false} InterpolationReads(sql: string, params: seq<Value>, floats: FloatText)
    requires floats.Plain()
    ensures Literals(Substitute(sql, Fills(params, floats), false))
            == Interleave(Pieces(sql, |params|, false), ParamLiterals(params))
            <==> Apart(Segments(sql, params, floats))
  {
    hide Substitute, Fills, Pieces, Weave, Literals, Interleave, AllLiterals, ValueLiterals;
    var fills, pieces := Fills(params, floats), Pieces(sql, |params|, false);
    SubstituteWeaves(sql, fills, false);
    FillsRead(params, floats);
    PiecesBalanced(sql, |params|, false);
    WeaveBalanced(pieces, fills);
    WeaveLiterals(pieces, fills, ParamLiterals(params));
    ScanSegments(Weave(pieces, fills));
  }

  /** The template's own literals are those of its pieces. */
  lemma TemplateReads(sql: string, n: nat)
    ensures Literals(sql) == Interleave(Pieces(sql, n, false), seq(n, i => []))
  {
    var marks, pieces := MarkList(n), Pieces(sql, n, false);
    NoQuotes([MARK]);
    PiecesOfTemplate(sql, n, false);
    PiecesBalanced(sql, n, false);
    WeaveBalanced(pieces, marks);
    assert forall i :: 0 <= i < n ==> marks[i] in marks;
    WeaveLiterals(pieces, marks, seq(n, i => []));
    MarksKeepApart(pieces, marks);
    ScanSegments(Weave(pieces, marks));
  }

  lemma {:induction false} MarksKeepApart(pieces: seq<string>, marks: seq<string>)
    requires |pieces| >= 1 && forall m :: m in marks ==> m == [MARK]
    ensures Apart(Weave(pieces, marks))
  {
    if |pieces| > 1 && marks != [] {
      assert forall m :: m in marks[1..] ==> m in marks;
      MarksKeepApart(pieces[1..], marks[1..]);
      var w := Weave(pieces[1..], marks[1..]);
      var all := [pieces[0], marks[0]] + w;
      assert all[1..] == [marks[0]] + w && all[1..][1..] == w;
      assert marks[0] in marks;
      assert Concat(all[1..]) == [MARK] + Concat(w);
    } else {
      assert Weave(pieces, marks) == [pieces[0]];
    }
  }

  // ---------------------------------------------------------------------------
  // A condition on the template alone
  // ---------------------------------------------------------------------------

  predicate Replaced(c: char, n: nat, inside: bool) { !inside && c == MARK && n > 0 }

  /** No mark that is replaced stands next to a quote or another mark that is. */
  predicate Spaced(s: string, n: nat, inside: bool) {
    if |s| <= 1 then true
    else
      var inside' := inside != (s[0] == QUOTE);
      var n' := if Replaced(s[0], n, inside) then n - 1 else n;
      && (Replaced(s[0], n, inside) ==> s[1] != QUOTE && !Replaced(s[1], n', inside'))
      && (Replaced(s[1], n', inside') ==> s[0] != QUOTE)
      && Spaced(s[1..], n', inside')
  }

  lemma {:induction false} SpacedIsApart(s: string, fills: seq<string>, inside: bool)
    requires Spaced(s, |fills|, inside)
    ensures Apart(Weave(Pieces(s, |fills|, inside), fills))
  {
    hide Touch;
    if s == [] {
      assert Weave([[]], fills) == [[]];
      NothingTouches([], []);
    } else if Replaced(s[0], |fills|, inside) {
      SpacedIsApart(s[1..], fills[1..], false);
      StartsWith(s[1..], fills[1..], false);
      ApartAfterMark(Pieces(s[1..], |fills| - 1, false), fills);
    } else {
      var inside' := inside != (s[0] == QUOTE);
      SpacedIsApart(s[1..], fills, inside');
      ApartAfterChar(s, fills, inside);
    }
  }

  lemma NothingTouches(a: string, b: string)
    requires a == [] || b == [] || b[0] != QUOTE
    ensures !Touch(a, b)
  {
  }

  lemma ApartAfterMark(rest: seq<string>, fills: seq<string>)
    requires |rest| >= 1 && fills != []
    requires Apart(Weave(rest, fills[1..]))
    requires Concat(Weave(rest, fills[1..])) == [] || Concat(Weave(rest, fills[1..]))[0] != QUOTE
    ensures Apart(Weave([[]] + rest, fills))
  {
    var w := Weave(rest, fills[1..]);
    var all := [[], fills[0]] + w;
    assert ([[]] + rest)[1..] == rest;
    assert Weave([[]] + rest, fills) == all;
    assert all[1..] == [fills[0]] + w && all[1..][1..] == w;
    NothingTouches(fills[0], Concat(w));
    NothingTouches([], Concat(all[1..]));
  }

  lemma ApartAfterChar(s: string, fills: seq<string>, inside: bool)
    requires s != [] && Spaced(s, |fills|, inside) && !Replaced(s[0], |fills|, inside)
    requires Apart(Weave(Pieces(s[1..], |fills|, inside != (s[0] == QUOTE)), fills))
    ensures Apart(Weave(Pieces(s, |fills|, inside), fills))
  {
    var c, inside' := s[0], inside != (s[0] == QUOTE);
    var r := Pieces(s[1..], |fills|, inside');
    var longer := [[c] + r[0]] + r[1..];
    var w, w' := Weave(r, fills), Weave(longer, fills);
    assert longer[1..] == r[1..];
    assert w' == [[c] + r[0]] + w[1..];
    if r[0] == [] {
      if s[1..] == [] {
        assert w == [[]] && w[1..] == [];
      } else {
        assert Replaced(s[1], |fills|, inside');
      }
    } else {
      assert ([c] + r[0])[|r[0]|] == r[0][|r[0]| - 1];
    }
  }

  /** The result starts with the template's first character unless that is replaced. */
  lemma StartsWith(s: string, fills: seq<string>, inside: bool)
    requires s != [] ==> !Replaced(s[0], |fills|, inside)
    ensures var w := Concat(Weave(Pieces(s, |fills|, inside), fills));
            if s == [] then w == [] else w != [] && w[0] == s[0]
  {
    SubstituteWeaves(s, fills, inside);
  }

  /** Formatted empty strings. */
  function Empties(n: nat): seq<string> {
    if n == 0 then [] else [[QUOTE, QUOTE]] + Empties(n - 1)
  }

  lemma {:induction false} EmptiesAre(n: nat)
    ensures |Empties(n)| == n && (n > 0 ==> Empties(n)[0] == [QUOTE, QUOTE] && Empties(n)[1..] == Empties(n - 1))
  {
    if n > 0 { EmptiesAre(n - 1); }
  }

  /** They meet a quote, or one another, wherever the template lets them. */
  lemma {:induction false} NotSpacedTouches(s: string, n: nat, inside: bool)
    requires !Spaced(s, n, inside)
    ensures !Apart(Weave(Pieces(s, n, inside), Empties(n)))
  {
    hide Touch, Empties, Pieces;
    EmptiesAre(n);
    var inside' := inside != (s[0] == QUOTE);
    if Replaced(s[0], n, inside) {
      var rest := Pieces(s[1..], n - 1, false);
      TouchAfterMark(s, n, inside, rest);
      if !Spaced(s[1..], n - 1, false) {
        NotSpacedTouches(s[1..], n - 1, false);
      } else {
        FirstCharacter(s[1..], n - 1, false);
      }
    } else {
      TouchAfterChar(s, n, inside);
      if !Spaced(s[1..], n, inside') { NotSpacedTouches(s[1..], n, inside'); }
    }
  }

  /** A replaced mark at the start puts a quote there. */
  lemma FirstCharacter(s: string, n: nat, inside: bool)
    requires s != []
    ensures var w := Concat(Weave(Pieces(s, n, inside), Empties(n)));
            w != [] && w[0] == if Replaced(s[0], n, inside) then QUOTE else s[0]
  {
    EmptiesAre(n);
    SubstituteWeaves(s, Empties(n), inside);
  }

  lemma TouchAfterMark(s: string, n: nat, inside: bool, rest: seq<string>)
    requires s != [] && Replaced(s[0], n, inside) && rest == Pieces(s[1..], n - 1, false)
    ensures var w := Weave(rest, Empties(n - 1));
            Apart(Weave(Pieces(s, n, inside), Empties(n)))
            ==> Apart(w) && !(Concat(w) != [] && Concat(w)[0] == QUOTE)
  {
    EmptiesAre(n);
    var w := Weave(rest, Empties(n - 1));
    var all := [[], [QUOTE, QUOTE]] + w;
    assert ([[]] + rest)[1..] == rest;
    assert Weave(Pieces(s, n, inside), Empties(n)) == all;
    assert all[1..] == [[QUOTE, QUOTE]] + w && all[1..][1..] == w;
    assert Apart(all) ==> Apart(all[1..]);
    assert Apart(all[1..]) ==> !Touch([QUOTE, QUOTE], Concat(w)) && Apart(w);
  }

  lemma TouchAfterChar(s: string, n: nat, inside: bool)
    requires s != [] && !Replaced(s[0], n, inside)
    ensures var inside' := inside != (s[0] == QUOTE);
            Apart(Weave(Pieces(s, n, inside), Empties(n)))
            ==> && Apart(Weave(Pieces(s[1..], n, inside'), Empties(n)))
                && !(|s| > 1 && s[0] == QUOTE && Replaced(s[1], n, inside'))
  {
    EmptiesAre(n);
    var c, inside' := s[0], inside != (s[0] == QUOTE);
    var r := Pieces(s[1..], n, inside');
    var longer := [[c] + r[0]] + r[1..];
    var w, w' := Weave(r, Empties(n)), Weave(longer, Empties(n));
    assert longer[1..] == r[1..];
    assert w' == [[c] + r[0]] + w[1..] && w'[1..] == w[1..];
    if r[0] != [] { assert ([c] + r[0])[|r[0]|] == r[0][|r[0]| - 1]; }
    if |s| > 1 && c == QUOTE && Replaced(s[1], n, inside') {
      QuoteMeetsFill(s[1..], n, inside');
    }
  }

  lemma QuoteMeetsFill(s: string, n: nat, inside: bool)
    requires s != [] && Replaced(s[0], n, inside)
    ensures var w := Weave(Pieces(s, n, inside), Empties(n));
            |w| > 1 && w[0] == [] && Concat(w[1..]) != [] && Concat(w[1..])[0] == QUOTE
  {
    EmptiesAre(n);
    var rest := Pieces(s[1..], n - 1, false);
    var w := Weave([[]] + rest, Empties(n));
    assert ([[]] + rest)[1..] == rest;
    assert w[1..] == [[QUOTE, QUOTE]] + Weave(rest, Empties(n - 1));
  }

  /** Parameters that are all empty strings. */
  function EmptyStrings(n: nat): (r: seq<Value>)
    ensures |r| == n
  {
    if n == 0 then [] else [Str("")] + EmptyStrings(n - 1)
  }

  lemma {:induction false} EmptyFills(n: nat, floats: FloatText)
    ensures Fills(EmptyStrings(n), floats) == Empties(n)
  {
    if n > 0 {
      EmptyFills(n - 1, floats);
      assert EmptyStrings(n)[1..] == EmptyStrings(n - 1);
      assert FormatValue(Str(""), floats) == [QUOTE, QUOTE];
    }
  }

  /** The interpolation reads as the template's literals with the bound values between them. */
  ghost predicate ReadsBack(sql: string, params: seq<Value>, floats: FloatText) {
    Literals(Substitute(sql, Fills(params, floats), false))
    == Interleave(Pieces(sql, |params|, false), ParamLiterals(params))
  }

  /** A template is safe for all lists of n parameters if and only if no mark that is replaced stands next to a quote
      or another mark that is: empty strings are the worst that can be bound. */
  lemma TemplateExact(sql: string, n: nat, floats: FloatText)
    requires floats.Plain()
    ensures (forall params: seq<Value> :: |params| == n ==> ReadsBack(sql, params, floats)) <==> Spaced(sql, n, false)
  {
    hide Literals, Substitute, Interleave, Spaced, Fills, Pieces, Weave;
    if Spaced(sql, n, false) {
      forall params: seq<Value> | |params| == n
        ensures ReadsBack(sql, params, floats)
      {
        SpacedTemplateReads(sql, params, floats);
      }
    } else {
      NotSpacedTouches(sql, n, false);
      EmptyFills(n, floats);
      InterpolationReads(sql, EmptyStrings(n), floats);
      assert !ReadsBack(sql, EmptyStrings(n), floats);
    }
  }

  /** When no replaced mark touches a quote or another replaced mark, the result reads as the template's literals
      with the bound values between them, whatever those values contain. */
  lemma {:induction false} SpacedTemplateReads(sql: string, params: seq<Value>, floats: FloatText)
    requires floats.Plain() && Spaced(sql, |params|, false)
    ensures Literals(Substitute(sql, Fills(params, floats), false))
            == Interleave(Pieces(sql, |params|, false), ParamLiterals(params))
  {
    InterpolationReads(sql, params, floats);
    SpacedIsApart(sql, Fills(params, floats), false);
  }

  /** A touching template where the promise fails: two bound empty strings are read as one literal holding a
      quote. */
  lemma TouchingTemplateFails(floats: FloatText)
    ensures var params := [Str(""), Str("")];
            && Literals(Substitute("??", Fills(params, floats), false)) == ["'"]
            && Interleave(Pieces("??", 2, false), ParamLiterals(params)) == ["", ""]
  {
    hide Literals, Substitute, Interleave, Pieces, FormatValue;
    var params := [Str(""), Str("")];
    assert FormatValue(Str(""), floats) == "''" by { EmptyFormatted(floats); }
    assert params[1..] == [Str("")] && params[1..][1..] == [];
    assert Fills(params[1..], floats) == ["''"];
    assert Fills(params, floats) == ["''", "''"];
    TwoEmpties();
    assert ParamLiterals(params) == [[""], [""]];
    TwoMarks();
  }

  lemma EmptyFormatted(floats: FloatText)
    ensures FormatValue(Str(""), floats) == "''"
  {
  }

  /** Two empty literals in a row are one quote. */
  lemma TwoEmpties()
    ensures Literals(Substitute("??", ["''", "''"], false)) == ["'"]
  {
    var empty, out := "''", "''''";
    assert [empty, empty][1..] == [empty] && "??"[1..] == "?" && "?"[1..] == "";
    assert Substitute("?", [empty], false) == empty + "" == empty;
    assert Substitute("??", [empty, empty], false) == empty + empty == out;
    assert out[1..] == "'''" && out[1..][2..] == "'" && out[1..][2..][1..] == "";
    assert [] + [QUOTE] == "'";
  }

  lemma TwoMarks()
    ensures Interleave(Pieces("??", 2, false), [[""], [""]]) == ["", ""]
  {
    assert "??"[1..] == "?" && "?"[1..] == "";
    assert Pieces("?", 1, false) == ["", ""];
    assert Pieces("??", 2, false) == ["", "", ""];
    assert ["", "", ""][1..] == ["", ""] && ["", ""][1..] == [""];
    var between := [[""], [""]];
    assert between[1..] == [[""]];
    assert Interleave(["", ""], [[""]]) == [""];
  }
}
