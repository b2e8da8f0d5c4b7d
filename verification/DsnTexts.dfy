/** Every text as a connection string: its parts, and which of them is refused. */
module DsnTexts {
  import Bytes
  import opened Wrappers
  import opened Dsn
  import Text

  // ---------------------------------------------------------------------------
  // The texts of numbers
  // ---------------------------------------------------------------------------

  /** Decimal digits with any zeros before them, and perhaps a plus sign. */
  predicate Spells(s: string, n: nat, plus: bool, zeros: nat) {
    s == (if plus then "+" else "") + (Text.ZeroDigits(zeros) + Text.Digits(n))
  }

  lemma {:induction false} ZerosThenZero(k: nat)
    ensures Text.ZeroDigits(k) + "0" == Text.ZeroDigits(k + 1)
  {
    if k > 0 {
      ZerosThenZero(k - 1);
      assert (['0'] + Text.ZeroDigits(k - 1)) + "0" == ['0'] + (Text.ZeroDigits(k - 1) + "0");
    } else {
      assert Text.ZeroDigits(0) == "";
    }
  }

  /** A text with a value is the digits of that value after some zeros. */
  lemma {:induction false} NumberSpelled(s: string) returns (zeros: nat)
    requires s != [] && Text.Number(s).Some?
    ensures s == Text.ZeroDigits(zeros) + Text.Digits(Text.Number(s).value)
  {
    var before, last := s[..|s| - 1], s[|s| - 1];
    var n := Text.Number(s).value;
    assert s == before + [last];
    if before == [] {
      assert Text.Number([]) == Some(0);
      zeros := 0;
    } else {
      var k := NumberSpelled(before);
      var m := Text.Number(before).value;
      if m == 0 {
        assert Text.Digits(0) == "0";
        ZerosThenZero(k);
        zeros := k + 1;
        assert Text.Digits(n) == [last];
      } else {
        assert n / 10 == m && Text.Digits(n) == Text.Digits(m) + [last];
        zeros := k;
      }
    }
  }

  lemma SpelledNumber(n: nat, zeros: nat)
    ensures Text.Number(Text.ZeroDigits(zeros) + Text.Digits(n)) == Some(n)
  {
    Text.NumberIgnoresZeros(zeros, Text.Digits(n));
    Text.NumberOfDigits(n);
  }

  lemma FirstDigit(n: nat, zeros: nat)
    ensures var s := Text.ZeroDigits(zeros) + Text.Digits(n); s != [] && s[0] != '+'
  {
    var s := Text.ZeroDigits(zeros) + Text.Digits(n);
    assert s[0] in Text.ZeroDigits(zeros) || s[0] in Text.Digits(n);
  }

  /** A text is accepted as a number exactly when it spells one below the limit. */
  lemma NumbersAccepted(s: string, limit: nat, n: nat)
    ensures Unsigned(s, limit) == Some(n) <==> n < limit && exists plus, zeros :: Spells(s, n, plus, zeros)
  {
    hide Text.Number;
    if Unsigned(s, limit) == Some(n) {
      var plus := s[0] == '+';
      var body := if plus then s[1..] else s;
      var zeros := NumberSpelled(body);
      assert s == (if plus then "+" else "") + body;
      assert Spells(s, n, plus, zeros);
    }
    if n < limit && exists plus, zeros :: Spells(s, n, plus, zeros) {
      var plus, zeros :| Spells(s, n, plus, zeros);
      var body := Text.ZeroDigits(zeros) + Text.Digits(n);
      FirstDigit(n, zeros);
      SpelledNumber(n, zeros);
      assert plus ==> s[0] == '+' && s[1..] == body;
      assert !plus ==> s == body;
    }
  }

  // ---------------------------------------------------------------------------
  // The parts of a text
  // ---------------------------------------------------------------------------

  datatype Info = NoInfo | JustUser(user: string) | WithPassword(user: string, password: string) {
    /** The colon before the password is the first one. */
    predicate Fits() { !NoInfo? ==> ':' !in user && '?' !in user && (WithPassword? ==> '?' !in password) }

    function Text(): string {
      match this
      case NoInfo => ""
      case JustUser(u) => u + "@"
      case WithPassword(u, p) => u + ":" + p + "@"
    }
  }

  datatype Place = Bare(host: string) | Ported(host: string, port: string) | Bracket(address: string, after: string)
    | Unclosed(address: string)
  {
    predicate Fits() {
      match this
      case Bare(h) => (h == [] || h[0] != '[') && ':' !in h
      case Ported(h, p) => (h == [] || h[0] != '[') && ':' !in p
      case Bracket(a, _) => ']' !in a
      case Unclosed(a) => ']' !in a
    }

    function Text(): string {
      match this
      case Bare(h) => h
      case Ported(h, p) => h + ":" + p
      case Bracket(a, after) => "[" + a + "]" + after
      case Unclosed(a) => "[" + a
    }

    function Host(): string {
      match this
      case Bracket(a, _) => a
      case Unclosed(a) => a
      case _ => if host == "" then "localhost" else host
    }

    /** The text that has to be a port. */
    function PortText(): Option<string> {
      match this
      case Ported(_, p) => Some(p)
      case Bracket(_, after) => if after != [] && after[0] == ':' then Some(after[1..]) else None
      case _ => None
    }

    predicate PortFits() { PortText().Some? ==> Unsigned(PortText().value, 65536).Some? }

    function Port(): Bytes.u16
      requires PortFits()
    {
      if PortText().Some? then Unsigned(PortText().value, 65536).value else 33000
    }
  }

  /** One of the parameters between ampersands. */
  datatype Param = Flag(text: string) | Pair(key: string, val: string) {
    predicate Fits() {
      match this
      case Flag(t) => '=' !in t && '&' !in t
      case Pair(k, v) => '=' !in k && '&' !in k && '&' !in v
    }

    function Text(): string {
      match this
      case Flag(t) => t
      case Pair(k, v) => k + "=" + v
    }

    predicate Bad() { Pair? && key == "timeout" && Unsigned(val, 0x1_0000_0000_0000_0000).None? }
  }

  function Texts(params: seq<Param>): (r: seq<string>)
    ensures |r| == |params|
  {
    if params == [] then [] else [params[0].Text()] + Texts(params[1..])
  }

  /** The last parameter of a kind decides. */
  function AutoCommitOf(params: seq<Param>): bool {
    if params == [] then true
    else
      var p := params[|params| - 1];
      if p.Pair? && p.key == "autocommit" then p.val in ["true", "1", "yes"] else AutoCommitOf(params[..|params| - 1])
  }

  function TimeoutOf(params: seq<Param>): Bytes.u64
    requires forall p :: p in params ==> !p.Bad()
  {
    if params == [] then 30
    else
      var p := params[|params| - 1];
      assert p in params && !p.Bad() && forall q :: q in params[..|params| - 1] ==> q in params;
      if p.Pair? && p.key == "timeout" then Unsigned(p.val, 0x1_0000_0000_0000_0000).value
      else TimeoutOf(params[..|params| - 1])
  }

  /** A text after the scheme: what is before the last `@`, a place before the first slash, a database, and what is
      after the first question mark. */
  datatype Parts = Parts(info: Info, place: Place, database: string, params: seq<Param>) {
    predicate Fits() {
      && info.Fits() && place.Fits() && Plain(place.Text(), true) && Plain(database, false)
      && forall p :: p in params ==> p.Fits()
    }

    function Main(): string { info.Text() + (place.Text() + "/" + database) }

    function Text(): string {
      "cubrid://" + (Main() + if params == [] then "" else "?" + Join(Texts(params), '&'))
    }

    /** What it stands for, or why it is refused. */
    function Meaning(): Outcome<Settings, DsnError> {
      if database == "" then Err(NoDatabase)
      else if place.Unclosed? then Err(BadIpv6)
      else if !place.PortFits() then Err(BadPort)
      else if exists p :: p in params && p.Bad() then Err(BadTimeout)
      else Ok(Settings(place.Host(), place.Port(), database, if info.NoInfo? then "" else Decode(info.user),
                       if info.WithPassword? then Decode(info.password) else "", AutoCommitOf(params),
                       TimeoutOf(params)))
    }
  }

  predicate Plain(s: string, slashless: bool) { '@' !in s && '?' !in s && (slashless ==> '/' !in s) }

  // ---------------------------------------------------------------------------
  // The parser on the parts
  // ---------------------------------------------------------------------------

  lemma PlaceParses(d: Settings, place: Place)
    requires place.Fits() && d.host == "localhost" && d.port == 33000
    ensures WithHost(d, place.Text())
            == if place.Unclosed? then Err(BadIpv6)
               else if !place.PortFits() then Err(BadPort)
               else Ok(d.(host := place.Host(), port := place.Port()))
  {
    hide Unsigned, Find, RFind;
    var t := place.Text();
    match place
    case Bare(h) => NotFound(h, ':');
    case Ported(h, p) =>
      assert t == h + [':'] + p;
      RFindAt(h, ':', p);
      assert t[..|h|] == h && t[|h| + 1..] == p;
      assert h != [] ==> t[0] == h[0];
    case Bracket(a, after) =>
      BracketParses(d, a, after);
    case Unclosed(a) =>
      assert t[0] == '[' && ']' !in "[";
      NotFound(t, ']');
  }

  lemma BracketParses(d: Settings, a: string, after: string)
    requires ']' !in a && d.host == "localhost" && d.port == 33000
    ensures var place := Bracket(a, after);
            WithHost(d, place.Text())
            == if !place.PortFits() then Err(BadPort) else Ok(d.(host := a, port := place.Port()))
  {
    hide Unsigned, Find, RFind;
    var t := Bracket(a, after).Text();
    assert t == ("[" + a) + [']'] + after;
    assert ']' !in "[" + a;
    FindAt("[" + a, ']', after);
    assert t[0] == '[' && t[1..|a| + 1] == a;
    assert after != [] ==> t[|a| + 2] == after[0];
    assert after != [] && after[0] == ':' ==> t[|a| + 3..] == after[1..];
  }

  lemma InfoParses(info: Info)
    requires info.Fits() && !info.NoInfo?
    ensures var t := info.Text();
            && t != [] && t[|t| - 1] == '@'
            && WithUser(DEFAULTS, t[..|t| - 1])
               == DEFAULTS.(user := Decode(info.user),
                            password := if info.WithPassword? then Decode(info.password) else "")
  {
    hide Decode, Find;
    var t := info.Text();
    match info
    case JustUser(u) =>
      assert t[..|t| - 1] == u;
      NotFound(u, ':');
    case WithPassword(u, p) =>
      assert t[..|t| - 1] == u + [':'] + p;
      FindAt(u, ':', p);
      assert (u + [':'] + p)[..|u|] == u && (u + [':'] + p)[|u| + 1..] == p;
  }

  /** The text before the question mark. */
  lemma MainParses(x: Parts)
    requires x.Fits()
    ensures var d := DEFAULTS.(user := if x.info.NoInfo? then "" else Decode(x.info.user),
                               password := if x.info.WithPassword? then Decode(x.info.password) else "");
            WithMain(DEFAULTS, x.Main())
            == if x.database == "" then Err(NoDatabase) else WithHost(d.(database := x.database), x.place.Text())
  {
    hide WithHost, Decode, Find, RFind, WithUser, Place.Text, Place.Fits, Info.Text, Info.Fits;
    var t, info := x.place.Text(), x.info.Text();
    var place := t + "/" + x.database;
    assert place == t + ['/'] + x.database;
    FindAt(t, '/', x.database);
    assert place[..|t|] == t && place[|t| + 1..] == x.database;
    assert '@' !in place;
    if x.info.NoInfo? {
      assert info == [] by { NoInfoText(); }
      assert x.Main() == place;
      NotFound(place, '@');
    } else {
      InfoParses(x.info);
      var before := info[..|info| - 1];
      assert x.Main() == before + ['@'] + place;
      RFindAt(before, '@', place);
      assert x.Main()[..|before|] == before && x.Main()[|before| + 1..] == place;
    }
  }

  lemma ParamParses(d: Settings, p: Param)
    requires p.Fits()
    ensures '&' !in p.Text()
    ensures WithOption(d, p.Text())
            == if p.Bad() then Err(BadTimeout)
               else if p.Pair? && p.key == "autocommit" then Ok(d.(autoCommit := p.val in ["true", "1", "yes"]))
               else if p.Pair? && p.key == "timeout" then
                 Ok(d.(timeout := Unsigned(p.val, 0x1_0000_0000_0000_0000).value))
               else Ok(d)
  {
    hide Unsigned, Find;
    match p
    case Flag(t) => NotFound(t, '=');
    case Pair(k, v) =>
      OptionSplits(k, v);
      assert '&' !in "=";
  }

  lemma {:induction false} TextsSnoc(params: seq<Param>, p: Param)
    ensures Texts(params + [p]) == Texts(params) + [p.Text()]
  {
    if params == [] {
      assert ([] + [p])[1..] == [];
    } else {
      TextsSnoc(params[1..], p);
      assert (params + [p])[1..] == params[1..] + [p];
    }
  }

  lemma {:induction false} TextsApart(params: seq<Param>)
    requires forall p :: p in params ==> p.Fits()
    ensures forall t :: t in Texts(params) ==> '&' !in t
  {
    if params != [] {
      assert params[0] in params && forall p :: p in params[1..] ==> p in params;
      TextsApart(params[1..]);
      ParamParses(DEFAULTS, params[0]);
    }
  }

  lemma {:induction false} ParamsParse(d: Settings, params: seq<Param>)
    requires (forall p :: p in params ==> p.Fits()) && d.autoCommit && d.timeout == 30
    ensures WithOptions(d, Texts(params))
            == if exists p :: p in params && p.Bad() then Err(BadTimeout)
               else Ok(d.(autoCommit := AutoCommitOf(params), timeout := TimeoutOf(params)))
  {
    hide WithOption, Param.Fits, Param.Text, Param.Bad;
    if params != [] {
      var before, p := params[..|params| - 1], params[|params| - 1];
      assert params == before + [p];
      ParamsParse(d, before);
      TextsSnoc(before, p);
      OptionsSnoc(d, Texts(before), p.Text());
      if exists q :: q in before && q.Bad() {
        var q :| q in before && q.Bad();
        assert q in params;
      } else {
        ParamParses(d.(autoCommit := AutoCommitOf(before), timeout := TimeoutOf(before)), p);
      }
    }
  }

  lemma MainHasNoMark(x: Parts)
    requires x.Fits()
    ensures '?' !in x.Main()
  {
  }

  /** Whatever the parts are, parsing their text gives what they stand for, or the first reason to refuse it. */
  lemma PartsParse(x: Parts)
    requires x.Fits()
    ensures Parsed(x.Text()) == x.Meaning()
  {
    hide WithMain, WithHost, WithOptions, Parts.Main, Place.Fits, Place.Text, Place.Host, Place.Port, Place.PortFits,
      Info.Fits, Split, Join, Find, Decode, Param.Fits, Param.Bad;
    MainHasNoMark(x);
    MainParses(x);
    var d := DEFAULTS.(user := if x.info.NoInfo? then "" else Decode(x.info.user),
                       password := if x.info.WithPassword? then Decode(x.info.password) else "",
                       database := x.database);
    PlaceParses(d, x.place);
    ParamsParse(d.(host := x.place.Host(), port := if x.place.PortFits() then x.place.Port() else 0), x.params);
    RestParses(x);
  }

  /** The two ways to go on after the scheme. */
  lemma RestParses(x: Parts)
    requires x.Fits() && '?' !in x.Main()
    ensures Parsed(x.Text())
            == if x.params == [] then WithMain(DEFAULTS, x.Main())
               else match WithMain(DEFAULTS, x.Main())
                 case Ok(d) => WithOptions(d, Texts(x.params))
                 case Err(e) => Err(e)
                 case Crash => Crash
  {
    hide WithMain, WithOptions, Split, Join, Find, Parts.Main, Info.Fits, Place.Fits, Param.Fits;
    var text, main := x.Text(), x.Main();
    var rest := text[9..];
    assert SCHEME == "cubrid://" && SCHEME <= text;
    if x.params == [] {
      assert rest == main;
      NotFound(main, '?');
    } else {
      var query := Join(Texts(x.params), '&');
      assert rest == main + ['?'] + query;
      FindAt(main, '?', query);
      assert rest[..|main|] == main && rest[|main| + 1..] == query;
      TextsApart(x.params);
      SplitOfJoin(Texts(x.params), '&');
    }
  }

  // ---------------------------------------------------------------------------
  // The parts of any text
  // ---------------------------------------------------------------------------

  lemma {:induction false} JoinOfSplit(s: string, c: char)
    ensures Join(Split(s, c), c) == s && forall p :: p in Split(s, c) ==> c !in p
    decreases |s|
  {
    match Find(s, c)
    case None =>
    case Some(i) =>
      var rest := Split(s[i + 1..], c);
      JoinOfSplit(s[i + 1..], c);
      assert ([s[..i]] + rest)[1..] == rest;
      assert s == s[..i] + [c] + s[i + 1..];
  }

  function ParamOf(t: string): (p: Param)
    ensures p.Text() == t && ('&' !in t ==> p.Fits())
  {
    match Find(t, '=')
    case None => Flag(t)
    case Some(i) => assert t == t[..i] + "=" + t[i + 1..]; Pair(t[..i], t[i + 1..])
  }

  function ParamsOf(ts: seq<string>): (r: seq<Param>)
    ensures |r| == |ts| && Texts(r) == ts
    ensures (forall t :: t in ts ==> '&' !in t) ==> forall p :: p in r ==> p.Fits()
  {
    if ts == [] then []
    else
      assert ts[0] in ts && ts == [ts[0]] + ts[1..];
      [ParamOf(ts[0])] + ParamsOf(ts[1..])
  }

  function InfoOf(t: string): (r: Info)
    ensures r.Text() == t + "@" && ('?' !in t ==> r.Fits()) && !r.NoInfo?
  {
    match Find(t, ':')
    case None => JustUser(t)
    case Some(i) => assert t == t[..i] + ":" + t[i + 1..]; WithPassword(t[..i], t[i + 1..])
  }

  function PlaceOf(t: string): (r: Place)
    ensures r.Text() == t && r.Fits()
  {
    if t != [] && t[0] == '[' then
      match Find(t, ']')
      case None => assert t == "[" + t[1..] && ']' !in t[1..]; Unclosed(t[1..])
      case Some(i) =>
        assert t == "[" + t[1..i] + "]" + t[i + 1..];
        assert forall c :: c in t[1..i] ==> c in t[..i];
        Bracket(t[1..i], t[i + 1..])
    else
      match RFind(t, ':')
      case None => Bare(t)
      case Some(i) => assert t == t[..i] + ":" + t[i + 1..]; Ported(t[..i], t[i + 1..])
  }

  lemma InfoAndPlace(main: string) returns (info: Info, place: string)
    requires '?' !in main
    ensures main == info.Text() + place && '@' !in place && '?' !in place && info.Fits()
    ensures Find(place, '/').None? ==> WithMain(DEFAULTS, main) == Err(NoDatabase)
  {
    hide WithHost, WithUser, Find, RFind, Info.Fits, Info.Text;
    match RFind(main, '@')
    case None =>
      NoInfoText();
      info, place := NoInfo, main;
    case Some(i) =>
      info, place := InfoOf(main[..i]), main[i + 1..];
      assert main == (main[..i] + "@") + place;
  }

  lemma NoInfoText()
    ensures NoInfo.Text() == "" && NoInfo.Fits()
  {
  }

  /** The parts of the text before the question mark, if it has a slash after its last `@`. */
  lemma PartsOfMain(main: string, params: seq<Param>) returns (r: Option<Parts>)
    requires '?' !in main && forall p :: p in params ==> p.Fits()
    ensures r.Some? ==> r.value.Fits() && r.value.Main() == main && r.value.params == params
    ensures r.None? ==> WithMain(DEFAULTS, main) == Err(NoDatabase)
  {
    hide WithMain, Find, RFind, Info.Fits, Info.Text, Place.Fits, Place.Text, Param.Fits;
    var info, place := InfoAndPlace(main);
    match Find(place, '/')
    case None => r := None;
    case Some(i) =>
      assert place == place[..i] + "/" + place[i + 1..];
      assert forall c :: c in place[i + 1..] ==> c in place;
      r := Some(Parts(info, PlaceOf(place[..i]), place[i + 1..], params));
  }

  lemma ParamsOfQuery(query: string) returns (params: seq<Param>)
    ensures params != [] && Join(Texts(params), '&') == query && forall p :: p in params ==> p.Fits()
  {
    hide Split, Join, Texts, Param.Fits;
    JoinOfSplit(query, '&');
    params := ParamsOf(Split(query, '&'));
  }

  /** The text before the first question mark, and the parameters after it. */
  lemma ParamsOfRest(rest: string) returns (main: string, params: seq<Param>)
    ensures '?' !in main && forall p :: p in params ==> p.Fits()
    ensures rest == main + if params == [] then "" else "?" + Join(Texts(params), '&')
    ensures WithMain(DEFAULTS, main) == Err(NoDatabase) ==> Parsed("cubrid://" + rest) == Err(NoDatabase)
  {
    hide Find, Split, Join, Texts, Param.Fits, WithMain, WithOptions;
    assert ("cubrid://" + rest)[9..] == rest;
    match Find(rest, '?')
    case None => main, params := rest, [];
    case Some(i) =>
      main := rest[..i];
      var query := rest[i + 1..];
      params := ParamsOfQuery(query);
      assert rest == main + ("?" + query);
  }

  /** Every text is refused for its scheme, or has parts, or is refused for want of a database. */
  lemma PartsOfText(dsn: string)
    ensures Parsed(dsn) == Err(BadScheme) <==> !("cubrid://" <= dsn)
    ensures "cubrid://" <= dsn ==>
              (exists x: Parts :: x.Fits() && x.Text() == dsn) || Parsed(dsn) == Err(NoDatabase)
  {
    if "cubrid://" <= dsn {
      hide Parsed, Join, Parts.Main, Param.Fits, Place.Fits, Info.Fits, WithMain;
      assert dsn == "cubrid://" + dsn[9..];
      var main, params := ParamsOfRest(dsn[9..]);
      var r := PartsOfMain(main, params);
      if r.Some? {
        var x := r.value;
        assert x.Text() == dsn;
        PartsParse(x);
        NotForTheScheme(x);
      }
    } else {
      assert SCHEME == "cubrid://";
    }
  }

  lemma NotForTheScheme(x: Parts)
    ensures x.Meaning() != Err(BadScheme)
  {
    hide Place.PortFits, Param.Bad, Place.Host, Place.Port, AutoCommitOf, TimeoutOf, Decode;
  }

  // ---------------------------------------------------------------------------
  // Instances
  // ---------------------------------------------------------------------------

  /** What is left out has its default. */
  lemma DefaultsParse()
    ensures Parsed("cubrid:///db") == Ok(Settings("localhost", 33000, "db", "", "", true, 30))
  {
    var x := Parts(NoInfo, Bare(""), "db", []);
    assert x.Text() == "cubrid:///db";
    PartsParse(x);
  }

  /** The edges of the port range, a sign, and texts that are no number. */
  lemma PortEdges()
    ensures Unsigned("65535", 65536) == Some(65535) && Unsigned("65536", 65536) == None
    ensures Unsigned("+80", 65536) == Some(80) && Unsigned("-1", 65536) == None
    ensures Unsigned("", 65536) == None && Unsigned("+", 65536) == None && Unsigned("8a", 65536) == None
  {
    assert Text.Number("") == Some(0);
    assert "6"[..0] == "" && "65"[..1] == "6" && "655"[..2] == "65" && "6553"[..3] == "655";
    assert "65535"[..4] == "6553" && "65536"[..4] == "6553";
    assert Text.Number("655") == Some(655) && Text.Number("6553") == Some(6553);
    assert "8"[..0] == "" && "80"[..1] == "8" && "8a"[..1] == "8" && "+80"[1..] == "80" && "+"[1..] == "";
    assert "-"[..0] == "" && "-1"[..1] == "-";
  }

  /** Texts that are refused for each reason. */
  lemma WithoutDatabase()
    ensures Parsed("http://h/db") == Err(BadScheme)
    ensures Parsed("cubrid://h") == Err(NoDatabase) && Parsed("cubrid://h/") == Err(NoDatabase)
  {
    hide Parsed, Find, RFind, Decode, Unsigned;
    PartsOfText("http://h/db");
    assert "http://h/db"[0] != "cubrid://"[0];
    SlashMissing();
    var x := Parts(NoInfo, Bare("h"), "", []);
    assert x.Text() == "cubrid://h/";
    PartsParse(x);
  }

  lemma UnclosedBracket()
    ensures Parsed("cubrid://[::1/db") == Err(BadIpv6)
  {
    hide Parsed, Find, RFind, Decode, Unsigned;
    var x := Parts(NoInfo, Unclosed("::1"), "db", []);
    assert x.Text() == "cubrid://[::1/db";
    PartsParse(x);
  }

  lemma PortTooLarge()
    ensures Parsed("cubrid://h:65536/db") == Err(BadPort)
  {
    PortEdges();
    hide Parsed, Find, RFind, Decode, Unsigned;
    var x := Parts(NoInfo, Ported("h", "65536"), "db", []);
    assert x.Text() == "cubrid://h:65536/db";
    PartsParse(x);
  }

  lemma SlashMissing()
    ensures Parsed("cubrid://h") == Err(NoDatabase)
  {
    hide Find, RFind, WithHost;
    assert "cubrid://h"[9..] == "h";
    NotFound("h", '?');
    NotFound("h", '@');
    NotFound("h", '/');
  }
}
