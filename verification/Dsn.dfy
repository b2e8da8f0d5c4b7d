/** Connection strings: the parser, and the writing it undoes. */
module Dsn {
  import opened Bytes
  import opened Wrappers
  import Percent
  import Text
  import Utf8

  datatype Settings = Settings(
    host: string, port: u16, database: string, user: string, password: string, autoCommit: bool, timeout: u64)

  const DEFAULTS: Settings := Settings("localhost", 33000, "", "", "", true, 30)

  datatype DsnError = BadScheme | NoDatabase | BadIpv6 | BadPort | BadTimeout

  const SCHEME: string := "cubrid://"

  // ---------------------------------------------------------------------------
  // Text search
  // ---------------------------------------------------------------------------

  /** The first place of a character. */
  function Find(s: string, c: char): (r: Option<nat>)
    ensures r.None? ==> c !in s
    ensures r.Some? ==> r.value < |s| && s[r.value] == c && c !in s[..r.value]
  {
    if s == [] then None
    else if s[0] == c then Some(0)
    else match Find(s[1..], c)
      case None => None
      case Some(i) => assert s[..i + 1] == [s[0]] + s[1..][..i]; Some(i + 1)
  }

  /** The last place of a character. */
  function RFind(s: string, c: char): (r: Option<nat>)
    ensures r.None? ==> c !in s
    ensures r.Some? ==> r.value < |s| && s[r.value] == c && c !in s[r.value + 1..]
  {
    if s == [] then None
    else if s[|s| - 1] == c then Some(|s| - 1)
    else match RFind(s[..|s| - 1], c)
      case None => None
      case Some(i) => assert s[i + 1..] == s[..|s| - 1][i + 1..] + [s[|s| - 1]]; Some(i)
  }

  lemma FindAt(a: string, c: char, b: string)
    requires c !in a
    ensures Find(a + [c] + b, c) == Some(|a|)
  {
    var s := a + [c] + b;
    assert s[|a|] == c;
    assert forall k :: 0 <= k < |a| ==> s[k] == a[k];
    assert forall n :: |a| < n <= |s| ==> s[..n][|a|] == c;
  }

  lemma {:induction false} RFindAt(a: string, c: char, b: string)
    requires c !in b
    ensures RFind(a + [c] + b, c) == Some(|a|)
  {
    var s := a + [c] + b;
    assert s[|a|] == c;
    assert forall k :: |a| < k < |s| ==> s[k] == b[k - |a| - 1];
    assert forall n :: 0 <= n <= |a| ==> s[n..][|a| - n] == c;
  }

  lemma NotFound(s: string, c: char)
    requires c !in s
    ensures Find(s, c) == None && RFind(s, c) == None
  {
  }

  /** `split` */
  function Split(s: string, c: char): (r: seq<string>)
    ensures r != []
    decreases |s|
  {
    match Find(s, c)
    case None => [s]
    case Some(i) => [s[..i]] + Split(s[i + 1..], c)
  }

  function Join(parts: seq<string>, c: char): string
    requires parts != []
  {
    if |parts| == 1 then parts[0] else parts[0] + [c] + Join(parts[1..], c)
  }

  lemma {:induction false} SplitOfJoin(parts: seq<string>, c: char)
    requires parts != [] && forall p :: p in parts ==> c !in p
    ensures Split(Join(parts, c), c) == parts
  {
    assert parts[0] in parts;
    if |parts| == 1 {
      NotFound(parts[0], c);
    } else {
      var rest := Join(parts[1..], c);
      FindAt(parts[0], c, rest);
      SplitOfJoin(parts[1..], c);
      var s := parts[0] + [c] + rest;
      assert s[..|parts[0]|] == parts[0] && s[|parts[0]| + 1..] == rest;
    }
  }

  // ---------------------------------------------------------------------------
  // What is parsed
  // ---------------------------------------------------------------------------

  /** `parse` of an unsigned integer: digits, with an optional plus sign. */
  function Unsigned(s: string, limit: nat): (r: Option<nat>)
    ensures r.Some? ==> r.value < limit
  {
    var body := if s != [] && s[0] == '+' then s[1..] else s;
    if body == [] then None
    else match Text.Number(body)
      case Some(n) => if n < limit then Some(n) else None
      case None => None
  }

  function Decode(s: string): string { Percent.Decoded(Utf8.Encode(s)) }

  function WithUser(d: Settings, info: string): Settings {
    match Find(info, ':')
    case Some(i) => d.(user := Decode(info[..i]), password := Decode(info[i + 1..]))
    case None => d.(user := Decode(info))
  }

  function WithPort(d: Settings, text: string): Outcome<Settings, DsnError> {
    match Unsigned(text, 0x1_0000)
    case Some(n) => Ok(d.(port := n))
    case None => Err(BadPort)
  }

  /** `host[:port]`, or `[address]:port`; what follows a bracket without a colon is ignored. */
  function WithHost(d: Settings, text: string): Outcome<Settings, DsnError> {
    if text != [] && text[0] == '[' then
      match Find(text, ']')
      case None => Err(BadIpv6)
      case Some(end) =>
        var d := d.(host := text[1..end]);
        if end + 1 < |text| && text[end + 1] == ':' then WithPort(d, text[end + 2..]) else Ok(d)
    else
      match RFind(text, ':')
      case Some(i) => WithPort(if i > 0 then d.(host := text[..i]) else d, text[i + 1..])
      case None => Ok(if text != [] then d.(host := text) else d)
  }

  function WithOption(d: Settings, param: string): Outcome<Settings, DsnError> {
    match Find(param, '=')
    case None => Ok(d)
    case Some(i) =>
      var key, val := param[..i], param[i + 1..];
      if key == "autocommit" then Ok(d.(autoCommit := val == "true" || val == "1" || val == "yes"))
      else if key == "timeout" then
        match Unsigned(val, 0x1_0000_0000_0000_0000)
        case Some(n) => Ok(d.(timeout := n))
        case None => Err(BadTimeout)
      else Ok(d)
  }

  function WithOptions(d: Settings, params: seq<string>): Outcome<Settings, DsnError>
    decreases |params|
  {
    if params == [] then Ok(d)
    else
      var d :- WithOption(d, params[0]);
      WithOptions(d, params[1..])
  }

  /** The text between the scheme and the options. */
  function WithMain(d: Settings, main: string): Outcome<Settings, DsnError> {
    var at := RFind(main, '@');
    var d := if at.Some? then WithUser(d, main[..at.value]) else d;
    var place := if at.Some? then main[at.value + 1..] else main;
    match Find(place, '/')
    case None => Err(NoDatabase)
    case Some(i) =>
      if place[i + 1..] == [] then Err(NoDatabase)
      else WithHost(d.(database := place[i + 1..]), place[..i])
  }

  function Parsed(dsn: string): Outcome<Settings, DsnError> {
    if !(SCHEME <= dsn) then Err(BadScheme)
    else
      var rest := dsn[|SCHEME|..];
      match Find(rest, '?')
      case None => WithMain(DEFAULTS, rest)
      case Some(i) =>
        var d :- WithMain(DEFAULTS, rest[..i]);
        WithOptions(d, Split(rest[i + 1..], '&'))
  }

  // ---------------------------------------------------------------------------
  // The parser
  // ---------------------------------------------------------------------------

  method ParsePort(text: string) returns (r: Outcome<u16, DsnError>)
    ensures r == match Unsigned(text, 0x1_0000) case Some(n) => Ok(n) case None => Err(BadPort)
  {
    match Unsigned(text, 0x1_0000)
    case Some(n) => return Ok(n);
    case None => return Err(BadPort);
  }

  method ParseHost(start: Settings, hostPort: string) returns (r: Outcome<Settings, DsnError>)
    ensures r == WithHost(start, hostPort)
  {
    hide Unsigned, Find, RFind;
    var result := start;
    if hostPort != [] && hostPort[0] == '[' {
      match Find(hostPort, ']') {
        case Some(end) =>
          result := result.(host := hostPort[1..end]);
          if end + 1 < |hostPort| && hostPort[end + 1] == ':' {
            var port :- ParsePort(hostPort[end + 2..]);
            result := result.(port := port);
          }
        case None => return Err(BadIpv6);
      }
    } else {
      match RFind(hostPort, ':') {
        case Some(pos) =>
          var host := hostPort[..pos];
          if host != [] {
            result := result.(host := host);
          }
          var port :- ParsePort(hostPort[pos + 1..]);
          result := result.(port := port);
        case None =>
          if hostPort != [] {
            result := result.(host := hostPort);
          }
      }
    }
    return Ok(result);
  }

  method ParseOptions(start: Settings, text: string) returns (r: Outcome<Settings, DsnError>)
    ensures r == WithOptions(start, Split(text, '&'))
  {
    hide Unsigned, Split;
    var result := start;
    var params := Split(text, '&');
    var i := 0;
    while i < |params|
      invariant 0 <= i <= |params|
      invariant WithOptions(result, params[i..]) == WithOptions(start, params)
    {
      var param := params[i];
      assert params[i..][1..] == params[i + 1..];
      var eq := Find(param, '=');
      if eq.Some? {
        var key, val := param[..eq.value], param[eq.value + 1..];
        if key == "autocommit" {
          result := result.(autoCommit := val == "true" || val == "1" || val == "yes");
        } else if key == "timeout" {
          var n := Unsigned(val, 0x1_0000_0000_0000_0000);
          if n.None? {
            return Err(BadTimeout);
          }
          result := result.(timeout := n.value);
        }
      }
      i := i + 1;
    }
    return Ok(result);
  }

  method ParseMain(start: Settings, main: string) returns (r: Outcome<Settings, DsnError>)
    ensures r == WithMain(start, main)
  {
    hide WithHost, Decode, Find, RFind;
    var result := start;
    var place := main;
    var at := RFind(main, '@');
    if at.Some? {
      place := main[at.value + 1..];
      var info := main[..at.value];
      match Find(info, ':') {
        case Some(pos) =>
          var user := DecodeText(info[..pos]);
          var password := DecodeText(info[pos + 1..]);
          result := result.(user := user, password := password);
        case None =>
          var user := DecodeText(info);
          result := result.(user := user);
      }
    }
    var slash := Find(place, '/');
    if slash.None? {
      return Err(NoDatabase);
    }
    var db := place[slash.value + 1..];
    if db == [] {
      return Err(NoDatabase);
    }
    result := result.(database := db);
    r := ParseHost(result, place[..slash.value]);
  }

  method DecodeText(s: string) returns (r: string)
    ensures r == Decode(s)
  {
    r := Percent.PercentDecode(s);
  }

  method Parse(dsn: string) returns (r: Outcome<Settings, DsnError>)
    ensures r == Parsed(dsn)
  {
    hide WithMain, WithOptions, Split;
    if !(SCHEME <= dsn) {
      return Err(BadScheme);
    }
    var rest := dsn[|SCHEME|..];
    var question := Find(rest, '?');
    if question.None? {
      r := ParseMain(DEFAULTS, rest);
      return;
    }
    var result :- ParseMain(DEFAULTS, rest[..question.value]);
    r := ParseOptions(result, rest[question.value + 1..]);
  }

  // ---------------------------------------------------------------------------
  // Writing a DSN
  // ---------------------------------------------------------------------------

  datatype Host = NoHost | Named(name: string) | Bracketed(address: string) {
    predicate Fits() {
      match this
      case NoHost => true
      case Named(h) => h != [] && h[0] != '[' && ':' !in h && '/' !in h && '@' !in h && '?' !in h
      case Bracketed(a) => ']' !in a && '/' !in a && '@' !in a && '?' !in a
    }

    function Write(): string {
      match this
      case NoHost => []
      case Named(h) => h
      case Bracketed(a) => ['['] + a + [']']
    }

    function Meaning(): string {
      match this
      case NoHost => DEFAULTS.host
      case Named(h) => h
      case Bracketed(a) => a
    }
  }

  datatype Login = Nobody | User(user: string) | UserAndPassword(user: string, password: string) {
    predicate Fits() {
      match this
      case Nobody => true
      case User(u) => Percent.Ascii(u)
      case UserAndPassword(u, p) => Percent.Ascii(u) && Percent.Ascii(p)
    }

    function Name(): string { if Nobody? then "" else user }

    function Secret(): string { if UserAndPassword? then password else "" }
  }

  datatype Opt = AutoCommit(on: bool) | Timeout(seconds: u64) | Other(key: string, val: string) {
    predicate Fits() {
      Other? ==> '=' !in key && '&' !in key && '&' !in val && key != "autocommit" && key != "timeout"
    }

    function Write(): string {
      match this
      case AutoCommit(on) => "autocommit" + "=" + if on then "true" else "false"
      case Timeout(n) => "timeout" + "=" + Text.Digits(n)
      case Other(k, v) => k + "=" + v
    }
  }

  datatype Form = Form(login: Login, host: Host, port: Option<u16>, database: string, options: seq<Opt>) {
    predicate Fits() {
      && login.Fits() && host.Fits() && database != [] && '?' !in database && '@' !in database
      && forall o :: o in options ==> o.Fits()
    }
  }

  function WriteLogin(l: Login): string {
    match l
    case Nobody => []
    case User(u) => Percent.PercentEncode(u) + "@"
    case UserAndPassword(u, p) => Percent.PercentEncode(u) + ":" + Percent.PercentEncode(p) + "@"
  }

  function WritePort(port: Option<u16>): string {
    match port
    case None => []
    case Some(n) => ":" + Text.Digits(n)
  }

  function WriteOptions(options: seq<Opt>): (r: seq<string>)
    ensures |r| == |options|
  {
    if options == [] then [] else [options[0].Write()] + WriteOptions(options[1..])
  }

  function WriteMain(f: Form): string {
    WriteLogin(f.login) + (f.host.Write() + WritePort(f.port) + "/" + f.database)
  }

  function Write(f: Form): string {
    SCHEME + (if f.options == [] then WriteMain(f) else WriteMain(f) + "?" + Join(WriteOptions(f.options), '&'))
  }

  /** The value of the last option of a kind. */
  function LastAutoCommit(options: seq<Opt>, otherwise: bool): bool {
    if options == [] then otherwise
    else if options[|options| - 1].AutoCommit? then options[|options| - 1].on
    else LastAutoCommit(options[..|options| - 1], otherwise)
  }

  function LastTimeout(options: seq<Opt>, otherwise: u64): u64 {
    if options == [] then otherwise
    else if options[|options| - 1].Timeout? then options[|options| - 1].seconds
    else LastTimeout(options[..|options| - 1], otherwise)
  }

  function Meaning(f: Form): Settings {
    Settings(f.host.Meaning(), if f.port.Some? then f.port.value else DEFAULTS.port, f.database, f.login.Name(),
             f.login.Secret(), LastAutoCommit(f.options, DEFAULTS.autoCommit), LastTimeout(f.options, DEFAULTS.timeout))
  }

  // ---------------------------------------------------------------------------
  // Parsing what was written
  // ---------------------------------------------------------------------------

  lemma DecimalReads(n: nat, limit: nat)
    requires n < limit
    ensures Unsigned(Text.Digits(n), limit) == Some(n)
  {
    var s := Text.Digits(n);
    assert s[0] in s;
    Text.NumberOfDigits(n);
  }

  lemma EncodedText(t: string)
    requires Percent.Ascii(t)
    ensures var e := Percent.PercentEncode(t);
            Decode(e) == t && ':' !in e && '@' !in e && '?' !in e && '/' !in e
  {
    hide Percent.Decoded, Utf8.Encode, Percent.Encoded;
    Percent.PercentRoundTrip(t);
    Percent.EncodedIsSafe(Utf8.Encode(t));
  }

  lemma LoginReads(d: Settings, l: Login)
    requires l.Fits() && !l.Nobody? && d.user == "" && d.password == ""
    ensures WriteLogin(l) != [] && WriteLogin(l)[|WriteLogin(l)| - 1] == '@' && '?' !in WriteLogin(l)
    ensures WithUser(d, WriteLogin(l)[..|WriteLogin(l)| - 1]) == d.(user := l.Name(), password := l.Secret())
  {
    hide Percent.PercentEncode, Decode;
    var w := WriteLogin(l);
    EncodedText(l.user);
    var u := Percent.PercentEncode(l.user);
    match l
    case User(_) =>
      assert w[..|w| - 1] == u;
      NotFound(u, ':');
    case UserAndPassword(_, _) =>
      EncodedText(l.password);
      var p := Percent.PercentEncode(l.password);
      var info := u + [':'] + p;
      assert w[..|w| - 1] == info;
      FindAt(u, ':', p);
      assert info[..|u|] == u && info[|u| + 1..] == p;
  }

  lemma PortReads(d: Settings, host: string, n: u16)
    ensures var text := host + WritePort(Some(n));
            && RFind(text, ':') == Some(|host|) && text[..|host|] == host
            && WithPort(d, text[|host| + 1..]) == Ok(d.(port := n))
  {
    hide Unsigned;
    var text := host + WritePort(Some(n));
    assert ':' !in Text.Digits(n);
    assert text == host + [':'] + Text.Digits(n);
    RFindAt(host, ':', Text.Digits(n));
    assert text[|host| + 1..] == Text.Digits(n);
    DecimalReads(n, 0x1_0000);
  }

  lemma HostReads(d: Settings, host: Host, port: Option<u16>)
    requires host.Fits() && d.host == DEFAULTS.host && d.port == DEFAULTS.port
    ensures WithHost(d, host.Write() + WritePort(port))
            == Ok(d.(host := host.Meaning(), port := if port.Some? then port.value else DEFAULTS.port))
  {
    if host.Bracketed? { BracketedReads(d, host.address, port); } else { NamedReads(d, host, port); }
  }

  lemma NamedReads(d: Settings, host: Host, port: Option<u16>)
    requires host.Fits() && !host.Bracketed? && d.host == DEFAULTS.host && d.port == DEFAULTS.port
    ensures WithHost(d, host.Write() + WritePort(port))
            == Ok(d.(host := host.Meaning(), port := if port.Some? then port.value else DEFAULTS.port))
  {
    hide WithPort, Find, RFind, WithHost;
    var h := host.Write();
    match port
    case None =>
      assert h + WritePort(port) == h;
      NameAlone(d, h);
    case Some(n) => NameAndPort(d, h, n);
  }

  lemma NameAlone(d: Settings, h: string)
    requires (h != [] ==> h[0] != '[') && ':' !in h
    ensures WithHost(d, h) == Ok(if h != [] then d.(host := h) else d)
  {
    hide WithPort, Find, RFind;
    NotFound(h, ':');
  }

  lemma NameAndPort(d: Settings, h: string, n: u16)
    requires h != [] ==> h[0] != '['
    ensures WithHost(d, h + WritePort(Some(n))) == Ok(if h != [] then d.(host := h, port := n) else d.(port := n))
  {
    hide WithPort, Find, RFind, Text.Digits;
    var text := h + WritePort(Some(n));
    PortReads(if h != [] then d.(host := h) else d, h, n);
    if h == [] { assert text[0] == ':'; } else { assert text[0] == h[0]; }
  }

  lemma BracketedReads(d: Settings, address: string, port: Option<u16>)
    requires ']' !in address && d.host == DEFAULTS.host && d.port == DEFAULTS.port
    ensures WithHost(d, ['['] + address + [']'] + WritePort(port))
            == Ok(d.(host := address, port := if port.Some? then port.value else DEFAULTS.port))
  {
    hide WithPort, Find, RFind;
    var h := ['['] + address + [']'];
    var text := h + WritePort(port);
    assert text == (['['] + address) + [']'] + WritePort(port);
    FindAt(['['] + address, ']', WritePort(port));
    assert text[0] == '[' && text[1..|address| + 1] == address;
    match port
    case None => assert text == h;
    case Some(n) =>
      PortReads(d.(host := address), h, n);
      assert text[|h|] == ':';
  }

  lemma PlaceIsPlain(f: Form)
    requires f.Fits()
    ensures var hostPort := f.host.Write() + WritePort(f.port);
            '/' !in hostPort && '@' !in hostPort && '?' !in hostPort
  {
  }

  lemma PlaceReads(d: Settings, f: Form)
    requires f.Fits() && d.host == DEFAULTS.host && d.port == DEFAULTS.port
    ensures var hostPort := f.host.Write() + WritePort(f.port);
            var place := hostPort + "/" + f.database;
            && Find(place, '/') == Some(|hostPort|) && '@' !in place && '?' !in place
            && place[..|hostPort|] == hostPort && place[|hostPort| + 1..] == f.database
            && WithHost(d.(database := f.database), hostPort)
               == Ok(d.(database := f.database, host := f.host.Meaning(),
                        port := if f.port.Some? then f.port.value else DEFAULTS.port))
  {
    hide WithHost, Host.Fits, WritePort, Host.Write;
    PlaceIsPlain(f);
    var hostPort := f.host.Write() + WritePort(f.port);
    FindAt(hostPort, '/', f.database);
    HostReads(d.(database := f.database), f.host, f.port);
  }

  /** A place after a login. */
  lemma PlaceAfterLogin(info: string, place: string, i: nat)
    requires '@' !in place && Find(place, '/') == Some(i) && place[i + 1..] != []
    ensures WithMain(DEFAULTS, info + ['@'] + place)
            == WithHost(WithUser(DEFAULTS, info).(database := place[i + 1..]), place[..i])
  {
    hide WithHost, WithUser, Find, RFind;
    var main := info + ['@'] + place;
    RFindAt(info, '@', place);
    assert main[..|info|] == info && main[|info| + 1..] == place;
  }

  lemma PlaceAlone(place: string, i: nat)
    requires '@' !in place && Find(place, '/') == Some(i) && place[i + 1..] != []
    ensures WithMain(DEFAULTS, place) == WithHost(DEFAULTS.(database := place[i + 1..]), place[..i])
  {
    hide WithHost, WithUser, Find, RFind;
    NotFound(place, '@');
  }

  lemma MainReads(f: Form)
    requires f.Fits()
    ensures '?' !in WriteMain(f)
    ensures WithMain(DEFAULTS, WriteMain(f))
            == Ok(Meaning(f).(autoCommit := DEFAULTS.autoCommit, timeout := DEFAULTS.timeout))
  {
    hide WithMain, WithHost, WithUser, WriteLogin, WritePort, Host.Write, Host.Fits, Login.Fits, LastAutoCommit,
      LastTimeout, Find;
    var login, hostPort := WriteLogin(f.login), f.host.Write() + WritePort(f.port);
    var place := hostPort + "/" + f.database;
    assert WriteMain(f) == login + place;
    if f.login.Nobody? {
      NobodyWrites();
      assert login + place == place;
      PlaceReads(DEFAULTS, f);
      PlaceAlone(place, |hostPort|);
    } else {
      LoginReads(DEFAULTS, f.login);
      PlaceReads(DEFAULTS.(user := f.login.Name(), password := f.login.Secret()), f);
      var info := login[..|login| - 1];
      assert login + place == info + ['@'] + place;
      PlaceAfterLogin(info, place, |hostPort|);
    }
  }

  lemma NobodyWrites()
    ensures WriteLogin(Nobody) == []
  {
  }

  lemma OptionReads(d: Settings, o: Opt)
    requires o.Fits()
    ensures '&' !in o.Write()
    ensures WithOption(d, o.Write())
            == Ok(match o
                  case AutoCommit(on) => d.(autoCommit := on)
                  case Timeout(n) => d.(timeout := n)
                  case Other(_, _) => d)
  {
    hide WithOption;
    match o
    case AutoCommit(on) => AutoCommitReads(d, on);
    case Timeout(n) => TimeoutReads(d, n);
    case Other(k, v) => OtherReads(d, k, v);
  }

  lemma AutoCommitReads(d: Settings, on: bool)
    ensures '&' !in AutoCommit(on).Write()
    ensures WithOption(d, AutoCommit(on).Write()) == Ok(d.(autoCommit := on))
  {
    hide Unsigned, Find;
    AutoCommitText();
    var key, val := "autocommit", if on then "true" else "false";
    OptionSplits(key, val);
    NotInParts(key, "=", val);
  }

  lemma AutoCommitText()
    ensures '=' !in "autocommit" && '&' !in "autocommit" && '&' !in "=" && '&' !in "true" && '&' !in "false"
  {
  }

  lemma NotInParts(a: string, b: string, c: string)
    requires '&' !in a && '&' !in b && '&' !in c
    ensures '&' !in a + b + c
  {
  }

  lemma TimeoutReads(d: Settings, n: u64)
    ensures '&' !in Timeout(n).Write()
    ensures WithOption(d, Timeout(n).Write()) == Ok(d.(timeout := n))
  {
    hide Unsigned, Find;
    assert '=' !in "timeout" && '&' !in "timeout" && '&' !in "=";
    OptionSplits("timeout", Text.Digits(n));
    DecimalReads(n, 0x1_0000_0000_0000_0000);
  }

  lemma OtherReads(d: Settings, key: string, val: string)
    requires Other(key, val).Fits()
    ensures '&' !in Other(key, val).Write()
    ensures WithOption(d, Other(key, val).Write()) == Ok(d)
  {
    hide Unsigned, Find;
    assert '&' !in "=";
    OptionSplits(key, val);
  }

  lemma OptionSplits(key: string, val: string)
    requires '=' !in key
    ensures var w := key + "=" + val; Find(w, '=') == Some(|key|) && w[..|key|] == key && w[|key| + 1..] == val
  {
    assert key + "=" + val == key + ['='] + val;
    FindAt(key, '=', val);
  }

  lemma {:induction false} OptionsSnoc(d: Settings, params: seq<string>, p: string)
    ensures WithOptions(d, params + [p])
            == match WithOptions(d, params) case Ok(d') => WithOption(d', p) case Err(e) => Err(e) case Crash => Crash
    decreases |params|
  {
    hide WithOption;
    if params == [] {
      assert ([] + [p])[1..] == [];
    } else {
      assert (params + [p])[1..] == params[1..] + [p];
      var d' := WithOption(d, params[0]);
      if d'.Ok? { OptionsSnoc(d'.value, params[1..], p); }
    }
  }

  lemma {:induction false} WrittenSnoc(options: seq<Opt>, o: Opt)
    ensures WriteOptions(options + [o]) == WriteOptions(options) + [o.Write()]
  {
    if options == [] {
      assert ([] + [o])[1..] == [];
    } else {
      WrittenSnoc(options[1..], o);
      assert (options + [o])[1..] == options[1..] + [o];
    }
  }

  /** Of duplicate options the last one wins, and unknown ones are ignored. */
  lemma {:induction false} OptionsRead(d: Settings, options: seq<Opt>)
    requires forall o :: o in options ==> o.Fits()
    ensures forall p :: p in WriteOptions(options) ==> '&' !in p
    ensures WithOptions(d, WriteOptions(options))
            == Ok(d.(autoCommit := LastAutoCommit(options, d.autoCommit), timeout := LastTimeout(options, d.timeout)))
  {
    hide WithOption, Opt.Fits, Opt.Write;
    if options != [] {
      var before, o := options[..|options| - 1], options[|options| - 1];
      assert options == before + [o];
      OptionsRead(d, before);
      WrittenSnoc(before, o);
      OptionsSnoc(d, WriteOptions(before), o.Write());
      OptionReads(d.(autoCommit := LastAutoCommit(before, d.autoCommit), timeout := LastTimeout(before, d.timeout)), o);
    }
  }

  /** Parsing a written DSN gives back every field. */
  lemma ParseInverts(f: Form)
    requires f.Fits()
    ensures Parsed(Write(f)) == Ok(Meaning(f))
  {
    hide WithMain, WithOptions, WriteMain, Split, Join, Host.Fits, Login.Fits, Opt.Fits;
    var main, text := WriteMain(f), Write(f);
    MainReads(f);
    OptionsRead(Meaning(f).(autoCommit := DEFAULTS.autoCommit, timeout := DEFAULTS.timeout), f.options);
    var rest := text[|SCHEME|..];
    assert SCHEME <= text;
    if f.options == [] {
      assert rest == main;
      NotFound(main, '?');
    } else {
      var params := WriteOptions(f.options);
      var query := Join(params, '&');
      assert rest == main + ['?'] + query;
      FindAt(main, '?', query);
      assert rest[..|main|] == main && rest[|main| + 1..] == query;
      SplitOfJoin(params, '&');
    }
  }
}