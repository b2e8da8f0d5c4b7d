/** Opening a database: the fixed-layout request and the reply that starts a session. */
module Handshake {
  import opened Bytes
  import opened Wrappers
  import opened Types
  import opened Codec
  import opened Response
  import opened Replies
  import opened Writer
  import Percent
  import Utf8

  const FIELD: nat := 32
  const EXTENDED_SIZE: nat := 512
  const RESERVED_SIZE: nat := 20
  const PAYLOAD_SIZE: nat := 628
  const BROKER_INFO: nat := 16

  /** The fields of an open-database request, one after the other. */
  function OpenRequest(database: string, user: string, password: string): seq<byte> {
    Fixed(Utf8.Encode(database), FIELD) + Fixed(Utf8.Encode(user), FIELD) + Fixed(Utf8.Encode(password), FIELD)
    + Zeros(EXTENDED_SIZE) + Zeros(RESERVED_SIZE)
  }

  method WriteOpenDatabase(database: string, user: string, password: string) returns (request: seq<byte>)
    ensures request == OpenRequest(database, user, password) && |request| == PAYLOAD_SIZE
  {
    hide Fixed, Utf8.Encode, Zeros;
    var w := new PacketWriter();
    w.WriteFixedString(database, FIELD);
    w.WriteFixedString(user, FIELD);
    w.WriteFixedString(password, FIELD);
    w.WriteFiller(EXTENDED_SIZE);
    w.WriteFiller(RESERVED_SIZE);
    request := w.buf;
    assert request == [] + Fixed(Utf8.Encode(database), FIELD) + Fixed(Utf8.Encode(user), FIELD)
                      + Fixed(Utf8.Encode(password), FIELD) + Zeros(EXTENDED_SIZE) + Zeros(RESERVED_SIZE);
    assert [] + Fixed(Utf8.Encode(database), FIELD) == Fixed(Utf8.Encode(database), FIELD);
  }

  /** A field as a server reads it: without the padding. */
  function Field(request: seq<byte>, i: nat): seq<byte>
    requires |request| == 628 && i < 3
  {
    Utf8.StripBytes(request[32 * i..32 * (i + 1)])
  }

  /** A text that a field holds unchanged. */
  predicate FitsField(t: string) {
    |Utf8.Encode(t)| <= 32 && Utf8.NoTrailingNul(t)
  }

  lemma FixedStrips(b: seq<byte>, length: nat)
    ensures Utf8.StripBytes(Fixed(b, length)) == b <==> |b| <= length && (b != [] ==> b[|b| - 1] != 0)
  {
    hide Utf8.StripBytes;
    if |b| <= length {
      assert Fixed(b, length) == b + Zeros(length - |b|);
      if b != [] ==> b[|b| - 1] != 0 { Utf8.StripIsUnique(b, length - |b|); }
    }
  }

  lemma FixedReads(t: string)
    ensures Utf8.StripBytes(Fixed(Utf8.Encode(t), FIELD)) == Utf8.Encode(t) <==> FitsField(t)
  {
    hide Utf8.Encode, Utf8.StripBytes, Fixed, Utf8.NoTrailingNul;
    FixedStrips(Utf8.Encode(t), FIELD);
    Utf8.EndOfText(t);
  }

  /** The server reads exactly the login that was given, if and only if all of it fits the fields: longer texts are
      cut without notice. */
  lemma {:induction false} OpenRequestReads(database: string, user: string, password: string)
    ensures var r := OpenRequest(database, user, password);
            && |r| == 628 && (forall i :: 96 <= i < 628 ==> r[i] == 0)
            && ((Field(r, 0) == Utf8.Encode(database) && Field(r, 1) == Utf8.Encode(user)
                 && Field(r, 2) == Utf8.Encode(password))
                <==> FitsField(database) && FitsField(user) && FitsField(password))
  {
    hide Fixed, Utf8.Encode, Utf8.StripBytes, FitsField;
    var r := OpenRequest(database, user, password);
    assert r[0..FIELD] == Fixed(Utf8.Encode(database), FIELD);
    assert r[FIELD..FIELD * 2] == Fixed(Utf8.Encode(user), FIELD);
    assert r[FIELD * 2..FIELD * 3] == Fixed(Utf8.Encode(password), FIELD);
    FixedReads(database);
    FixedReads(user);
    FixedReads(password);
  }

  /** Names that differ after 32 characters open the same database. */
  lemma LongNamesCollide(name: string, more: char, user: string, password: string)
    requires Percent.Ascii(name) && |name| == 32
    ensures OpenRequest(name + [more], user, password) == OpenRequest(name, user, password)
  {
    hide Utf8.Encode;
    Utf8.EncodeSnoc(name, more);
    Percent.LongerThanText(name);
    var b := Utf8.Encode(name);
    assert (b + Utf8.EncodeChar(more))[..FIELD] == b && b[..FIELD] == b;
  }

  datatype OpenDatabaseResult = OpenDatabaseResult(casInfo: CasInfo, protoVersion: i32, sessionId: i32)

  /** `parse_open_database`: the protocol version is the low six bits of the fifth broker byte. */
  function ReadOpenDatabase(data: seq<byte>): Parse<OpenDatabaseResult> {
    var (header, rest) :- ReadHeader(data);
    var (broker, rest) :- Take(BROKER_INFO, rest);
    var (session, rest) :- ReadInt(rest);
    Parse.Done(OpenDatabaseResult(header.0, broker[4] % 64, session), rest)
  }

  method ParseOpenDatabase(data: seq<byte>) returns (r: Outcome<OpenDatabaseResult, ProtocolError>)
    ensures r == ReadOpenDatabase(data).Result()
  {
    hide ReadHeader, ReadInt, Signed;
    var reader := new PacketReader(data);
    var header :- ParseHeader(reader);
    var broker :- reader.ParseRawBytes(BROKER_INFO);
    var session :- reader.ParseInt();
    return Ok(OpenDatabaseResult(header.0, broker[4] % 64, session));
  }

  /** The session starts with the token, the version and the id that the reply carries, or with its error. */
  lemma OpenReplyInverts(cas: CasInfo, code: i32, broker: seq<byte>, session: i32, tail: seq<byte>,
                         error: i32, message: WireText)
    requires |broker| == 16 && message.Fits()
    ensures code >= 0 ==> ReadOpenDatabase(EncodeHeader(cas, code, broker + (Be32(session) + tail))).Result()
                          == Ok(OpenDatabaseResult(cas, broker[4] % 64, session))
    ensures code < 0 ==> ReadOpenDatabase(EncodeError(cas, code, error, message)).Result()
                         == Err(ServerError(error, message.text))
  {
    hide Signed, ReadHeader, EncodeHeader, EncodeError;
    if code >= 0 {
      var rest := broker + (Be32(session) + tail);
      HeaderInverts(cas, code, rest);
      assert rest[..BROKER_INFO] == broker && rest[BROKER_INFO..] == Be32(session) + tail;
    } else {
      ErrorInverts(cas, code, error, message, [], Unknown, 0);
      HeaderFails(EncodeError(cas, code, error, message), ServerError(error, message.text));
    }
  }

  lemma HeaderFails(data: seq<byte>, e: ProtocolError)
    requires ReadSimple(data) == Fail(e)
    ensures ReadHeader(data) == Fail(e)
  {
    hide ReadHeader;
  }
}
