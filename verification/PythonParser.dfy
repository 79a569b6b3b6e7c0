/** The parser of the Python demo, with Python's slices and integer decoding, compared with the C parser. */
module PythonParser {
  import opened Bytes
  import opened HttpHeader
  import opened DoubaoProtocol

  /** A slice bound as Python clips it. */
  function Clip(i: int, len: nat): (r: nat)
    ensures r <= len
  {
    if i < 0 then (if i + len < 0 then 0 else i + len) else if i > len then len else i
  }

  /** s[lo:hi] */
  function Slice(s: seq<byte>, lo: int, hi: int): seq<byte> {
    var l, h := Clip(lo, |s|), Clip(hi, |s|);
    if l < h then s[l..h] else []
  }

  /** s[lo:] */
  function From(s: seq<byte>, lo: int): seq<byte> {
    s[Clip(lo, |s|)..]
  }

  /** int.from_bytes(s, "big", signed=True) */
  function SignedInt(s: seq<byte>): int {
    if s != [] && s[0] >= 128 then BigEndian(s) - Power256(|s|) else BigEndian(s)
  }

  /** The result dictionary; `message` is the payload before it is decompressed and decoded. */
  datatype Result = Result(sequence: Option<nat>, event: Option<nat>, session: seq<byte>, code: Option<nat>,
                           size: nat, message: Option<seq<byte>>)

  /** parse_response up to the decompression; None where Python raises an IndexError. */
  function Parse(res: seq<byte>): Option<Result> {
    if |res| < 4 then None
    else
      var messageType, flags, payload := res[1] / 16, Flags(res), From(res, HeaderSize(res));
      if IsFull(messageType) then Some(ParseFull(payload, flags))
      else if messageType == MSG_SERVER_ERROR then
        Some(Result(None, None, [], Some(BigEndian(Slice(payload, 0, 4))), BigEndian(Slice(payload, 4, 8)),
                    Some(From(payload, 8))))
      else Some(Result(None, None, [], None, 0, None))
  }

  function ParseFull(payload: seq<byte>, flags: nibble): Result {
    var sequence := if FlagSet(flags, FLAG_NEG_SEQUENCE) then Some(BigEndian(Slice(payload, 0, 4))) else None;
    var event := if FlagSet(flags, FLAG_MSG_WITH_EVENT) then Some(BigEndian(Slice(payload, 0, 4))) else None;
    var rest := From(payload, SessionAt(flags));
    var sessionLen := SignedInt(Slice(rest, 0, 4));
    var session := Slice(rest, 4, sessionLen + 4);
    var tail := From(rest, 4 + sessionLen);
    Result(sequence, event, session, None, BigEndian(Slice(tail, 0, 4)), Some(From(tail, 4)))
  }

  /** The two parsers say the same about a message the C parser gets through: sequence number, event,
      session id, declared size, and payload before decompression. */
  predicate SameFields(b: Body, r: Result) {
    && r.sequence == b.sequence && r.event == b.event
    && r.session == CString(KeptSession(b.session)) && r.size == b.size
    && r.message == Some(if b.size == 0 then [] else b.message)
  }

  lemma SignedAgrees(s: seq<byte>)
    requires |s| == 4
    ensures SignedInt(s) == Signed32(BigEndian(s))
  {
    BigEndian4(s);
    WidthBounds();
  }

  /** Python's reading of a body, in the C parser's terms, when the session length is not negative. */
  lemma SameCursor(p: seq<byte>, flags: nibble)
    requires ParseBody(p, flags).Some? && ParseBody(p, flags).value.sessionLen >= 0
    ensures var b, r := ParseBody(p, flags).value, ParseFull(p, flags);
            r.session == b.session && r.size == b.size && r.message == Some(b.message)
  {
    hide BigEndian;
    var at, b := SessionAt(flags), ParseBody(p, flags).value;
    var rest := p[at..];
    assert Slice(rest, 0, 4) == p[at..at + 4];
    SignedAgrees(p[at..at + 4]);
    assert Slice(rest, 4, b.sessionLen + 4) == p[at + 4..at + 4 + b.sessionLen];
    var tail := From(rest, 4 + b.sessionLen);
    assert tail == p[at + 4 + b.sessionLen..];
    assert Slice(tail, 0, 4) == p[at + 4 + b.sessionLen..at + 4 + b.sessionLen + 4];
    assert From(tail, 4) == b.message;
  }

  /** With a negative session length C takes no session id; Python counts from the end of the message. */
  lemma NegativeLength(p: seq<byte>, flags: nibble)
    requires ParseBody(p, flags).Some? && ParseBody(p, flags).value.sessionLen < 0
    ensures ParseBody(p, flags).value.session == []
    ensures var b, r, n := ParseBody(p, flags).value, ParseFull(p, flags), |p| - SessionAt(flags);
            if -b.sessionLen == n then r.session == [] == b.session && r.size == b.size && r.message == Some(b.message)
            else r.session != [] || r.message != Some(if b.size == 0 then [] else b.message)
  {
    hide BigEndian;
    var at, b := SessionAt(flags), ParseBody(p, flags).value;
    var rest, n, k := p[at..], |p| - at, -b.sessionLen;
    assert Slice(rest, 0, 4) == p[at..at + 4];
    SignedAgrees(p[at..at + 4]);
    var tail := From(rest, 4 - k);
    if k == n {
      assert tail == p[at + 4..];
      assert Slice(tail, 0, 4) == p[at + 4..at + 8];
      assert From(tail, 4) == b.message;
    } else if 4 < k < n {
      assert |Slice(rest, 4, 4 - k)| == n - k;
    } else {
      assert |From(tail, 4)| > n - 8 == |b.message|;
    }
  }

  /** Event codes agree unless a sequence number stands before the event: Python reads that number again. */
  lemma SameNumbers(p: seq<byte>, flags: nibble)
    requires ParseBody(p, flags).Some?
    ensures var b, r := ParseBody(p, flags).value, ParseFull(p, flags);
            r.sequence == b.sequence &&
            (r.event == b.event <==> (b.sequence.Some? && b.event.Some? ==> b.sequence == b.event))
  {
    hide BigEndian;
    var at := SessionAt(flags);
    if at >= 4 {
      assert Slice(p, 0, 4) == p[0..4];
    }
  }

  /** Exactly when the two parsers agree on a full response or acknowledgement that the C parser gets through. */
  lemma ParsersAgree(p: seq<byte>, flags: nibble)
    requires ParseBody(p, flags).Some?
    ensures var b := ParseBody(p, flags).value;
            SameFields(b, ParseFull(p, flags)) <==>
            && (b.sequence.Some? && b.event.Some? ==> b.sequence == b.event)
            && (b.size == 0 ==> b.message == [])
            && 0 !in b.session
            && (if b.sessionLen >= 0 then b.sessionLen < SESSION_ID_SIZE else -b.sessionLen == |p| - SessionAt(flags))
  {
    hide ParseFull, BigEndian, CString, KeptSession;
    var b := ParseBody(p, flags).value;
    SameNumbers(p, flags);
    if b.sessionLen >= 0 {
      SameCursor(p, flags);
      SessionRead(b.session);
      assert |b.session| == b.sessionLen;
    } else {
      NegativeLength(p, flags);
      SessionRead([]);
    }
  }

  /** The whole message: for what the C parser returns, Python finds the same header, and on error messages
      the same code, size and payload. */
  lemma SameMessage(data: seq<byte>, gunzip: seq<byte> -> Option<seq<byte>>, noMemory: bool)
    requires Parsed(data, gunzip, noMemory).Some?
    ensures Parse(data).Some?
    ensures IsFull(data[1] / 16) ==>
              var p := data[HeaderSize(data)..];
              ParseBody(p, Flags(data)).Some? && Parse(data) == Some(ParseFull(p, Flags(data)))
    ensures data[1] / 16 == MSG_SERVER_ERROR ==>
              var p, c, r := data[HeaderSize(data)..], Parsed(data, gunzip, noMemory).value, Parse(data).value;
              |p| >= 8 && r.code == Some(c.errorCode) && r.size == c.payloadSize && r.message == Some(p[8..])
  {
    hide BigEndian, ParseFull, ParseBody;
    var p := data[HeaderSize(data)..];
    if data[1] / 16 == MSG_SERVER_ERROR {
      assert Slice(p, 0, 4) == p[0..4] && Slice(p, 4, 8) == p[4..8];
    }
  }

  /** generate_header with a header extension. */
  function GenerateHeader(messageType: nibble, flags: nibble, serial: nibble, compression: nibble,
                          extension: seq<byte>): seq<byte>
    requires |extension| / 4 + 1 < 16
  {
    [PROTOCOL_VERSION * 16 + (|extension| / 4 + 1), messageType * 16 + flags, serial * 16 + compression, 0] + extension
  }

  /** Without an extension both generators write the same; a reader skips an extension exactly when its
      length is a multiple of four. */
  lemma HeadersAgree(messageType: nibble, flags: nibble, serial: nibble, compression: nibble, extension: seq<byte>)
    requires |extension| / 4 + 1 < 16
    ensures var h := GenerateHeader(messageType, flags, serial, compression, extension);
            (extension == [] ==> h == HeaderBytes(messageType, flags, serial, compression))
            && (HeaderSize(h) == |h| <==> |extension| % 4 == 0)
  {
    var h := GenerateHeader(messageType, flags, serial, compression, extension);
    assert h[0] % 16 == |extension| / 4 + 1;
  }
}
