/** The events the clients act on, by number. */
module Events {
  const EVENT_SESSION_FINISH_1 := 152
  const EVENT_SESSION_FINISH_2 := 153
  const EVENT_TTS_ENDED := 359
  const EVENT_CLEAR_CACHE := 450
  const EVENT_USER_QUERY_END := 459
}

/** The binary protocol: the command builder and the response parser of the device, which the desktop
    client shares. Decompression is a parameter. */
module DoubaoProtocol {
  import opened Bytes
  import opened HttpHeader

  const PROTOCOL_VERSION := 1
  const DEFAULT_HEADER_SIZE := 1
  const MSG_SERVER_FULL_RESPONSE: byte := 0x9
  const MSG_SERVER_ACK: byte := 0xB
  const MSG_SERVER_ERROR: byte := 0xF
  const FLAG_NEG_SEQUENCE := 0x2
  const FLAG_MSG_WITH_EVENT := 0x4
  const SERIAL_NONE: byte := 0
  const COMPRESS_NONE: byte := 0
  const COMPRESS_GZIP: byte := 1
  const SESSION_ID_SIZE := 128

  type nibble = x: byte | x < 16

  // ---- The builder ----

  function HeaderBytes(messageType: nibble, flags: nibble, serial: nibble, compression: nibble): (r: seq<byte>)
    ensures |r| == 4
  {
    [0x11, messageType * 16 + flags, serial * 16 + compression, 0]
  }

  /** A length-prefixed field; the length is a uint32_t. */
  function Field(s: seq<byte>): seq<byte> {
    BigEndianBytes(|s|, 4) + s
  }

  /** A command as it goes over the wire, with its payload compressed already. */
  function CommandBytes(messageType: nibble, flags: nibble, serial: nibble, compression: nibble, command: nat,
                        session: Option<seq<byte>>, payload: seq<byte>): seq<byte>
  {
    HeaderBytes(messageType, flags, serial, compression) + BigEndianBytes(command, 4)
    + (if session.Some? then Field(session.value) else []) + Field(payload)
  }

  // write_u32_be; the conversion to uint32_t keeps the four low bytes, which are the ones written
  method WriteU32(buf: array<byte>, p: nat, value: nat)
    requires p + 4 <= buf.Length
    modifies buf
    ensures buf[..p + 4] == old(buf[..p]) + BigEndianBytes(value, 4)
  {
    ghost var before := buf[..p];
    buf[p] := value / 0x100_0000 % 256;
    buf[p + 1] := value / 0x1_0000 % 256;
    buf[p + 2] := value / 256 % 256;
    buf[p + 3] := value % 256;
    FourBytes(value);
    assert buf[..p + 4] == before + [value / 0x100_0000 % 256, value / 0x1_0000 % 256, value / 256 % 256, value % 256];
  }

  lemma FourBytes(n: nat)
    ensures BigEndianBytes(n, 4) == [n / 0x100_0000 % 256, n / 0x1_0000 % 256, n / 256 % 256, n % 256]
  {
    var n1, n2, n3 := n / 256, n / 0x1_0000, n / 0x100_0000;
    assert n1 / 256 == n2 && n2 / 256 == n3;
    assert BigEndianBytes(n3, 1) == [n3 % 256];
    assert BigEndianBytes(n2, 2) == BigEndianBytes(n3, 1) + [n2 % 256];
    assert BigEndianBytes(n1, 3) == BigEndianBytes(n2, 2) + [n1 % 256];
  }

  // protocol_generate_header
  method GenerateHeader(buf: array<byte>, messageType: nibble, flags: nibble, serial: nibble, compression: nibble)
    returns (n: int)
    modifies buf
    ensures if buf.Length < 4 then n == -1 && buf[..] == old(buf[..])
            else n == 4 && buf[..4] == [0x11, messageType * 16 + flags, serial * 16 + compression, 0]
  {
    if buf.Length < 4 {
      return -1;
    }
    buf[0] := PROTOCOL_VERSION * 16 + DEFAULT_HEADER_SIZE;
    buf[1] := messageType * 16 + flags;
    buf[2] := serial * 16 + compression;
    buf[3] := 0;
    return 4;
  }

  // a length and the bytes behind it
  method PutField(buf: array<byte>, start: nat, s: seq<byte>) returns (p: nat)
    requires start + 4 + |s| <= buf.Length
    modifies buf
    ensures p == start + 4 + |s| && buf[..p] == old(buf[..start]) + Field(s)
  {
    hide BigEndianBytes;
    p := start;
    WriteU32(buf, p, |s|);
    p := p + 4;
    Put(buf, p, s);
    p := p + |s|;
  }

  // build_command of the device: the compression asked for is ignored
  method BuildCommand(messageType: nibble, flags: nibble, serial: nibble, compress: nibble, command: nat,
                      session: Option<seq<byte>>, payload: seq<byte>, noMemory: bool) returns (buf: array?<byte>)
    requires command < 0x1_0000_0000
    ensures buf == null <==> noMemory
    ensures buf != null ==>
              fresh(buf)
              && buf[..] == CommandBytes(messageType, flags, serial, COMPRESS_NONE, command, session, payload)
  {
    if noMemory {
      return null;
    }
    buf := PutCommand(messageType, flags, serial, COMPRESS_NONE, command, session, payload);
  }

  /** What the desktop client puts into a command for `payload`. */
  function Compressed(compress: nibble, payload: seq<byte>, gzip: seq<byte> -> Option<seq<byte>>): Option<seq<byte>> {
    if compress == 1 && payload != [] then gzip(payload) else Some(payload)
  }

  // build_command of the desktop client
  method BuildCompressed(messageType: nibble, flags: nibble, serial: nibble, compress: nibble, command: nat,
                         session: Option<seq<byte>>, payload: seq<byte>, gzip: seq<byte> -> Option<seq<byte>>,
                         noMemory: bool)
    returns (buf: array?<byte>)
    requires command < 0x1_0000_0000
    ensures buf == null <==> noMemory || Compressed(compress, payload, gzip).None?
    ensures buf != null ==>
              fresh(buf)
              && buf[..] == CommandBytes(messageType, flags, serial, compress, command, session,
                                         Compressed(compress, payload, gzip).value)
  {
    hide CommandBytes;
    var compressed := payload;
    if compress == COMPRESS_GZIP && |payload| > 0 {
      var z := gzip(payload);
      if z.None? {
        return null;
      }
      compressed := z.value;
    }
    if noMemory {
      return null;
    }
    buf := PutCommand(messageType, flags, serial, compress, command, session, compressed);
  }

  // what both builders do with the payload; the session id is a C string, and None without a session
  method PutCommand(messageType: nibble, flags: nibble, serial: nibble, compression: nibble, command: nat,
                    session: Option<seq<byte>>, payload: seq<byte>) returns (buf: array<byte>)
    requires command < 0x1_0000_0000
    ensures fresh(buf) && buf[..] == CommandBytes(messageType, flags, serial, compression, command, session, payload)
  {
    hide BigEndianBytes;
    var total := 4 + 4;
    if session.Some? {
      total := total + 4 + |session.value|;
    }
    total := total + 4 + |payload|;
    buf := new byte[total];
    var _ := GenerateHeader(buf, messageType, flags, serial, compression);
    var p := 4;
    WriteU32(buf, p, command);
    p := p + 4;
    if session.Some? {
      p := PutField(buf, p, session.value);
    }
    p := PutField(buf, p, payload);
    assert buf[..] == buf[..p];
  }

  // ---- The parser ----

  /** What a message says. The event is signed, as the code keeps it in an int; a payload of None is
      the null pointer. */
  datatype Response = Response(messageType: byte, sequence: Option<nat>, event: Option<int>, sessionId: seq<byte>,
                               payloadSize: nat, payload: Option<seq<byte>>, isBinary: bool, errorCode: nat)

  function U32(s: seq<byte>, i: nat): nat
    requires i + 4 <= |s|
  {
    BigEndian(s[i..i + 4])
  }

  predicate FlagSet(flags: nibble, flag: nat)
    requires flag > 0
  {
    flags / flag % 2 == 1
  }

  function HeaderSize(data: seq<byte>): nat
    requires |data| >= 4
  {
    data[0] % 16 * 4
  }

  function Flags(data: seq<byte>): nibble
    requires |data| >= 4
  {
    data[1] % 16
  }

  /** The fields of a full response or an acknowledgement behind the header. */
  datatype Body = Body(sequence: Option<nat>, event: Option<nat>, sessionLen: int, session: seq<byte>,
                       size: nat, message: seq<byte>)

  /** Where the session length is. */
  function SessionAt(flags: nibble): nat {
    (if FlagSet(flags, FLAG_NEG_SEQUENCE) then 4 else 0) + (if FlagSet(flags, FLAG_MSG_WITH_EVENT) then 4 else 0)
  }

  function ParseBody(p: seq<byte>, flags: nibble): Option<Body> {
    var at := SessionAt(flags);
    if |p| < at + 4 then None
    else
      var sessionLen := Signed32(U32(p, at));
      var taken := if sessionLen > 0 then sessionLen else 0;
      if |p| < at + 4 + taken + 4 then None
      else
        Some(Body(if FlagSet(flags, FLAG_NEG_SEQUENCE) then Some(U32(p, 0)) else None,
                  if FlagSet(flags, FLAG_MSG_WITH_EVENT) then Some(U32(p, at - 4)) else None,
                  sessionLen, p[at + 4..at + 4 + taken], U32(p, at + 4 + taken), p[at + 4 + taken + 4..]))
  }

  /** The session id as far as it fits its buffer, terminator included; whoever reads it stops at its first NUL. */
  function KeptSession(session: seq<byte>): seq<byte> {
    if |session| < SESSION_ID_SIZE - 1 then session else session[..SESSION_ID_SIZE - 1]
  }

  lemma {:induction false} WholeCString(s: seq<byte>)
    ensures CString(s) == s <==> 0 !in s
  {
    if s != [] {
      WholeCString(s[1..]);
      assert s == [s[0]] + s[1..];
    }
  }

  lemma KeptWhole(session: seq<byte>)
    requires |session| < SESSION_ID_SIZE
    ensures KeptSession(session) == session
  {
  }

  /** A reader of the field sees the whole session id exactly if it fits and holds no NUL. */
  lemma SessionRead(session: seq<byte>)
    ensures CString(KeptSession(session)) == session <==> |session| < SESSION_ID_SIZE && 0 !in session
  {
    if |session| < SESSION_ID_SIZE {
      assert KeptSession(session) == session;
      WholeCString(session);
    }
  }

  predicate IsFull(messageType: byte) {
    messageType == MSG_SERVER_FULL_RESPONSE || messageType == MSG_SERVER_ACK
  }

  /** The payload, decompressed or copied. */
  function Payload(message: seq<byte>, compression: nibble, gunzip: seq<byte> -> Option<seq<byte>>, noMemory: bool):
    Option<seq<byte>>
  {
    if compression == COMPRESS_GZIP then gunzip(message) else if noMemory then None else Some(message)
  }

  /** What is made of the parsed fields; None when the payload does not decompress or there is no memory for it. */
  function Finish(messageType: byte, serial: nibble, compression: nibble, b: Body,
                  gunzip: seq<byte> -> Option<seq<byte>>, noMemory: bool): Option<Response>
  {
    var r := Response(messageType, b.sequence, if b.event.Some? then Some(Signed32(b.event.value)) else None,
                      CString(KeptSession(b.session)), b.size, None, false, 0);
    if b.message == [] || b.size == 0 then Some(r)
    else
      var payload := Payload(b.message, compression, gunzip, noMemory);
      if payload.None? then None
      else Some(r.(payload := payload, isBinary := serial == SERIAL_NONE))
  }

  function ErrorResponse(p: seq<byte>, compression: nibble, gunzip: seq<byte> -> Option<seq<byte>>, noMemory: bool):
    Response
    requires |p| >= 8
  {
    var payload := if |p| == 8 then None else Payload(p[8..], compression, gunzip, noMemory);
    Response(MSG_SERVER_ERROR, None, None, [], U32(p, 4), payload, false, U32(p, 0))
  }

  /** The message `data` as the parser reads it; None where it returns an error. */
  function Parsed(data: seq<byte>, gunzip: seq<byte> -> Option<seq<byte>>, noMemory: bool): Option<Response> {
    if |data| < 4 || |data| < HeaderSize(data) then None
    else
      var messageType, p := data[1] / 16, data[HeaderSize(data)..];
      if IsFull(messageType) then
        match ParseBody(p, Flags(data))
        case None => None
        case Some(b) => Finish(messageType, data[2] / 16, data[2] % 16, b, gunzip, noMemory)
      else if messageType == MSG_SERVER_ERROR then
        if |p| < 8 then None else Some(ErrorResponse(p, data[2] % 16, gunzip, noMemory))
      else Some(Response(messageType, None, None, [], 0, None, false, 0))
  }

  // read_u32_be
  method ReadU32(p: seq<byte>, i: nat) returns (n: nat)
    requires i + 4 <= |p|
    ensures n == U32(p, i)
  {
    BigEndian4(p[i..i + 4]);
    n := ((p[i] as int * 256 + p[i + 1] as int) * 256 + p[i + 2] as int) * 256 + p[i + 3] as int;
  }

  // the branch of protocol_parse_response for full responses and acknowledgements: the cursor
  method ParseFields(p: seq<byte>, flags: nibble) returns (b: Option<Body>)
    ensures b == ParseBody(p, flags)
  {
    hide BigEndian;
    var offset := 0;
    var sequence: Option<nat>, event: Option<nat> := None, None;
    if flags / FLAG_NEG_SEQUENCE % 2 == 1 {
      if offset + 4 > |p| {
        return None;
      }
      var n := ReadU32(p, offset);
      sequence := Some(n);
      offset := offset + 4;
    }
    if flags / FLAG_MSG_WITH_EVENT % 2 == 1 {
      if offset + 4 > |p| {
        return None;
      }
      var n := ReadU32(p, offset);
      event := Some(n);
      offset := offset + 4;
    }
    assert offset == SessionAt(flags);
    if offset + 4 > |p| {
      return None;
    }
    var n := ReadU32(p, offset);
    var sessionLen := Signed32(n);
    offset := offset + 4;
    var session: seq<byte> := [];
    if sessionLen > 0 {
      if offset + sessionLen > |p| {
        return None;
      }
      session := p[offset..offset + sessionLen];
      offset := offset + sessionLen;
    }
    if offset + 4 > |p| {
      return None;
    }
    var size := ReadU32(p, offset);
    assert session == p[SessionAt(flags) + 4..offset];
    offset := offset + 4;
    return Some(Body(sequence, event, sessionLen, session, size, p[offset..]));
  }

  // protocol_parse_response
  method ParseResponse(data: seq<byte>, gunzip: seq<byte> -> Option<seq<byte>>, noMemory: bool)
    returns (ret: int, resp: Option<Response>)
    ensures resp == Parsed(data, gunzip, noMemory)
    ensures ret == if resp.Some? then 0 else -1
  {
    hide ParseBody, BigEndian;
    if |data| < 4 {
      return -1, None;
    }
    var headerBytes := data[0] % 16 * 4;
    var messageType := data[1] / 16;
    if |data| < headerBytes {
      return -1, None;
    }
    var p := data[headerBytes..];
    var r := Response(messageType, None, None, [], 0, None, false, 0);
    if messageType == MSG_SERVER_FULL_RESPONSE || messageType == MSG_SERVER_ACK {
      var b := ParseFields(p, data[1] % 16);
      if b.None? {
        return -1, None;
      }
      resp := Finish(messageType, data[2] / 16, data[2] % 16, b.value, gunzip, noMemory);
      return if resp.Some? then 0 else -1, resp;
    } else if messageType == MSG_SERVER_ERROR {
      if |p| < 8 {
        return -1, None;
      }
      var code := ReadU32(p, 0);
      var size := ReadU32(p, 4);
      r := r.(errorCode := code, payloadSize := size);
      if |p| - 8 > 0 {
        r := r.(payload := Payload(p[8..], data[2] % 16, gunzip, noMemory));
      }
    }
    return 0, Some(r);
  }

  // ---- Round trip ----

  lemma ReadBack(a: seq<byte>, n: nat, b: seq<byte>)
    ensures U32(a + BigEndianBytes(n, 4) + b, |a|) == n % 0x1_0000_0000
  {
    var s := a + BigEndianBytes(n, 4) + b;
    assert s[|a|..|a| + 4] == BigEndianBytes(n, 4);
    FourBytes(n);
    BigEndian4(BigEndianBytes(n, 4));
    Recombine(n);
  }

  lemma LowTwo(n: nat)
    ensures n % 0x1_0000 == n / 256 % 256 * 256 + n % 256
  {
    var high, middle, low := n / 256 / 256, n / 256 % 256, n % 256;
    assert n == high * 0x1_0000 + (middle * 256 + low);
  }

  lemma LowThree(n: nat)
    ensures n % 0x100_0000 == n / 256 % 0x1_0000 * 256 + n % 256
  {
    var high, middle, low := n / 256 / 0x1_0000, n / 256 % 0x1_0000, n % 256;
    assert n == high * 0x100_0000 + (middle * 256 + low);
  }

  lemma LowFour(n: nat)
    ensures n % 0x1_0000_0000 == n / 256 % 0x100_0000 * 256 + n % 256
  {
    var high, middle, low := n / 256 / 0x100_0000, n / 256 % 0x100_0000, n % 256;
    assert n == high * 0x1_0000_0000 + (middle * 256 + low);
  }

  lemma Recombine(n: nat)
    ensures ((n / 0x100_0000 % 256 * 256 + n / 0x1_0000 % 256) * 256 + n / 256 % 256) * 256 + n % 256
            == n % 0x1_0000_0000
  {
    var n1, n2, n3 := n / 256, n / 0x1_0000, n / 0x100_0000;
    assert n1 / 256 == n2 && n2 / 256 == n3;
    LowFour(n);
    LowThree(n1);
    LowTwo(n2);
  }

  /** The fields of a built command, with or without a session. */
  lemma BuiltFields(messageType: nibble, flags: nibble, serial: nibble, compression: nibble, command: nat,
                    session: seq<byte>, payload: seq<byte>)
    requires command < 0x1_0000_0000 && |session| < 0x8000_0000
    requires !FlagSet(flags, FLAG_NEG_SEQUENCE) && FlagSet(flags, FLAG_MSG_WITH_EVENT)
    ensures var data := CommandBytes(messageType, flags, serial, compression, command, Some(session), payload);
            |data| >= 4 && HeaderSize(data) == 4 && Flags(data) == flags && data[1] / 16 == messageType
            && data[2] / 16 == serial && data[2] % 16 == compression
            && ParseBody(data[4..], flags) ==
               Some(Body(None, Some(command), |session|, session, |payload| % 0x1_0000_0000, payload))
  {
    hide BigEndianBytes, BigEndian, U32;
    var data := CommandBytes(messageType, flags, serial, compression, command, Some(session), payload);
    var c, l, m := BigEndianBytes(command, 4), BigEndianBytes(|session|, 4), BigEndianBytes(|payload|, 4);
    var p := data[4..];
    assert p == c + l + session + m + payload;
    assert U32(p, 0) == command by {
      assert p == [] + c + (l + session + m + payload);
      ReadBack([], command, l + session + m + payload);
    }
    assert U32(p, 4) == |session| by {
      assert p == c + l + (session + m + payload);
      ReadBack(c, |session|, session + m + payload);
    }
    assert U32(p, 8 + |session|) == |payload| % 0x1_0000_0000 by {
      assert p == (c + l + session) + m + payload;
      ReadBack(c + l + session, |payload|, payload);
    }
    assert p[8..8 + |session|] == session && p[8 + |session| + 4..] == payload;
  }

  /** Parsing a built command gives back what it was built from: the event always, the session id, as a C string, if and
      only if it fits its buffer and holds no NUL, the payload if and only if its length is not a multiple of 2^32. */
  lemma BuildParseRoundTrip(messageType: nibble, flags: nibble, serial: nibble, command: nat, session: seq<byte>,
                            payload: seq<byte>, gunzip: seq<byte> -> Option<seq<byte>>)
    requires IsFull(messageType) && command < 0x1_0000_0000 && |session| < 0x8000_0000
    requires !FlagSet(flags, FLAG_NEG_SEQUENCE) && FlagSet(flags, FLAG_MSG_WITH_EVENT)
    ensures var data := CommandBytes(messageType, flags, serial, COMPRESS_NONE, command, Some(session), payload);
            var r := Parsed(data, gunzip, false);
            r.Some? &&
            r.value.messageType == messageType && r.value.event == Some(Signed32(command)) && r.value.sequence == None
            && r.value.payloadSize == |payload| % 0x1_0000_0000
            && (r.value.sessionId == session <==> |session| < SESSION_ID_SIZE && 0 !in session)
            && (r.value.payload == Some(payload) <==> |payload| % 0x1_0000_0000 != 0)
            && (r.value.payload.Some? ==> r.value.isBinary == (serial == SERIAL_NONE))
  {
    hide CommandBytes, ParseBody, CString, KeptSession;
    SessionRead(session);
    BuiltFields(messageType, flags, serial, COMPRESS_NONE, command, session, payload);
  }

  /** With a compressed payload `z` in the command, parsing gives what `z` decompresses to, and fails if and only if
      it does not decompress; a length that is a multiple of 2^32 hides the payload. */
  lemma CompressedRoundTrip(messageType: nibble, flags: nibble, serial: nibble, command: nat, session: seq<byte>,
                            z: seq<byte>, gunzip: seq<byte> -> Option<seq<byte>>)
    requires IsFull(messageType) && command < 0x1_0000_0000 && |session| < SESSION_ID_SIZE
    requires !FlagSet(flags, FLAG_NEG_SEQUENCE) && FlagSet(flags, FLAG_MSG_WITH_EVENT)
    ensures var data := CommandBytes(messageType, flags, serial, COMPRESS_GZIP, command, Some(session), z);
            var r := Parsed(data, gunzip, false);
            var seen := |z| % 0x1_0000_0000 != 0;
            (r.None? <==> seen && gunzip(z).None?) &&
            (r.Some? ==> r.value == Response(messageType, None, Some(Signed32(command)), CString(session),
                                             |z| % 0x1_0000_0000, if seen then gunzip(z) else None,
                                             seen && serial == SERIAL_NONE, 0))
  {
    hide CommandBytes, ParseBody, CString, KeptSession;
    assert KeptSession(session) == session by { KeptWhole(session); }
    BuiltFields(messageType, flags, serial, COMPRESS_GZIP, command, session, z);
  }

  /** A command built without a session (StartConnection, FinishConnection) is never accepted as a full
      response: its payload is taken for a session id and nothing is left behind it. */
  lemma WithoutSessionRejected(messageType: nibble, flags: nibble, serial: nibble, compression: nibble, command: nat,
                               payload: seq<byte>, gunzip: seq<byte> -> Option<seq<byte>>)
    requires IsFull(messageType) && command < 0x1_0000_0000 && |payload| < 0x8000_0000
    requires !FlagSet(flags, FLAG_NEG_SEQUENCE) && FlagSet(flags, FLAG_MSG_WITH_EVENT)
    ensures Parsed(CommandBytes(messageType, flags, serial, compression, command, None, payload), gunzip, false) == None
  {
    hide BigEndianBytes, BigEndian, U32, Finish, ErrorResponse;
    var data := CommandBytes(messageType, flags, serial, compression, command, None, payload);
    var c, m := BigEndianBytes(command, 4), BigEndianBytes(|payload|, 4);
    var p := data[4..];
    assert p == c + m + payload;
    ReadBack(c, |payload|, payload);
    assert U32(p, 4) == |payload|;
  }

  // ---- Messages of the server, byte by byte ----

  /** A header of `words` words: the kind of message and its flags, how the payload is written and compressed, a
      reserved byte and the header extension. */
  function ServerHeader(words: nibble, messageType: nibble, flags: nibble, third: byte, extension: seq<byte>):
    seq<byte>
  {
    [16 + words, messageType * 16 + flags, third, 0] + extension
  }

  lemma HeaderSkipped(words: nibble, messageType: nibble, flags: nibble, third: byte, extension: seq<byte>,
                      p: seq<byte>)
    requires words >= 1 && |extension| == 4 * words - 4
    ensures var data := ServerHeader(words, messageType, flags, third, extension) + p;
            |data| >= 4 && HeaderSize(data) == 4 * words <= |data| && data[4 * words..] == p
            && data[1] / 16 == messageType && Flags(data) == flags && data[2] == third
  {
  }

  /** An error message (kind 15): error code, payload size and payload; a payload that does not decompress or finds no
      memory is left out. */
  lemma ErrorRead(words: nibble, flags: nibble, third: byte, extension: seq<byte>, code: nat, size: nat,
                  body: seq<byte>, gunzip: seq<byte> -> Option<seq<byte>>, noMemory: bool)
    requires words >= 1 && |extension| == 4 * words - 4 && code < 0x1_0000_0000 && size < 0x1_0000_0000
    ensures var data := ServerHeader(words, 15, flags, third, extension) + BigEndianBytes(code, 4)
                        + BigEndianBytes(size, 4) + body;
            var r := Parsed(data, gunzip, noMemory);
            r.Some? && r.value.messageType == 15 && r.value.errorCode == code && r.value.payloadSize == size
            && r.value.payload == (if body == [] then None
                                   else if third % 16 == 1 then gunzip(body)
                                   else if noMemory then None else Some(body))
            && r.value.event.None? && r.value.sequence.None? && r.value.sessionId == [] && !r.value.isBinary
  {
    hide BigEndianBytes, BigEndian, U32, HeaderSize, Flags, ServerHeader, ParseBody, Finish;
    var h := ServerHeader(words, 15, flags, third, extension);
    var c, n := BigEndianBytes(code, 4), BigEndianBytes(size, 4);
    var data, p := h + c + n + body, c + n + body;
    assert data == h + p;
    HeaderSkipped(words, 15, flags, third, extension, p);
    assert U32(p, 0) == code by {
      assert p == [] + c + (n + body);
      ReadBack([], code, n + body);
    }
    assert U32(p, 4) == size by {
      ReadBack(c, size, body);
    }
    assert p[8..] == body;
  }

  /** A full response (kind 9) or an acknowledgement (kind 11): a sequence number if bit 1 of the flags is set, an event
      if bit 2 is, the session id and the payload, each behind its length. The event is signed, the session id ends at
      its first NUL and at 127 bytes; without a payload or with a size of 0 there is none, and one that does not
      decompress, or finds no memory, makes the message fail. */
  lemma FullRead(words: nibble, messageType: nibble, flags: nibble, third: byte, extension: seq<byte>, sequence: nat,
                 event: nat, session: seq<byte>, size: nat, body: seq<byte>, gunzip: seq<byte> -> Option<seq<byte>>,
                 noMemory: bool)
    requires words >= 1 && |extension| == 4 * words - 4 && (messageType == 9 || messageType == 11)
    requires sequence < 0x1_0000_0000 && event < 0x1_0000_0000 && |session| < 0x8000_0000 && size < 0x1_0000_0000
    ensures var data := ServerHeader(words, messageType, flags, third, extension)
                        + FullBody(flags, sequence, event, session, size, body);
            var r, present := Parsed(data, gunzip, noMemory), body != [] && size != 0;
            (r.None? <==> present && (if third % 16 == 1 then gunzip(body).None? else noMemory)) &&
            (r.Some? ==>
               && r.value.messageType == messageType && r.value.errorCode == 0 && r.value.payloadSize == size
               && r.value.sequence == (if flags / 2 % 2 == 1 then Some(sequence) else None)
               && r.value.event == (if flags / 4 % 2 == 0 then None
                                    else Some(if event < 0x8000_0000 then event else event - 0x1_0000_0000))
               && r.value.sessionId == CString(if |session| <= 127 then session else session[..127])
               && r.value.payload == (if !present then None else if third % 16 == 1 then gunzip(body) else Some(body))
               && r.value.isBinary == (present && third / 16 == 0))
  {
    hide HeaderSize, Flags, ServerHeader, ParseBody, FullBody, Finish, ErrorResponse, CString;
    var p := FullBody(flags, sequence, event, session, size, body);
    HeaderSkipped(words, messageType, flags, third, extension, p);
    BodyRead(flags, sequence, event, session, size, body);
    var b := Body(if flags / 2 % 2 == 1 then Some(sequence) else None, if flags / 4 % 2 == 1 then Some(event) else None,
                  |session|, session, size, body);
    assert Parsed(ServerHeader(words, messageType, flags, third, extension) + p, gunzip, noMemory)
           == Finish(messageType, third / 16, third % 16, b, gunzip, noMemory);
    FinishMeans(messageType, third / 16, third % 16, b, gunzip, noMemory);
  }

  lemma FinishMeans(messageType: byte, serial: nibble, compression: nibble, b: Body,
                    gunzip: seq<byte> -> Option<seq<byte>>, noMemory: bool)
    ensures var r := Finish(messageType, serial, compression, b, gunzip, noMemory);
            var present := b.message != [] && b.size != 0;
            (r.None? <==> present && (if compression == 1 then gunzip(b.message).None? else noMemory)) &&
            (r.Some? ==>
               && r.value.messageType == messageType && r.value.errorCode == 0 && r.value.payloadSize == b.size
               && r.value.sequence == b.sequence
               && r.value.event == (if b.event.None? then None
                                    else Some(if b.event.value < 0x8000_0000 then b.event.value
                                              else b.event.value - 0x1_0000_0000))
               && r.value.sessionId == CString(if |b.session| <= 127 then b.session else b.session[..127])
               && r.value.payload == (if !present then None
                                      else if compression == 1 then gunzip(b.message) else Some(b.message))
               && r.value.isBinary == (present && serial == 0))
  {
    hide CString;
    assert |b.session| == 127 ==> b.session[..127] == b.session;
  }

  /** The optional fields of such a message. */
  function Optional(flags: nibble, sequence: nat, event: nat): seq<byte> {
    (if flags / 2 % 2 == 1 then BigEndianBytes(sequence, 4) else [])
    + (if flags / 4 % 2 == 1 then BigEndianBytes(event, 4) else [])
  }

  /** What follows its header. */
  function FullBody(flags: nibble, sequence: nat, event: nat, session: seq<byte>, size: nat, body: seq<byte>):
    seq<byte>
  {
    Optional(flags, sequence, event) + BigEndianBytes(|session|, 4) + session + BigEndianBytes(size, 4) + body
  }

  lemma OptionalRead(flags: nibble, sequence: nat, event: nat)
    requires sequence < 0x1_0000_0000 && event < 0x1_0000_0000
    ensures var a := Optional(flags, sequence, event);
            |a| == SessionAt(flags)
            && (flags / 2 % 2 == 1 ==> |a| >= 4 && U32(a, 0) == sequence)
            && (flags / 4 % 2 == 1 ==> |a| >= 4 && U32(a, |a| - 4) == event)
  {
    hide BigEndianBytes, U32;
    var a, c, e := Optional(flags, sequence, event), BigEndianBytes(sequence, 4), BigEndianBytes(event, 4);
    if flags / 2 % 2 == 1 {
      var tail: seq<byte> := if flags / 4 % 2 == 1 then e else [];
      ReadBack([], sequence, tail);
      assert a == [] + c + tail;
    }
    if flags / 4 % 2 == 1 {
      var front: seq<byte> := if flags / 2 % 2 == 1 then c else [];
      ReadBack(front, event, []);
      assert a == front + e + [];
    }
  }

  lemma TailRead(a: seq<byte>, session: seq<byte>, size: nat, body: seq<byte>)
    requires |session| < 0x8000_0000 && size < 0x1_0000_0000
    ensures var p, at := a + BigEndianBytes(|session|, 4) + session + BigEndianBytes(size, 4) + body, |a|;
            U32(p, at) == |session| && U32(p, at + 4 + |session|) == size
            && p[at + 4..at + 4 + |session|] == session && p[at + 4 + |session| + 4..] == body
  {
    hide BigEndianBytes, U32;
    var l, m := BigEndianBytes(|session|, 4), BigEndianBytes(size, 4);
    ReadBack(a, |session|, session + m + body);
    assert a + l + (session + m + body) == a + l + session + m + body;
    ReadBack(a + l + session, size, body);
  }

  lemma U32Front(a: seq<byte>, tail: seq<byte>, i: nat)
    requires i + 4 <= |a|
    ensures U32(a + tail, i) == U32(a, i)
  {
    assert (a + tail)[i..i + 4] == a[i..i + 4];
  }

  lemma BodyRead(flags: nibble, sequence: nat, event: nat, session: seq<byte>, size: nat, body: seq<byte>)
    requires sequence < 0x1_0000_0000 && event < 0x1_0000_0000 && |session| < 0x8000_0000 && size < 0x1_0000_0000
    ensures ParseBody(FullBody(flags, sequence, event, session, size, body), flags) ==
            Some(Body(if flags / 2 % 2 == 1 then Some(sequence) else None,
                      if flags / 4 % 2 == 1 then Some(event) else None, |session|, session, size, body))
  {
    hide BigEndianBytes, U32, Optional;
    var a := Optional(flags, sequence, event);
    var p := FullBody(flags, sequence, event, session, size, body);
    OptionalRead(flags, sequence, event);
    TailRead(a, session, size, body);
    assert p == a + (BigEndianBytes(|session|, 4) + session + BigEndianBytes(size, 4) + body);
    if |a| >= 4 {
      U32Front(a, BigEndianBytes(|session|, 4) + session + BigEndianBytes(size, 4) + body, 0);
      U32Front(a, BigEndianBytes(|session|, 4) + session + BigEndianBytes(size, 4) + body, |a| - 4);
    }
  }
}
