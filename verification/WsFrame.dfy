/** WebSocket framing as sections 5.2 and 5.3 of RFC 6455 define it, written without
    reference to the transport's code: it is what the transport is measured against. */
module WsFrame {
  import opened Bytes

  const FIN: byte := 0x80
  const OPCODE_CLOSE: byte := 0x08
  const OPCODE_PING: byte := 0x09
  const OPCODE_PONG: byte := 0x0A
  const NO_KEY: seq<byte> := [0, 0, 0, 0]

  type Key = k: seq<byte> | |k| == 4 witness [0, 0, 0, 0]

  /** `size` is the number of bytes the header takes, masking key included. */
  datatype Header = Header(fin: bool, opcode: byte, masked: bool, len: nat, key: Key, size: nat)

  datatype Frame = Frame(fin: bool, opcode: byte, payload: seq<byte>)

  /** Control frames have the most significant bit of the four-bit opcode set. */
  predicate IsControl(opcode: byte) {
    opcode / 8 % 2 == 1
  }

  function ExtendedSize(len7: nat): nat {
    if len7 == 126 then 2 else if len7 == 127 then 8 else 0
  }

  /** The payload length: seven bits, or an extended length behind the first two bytes. */
  function LengthField(s: seq<byte>): nat
    requires |s| >= 2 && |s| >= 2 + ExtendedSize(s[1] % 128)
  {
    var ext := ExtendedSize(s[1] % 128);
    if ext == 0 then s[1] % 128 else BigEndian(s[2..2 + ext])
  }

  /** The header at the front of `s`, when all of it is there. */
  function DecodeHeader(s: seq<byte>): (r: Option<Header>)
    ensures r.Some? ==> 2 <= r.value.size <= 14 && r.value.size <= |s| && r.value.opcode < 16
  {
    if |s| < 2 then None
    else
      var ext := ExtendedSize(s[1] % 128);
      var masked := s[1] >= 128;
      var size := 2 + ext + if masked then 4 else 0;
      if |s| < size then None
      else
        Some(Header(s[0] >= 128, s[0] % 16, masked, LengthField(s), if masked then s[2 + ext..size] else NO_KEY, size))
  }

  function Mask(payload: seq<byte>, key: Key): (r: seq<byte>)
    ensures |r| == |payload|
  {
    seq(|payload|, i requires 0 <= i < |payload| => Xor(payload[i], key[i % 4]))
  }

  /** One whole frame and what follows it. */
  function DecodeFrame(s: seq<byte>): Option<(Frame, seq<byte>)> {
    match DecodeHeader(s)
    case None => None
    case Some(h) =>
      if |s| < h.size + h.len then None
      else Some((Frame(h.fin, h.opcode, Mask(s[h.size..h.size + h.len], h.key)), s[h.size + h.len..]))
  }

  /** The seven-bit length and the extended length behind it. */
  function LengthForm(len: nat): (nat, seq<byte>) {
    if len <= 125 then (len, [])
    else if len < 0x1_0000 then (126, BigEndianBytes(len, 2))
    else (127, BigEndianBytes(len, 8))
  }

  /** The header up to the masking key: `first` is the FIN, RSV and opcode byte. */
  function Lead(first: byte, masked: bool, len: nat): seq<byte> {
    var (len7, ext) := LengthForm(len);
    [first, len7 + if masked then 128 else 0] + ext
  }

  /** The header a sender writes; a frame is masked exactly when there is a key. */
  function EncodeHeader(first: byte, key: Option<Key>, len: nat): seq<byte> {
    Lead(first, key.Some?, len) + if key.Some? then key.value else []
  }

  function EncodeFrame(first: byte, key: Option<Key>, payload: seq<byte>): seq<byte> {
    EncodeHeader(first, key, |payload|) + if key.Some? then Mask(payload, key.value) else payload
  }

  lemma {:induction false} MaskTwice(payload: seq<byte>, key: Key)
    ensures Mask(Mask(payload, key), key) == payload
  {
    forall i | 0 <= i < |payload| ensures Mask(Mask(payload, key), key)[i] == payload[i] {
      XorTwice(payload[i], key[i % 4]);
    }
  }

  lemma {:induction false} MaskZero(payload: seq<byte>)
    ensures Mask(payload, NO_KEY) == payload
  {
    forall i | 0 <= i < |payload| ensures Mask(payload, NO_KEY)[i] == payload[i] {
      XorZero(payload[i]);
    }
  }

  /** `wire` is `payload` masked as section 5.3 has it, octet by octet and bit by bit. */
  predicate IsMasked(wire: seq<byte>, payload: seq<byte>, key: seq<byte>) {
    |wire| == |payload| && |key| == 4 &&
    forall i :: 0 <= i < |payload| ==> IsExclusiveOr(wire[i], payload[i], key[i % 4])
  }

  lemma MaskIsMasked(wire: seq<byte>, payload: seq<byte>, key: Key)
    ensures wire == Mask(payload, key) <==> IsMasked(wire, payload, key)
  {
    hide Xor, IsExclusiveOr;
    if |wire| == |payload| {
      forall i | 0 <= i < |payload|
        ensures wire[i] == Mask(payload, key)[i] <==> IsExclusiveOr(wire[i], payload[i], key[i % 4])
      {
        XorIsExclusiveOr(wire[i], payload[i], key[i % 4]);
      }
    }
  }

  /** The bytes of a masked frame with a payload of at most 125 bytes: two header bytes, the key, the masked payload. */
  predicate ShortMaskedFrame(wire: seq<byte>, first: byte, key: Key, payload: seq<byte>)
    requires |payload| <= 125
  {
    && |wire| == 6 + |payload|
    && wire[0] == first && wire[1] == 128 + |payload|
    && wire[2..6] == key && IsMasked(wire[6..], payload, key)
  }

  lemma EncodesShort(first: byte, key: Key, payload: seq<byte>)
    requires |payload| <= 125
    ensures ShortMaskedFrame(EncodeFrame(first, Some(key), payload), first, key, payload)
  {
    hide Mask, IsMasked;
    var wire := EncodeFrame(first, Some(key), payload);
    assert EncodeHeader(first, Some(key), |payload|) == [first, |payload| + 128] + [] + key;
    assert wire[2..6] == key && wire[6..] == Mask(payload, key);
    MaskIsMasked(wire[6..], payload, key);
  }

  /** A reader that follows RFC 6455 finds exactly this frame in such bytes. */
  lemma ShortMaskedDecodes(wire: seq<byte>, first: byte, key: Key, payload: seq<byte>)
    requires |payload| <= 125 && ShortMaskedFrame(wire, first, key, payload)
    ensures DecodeFrame(wire) == Some((Frame(first >= 128, first % 16, payload), []))
  {
    hide Mask, IsMasked, DecodeFrame, EncodeHeader;
    MaskIsMasked(wire[6..], payload, key);
    assert EncodeHeader(first, Some(key), |payload|) == [first, |payload| + 128] + [] + key by {
      ShortHeader(first, key, |payload|);
    }
    assert wire == [first, |payload| + 128] + [] + key + wire[6..];
    assert wire == EncodeFrame(first, Some(key), payload) + [];
    FrameRoundTrip(first, Some(key), payload, []);
  }

  lemma ShortHeader(first: byte, key: Key, len: nat)
    requires len <= 125
    ensures EncodeHeader(first, Some(key), len) == [first, len + 128] + [] + key
  {
  }

  /** A header read off its parts: two bytes, the extended length, the key. */
  lemma DecodeParts(two: seq<byte>, ext: seq<byte>, key: seq<byte>, rest: seq<byte>)
    requires |two| == 2 && |ext| == ExtendedSize(two[1] % 128) && |key| == if two[1] >= 128 then 4 else 0
    ensures DecodeHeader(two + ext + key + rest) ==
            Some(Header(two[0] >= 128, two[0] % 16, two[1] >= 128,
                        if ext == [] then two[1] % 128 else BigEndian(ext),
                        if two[1] >= 128 then key else NO_KEY, 2 + |ext| + |key|))
  {
    var s := two + ext + key + rest;
    assert s[0] == two[0] && s[1] == two[1];
    assert s[2..2 + |ext|] == ext;
    assert s[2 + |ext|..2 + |ext| + |key|] == key;
  }

  /** The eight-byte form of a 32-bit length. */
  lemma WideBytes(len: nat)
    requires len < 0x1_0000_0000
    ensures BigEndianBytes(len, 8) ==
            [0, 0, 0, 0, len / 0x100_0000 % 256, len / 0x1_0000 % 256, len / 256 % 256, len % 256]
  {
    var b1, b2, b3 := len / 256, len / 0x1_0000, len / 0x100_0000;
    assert b1 / 256 == b2 && b2 / 256 == b3 && b3 / 256 == 0;
    assert BigEndianBytes(0, 2) == [0, 0] && BigEndianBytes(0, 3) == [0, 0, 0];
    assert BigEndianBytes(b3, 5) == BigEndianBytes(0, 4) + [b3 % 256];
    assert BigEndianBytes(b2, 6) == BigEndianBytes(b3, 5) + [b2 % 256];
    assert BigEndianBytes(b1, 7) == BigEndianBytes(b2, 6) + [b1 % 256];
    assert BigEndianBytes(len, 8) == BigEndianBytes(b1, 7) + [len % 256];
  }

  lemma LengthFormRoundTrip(len: nat)
    requires len < 0x8000_0000
    ensures var (len7, ext) := LengthForm(len);
            len7 < 128 && |ext| == ExtendedSize(len7) && len == if ext == [] then len7 else BigEndian(ext)
  {
    WidthBounds();
    BigEndianRoundTrip(len, 2);
    BigEndianRoundTrip(len, 8);
  }

  /** A reader of the format recovers what was written and takes exactly the header. */
  lemma HeaderRoundTrip(first: byte, key: Option<Key>, len: nat, rest: seq<byte>)
    requires len < 0x8000_0000
    ensures var e := EncodeHeader(first, key, len);
            DecodeHeader(e + rest) ==
            Some(Header(first >= 128, first % 16, key.Some?, len, if key.Some? then key.value else NO_KEY, |e|))
  {
    hide DecodeHeader, BigEndian, LengthForm;
    LengthFormRoundTrip(len);
    var (len7, ext) := LengthForm(len);
    DecodeParts([first, len7 + if key.Some? then 128 else 0], ext, if key.Some? then key.value else [], rest);
  }

  /** Reading back a whole frame, whatever follows it. */
  lemma FrameRoundTrip(first: byte, key: Option<Key>, payload: seq<byte>, rest: seq<byte>)
    requires |payload| < 0x8000_0000
    ensures DecodeFrame(EncodeFrame(first, key, payload) + rest) ==
            Some((Frame(first >= 128, first % 16, payload), rest))
  {
    var e := EncodeHeader(first, key, |payload|);
    var body := if key.Some? then Mask(payload, key.value) else payload;
    var s := e + (body + rest);
    assert EncodeFrame(first, key, payload) + rest == s;
    HeaderRoundTrip(first, key, |payload|, body + rest);
    SplitBody(e, body, rest);
    if key.Some? {
      MaskTwice(payload, key.value);
    } else {
      MaskZero(payload);
    }
  }

  lemma SplitBody(e: seq<byte>, body: seq<byte>, rest: seq<byte>)
    ensures var s := e + (body + rest);
            s[|e|..|e| + |body|] == body && s[|e| + |body|..] == rest
  {
  }

  /** A mask leaves a payload as it is only if it is zero wherever it is used. */
  lemma MaskFixed(payload: seq<byte>, key: Key)
    ensures Mask(payload, key) == payload <==> forall i {:trigger payload[i]} :: 0 <= i < |payload| ==> key[i % 4] == 0
  {
    var m := Mask(payload, key);
    forall i | 0 <= i < |payload| ensures m[i] == payload[i] <==> key[i % 4] == 0 {
      XorZero(payload[i]);
      XorSame(payload[i], key[i % 4], 0);
    }
  }

  /** Unmasking a piece that starts `off` bytes into the payload, as section 5.3 has it. */
  function MaskFrom(piece: seq<byte>, key: Key, off: nat): (r: seq<byte>)
    ensures |r| == |piece|
  {
    seq(|piece|, i requires 0 <= i < |piece| => Xor(piece[i], key[(off + i) % 4]))
  }

  lemma MaskAligned(piece: seq<byte>, key: Key, off: nat)
    requires piece == [] || off % 4 == 0
    ensures Mask(piece, key) == MaskFrom(piece, key, off)
  {
    hide Xor;
    forall i | 0 <= i < |piece| ensures Mask(piece, key)[i] == MaskFrom(piece, key, off)[i] {
      SamePhase(off, i);
    }
  }

  lemma SamePhase(off: nat, i: nat)
    requires off % 4 == 0
    ensures (off + i) % 4 == i % 4
  {
  }

  /** The key 1, 0, 0, 0 tells the first byte of a payload from the others in the middle of a word. */
  lemma MaskMisaligned(piece: seq<byte>, off: nat)
    requires piece != [] && off % 4 != 0
    ensures Mask(piece, [1, 0, 0, 0]) != MaskFrom(piece, [1, 0, 0, 0], off)
  {
    hide Xor;
    var key: Key := [1, 0, 0, 0];
    XorSame(piece[0], key[0], key[off % 4]);
    assert Mask(piece, key)[0] != MaskFrom(piece, key, off)[0];
  }

  /** Starting over at the first key byte is right for every key exactly at multiples of four. */
  lemma RestartedMask(n: nat, off: nat)
    ensures (forall piece: seq<byte>, key: Key :: |piece| == n ==> Mask(piece, key) == MaskFrom(piece, key, off))
            <==> n == 0 || off % 4 == 0
  {
    hide Mask, MaskFrom;
    if n == 0 || off % 4 == 0 {
      forall piece: seq<byte>, key: Key | |piece| == n ensures Mask(piece, key) == MaskFrom(piece, key, off) {
        MaskAligned(piece, key, off);
      }
    } else {
      MaskMisaligned(seq(n, i => 0), off);
    }
  }

  /** No header that says the same is shorter: section 5.2 asks for the minimal length form. */
  lemma ShortestForm(first: byte, key: Option<Key>, len: nat, other: seq<byte>)
    requires DecodeHeader(other).Some?
    requires DecodeHeader(other).value.len == len && DecodeHeader(other).value.masked == key.Some?
    ensures |EncodeHeader(first, key, len)| <= DecodeHeader(other).value.size
  {
    WidthBounds();
    if other[1] % 128 == 126 {
      BigEndianBound(other[2..4]);
    }
  }
}
