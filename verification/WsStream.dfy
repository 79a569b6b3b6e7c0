/** What a stream of frames means to the application, as a function of the bytes alone. */
module WsStream {
  import opened Bytes
  import opened WsFrame

  /** Whether the application gets to see the payload of such a frame: opcodes 8 to 15 are control frames. */
  predicate Kept(h: Header, propagate: bool) {
    propagate || h.opcode < 8
  }

  /** What follows the frame with header `h` at the front of `s`, when all of the frame is there. */
  function After(s: seq<byte>, h: Header): (r: seq<byte>)
    requires h.size + h.len <= |s|
    ensures |r| == |s| - h.size - h.len
  {
    s[h.size + h.len..]
  }

  /** Everything the frames of `s` carry for the application, `s` starting at a frame; the
      last frame may be cut short. */
  function AppData(s: seq<byte>, propagate: bool): seq<byte>
    decreases |s|
  {
    match DecodeHeader(s)
    case None => []
    case Some(h) =>
      if |s| < h.size + h.len then (if Kept(h, propagate) then s[h.size..] else [])
      else (if Kept(h, propagate) then s[h.size..][..h.len] else []) + AppData(After(s, h), propagate)
  }

  /** The same for a stream that starts `left` bytes before the end of a data payload. */
  function Pending(s: seq<byte>, left: nat, propagate: bool): seq<byte> {
    if |s| < left then s else s[..left] + AppData(s[left..], propagate)
  }

  /** No frame is masked: section 5.1 of RFC 6455 asks this of a server. */
  predicate Unmasked(s: seq<byte>)
    decreases |s|
  {
    (|s| >= 2 ==> s[1] < 128) &&
    match DecodeHeader(s)
    case None => true
    case Some(h) => h.size + h.len <= |s| ==> Unmasked(After(s, h))
  }

  /** Whether a frame starts `k` bytes into `s`. */
  predicate FrameStart(s: seq<byte>, k: nat)
    decreases |s|
  {
    k == 0 ||
    match DecodeHeader(s)
    case None => false
    case Some(h) => h.size + h.len <= |s| && h.size + h.len <= k && FrameStart(After(s, h), k - (h.size + h.len))
  }

  lemma DropTwice(s: seq<byte>, n: nat, m: nat)
    requires n + m <= |s|
    ensures s[n..][m..] == s[n + m..]
  {
  }

  lemma {:induction false} FrameStartNext(s: seq<byte>, k: nat)
    requires k <= |s| && FrameStart(s, k) && DecodeHeader(s[k..]).Some?
    requires var h := DecodeHeader(s[k..]).value; k + h.size + h.len <= |s|
    ensures var h := DecodeHeader(s[k..]).value; FrameStart(s, k + h.size + h.len)
    decreases |s|
  {
    hide DecodeHeader;
    if k == 0 {
      assert s[0..] == s;
    } else {
      var first := DecodeHeader(s).value;
      var n := first.size + first.len;
      DropTwice(s, n, k - n);
      FrameStartNext(After(s, first), k - n);
    }
  }

  lemma {:induction false} UnmaskedAt(s: seq<byte>, k: nat)
    requires k <= |s| && Unmasked(s) && FrameStart(s, k)
    ensures Unmasked(s[k..])
    decreases |s|
  {
    hide DecodeHeader;
    if k == 0 {
      assert s[0..] == s;
    } else {
      var first := DecodeHeader(s).value;
      var n := first.size + first.len;
      DropTwice(s, n, k - n);
      assert Unmasked(After(s, first)) && FrameStart(After(s, first), k - n);
      UnmaskedAt(After(s, first), k - n);
    }
  }

  /** Whole frames, none of them longer than an int can say and no control frame longer than section 5.5 of RFC 6455
      allows. */
  predicate Readable(s: seq<byte>)
    decreases |s|
  {
    s == [] ||
    match DecodeHeader(s)
    case None => false
    case Some(h) =>
      h.size + h.len <= |s| && h.len < 0x8000_0000 && (h.opcode >= 8 ==> h.len <= 125) && Readable(After(s, h))
  }

  lemma {:induction false} ReadableAt(s: seq<byte>, k: nat)
    requires k <= |s| && Readable(s) && FrameStart(s, k)
    ensures Readable(s[k..])
    decreases |s|
  {
    hide DecodeHeader;
    if k == 0 {
      assert s[0..] == s;
    } else {
      EmptyHasNoHeader();
      var first := DecodeHeader(s).value;
      var n := first.size + first.len;
      DropTwice(s, n, k - n);
      ReadableAt(After(s, first), k - n);
    }
  }

  /** Taking `n` bytes of a payload moves exactly these bytes from what is pending. */
  lemma PendingTake(s: seq<byte>, left: nat, n: nat, propagate: bool)
    requires n <= left && n <= |s|
    ensures Pending(s, left, propagate) == s[..n] + Pending(s[n..], left - n, propagate)
  {
    hide AppData;
    if |s| >= left {
      DropTwice(s, n, left - n);
      assert s[..left] == s[..n] + s[n..][..left - n];
    } else {
      assert s == s[..n] + s[n..];
    }
  }

  /** Past the header of a frame the application gets, its payload is pending. */
  lemma PendingHeader(s: seq<byte>, propagate: bool)
    requires DecodeHeader(s).Some? && Kept(DecodeHeader(s).value, propagate)
    ensures var h := DecodeHeader(s).value;
            AppData(s, propagate) == Pending(s[h.size..], h.len, propagate)
  {
    var h := DecodeHeader(s).value;
    if h.size + h.len <= |s| {
      DropTwice(s, h.size, h.len);
    }
  }

  /** Where a reader of the stream `whole` stands: `rest` is unread, the current frame begins at
      `start`, `left` bytes of its payload of `payloadLen` bytes are unread, `delivered` went to
      the application. */
  datatype Position = Position(whole: seq<byte>, rest: seq<byte>, start: nat, payloadLen: int, left: int,
                               key: Key, delivered: seq<byte>)
  {
    function Consumed(): int {
      |whole| - |rest|
    }

    /** Inside the payload of the data frame that begins at `start`. */
    predicate InPayload()
      requires start <= |whole|
    {
      DecodeHeader(whole[start..]).Some? &&
      var h := DecodeHeader(whole[start..]).value;
      h.len == payloadLen && key == NO_KEY && Consumed() == start + h.size + (payloadLen - left)
    }

    /** The frame-position invariant, and the conservation of application data. */
    predicate InSync(propagate: bool) {
      && Unmasked(whole)
      && 0 <= Consumed() && rest == whole[Consumed()..]
      && FrameStart(whole, start) && start <= Consumed()
      && 0 <= left && (left > 0 ==> left <= payloadLen)
      && (left == 0 ==> start == Consumed())
      && (left > 0 ==> InPayload())
      && delivered + Pending(rest, left, propagate) == AppData(whole, propagate)
    }
  }

  /** At the start of a stream. */
  lemma InitialSync(s: seq<byte>, propagate: bool)
    requires Unmasked(s)
    ensures forall key: Key, payloadLen: int :: Position(s, s, 0, payloadLen, 0, key, []).InSync(propagate)
  {
    assert s[0..] == s;
    assert [] + Pending(s, 0, propagate) == AppData(s, propagate);
  }

  lemma AtFrame(p: Position, propagate: bool)
    requires p.InSync(propagate) && p.left == 0
    ensures p.rest == p.whole[p.start..] && Unmasked(p.rest)
    ensures p.delivered + AppData(p.rest, propagate) == AppData(p.whole, propagate)
  {
    hide DecodeHeader, AppData, Unmasked, FrameStart;
    UnmaskedAt(p.whole, p.start);
    assert p.rest[0..] == p.rest;
    assert Pending(p.rest, 0, propagate) == AppData(p.rest, propagate);
  }

  lemma NotNegative(p: Position, propagate: bool)
    requires p.InSync(propagate)
    ensures p.left >= 0
  {
  }

  lemma ReadableRest(p: Position, propagate: bool)
    requires p.InSync(propagate) && p.left == 0 && Readable(p.whole)
    ensures Readable(p.rest)
  {
    hide DecodeHeader, AppData, Unmasked, FrameStart, Readable;
    AtFrame(p, propagate);
    ReadableAt(p.whole, p.start);
  }

  /** Inside a payload the stream is past the start of the frame. */
  lemma PastStart(p: Position, propagate: bool)
    requires p.InSync(propagate) && p.left > 0
    ensures p.start < p.Consumed() && p.key == NO_KEY && p.payloadLen > 0
  {
    hide AppData, Unmasked, FrameStart;
  }

  /** Delivering `n` bytes of the payload. */
  lemma TakePayload(p: Position, n: nat, propagate: bool)
    requires p.InSync(propagate) && n <= p.left && n <= |p.rest| && p.left > 0
    ensures p.(rest := p.rest[n..], left := p.left - n, delivered := p.delivered + p.rest[..n],
               start := if n == p.left then p.Consumed() + n else p.start).InSync(propagate)
  {
    hide DecodeHeader, AppData, Unmasked, FrameStart, Pending;
    var was, still := Pending(p.rest, p.left, propagate), Pending(p.rest[n..], p.left - n, propagate);
    assert p.delivered + p.rest[..n] + still == AppData(p.whole, propagate) by {
      PendingTake(p.rest, p.left, n, propagate);
      assert p.delivered + (p.rest[..n] + still) == p.delivered + p.rest[..n] + still;
    }
    DropTwice(p.whole, p.Consumed(), n);
    if n == p.left {
      FrameStartNext(p.whole, p.start);
    }
  }

  lemma UnmaskedHeader(s: seq<byte>)
    requires Unmasked(s) && DecodeHeader(s).Some?
    ensures DecodeHeader(s).value.key == NO_KEY && s[1] < 128
  {
  }

  /** Reading the header of a frame with a payload for the application. */
  lemma EnterPayload(p: Position, propagate: bool)
    requires p.InSync(propagate) && p.left == 0 && DecodeHeader(p.rest).Some?
    requires var h := DecodeHeader(p.rest).value; Kept(h, propagate) && h.len > 0
    ensures var h := DecodeHeader(p.rest).value;
            p.(rest := p.rest[h.size..], left := h.len, payloadLen := h.len, key := h.key).InSync(propagate)
  {
    hide DecodeHeader, AppData, Unmasked, FrameStart;
    var h := DecodeHeader(p.rest).value;
    AtFrame(p, propagate);
    UnmaskedHeader(p.rest);
    PendingHeader(p.rest, propagate);
    DropTwice(p.whole, p.Consumed(), h.size);
  }

  lemma SkipFrame(s: seq<byte>, propagate: bool)
    requires DecodeHeader(s).Some?
    requires var h := DecodeHeader(s).value; (!Kept(h, propagate) || h.len == 0) && h.size + h.len <= |s|
    ensures AppData(s, propagate) == AppData(After(s, DecodeHeader(s).value), propagate)
  {
    hide DecodeHeader;
  }

  /** Passing over a frame that has nothing for the application. */
  lemma PassFrame(p: Position, propagate: bool)
    requires p.InSync(propagate) && p.left == 0 && DecodeHeader(p.rest).Some?
    requires var h := DecodeHeader(p.rest).value; (!Kept(h, propagate) || h.len == 0) && h.size + h.len <= |p.rest|
    ensures var h := DecodeHeader(p.rest).value;
            p.(rest := p.rest[h.size..][h.len..], start := p.start + h.size + h.len,
               payloadLen := h.len, key := h.key).InSync(propagate)
  {
    hide DecodeHeader, AppData, Unmasked, FrameStart;
    var h := DecodeHeader(p.rest).value;
    AtFrame(p, propagate);
    FrameStartNext(p.whole, p.start);
    DropTwice(p.rest, h.size, h.len);
    DropTwice(p.whole, p.Consumed(), h.size + h.len);
    var after := After(p.rest, h);
    assert after[0..] == after;
    SkipFrame(p.rest, propagate);
  }

  /** What the application got is the start of what the stream carries for it, and all of it once
      the stream is read up. */
  lemma DeliveredInOrder(p: Position, propagate: bool)
    requires p.InSync(propagate)
    ensures p.delivered <= AppData(p.whole, propagate)
    ensures p.rest == [] ==> p.delivered == AppData(p.whole, propagate)
  {
    hide Unmasked, FrameStart;
    if p.rest == [] {
      assert Pending([], p.left, propagate) == [];
    }
  }

  /** Two readers of the same stream, whatever chunks the network and buffers the application used:
      one got a prefix of what the other got, and at the end both got the same. */
  lemma ChunkingIndependent(p: Position, q: Position, propagate: bool)
    requires p.InSync(propagate) && q.InSync(propagate) && p.whole == q.whole
    ensures p.delivered <= q.delivered || q.delivered <= p.delivered
    ensures p.rest == [] && q.rest == [] ==> p.delivered == q.delivered
  {
    hide Position.InSync;
    DeliveredInOrder(p, propagate);
    DeliveredInOrder(q, propagate);
    var all := AppData(p.whole, propagate);
    assert p.delivered == all[..|p.delivered|] && q.delivered == all[..|q.delivered|];
  }

  /** Forgetting what is left of a payload keeps the reader in step exactly if nothing was left. */
  lemma ForgettingThePayload(p: Position, propagate: bool)
    requires p.InSync(propagate)
    ensures p.(left := 0).InSync(propagate) <==> p.left == 0
  {
    if p.left > 0 {
      PastStart(p, propagate);
    }
  }

  /** A frame as a server sends it: unmasked, RSV bits clear. */
  function ServerFrame(f: Frame): seq<byte>
    requires f.opcode < 16
  {
    EncodeFrame(f.opcode + if f.fin then 128 else 0, None, f.payload)
  }

  predicate WellFormed(frames: seq<Frame>) {
    forall i :: 0 <= i < |frames| ==> frames[i].opcode < 16 && |frames[i].payload| < 0x8000_0000
  }

  function ServerStream(frames: seq<Frame>): seq<byte>
    requires WellFormed(frames)
  {
    if frames == [] then [] else ServerFrame(frames[0]) + ServerStream(frames[1..])
  }

  /** The payloads of the frames with opcodes 0 to 7, one after the other: continuation, text and binary frames and
      the reserved data opcodes. Those of close (8), ping (9) and pong (10) frames are not in it. */
  function DataPayloads(frames: seq<Frame>): seq<byte> {
    if frames == [] then []
    else (if frames[0].opcode < 8 then frames[0].payload else []) + DataPayloads(frames[1..])
  }

  lemma FrontFrame(f: Frame, tail: seq<byte>)
    requires f.opcode < 16 && |f.payload| < 0x8000_0000
    ensures var s := ServerFrame(f) + tail;
            DecodeHeader(s).Some? && s[1] < 128 &&
            var h := DecodeHeader(s).value;
            !h.masked && h.opcode == f.opcode && h.len == |f.payload| && h.size + h.len <= |s| && After(s, h) == tail
            && s[h.size..][..h.len] == f.payload
  {
    hide DecodeHeader, EncodeHeader;
    var first := f.opcode + if f.fin then 128 else 0;
    var lead := EncodeHeader(first, None, |f.payload|);
    var s := ServerFrame(f) + tail;
    assert s == lead + (f.payload + tail);
    HeaderRoundTrip(first, None, |f.payload|, f.payload + tail);
    SplitBody(lead, f.payload, tail);
    SecondByte(s);
  }

  /** For a stream of whole frames the application's data is the payloads of the data frames in order. */
  lemma {:induction false} StreamCarriesPayloads(frames: seq<Frame>)
    requires WellFormed(frames)
    ensures Unmasked(ServerStream(frames)) && AppData(ServerStream(frames), false) == DataPayloads(frames)
  {
    hide DecodeHeader, ServerFrame;
    if frames == [] {
      EmptyHasNoHeader();
    } else {
      StreamCarriesPayloads(frames[1..]);
      FrontFrame(frames[0], ServerStream(frames[1..]));
    }
  }

  predicate ShortControls(frames: seq<Frame>) {
    forall i :: 0 <= i < |frames| && frames[i].opcode >= 8 ==> |frames[i].payload| <= 125
  }

  lemma {:induction false} StreamReadable(frames: seq<Frame>)
    requires WellFormed(frames) && ShortControls(frames)
    ensures Readable(ServerStream(frames))
  {
    hide DecodeHeader, ServerFrame;
    if frames != [] {
      StreamReadable(frames[1..]);
      FrontFrame(frames[0], ServerStream(frames[1..]));
    }
  }

  lemma EmptyHasNoHeader()
    ensures DecodeHeader([]).None?
  {
  }

  lemma SecondByte(s: seq<byte>)
    requires DecodeHeader(s).Some? && !DecodeHeader(s).value.masked
    ensures s[1] < 128
  {
  }
}
