/** The receive buffers: chunks of a frame are put together and handed to the parser. */
module Reassembly {
  import opened Bytes

  /** A data event of the device's WebSocket library: a piece of a frame's payload. */
  datatype Chunk = Chunk(opcode: byte, data: seq<byte>, payloadOffset: nat, payloadLen: nat)

  const MIN_CAPACITY := 8192

  predicate Counts(c: Chunk) {
    (c.opcode == 0x00 || c.opcode == 0x01 || c.opcode == 0x02) && c.data != []
  }

  /** What is accumulated, and what the parser was given so far. */
  datatype State = State(acc: seq<byte>, handed: seq<seq<byte>>)

  function Feed(s: State, c: Chunk): State {
    if !Counts(c) then s
    else if c.payloadOffset + |c.data| >= c.payloadLen then State([], s.handed + [s.acc + c.data])
    else State(s.acc + c.data, s.handed)
  }

  function FeedAll(s: State, chunks: seq<Chunk>): State
    decreases |chunks|
  {
    if chunks == [] then s else FeedAll(Feed(s, chunks[0]), chunks[1..])
  }

  /** `chunks` deliver the frames in order, each in consecutive pieces, `off` bytes of the first having been
      delivered before; the pieces of data frames have the opcodes 0, 1 and 2; pings, pongs and empty events come in
      between, and the last frame may be cut short. */
  predicate Delivers(chunks: seq<Chunk>, frames: seq<seq<byte>>, off: nat)
    decreases |chunks|
  {
    if chunks == [] then (if off == 0 then frames == [] else |frames| == 1 && off < |frames[0]|)
    else if chunks[0].opcode > 2 || chunks[0].data == [] then Delivers(chunks[1..], frames, off)
    else
      var c := chunks[0];
      frames != [] && c.payloadLen == |frames[0]| && c.payloadOffset == off && off + |c.data| <= |frames[0]|
      && c.data == frames[0][off..off + |c.data|]
      && if off + |c.data| == |frames[0]| then Delivers(chunks[1..], frames[1..], 0)
         else Delivers(chunks[1..], frames, off + |c.data|)
  }

  /** Every frame with a payload reaches the parser once, whole and in order, however it was cut into chunks; nothing
      is delivered of a frame without one. */
  lemma {:induction false} FramesHandedOver(s: State, chunks: seq<Chunk>, frames: seq<seq<byte>>, off: nat)
    requires Delivers(chunks, frames, off)
    requires off == 0 ==> s.acc == []
    requires off > 0 ==> frames != [] && off < |frames[0]| && s.acc == frames[0][..off]
    ensures var t := FeedAll(s, chunks);
            if t.acc == [] then t.handed == s.handed + frames
            else frames != [] && t.handed == s.handed + frames[..|frames| - 1] && t.acc < frames[|frames| - 1]
    decreases |chunks|
  {
    if chunks == [] {
      if off > 0 {
        assert frames[..0] == [];
      }
    } else if !Counts(chunks[0]) {
      FramesHandedOver(s, chunks[1..], frames, off);
    } else {
      var c, f := chunks[0], frames[0];
      assert s.acc + c.data == f[..off + |c.data|];
      if off + |c.data| == |f| {
        assert f[..|f|] == f;
        FramesHandedOver(Feed(s, c), chunks[1..], frames[1..], 0);
        assert s.handed + [f] + frames[1..] == s.handed + frames;
        if FeedAll(s, chunks).acc != [] {
          assert s.handed + [f] + frames[1..][..|frames| - 2] == s.handed + frames[..|frames| - 1];
        }
      } else {
        FramesHandedOver(Feed(s, c), chunks[1..], frames, off + |c.data|);
      }
    }
  }

  /** The frames of a list of messages, each message being a list of frames. */
  function Frames(messages: seq<seq<seq<byte>>>): seq<seq<byte>> {
    if messages == [] then [] else messages[0] + Frames(messages[1..])
  }

  /** A message is the payloads of its frames put together: section 5.4 of RFC 6455. */
  function Joined(message: seq<seq<byte>>): seq<byte> {
    if message == [] then [] else message[0] + Joined(message[1..])
  }

  function AllJoined(messages: seq<seq<seq<byte>>>): (r: seq<seq<byte>>)
    ensures |r| == |messages|
  {
    if messages == [] then [] else [Joined(messages[0])] + AllJoined(messages[1..])
  }

  /** Frames without a payload are no events: the handler never sees them. */
  function NonEmpty(frames: seq<seq<byte>>): seq<seq<byte>> {
    if frames == [] then [] else (if frames[0] == [] then [] else [frames[0]]) + NonEmpty(frames[1..])
  }

  /** Every message has exactly one frame with a payload. */
  predicate Single(messages: seq<seq<seq<byte>>>) {
    forall i :: 0 <= i < |messages| ==> |NonEmpty(messages[i])| == 1
  }

  lemma {:induction false} NonEmptySplits(a: seq<seq<byte>>, b: seq<seq<byte>>)
    ensures NonEmpty(a + b) == NonEmpty(a) + NonEmpty(b)
  {
    if a == [] {
      assert [] + b == b;
    } else {
      assert (a + b)[1..] == a[1..] + b;
      NonEmptySplits(a[1..], b);
    }
  }

  lemma {:induction false} JoinedParts(message: seq<seq<byte>>)
    ensures Joined(message) == Joined(NonEmpty(message))
    ensures Joined(message) == [] <==> NonEmpty(message) == []
  {
    if message != [] {
      JoinedParts(message[1..]);
      if message[0] != [] {
        assert NonEmpty(message)[1..] == NonEmpty(message[1..]);
      } else {
        assert [] + Joined(message[1..]) == Joined(message[1..]);
        assert [] + NonEmpty(message[1..]) == NonEmpty(message[1..]);
      }
    }
  }

  /** The front of a list of messages. */
  lemma FrontMessage(messages: seq<seq<seq<byte>>>)
    requires messages != []
    ensures NonEmpty(Frames(messages)) == NonEmpty(messages[0]) + NonEmpty(Frames(messages[1..]))
    ensures Single(messages) <==> |NonEmpty(messages[0])| == 1 && Single(messages[1..])
  {
    var rest := messages[1..];
    NonEmptySplits(messages[0], Frames(rest));
    assert forall i :: 0 <= i < |rest| ==> rest[i] == messages[i + 1];
    if |NonEmpty(messages[0])| == 1 && Single(rest) {
      forall i | 0 <= i < |messages| ensures |NonEmpty(messages[i])| == 1 {
        if i > 0 {
          assert messages[i] == rest[i - 1];
        }
      }
    }
  }

  lemma {:induction false} SingleFrames(messages: seq<seq<seq<byte>>>)
    requires Single(messages)
    ensures NonEmpty(Frames(messages)) == AllJoined(messages)
  {
    hide Single;
    if messages != [] {
      FrontMessage(messages);
      SingleFrames(messages[1..]);
      JoinedParts(messages[0]);
      var m := NonEmpty(messages[0]);
      assert m == [m[0]] && m[1..] == [];
      assert Joined(m) == m[0] + Joined([]) == m[0];
    }
  }

  predicate NoneEmpty(strings: seq<seq<byte>>) {
    forall i :: 0 <= i < |strings| ==> strings[i] != []
  }

  lemma {:induction false} NonEmptyIs(frames: seq<seq<byte>>)
    ensures NoneEmpty(NonEmpty(frames))
  {
    if frames != [] {
      NonEmptyIs(frames[1..]);
    }
  }

  /** If no message is empty, there are at least as many frames with a payload, and more if a message has two. */
  lemma {:induction false} ManyFrames(messages: seq<seq<seq<byte>>>)
    requires NoneEmpty(AllJoined(messages))
    ensures |NonEmpty(Frames(messages))| >= |messages|
    ensures |NonEmpty(Frames(messages))| == |messages| ==> Single(messages)
  {
    hide Single;
    if messages == [] {
      assert Single([]) by { NoMessages(); }
    } else {
      FrontMessage(messages);
      JoinedParts(messages[0]);
      assert AllJoined(messages)[0] == Joined(messages[0]);
      assert AllJoined(messages[1..]) == AllJoined(messages)[1..];
      ManyFrames(messages[1..]);
    }
  }

  lemma NoMessages()
    ensures Single([])
  {
  }

  /** The device's handler ends a message with its frame, not with the final fragment: the parser gets the messages
      whole exactly if each of them has exactly one frame with a payload, however these are cut into chunks. */
  lemma FragmentsAreNotJoined(chunks: seq<Chunk>, messages: seq<seq<seq<byte>>>)
    requires Delivers(chunks, NonEmpty(Frames(messages)), 0) && FeedAll(State([], []), chunks).acc == []
    ensures FeedAll(State([], []), chunks).handed == AllJoined(messages) <==> Single(messages)
  {
    hide Delivers, FeedAll, Single, NoneEmpty;
    FramesHandedOver(State([], []), chunks, NonEmpty(Frames(messages)), 0);
    if Single(messages) {
      SingleFrames(messages);
    } else if NonEmpty(Frames(messages)) == AllJoined(messages) {
      NonEmptyIs(Frames(messages));
      ManyFrames(messages);
      assert false;
    }
  }

  /** A message in two frames reaches the parser in two pieces. */
  lemma TwoPieces(first: seq<byte>, second: seq<byte>)
    requires first != [] && second != []
    ensures FeedAll(State([], []), [Chunk(0x02, first, 0, |first|), Chunk(0x00, second, 0, |second|)])
            == State([], [first, second])
    ensures [first, second] != [first + second]
  {
    var chunks := [Chunk(0x02, first, 0, |first|), Chunk(0x00, second, 0, |second|)];
    assert [] + first == first && [] + second == second;
    assert FeedAll(State([], []), chunks) == FeedAll(Feed(State([], []), chunks[0]), chunks[1..]);
    assert chunks[1..][1..] == [];
  }

  /** A receive event of the desktop's library: a piece of a message, which may be empty. */
  datatype Fragment = Fragment(data: seq<byte>, final: bool)

  function FeedFragment(s: State, f: Fragment): State {
    if f.final then State([], s.handed + [s.acc + f.data]) else State(s.acc + f.data, s.handed)
  }

  function FeedFragments(s: State, fragments: seq<Fragment>): State
    decreases |fragments|
  {
    if fragments == [] then s else FeedFragments(FeedFragment(s, fragments[0]), fragments[1..])
  }

  /** `fragments` deliver the messages in order, `off` bytes of the first having been delivered before, and the
      last message may be cut short. */
  predicate Fragmented(fragments: seq<Fragment>, messages: seq<seq<byte>>, off: nat)
    decreases |fragments|
  {
    if fragments == [] then (if messages == [] then off == 0 else |messages| == 1 && off <= |messages[0]|)
    else
      var f := fragments[0];
      messages != [] && off + |f.data| <= |messages[0]| && f.data == messages[0][off..off + |f.data|]
      && if f.final then off + |f.data| == |messages[0]| && Fragmented(fragments[1..], messages[1..], 0)
         else Fragmented(fragments[1..], messages, off + |f.data|)
  }

  /** The desktop does join them: every message reaches the parser once, whole and in order. */
  lemma {:induction false} MessagesHandedOver(s: State, fragments: seq<Fragment>, messages: seq<seq<byte>>, off: nat)
    requires Fragmented(fragments, messages, off)
    requires if messages == [] then off == 0 && s.acc == [] else off <= |messages[0]| && s.acc == messages[0][..off]
    ensures var t := FeedFragments(s, fragments);
            if messages == [] then t == s
            else (t.handed == s.handed + messages && t.acc == [])
                 || (t.handed == s.handed + messages[..|messages| - 1] && t.acc <= messages[|messages| - 1])
    decreases |fragments|
  {
    if fragments == [] {
      if messages != [] {
        assert messages[..0] == [];
      }
    } else {
      var f, m := fragments[0], messages[0];
      assert s.acc + f.data == m[..off + |f.data|];
      if f.final {
        assert m[..|m|] == m;
        MessagesHandedOver(FeedFragment(s, f), fragments[1..], messages[1..], 0);
        assert s.handed + [m] + messages[1..] == s.handed + messages;
        if |messages| > 1 {
          assert s.handed + [m] + messages[1..][..|messages| - 2] == s.handed + messages[..|messages| - 1];
        }
      } else {
        MessagesHandedOver(FeedFragment(s, f), fragments[1..], messages, off + |f.data|);
      }
    }
  }

  /** The buffer, on the heap and growing. */
  class Receiver {
    var buf: array<byte>
    var len: nat
    ghost var handed: seq<seq<byte>>

    ghost predicate Valid()
      reads this
    {
      len <= buf.Length
    }

    ghost function View(): State
      reads this, buf
      requires Valid()
    {
      State(buf[..len], handed)
    }

    constructor (capacity: nat)
      ensures Valid() && fresh(buf) && View() == State([], [])
    {
      buf := new byte[capacity];
      len := 0;
      handed := [];
      new;
      assert buf[..0] == [];
    }

    // the accumulation in ws_event_handler and in LWS_CALLBACK_CLIENT_RECEIVE
    method Append(data: seq<byte>, noMemory: bool) returns (ok: bool)
      requires Valid()
      modifies this`buf, this`len, buf
      ensures Valid() && (buf == old(buf) || fresh(buf))
      ensures ok == !(noMemory && old(len) + |data| > old(buf.Length))
      ensures View() == State(old(buf[..len]) + if ok then data else [], handed)
      ensures var needed := old(len) + |data|;
              if !ok || needed <= old(buf.Length) then buf == old(buf)
              else buf.Length == if needed * 2 < 8192 then 8192 else needed * 2
    {
      var needed := len + |data|;
      if needed > buf.Length {
        var newCap := needed * 2;
        if newCap < MIN_CAPACITY {
          newCap := MIN_CAPACITY;
        }
        if noMemory {
          return false;
        }
        var grown := new byte[newCap];
        forall i | 0 <= i < len {
          grown[i] := buf[i];
        }
        buf := grown;
      }
      forall i | 0 <= i < |data| {
        buf[len + i] := data[i];
      }
      len := needed;
      ok := true;
    }

    // WEBSOCKET_EVENT_DATA on the device
    method OnDeviceData(c: Chunk, noMemory: bool)
      requires Valid()
      modifies this, buf
      ensures Valid() && (buf == old(buf) || fresh(buf))
      ensures !(noMemory && Counts(c) && old(len) + |c.data| > old(buf.Length)) ==> View() == Feed(old(View()), c)
      ensures noMemory && Counts(c) && old(len) + |c.data| > old(buf.Length) ==> View() == State([], old(handed))
    {
      if c.opcode == 0x01 || c.opcode == 0x02 || c.opcode == 0x00 {
        if |c.data| == 0 {
          return;
        }
        var ok := Append(c.data, noMemory);
        if !ok {
          len := 0;
          return;
        }
        if c.payloadOffset + |c.data| >= c.payloadLen {
          handed := handed + [buf[..len]];
          len := 0;
        }
      }
    }

    // LWS_CALLBACK_CLIENT_RECEIVE on the desktop: the library says which fragment is the final one
    method OnDesktopReceive(data: seq<byte>, final: bool, noMemory: bool)
      requires Valid()
      modifies this, buf
      ensures Valid() && (buf == old(buf) || fresh(buf))
      ensures !(noMemory && old(len) + |data| > old(buf.Length)) ==>
                View() == FeedFragment(old(View()), Fragment(data, final))
      ensures noMemory && old(len) + |data| > old(buf.Length) ==> View() == old(View())
    {
      var ok := Append(data, noMemory);
      if !ok {
        return;
      }
      if final {
        handed := handed + [buf[..len]];
        len := 0;
      }
    }
  }

  /** Whole runs of the device's handler with enough memory: every frame with a payload reaches the parser once, whole
      and in order. */
  method DeviceRun(capacity: nat, chunks: seq<Chunk>, ghost frames: seq<seq<byte>>) returns (r: Receiver)
    requires Delivers(chunks, NonEmpty(frames), 0)
    ensures r.Valid() && r.View() == FeedAll(State([], []), chunks)
    ensures r.View().acc == [] ==> r.handed == NonEmpty(frames)
  {
    hide Feed, Delivers;
    r := new Receiver(capacity);
    FramesHandedOver(State([], []), chunks, NonEmpty(frames), 0);
    var i := 0;
    while i < |chunks|
      invariant i <= |chunks| && r.Valid() && fresh(r) && fresh(r.buf)
      invariant FeedAll(r.View(), chunks[i..]) == FeedAll(State([], []), chunks)
    {
      assert chunks[i..][1..] == chunks[i + 1..];
      r.OnDeviceData(chunks[i], false);
      i := i + 1;
    }
    assert chunks[i..] == [];
  }

  /** The same on the desktop, message by message. */
  method DesktopRun(capacity: nat, fragments: seq<Fragment>, ghost messages: seq<seq<byte>>) returns (r: Receiver)
    ensures r.Valid() && r.View() == FeedFragments(State([], []), fragments)
    ensures Fragmented(fragments, messages, 0) ==>
              if messages == [] then r.handed == [] && r.View().acc == []
              else (r.handed == messages && r.View().acc == [])
                   || (r.handed == messages[..|messages| - 1] && r.View().acc <= messages[|messages| - 1])
  {
    hide FeedFragment, Fragmented;
    r := new Receiver(capacity);
    if Fragmented(fragments, messages, 0) {
      MessagesHandedOver(State([], []), fragments, messages, 0);
    }
    var i := 0;
    while i < |fragments|
      invariant i <= |fragments| && r.Valid() && fresh(r) && fresh(r.buf)
      invariant FeedFragments(r.View(), fragments[i..]) == FeedFragments(State([], []), fragments)
    {
      assert fragments[i..][1..] == fragments[i + 1..];
      var f := fragments[i];
      assert f == Fragment(f.data, f.final);
      r.OnDesktopReceive(f.data, f.final, false);
      i := i + 1;
    }
    assert fragments[i..] == [];
  }
}
