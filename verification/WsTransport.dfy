/** The WebSocket layer of tcp_transport over a parent transport that may return any short read. */
module WsTransport {
  import opened Bytes
  import opened WsFrame
  import opened WsStream
  import opened HttpHeader

  const WS_BUFFER_SIZE := 4096
  const MAX_WEBSOCKET_HEADER_SIZE := 16
  const MAX_CONTROL_FRAME := 125

  /** The transport underneath. A read may be short, time out (0) or fail (negative); so may a write. One that is
      `reliable` answers every poll with yes, reads as much as is there and writes everything. */
  class Parent {
    const reliable: bool
    var unread: seq<byte>     // what the server sends and nobody has read yet
    var sent: seq<byte>       // what was written to the server
    ghost var lastRead: int   // what the last read returned

    constructor (stream: seq<byte>, reliable: bool)
      ensures unread == stream && sent == [] && this.reliable == reliable
    {
      unread, sent, lastRead := stream, [], 0;
      this.reliable := reliable;
    }

    method PollRead() returns (n: int)
      ensures reliable ==> n > 0
    {
      n := *;
      if reliable && n <= 0 {
        n := 1;
      }
    }

    method PollWrite() returns (n: int)
      ensures reliable ==> n > 0
    {
      n := *;
      if reliable && n <= 0 {
        n := 1;
      }
    }

    method PollClosed() returns (n: int)
      ensures reliable ==> n > 0
    {
      n := *;
      if reliable && n <= 0 {
        n := 1;
      }
    }

    method Read(dst: array<byte>, off: nat, len: nat) returns (n: int)
      requires off + len <= dst.Length
      modifies this`unread, this`lastRead, dst
      ensures n == lastRead && n <= len && n <= |old(unread)|
      ensures reliable ==> n == len || n == |old(unread)|
      ensures n <= 0 ==> unread == old(unread) && dst[..] == old(dst[..])
      ensures n > 0 ==> unread == old(unread)[n..]
                        && dst[..] == Overwrite(old(dst[..]), off, old(unread)[..n])
    {
      n := *;
      if reliable || n > len || n > |unread| {
        n := if !reliable then 0 else if len < |unread| then len else |unread|;
      }
      lastRead := n;
      if n > 0 {
        forall i | 0 <= i < n {
          dst[off + i] := unread[i];
        }
        unread := unread[n..];
      }
    }

    method Write(src: array<byte>, len: nat) returns (n: int)
      requires len <= src.Length
      modifies this`sent
      ensures n <= len && (reliable ==> n == len)
      ensures n <= 0 ==> sent == old(sent)
      ensures n > 0 ==> sent == old(sent) + src[..n]
    {
      n := *;
      if reliable || n > len {
        n := len;
      }
      if n > 0 {
        sent := sent + src[..n];
      }
    }
  }

  /** Everything the server sent fits the buffer, the delimiter is in front of the first NUL, and the text is accepted;
      its length is cut to that of the caller's header buffer. */
  ghost predicate Accepted(text: seq<byte>, responseHeader: array?<byte>, verdict: (seq<byte>, int) -> int) {
    && |text| < 4095
    && Strstr(text + [0]).Some?
    && verdict(text, if responseHeader != null && responseHeader.Length <= |text| then responseHeader.Length
                     else |text|) == 0
  }

  /** How far the last `_ws_write` got. */
  datatype WriteStage = NotReady | NoRandom | HeaderFailed | HeaderOnly | Body(written: int)

  /** The payload length as the C code computes it in a 32-bit int. */
  function CLength(len: nat): int {
    if len >= 0x1_0000_0000 then -1
    else if len >= 0x8000_0000 then len - 0x1_0000_0000
    else len
  }

  type Nibble = x: byte | x < 16 witness 0

  /** What a read may have to ask for: memory for the payload of a control frame, four random bytes for a key. */
  datatype Resources = Resources(memory: bool, random: Option<Key>) {
    predicate Granted() {
      memory && random.Some?
    }
  }

  predicate AllGranted(resources: seq<Resources>) {
    forall i :: 0 <= i < |resources| ==> resources[i].Granted()
  }

  /** What is left of a stash of `had` bytes when `taken` bytes were read: it is used up before the parent is read. */
  function StashLeft(had: nat, taken: int): int {
    if taken < had then had - taken else 0
  }

  lemma StashLeftTwice(had: nat, taken: nat, more: nat)
    ensures StashLeft(StashLeft(had, taken), more) == StashLeft(had, taken + more)
  {
  }

  /** How much one read of at most `len` bytes gets from a reliable parent: no more than the stash holds if it holds
      anything, and what there is otherwise. */
  function Piece(len: nat, had: nat, there: nat): nat {
    Min(len, if had > 0 then had else there)
  }

  class WsTransport {
    const parent: Parent
    const propagate: bool
    const buffer: array<byte>   // the HTTP upgrade buffer; afterwards the bytes read past the upgrade
    var bufferLen: nat
    var fin: bool
    var opcode: Nibble
    var maskKey: Key
    var payloadLen: int
    var bytesRemaining: int
    var headerReceived: bool

    /** What the server sent and this layer has not consumed: the stash, then the parent's bytes. */
    ghost var rest: seq<byte>
    ghost var whole: seq<byte>      // the stream of frames from its start
    ghost var start: nat            // where in it the current frame starts
    ghost var delivered: seq<byte>  // what ws_read has handed to the application
    ghost var lastPoll: int         // what the parent said when it was last polled for reading
    ghost var lastKey: Key
    ghost var lastWrite: WriteStage

    ghost predicate Valid()
      reads this`bufferLen, this`rest, buffer, parent`unread
    {
      buffer.Length == WS_BUFFER_SIZE && bufferLen <= buffer.Length &&
      rest == buffer[..bufferLen] + parent.unread
    }

    constructor (parent: Parent, propagate: bool)
      ensures Valid() && fresh(buffer) && this.parent == parent && this.propagate == propagate
      ensures bytesRemaining == 0 && (Unmasked(parent.unread) ==> Synced())
    {
      this.parent, this.propagate := parent, propagate;
      buffer := new byte[WS_BUFFER_SIZE];
      bufferLen, bytesRemaining := 0, 0;
      fin, opcode, payloadLen, headerReceived, maskKey := false, 0, 0, false, NO_KEY;
      rest := parent.unread;
      new;
      hide Position.InSync, Unmasked;
      StartStream();
    }

    ghost function Pos(): Position
      reads this
    {
      Position(whole, rest, start, payloadLen, bytesRemaining, maskKey, delivered)
    }

    /** The invariant of every run up to a first negative result or a payload read that got nothing. */
    ghost predicate Synced()
      reads this, buffer, parent
    {
      Valid() && Pos().InSync(propagate)
    }

    // the receive loop of ws_connect: read until the end of the response header is in the buffer
    method ReceiveHeader() returns (headerLen: int)
      requires buffer.Length == WS_BUFFER_SIZE
      modifies this`bufferLen, buffer, parent`unread, parent`lastRead
      ensures headerLen < 0 || headerLen < WS_BUFFER_SIZE - 1
      ensures headerLen >= 0 ==> bufferLen == headerLen && Strstr(buffer[..headerLen] + [0]).Some?
                                 && buffer[..headerLen] + parent.unread == old(parent.unread)
      ensures parent.reliable ==>
                (headerLen >= 0 <==> |old(parent.unread)| < 4095 && Strstr(old(parent.unread) + [0]).Some?)
      ensures parent.reliable && headerLen >= 0 ==> headerLen == |old(parent.unread)|
    {
      hide Strstr;
      headerLen := 0;
      while true
        invariant 0 <= headerLen < WS_BUFFER_SIZE - 1
        invariant buffer[..headerLen] + parent.unread == old(parent.unread)
        invariant parent.reliable && headerLen > 0 ==> parent.unread == [] && Strstr(old(parent.unread) + [0]).None?
        decreases WS_BUFFER_SIZE - headerLen
      {
        ghost var had, unread := buffer[..headerLen], parent.unread;
        var len := parent.Read(buffer, headerLen, WS_BUFFER_SIZE - 1 - headerLen);
        if len <= 0 {
          if parent.reliable && headerLen == 0 {
            NoHeader();
            assert old(parent.unread) == [] && [] + [0] == [0];
          }
          return -1;
        }
        assert buffer[..headerLen + len] == had + unread[..len];
        headerLen := headerLen + len;
        bufferLen := headerLen;
        buffer[headerLen] := 0;
        if Strstr(buffer[..headerLen] + [0]).Some? || headerLen >= WS_BUFFER_SIZE - 1 {
          break;
        }
        assert parent.reliable ==> parent.unread == [] && buffer[..headerLen] == old(parent.unread);
      }
      assert |old(parent.unread)| >= headerLen;
      assert parent.reliable && headerLen < 4095 ==> buffer[..headerLen] == old(parent.unread);
      if headerLen >= WS_BUFFER_SIZE - 1 {
        return -1;
      }
    }

    // ws_connect, the parent being connected and the upgrade request sent: `verdict` is what the status
    // line, the header walk and the accept key comparison make of the header text and its length
    method Upgrade(responseHeader: array?<byte>, verdict: (seq<byte>, int) -> int) returns (r: int)
      requires buffer.Length == WS_BUFFER_SIZE
      requires responseHeader != null ==> responseHeader.Length > 0 && responseHeader != buffer
      modifies this`bufferLen, this`rest, this`whole, this`start, this`delivered, buffer, parent`unread, parent`lastRead
      ensures r == 0 ==> Valid() && delivered == []
      ensures r == 0 ==> FirstDelimiter(old(parent.unread)).Some?
                         && rest == whole == old(parent.unread)[FirstDelimiter(old(parent.unread)).value + 4..]
      ensures r == 0 && Unmasked(rest) ==> (Synced() <==> bytesRemaining == 0)
      ensures parent.reliable ==> (r == 0 <==> Accepted(old(parent.unread), responseHeader, verdict))
      ensures parent.reliable && r == 0 ==> bufferLen == |rest|
    {
      hide FirstDelimiter, CString;
      ghost var stream := parent.unread;
      var headerLen := ReceiveHeader();
      if headerLen < 0 {
        return -1;
      }
      ghost var text := buffer[..headerLen];
      FoundInStream(text, stream);
      assert parent.reliable ==> text == stream && parent.unread == [];
      if responseHeader != null && responseHeader.Length - 1 < headerLen {
        headerLen := responseHeader.Length;
      }
      var delimiter := Strstr(buffer[..bufferLen] + [0]).value;
      r := verdict(buffer[..bufferLen], headerLen);
      assert parent.reliable ==> (r == 0 <==> Accepted(stream, responseHeader, verdict));
      hide Accepted;
      if r != 0 {
        return;
      }
      DropFront(delimiter + 4);
      rest := buffer[..bufferLen] + parent.unread;
      assert rest == stream[delimiter + 4..];
      StartStream();
    }

    lemma StashBefore()
      requires Valid()
      ensures buffer.Length == WS_BUFFER_SIZE && bufferLen <= buffer.Length && buffer[..bufferLen] <= rest
    {
    }

    // the frames start here; whoever has bytes of a payload left does not know
    ghost method StartStream()
      requires Valid()
      modifies this`whole, this`start, this`delivered
      ensures Valid() && whole == rest && delivered == []
      ensures Unmasked(rest) ==> (Synced() <==> bytesRemaining == 0)
    {
      hide Valid;
      whole, start, delivered := rest, 0, [];
      if Unmasked(rest) {
        InitialSync(rest, propagate);
        if bytesRemaining > 0 && Synced() {
          PastStart(Pos(), propagate);
        }
      }
    }

    // the residue hand-off of ws_connect
    method DropFront(n: nat)
      requires n <= bufferLen <= buffer.Length
      modifies this`bufferLen, buffer
      ensures bufferLen == old(bufferLen) - n && buffer[..bufferLen] == old(buffer[..bufferLen])[n..]
    {
      var residue := bufferLen - n;
      if residue > 0 {
        forall i | 0 <= i < residue {
          buffer[i] := buffer[i + n];
        }
        bufferLen := residue;
      } else {
        bufferLen := 0;
      }
    }

    // esp_transport_read_internal, when there is a stash: no more than the stash holds is delivered
    method ReadStash(dst: array<byte>, off: nat, len: nat) returns (n: nat)
      requires Valid() && bufferLen > 0 && dst != buffer && off + len <= dst.Length
      modifies this`bufferLen, buffer, dst
      ensures bufferLen <= buffer.Length && bufferLen == old(bufferLen) - n
      ensures n <= len && (n == len || n == old(bufferLen))
      ensures buffer[..bufferLen] == old(buffer[..bufferLen])[n..]
      ensures dst[..] == Overwrite(old(dst[..]), off, old(buffer[..bufferLen])[..n])
    {
      ghost var stash, d := buffer[..bufferLen], dst[..];
      n := if bufferLen >= len then len else bufferLen;
      forall i | 0 <= i < n {
        dst[off + i] := buffer[i];
      }
      assert dst[..] == Overwrite(d, off, stash[..n]);
      hide Overwrite;
      if n < bufferLen {
        forall i | 0 <= i < bufferLen - n {
          buffer[i] := buffer[i + n];
        }
        bufferLen := bufferLen - n;
      } else {
        bufferLen := 0;
      }
    }

    // esp_transport_read_internal
    method ReadInternal(dst: array<byte>, off: nat, len: nat) returns (n: int)
      requires Valid() && dst != buffer && off + len <= dst.Length
      modifies this`bufferLen, this`rest, buffer, parent`unread, parent`lastRead, dst
      ensures Valid()
      ensures n <= len && n <= |old(rest)|
      ensures n <= 0 ==> rest == old(rest) && dst[..] == old(dst[..])
      ensures n > 0 ==> rest == old(rest)[n..]
                        && dst[..] == Overwrite(old(dst[..]), off, old(rest)[..n])
      ensures |rest| <= |old(rest)| && bufferLen == StashLeft(old(bufferLen), |old(rest)| - |rest|)
      ensures old(bufferLen) > 0 || parent.reliable ==> n == Piece(len, old(bufferLen), |old(rest)|)
      ensures old(bufferLen) == 0 ==> n == parent.lastRead
    {
      hide Overwrite;
      if bufferLen == 0 {
        assert rest == parent.unread;
        n := parent.Read(dst, off, len);
      } else {
        ghost var stash, unread, d := buffer[..bufferLen], parent.unread, dst[..];
        assert rest == stash + unread;
        n := ReadStash(dst, off, len);
        DropOfFront(stash, unread, n);
        OverwriteNothing(d, off);
        if n == 0 {
          assert stash[..0] == [];
        }
      }
      rest := buffer[..bufferLen] + parent.unread;
    }

    /** `n` bytes can be read whatever happens. */
    ghost predicate Enough(n: nat)
      reads this`bufferLen, this`rest
    {
      bufferLen >= n || (parent.reliable && |rest| >= n)
    }

    // esp_transport_read_exact_size
    method ReadExact(dst: array<byte>, off: nat, requested: nat) returns (n: int)
      requires Valid() && dst != buffer && off + requested <= dst.Length
      modifies this`bufferLen, this`rest, buffer, parent`unread, parent`lastRead, dst
      ensures Valid()
      ensures n < 0 || n == requested
      ensures n == requested ==> n <= |old(rest)| && rest == old(rest)[n..]
                                 && dst[..] == Overwrite(old(dst[..]), off, old(rest)[..n])
      ensures |rest| <= |old(rest)| && bufferLen == StashLeft(old(bufferLen), |old(rest)| - |rest|)
      ensures old(Enough(requested)) ==> n == requested
    {
      hide Overwrite, Valid, Filled;
      var total := 0;
      ghost var s, had, d := rest, bufferLen, dst[..];
      FilledNothing(d, off, s);
      while total < requested
        invariant 0 <= total <= requested && Valid() && Filled(d, off, s, total, dst[..], rest)
        invariant |rest| == |s| - total && bufferLen == StashLeft(had, total)
      {
        ghost var e, t := dst[..], rest;
        var got := ReadInternal(dst, off + total, requested - total);
        if got < 0 {
          return got;
        }
        if got == 0 {
          return -1;
        }
        FilledMore(d, off, s, total, e, t, got, dst[..], rest);
        total := total + got;
      }
      FilledAll(d, off, s, total, dst[..], rest);
      return total;
    }

    // the first two bytes in ws_read_header
    method ReadLead(header: array<byte>) returns (got: int, masked: bool, len7: nat)
      requires Valid() && header != buffer && header.Length == MAX_WEBSOCKET_HEADER_SIZE
      modifies this`bufferLen, this`rest, this`headerReceived, this`fin, this`opcode, buffer, parent`unread,
               parent`lastRead, header
      ensures Valid() && got != 0 && len7 < 128
      ensures got < 0 ==> headerReceived == old(headerReceived)
      ensures got > 0 ==> headerReceived && |old(rest)| >= 2 && rest == old(rest)[2..]
      ensures got > 0 ==> var s := old(rest);
                          fin == (s[0] >= 128) && opcode == s[0] % 16 && masked == (s[1] >= 128) && len7 == s[1] % 128
      ensures |rest| <= |old(rest)| && bufferLen == StashLeft(old(bufferLen), |old(rest)| - |rest|)
      ensures old(Enough(2)) ==> got > 0
    {
      ghost var s := rest;
      masked, len7 := false, 0;
      hide Valid;
      got := ReadExact(header, 0, 2);
      if got <= 0 {
        return;
      }
      assert header[0] == s[0] && header[1] == s[1];
      headerReceived := true;
      fin := header[0] >= 128;
      opcode := header[0] % 16;
      masked := header[1] >= 128;
      len7 := header[1] % 128;
    }

    // the length part of ws_read_header: `len7` is the seven-bit length of the second header byte
    method ReadLength(header: array<byte>, len7: nat) returns (got: int, len: int)
      requires Valid() && header != buffer && header.Length == MAX_WEBSOCKET_HEADER_SIZE && len7 < 128
      modifies this`bufferLen, this`rest, buffer, parent`unread, parent`lastRead, header
      ensures Valid() && got != 0
      ensures got > 0 ==> var ext := ExtendedSize(len7);
                          ext <= |old(rest)| && rest == old(rest)[ext..]
                          && len == if ext == 0 then len7 else CLength(BigEndian(old(rest)[..ext]))
      ensures |rest| <= |old(rest)| && bufferLen == StashLeft(old(bufferLen), |old(rest)| - |rest|)
      ensures old(Enough(ExtendedSize(len7))) ==> got > 0
    {
      ghost var s := rest;
      got, len := 1, len7;
      hide Valid;
      if len7 == 126 {
        got := ReadExact(header, 2, 2);
        if got <= 0 {
          return;
        }
        assert header[2..4] == s[..2];
        len := header[2] as int * 256 + header[3] as int;
        BigEndian2(s[..2]);
      } else if len7 == 127 {
        got := ReadExact(header, 2, 8);
        if got <= 0 {
          return;
        }
        assert header[2..10] == s[..8];
        WideLength(s[..8]);
        if header[2] != 0 || header[3] != 0 || header[4] != 0 || header[5] != 0 {
          len := -1;
        } else {
          len := ((header[6] as int * 256 + header[7] as int) * 256 + header[8] as int) * 256 + header[9] as int;
          len := Signed32(len);
        }
      }
    }

    // the masking key part of ws_read_header: four bytes go through the caller's buffer, however long it is;
    // a shorter one is overrun, and the model stops there
    method ReadKey(dst: array<byte>, masked: bool, len: int) returns (got: int, overrun: bool)
      requires Valid() && dst != buffer
      modifies this`bufferLen, this`rest, this`maskKey, buffer, parent`unread, parent`lastRead, dst
      ensures Valid() && got != 0
      ensures overrun <==> masked && dst.Length < 4
      ensures overrun ==> got < 0
      ensures got > 0 && !masked ==> maskKey == NO_KEY
      ensures got > 0 && !(masked && len != 0) ==> rest == old(rest)
      ensures got > 0 && masked && len != 0 ==>
                |old(rest)| >= 4 && maskKey == old(rest)[..4] && rest == old(rest)[4..]
      ensures |rest| <= |old(rest)| && bufferLen == StashLeft(old(bufferLen), |old(rest)| - |rest|)
      ensures !overrun && (!masked || len == 0 || old(Enough(4))) ==> got > 0
    {
      hide Valid;
      got, overrun := 1, false;
      if masked {
        if dst.Length < 4 {
          return -1, true;
        }
        if len != 0 {
          got := ReadExact(dst, 0, 4);
          if got <= 0 {
            return;
          }
        }
        maskKey := dst[..4];
      } else {
        maskKey := NO_KEY;
      }
    }

    // ws_read_header behind its first two bytes
    method ReadRest(header: array<byte>, dst: array<byte>, masked: bool, len7: nat)
      returns (got: int, len: int, overrun: bool)
      requires Valid() && header != buffer && header.Length == MAX_WEBSOCKET_HEADER_SIZE && len7 < 128
      requires dst != buffer
      modifies this`bufferLen, this`rest, this`maskKey, buffer, parent`unread, parent`lastRead, header, dst
      ensures Valid() && got != 0
      ensures overrun ==> masked && dst.Length < 4
      ensures masked && dst.Length < 4 ==> got < 0 && (old(Enough(ExtendedSize(len7))) ==> overrun)
      ensures got > 0 ==> var ext, s := ExtendedSize(len7), old(rest);
                          ext <= |s| && len == (if ext == 0 then len7 else CLength(BigEndian(s[..ext]))) &&
                          if masked && len != 0 then
                            |s[ext..]| >= 4 && maskKey == s[ext..][..4] && rest == s[ext..][4..]
                          else rest == s[ext..] && (!masked ==> maskKey == NO_KEY)
      ensures |rest| <= |old(rest)| && bufferLen == StashLeft(old(bufferLen), |old(rest)| - |rest|)
      ensures !(masked && dst.Length < 4) && old(Enough(ExtendedSize(len7) + if masked then 4 else 0)) ==> got > 0
    {
      hide Valid;
      overrun := false;
      got, len := ReadLength(header, len7);
      if got > 0 {
        got, overrun := ReadKey(dst, masked, len);
      }
    }

    // ws_read_header; the parent is polled even if the stash holds something
    method ReadHeader(dst: array<byte>) returns (r: int, overrun: bool)
      requires Valid() && dst != buffer
      modifies this`bufferLen, this`rest, this`fin, this`opcode, this`maskKey, this`payloadLen, this`bytesRemaining,
               this`headerReceived, this`lastPoll, buffer, parent`unread, parent`lastRead, dst
      ensures Valid()
      ensures overrun ==> r < 0 && |old(rest)| >= 2 && old(rest)[1] >= 128 && dst.Length < 4
      ensures headerReceived && r >= 0 && |old(rest)| >= 2 && old(rest)[1] >= 128 ==> dst.Length >= 4
      ensures !headerReceived && r == 0 ==>
                rest == old(rest) && payloadLen == old(payloadLen) && maskKey == old(maskKey)
      ensures r > 0 ==> headerReceived
      ensures headerReceived && r >= 0 ==> r == payloadLen == bytesRemaining
      ensures headerReceived && r >= 0 ==> HeaderTaken(old(rest))
      ensures lastPoll <= 0 ==> r == lastPoll && !headerReceived && rest == old(rest)
      ensures parent.reliable ==> lastPoll > 0
      ensures |rest| <= |old(rest)| && bufferLen == StashLeft(old(bufferLen), |old(rest)| - |rest|)
      ensures lastPoll > 0 && !overrun && DecodeHeader(old(rest)).Some? ==>
                var h := DecodeHeader(old(rest)).value;
                old(Enough(h.size)) ==> headerReceived && r == CLength(h.len)
    {
      hide Valid, IsHeaderOf, DecodeHeader;
      ghost var s := rest;
      overrun := false;
      headerReceived := false;
      var poll := parent.PollRead();
      lastPoll := poll;
      if poll <= 0 {
        return poll, false;
      }
      if DecodeHeader(s).Some? {
        HeaderShape(s);
      }
      var header := new byte[MAX_WEBSOCKET_HEADER_SIZE];
      var got, masked, len := ReadLead(header);
      if got <= 0 {
        return got, false;
      }
      got, len, overrun := ReadRest(header, dst, masked, len);
      if got <= 0 {
        return got, overrun;
      }
      payloadLen := len;
      bytesRemaining := len;
      HeaderParts(s, len, maskKey);
      return len, false;
    }

    // the masking loops of _ws_write and ws_read_payload
    static method XorInPlace(b: array<byte>, len: nat, key: Key)
      requires len <= b.Length
      modifies b
      ensures b[..] == Overwrite(old(b[..]), 0, Mask(old(b[..len]), key))
      ensures IsMasked(b[..len], old(b[..len]), key)
    {
      hide IsMasked;
      ghost var was := b[..len];
      for i := 0 to len
        invariant forall j {:trigger b[j]} :: 0 <= j < i ==> b[j] == Xor(old(b[j]), key[j % 4])
        invariant forall j {:trigger b[j]} :: i <= j < b.Length ==> b[j] == old(b[j])
      {
        b[i] := Xor(b[i], key[i % 4]);
      }
      assert b[..len] == Mask(was, key);
      MaskIsMasked(b[..len], was, key);
    }

    // the header of _ws_write, up to the masking key
    static method BuildLead(header: array<byte>, opcode: byte, masked: bool, len: nat) returns (n: nat)
      requires header.Length == MAX_WEBSOCKET_HEADER_SIZE && len < 0x8000_0000
      modifies header
      ensures n <= 10 && header[..n] == Lead(opcode, masked, len)
    {
      var flag := if masked then 128 else 0;
      header[0] := opcode;
      if len <= 125 {
        header[1] := len + flag;
        n := 2;
        assert header[..2] == [opcode, len + flag] + [];
      } else if len < 0x1_0000 {
        header[1] := 126 + flag;
        header[2] := len / 256;
        header[3] := len % 256;
        n := 4;
        assert BigEndianBytes(len / 256, 1) == [len / 256];
        assert header[..4] == [opcode, 126 + flag] + ([len / 256] + [len % 256]);
      } else {
        header[1] := 127 + flag;
        header[2], header[3], header[4], header[5] := 0, 0, 0, 0;
        header[6] := len / 0x100_0000 % 256;
        header[7] := len / 0x1_0000 % 256;
        header[8] := len / 256 % 256;
        header[9] := len % 256;
        n := 10;
        WideBytes(len);
        assert header[..10] == [opcode, 127 + flag] + BigEndianBytes(len, 8);
      }
    }

    static method AppendKey(header: array<byte>, n: nat, key: Key)
      requires n + 4 <= header.Length
      modifies header
      ensures header[..n + 4] == old(header[..n]) + key
    {
      forall i | 0 <= i < 4 {
        header[n + i] := key[i];
      }
    }

    // _ws_write up to its first parent write: header, random key, masking in place
    static method Prepare(header: array<byte>, opcode: byte, masked: bool, b: array<byte>, len: nat,
                          random: Option<Key>)
      returns (headerLen: int, key: Key)
      requires header.Length == MAX_WEBSOCKET_HEADER_SIZE && header != b && len <= b.Length && len < 0x8000_0000
      modifies header, b
      ensures headerLen < 0 <==> masked && random.None?
      ensures headerLen >= 0 && masked ==> key == random.value
      ensures headerLen < 0 ==> b[..] == old(b[..])
      ensures headerLen >= 0 ==>
                2 <= headerLen <= header.Length
                && header[..headerLen] == EncodeHeader(opcode, if masked then Some(key) else None, len)
                && b[..] == if masked then Overwrite(old(b[..]), 0, Mask(old(b[..len]), key)) else old(b[..])
    {
      headerLen := BuildLead(header, opcode, masked, len);
      key := NO_KEY;
      if masked {
        if random.None? {
          return -1, key;
        }
        key := random.value;
        AppendKey(header, headerLen, key);
        headerLen := headerLen + 4;
        XorInPlace(b, len, key);
      } else {
        assert header[..headerLen] == Lead(opcode, masked, len) + [];
      }
    }

    // _ws_write: the caller's buffer is masked in place, sent, and masked back
    method Write(opcode: byte, masked: bool, b: array<byte>, len: nat, random: Option<Key>) returns (ret: int)
      requires len <= b.Length && len < 0x8000_0000
      modifies parent`sent, this`lastKey, this`lastWrite, b
      ensures Wrote(opcode, if masked then Some(lastKey) else None, old(b[..len]), lastWrite,
                    old(parent.sent), parent.sent, ret)
      ensures !lastWrite.HeaderFailed? || !masked ==> b[..] == old(b[..])
      ensures lastWrite.HeaderFailed? && masked ==> b[..] == Overwrite(old(b[..]), 0, Mask(old(b[..len]), lastKey))
      ensures masked && len > 0 && ret == len ==> EndsMasked(parent.sent, old(b[..len]))
      ensures masked && random.None? ==> ret <= 0 && (lastWrite.NotReady? || lastWrite.NoRandom?)
      ensures masked && random.Some? ==> lastWrite.NotReady? || lastKey == random.value
      ensures parent.reliable && (random.Some? || !masked) ==> ret == len && (lastWrite.HeaderOnly? || lastWrite.Body?)
    {
      hide EndsMasked, IsMasked;
      ghost var was, before := b[..], parent.sent;
      var poll := parent.PollWrite();
      if poll <= 0 {
        lastWrite := NotReady;
        return poll;
      }
      var header := new byte[MAX_WEBSOCKET_HEADER_SIZE];
      var headerLen, key := Prepare(header, opcode, masked, b, len, random);
      if headerLen < 0 {
        lastWrite := NoRandom;
        return -1;
      }
      lastKey := key;
      assert b[..len] == if masked then Mask(was[..len], key) else was[..len];
      var sentHeader;
      ret, sentHeader := Send(header, headerLen, b, len);
      if sentHeader && masked {
        XorInPlace(b, len, key);
        MaskBack(was, len, key);
      }
      if masked && len > 0 && ret == len {
        WroteMasked(opcode, key, was[..len], lastWrite, before, parent.sent, ret);
      }
    }

    // the two parent writes of _ws_write
    method Send(header: array<byte>, headerLen: nat, b: array<byte>, len: nat) returns (ret: int, sentHeader: bool)
      requires 0 < headerLen <= header.Length && len <= b.Length
      modifies parent`sent, this`lastWrite
      ensures sentHeader == !lastWrite.HeaderFailed?
      ensures Sent(header[..headerLen], b[..len], lastWrite, old(parent.sent), parent.sent, ret)
      ensures parent.reliable ==> ret == len && sentHeader
    {
      var n := parent.Write(header, headerLen);
      if n != headerLen {
        lastWrite := HeaderFailed;
        return -1, false;
      }
      if len == 0 {
        lastWrite := HeaderOnly;
        return 0, true;
      }
      ret := parent.Write(b, len);
      lastWrite := Body(ret);
      sentHeader := true;
    }

    // ws_read_payload
    method ReadPayload(dst: array<byte>, len: nat) returns (rlen: int)
      requires Valid() && bytesRemaining >= 0 && dst != buffer && len <= dst.Length
      modifies this`bufferLen, this`rest, this`bytesRemaining, buffer, parent`unread, parent`lastRead, dst
      ensures Valid() && rlen <= len && rlen <= old(bytesRemaining) && rlen <= |old(rest)|
      ensures rlen <= 0 ==> rest == old(rest) && bytesRemaining == old(bytesRemaining)
      ensures rlen > 0 ==> rest == old(rest)[rlen..] && bytesRemaining == old(bytesRemaining) - rlen
                           && dst[..rlen] == Mask(old(rest)[..rlen], maskKey)
      ensures len == 0 || old(bytesRemaining) == 0 ==> rlen == 0
      ensures len > 0 && old(bytesRemaining) > 0 && old(bufferLen) == 0 ==> rlen == parent.lastRead
      ensures |rest| <= |old(rest)| && bufferLen == StashLeft(old(bufferLen), |old(rest)| - |rest|)
      ensures old(bufferLen) > 0 || parent.reliable ==>
                rlen == Piece(Min(len, old(bytesRemaining)), old(bufferLen), |old(rest)|)
    {
      hide IsMasked;
      ghost var s := rest;
      var bytesToRead := if bytesRemaining > len then len else bytesRemaining;
      rlen := 0;
      if bytesToRead != 0 {
        rlen := ReadInternal(dst, 0, bytesToRead);
        if rlen <= 0 {
          return;
        }
        assert dst[..rlen] == s[..rlen];
      }
      bytesRemaining := bytesRemaining - rlen;
      ghost var was := dst[..];
      XorInPlace(dst, bytesToRead, maskKey);
      MaskedPrefix(was, bytesToRead, rlen, maskKey);
      assert dst[..rlen] == dst[..][..rlen];
    }

    // esp_transport_ws_handle_control_frames, `payload` holding what was read of the frame
    method AnswerControl(payload: array<byte>, len: nat, clientClosed: bool, random: Option<Key>)
      returns (ret: int, ghost written: int)
      requires len <= payload.Length && 0 <= payloadLen < 0x8000_0000
      modifies parent`sent, this`lastKey, this`lastWrite, this`headerReceived, this`bytesRemaining, payload
      ensures !old(headerReceived) || opcode < 8 ==>
                ret == 0 && parent.sent == old(parent.sent) && bytesRemaining == old(bytesRemaining)
      ensures old(headerReceived) && opcode >= 8 ==>
                if payloadLen > len then
                  ret == -1 && parent.sent == old(parent.sent) && bytesRemaining == payloadLen - len
                else bytesRemaining == old(bytesRemaining)
                     && Handled(opcode, old(payload[..payloadLen]), clientClosed, ret, written, lastKey, lastWrite,
                                old(parent.sent), parent.sent)
                     && headerReceived == !(if opcode == OPCODE_PING then ret == 0
                                            else if opcode == OPCODE_CLOSE then clientClosed || written >= 0
                                            else opcode == OPCODE_PONG)
      ensures parent.reliable && random.Some? && payloadLen <= len ==>
                ret >= 0 && (old(headerReceived) && 8 <= opcode <= 9 && !clientClosed ==>
                               !lastWrite.NotReady? && lastKey == random.value)
    {
      hide Wrote, EndsMasked;
      written := 0;
      if !headerReceived || !IsControl(opcode) {
        return 0, 0;
      }
      if payloadLen > len {
        bytesRemaining := payloadLen - len;
        return -1, 0;
      }
      if opcode == OPCODE_PING {
        var actual := Write(FIN + OPCODE_PONG, true, payload, payloadLen, random);
        if actual != payloadLen {
          return -1, actual;
        }
        headerReceived := false;
        return 0, actual;
      } else if opcode == OPCODE_CLOSE {
        if !clientClosed {
          var nothing := new byte[0];
          var actual := Write(FIN + OPCODE_CLOSE, true, nothing, 0, random);
          assert nothing[..0] == [];
          written := actual;
          if actual < 0 {
            return -1, written;
          }
        }
        headerReceived := false;
        var closed := parent.PollClosed();
        return if closed <= 0 then -1 else 1, written;
      } else if opcode == OPCODE_PONG {
        headerReceived := false;
        return 2, 0;
      }
      return 0, 0;
    }

    // ws_handle_control_frame_internal
    method HandleControl(resources: Resources) returns (r: int, ghost written: int)
      requires Valid() && 0 <= payloadLen == bytesRemaining
      modifies this`bufferLen, this`rest, this`bytesRemaining, this`headerReceived, this`lastKey, this`lastWrite,
               buffer, parent
      ensures Valid() && r <= 0
      ensures !(old(headerReceived) && opcode >= 8) ==>
                r == 0 && rest == old(rest) && bytesRemaining == old(bytesRemaining) && parent.sent == old(parent.sent)
      ensures r == 0 && old(headerReceived) && opcode >= 8 ==>
                payloadLen <= MAX_CONTROL_FRAME && payloadLen <= |old(rest)| && rest == old(rest)[payloadLen..]
                && bytesRemaining == 0
                && Answered(opcode, Mask(old(rest)[..payloadLen], maskKey), lastKey, lastWrite,
                            old(parent.sent), parent.sent)
      ensures r < 0 ==> parent.sent == old(parent.sent)
                        || (payloadLen <= |old(rest)|
                            && Handled(opcode, Mask(old(rest)[..payloadLen], maskKey), false, -1, written,
                                       lastKey, lastWrite, old(parent.sent), parent.sent))
      ensures |rest| <= |old(rest)| && bufferLen == StashLeft(old(bufferLen), |old(rest)| - |rest|)
      ensures old(headerReceived) && opcode >= 8 && (payloadLen > 125 || (payloadLen > 0 && !resources.memory)) ==>
                r == -1 && rest == old(rest) && parent.sent == old(parent.sent)
      ensures old(headerReceived) && opcode >= 8 && parent.reliable && resources.random.Some?
              && payloadLen <= |old(rest)| ==>
                HandledExactly(opcode, Mask(old(rest)[..payloadLen], maskKey), old(bufferLen), resources.memory,
                               resources.random.value, r, old(parent.sent), parent.sent)
    {
      hide Handled, EncodeFrame, ShortMaskedFrame;
      written := 0;
      if !headerReceived || !IsControl(opcode) {
        return 0, 0;
      }
      if payloadLen > MAX_CONTROL_FRAME {
        return -1, 0;
      }
      if payloadLen > 0 && !resources.memory {
        return -1, 0;
      }
      ghost var s := rest;
      var payload := new byte[payloadLen];
      var actual := ReadPayload(payload, payloadLen);
      if actual != payloadLen {
        return -1, 0;
      }
      assert payload[..] == Mask(s[..payloadLen], maskKey) by {
        assert payload[..] == payload[..payloadLen];
      }
      var ret;
      ret, written := AnswerControl(payload, payloadLen, false, resources.random);
      ghost var p := Mask(s[..payloadLen], maskKey);
      HandledResult(opcode, p, ret, written, lastKey, lastWrite, old(parent.sent), parent.sent);
      if ret >= 0 {
        HandledIsAnswered(opcode, p, ret, written, lastKey, lastWrite, old(parent.sent), parent.sent);
        if parent.reliable && resources.random.Some? {
          AnsweredExactly(opcode, p, resources.random.value, lastWrite, old(parent.sent), parent.sent);
        }
      }
      r := if ret > 0 then 0 else ret;
    }

    // the second half of ws_read: the payload
    method ReadBody(dst: array<byte>, len: nat) returns (r: int, lost: bool)
      requires Synced() && bytesRemaining > 0 && dst != buffer && len <= dst.Length
      modifies this`bufferLen, this`rest, this`bytesRemaining, this`delivered, this`start, buffer, parent`unread,
               parent`lastRead, dst
      ensures Valid() && lost == (r <= 0)
      ensures !lost ==> Synced() && r <= len && delivered == old(delivered) + dst[..r]
      ensures !lost ==> r <= |old(rest)| && rest == old(rest)[r..]
      ensures lost ==> delivered == old(delivered) && bytesRemaining == 0 && start < |whole| - |rest|
      ensures |rest| <= |old(rest)| && bufferLen == StashLeft(old(bufferLen), |old(rest)| - |rest|)
      ensures old(bufferLen) > 0 || parent.reliable ==>
                r == Piece(Min(len, old(bytesRemaining)), old(bufferLen), |old(rest)|)
    {
      hide Mask, Position.InSync, Valid;
      ghost var p := Pos();
      PastStart(p, propagate);
      r := ReadPayload(dst, len);
      if r <= 0 {
        bytesRemaining := 0;
        return r, true;
      }
      lost := false;
      MaskZero(p.rest[..r]);
      TakePayload(p, r, propagate);
      delivered := delivered + dst[..r];
      if bytesRemaining == 0 {
        start := |whole| - |rest|;
      }
    }

    // the control frame branch of ws_read, the reader having stood at `p` before the header
    method PassControl(ghost p: Position, ghost had: nat, resources: Resources) returns (r: int, ghost written: int)
      requires Valid() && p.InSync(propagate) && p.left == 0 && DecodeHeader(p.rest).Some?
      requires headerReceived && opcode >= 8 && !propagate && opcode == DecodeHeader(p.rest).value.opcode
      requires var h := DecodeHeader(p.rest).value;
               h.key == NO_KEY
               && Pos() == p.(rest := p.rest[h.size..], payloadLen := h.len, left := h.len, key := h.key)
               && bufferLen == StashLeft(had, h.size)
      modifies this`bufferLen, this`rest, this`bytesRemaining, this`headerReceived, this`lastKey, this`lastWrite,
               this`start, buffer, parent
      ensures Valid() && r <= 0
      ensures r == 0 ==> Synced() && bytesRemaining == 0
                         && PassedFrame(p.rest, propagate, rest, lastKey, lastWrite, old(parent.sent), parent.sent)
      ensures r < 0 ==> AnswerFailed(p.rest, written, lastKey, lastWrite, old(parent.sent), parent.sent)
      ensures |rest| <= |old(rest)| && bufferLen == StashLeft(old(bufferLen), |old(rest)| - |rest|)
      ensures parent.reliable && resources.random.Some? ==>
                ControlRead(p.rest, had, resources.memory, resources.random.value, r, rest,
                            old(parent.sent), parent.sent)
    {
      hide HandledExactly, ControlRead, DecodeHeader, Mask, Answered, Handled, AnswerFailed, PassedFrame, StashLeft,
           Position.InSync, Valid;
      ghost var s, before := rest, parent.sent;
      r, written := HandleControl(resources);
      if payloadLen <= |s| {
        MaskZero(s[..payloadLen]);
      }
      PassedOrFailed(p.rest, r, rest, written, lastKey, lastWrite, before, parent.sent);
      if parent.reliable && resources.random.Some? {
        ReadExactly(p.rest, had, resources.memory, resources.random.value, r, rest, before, parent.sent);
      }
      if r == 0 {
        start := start + (|p.rest| - |rest|);
        PassFrame(p, propagate);
      }
    }

    // ws_read_header as ws_read calls it, at a frame boundary `p` of a stream of unmasked frames
    method NextHeader(ghost p: Position, dst: array<byte>) returns (r: int)
      requires Synced() && bytesRemaining == 0 && dst != buffer && p == Pos()
      modifies this`bufferLen, this`rest, this`fin, this`opcode, this`maskKey, this`payloadLen, this`bytesRemaining,
               this`headerReceived, this`lastPoll, buffer, parent`unread, parent`lastRead, dst
      ensures Valid()
      ensures r > 0 ==> headerReceived
      ensures r == 0 && !headerReceived ==> Pos() == p.(left := bytesRemaining)
      ensures r >= 0 && headerReceived ==> r == payloadLen == bytesRemaining && DecodeHeader(p.rest).Some?
      ensures r >= 0 && headerReceived ==>
                var h := DecodeHeader(p.rest).value;
                opcode == h.opcode && h.key == NO_KEY
                && Pos() == p.(rest := p.rest[h.size..], payloadLen := h.len, left := h.len, key := h.key)
      ensures lastPoll <= 0 ==> r == lastPoll && !headerReceived && rest == old(rest)
      ensures parent.reliable ==> lastPoll > 0
      ensures |rest| <= |old(rest)| && bufferLen == StashLeft(old(bufferLen), |old(rest)| - |rest|)
      ensures lastPoll > 0 && DecodeHeader(p.rest).Some? ==>
                var h := DecodeHeader(p.rest).value;
                old(Enough(h.size)) ==> headerReceived && r == CLength(h.len)
    {
      hide DecodeHeader, IsHeaderOf, Position.InSync, Unmasked, Valid;
      AtFrame(p, propagate);
      if |rest| >= 2 {
        UnmaskedSecond(rest);
      }
      var overrun;
      r, overrun := ReadHeader(dst);
      if r >= 0 && headerReceived {
        HeaderFields(p.rest, fin, opcode, payloadLen, maskKey, rest);
      }
    }

    // the first half of ws_read: a new header, and the frames that carry nothing for the application
    method ReadHead(dst: array<byte>, resources: Resources) returns (r: int, done: bool, ghost written: int)
      requires Synced() && bytesRemaining == 0 && dst != buffer
      modifies this`bufferLen, this`rest, this`fin, this`opcode, this`maskKey, this`payloadLen, this`bytesRemaining,
               this`headerReceived, this`lastPoll, this`lastKey, this`lastWrite, this`start, buffer, parent, dst
      ensures Valid()
      ensures r >= 0 ==> Synced()
      ensures done ==> r <= 0
      ensures !done ==> r > 0 && bytesRemaining > 0
                        && EnteredFrame(old(rest), propagate, rest, old(parent.sent), parent.sent)
      ensures done && r == 0 ==>
                bytesRemaining == 0
                && PassedFrame(old(rest), propagate, rest, lastKey, lastWrite, old(parent.sent), parent.sent)
      ensures r < 0 ==> AnswerFailed(old(rest), written, lastKey, lastWrite, old(parent.sent), parent.sent)
      ensures lastPoll <= 0 ==> done && r == lastPoll && rest == old(rest) && parent.sent == old(parent.sent)
      ensures parent.reliable ==> lastPoll > 0
      ensures |rest| <= |old(rest)| && bufferLen == StashLeft(old(bufferLen), |old(rest)| - |rest|)
      ensures !done ==> bytesRemaining == DecodeHeader(old(rest)).value.len
      ensures lastPoll > 0 ==>
                HeadLive(old(rest), old(bufferLen), parent.reliable, propagate, resources, done, r, rest,
                         old(parent.sent), parent.sent)
    {
      hide DecodeHeader, Answered, AnswerFailed, PassedFrame, ControlRead, HeadLive, StashLeft, CLength,
           Position.InSync, Valid;
      written := 0;
      ghost var p := Pos();
      FailedNothing(p.rest, 0, lastKey, lastWrite, parent.sent);
      ghost var had, before := bufferLen, parent.sent;
      r := NextHeader(p, dst);
      if r < 0 || !headerReceived || opcode < 8 || propagate {
        LiveWithoutControl(p.rest, had, parent.reliable, propagate, resources, lastPoll, headerReceived, opcode, r,
                           rest, before);
      }
      if r < 0 {
        bytesRemaining := 0;
        return r, true, 0;
      }
      if headerReceived && IsControl(opcode) && !propagate {
        ghost var t := rest;
        r, written := PassControl(p, had, resources);
        StashLeftTwice(had, |p.rest| - |t|, |t| - |rest|);
        LiveControl(p.rest, had, parent.reliable, resources, r, rest, before, parent.sent);
        return r, true, written;
      }
      if r == 0 {
        bytesRemaining := 0;
        if headerReceived {
          start := start + (|p.rest| - |rest|);
          PassFrame(p, propagate);
        }
        PassedNothing(p.rest, propagate, rest, lastKey, lastWrite, before);
        return r, true, 0;
      }
      EnterPayload(p, propagate);
      done := false;
    }

    // ws_read; `lost` says, to the proof only, that a payload read got nothing
    method Read(dst: array<byte>, len: nat, resources: Resources) returns (r: int, lost: bool, ghost written: int)
      requires Synced() && dst != buffer && len <= dst.Length
      modifies this, buffer, parent, dst
      ensures Valid() && whole == old(whole)
      ensures r > 0 ==> !lost && r <= len && delivered == old(delivered) + dst[..r]
      ensures r <= 0 ==> delivered == old(delivered)
      ensures r >= 0 ==> (Synced() <==> !lost)
      ensures r == 0 ==> bytesRemaining == 0
      ensures lost ==> r <= 0 && bytesRemaining == 0 && start < |whole| - |rest|
      ensures r >= 0 && !lost ==> ReadStep(old(rest), old(bytesRemaining), propagate, r, rest, lastKey, lastWrite,
                                           old(parent.sent), parent.sent)
      ensures r < 0 ==> AnswerFailed(old(rest), written, lastKey, lastWrite, old(parent.sent), parent.sent)
      ensures old(bytesRemaining) == 0 && lastPoll <= 0 ==>
                r == lastPoll && !lost && rest == old(rest) && parent.sent == old(parent.sent)
      ensures old(bytesRemaining) == 0 && parent.reliable ==> lastPoll > 0
      ensures old(bytesRemaining) > 0 || lastPoll > 0 ==>
                ReadLive(old(rest), old(bufferLen), old(bytesRemaining), parent.reliable, propagate, resources, len,
                         r, lost, rest, old(parent.sent), parent.sent)
      ensures |rest| <= |old(rest)| && bufferLen == StashLeft(old(bufferLen), |old(rest)| - |rest|)
    {
      hide DecodeHeader, AppData, FrameStart, Unmasked, Valid, HeadLive, ReadLive, Piece, Min, StashLeft, PassedFrame,
           EnteredFrame, ReadStep, AnswerFailed;
      ghost var s, had, left, before := rest, bufferLen, bytesRemaining, parent.sent;
      r, lost, written := 0, false, 0;
      if bytesRemaining <= 0 {
        var done;
        r, done, written := ReadHead(dst, resources);
        if done {
          if r == 0 {
            StepHead(s, propagate, rest, lastKey, lastWrite, before, parent.sent);
          }
          if lastPoll > 0 {
            LiveHead(s, had, parent.reliable, propagate, resources, len, r, rest, before, parent.sent);
          }
          return;
        }
        NothingSent(s, propagate, rest, before, parent.sent);
      }
      PastStart(Pos(), propagate);
      ghost var t, now, r0 := rest, bufferLen, r;
      if payloadLen != 0 {
        r, lost := ReadBody(dst, len);
      }
      FailedNothing(s, written, lastKey, lastWrite, before);
      if left == 0 {
        StashLeftTwice(had, |s| - |t|, |t| - |rest|);
      }
      if !lost {
        StepBody(s, left, propagate, r, t, rest, lastKey, lastWrite, before);
      }
      if left > 0 || lastPoll > 0 {
        LiveBody(s, had, left, parent.reliable, propagate, resources, len, t, now, r0, r, lost, rest, before);
      }
    }

    /** The fields describe the header at the front of `s`, and what is left starts behind it. The
        one exception is the masked empty frame: its masking key is left in the stream. */
    ghost predicate HeaderTaken(s: seq<byte>)
      reads this
    {
      IsHeaderOf(s, fin, opcode, payloadLen, maskKey, rest)
    }
  }

  ghost predicate IsHeaderOf(s: seq<byte>, fin: bool, opcode: byte, len: int, key: Key, rest: seq<byte>) {
    |s| >= 2 &&
    var ext := ExtendedSize(s[1] % 128);
    |s| >= 2 + ext && fin == (s[0] >= 128) && opcode == s[0] % 16 && len == CLength(LengthField(s)) &&
    if s[1] >= 128 && len == 0 then rest == s[2 + ext..]
    else DecodeHeader(s).Some? && key == DecodeHeader(s).value.key && rest == s[DecodeHeader(s).value.size..]
  }

  /** What answering a control frame put on the wire: a PING gets one PONG with its payload, a CLOSE
      gets one empty CLOSE, anything else gets nothing. A parent that is not ready to write makes
      the code take an empty frame for sent. */
  ghost predicate Answered(opcode: byte, payload: seq<byte>, key: Key, stage: WriteStage,
                           before: seq<byte>, after: seq<byte>)
  {
    if opcode == OPCODE_PING then
      || after == before + EncodeFrame(FIN + OPCODE_PONG, Some(key), payload)
      || (payload == [] && stage.NotReady? && after == before)
    else if opcode == OPCODE_CLOSE then
      || after == before + EncodeFrame(FIN + OPCODE_CLOSE, Some(key), [])
      || (stage.NotReady? && after == before)
    else after == before
  }

  /** The same, call by call, with what the write returned: a PONG is written for a PING, and an empty CLOSE for a
      CLOSE the client did not ask for, and only a success of it is taken for an answer. */
  ghost predicate Handled(opcode: byte, payload: seq<byte>, clientClosed: bool, ret: int, written: int, key: Key,
                          stage: WriteStage, before: seq<byte>, after: seq<byte>)
  {
    if opcode == OPCODE_PING then
      && Wrote(FIN + OPCODE_PONG, Some(key), payload, stage, before, after, written)
      && ret == if written == |payload| then 0 else -1
    else if opcode == OPCODE_CLOSE && !clientClosed then
      && Wrote(FIN + OPCODE_CLOSE, Some(key), [], stage, before, after, written)
      && (ret == -1 || (ret == 1 && written >= 0))
    else
      && after == before
      && if opcode == OPCODE_CLOSE then ret == -1 || ret == 1 else ret == if opcode == OPCODE_PONG then 2 else 0
  }

  lemma HandledIsAnswered(opcode: byte, payload: seq<byte>, ret: int, written: int, key: Key, stage: WriteStage,
                          before: seq<byte>, after: seq<byte>)
    requires Handled(opcode, payload, false, ret, written, key, stage, before, after) && ret >= 0
    ensures Answered(opcode, payload, key, stage, before, after)
  {
    hide Wrote, EncodeFrame;
    if opcode == OPCODE_PING {
      WholeFrame(FIN + OPCODE_PONG, Some(key), payload, stage, before, after, written);
    } else if opcode == OPCODE_CLOSE {
      NothingWritten(stage, key, before, after, written);
      WholeFrame(FIN + OPCODE_CLOSE, Some(key), [], stage, before, after, written);
    }
  }

  lemma HandledResult(opcode: byte, payload: seq<byte>, ret: int, written: int, key: Key, stage: WriteStage,
                      before: seq<byte>, after: seq<byte>)
    requires Handled(opcode, payload, false, ret, written, key, stage, before, after)
    ensures ret >= -1
  {
    hide Wrote;
  }

  /** What a `ws_read` that failed may have put on the wire: nothing, or as much as a failing write put there of the
      answer to the control frame at the front of `s`. */
  ghost predicate AnswerFailed(s: seq<byte>, written: int, key: Key, stage: WriteStage,
                               before: seq<byte>, after: seq<byte>)
  {
    || after == before
    || (DecodeHeader(s).Some? &&
        var h := DecodeHeader(s).value;
        h.opcode >= 8 && h.size + h.len <= |s|
        && Handled(h.opcode, s[h.size..][..h.len], false, -1, written, key, stage, before, after))
  }

  lemma PassedNothing(s: seq<byte>, propagate: bool, rest: seq<byte>, key: Key, stage: WriteStage, sent: seq<byte>)
    requires rest == s || (DecodeHeader(s).Some? && Kept(DecodeHeader(s).value, propagate)
                           && DecodeHeader(s).value.len == 0 && rest == s[DecodeHeader(s).value.size..])
    ensures PassedFrame(s, propagate, rest, key, stage, sent, sent)
  {
  }

  lemma FailedNothing(s: seq<byte>, written: int, key: Key, stage: WriteStage, sent: seq<byte>)
    ensures AnswerFailed(s, written, key, stage, sent, sent)
  {
  }

  lemma PassedOrFailed(s: seq<byte>, r: int, rest: seq<byte>, written: int, key: Key, stage: WriteStage,
                       before: seq<byte>, after: seq<byte>)
    requires DecodeHeader(s).Some? && DecodeHeader(s).value.opcode >= 8
    requires r == 0 ==>
               var h := DecodeHeader(s).value;
               h.len <= MAX_CONTROL_FRAME && h.len <= |s[h.size..]| && rest == s[h.size..][h.len..]
               && Answered(h.opcode, s[h.size..][..h.len], key, stage, before, after)
    requires r < 0 ==>
               var h := DecodeHeader(s).value;
               after == before
               || (h.len <= |s[h.size..]|
                   && Handled(h.opcode, s[h.size..][..h.len], false, -1, written, key, stage, before, after))
    ensures r == 0 ==> PassedFrame(s, false, rest, key, stage, before, after)
    ensures r < 0 ==> AnswerFailed(s, written, key, stage, before, after)
  {
    hide Answered, Handled;
  }

  /** What answers a control frame, in bytes: a PING (9) one final masked PONG (10) with its payload, a CLOSE (8) one
      final masked empty CLOSE, any other one nothing. */
  ghost predicate OnTheWire(opcode: Nibble, payload: seq<byte>, key: Key, before: seq<byte>, after: seq<byte>)
    requires |payload| <= 125
  {
    before <= after &&
    if opcode == 9 then ShortMaskedFrame(after[|before|..], 0x8A, key, payload)
    else if opcode == 8 then ShortMaskedFrame(after[|before|..], 0x88, key, [])
    else after == before
  }

  lemma AnsweredExactly(opcode: Nibble, payload: seq<byte>, key: Key, stage: WriteStage,
                        before: seq<byte>, after: seq<byte>)
    requires Answered(opcode, payload, key, stage, before, after) && |payload| <= 125
    requires 8 <= opcode <= 9 ==> !stage.NotReady?
    ensures OnTheWire(opcode, payload, key, before, after)
  {
    hide EncodeFrame, ShortMaskedFrame;
    if opcode == OPCODE_PING {
      EncodesShort(FIN + OPCODE_PONG, key, payload);
    } else if opcode == OPCODE_CLOSE {
      EncodesShort(FIN + OPCODE_CLOSE, key, []);
    }
  }

  /** What becomes of a control frame whose payload is there, `had` bytes of it in the stash: it is handled but if it is
      too long, memory is short or the stash ends within it. */
  ghost predicate HandledExactly(opcode: Nibble, payload: seq<byte>, had: nat, memory: bool, key: Key, r: int,
                                 before: seq<byte>, after: seq<byte>)
  {
    if |payload| > 125 || (payload != [] && !memory) || 0 < had < |payload| then r == -1 && after == before
    else r == 0 && OnTheWire(opcode, payload, key, before, after)
  }

  /** What a `ws_read` on a reliable parent makes of the control frame at the front of `s`, `had` bytes of `s` being in
      the stash: it is refused, with nothing on the wire, exactly if its payload is longer than 125 bytes, memory is
      short or the stash ends within the payload; otherwise it is passed and answered. */
  ghost predicate ControlRead(s: seq<byte>, had: nat, memory: bool, key: Key, r: int, rest: seq<byte>,
                              before: seq<byte>, after: seq<byte>)
  {
    DecodeHeader(s).Some? ==>
      var h := DecodeHeader(s).value;
      h.opcode >= 8 && h.size + h.len <= |s| ==>
        if h.len > 125 || (h.len > 0 && !memory) || h.size < had < h.size + h.len then r < 0 && after == before
        else r == 0 && rest == s[h.size + h.len..] && OnTheWire(h.opcode, s[h.size..][..h.len], key, before, after)
  }

  /** A header that is no control header, or that is refused for its length. */
  lemma ControlNotRead(s: seq<byte>, had: nat, memory: bool, key: Key, r: int, rest: seq<byte>, sent: seq<byte>)
    requires DecodeHeader(s).Some? && DecodeHeader(s).value.opcode >= 8 ==> r == CLength(DecodeHeader(s).value.len) < 0
    ensures ControlRead(s, had, memory, key, r, rest, sent, sent)
  {
  }

  lemma ReadExactly(s: seq<byte>, had: nat, memory: bool, key: Key, r: int, rest: seq<byte>,
                    before: seq<byte>, after: seq<byte>)
    requires DecodeHeader(s).Some?
    requires var h := DecodeHeader(s).value;
             h.opcode >= 8 && h.size + h.len <= |s| ==>
               HandledExactly(h.opcode, s[h.size..][..h.len], StashLeft(had, h.size), memory, key, r, before, after)
               && (r == 0 ==> rest == s[h.size..][h.len..])
    ensures ControlRead(s, had, memory, key, r, rest, before, after)
  {
    hide OnTheWire;
  }

  /** At the front of `s` is the header of a frame for the application and some of its payload, in the stash, or
      anywhere if the parent is reliable. */
  ghost predicate DataAhead(s: seq<byte>, had: nat, reliable: bool, propagate: bool) {
    DecodeHeader(s).Some? &&
    var h := DecodeHeader(s).value;
    (propagate || h.opcode < 8) && 0 < h.len < 0x8000_0000 && (h.size < had || (reliable && h.size < |s|))
  }

  /** At the front of `s` is the header of a control frame. */
  ghost predicate ControlAhead(s: seq<byte>) {
    DecodeHeader(s).Some? && DecodeHeader(s).value.opcode >= 8
  }

  /** At the front of `s` is the header of an empty frame for the application, in the stash, or anywhere if the parent
      is reliable. */
  ghost predicate EmptyAhead(s: seq<byte>, had: nat, reliable: bool, propagate: bool) {
    DecodeHeader(s).Some? &&
    var h := DecodeHeader(s).value;
    (propagate || h.opcode < 8) && h.len == 0 && (h.size <= had || reliable)
  }

  /** What a frame that is certain to be read must make of the first half of `ws_read`. */
  ghost predicate HeadLive(s: seq<byte>, had: nat, reliable: bool, propagate: bool, resources: Resources, done: bool,
                           r: int, rest: seq<byte>, before: seq<byte>, after: seq<byte>)
  {
    && (DataAhead(s, had, reliable, propagate) ==> !done)
    && (EmptyAhead(s, had, reliable, propagate) ==> done && r == 0 && rest == s[DecodeHeader(s).value.size..])
    && (reliable && resources.random.Some? && !propagate ==>
          ControlRead(s, had, resources.memory, resources.random.value, r, rest, before, after))
  }

  lemma LiveWithoutControl(s: seq<byte>, had: nat, reliable: bool, propagate: bool, resources: Resources, poll: int,
                           received: bool, opcode: Nibble, r: int, rest: seq<byte>, sent: seq<byte>)
    requires poll > 0 && DecodeHeader(s).Some? ==>
               var h := DecodeHeader(s).value;
               had >= h.size || (reliable && |s| >= h.size) ==> received && r == CLength(h.len)
    requires r >= 0 && received ==>
               DecodeHeader(s).Some? &&
               var h := DecodeHeader(s).value; opcode == h.opcode && r == h.len && rest == s[h.size..]
    requires r < 0 || !received || opcode < 8 || propagate
    ensures poll > 0 ==> HeadLive(s, had, reliable, propagate, resources, r <= 0, r, rest, sent, sent)
  {
    hide DecodeHeader, ControlRead;
    if poll > 0 {
      if reliable && !propagate && resources.random.Some? {
        ControlNotRead(s, had, resources.memory, resources.random.value, r, rest, sent);
      }
    }
  }

  lemma LiveControl(s: seq<byte>, had: nat, reliable: bool, resources: Resources, r: int, rest: seq<byte>,
                    before: seq<byte>, after: seq<byte>)
    requires ControlAhead(s)
    requires reliable && resources.random.Some? ==>
               ControlRead(s, had, resources.memory, resources.random.value, r, rest, before, after)
    ensures HeadLive(s, had, reliable, false, resources, true, r, rest, before, after)
  {
    hide ControlRead, DecodeHeader;
  }

  /** What a `ws_read` must make of a payload or a frame that is certain to be read, `had` bytes of the stream `s` being
      in the stash and `left` bytes of a payload being left: of a payload it delivers as much as there is room for, as
      is left and as one read gets; an empty frame and a control frame it passes. */
  ghost predicate ReadLive(s: seq<byte>, had: nat, left: nat, reliable: bool, propagate: bool, resources: Resources,
                           len: nat, r: int, lost: bool, rest: seq<byte>, before: seq<byte>, after: seq<byte>)
  {
    if left > 0 then had > 0 || reliable ==> r == Piece(Min(len, left), had, |s|)
    else
      && (DataAhead(s, had, reliable, propagate) ==>
            var h := DecodeHeader(s).value;
            r == Piece(Min(len, h.len), StashLeft(had, h.size), |s| - h.size))
      && (EmptyAhead(s, had, reliable, propagate) ==>
            r == 0 && !lost && rest == s[DecodeHeader(s).value.size..])
      && (reliable && resources.random.Some? && !propagate ==>
            ControlRead(s, had, resources.memory, resources.random.value, r, rest, before, after))
      && (ControlAhead(s) && !propagate ==> !lost)
  }

  lemma LiveHead(s: seq<byte>, had: nat, reliable: bool, propagate: bool, resources: Resources, len: nat,
                 r: int, rest: seq<byte>, before: seq<byte>, after: seq<byte>)
    requires HeadLive(s, had, reliable, propagate, resources, true, r, rest, before, after)
    ensures ReadLive(s, had, 0, reliable, propagate, resources, len, r, false, rest, before, after)
  {
    hide DecodeHeader, ControlRead;
  }

  lemma LiveBody(s: seq<byte>, had: nat, left: nat, reliable: bool, propagate: bool, resources: Resources, len: nat,
                 t: seq<byte>, now: nat, r0: int, r: int, lost: bool, rest: seq<byte>, sent: seq<byte>)
    requires left > 0 ==> t == s && now == had && (had > 0 || reliable ==> r == Piece(Min(len, left), had, |s|))
    requires left == 0 ==>
               HeadLive(s, had, reliable, propagate, resources, false, r0, t, sent, sent)
               && EnteredFrame(s, propagate, t, sent, sent) && now == StashLeft(had, |s| - |t|)
               && (now > 0 || reliable ==> r == Piece(Min(len, DecodeHeader(s).value.len), now, |t|))
    ensures ReadLive(s, had, left, reliable, propagate, resources, len, r, lost, rest, sent, sent)
  {
    hide DecodeHeader, ControlRead, Piece, Min;
    if left == 0 && !propagate && resources.random.Some? {
      ControlNotRead(s, had, resources.memory, resources.random.value, r, rest, sent);
    }
  }

  /** An empty frame is written with 0 or fails. */
  lemma NothingWritten(stage: WriteStage, key: Key, before: seq<byte>, after: seq<byte>, written: int)
    requires Wrote(FIN + OPCODE_CLOSE, Some(key), [], stage, before, after, written)
    ensures written <= 0
  {
  }

  /** PING to PONG, end to end: a reader that follows RFC 6455 finds exactly one frame on the wire,
      a final PONG with the payload of the PING. */
  lemma PingIsPonged(payload: seq<byte>, key: Key, stage: WriteStage, before: seq<byte>, after: seq<byte>)
    requires Answered(OPCODE_PING, payload, key, stage, before, after)
    requires |payload| <= MAX_CONTROL_FRAME && (payload != [] || !stage.NotReady?)
    ensures before <= after
    ensures DecodeFrame(after[|before|..]) == Some((Frame(true, OPCODE_PONG, payload), []))
  {
    hide DecodeFrame, EncodeFrame;
    var e := EncodeFrame(FIN + OPCODE_PONG, Some(key), payload);
    assert after[|before|..] == e + [];
    FrameRoundTrip(FIN + OPCODE_PONG, Some(key), payload, []);
  }

  /** Reading a header left the stream `s` behind the header of a frame for the application. */
  ghost predicate EnteredFrame(s: seq<byte>, propagate: bool, rest: seq<byte>, before: seq<byte>, after: seq<byte>) {
    DecodeHeader(s).Some? && after == before &&
    var h := DecodeHeader(s).value;
    Kept(h, propagate) && h.len > 0 && rest == s[h.size..]
  }

  lemma NothingSent(s: seq<byte>, propagate: bool, rest: seq<byte>, before: seq<byte>, after: seq<byte>)
    requires EnteredFrame(s, propagate, rest, before, after)
    ensures after == before
  {
  }

  /** Nothing was there to read, or one whole frame was passed that has nothing for the application. */
  ghost predicate PassedFrame(s: seq<byte>, propagate: bool, rest: seq<byte>, key: Key, stage: WriteStage,
                              before: seq<byte>, after: seq<byte>)
  {
    || (rest == s && after == before)
    || (DecodeHeader(s).Some? &&
        var h := DecodeHeader(s).value;
        h.size + h.len <= |s| && rest == s[h.size..][h.len..] &&
        if Kept(h, propagate) then h.len == 0 && after == before
        else h.len <= MAX_CONTROL_FRAME && Answered(h.opcode, s[h.size..][..h.len], key, stage, before, after))
  }

  /** What one `ws_read` that returned `r` took from the stream `s` and put on the wire, when it
      started with `left` bytes of a payload to go. */
  ghost predicate ReadStep(s: seq<byte>, left: nat, propagate: bool, r: nat, rest: seq<byte>, key: Key,
                           stage: WriteStage, before: seq<byte>, after: seq<byte>)
  {
    if left > 0 then r <= |s| && rest == s[r..] && after == before
    else if r == 0 then PassedFrame(s, propagate, rest, key, stage, before, after)
    else
      DecodeHeader(s).Some? &&
      var h := DecodeHeader(s).value;
      EnteredFrame(s, propagate, s[h.size..], before, after) && r <= |s[h.size..]| && rest == s[h.size..][r..]
  }

  lemma StepHead(s: seq<byte>, propagate: bool, rest: seq<byte>, key: Key, stage: WriteStage,
                 before: seq<byte>, after: seq<byte>)
    requires PassedFrame(s, propagate, rest, key, stage, before, after)
    ensures ReadStep(s, 0, propagate, 0, rest, key, stage, before, after)
  {
    hide PassedFrame;
  }

  lemma StepBody(s: seq<byte>, left: nat, propagate: bool, r: nat, t: seq<byte>, rest: seq<byte>, key: Key,
                 stage: WriteStage, sent: seq<byte>)
    requires if left > 0 then t == s else EnteredFrame(s, propagate, t, sent, sent) && r > 0
    requires r <= |t| && rest == t[r..]
    ensures ReadStep(s, left, propagate, r, rest, key, stage, sent, sent)
  {
    hide DecodeHeader;
  }

  /** A header that is whole in the stash is the header at the front of the stream. */
  lemma HeaderInStash(stash: seq<byte>, s: seq<byte>)
    requires stash <= s && DecodeHeader(stash).Some?
    ensures DecodeHeader(s) == DecodeHeader(stash) && |stash| >= 2
    ensures var h := DecodeHeader(stash).value;
            h.size == 2 + ExtendedSize(s[1] % 128) + (if s[1] >= 128 then 4 else 0) && h.size <= |stash|
            && h.len == LengthField(s) && h.masked == (s[1] >= 128)
  {
    hide BigEndian;
    var ext := ExtendedSize(stash[1] % 128);
    assert stash[0] == s[0] && stash[1] == s[1];
    SameSlice(stash, s, 2, 2 + ext);
    if stash[1] >= 128 {
      SameSlice(stash, s, 2 + ext, 2 + ext + 4);
    }
  }

  lemma SameSlice(s: seq<byte>, t: seq<byte>, i: nat, j: nat)
    requires s <= t && i <= j <= |s|
    ensures s[i..j] == t[i..j]
  {
  }

  /** From the result of `ws_read` to the wire: a read at a frame boundary that consumed a PING put exactly one frame
      there, a final PONG with its payload, unless that is empty and the parent was not ready to write. */
  lemma PingReadIsPonged(s: seq<byte>, rest: seq<byte>, key: Key, stage: WriteStage,
                         before: seq<byte>, after: seq<byte>)
    requires ReadStep(s, 0, false, 0, rest, key, stage, before, after) && rest != s
    requires DecodeHeader(s).Some? && DecodeHeader(s).value.opcode == OPCODE_PING
    ensures var h := DecodeHeader(s).value;
            h.size + h.len <= |s| && rest == s[h.size + h.len..] &&
            if h.len == 0 && stage.NotReady? then
              after == before
              || (before <= after && DecodeFrame(after[|before|..]) == Some((Frame(true, OPCODE_PONG, []), [])))
            else
              before <= after &&
              DecodeFrame(after[|before|..]) == Some((Frame(true, OPCODE_PONG, s[h.size..][..h.len]), []))
  {
    hide DecodeHeader, DecodeFrame, Answered;
    var h := DecodeHeader(s).value;
    var payload := s[h.size..][..h.len];
    assert rest == s[h.size..][h.len..] == s[h.size + h.len..];
    if !(h.len == 0 && stage.NotReady?) {
      PingIsPonged(payload, key, stage, before, after);
    } else {
      EmptyPing(payload, key, stage, before, after);
    }
  }

  lemma EmptyPing(payload: seq<byte>, key: Key, stage: WriteStage, before: seq<byte>, after: seq<byte>)
    requires Answered(OPCODE_PING, payload, key, stage, before, after) && payload == []
    ensures after == before
            || (before <= after && DecodeFrame(after[|before|..]) == Some((Frame(true, OPCODE_PONG, []), [])))
  {
    hide DecodeFrame, EncodeFrame;
    if after != before {
      PingIsPonged(payload, key, HeaderOnly, before, after);
    }
  }

  /** The header fields after reading the header of an unmasked frame. */
  lemma HeaderFields(s: seq<byte>, fin: bool, opcode: byte, len: int, key: Key, rest: seq<byte>)
    requires IsHeaderOf(s, fin, opcode, len, key, rest) && Unmasked(s) && len >= 0
    ensures DecodeHeader(s).Some?
    ensures var h := DecodeHeader(s).value;
            fin == h.fin && opcode == h.opcode && len == h.len && key == h.key == NO_KEY && rest == s[h.size..]
  {
    hide Unmasked;
    UnmaskedSecond(s);
  }

  lemma UnmaskedSecond(s: seq<byte>)
    requires Unmasked(s) && |s| >= 2
    ensures s[1] < 128
  {
  }

  /** A write that reported the whole payload put the frame on the wire, but for one case: an
      empty frame on a parent that was not ready to write. */
  lemma WholeFrame(first: byte, key: Option<Key>, payload: seq<byte>, stage: WriteStage,
                   before: seq<byte>, after: seq<byte>, ret: int)
    requires Wrote(first, key, payload, stage, before, after, ret)
    requires ret == |payload|
    ensures after == before + EncodeFrame(first, key, payload) || (payload == [] && stage.NotReady? && after == before)
  {
    hide EncodeHeader, Mask;
    var header := EncodeHeader(first, key, |payload|);
    var body := if key.Some? then Mask(payload, key.value) else payload;
    if stage.Body? {
      assert body[..ret] == body;
      assert before + header + body == before + (header + body);
    } else if stage.HeaderOnly? {
      assert header + body == header;
    }
  }

  /** The first `total` bytes of the stream `s` are written over `d` from `off` on, which gives `e`, and `t` is left. */
  ghost predicate Filled(d: seq<byte>, off: nat, s: seq<byte>, total: nat, e: seq<byte>, t: seq<byte>) {
    total <= |s| && off + total <= |d| && e == Overwrite(d, off, s[..total]) && t == s[total..]
  }

  lemma FilledNothing(d: seq<byte>, off: nat, s: seq<byte>)
    requires off <= |d|
    ensures Filled(d, off, s, 0, d, s)
  {
    OverwriteNothing(d, off);
    assert s[..0] == [] && s[0..] == s;
  }

  lemma FilledMore(d: seq<byte>, off: nat, s: seq<byte>, total: nat, e: seq<byte>, t: seq<byte>, got: nat,
                   after: seq<byte>, left: seq<byte>)
    requires Filled(d, off, s, total, e, t) && got <= |t| && off + total + got <= |d| == |e|
    requires after == Overwrite(e, off + total, t[..got]) && left == t[got..]
    ensures Filled(d, off, s, total + got, after, left)
  {
    hide Overwrite;
    OverwriteTwice(d, off, s, total, got);
  }

  lemma FilledAll(d: seq<byte>, off: nat, s: seq<byte>, total: nat, e: seq<byte>, t: seq<byte>)
    requires Filled(d, off, s, total, e, t)
    ensures total <= |s| && off + total <= |d| && e == Overwrite(d, off, s[..total]) && t == s[total..]
  {
  }

  lemma DropOfFront(a: seq<byte>, b: seq<byte>, n: nat)
    requires n <= |a|
    ensures (a + b)[n..] == a[n..] + b && (a + b)[..n] == a[..n]
  {
  }

  /** The front of a buffer whose first `len` bytes are masked. */
  lemma MaskedPrefix(d: seq<byte>, len: nat, n: nat, key: Key)
    requires n <= len <= |d|
    ensures Overwrite(d, 0, Mask(d[..len], key))[..n] == Mask(d[..n], key)
  {
  }

  /** Masking a prefix in place twice gives the buffer back. */
  lemma MaskBack(d: seq<byte>, len: nat, key: Key)
    requires len <= |d|
    ensures var m := Overwrite(d, 0, Mask(d[..len], key)); Overwrite(m, 0, Mask(m[..len], key)) == d
  {
    var m := Overwrite(d, 0, Mask(d[..len], key));
    MaskedPrefix(d, len, len, key);
    MaskTwice(d[..len], key);
  }

  /** What the two writes of a frame did, given how far they got. */
  ghost predicate Sent(header: seq<byte>, body: seq<byte>, stage: WriteStage,
                       before: seq<byte>, after: seq<byte>, ret: int)
  {
    match stage
    case HeaderFailed => ret == -1 && |after| < |before| + |header| && after <= before + header
    case HeaderOnly => ret == 0 && body == [] && after == before + header
    case Body(n) => ret == n <= |body| && body != [] && after == before + header + body[..if n > 0 then n else 0]
    case _ => false
  }

  /** What a call of `_ws_write` that got to `stage` returned and put on the wire. */
  ghost predicate Wrote(opcode: byte, key: Option<Key>, payload: seq<byte>, stage: WriteStage,
                        before: seq<byte>, after: seq<byte>, ret: int)
  {
    match stage
    case NotReady => ret <= 0 && after == before
    case NoRandom => ret == -1 && after == before
    case _ => Sent(EncodeHeader(opcode, key, |payload|), if key.Some? then Mask(payload, key.value) else payload,
                   stage, before, after, ret)
  }

  /** The bytes `sent` end in a masking key and the payload masked with it. */
  ghost predicate EndsMasked(sent: seq<byte>, payload: seq<byte>) {
    |sent| >= |payload| + 4 &&
    var n := |sent| - |payload|;
    IsMasked(sent[n..], payload, sent[n - 4..n])
  }

  lemma WroteMasked(opcode: byte, key: Key, payload: seq<byte>, stage: WriteStage,
                    before: seq<byte>, after: seq<byte>, ret: int)
    requires Wrote(opcode, Some(key), payload, stage, before, after, ret) && ret == |payload| > 0
    ensures EndsMasked(after, payload)
  {
    hide Mask, IsMasked, Lead;
    var lead, body := Lead(opcode, true, |payload|), Mask(payload, key);
    assert body[..ret] == body;
    assert after == before + (lead + key) + body;
    var n := |after| - |payload|;
    assert after[n..] == body && after[n - 4..n] == key;
    MaskIsMasked(body, payload, key);
  }

  /** Reading two bytes, then the extended length, then the key is reading the header. */
  lemma HeaderParts(s: seq<byte>, len: int, key: Key)
    requires |s| >= 2
    requires var ext := ExtendedSize(s[1] % 128);
             |s| >= 2 + ext && len == if ext == 0 then s[1] % 128 else CLength(BigEndian(s[2..][..ext]))
    requires s[1] < 128 ==> key == NO_KEY
    requires s[1] >= 128 && len != 0 ==> var t := s[2..][ExtendedSize(s[1] % 128)..]; |t| >= 4 && key == t[..4]
    ensures var t := s[2..][ExtendedSize(s[1] % 128)..];
            IsHeaderOf(s, s[0] >= 128, s[0] % 16, len, key, if s[1] >= 128 && len != 0 then t[4..] else t)
  {
    var ext := ExtendedSize(s[1] % 128);
    var t := s[2..][ext..];
    assert t == s[2 + ext..];
    assert s[2..][..ext] == s[2..2 + ext];
    if s[1] >= 128 && len != 0 {
      assert t[..4] == s[2 + ext..2 + ext + 4] && t[4..] == s[2 + ext + 4..];
    }
  }

  /** What ws_read_header makes of a header that _ws_write built: the same fin, opcode, key and length, and exactly the
      header taken, but for the masked empty frame. */
  lemma ReaderRecovers(first: byte, key: Option<Key>, len: nat, tail: seq<byte>,
                       fin: bool, opcode: byte, payloadLen: int, maskKey: Key, rest: seq<byte>)
    requires len < 0x8000_0000
    requires IsHeaderOf(EncodeHeader(first, key, len) + tail, fin, opcode, payloadLen, maskKey, rest)
    ensures fin == (first >= 128) && opcode == first % 16 && payloadLen == len
    ensures rest == tail <==> !(key.Some? && len == 0)
    ensures rest == tail ==> maskKey == if key.Some? then key.value else NO_KEY
  {
    var e := EncodeHeader(first, key, len);
    var s := e + tail;
    HeaderRoundTrip(first, key, len, tail);
    MaskedEmptyFrame(s, fin, opcode, payloadLen, maskKey, rest);
    assert s[|e|..] == tail;
    DecodedLength(s);
  }

  lemma NoHeader()
    ensures Strstr([0]).None?
  {
  }

  lemma HeaderShape(s: seq<byte>)
    requires DecodeHeader(s).Some?
    ensures |s| >= 2
    ensures var h := DecodeHeader(s).value;
            h.size == 2 + ExtendedSize(s[1] % 128) + (if s[1] >= 128 then 4 else 0) && h.len == LengthField(s)
  {
    hide BigEndian;
  }

  lemma DecodedLength(s: seq<byte>)
    requires DecodeHeader(s).Some?
    ensures DecodeHeader(s).value.len == LengthField(s) && DecodeHeader(s).value.fin == (s[0] >= 128)
    ensures DecodeHeader(s).value.opcode == s[0] % 16 && DecodeHeader(s).value.masked == (s[1] >= 128)
  {
  }

  /** Reading a header leaves the reader behind it, but for one case: the masking key of a masked
      empty frame is left in the stream and will be taken for the next header. */
  lemma MaskedEmptyFrame(s: seq<byte>, fin: bool, opcode: byte, len: int, key: Key, rest: seq<byte>)
    requires IsHeaderOf(s, fin, opcode, len, key, rest) && DecodeHeader(s).Some?
    ensures var h := DecodeHeader(s).value;
            rest == s[h.size..] <==> !(h.masked && h.len == 0)
  {
    var h := DecodeHeader(s).value;
    assert h.len == LengthField(s);
    if h.masked && h.len == 0 {
      assert |rest| == |s| - h.size + 4;
    }
  }

  /** The eight-byte length form: too big if any of the first four bytes is set. */
  lemma WideLength(s: seq<byte>)
    requires |s| == 8
    ensures CLength(BigEndian(s)) ==
            if s[0] != 0 || s[1] != 0 || s[2] != 0 || s[3] != 0 then -1
            else Signed32(((s[4] as int * 256 + s[5] as int) * 256 + s[6] as int) * 256 + s[7] as int)
  {
    BigEndian8(s);
    BigEndian4(s[..4]);
    BigEndian4(s[4..]);
  }

  /** How many bytes the reads delivered. */
  function Total(results: seq<int>): nat {
    if results == [] then 0
    else Total(results[..|results| - 1]) + if results[|results| - 1] > 0 then results[|results| - 1] else 0
  }

  lemma TotalNone()
    ensures Total([]) == 0
  {
  }

  lemma TotalMore(results: seq<int>, r: int)
    ensures Total(results + [r]) == Total(results) + if r > 0 then r else 0
  {
    assert (results + [r])[..|results|] == results;
  }

  /** Everything of the stream `s` is in the stash and can be read: a read into a buffer that is not empty moves on. */
  lemma Progress(s: seq<byte>, left: nat, resources: Resources, len: nat, r: int, lost: bool, rest: seq<byte>, key: Key,
                 stage: WriteStage, before: seq<byte>, after: seq<byte>)
    requires s != [] && len > 0 && (left == 0 ==> Readable(s))
    requires ReadLive(s, |s|, left, true, false, resources, len, r, lost, rest, before, after) && resources.Granted()
    requires r >= 0 && !lost ==> ReadStep(s, left, false, r, rest, key, stage, before, after)
    requires lost ==> r <= 0
    ensures r >= 0 && !lost && |rest| < |s|
  {
    hide DecodeHeader, OnTheWire, PassedFrame;
    if left == 0 {
      var h := DecodeHeader(s).value;
      if h.opcode >= 8 {
        assert ControlAhead(s);
      } else if h.len == 0 {
        assert EmptyAhead(s, |s|, true, false);
      } else {
        assert DataAhead(s, |s|, true, false);
      }
    }
  }

  // one ws_read into a new buffer
  method TakeSome(t: WsTransport, size: nat, resources: Resources) returns (r: int, lost: bool, data: seq<byte>)
    requires t.Synced()
    modifies t, t.buffer, t.parent
    ensures t.whole == old(t.whole) && r <= size && t.delivered == old(t.delivered) + data
    ensures |data| == (if r > 0 then r else 0) && (lost ==> r <= 0)
    ensures r >= 0 ==> (t.Synced() <==> !lost)
    ensures |t.rest| <= |old(t.rest)| && (old(t.bufferLen) == |old(t.rest)| ==> t.bufferLen == |t.rest|)
    ensures t.parent.reliable && !t.propagate && resources.Granted() && Readable(t.whole) && size > 0
            && old(t.bufferLen) == |old(t.rest)| > 0 ==>
              r >= 0 && !lost && |t.rest| < |old(t.rest)|
  {
    hide WsTransport.Valid, Position.InSync, ReadStep, AnswerFailed, ReadLive, Readable;
    var buffer := new byte[size];
    ghost var written;
    ghost var s, left, before := t.rest, t.bytesRemaining, t.parent.sent;
    if left == 0 && Readable(t.whole) {
      ReadableRest(t.Pos(), t.propagate);
    }
    NotNegative(t.Pos(), t.propagate);
    ghost var had := t.bufferLen;
    r, lost, written := t.Read(buffer, size, resources);
    data := if r > 0 then buffer[..r] else [];
    if t.parent.reliable && !t.propagate && resources.Granted() && Readable(t.whole) && size > 0
       && had == |s| > 0 {
      Progress(s, left, resources, size, r, lost, t.rest, t.lastKey, t.lastWrite, before, t.parent.sent);
    }
  }

  // ws_read into buffers of the given sizes, until a result is negative or the reader has lost a payload
  method TakeAll(t: WsTransport, sizes: seq<nat>, resources: seq<Resources>) returns (results: seq<int>, got: seq<byte>)
    requires t.Synced() && t.delivered == [] && |resources| == |sizes|
    modifies t, t.buffer, t.parent
    ensures t.whole == old(t.whole) && got == t.delivered && got <= AppData(t.whole, t.propagate)
    ensures |got| == Total(results) && |results| <= |sizes|
    ensures forall i :: 0 <= i < |results| ==> results[i] <= sizes[i]
    ensures |results| < |sizes| ==>
              results != [] && (results[|results| - 1] < 0 || (results[|results| - 1] == 0 && !t.Synced()))
    ensures t.parent.reliable && !t.propagate && AllGranted(resources) && Readable(t.whole)
            && old(t.bufferLen) == |old(t.rest)| <= |sizes| && 0 !in sizes ==>
              got == AppData(t.whole, t.propagate)
  {
    hide AppData, Position.InSync, WsTransport.Valid, Readable, Total;
    results, got := [], [];
    TotalNone();
    var i, stopped := 0, false;
    ghost var certain := t.parent.reliable && !t.propagate && AllGranted(resources) && Readable(t.whole)
                         && t.bufferLen == |t.rest| && 0 !in sizes;
    DeliveredInOrder(t.Pos(), t.propagate);
    while i < |sizes| && !stopped
      invariant i == |results| <= |sizes|
      invariant got == t.delivered && |got| == Total(results) && t.whole == old(t.whole)
      invariant forall k :: 0 <= k < i ==> results[k] <= sizes[k]
      invariant stopped ==> i > 0 && (results[i - 1] < 0 || (results[i - 1] == 0 && !t.Synced()))
      invariant !stopped ==> t.Synced()
      invariant got <= AppData(t.whole, t.propagate)
      invariant certain ==> t.bufferLen == |t.rest| && (t.rest == [] || (!stopped && |t.rest| + i <= |old(t.rest)|))
      invariant certain && t.rest == [] ==> got == AppData(t.whole, t.propagate)
      decreases |sizes| - i, if stopped then 0 else 1
    {
      var r, lost, data := TakeSome(t, sizes[i], resources[i]);
      TotalMore(results, r);
      results, got := results + [r], got + data;
      stopped := r < 0 || lost;
      if !stopped {
        DeliveredInOrder(t.Pos(), t.propagate);
      }
      i := i + 1;
    }
  }

  /** A whole connection: the upgrade, then reads into buffers of the given sizes, over a network that cuts the response
      and the frames behind it into any chunks, until a result is negative or the reader has lost a payload. What the
      application gets is the start of the data payloads, in order, and all of them once everything is read. With a
      reliable parent the upgrade succeeds exactly if the response is accepted and all that was sent fits the buffer,
      and then as many reads as there are bytes deliver every payload. */
  method Connection(parent: Parent, ghost response: seq<byte>, ghost frames: seq<Frame>, responseHeader: array?<byte>,
                    verdict: (seq<byte>, int) -> int, sizes: seq<nat>, resources: seq<Resources>)
    returns (t: WsTransport, up: int, results: seq<int>, got: seq<byte>)
    requires FirstDelimiter(response) == Some(|response| - 4) && WellFormed(frames)
    requires parent.unread == response + ServerStream(frames)
    requires responseHeader != null ==> responseHeader.Length > 0
    requires |resources| == |sizes|
    modifies parent
    ensures got <= DataPayloads(frames) && |got| == Total(results) && |results| <= |sizes|
    ensures forall i :: 0 <= i < |results| ==> results[i] <= sizes[i]
    ensures up == 0 && |results| < |sizes| ==>
              results != [] && (results[|results| - 1] < 0 || (results[|results| - 1] == 0 && !t.Synced()))
    ensures up == 0 && (forall i :: 0 <= i < |results| ==> results[i] >= 0) && t.Synced() && t.rest == [] ==>
              got == DataPayloads(frames)
    ensures parent.reliable ==> (up == 0 <==> Accepted(response + ServerStream(frames), responseHeader, verdict))
    ensures up == 0 && parent.reliable && AllGranted(resources) && ShortControls(frames) && 0 !in sizes
            && |ServerStream(frames)| <= |sizes| ==>
              got == DataPayloads(frames)
  {
    hide FirstDelimiter, ServerStream, DataPayloads, AppData, Unmasked, FrameStart, WellFormed, ReadStep, AnswerFailed,
         ReadLive, Readable, ShortControls, Position.InSync, WsTransport.Valid;
    results, got := [], [];
    ghost var stream := ServerStream(frames);
    StreamCarriesPayloads(frames);
    if ShortControls(frames) {
      StreamReadable(frames);
    }
    FirstDelimiterExtends(response, response + stream);
    t := new WsTransport(parent, false);
    t.StashBefore();
    up := t.Upgrade(responseHeader, verdict);
    if up != 0 {
      return;
    }
    assert t.rest == stream;
    results, got := TakeAll(t, sizes, resources);
    if t.Synced() && t.rest == [] {
      DeliveredInOrder(t.Pos(), false);
    }
  }

  /** One `ws_read` at a frame boundary where a final unmasked PING with up to 125 bytes of payload is there, on a
      reliable parent: exactly if the stash does not end within the payload it succeeds, and then exactly one final PONG
      with the payload, masked with the random key, goes out; otherwise nothing does. */
  method AnswerPing(t: WsTransport, dst: array<byte>, len: nat, key: Key, ghost payload: seq<byte>,
                    ghost tail: seq<byte>)
    returns (r: int)
    requires t.Synced() && t.bytesRemaining == 0 && !t.propagate && t.parent.reliable
    requires |payload| <= 125 && t.rest == [0x89, |payload|] + payload + tail
    requires dst != t.buffer && len <= dst.Length
    modifies t, t.buffer, t.parent, dst
    ensures r == 0 <==> !(2 < old(t.bufferLen) < 2 + |payload|)
    ensures r == 0 ==> t.Synced() && t.bytesRemaining == 0 && t.rest == tail && old(t.parent.sent) <= t.parent.sent
    ensures r == 0 ==> var wire := t.parent.sent[|old(t.parent.sent)|..];
                       && |wire| == 6 + |payload| && wire[0] == 0x8A && wire[1] == 128 + |payload| && wire[2..6] == key
                       && forall i :: 0 <= i < |payload| ==> IsExclusiveOr(wire[6 + i], payload[i], key[i % 4])
    ensures r == 0 ==> DecodeFrame(t.parent.sent[|old(t.parent.sent)|..]) == Some((Frame(true, 10, payload), []))
    ensures r != 0 ==> r < 0 && t.parent.sent == old(t.parent.sent)
  {
    hide WsTransport.Valid, Position.InSync, ReadStep, AnswerFailed, DecodeHeader, DecodeFrame;
    PingHeader(payload, tail);
    var lost;
    ghost var written;
    ghost var s, before := t.rest, t.parent.sent;
    r, lost, written := t.Read(dst, len, Resources(true, Some(key)));
    if r == 0 {
      PongBytes(t.parent.sent[|before|..], key, payload);
      ShortMaskedDecodes(t.parent.sent[|before|..], 0x8A, key, payload);
    }
  }

  lemma PingHeader(payload: seq<byte>, tail: seq<byte>)
    requires |payload| <= 125
    ensures var s := [0x89, |payload|] + payload + tail;
            DecodeHeader(s) == Some(Header(true, 9, false, |payload|, NO_KEY, 2))
            && s[2..][..|payload|] == payload && s[2 + |payload|..] == tail
  {
  }

  lemma PongBytes(wire: seq<byte>, key: Key, payload: seq<byte>)
    requires |payload| <= 125 && ShortMaskedFrame(wire, 0x8A, key, payload)
    ensures |wire| == 6 + |payload| && wire[0] == 0x8A && wire[1] == 128 + |payload| && wire[2..6] == key
    ensures forall i :: 0 <= i < |payload| ==> IsExclusiveOr(wire[6 + i], payload[i], key[i % 4])
  {
    hide IsExclusiveOr;
    assert forall i :: 0 <= i < |payload| ==> wire[6..][i] == wire[6 + i];
  }
}
