/** The gzip container of RFC 1952 and the code that writes and walks it. Deflate and inflate
    themselves are parameters. */
module Gzip {
  import opened Bytes
  import Crc32

  const MIN_OUTPUT := 4096
  const FLAG_HCRC := 0x02
  const FLAG_EXTRA := 0x04
  const FLAG_NAME := 0x08
  const FLAG_COMMENT := 0x10

  // ---- The format: sections 2.3 and 2.3.1 ----

  /** The variable part of a member's header. Names and comments are NUL-terminated in the file. */
  datatype Header = Header(text: bool, extra: Option<seq<byte>>, name: Option<seq<byte>>, comment: Option<seq<byte>>,
                           hcrc: Option<seq<byte>>, mtime: nat, xfl: byte, os: byte)
  {
    predicate Valid() {
      && (extra.Some? ==> |extra.value| < 0x1_0000)
      && (name.Some? ==> 0 !in name.value)
      && (comment.Some? ==> 0 !in comment.value)
      && (hcrc.Some? ==> |hcrc.value| == 2)
    }

    function Flags(): byte {
      (if text then 1 else 0) + (if hcrc.Some? then 2 else 0) + (if extra.Some? then 4 else 0)
      + (if name.Some? then 8 else 0) + (if comment.Some? then 16 else 0)
    }
  }

  function LittleEndianBytes(n: nat, width: nat): (r: seq<byte>)
    ensures |r| == width
  {
    if width == 0 then [] else [n % 256] + LittleEndianBytes(n / 256, width - 1)
  }

  function ExtraField(extra: Option<seq<byte>>): seq<byte> {
    if extra.Some? then LittleEndianBytes(|extra.value|, 2) + extra.value else []
  }

  function ZeroTerminated(text: Option<seq<byte>>): seq<byte> {
    if text.Some? then text.value + [0] else []
  }

  function FixedPart(h: Header): (r: seq<byte>)
    ensures |r| == 10
  {
    [0x1F, 0x8B, 0x08, h.Flags()] + LittleEndianBytes(h.mtime, 4) + [h.xfl, h.os]
  }

  function HeaderBytes(h: Header): seq<byte> {
    FixedPart(h) + ExtraField(h.extra) + ZeroTerminated(h.name) + ZeroTerminated(h.comment)
    + (if h.hcrc.Some? then h.hcrc.value else [])
  }

  function AsBits(data: seq<byte>): seq<bv8> {
    seq(|data|, i requires 0 <= i < |data| => data[i] as bv8)
  }

  function Checksum(data: seq<byte>): (r: nat)
    ensures r < 0x1_0000_0000
  {
    Crc32.Crc(AsBits(data)) as int
  }

  function Trailer(data: seq<byte>): (r: seq<byte>)
    ensures |r| == 8
  {
    LittleEndianBytes(Checksum(data), 4) + LittleEndianBytes(|data| % 0x1_0000_0000, 4)
  }

  lemma {:induction false} LittleEndianRoundTrip(n: nat, width: nat)
    ensures n < Power256(width) ==> LittleEndian(LittleEndianBytes(n, width)) == n
  {
    if width > 0 {
      LittleEndianRoundTrip(n / 256, width - 1);
      assert LittleEndianBytes(n, width)[1..] == LittleEndianBytes(n / 256, width - 1);
    }
  }

  /** A member with the compressed form `z` of `data`. */
  function Member(h: Header, z: seq<byte>, data: seq<byte>): seq<byte> {
    HeaderBytes(h) + z + Trailer(data)
  }

  /** A member ends with the CRC-32 and the length of the data, modulo 2^32, lowest byte first. */
  lemma MemberEnds(h: Header, z: seq<byte>, data: seq<byte>)
    ensures var m := Member(h, z, data); var n := |m|;
            n >= 8 && LittleEndian(m[n - 8..n - 4]) == Checksum(data)
            && LittleEndian(m[n - 4..]) == |data| % 0x1_0000_0000
  {
    hide HeaderBytes, Checksum, LittleEndianBytes, LittleEndian;
    var m, n := Member(h, z, data), |Member(h, z, data)|;
    assert m == (HeaderBytes(h) + z)
                + (LittleEndianBytes(Checksum(data), 4) + LittleEndianBytes(|data| % 0x1_0000_0000, 4));
    assert m[n - 8..n - 4] == LittleEndianBytes(Checksum(data), 4);
    assert m[n - 4..] == LittleEndianBytes(|data| % 0x1_0000_0000, 4);
    WidthBounds();
    LittleEndianRoundTrip(Checksum(data), 4);
    LittleEndianRoundTrip(|data| % 0x1_0000_0000, 4);
  }

  // ---- gzip_compress ----

  const BRACES: seq<byte> := [0x7B, 0x7D]
  const BRACES_DEFLATED: seq<byte> := [0xAB, 0xAE, 0x05, 0x00]

  function PlainHeader(mtime: nat): Header {
    Header(false, None, None, None, None, mtime, 0x02, 0xFF)
  }

  function DeflateBound(len: nat): nat {
    len + len / 1000 + 256
  }

  /** The deflate stream gzip_compress puts into the member: a precomputed one for `{}`. */
  function Deflated(data: seq<byte>, deflate: seq<byte> -> Option<seq<byte>>): Option<seq<byte>> {
    if data == BRACES then Some(BRACES_DEFLATED)
    else
      match deflate(data)
      case None => None
      case Some(z) => if |z| <= DeflateBound(|data|) then Some(z) else None
  }

  lemma FourBytes(n: nat)
    ensures LittleEndianBytes(n, 4) == [n % 256, n / 256 % 256, n / 0x1_0000 % 256, n / 0x100_0000 % 256]
  {
    var n1, n2, n3 := n / 256, n / 0x1_0000, n / 0x100_0000;
    assert n1 / 256 == n2 && n2 / 256 == n3;
    assert LittleEndianBytes(n3, 1) == [n3 % 256];
    assert LittleEndianBytes(n2, 2) == [n2 % 256] + LittleEndianBytes(n3, 1);
    assert LittleEndianBytes(n1, 3) == [n1 % 256] + LittleEndianBytes(n2, 2);
  }

  lemma BracesTrailer()
    ensures Trailer(BRACES) == [0x43, 0xBF, 0xA6, 0xA3, 0x02, 0x00, 0x00, 0x00]
  {
    hide Checksum, LittleEndianBytes;
    BracesChecksum();
    FourBytes(0xA3A6_BF43);
    FourBytes(2);
  }

  lemma BracesChecksum()
    ensures Checksum(BRACES) == 0xA3A6_BF43
  {
    hide Crc32.Crc, AsBits;
    Crc32.CrcOfBraces();
    BracesAsBits();
  }

  lemma BracesAsBits()
    ensures AsBits(BRACES) == [0x7B, 0x7D]
  {
    var s := AsBits(BRACES);
    assert s[0] == 0x7B;
    assert s[1] == 0x7D;
  }

  // four bytes of a uint32_t, lowest first
  method PutWord(out: array<byte>, pos: nat, n: nat)
    requires pos + 4 <= out.Length
    modifies out
    ensures out[..pos + 4] == old(out[..pos]) + LittleEndianBytes(n, 4)
  {
    FourBytes(n);
    ghost var before := out[..pos];
    out[pos] := n % 256;
    out[pos + 1] := n / 256 % 256;
    out[pos + 2] := n / 0x1_0000 % 256;
    out[pos + 3] := n / 0x100_0000 % 256;
    assert out[..pos + 4] == before + [n % 256, n / 256 % 256, n / 0x1_0000 % 256, n / 0x100_0000 % 256];
  }

  // ---- Deflate blocks with fixed Huffman codes, as far as literals go: sections 3.1.1 and 3.2.6 of RFC 1951 ----

  /** The bits of a byte, lowest first. */
  function LowFirst(b: byte): (r: seq<bool>)
    ensures |r| == 8
  {
    [b % 2 == 1, b / 2 % 2 == 1, b / 4 % 2 == 1, b / 8 % 2 == 1,
     b / 16 % 2 == 1, b / 32 % 2 == 1, b / 64 % 2 == 1, b / 128 % 2 == 1]
  }

  function StreamBits(z: seq<byte>): seq<bool> {
    if z == [] then [] else LowFirst(z[0]) + StreamBits(z[1..])
  }

  /** A Huffman code, highest bit first. */
  function Code(bits: seq<bool>): nat {
    if bits == [] then 0 else Code(bits[..|bits| - 1]) * 2 + if bits[|bits| - 1] then 1 else 0
  }

  /** Literals up to the end of the block: seven clear bits end it, and the eight-bit codes from 0x30 to 0xBF are the
      bytes up to 143; nothing else is decoded here. */
  function FixedLiterals(bits: seq<bool>): Option<seq<byte>> {
    if |bits| >= 7 && Code(bits[..7]) == 0 then Some([])
    else if |bits| < 8 || !(0x30 <= Code(bits[..8]) <= 0xBF) then None
    else
      match FixedLiterals(bits[8..])
      case None => None
      case Some(rest) => Some([Code(bits[..8]) - 0x30] + rest)
  }

  /** A stream of one block, the final one, with fixed codes. */
  function FixedBlock(z: seq<byte>): Option<seq<byte>> {
    var bits := StreamBits(z);
    if |bits| >= 3 && bits[0] && bits[1] && !bits[2] then FixedLiterals(bits[3..]) else None
  }

  lemma CodeOf8(b: seq<bool>)
    requires |b| == 8
    ensures Code(b) == (if b[0] then 128 else 0) + (if b[1] then 64 else 0) + (if b[2] then 32 else 0)
                       + (if b[3] then 16 else 0) + (if b[4] then 8 else 0) + (if b[5] then 4 else 0)
                       + (if b[6] then 2 else 0) + (if b[7] then 1 else 0)
  {
    CodeOf7(b[..7]);
  }

  lemma CodeOf7(b: seq<bool>)
    requires |b| == 7
    ensures Code(b) == (if b[0] then 64 else 0) + (if b[1] then 32 else 0) + (if b[2] then 16 else 0)
                       + (if b[3] then 8 else 0) + (if b[4] then 4 else 0) + (if b[5] then 2 else 0)
                       + (if b[6] then 1 else 0)
  {
    assert b[..6][..5] == b[..5] && b[..5][..4] == b[..4] && b[..4][..3] == b[..3] && b[..3][..2] == b[..2];
    assert b[..2][..1] == b[..1] && b[..1][..0] == [];
    assert Code(b[..1]) == if b[0] then 1 else 0;
    assert Code(b[..2]) == Code(b[..1]) * 2 + if b[1] then 1 else 0;
    assert Code(b[..3]) == Code(b[..2]) * 2 + if b[2] then 1 else 0;
    assert Code(b[..4]) == Code(b[..3]) * 2 + if b[3] then 1 else 0;
    assert Code(b[..5]) == Code(b[..4]) * 2 + if b[4] then 1 else 0;
    assert Code(b[..6]) == Code(b[..5]) * 2 + if b[5] then 1 else 0;
  }

  lemma EndOfBlock(bits: seq<bool>)
    requires |bits| >= 7 && forall i :: 0 <= i < 7 ==> !bits[i]
    ensures FixedLiterals(bits) == Some([])
  {
    CodeOf7(bits[..7]);
  }

  lemma OneLiteral(bits: seq<bool>, c: byte)
    requires |bits| >= 8 && bits[0] && Code(bits[..8]) == 0x30 + c <= 0xBF && FixedLiterals(bits[8..]).Some?
    ensures FixedLiterals(bits) == Some([c] + FixedLiterals(bits[8..]).value)
  {
    CodeOf7(bits[..7]);
  }

  /** The precomputed stream is `{}`. */
  lemma BracesDeflated()
    ensures FixedBlock(BRACES_DEFLATED) == Some([0x7B, 0x7D])
  {
    hide FixedLiterals, Code;
    var z := BRACES_DEFLATED;
    var bits := LowFirst(z[0]) + (LowFirst(z[1]) + (LowFirst(z[2]) + LowFirst(z[3])));
    assert z[1..] == [0xAE, 0x05, 0x00] && z[1..][1..] == [0x05, 0x00] && z[1..][1..][1..] == [0x00];
    assert StreamBits([0x00]) == LowFirst(0x00) + [];
    assert StreamBits(z) == bits;
    var b := bits[3..];
    assert b[8..][8..] == b[16..];
    EndOfBlock(b[16..]);
    assert b[8..][..8] == [true, false, true, false, true, true, false, true];
    CodeOf8(b[8..][..8]);
    assert Code(b[8..][..8]) == 0xAD;
    OneLiteral(b[8..], 0x7D);
    assert b[..8] == [true, false, true, false, true, false, true, true];
    CodeOf8(b[..8]);
    assert Code(b[..8]) == 0xAB;
    OneLiteral(b, 0x7B);
    assert [0x7B as byte] + ([0x7D] + []) == [0x7B, 0x7D];
  }

  // the special case of gzip_compress
  method CompressBraces(mtime: nat) returns (out: array<byte>)
    ensures fresh(out) && out.Length == 22 && out[..] == Member(PlainHeader(mtime), BRACES_DEFLATED, BRACES)
    ensures FixedBlock(out[10..14]) == Some([0x7B, 0x7D])
  {
    hide Trailer, HeaderBytes;
    out := new byte[22];
    PutPlainHeader(out, mtime);
    Put(out, 10, BRACES_DEFLATED);
    Put(out, 14, [0x43, 0xBF, 0xA6, 0xA3, 0x02, 0x00, 0x00, 0x00]);
    BracesTrailer();
    assert out[..] == out[..22];
    assert out[10..14] == BRACES_DEFLATED;
    BracesDeflated();
    hide FixedBlock;
  }

  // the ten header bytes of gzip_compress
  method PutPlainHeader(out: array<byte>, mtime: nat)
    requires out.Length >= 10
    modifies out
    ensures out[..10] == HeaderBytes(PlainHeader(mtime))
  {
    hide LittleEndianBytes;
    Put(out, 0, [0x1F, 0x8B, 0x08, 0x00]);
    PutWord(out, 4, mtime);
    Put(out, 8, [0x02, 0xFF]);
    PlainHeaderBytes(mtime);
  }

  // the eight trailer bytes of gzip_compress
  method PutTrailer(out: array<byte>, pos: nat, data: seq<byte>)
    requires pos + 8 <= out.Length
    modifies out
    ensures out[..pos + 8] == old(out[..pos]) + Trailer(data)
  {
    hide Checksum, LittleEndianBytes;
    PutWord(out, pos, Checksum(data));
    PutWord(out, pos + 4, |data| % 0x1_0000_0000);
  }

  lemma PlainHeaderBytes(mtime: nat)
    ensures HeaderBytes(PlainHeader(mtime)) == [0x1F, 0x8B, 0x08, 0x00] + LittleEndianBytes(mtime, 4) + [0x02, 0xFF]
  {
  }

  // gzip_compress; the clock and the deflater are parameters, and `noMemory` says that one of the allocations fails
  method Compress(data: array<byte>, len: nat, mtime: nat, deflate: seq<byte> -> Option<seq<byte>>, noMemory: bool)
    returns (out: array?<byte>, outLen: nat)
    requires len <= data.Length
    ensures var s := data[..len];
            out == null <==>
            noMemory || (s != [0x7B, 0x7D] && (deflate(s).None? || |deflate(s).value| > len + len / 1000 + 256))
    ensures out != null ==> fresh(out) && outLen <= out.Length
                            && out[..outLen] ==
                               Member(PlainHeader(mtime), Deflated(data[..len], deflate).value, data[..len])
  {
    hide HeaderBytes, Trailer;
    if len == 2 && data[0] == 0x7B && data[1] == 0x7D {
      assert data[..len] == BRACES;
      if noMemory {
        return null, 0;
      }
      out := CompressBraces(mtime);
      return out, 22;
    }
    var bound := len + len / 1000 + 256;
    if noMemory {
      return null, 0;
    }
    var z := deflate(data[..len]);
    if z.None? || |z.value| > bound {
      return null, 0;
    }
    var buffer := new byte[10 + bound + 8];
    PutPlainHeader(buffer, mtime);
    Put(buffer, 10, z.value);
    var pos := 10 + |z.value|;
    PutTrailer(buffer, pos, data[..len]);
    return buffer, pos + 8;
  }

  // ---- The header walk of gzip_decompress ----

  /** The position behind the next NUL at or behind `i`. */
  function PastNul(s: seq<byte>, i: nat): nat
    decreases |s| - i
  {
    if i < |s| && s[i] != 0 then PastNul(s, i + 1) else i + 1
  }

  predicate HasFlag(flags: byte, flag: nat)
    requires flag > 0
  {
    flags / flag % 2 == 1
  }

  /** Behind the extra field, if there is room for its length. */
  function PastExtra(s: seq<byte>, flags: byte): Option<nat> {
    if !HasFlag(flags, FLAG_EXTRA) then Some(10)
    else if |s| < 12 then None
    else Some(12 + (s[10] as int + 256 * s[11] as int))
  }

  function PastText(s: seq<byte>, flags: byte, flag: nat, i: nat): nat
    requires flag > 0
  {
    if HasFlag(flags, flag) then PastNul(s, i) else i
  }

  function PastHcrc(flags: byte, i: nat): nat {
    if HasFlag(flags, FLAG_HCRC) then i + 2 else i
  }

  /** Where the deflate stream starts, if the walk gets that far. */
  function DeflateStart(s: seq<byte>): Option<nat> {
    if |s| < 10 || s[0] != 0x1F || s[1] != 0x8B then None
    else
      match PastExtra(s, s[3])
      case None => None
      case Some(extra) =>
        var start := PastHcrc(s[3], PastText(s, s[3], FLAG_COMMENT, PastText(s, s[3], FLAG_NAME, extra)));
        if start >= |s| then None else Some(start)
  }

  /** The bytes handed to inflate: without the trailer, unless nothing would be left. The length is
      computed in a size_t and compared as an int. */
  function Slice(s: seq<byte>, start: nat): seq<byte>
    requires start <= |s|
  {
    var len := |s| - start - 8;
    if 0 < len < 0x8000_0000 then s[start..start + len] else s[start..]
  }

  function DeflateSlice(s: seq<byte>): Option<seq<byte>> {
    match DeflateStart(s)
    case None => None
    case Some(start) => Some(Slice(s, start))
  }

  // the loops over the name and the comment
  method SkipText(data: array<byte>, len: nat, flags: byte, flag: nat, start: nat) returns (offset: nat)
    requires len <= data.Length && flag > 0
    ensures offset == PastText(data[..len], flags, flag, start)
  {
    offset := start;
    if flags / flag % 2 == 1 {
      while offset < len && data[offset] != 0
        invariant PastNul(data[..len], offset) == PastNul(data[..len], start)
        decreases len - offset
      {
        offset := offset + 1;
      }
      offset := offset + 1;
    }
  }

  // the header walk of gzip_decompress
  method Walk(data: array<byte>, len: nat) returns (r: Option<nat>)
    requires len <= data.Length
    ensures r == DeflateStart(data[..len])
  {
    hide PastNul, PastText;
    if len < 10 || data[0] != 0x1F || data[1] != 0x8B {
      return None;
    }
    var flags := data[3];
    assert flags == data[..len][3];
    var offset := 10;
    if flags / FLAG_EXTRA % 2 == 1 {
      if offset + 2 > len {
        return None;
      }
      var xlen := data[offset] as int + 256 * data[offset + 1] as int;
      offset := offset + 2 + xlen;
    }
    assert PastExtra(data[..len], flags) == Some(offset);
    offset := SkipText(data, len, flags, FLAG_NAME, offset);
    offset := SkipText(data, len, flags, FLAG_COMMENT, offset);
    if flags / FLAG_HCRC % 2 == 1 {
      offset := offset + 2;
    }
    return if offset >= len then None else Some(offset);
  }

  // gzip_decompress: the output buffer is eight times the input, at least 4096 bytes; inflate is tried
  // with a zlib header first and without one then
  method Decompress(data: array<byte>, len: nat, inflate: (seq<byte>, nat, bool) -> Option<seq<byte>>, noMemory: bool)
    returns (out: Option<seq<byte>>)
    requires len <= data.Length
    ensures out == if noMemory then None else Decompressed(data[..len], inflate)
  {
    hide DeflateStart;
    var start := Walk(data, len);
    if start.None? {
      return None;
    }
    var offset := start.value;
    assert offset <= len by { StartInside(data[..len]); }
    var deflateLen := len - offset - 8;
    if deflateLen <= 0 || deflateLen >= 0x8000_0000 {
      deflateLen := len - offset;
    }
    assert data[offset..offset + deflateLen] == Slice(data[..len], offset);
    var size := len * 8 % 0x1_0000_0000;
    if size < MIN_OUTPUT {
      size := MIN_OUTPUT;
    }
    if noMemory {
      return None;
    }
    out := inflate(data[offset..offset + deflateLen], size, true);
    if out.None? {
      out := inflate(data[offset..offset + deflateLen], size, false);
    }
  }

  /** A size_t of the device has 32 bits. */
  function OutputSize(len: nat): nat {
    var size := len * 8 % 0x1_0000_0000;
    if size < MIN_OUTPUT then MIN_OUTPUT else size
  }

  function Decompressed(s: seq<byte>, inflate: (seq<byte>, nat, bool) -> Option<seq<byte>>): Option<seq<byte>> {
    match DeflateSlice(s)
    case None => None
    case Some(z) =>
      var zlib := inflate(z, OutputSize(|s|), true);
      if zlib.Some? then zlib else inflate(z, OutputSize(|s|), false)
  }

  lemma StartInside(s: seq<byte>)
    ensures DeflateStart(s).Some? ==> DeflateStart(s).value < |s|
  {
  }

  // ---- What the walk finds ----

  lemma {:induction false} PastNulFinds(a: seq<byte>, text: seq<byte>, b: seq<byte>)
    requires 0 !in text
    ensures PastNul(a + (text + [0]) + b, |a|) == |a| + |text| + 1
    decreases |text|
  {
    var s := a + (text + [0]) + b;
    if text == [] {
      assert s[|a|] == 0;
    } else {
      assert s[|a|] == text[0];
      assert s == (a + [text[0]]) + (text[1..] + [0]) + b;
      PastNulFinds(a + [text[0]], text[1..], b);
    }
  }

  lemma FlagsReadBack(h: Header)
    ensures HasFlag(h.Flags(), FLAG_HCRC) == h.hcrc.Some? && HasFlag(h.Flags(), FLAG_EXTRA) == h.extra.Some?
    ensures HasFlag(h.Flags(), FLAG_NAME) == h.name.Some? && HasFlag(h.Flags(), FLAG_COMMENT) == h.comment.Some?
  {
  }

  lemma TextField(a: seq<byte>, text: Option<seq<byte>>, b: seq<byte>, flags: byte, flag: nat)
    requires flag > 0 && HasFlag(flags, flag) == text.Some? && (text.Some? ==> 0 !in text.value)
    ensures PastText(a + ZeroTerminated(text) + b, flags, flag, |a|) == |a + ZeroTerminated(text)|
  {
    if text.Some? {
      PastNulFinds(a, text.value, b);
    }
  }

  /** The walk ends exactly behind the header, whatever optional fields there are. */
  lemma WalkFindsStart(h: Header, rest: seq<byte>)
    requires h.Valid() && rest != []
    ensures DeflateStart(HeaderBytes(h) + rest) == Some(|HeaderBytes(h)|)
  {
    hide PastText, ZeroTerminated, HasFlag, PastExtra, ExtraField, FixedPart;
    var s := HeaderBytes(h) + rest;
    var fixed, extra := FixedPart(h), ExtraField(h.extra);
    var name, comment := ZeroTerminated(h.name), ZeroTerminated(h.comment);
    var hcrc: seq<byte> := if h.hcrc.Some? then h.hcrc.value else [];
    var flags := h.Flags();
    FlagsReadBack(h);
    assert s[0] == 0x1F && s[1] == 0x8B && s[3] == flags by {
      assert s == fixed + (extra + name + comment + hcrc + rest);
      FixedPartFields(h, extra + name + comment + hcrc + rest);
    }
    assert PastExtra(s, flags) == Some(|fixed + extra|) by {
      assert s == fixed + extra + (name + comment + hcrc + rest);
      ExtraSkipped(h, name + comment + hcrc + rest);
    }
    assert PastText(s, flags, FLAG_NAME, |fixed + extra|) == |fixed + extra + name| by {
      assert s == (fixed + extra) + name + (comment + hcrc + rest);
      TextField(fixed + extra, h.name, comment + hcrc + rest, flags, FLAG_NAME);
    }
    assert PastText(s, flags, FLAG_COMMENT, |fixed + extra + name|) == |fixed + extra + name + comment| by {
      assert s == (fixed + extra + name) + comment + (hcrc + rest);
      TextField(fixed + extra + name, h.comment, hcrc + rest, flags, FLAG_COMMENT);
    }
  }

  /** `t` is a prefix of `s`: a walk over `t` stands where the one over `s` does, or not within `t` any more. */
  predicate SameOrOut(t: seq<byte>, there: nat, here: nat) {
    here == there || here >= |t|
  }

  lemma {:induction false} PastNulCut(s: seq<byte>, t: seq<byte>, i: nat)
    requires t <= s
    ensures SameOrOut(t, PastNul(s, i), PastNul(t, i)) && PastNul(t, i) > i
    decreases |t| - i
  {
    if i < |t| && t[i] != 0 {
      PastNulCut(s, t, i + 1);
    }
  }

  lemma {:induction false} PastNulMoves(s: seq<byte>, i: nat)
    ensures PastNul(s, i) > i
    decreases |s| - i
  {
    if i < |s| && s[i] != 0 {
      PastNulMoves(s, i + 1);
    }
  }

  lemma PastTextCut(s: seq<byte>, t: seq<byte>, flags: byte, flag: nat, there: nat, here: nat)
    requires t <= s && flag > 0 && SameOrOut(t, there, here)
    ensures SameOrOut(t, PastText(s, flags, flag, there), PastText(t, flags, flag, here))
  {
    hide HasFlag, PastNul;
    PastNulCut(s, t, here);
    PastNulMoves(s, there);
  }

  /** A header that is cut short, or has nothing behind it, is refused. */
  lemma CutShort(h: Header, k: nat)
    requires h.Valid() && k <= |HeaderBytes(h)|
    ensures DeflateStart(HeaderBytes(h)[..k]) == None
  {
    hide PastText, HasFlag, Header.Flags, HeaderBytes;
    var s := HeaderBytes(h) + [0];
    var t := HeaderBytes(h)[..k];
    WalkFindsStart(h, [0]);
    assert t <= s;
    if k >= 10 && PastExtra(t, t[3]).Some? {
      var there, here := PastExtra(s, s[3]).value, PastExtra(t, t[3]).value;
      PastTextCut(s, t, s[3], FLAG_NAME, there, here);
      there, here := PastText(s, s[3], FLAG_NAME, there), PastText(t, s[3], FLAG_NAME, here);
      PastTextCut(s, t, s[3], FLAG_COMMENT, there, here);
    }
  }

  /** So is everything that does not start with the two bytes of gzip. */
  lemma NotGzip(s: seq<byte>, inflate: (seq<byte>, nat, bool) -> Option<seq<byte>>)
    requires |s| < 10 || s[0] != 0x1F || s[1] != 0x8B
    ensures Decompressed(s, inflate) == None
  {
  }

  lemma FixedPartFields(h: Header, tail: seq<byte>)
    ensures var s := FixedPart(h) + tail; s[0] == 0x1F && s[1] == 0x8B && s[3] == h.Flags()
  {
  }

  lemma ExtraSkipped(h: Header, tail: seq<byte>)
    requires h.Valid() && HasFlag(h.Flags(), FLAG_EXTRA) == h.extra.Some?
    ensures PastExtra(FixedPart(h) + ExtraField(h.extra) + tail, h.Flags())
            == Some(|FixedPart(h) + ExtraField(h.extra)|)
  {
    if h.extra.Some? {
      var s := FixedPart(h) + ExtraField(h.extra) + tail;
      var n := |h.extra.value|;
      assert LittleEndianBytes(n, 2) == [n % 256] + ([n / 256 % 256] + []);
      assert s[10] == n % 256 && s[11] == n / 256 % 256;
    }
  }

  /** The slice handed to inflate is exactly the deflate stream of a well-formed member, as long as
      that is neither empty nor two gigabytes long; and in no other case. */
  lemma SliceIsDeflateStream(h: Header, z: seq<byte>, data: seq<byte>)
    requires h.Valid()
    ensures DeflateSlice(Member(h, z, data)) == Some(z) <==> 0 < |z| < 0x8000_0000
  {
    var s, start := Member(h, z, data), |HeaderBytes(h)|;
    assert s == HeaderBytes(h) + (z + Trailer(data));
    WalkFindsStart(h, z + Trailer(data));
    assert s[start..] == z + Trailer(data);
    if 0 < |z| < 0x8000_0000 {
      assert s[start..start + |z|] == z;
    }
  }

  /** Any other eight bytes in place of the trailer make no difference, unless the trailer is taken for deflate data. */
  lemma TrailerIgnored(h: Header, z: seq<byte>, data: seq<byte>, trailer: seq<byte>)
    requires h.Valid() && |trailer| == 8
    ensures DeflateSlice(HeaderBytes(h) + z + trailer) == DeflateSlice(Member(h, z, data))
            <==> 0 < |z| < 0x8000_0000 || trailer == Trailer(data)
  {
    hide HeaderBytes, Trailer;
    SliceOf(h, z, trailer);
    SliceOf(h, z, Trailer(data));
    if !(0 < |z| < 0x8000_0000) && z + trailer == z + Trailer(data) {
      assert trailer == (z + trailer)[|z|..] && Trailer(data) == (z + Trailer(data))[|z|..];
    }
  }

  lemma SliceOf(h: Header, z: seq<byte>, trailer: seq<byte>)
    requires h.Valid() && |trailer| == 8
    ensures DeflateSlice(HeaderBytes(h) + z + trailer) == Some(if 0 < |z| < 0x8000_0000 then z else z + trailer)
  {
    var s, start := HeaderBytes(h) + z + trailer, |HeaderBytes(h)|;
    assert s == HeaderBytes(h) + (z + trailer);
    WalkFindsStart(h, z + trailer);
    assert s[start..] == z + trailer;
    if 0 < |z| < 0x8000_0000 {
      assert s[start..start + |z|] == z;
    }
  }

  /** So neither the checksum nor the length in the trailer is looked at. */
  lemma TrailerUnchecked(h: Header, z: seq<byte>, data: seq<byte>, trailer: seq<byte>,
                         inflate: (seq<byte>, nat, bool) -> Option<seq<byte>>)
    requires h.Valid() && |trailer| == 8 && 0 < |z| < 0x8000_0000
    ensures Decompressed(HeaderBytes(h) + z + trailer, inflate) == Decompressed(Member(h, z, data), inflate)
  {
    hide HeaderBytes, Trailer, DeflateSlice;
    TrailerIgnored(h, z, data, trailer);
  }

  /** What the code relies on: `z` is a deflate stream of `data`, raw, and not taken for a zlib stream of
      something else; inflate delivers what fits its output buffer. */
  ghost predicate Inflates(inflate: (seq<byte>, nat, bool) -> Option<seq<byte>>, z: seq<byte>, data: seq<byte>) {
    0 < |z| < 0x8000_0000 &&
    forall size: nat :: (inflate(z, size, true).None? || (inflate(z, size, true) == Some(data) && |data| <= size))
                        && inflate(z, size, false) == (if |data| <= size then Some(data) else None)
  }

  /** Round trip: the data comes back if and only if it fits the output buffer, which is eight times as long as the
      member, modulo 2^32, and at least 4096 bytes. */
  lemma RoundTrip(h: Header, z: seq<byte>, data: seq<byte>, inflate: (seq<byte>, nat, bool) -> Option<seq<byte>>)
    requires h.Valid() && Inflates(inflate, z, data)
    ensures var m := Member(h, z, data);
            var size := |m| * 8 % 0x1_0000_0000;
            Decompressed(m, inflate) == (if |data| <= size || |data| <= 4096 then Some(data) else None)
  {
    hide Member;
    SliceIsDeflateStream(h, z, data);
  }
}
