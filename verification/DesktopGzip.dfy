/** The desktop client's gzip_decompress: inflate into a buffer that doubles whenever it is full. */
module DesktopGzip {
  import opened Bytes

  datatype Ret = StreamEnd | Ok | Failed

  /** zlib's inflate on one input: it makes `output` piece by piece, as much as fits, and then ends the stream
      if the input was complete and sound. The end may be seen `late`: only by the next call when the output just
      fitted. */
  class Inflater {
    const output: seq<byte>
    const sound: bool
    const late: bool
    var made: nat
    var starved: bool // the input is used up, and that was reported as progress

    ghost predicate Valid()
      reads this
    {
      made <= |output|
    }

    constructor (output: seq<byte>, sound: bool, late: bool)
      ensures Valid() && made == 0 && !starved && this.output == output && this.sound == sound && this.late == late
    {
      this.output, this.sound, this.late := output, sound, late;
      made, starved := 0, false;
    }

    ghost function Left(): nat
      reads this
      requires Valid()
    {
      |output| - made + if starved then 0 else 1
    }

    method Inflate(out: array<byte>, pos: nat, avail: nat) returns (ret: Ret, n: nat)
      requires Valid() && pos + avail <= out.Length
      modifies this`made, this`starved, out
      ensures Valid() && n <= avail && made == old(made) + n
      ensures out[pos..pos + n] == output[old(made)..made]
      ensures out[..pos] == old(out[..pos])
      ensures ret.StreamEnd? ==> sound && made == |output| && (n < avail || avail == 0 || !late)
      ensures ret.Ok? ==> Left() < old(Left())
      ensures ret.Ok? && sound ==> n == avail && (made < |output| || late)
      ensures ret.Failed? ==> !sound || avail == 0
    {
      n := if |output| - made <= avail then |output| - made else avail;
      forall i | 0 <= i < n {
        out[pos + i] := output[made + i];
      }
      assert out[pos..pos + n] == output[made..made + n];
      made := made + n;
      if made < |output| {
        ret := if n == 0 then Failed else Ok;
      } else if sound {
        ret := if n == avail && n > 0 && late then Ok else StreamEnd;
      } else {
        if n > 0 || !starved {
          ret := *;
          if !ret.Ok? {
            ret := Failed;
          }
          starved := true;
        } else {
          ret := Failed;
        }
      }
    }
  }

  // realloc to twice the size
  method Doubled(buf: array<byte>) returns (grown: array<byte>)
    ensures fresh(grown) && grown.Length == buf.Length * 2 && grown[..buf.Length] == buf[..]
  {
    grown := new byte[buf.Length * 2];
    forall i | 0 <= i < buf.Length {
      grown[i] := buf[i];
    }
  }

  // one call of inflate, which goes on with the output where the last one stopped
  method InflateMore(stream: Inflater, buf: array<byte>) returns (ret: Ret)
    requires stream.Valid() && stream.made <= buf.Length && buf[..stream.made] == stream.output[..stream.made]
    modifies stream`made, stream`starved, buf
    ensures stream.Valid() && stream.made <= buf.Length && buf[..stream.made] == stream.output[..stream.made]
    ensures ret.StreamEnd? ==> stream.sound && stream.made == |stream.output|
    ensures ret.StreamEnd? && old(stream.made) < buf.Length ==> Fits(buf.Length, |stream.output|, stream.late)
    ensures ret.Ok? ==> stream.Left() < old(stream.Left())
    ensures ret.Ok? && stream.sound ==> stream.made == buf.Length && !Fits(buf.Length, |stream.output|, stream.late)
    ensures ret.Failed? ==> !stream.sound || old(stream.made) == buf.Length
  {
    ghost var was := stream.made;
    var n;
    ret, n := stream.Inflate(buf, stream.made, buf.Length - stream.made);
    assert buf[..stream.made] == buf[..was] + buf[was..stream.made];
    assert stream.output[..stream.made] == stream.output[..was] + stream.output[was..stream.made];
  }

  /** The size of the first buffer. */
  function InitialSize(len: nat): nat {
    if len * 8 < 4096 then 4096 else len * 8
  }

  /** The loop returns the whole output, whatever its size, exactly if the input is sound, inflate could be set up and
      no size that has to be asked for exceeds what memory grants. The buffer is then as long as it has to be. */
  method DecompressGrowing(len: nat, stream: Inflater, limit: nat, ready: bool) returns (out: array?<byte>, n: nat)
    requires stream.Valid() && stream.made == 0
    modifies stream
    ensures out != null <==>
            stream.sound && ready
            && Needed(if len * 8 < 4096 then 4096 else len * 8, |stream.output|, stream.late) <= limit
    ensures out != null ==> fresh(out) && n <= out.Length && out[..n] == stream.output
    ensures out != null ==>
              out.Length == Needed(if len * 8 < 4096 then 4096 else len * 8, |stream.output|, stream.late)
  {
    hide Needed;
    n := 0;
    NeededAtLeast(InitialSize(len), |stream.output|, stream.late);
    if InitialSize(len) > limit || !ready {
      return null, 0;
    }
    var buf := new byte[InitialSize(len)];
    var ret := InflateMore(stream, buf);
    while !ret.StreamEnd?
      invariant stream.Valid() && fresh(buf) && 0 < buf.Length <= limit && stream.made <= buf.Length
      invariant buf[..stream.made] == stream.output[..stream.made]
      invariant ret.StreamEnd? ==> stream.sound && stream.made == |stream.output|
      invariant ret.StreamEnd? ==> Fits(buf.Length, |stream.output|, stream.late)
      invariant ret.Ok? && stream.sound ==> stream.made == buf.Length && !Fits(buf.Length, |stream.output|, stream.late)
      invariant ret.Failed? ==> !stream.sound
      invariant stream.sound ==> Needed(InitialSize(len), |stream.output|, stream.late)
                                 == Needed(buf.Length, |stream.output|, stream.late)
      decreases if ret.Ok? then 1 + stream.Left() else 0
    {
      if ret.Ok? && stream.made == buf.Length {
        NeededNext(buf.Length, |stream.output|, stream.late);
        NeededAtLeast(buf.Length * 2, |stream.output|, stream.late);
        if buf.Length * 2 > limit {
          return null, 0;
        }
        var grown := Doubled(buf);
        assert grown[..stream.made] == buf[..stream.made];
        buf := grown;
      } else if !ret.Ok? {
        return null, 0;
      }
      ret := InflateMore(stream, buf);
    }
    out, n := buf, stream.made;
    assert stream.output[..stream.made] == stream.output;
    NeededNext(buf.Length, |stream.output|, stream.late);
  }

  /** A buffer of `size` bytes is long enough for the output and for its end to be seen. */
  predicate Fits(size: nat, total: nat, late: bool) {
    total < size || (total == size && !late)
  }

  /** The first size that fits, doubling. */
  function Needed(size: nat, total: nat, late: bool): nat
    requires size > 0
    decreases if total + 1 > size then total + 1 - size else 0
  {
    if total < size || (total == size && !late) then size else Needed(size * 2, total, late)
  }

  lemma NeededNext(size: nat, total: nat, late: bool)
    requires size > 0
    ensures Needed(size, total, late) == if Fits(size, total, late) then size else Needed(size * 2, total, late)
  {
  }

  lemma {:induction false} NeededAtLeast(size: nat, total: nat, late: bool)
    requires size > 0
    ensures Needed(size, total, late) >= size
    decreases if total + 1 > size then total + 1 - size else 0
  {
    if !Fits(size, total, late) {
      NeededAtLeast(size * 2, total, late);
    }
  }

  /** The size that is needed is the smallest of the initial size doubled any number of times that fits, and less than
      twice the output unless the initial size is enough. */
  lemma {:induction false} NeededIsLeast(size: nat, total: nat, late: bool) returns (k: nat)
    requires size > 0
    ensures Needed(size, total, late) == size * Pow2(k)
    ensures total < size * Pow2(k) || (total == size * Pow2(k) && !late)
    ensures forall j: nat :: j < k ==> size * Pow2(j) < total || (size * Pow2(j) == total && late)
    ensures k > 0 ==> size * Pow2(k) <= 2 * total
    decreases if total + 1 > size then total + 1 - size else 0
  {
    if Fits(size, total, late) {
      k := 0;
    } else {
      var j := NeededIsLeast(size * 2, total, late);
      k := j + 1;
      forall i: nat | i < k ensures size * Pow2(i) < total || (size * Pow2(i) == total && late) {
        if i > 0 {
          Twice(size, i - 1);
        }
      }
      Twice(size, j);
    }
  }

  lemma Twice(size: nat, i: nat)
    ensures size * Pow2(i + 1) == size * 2 * Pow2(i)
  {
  }
}
