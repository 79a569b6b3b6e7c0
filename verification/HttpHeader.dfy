/** Where an HTTP response header ends, and what the C string search sees of a buffer. */
module HttpHeader {
  import opened Bytes

  predicate DelimiterAt(s: seq<byte>, i: nat) {
    i + 4 <= |s| && s[i] == 13 && s[i + 1] == 10 && s[i + 2] == 13 && s[i + 3] == 10
  }

  /** The position of the first CRLFCRLF. */
  function FirstDelimiter(s: seq<byte>): (r: Option<nat>)
    ensures r.Some? ==> r.value + 4 <= |s|
  {
    if |s| < 4 then None
    else if DelimiterAt(s, 0) then Some(0)
    else
      match FirstDelimiter(s[1..])
      case None => None
      case Some(k) => Some(k + 1)
  }

  lemma {:induction false} FirstDelimiterMeaning(s: seq<byte>)
    ensures match FirstDelimiter(s)
            case None => forall i: nat :: !DelimiterAt(s, i)
            case Some(k) => DelimiterAt(s, k) && forall i: nat :: i < k ==> !DelimiterAt(s, i)
  {
    if |s| >= 4 && !DelimiterAt(s, 0) {
      FirstDelimiterMeaning(s[1..]);
      forall i: nat | i > 0 ensures DelimiterAt(s, i) == DelimiterAt(s[1..], i - 1) {
      }
    }
  }

  /** The bytes a C string function sees: those before the first NUL. */
  function CString(s: seq<byte>): (r: seq<byte>)
    ensures r <= s
  {
    if s == [] || s[0] == 0 then [] else [s[0]] + CString(s[1..])
  }

  /** strstr for the delimiter. */
  function Strstr(s: seq<byte>): Option<nat> {
    FirstDelimiter(CString(s))
  }

  lemma {:induction false} FirstDelimiterExtends(s: seq<byte>, t: seq<byte>)
    requires s <= t && FirstDelimiter(s).Some?
    ensures FirstDelimiter(t) == FirstDelimiter(s)
  {
    if !DelimiterAt(s, 0) {
      FirstDelimiterExtends(s[1..], t[1..]);
    }
  }

  /** A terminated prefix of a stream: a delimiter found in it is the first one of the stream. */
  lemma {:induction false} FoundInStream(s: seq<byte>, stream: seq<byte>)
    requires s <= stream && Strstr(s + [0]).Some?
    ensures FirstDelimiter(stream) == Strstr(s + [0]) && Strstr(s + [0]).value + 4 <= |s|
  {
    CStringOfTerminated(s);
    FirstDelimiterExtends(CString(s + [0]), stream);
  }

  lemma {:induction false} CStringOfTerminated(s: seq<byte>)
    ensures CString(s + [0]) <= s
  {
    if s != [] {
      assert (s + [0])[1..] == s[1..] + [0];
      CStringOfTerminated(s[1..]);
    }
  }
}
