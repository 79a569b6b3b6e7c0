/** The text of the assistant's reply as the device shows it: contents are appended to a buffer of 1024
    characters, which is emptied when the reply id, kept in a buffer of 256, changes. */
module ReplyText {
  import opened Bytes
  import opened HttpHeader

  const TEXT_SIZE := 1024
  const ID_SIZE := 256

  /** A C string without its terminator. */
  predicate NoNul(s: seq<byte>) {
    forall i :: 0 <= i < |s| ==> s[i] != 0
  }

  /** Event 350, event 550, and the start or loss of a session; a missing field is None. */
  datatype Update = Text(text: seq<byte>) | Reply(id: Option<seq<byte>>, content: Option<seq<byte>>) | Reset

  predicate Valid(u: Update) {
    match u
    case Text(t) => NoNul(t)
    case Reply(id, content) => (id.Some? ==> NoNul(id.value)) && (content.Some? ==> NoNul(content.value))
    case Reset => true
  }

  datatype State = State(text: seq<byte>, last: seq<byte>)

  /** What fits into a buffer of `size` with its terminator. */
  function Cut(s: seq<byte>, size: nat): (r: seq<byte>)
    requires size > 0
    ensures r <= s
  {
    if |s| < size then s else s[..size - 1]
  }

  function AppendText(s: State, t: seq<byte>): State {
    s.(text := Cut(s.text + t, TEXT_SIZE))
  }

  function NewReply(s: State, id: seq<byte>): State {
    State(if s.last != [] && s.last != id then [] else s.text, Cut(id, ID_SIZE))
  }

  function Apply(s: State, u: Update): State {
    match u
    case Text(t) => AppendText(s, t)
    case Reply(id, content) =>
      var t := if id.Some? then NewReply(s, id.value) else s;
      if content.Some? then AppendText(t, content.value) else t
    case Reset => State([], [])
  }

  function Shown(us: seq<Update>): State {
    if us == [] then State([], []) else Apply(Shown(us[..|us| - 1]), us[|us| - 1])
  }

  // ------------------------------------------------------------------------------------------------
  // What it is meant to be: everything since the reply id last changed, with buffers of any size

  function WholeReply(s: State, id: seq<byte>): State {
    State(if s.last != [] && s.last != id then [] else s.text, id)
  }

  function Intend(s: State, u: Update): State {
    match u
    case Text(t) => s.(text := s.text + t)
    case Reply(id, content) =>
      var t := if id.Some? then WholeReply(s, id.value) else s;
      if content.Some? then t.(text := t.text + content.value) else t
    case Reset => State([], [])
  }

  function Intended(us: seq<Update>): State {
    if us == [] then State([], []) else Intend(Intended(us[..|us| - 1]), us[|us| - 1])
  }

  /** The last id was too long to be stored whole, and it comes again and is not recognized, or its stored part comes
      and is taken for it. */
  predicate Confuses(i: State, u: Update) {
    u.Reply? && u.id.Some? && |i.last| >= 256 && (u.id.value == i.last || u.id.value == i.last[..255])
  }

  predicate NeverConfused(us: seq<Update>) {
    us == [] || (NeverConfused(us[..|us| - 1]) && !Confuses(Intended(us[..|us| - 1]), us[|us| - 1]))
  }

  /** Cutting at every step is cutting once at the end. */
  lemma CutTwice(s: seq<byte>, t: seq<byte>, size: nat)
    requires size > 0
    ensures Cut(Cut(s, size) + t, size) == Cut(s + t, size)
  {
    if |s| >= size {
      assert (s[..size - 1] + t)[..size - 1] == (s + t)[..size - 1];
    }
  }

  /** In any history the last id is stored as far as it fits. */
  lemma {:induction false} StoredId(us: seq<Update>)
    ensures Shown(us).last == Cut(Intended(us).last, ID_SIZE)
  {
    hide Cut;
    CutFits([], ID_SIZE);
    if us != [] {
      StoredId(us[..|us| - 1]);
    }
  }

  /** In any history, as long as no id is confused, the display holds the intended text as far as it fits. */
  lemma {:induction false} ShowsReply(us: seq<Update>)
    requires NeverConfused(us)
    ensures Shown(us) == State(Cut(Intended(us).text, TEXT_SIZE), Cut(Intended(us).last, ID_SIZE))
    ensures Shown(us).text == if |Intended(us).text| < 1024 then Intended(us).text else Intended(us).text[..1023]
    ensures Shown(us).last == if |Intended(us).last| < 256 then Intended(us).last else Intended(us).last[..255]
  {
    CutMeans(Intended(us).text);
    CutMeans(Intended(us).last);
    hide Apply, Intend, Cut, Confuses;
    if us == [] {
      CutFits([], ID_SIZE);
      CutFits([], TEXT_SIZE);
    } else {
      var before := us[..|us| - 1];
      ShowsReply(before);
      ShowsStep(Shown(before), Intended(before), us[|us| - 1]);
    }
  }

  lemma CutMeans(s: seq<byte>)
    ensures Cut(s, TEXT_SIZE) == if |s| < 1024 then s else s[..1023]
    ensures Cut(s, ID_SIZE) == if |s| < 256 then s else s[..255]
  {
  }

  lemma ShowsStep(s: State, i: State, u: Update)
    requires s == State(Cut(i.text, TEXT_SIZE), Cut(i.last, ID_SIZE)) && !Confuses(i, u)
    ensures Apply(s, u) == State(Cut(Intend(i, u).text, TEXT_SIZE), Cut(Intend(i, u).last, ID_SIZE))
  {
    hide Cut;
    CutFits([], ID_SIZE);
    CutFits([], TEXT_SIZE);
    match u
    case Text(t) => CutTwice(i.text, t, TEXT_SIZE);
    case Reply(id, content) =>
      if id.Some? {
        DecidesAlike(i, u);
      }
      if content.Some? {
        CutTwice(if id.Some? then WholeReply(i, id.value).text else i.text, content.value, TEXT_SIZE);
      }
    case Reset =>
  }

  /** The test against the stored id decides as the test against the whole id would, exactly if none is confused. */
  lemma DecidesAlike(i: State, u: Update)
    requires u.Reply? && u.id.Some?
    ensures var stored := Cut(i.last, ID_SIZE);
            (stored != [] && stored != u.id.value) == (i.last != [] && i.last != u.id.value) <==> !Confuses(i, u)
  {
    if i.last != [] {
      DecidesRightly(i.last, u.id.value);
    }
  }

  lemma CutFits(s: seq<byte>, size: nat)
    requires |s| < size
    ensures Cut(s, size) == s
  {
  }

  /** The test against the stored id decides as the whole id would exactly if that id was stored whole, or
      the new one is neither the same nor its stored part. */
  lemma DecidesRightly(last: seq<byte>, id: seq<byte>)
    requires last != []
    ensures (Cut(last, ID_SIZE) != id) == (last != id) <==> |last| < 256 || (id != last && id != last[..255])
  {
  }

  /** Each time an id comes, the code decides as with buffers of any size. */
  predicate AlwaysDecides(us: seq<Update>) {
    us == [] ||
    var before, u := us[..|us| - 1], us[|us| - 1];
    AlwaysDecides(before) &&
    (u.Reply? && u.id.Some? ==>
       (Shown(before).last != [] && Shown(before).last != u.id.value)
       == (Intended(before).last != [] && Intended(before).last != u.id.value))
  }

  /** In any history the decisions are right throughout exactly if no id is confused. */
  lemma {:induction false} DecidesExactly(us: seq<Update>)
    ensures AlwaysDecides(us) <==> NeverConfused(us)
  {
    hide Shown, Intended, Cut, Confuses;
    if us != [] {
      var before, u := us[..|us| - 1], us[|us| - 1];
      DecidesExactly(before);
      StoredId(before);
      if u.Reply? && u.id.Some? {
        DecidesAlike(Intended(before), u);
      } else {
        NothingToConfuse(Intended(before), u);
      }
    }
  }

  lemma NothingToConfuse(i: State, u: Update)
    requires !(u.Reply? && u.id.Some?)
    ensures !Confuses(i, u)
  {
  }

  /** An id that does not fit is new every time: in any history, an update with such an id empties the text. */
  lemma LongIdForgets(us: seq<Update>, id: seq<byte>, content: seq<byte>)
    requires |id| >= 256 && Shown(us).last != []
    ensures Apply(Shown(us), Reply(Some(id), Some(content))).text ==
            if |content| < 1024 then content else content[..1023]
  {
    StoredId(us);
    assert [] + content == content;
  }

  /** Where a reply goes on under such an id, its beginning is lost. */
  lemma LongReplyLosesText(id: seq<byte>, first: seq<byte>, second: seq<byte>)
    requires |id| >= 256
    ensures Shown([Reply(Some(id), Some(first)), Reply(Some(id), Some(second))]).text ==
            if |second| < 1024 then second else second[..1023]
    ensures Intended([Reply(Some(id), Some(first)), Reply(Some(id), Some(second))]).text == first + second
  {
    var a, b := Reply(Some(id), Some(first)), Reply(Some(id), Some(second));
    assert [a, b][..1] == [a] && [a][..0] == [];
    assert [] + first == first && [] + second == second;
    assert Shown([a]) == Apply(Shown([]), a) && Shown([a, b]) == Apply(Shown([a]), b);
    assert Intended([a]) == Intend(Intended([]), a) && Intended([a, b]) == Intend(Intended([a]), b);
  }

  // ------------------------------------------------------------------------------------------------
  // The buffers

  lemma {:induction false} CStringIs(s: seq<byte>, k: nat)
    requires k < |s| && s[k] == 0 && NoNul(s[..k])
    ensures CString(s) == s[..k]
  {
    if k > 0 {
      assert s[0] == s[..k][0];
      assert s[1..][..k - 1] == s[..k][1..];
      CStringIs(s[1..], k - 1);
    }
  }

  // strlen
  method StrLen(a: array<byte>) returns (k: nat)
    requires 0 in a[..]
    ensures k < a.Length && a[k] == 0 && NoNul(a[..k]) && CString(a[..]) == a[..k]
  {
    k := 0;
    while a[k] != 0
      invariant k < a.Length && NoNul(a[..k])
      decreases a.Length - k
    {
      forall i | 0 <= i < k ensures a[i] != 0 {
        assert a[..k][i] != 0;
      }
      assert exists i :: k < i < a.Length && a[i] == 0;
      k := k + 1;
    }
    CStringIs(a[..], k);
    assert a[..][..k] == a[..k];
  }

  // memcpy to `pos` and a terminator
  method CopyString(a: array<byte>, pos: nat, s: seq<byte>)
    requires pos + |s| < a.Length && NoNul(s) && NoNul(a[..pos])
    modifies a
    ensures 0 in a[..] && CString(a[..]) == old(a[..pos]) + s
  {
    forall i | 0 <= i < |s| {
      a[pos + i] := s[i];
    }
    a[pos + |s|] := 0;
    assert a[..][..pos + |s|] == old(a[..pos]) + s;
    assert a[..][pos + |s|] == 0;
    CStringIs(a[..], pos + |s|);
  }

  class Display {
    const text: array<byte>
    const lastId: array<byte>

    ghost predicate Terminated()
      reads this, text, lastId
    {
      text != lastId && text.Length == TEXT_SIZE && lastId.Length == ID_SIZE && 0 in text[..] && 0 in lastId[..]
    }

    ghost function View(): State
      reads this, text, lastId
    {
      State(CString(text[..]), CString(lastId[..]))
    }

    constructor ()
      ensures Terminated() && View() == State([], []) && fresh(text) && fresh(lastId)
    {
      text := new byte[TEXT_SIZE](i => 0);
      lastId := new byte[ID_SIZE](i => 0);
      new;
      CStringIs(text[..], 0);
      CStringIs(lastId[..], 0);
      assert text[..][0] == 0 && lastId[..][0] == 0;
    }

    // the accumulation in case 350 and in case 550
    method Append(t: seq<byte>)
      requires Terminated() && NoNul(t)
      modifies text
      ensures Terminated() && View() == AppendText(old(View()), t)
    {
      var currentLen := StrLen(text);
      var available := TEXT_SIZE - 1 - currentLen;
      if |t| > 0 && available > 0 {
        var copyLen := if |t| < available then |t| else available;
        CopyString(text, currentLen, t[..copyLen]);
      }
    }

    // the reply id of case 550
    method OnReplyId(id: seq<byte>)
      requires Terminated() && NoNul(id)
      modifies text, lastId
      ensures Terminated() && View() == NewReply(old(View()), id)
    {
      var k := StrLen(lastId);
      if lastId[0] != 0 && lastId[..k] != id {
        CopyString(text, 0, []);
      }
      var copyLen := if |id| < ID_SIZE - 1 then |id| else ID_SIZE - 1;
      CopyString(lastId, 0, id[..copyLen]);
    }

    method Clear()
      requires Terminated()
      modifies text, lastId
      ensures Terminated() && View() == State([], [])
    {
      CopyString(text, 0, []);
      CopyString(lastId, 0, []);
    }

    // the cases 350 and 550 of on_ws_receive, and where a session starts or ends
    method OnUpdate(u: Update)
      requires Terminated() && Valid(u)
      modifies text, lastId
      ensures Terminated() && View() == Apply(old(View()), u)
    {
      match u
      case Text(t) => Append(t);
      case Reply(id, content) =>
        if id.Some? {
          OnReplyId(id.value);
        }
        if content.Some? {
          Append(content.value);
        }
      case Reset => Clear();
    }
  }

  /** The display over any history: it shows what the updates make of it, and the intended text as far as it fits as
      long as no id is confused. */
  method AnyRun(us: seq<Update>) returns (d: Display)
    requires forall i :: 0 <= i < |us| ==> Valid(us[i])
    ensures d.Terminated() && d.View() == Shown(us)
    ensures NeverConfused(us) ==>
              d.View().text == if |Intended(us).text| < 1024 then Intended(us).text else Intended(us).text[..1023]
  {
    hide Valid, Apply, Cut, NeverConfused, Intended, CString;
    d := new Display();
    var i := 0;
    assert us[..0] == [];
    while i < |us|
      invariant i <= |us| && fresh(d) && fresh(d.text) && fresh(d.lastId)
      invariant d.Terminated() && d.View() == Shown(us[..i])
    {
      assert us[..i + 1][..i] == us[..i];
      d.OnUpdate(us[i]);
      i := i + 1;
    }
    assert us[..i] == us;
    if NeverConfused(us) {
      ShowsReply(us);
    }
  }
}
