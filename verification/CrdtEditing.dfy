/** Edit messages at the collaboration server: from positions in the text to operations on the replicated document
    (services/realtime/internal/services/crdt_engine.go, collaboration_service.go).
 */
module CrdtEditing {
  import opened Common
  import opened Crdt
  import CollabEditor

  /** Index of the visible character number `n`, as the operation constructors look it up. */
  function VisibleIndex(content: seq<Char>, n: nat): (i: Option<nat>)
    ensures i.Some? <==> n < |Visible(content)|
    ensures i.Some? ==> i.value < |content| && !content[i.value].deleted && TextIndex(content, i.value) == n
  {
    if content == [] then None
    else if !content[0].deleted && n == 0 then Some(0)
    else
      match VisibleIndex(content[1..], if content[0].deleted then n else n - 1)
      case None => None
      case Some(i) =>
        assert content[..i + 1][1..] == content[1..][..i];
        Some(i + 1)
  }

  function CreateInsert(content: seq<Char>, site: string, position: nat, value: char, clock: int): Op {
    var after :=
      if 0 < position <= |content| then
        match VisibleIndex(content, position - 1)
        case None => None
        case Some(i) => Some(content[i].id)
      else None;
    Insert(CharId(site, clock, position), value, after)
  }

  function CreateDelete(content: seq<Char>, position: nat): Option<Op> {
    match VisibleIndex(content, position)
    case None => None
    case Some(i) => Some(Delete(content[i].id))
  }

  /** How many visible characters stand before index `i`. */
  function TextIndex(content: seq<Char>, i: nat): nat
    requires i <= |content|
  {
    |Visible(content[..i])|
  }

  /** No earlier character carries the same id. */
  predicate FirstBearer(content: seq<Char>, i: nat)
    requires i < |content|
  {
    forall j :: 0 <= j < i ==> content[j].id != content[i].id
  }

  // ---------- the text around one character ----------

  lemma InThree(content: seq<Char>, i: nat)
    requires i < |content|
    ensures content == content[..i] + [content[i]] + content[i + 1..]
  {}

  lemma VisibleAround(pre: seq<Char>, c: Char, post: seq<Char>)
    ensures Visible(pre + [c] + post) == Visible(pre) + Shown(c) + Visible(post)
  {
    VisibleConcat(pre, [c]);
    VisibleConcat(pre + [c], post);
  }

  lemma TextAround(content: seq<Char>, i: nat)
    requires i < |content|
    ensures Visible(content) == Visible(content[..i]) + Shown(content[i]) + Visible(content[i + 1..])
  {
    var pre, c, post := content[..i], content[i], content[i + 1..];
    calc {
      Visible(content);
      { InThree(content, i); }
      Visible(pre + [c] + post);
      { VisibleAround(pre, c, post); }
      Visible(pre) + Shown(c) + Visible(post);
    }
  }

  lemma CutOne(l: string, x: char, r: string)
    ensures var v := l + [x] + r; v[..|l|] + v[|l| + 1..] == l + r
  {}

  lemma BuriedText(content: seq<Char>, i: nat)
    requires i < |content|
    ensures content[i].deleted ==> Bury(content, i) == content
    ensures !content[i].deleted ==>
            var v, q := Visible(content), TextIndex(content, i);
            q < |v| && Visible(Bury(content, i)) == v[..q] + v[q + 1..]
  {
    if !content[i].deleted {
      var pre, post, buried := Visible(content[..i]), Visible(content[i + 1..]), Bury(content, i);
      TextAround(content, i);
      calc {
        Visible(buried);
        { TextAround(buried, i); }
        Visible(buried[..i]) + Shown(buried[i]) + Visible(buried[i + 1..]);
        { assert buried[..i] == content[..i] && buried[i + 1..] == content[i + 1..]; }
        pre + "" + post;
        { assert pre + "" == pre; }
        pre + post;
      }
      CutOne(pre, content[i].value, post);
    }
  }

  lemma InsertedText(content: seq<Char>, p: nat, c: Char)
    requires p <= |content| && !c.deleted
    ensures var v, q := Visible(content), TextIndex(content, p);
            q <= |v| && Visible(InsertAt(content, p, c)) == v[..q] + [c.value] + v[q..]
  {
    var l, r := Visible(content[..p]), Visible(content[p..]);
    assert content == content[..p] + content[p..];
    VisibleConcat(content[..p], content[p..]);
    VisibleAround(content[..p], c, content[p..]);
    assert Visible(InsertAt(content, p, c)) == l + [c.value] + r;
    assert Visible(content)[..|l|] == l && Visible(content)[|l|..] == r;
  }

  /** Going forward passes visible characters exactly when it passes more than tombstones. */
  lemma TextIndexGrows(content: seq<Char>, lo: nat, p: nat)
    requires lo <= p <= |content|
    ensures TextIndex(content, lo) <= TextIndex(content, p) <= |Visible(content)| == TextIndex(content, |content|)
    ensures TextIndex(content, lo) == TextIndex(content, p) <==> forall i :: lo <= i < p ==> content[i].deleted
  {
    assert content[..p] == content[..lo] + content[lo..p];
    assert content[..|content|] == content == content[..p] + content[p..];
    VisibleConcat(content[..lo], content[lo..p]);
    VisibleConcat(content[..p], content[p..]);
    HiddenIffTombstones(content[lo..p]);
    assert forall k :: lo <= k < p ==> content[k] == content[lo..p][k - lo];
  }

  lemma {:induction false} HiddenIffTombstones(s: seq<Char>)
    ensures Visible(s) == "" <==> forall i :: 0 <= i < |s| ==> s[i].deleted
  {
    if s != [] {
      HiddenIffTombstones(s[1..]);
      assert forall i :: 0 < i < |s| ==> s[i] == s[1..][i - 1];
    }
  }

  lemma {:induction false} VisibleIsShorter(s: seq<Char>)
    ensures |Visible(s)| <= |s|
  {
    if s != [] {
      VisibleIsShorter(s[1..]);
    }
  }

  lemma BehindVisible(content: seq<Char>, i: nat)
    requires i < |content| && !content[i].deleted
    ensures TextIndex(content, i + 1) == TextIndex(content, i) + 1
  {
    assert content[..i + 1] == content[..i] + [content[i]];
    VisibleConcat(content[..i], [content[i]]);
  }

  /** A visible character is known by its place in the text. */
  lemma VisibleIndexIs(content: seq<Char>, i: nat)
    requires i < |content| && !content[i].deleted
    ensures VisibleIndex(content, TextIndex(content, i)) == Some(i)
  {
    hide VisibleIndex, Visible;
    BehindVisible(content, i);
    TextIndexGrows(content, i + 1, |content|);
    var k := VisibleIndex(content, TextIndex(content, i)).value;
    BehindVisible(content, k);
    if k < i {
      TextIndexGrows(content, k + 1, i);
    } else if i < k {
      TextIndexGrows(content, i + 1, k);
    }
  }

  // ---------- one deletion ----------

  /** A deletion is made exactly at the positions of visible characters. It buries the first character with the id of
      the one at the position, which is that one exactly when no earlier character carries its id. */
  lemma DeleteAtPosition(d: Doc, position: nat)
    ensures var content, op := d.content, CreateDelete(d.content, position);
            && (op.Some? <==> position < |Visible(content)|)
            && (op.Some? ==>
                var i, v, r := VisibleIndex(content, position).value, Visible(content), Apply(d, op.value).content;
                && (exists k :: 0 <= k <= i && r == Bury(content, k) && content[k].id == content[i].id && FirstBearer(content, k))
                && (r == Bury(content, i) <==> FirstBearer(content, i))
                && (FirstBearer(content, i) ==> Visible(r) == v[..position] + v[position + 1..]))
  {
    if position < |Visible(d.content)| {
      var i := VisibleIndex(d.content, position).value;
      var k := IndexOf(d.content, d.content[i].id);
      assert k.Some? && k.value <= i && FirstBearer(d.content, k.value);
      if FirstBearer(d.content, i) {
        BuriedText(d.content, i);
      } else {
        assert !Bury(d.content, k.value)[i].deleted;
      }
    }
  }

  // ---------- one insertion ----------

  /** From the start of the scan up to `v`, some character stops it. */
  ghost predicate Shielded(content: seq<Char>, op: Op, v: int)
    requires op.Insert? && v < |content|
  {
    exists j :: Start(content, op.after) <= j <= v && Blocks(content[j].id, op)
  }

  lemma ShieldedIff(content: seq<Char>, op: Op, v: nat)
    requires op.Insert? && Start(content, op.after) <= v < |content|
    ensures Shielded(content, op, v) <==> InsertPos(content, op) <= v
  {
    var p := InsertPos(content, op);
    if p <= v {
      assert Blocks(content[p].id, op);
    }
  }

  /** The scan starts at the end of the text up to the first character with the anchor's id. */
  lemma StartOfScan(content: seq<Char>, position: nat, a: nat)
    requires 0 < position && VisibleIndex(content, position - 1) == Some(a)
    ensures var s := TextIndex(content, Start(content, Some(content[a].id)));
            s <= position && (s == position <==> FirstBearer(content, a))
  {
    var k := IndexOf(content, content[a].id).value;
    BehindVisible(content, a);
    TextIndexGrows(content, k + 1, a + 1);
    assert k < a ==> !content[a].deleted;
  }

  lemma AnchorIff(content: seq<Char>, site: string, position: nat, value: char, clock: int)
    ensures CreateInsert(content, site, position, value, clock).after.Some? <==> 0 < position <= |Visible(content)|
  {
    VisibleIsShorter(content);
  }

  /** A place in the text is the one at which the insertion lands exactly when the shielded characters behind the start
      of the scan are those from that place on. */
  lemma LandsThereIff(content: seq<Char>, op: Op, position: nat)
    requires op.Insert? && TextIndex(content, Start(content, op.after)) <= position <= |Visible(content)|
    ensures TextIndex(content, InsertPos(content, op)) == position <==>
            forall i :: Start(content, op.after) <= i < |content| && !content[i].deleted ==>
              (Shielded(content, op, i) <==> position <= TextIndex(content, i))
  {
    var s, p := Start(content, op.after), InsertPos(content, op);
    var q := TextIndex(content, p);
    forall i | s <= i < |content| && !content[i].deleted
      ensures Shielded(content, op, i) <==> q <= TextIndex(content, i)
    {
      ShieldedIff(content, op, i);
      BehindVisible(content, i);
      if p <= i {
        TextIndexGrows(content, p, i);
      } else {
        TextIndexGrows(content, i + 1, p);
      }
    }
    if q != position {
      TextIndexGrows(content, s, p);
      TextIndexGrows(content, p, |content|);
      var i := VisibleIndex(content, if q < position then q else position).value;
      if i < s {
        BehindVisible(content, i);
        TextIndexGrows(content, i + 1, s);
      }
    }
  }

  /** Where an insertion made at a position lands in the text, on any document. Without an anchor it lands at the end;
      with one, the scan starts at the position asked for exactly when no earlier character carries the anchor's id. */
  lemma InsertAtPosition(d: Doc, site: string, position: nat, value: char, clock: int)
    ensures var content, op := d.content, CreateInsert(d.content, site, position, value, clock);
            var start, v, q := Start(content, op.after), Visible(content), TextIndex(content, InsertPos(content, op));
            && TextIndex(content, start) <= q <= |v|
            && Visible(Apply(d, op).content) == v[..q] + [value] + v[q..]
            && (op.after.Some? <==> 0 < position <= |v|)
            && (op.after.None? ==> q == |v|)
            && (op.after.Some? ==>
                && TextIndex(content, start) <= position
                && (TextIndex(content, start) == position <==>
                    FirstBearer(content, VisibleIndex(content, position - 1).value))
                && (q == position <==> forall i :: start <= i < |content| && !content[i].deleted ==>
                                         (Shielded(content, op, i) <==> position <= TextIndex(content, i))))
  {
    var op := CreateInsert(d.content, site, position, value, clock);
    var p := InsertPos(d.content, op);
    InsertedText(d.content, p, Fresh(op));
    TextIndexGrows(d.content, Start(d.content, op.after), p);
    AnchorIff(d.content, site, position, value, clock);
    if op.after.None? {
      ScanIs(d.content, 0, op, |d.content|);
      assert d.content[..p] == d.content;
    } else {
      StartOfScan(d.content, position, VisibleIndex(d.content, position - 1).value);
      LandsThereIff(d.content, op, position);
    }
  }

  // ---------- a deletion message ----------

  function EraseOne(d: Doc, position: nat): Doc {
    match CreateDelete(d.content, position)
    case None => d
    case Some(op) => Apply(d, op)
  }

  /** A message deletes its characters one by one, all at one position. */
  function Erased(d: Doc, position: nat, n: nat): Doc {
    if n == 0 then d else EraseOne(Erased(d, position, n - 1), position)
  }

  predicate InRange(content: seq<Char>, i: nat, position: nat, n: nat)
    requires i < |content|
  {
    !content[i].deleted && position <= TextIndex(content, i) < position + n
  }

  /** What the sender means: the visible characters of the range are buried, all others stay as they are. */
  function CutRange(content: seq<Char>, position: nat, n: nat): (r: seq<Char>)
    ensures |r| == |content|
  {
    seq(|content|, i requires 0 <= i < |content| =>
      if InRange(content, i, position, n) then content[i].(deleted := true) else content[i])
  }

  lemma CutPrefix(content: seq<Char>, i: nat, position: nat, n: nat)
    requires i <= |content|
    ensures CutRange(content, position, n)[..i] == CutRange(content[..i], position, n)
  {
    forall j | 0 <= j < i ensures CutRange(content, position, n)[j] == CutRange(content[..i], position, n)[j] {
      assert content[..i][..j] == content[..j];
    }
  }

  lemma DropLonger(v: string, c: char, position: nat, n: nat)
    requires n > 0
    ensures CollabEditor.Apply(v + [c], CollabEditor.Delete(position, n)) ==
            CollabEditor.Apply(v, CollabEditor.Delete(position, n)) + if position <= |v| < position + n then "" else [c]
  {}

  lemma VisibleOne(c: Char)
    ensures Visible([c]) == Shown(c)
  {}

  lemma VisibleLast(content: seq<Char>)
    requires content != []
    ensures Visible(content) == Visible(content[..|content| - 1]) + Shown(content[|content| - 1])
  {
    hide Visible, Shown;
    var l := |content| - 1;
    VisibleConcat(content[..l], [content[l]]);
    VisibleOne(content[l]);
    assert content == content[..l] + [content[l]];
  }

  lemma CutLast(content: seq<Char>, position: nat, n: nat)
    requires content != []
    ensures var l := |content| - 1;
            Visible(CutRange(content, position, n)) == Visible(CutRange(content[..l], position, n)) +
              if InRange(content, l, position, n) then "" else Shown(content[l])
  {
    VisibleLast(CutRange(content, position, n));
    CutPrefix(content, |content| - 1, position, n);
  }

  /** The text that is left is the editor's own after the deletion. */
  lemma {:induction false} CutText(content: seq<Char>, position: nat, n: nat)
    ensures Visible(CutRange(content, position, n)) == CollabEditor.Apply(Visible(content), CollabEditor.Delete(position, n))
    decreases |content|
  {
    if n == 0 {
      CutNothing(content, position);
    } else if content != [] {
      var l := |content| - 1;
      CutText(content[..l], position, n);
      CutLast(content, position, n);
      VisibleLast(content);
      if content[l].deleted {
        assert Visible(content) == Visible(content[..l]);
      } else {
        DropLonger(Visible(content[..l]), content[l].value, position, n);
      }
    }
  }

  lemma CutTextIndex(content: seq<Char>, position: nat, n: nat, i: nat)
    requires i < |content| && TextIndex(content, i) == position + n
    ensures TextIndex(CutRange(content, position, n), i) == position
  {
    CutPrefix(content, i, position, n);
    CutText(content[..i], position, n);
  }

  lemma {:induction false} ErasedKeepsIds(d: Doc, position: nat, n: nat)
    ensures var r := Erased(d, position, n).content;
            |r| == |d.content| && forall i :: 0 <= i < |r| ==> r[i].id == d.content[i].id
  {
    if n > 0 {
      ErasedKeepsIds(d, position, n - 1);
    }
  }

  lemma SameBearer(s: seq<Char>, t: seq<Char>, i: nat)
    requires i < |s| == |t| && forall j :: 0 <= j < |t| ==> t[j].id == s[j].id
    ensures FirstBearer(s, i) <==> FirstBearer(t, i)
  {
    forall j | 0 <= j < i ensures s[j].id != s[i].id <==> t[j].id != t[i].id {}
  }

  lemma NotErased(d: Doc, position: nat, i: nat)
    requires i < |d.content| && !FirstBearer(d.content, i)
    ensures var r := EraseOne(d, position).content; |r| == |d.content| && r[i] == d.content[i]
  {}

  /** No deletion ever finds a character behind another one with its id. */
  lemma {:induction false} NeverErased(d: Doc, position: nat, n: nat, i: nat)
    requires i < |d.content| && !FirstBearer(d.content, i)
    ensures var r := Erased(d, position, n).content; |r| == |d.content| && r[i] == d.content[i]
  {
    hide EraseOne, FirstBearer;
    if n > 0 {
      NeverErased(d, position, n - 1, i);
      ErasedKeepsIds(d, position, n - 1);
      SameBearer(d.content, Erased(d, position, n - 1).content, i);
      NotErased(Erased(d, position, n - 1), position, i);
    }
  }

  ghost predicate AllFirst(content: seq<Char>, position: nat, n: nat) {
    forall i :: 0 <= i < |content| && InRange(content, i, position, n) ==> FirstBearer(content, i)
  }

  lemma CutNothing(content: seq<Char>, position: nat)
    ensures CutRange(content, position, 0) == content
  {}

  lemma {:induction false} FirstOnesAreErased(d: Doc, position: nat, n: nat)
    requires AllFirst(d.content, position, n)
    ensures Erased(d, position, n).content == CutRange(d.content, position, n)
  {
    hide EraseOne, CutRange, FirstBearer;
    if n > 0 {
      forall i | 0 <= i < |d.content| && InRange(d.content, i, position, n - 1) ensures FirstBearer(d.content, i) {
        assert InRange(d.content, i, position, n);
      }
      FirstOnesAreErased(d, position, n - 1);
      NextIsErased(d.content, Erased(d, position, n - 1), position, n);
    } else {
      CutNothing(d.content, position);
    }
  }

  lemma NextIsErased(content: seq<Char>, d: Doc, position: nat, n: nat)
    requires n > 0 && AllFirst(content, position, n) && d.content == CutRange(content, position, n - 1)
    ensures EraseOne(d, position).content == CutRange(content, position, n)
  {
    hide Visible, FirstBearer, TextIndex;
    if position + n - 1 < |Visible(content)| {
      NextTarget(content, d, position, n, VisibleIndex(content, position + n - 1).value);
    } else {
      NoMoreTargets(content, position, n);
      CutText(content, position, n - 1);
    }
  }

  lemma NextTarget(content: seq<Char>, d: Doc, position: nat, n: nat, t: nat)
    requires n > 0 && AllFirst(content, position, n) && d.content == CutRange(content, position, n - 1)
    requires VisibleIndex(content, position + n - 1) == Some(t)
    ensures EraseOne(d, position).content == CutRange(content, position, n)
  {
    hide Visible, FirstBearer, TextIndex, EraseOne, Bury;
    CutTextIndex(content, position, n - 1, t);
    assert InRange(content, t, position, n);
    SameBearer(content, d.content, t);
    EraseFirst(d, t);
    OneMoreInRange(content, position, n, t);
    BuryNext(content, position, n, t);
  }

  lemma EraseFirst(d: Doc, t: nat)
    requires t < |d.content| && !d.content[t].deleted && FirstBearer(d.content, t)
    ensures EraseOne(d, TextIndex(d.content, t)).content == Bury(d.content, t)
  {
    VisibleIndexIs(d.content, t);
    IndexIs(d.content, d.content[t].id, t);
  }

  lemma BuryNext(content: seq<Char>, position: nat, n: nat, t: nat)
    requires n > 0 && t < |content|
    requires forall i :: 0 <= i < |content| ==>
      (InRange(content, i, position, n) <==> i == t || InRange(content, i, position, n - 1))
    ensures Bury(CutRange(content, position, n - 1), t) == CutRange(content, position, n)
  {}

  lemma NoMoreTargets(content: seq<Char>, position: nat, n: nat)
    requires n > 0 && position + n - 1 >= |Visible(content)|
    ensures CutRange(content, position, n) == CutRange(content, position, n - 1)
  {
    forall i | 0 <= i < |content| && !content[i].deleted ensures TextIndex(content, i) < position + n - 1 {
      BehindVisible(content, i);
      TextIndexGrows(content, i + 1, |content|);
    }
  }

  lemma OneMoreInRange(content: seq<Char>, position: nat, n: nat, t: nat)
    requires n > 0 && t < |content| && !content[t].deleted && TextIndex(content, t) == position + n - 1
    ensures forall i :: 0 <= i < |content| ==>
              (InRange(content, i, position, n) <==> i == t || InRange(content, i, position, n - 1))
  {
    forall i | 0 <= i < |content| && !content[i].deleted && TextIndex(content, i) == position + n - 1 ensures i == t {
      VisibleIndexIs(content, i);
      VisibleIndexIs(content, t);
    }
  }

  /** A deletion message buries exactly the characters of its range, on any document, if and only if each of them is
      the first to carry its id; then the server's text is the editor's own. */
  lemma EraseIff(d: Doc, position: nat, n: nat)
    ensures Erased(d, position, n).content == CutRange(d.content, position, n) <==> AllFirst(d.content, position, n)
    ensures AllFirst(d.content, position, n) ==>
            Visible(Erased(d, position, n).content) ==
            CollabEditor.Apply(Visible(d.content), CollabEditor.Delete(position, n))
  {
    CutText(d.content, position, n);
    if AllFirst(d.content, position, n) {
      FirstOnesAreErased(d, position, n);
    } else {
      var i :| 0 <= i < |d.content| && InRange(d.content, i, position, n) && !FirstBearer(d.content, i);
      NeverErased(d, position, n, i);
    }
  }

  // ---------- an insertion message ----------

  /** A message inserting `text`, with the sender's name, the position it names and the clock it is given. */
  datatype Typing = Typing(site: string, position: nat, clock: int, text: string)

  /** How many code points `w` bytes of UTF-8 have room for: seven bits in one byte, or five in the first of several, fewer
      by one for each more, and six in each of the others. */
  function Payload(w: nat): nat {
    if w == 1 then 0x80 else if w == 2 then 0x20 * 0x40 else if w == 3 then 0x10 * 0x40 * 0x40 else 0x8 * 0x40 * 0x40 * 0x40
  }

  /** Bytes of a letter in UTF-8, the fewest that have room for it; the loop over the text counts in bytes. */
  function Width(c: char): (w: nat)
    ensures 1 <= w <= 4
    ensures c as int < Payload(w) && (w > 1 ==> Payload(w - 1) <= c as int)
  {
    var code := c as int;
    if code < 0x80 then 1 else if code < 0x800 then 2 else if code < 0x1_0000 then 3 else 4
  }

  function Offset(text: string, k: nat): (o: nat)
    requires k <= |text|
    ensures o >= k
    ensures o == k <==> forall i :: 0 <= i < k ==> Width(text[i]) == 1
  {
    if k == 0 then 0 else Offset(text, k - 1) + Width(text[k - 1])
  }

  function LetterId(m: Typing, k: nat): CharId
    requires k < |m.text|
  {
    CharId(m.site, m.clock + Offset(m.text, k), m.position + Offset(m.text, k))
  }

  function LetterOp(content: seq<Char>, m: Typing, k: nat): (op: Op)
    requires k < |m.text|
    ensures op.Insert? && op.charId == LetterId(m, k) && op.value == m.text[k]
  {
    var o := Offset(m.text, k);
    CreateInsert(content, m.site, m.position + o, m.text[k], m.clock + o)
  }

  /** The document after the first `n` letters. */
  function Typed(d: Doc, m: Typing, n: nat): Doc
    requires n <= |m.text|
  {
    if n == 0 then d
    else
      var t := Typed(d, m, n - 1);
      Apply(t, LetterOp(t.content, m, n - 1))
  }

  /** Where in the text letter `k` lands. */
  function Landing(d: Doc, m: Typing, k: nat): nat
    requires k < |m.text|
  {
    var c := Typed(d, m, k).content;
    TextIndex(c, InsertPos(c, LetterOp(c, m, k)))
  }

  /** The first `n` letters land side by side at the position of the message. */
  ghost predicate InPlace(d: Doc, m: Typing, n: nat)
    requires n <= |m.text|
  {
    forall k :: 0 <= k < n ==> Landing(d, m, k) == m.position + k
  }

  lemma OneLetterMore(v: string, p: nat, text: string, n: nat)
    requires p <= |v| && n < |text|
    ensures var w := v[..p] + text[..n] + v[p..]; w[..p + n] + [text[n]] + w[p + n..] == v[..p] + text[..n + 1] + v[p..]
  {
    var w := v[..p] + text[..n] + v[p..];
    assert w[..p + n] == v[..p] + text[..n] && w[p + n..] == v[p..];
    assert text[..n] + [text[n]] == text[..n + 1];
    Assoc(v[..p], text[..n], [text[n]]);
  }

  lemma LandingText(d: Doc, m: Typing, k: nat)
    requires k < |m.text|
    ensures var v, q := Visible(Typed(d, m, k).content), Landing(d, m, k);
            q <= |v| && Visible(Typed(d, m, k + 1).content) == v[..q] + [m.text[k]] + v[q..]
  {
    var c := Typed(d, m, k).content;
    var op := LetterOp(c, m, k);
    InsertedText(c, InsertPos(c, op), Fresh(op));
  }

  /** Letters in place make the editor's own text. */
  lemma {:induction false} InPlaceText(d: Doc, m: Typing, n: nat)
    requires n <= |m.text| && m.position <= |Visible(d.content)| && InPlace(d, m, n)
    ensures var v := Visible(d.content);
            Visible(Typed(d, m, n).content) == v[..m.position] + m.text[..n] + v[m.position..]
  {
    hide Visible, Landing, Apply, LetterOp;
    var v, p := Visible(d.content), m.position;
    if n == 0 {
      assert v[..p] + "" + v[p..] == v;
    } else {
      InPlaceText(d, m, n - 1);
      LandingText(d, m, n - 1);
      OneLetterMore(v, p, m.text, n - 1);
    }
  }

  /** Ids do their work: the message's are new, and the characters from the one before the position on are the first
      to carry theirs. */
  ghost predicate OwnIds(content: seq<Char>, m: Typing) {
    && (forall i, k :: 0 <= i < |content| && 0 <= k < |m.text| ==> content[i].id != LetterId(m, k))
    && (forall i :: 0 <= i < |content| && !content[i].deleted && m.position <= TextIndex(content, i) + 1 ==>
                    FirstBearer(content, i))
  }

  /** From `lo` on, the first character that outranks letter `k`, or the end. */
  function Reach(content: seq<Char>, lo: nat, m: Typing, k: nat): (o: nat)
    requires lo <= |content| && k < |m.text|
    ensures lo <= o <= |content|
  {
    Scan(content, lo, Insert(LetterId(m, k), m.text[k], Some(LetterId(m, k))))
  }

  predicate Clear(content: seq<Char>, lo: nat, hi: nat)
    requires lo <= hi <= |content|
  {
    forall i :: lo <= i < hi ==> content[i].deleted
  }

  /** A scan sees only what is behind its start. */
  lemma ScanIsReach(c: seq<Char>, pos: nat, op: Op, content: seq<Char>, lo: nat, m: Typing, k: nat)
    requires k < |m.text| && op.Insert? && op.charId == LetterId(m, k) && op.after.Some?
    requires pos <= |c| && lo <= |content| && c[pos..] == content[lo..]
    ensures Scan(c, pos, op) == pos + Reach(content, lo, m, k) - lo
  {
    var q := pos + Reach(content, lo, m, k) - lo;
    assert forall i :: pos <= i < |c| ==> c[i] == c[pos..][i - pos] == content[lo..][i - pos] == content[lo + i - pos];
    ScanIs(c, pos, op, q);
  }

  lemma OffsetGrows(text: string, k: nat)
    requires 0 < k < |text|
    ensures Offset(text, k - 1) < Offset(text, k)
  {}

  /** What does not outrank a letter does not outrank the next one. */
  lemma ReachGrows(content: seq<Char>, lo: nat, m: Typing, k: nat)
    requires lo <= |content| && 0 < k < |m.text|
    ensures var o := Reach(content, lo, m, k - 1);
            Reach(content, o, m, k) == Reach(content, lo, m, k)
  {
    var o, op := Reach(content, lo, m, k - 1), Insert(LetterId(m, k), m.text[k], Some(LetterId(m, k)));
    OffsetGrows(m.text, k);
    ScanIs(content, lo, op, Reach(content, o, m, k));
  }

  /** An id of the document's first `o` characters, or of one of the first `k` letters. */
  ghost predicate Known(content: seq<Char>, o: nat, m: Typing, k: nat, id: CharId)
    requires o <= |content| && k <= |m.text|
  {
    (exists i :: 0 <= i < o && content[i].id == id) || (exists l :: 0 <= l < k && LetterId(m, l) == id)
  }

  /** After `k` letters in place: the last one is at index `r` of the document `c`, and behind it is what was behind
      index `o` before the message. */
  ghost predicate Cursor(content: seq<Char>, m: Typing, c: seq<Char>, k: nat, r: nat, o: nat) {
    && 0 < k <= |m.text| && r < |c| && o <= |content|
    && c[r].id == LetterId(m, k - 1) && !c[r].deleted && c[r + 1..] == content[o..]
    && TextIndex(c, r) == m.position + k - 1 && TextIndex(content, o) == m.position
    && forall j :: 0 <= j < r ==> Known(content, o, m, k - 1, c[j].id)
  }

  /** The letter before is found first under its id. */
  lemma LetterIsFound(content: seq<Char>, m: Typing, c: seq<Char>, k: nat, r: nat, o: nat)
    requires OwnIds(content, m) && Cursor(content, m, c, k, r, o)
    ensures IndexOf(c, c[r].id) == Some(r)
  {
    forall j | 0 <= j < r ensures c[j].id != c[r].id {
      assert Known(content, o, m, k - 1, c[j].id);
      forall l | 0 <= l < k - 1 ensures LetterId(m, l) != c[r].id {
        OffsetsDiffer(m.text, l, k - 1);
      }
    }
    IndexIs(c, c[r].id, r);
  }

  lemma {:induction false} OffsetsDiffer(text: string, l: nat, k: nat)
    requires l < k < |text|
    ensures Offset(text, l) < Offset(text, k)
  {
    OffsetGrows(text, k);
    if l < k - 1 {
      OffsetsDiffer(text, l, k - 1);
    }
  }

  lemma NextAnchor(m: Typing, c: seq<Char>, k: nat, r: nat)
    requires 0 < k < |m.text| && Offset(m.text, k) == k
    requires r < |c| && !c[r].deleted && TextIndex(c, r) == m.position + k - 1
    ensures LetterOp(c, m, k).after == Some(c[r].id)
  {
    VisibleIndexIs(c, r);
    VisibleIsShorter(c);
  }

  lemma ClearAcross(c: seq<Char>, pos: nat, content: seq<Char>, lo: nat, n: nat)
    requires pos <= |c| && lo <= |content| && c[pos..] == content[lo..] && pos + n <= |c|
    ensures lo + n <= |content| && (Clear(c, pos, pos + n) <==> Clear(content, lo, lo + n))
  {
    assert |c[pos..]| == |content[lo..]|;
    assert forall i :: pos <= i < |c| ==> c[i] == c[pos..][i - pos] == content[lo..][i - pos] == content[lo + i - pos];
    assert forall i :: lo <= i < |content| ==> content[i] == content[lo..][i - lo] == c[pos + i - lo];
  }

  lemma NextPos(content: seq<Char>, m: Typing, c: seq<Char>, k: nat, r: nat, o: nat)
    requires OwnIds(content, m) && Cursor(content, m, c, k, r, o) && k < |m.text| && Offset(m.text, k) == k
    ensures InsertPos(c, LetterOp(c, m, k)) == r + 1 + Reach(content, o, m, k) - o
  {
    NextAnchor(m, c, k, r);
    LetterIsFound(content, m, c, k, r, o);
    ScanIsReach(c, r + 1, LetterOp(c, m, k), content, o, m, k);
  }

  lemma NextIsClear(content: seq<Char>, m: Typing, c: seq<Char>, k: nat, r: nat, o: nat, to: nat)
    requires Cursor(content, m, c, k, r, o) && o <= to <= |content|
    ensures r + 1 + to - o <= |c|
    ensures TextIndex(c, r + 1 + to - o) == m.position + k <==> Clear(content, o, to)
    ensures TextIndex(content, to) == m.position <==> Clear(content, o, to)
  {
    assert |c[r + 1..]| == |content[o..]|;
    BehindVisible(c, r);
    TextIndexGrows(c, r + 1, r + 1 + to - o);
    TextIndexGrows(content, o, to);
    ClearAcross(c, r + 1, content, o, to - o);
  }

  /** While all letters so far are one byte wide, the next one is put behind the last one. */
  lemma NextLetter(content: seq<Char>, m: Typing, d: Doc, k: nat, r: nat, o: nat)
    requires o <= |content| && OwnIds(content, m) && Cursor(content, m, d.content, k, r, o) && k < |m.text| && Offset(m.text, k) == k
    ensures var op, to := LetterOp(d.content, m, k), Reach(content, o, m, k);
            var q := r + 1 + to - o;
            && InsertPos(d.content, op) == q
            && (TextIndex(d.content, q) == m.position + k <==> Clear(content, o, to))
            && (Clear(content, o, to) ==> Cursor(content, m, Apply(d, op).content, k + 1, q, to))
  {
    hide Cursor, OwnIds, Apply, Offset;
    var to := Reach(content, o, m, k);
    NextPos(content, m, d.content, k, r, o);
    NextIsClear(content, m, d.content, k, r, o, to);
    if Clear(content, o, to) {
      CursorMoves(content, m, d, k, r, o);
    }
  }

  lemma CursorMoves(content: seq<Char>, m: Typing, d: Doc, k: nat, r: nat, o: nat)
    requires Cursor(content, m, d.content, k, r, o) && k < |m.text|
    requires TextIndex(content, Reach(content, o, m, k)) == m.position
    requires var q := r + 1 + Reach(content, o, m, k) - o;
             InsertPos(d.content, LetterOp(d.content, m, k)) == q && TextIndex(d.content, q) == m.position + k
    ensures Cursor(content, m, Apply(d, LetterOp(d.content, m, k)).content, k + 1,
                   r + 1 + Reach(content, o, m, k) - o, Reach(content, o, m, k))
  {
    hide Reach, LetterOp, Offset, TextIndex, InsertPos;
    var c, op, to := d.content, LetterOp(d.content, m, k), Reach(content, o, m, k);
    var q := r + 1 + to - o;
    var e := InsertAt(c, q, Fresh(op));
    Spliced(c, r + 1, content, o, q, Fresh(op));
    TextBefore(c, q, Fresh(op));
    forall j | 0 <= j < q ensures Known(content, to, m, k, e[j].id) {
      if j < r {
        KnownGrows(content, o, m, k - 1, c[j].id, to);
      } else if j > r {
        assert e[j] == content[o + j - r - 1];
      }
    }
  }

  lemma Spliced(c: seq<Char>, pos: nat, content: seq<Char>, lo: nat, q: nat, x: Char)
    requires pos <= q <= |c| && lo <= |content| && c[pos..] == content[lo..]
    ensures var e := InsertAt(c, q, x);
            && lo + q - pos <= |content| && e[q + 1..] == content[lo + q - pos..]
            && forall j :: pos <= j < q ==> e[j] == content[lo + j - pos]
  {
    assert |c[pos..]| == |content[lo..]|;
    assert forall i :: pos <= i < |c| ==> c[i] == c[pos..][i - pos] == content[lo..][i - pos] == content[lo + i - pos];
  }

  lemma TextBefore(c: seq<Char>, q: nat, x: Char)
    requires q <= |c|
    ensures TextIndex(InsertAt(c, q, x), q) == TextIndex(c, q)
  {
    assert InsertAt(c, q, x)[..q] == c[..q];
  }

  lemma KnownGrows(content: seq<Char>, o: nat, m: Typing, k: nat, id: CharId, to: nat)
    requires o <= to <= |content| && k < |m.text| && Known(content, o, m, k, id)
    ensures Known(content, to, m, k + 1, id)
  {}

  lemma FirstPos(c: seq<Char>, m: Typing, a: nat)
    requires m.text != "" && 0 < m.position && VisibleIndex(c, m.position - 1) == Some(a) && FirstBearer(c, a)
    ensures InsertPos(c, LetterOp(c, m, 0)) == Reach(c, a + 1, m, 0)
  {
    var op := LetterOp(c, m, 0);
    VisibleIsShorter(c);
    IndexIs(c, c[a].id, a);
    ScanIsReach(c, a + 1, op, c, a + 1, m, 0);
  }

  /** The first letter is put behind the visible character before the position. */
  lemma FirstLetter(d: Doc, m: Typing, a: nat)
    requires OwnIds(d.content, m) && m.text != "" && 0 < m.position && VisibleIndex(d.content, m.position - 1) == Some(a)
    ensures var o := Reach(d.content, a + 1, m, 0);
            && (Landing(d, m, 0) == m.position <==> Clear(d.content, a + 1, o))
            && (Clear(d.content, a + 1, o) ==> Cursor(d.content, m, Typed(d, m, 1).content, 1, o, o))
  {
    var o := Reach(d.content, a + 1, m, 0);
    FirstPos(d.content, m, a);
    BehindVisible(d.content, a);
    TextIndexGrows(d.content, a + 1, o);
    hide Cursor, OwnIds, Apply;
    if Clear(d.content, a + 1, o) {
      FirstCursor(d, m, o);
    }
  }

  lemma FirstCursor(d: Doc, m: Typing, o: nat)
    requires m.text != "" && o == InsertPos(d.content, LetterOp(d.content, m, 0)) && TextIndex(d.content, o) == m.position
    ensures Cursor(d.content, m, Typed(d, m, 1).content, 1, o, o)
  {
    var c, op := d.content, LetterOp(d.content, m, 0);
    var e := InsertAt(c, o, Fresh(op));
    assert Typed(d, m, 0) == d && Typed(d, m, 1).content == e;
    assert e[..o] == c[..o] && e[o + 1..] == c[o..];
    forall j | 0 <= j < o ensures Known(c, o, m, 0, e[j].id) {
      assert c[j].id == e[j].id;
    }
  }

  lemma KnownDiffers(content: seq<Char>, o: nat, m: Typing, k: nat, id: CharId, b: nat)
    requires o <= b < |content| && k <= |m.text| && Known(content, o, m, k, id)
    requires OwnIds(content, m) && FirstBearer(content, b)
    ensures id != content[b].id
  {}

  lemma BehindCursor(content: seq<Char>, m: Typing, c: seq<Char>, k: nat, r: nat, o: nat, a: nat)
    requires OwnIds(content, m) && Cursor(content, m, c, k, r, o) && r < a < |c| && !c[a].deleted
    ensures FirstBearer(c, a)
  {
    assert forall i :: r < i < |c| ==> c[i] == c[r + 1..][i - r - 1] == content[o..][i - r - 1] == content[o + i - r - 1];
    var b := o + a - r - 1;
    TextIndexGrows(content, o, b);
    assert FirstBearer(content, b);
    forall j | 0 <= j < a ensures c[j].id != c[a].id {
      if j < r {
        KnownDiffers(content, o, m, k - 1, c[j].id, b);
      }
    }
  }

  lemma AimsBehind(content: seq<Char>, m: Typing, c: seq<Char>, k: nat, r: nat, o: nat, position: nat)
    requires OwnIds(content, m) && Cursor(content, m, c, k, r, o) && position > m.position + k
    ensures position <= |Visible(c)| ==> FirstBearer(c, VisibleIndex(c, position - 1).value)
  {
    if position <= |Visible(c)| {
      var a := VisibleIndex(c, position - 1).value;
      if a <= r {
        TextIndexGrows(c, a, r);
      }
      BehindCursor(content, m, c, k, r, o, a);
    }
  }

  /** Behind a first bearer an insertion lands at the position or later, and without an anchor at the end. */
  lemma LandsNoEarlier(c: seq<Char>, site: string, position: nat, value: char, clock: int)
    requires 0 < position <= |Visible(c)| ==> FirstBearer(c, VisibleIndex(c, position - 1).value)
    ensures var q := TextIndex(c, InsertPos(c, CreateInsert(c, site, position, value, clock)));
            if 0 < position <= |Visible(c)| then q >= position else q == |Visible(c)|
  {
    InsertAtPosition(Doc(c, 0), site, position, value, clock);
  }

  /** A letter behind a wide one aims at a later visible character, or at none. */
  lemma WideLetter(content: seq<Char>, m: Typing, c: seq<Char>, k: nat, r: nat, o: nat)
    requires OwnIds(content, m) && Cursor(content, m, c, k, r, o) && k < |m.text| && Offset(m.text, k) > k
    requires |Visible(c)| > m.position + k
    ensures TextIndex(c, InsertPos(c, LetterOp(c, m, k))) > m.position + k
  {
    hide Cursor, OwnIds, FirstBearer, TextIndex, CreateInsert, Offset;
    var p := m.position + Offset(m.text, k);
    AimsBehind(content, m, c, k, r, o, p);
    LandsNoEarlier(c, m.site, p, m.text[k], m.clock + Offset(m.text, k));
  }

  /** Letter by letter the text grows, wherever they land. */
  lemma {:induction false} TypedLength(d: Doc, m: Typing, n: nat)
    requires n <= |m.text|
    ensures |Visible(Typed(d, m, n).content)| == |Visible(d.content)| + n
  {
    hide Landing, Apply, LetterOp;
    if n > 0 {
      TypedLength(d, m, n - 1);
      LandingText(d, m, n - 1);
    }
  }

  ghost predicate AtCursor(d: Doc, m: Typing, n: nat, o: nat)
    requires n <= |m.text|
  {
    exists r: nat :: Cursor(d.content, m, Typed(d, m, n).content, n, r, o)
  }

  lemma TypedNext(d: Doc, m: Typing, k: nat)
    requires k < |m.text|
    ensures Typed(d, m, k + 1) == Apply(Typed(d, m, k), LetterOp(Typed(d, m, k).content, m, k))
  {}

  lemma NarrowAtCursor(d: Doc, m: Typing, k: nat, o: nat)
    requires OwnIds(d.content, m) && k < |m.text| && o <= |d.content| && AtCursor(d, m, k, o) && Offset(m.text, k) == k
    ensures var to := Reach(d.content, o, m, k);
            && (Landing(d, m, k) == m.position + k <==> Clear(d.content, o, to))
            && (Clear(d.content, o, to) ==> AtCursor(d, m, k + 1, to))
  {
    hide Cursor, OwnIds, TextIndex, CreateInsert, Offset, Apply, Typed, Reach, LetterOp, InsertPos;
    TypedNext(d, m, k);
    var t, to := Typed(d, m, k), Reach(d.content, o, m, k);
    var r: nat :| Cursor(d.content, m, t.content, k, r, o);
    NextLetter(d.content, m, t, k, r, o);
    if Clear(d.content, o, to) {
      assert Cursor(d.content, m, Typed(d, m, k + 1).content, k + 1, r + 1 + to - o, to);
    }
  }

  lemma WideAtCursor(d: Doc, m: Typing, k: nat, o: nat)
    requires OwnIds(d.content, m) && k < |m.text| && o <= |d.content| && AtCursor(d, m, k, o) && Offset(m.text, k) > k
    requires m.position < |Visible(d.content)|
    ensures Landing(d, m, k) > m.position + k
  {
    hide Cursor, OwnIds, TextIndex, CreateInsert, Offset;
    var t := Typed(d, m, k);
    var r: nat :| Cursor(d.content, m, t.content, k, r, o);
    TypedLength(d, m, k);
    WideLetter(d.content, m, t.content, k, r, o);
  }

  /** Inside the text, the first `n` letters land in place exactly when they are one byte wide, save the last, and
      nothing visible stands in the reach of the last one; then the cursor is behind it. */
  lemma {:induction false} InsideIff(d: Doc, m: Typing, a: nat, n: nat)
    requires OwnIds(d.content, m) && 0 < n <= |m.text| && 0 < m.position < |Visible(d.content)|
    requires VisibleIndex(d.content, m.position - 1) == Some(a)
    ensures var o := Reach(d.content, a + 1, m, n - 1);
            && (InPlace(d, m, n) <==> Offset(m.text, n - 1) == n - 1 && Clear(d.content, a + 1, o))
            && (InPlace(d, m, n) ==> AtCursor(d, m, n, o))
  {
    hide Cursor, OwnIds, TextIndex, CreateInsert, Typed, Reach, Landing;
    if n == 1 {
      FirstLetter(d, m, a);
    } else {
      var k := n - 1;
      InsideIff(d, m, a, k);
      ReachGrows(d.content, a + 1, m, k);
      OffsetGrows(m.text, k);
      if InPlace(d, m, k) {
        var o := Reach(d.content, a + 1, m, k - 1);
        if Offset(m.text, k) == k {
          NarrowAtCursor(d, m, k, o);
        } else {
          WideAtCursor(d, m, k, o);
        }
      }
    }
  }

  lemma EndIsClear(content: seq<Char>, lo: nat, hi: nat)
    requires lo <= hi <= |content| && TextIndex(content, lo) == |Visible(content)|
    ensures Clear(content, lo, hi) && TextIndex(content, hi) == |Visible(content)|
  {
    TextIndexGrows(content, lo, hi);
  }

  lemma FirstAtEnd(d: Doc, m: Typing) returns (o: nat)
    requires OwnIds(d.content, m) && m.text != "" && m.position == |Visible(d.content)|
    ensures Landing(d, m, 0) == m.position
    ensures o <= |d.content| && TextIndex(d.content, o) == m.position && AtCursor(d, m, 1, o)
  {
    var c := d.content;
    if m.position == 0 {
      o := |c|;
      assert c[..o] == c;
      ScanIs(c, 0, LetterOp(c, m, 0), o);
      FirstCursor(d, m, o);
    } else {
      var a := VisibleIndex(c, m.position - 1).value;
      o := Reach(c, a + 1, m, 0);
      BehindVisible(c, a);
      EndIsClear(c, a + 1, o);
      FirstLetter(d, m, a);
    }
    assert Cursor(c, m, Typed(d, m, 1).content, 1, o, o);
  }

  lemma WideAtEnd(d: Doc, m: Typing, k: nat)
    requires k < |m.text| && m.position == |Visible(d.content)| && Offset(m.text, k) > k
    ensures Landing(d, m, k) == m.position + k
  {
    hide TextIndex, CreateInsert, Offset, Visible, Typed, InsertPos, FirstBearer;
    TypedLength(d, m, k);
    LandsNoEarlier(Typed(d, m, k).content, m.site, m.position + Offset(m.text, k), m.text[k], m.clock + Offset(m.text, k));
  }

  /** At the end of the text all letters land in place; those behind a wide one have no anchor. */
  lemma {:induction false} AtEnd(d: Doc, m: Typing, n: nat)
    requires OwnIds(d.content, m) && n <= |m.text| && m.position == |Visible(d.content)|
    ensures InPlace(d, m, n)
    ensures n > 0 && Offset(m.text, n - 1) == n - 1 ==>
            exists o :: 0 <= o <= |d.content| && TextIndex(d.content, o) == m.position && AtCursor(d, m, n, o)
  {
    hide Cursor, OwnIds, CreateInsert, Typed, Landing, AtCursor;
    if n == 1 {
      var o := FirstAtEnd(d, m);
    } else if n > 1 {
      var k := n - 1;
      AtEnd(d, m, k);
      OffsetGrows(m.text, k);
      if Offset(m.text, k) == k {
        var o :| 0 <= o <= |d.content| && TextIndex(d.content, o) == m.position && AtCursor(d, m, k, o);
        EndIsClear(d.content, o, Reach(d.content, o, m, k));
        NarrowAtCursor(d, m, k, o);
      } else {
        WideAtEnd(d, m, k);
      }
    }
  }

  /** Behind index `a` and up to `i` some character outranks the letter. */
  ghost predicate Outranked(content: seq<Char>, a: nat, i: nat, letter: CharId)
    requires i < |content|
  {
    exists j :: a < j <= i && Outranks(content[j].id, letter)
  }

  lemma ClearIff(content: seq<Char>, a: nat, m: Typing, k: nat)
    requires a < |content| && k < |m.text|
    ensures Clear(content, a + 1, Reach(content, a + 1, m, k)) <==>
            forall i :: a < i < |content| && !content[i].deleted ==> Outranked(content, a, i, LetterId(m, k))
  {
    var o := Reach(content, a + 1, m, k);
    forall i | a < i < |content| ensures Outranked(content, a, i, LetterId(m, k)) <==> o <= i {
      if o <= i {
        assert Outranks(content[o].id, LetterId(m, k));
      }
    }
  }

  /** Inside the text: all letters but the last are one byte wide, and between the character before the position and
      every visible one behind it stands one that outranks the last letter. */
  ghost predicate Sheltered(content: seq<Char>, m: Typing)
    requires m.text != ""
  {
    var last := |m.text| - 1;
    && 0 < m.position < |Visible(content)|
    && (forall k :: 0 <= k < last ==> Width(m.text[k]) == 1)
    && var a := VisibleIndex(content, m.position - 1).value;
       forall i :: a < i < |content| && !content[i].deleted ==> Outranked(content, a, i, LetterId(m, last))
  }

  /** When ids do their work, an insertion message puts its letters where the sender has them if and only if it is at
      the end of the text, or inside it and sheltered. */
  lemma InPlaceIff(d: Doc, m: Typing)
    requires OwnIds(d.content, m) && m.position <= |Visible(d.content)|
    ensures InPlace(d, m, |m.text|) <==>
            m.text == "" || m.position == |Visible(d.content)| || Sheltered(d.content, m)
    ensures InPlace(d, m, |m.text|) ==>
            Visible(Typed(d, m, |m.text|).content) ==
            CollabEditor.Apply(Visible(d.content), CollabEditor.Insert(m.position, m.text))
  {
    hide Visible, Typed, Landing, OwnIds, Outranked, Clear, Reach, TextIndex, Offset, CollabEditor.Apply;
    var n, v := |m.text|, Visible(d.content);
    if n > 0 {
      if m.position == |v| {
        AtEnd(d, m, n);
      } else if m.position == 0 {
        FrontLandsAtEnd(d, m);
      } else {
        var a := VisibleIndex(d.content, m.position - 1).value;
        InsideIff(d, m, a, n);
        ClearIff(d.content, a, m, n - 1);
      }
    }
    if InPlace(d, m, n) {
      TypedText(d, m);
    }
  }

  lemma TypedText(d: Doc, m: Typing)
    requires m.position <= |Visible(d.content)| && InPlace(d, m, |m.text|)
    ensures Visible(Typed(d, m, |m.text|).content) ==
            CollabEditor.Apply(Visible(d.content), CollabEditor.Insert(m.position, m.text))
  {
    hide Visible, Typed, InPlace;
    var v := Visible(d.content);
    InPlaceText(d, m, |m.text|);
    assert m.text[..|m.text|] == m.text;
    assert v[..m.position] + "" + v[m.position..] == v;
  }

  lemma FrontLandsAtEnd(d: Doc, m: Typing)
    requires m.text != "" && m.position == 0
    ensures Landing(d, m, 0) == |Visible(d.content)|
  {
    hide TextIndex, CreateInsert, Visible;
    LandsNoEarlier(d.content, m.site, 0, m.text[0], m.clock);
  }

  ghost predicate Alone(content: seq<Char>, m: Typing) {
    forall i :: 0 <= i < |content| ==> content[i].id.site == m.site && content[i].id.clock <= m.clock
  }

  lemma AloneIsUnsheltered(content: seq<Char>, m: Typing)
    requires Alone(content, m) && 0 < m.position < |Visible(content)| && m.text != ""
    ensures !Sheltered(content, m)
  {
    var a, i := VisibleIndex(content, m.position - 1).value, VisibleIndex(content, m.position).value;
    AboveIsTotal(m.site, m.site);
    assert !Outranked(content, a, i, LetterId(m, |m.text| - 1));
    if i < a {
      BehindVisible(content, i);
      TextIndexGrows(content, i + 1, a);
    }
  }

  /** Someone whose characters are the only ones, with growing clocks, types in place at the end of the text only. */
  lemma AloneAtEndOnly(d: Doc, m: Typing)
    requires OwnIds(d.content, m) && m.position <= |Visible(d.content)| && m.text != "" && Alone(d.content, m)
    ensures InPlace(d, m, |m.text|) <==> m.position == |Visible(d.content)|
  {
    hide OwnIds, InPlace, Visible, Typed, Outranked;
    InPlaceIff(d, m);
    if 0 < m.position < |Visible(d.content)| {
      AloneIsUnsheltered(d.content, m);
    }
  }

  // ---------- the service ----------

  /** What an edit message makes of the document. */
  function Handle(d: Doc, user: string, clock: int, edit: CollabEditor.Edit): Doc {
    match edit
    case Insert(position, text) => Typed(d, Typing(user, position, clock, text), |text|)
    case Delete(position, length) => Erased(d, position, length)
  }

  /** The version that is acknowledged counts the changes: one for every letter, and for a deletion message, whose
      characters are the first to carry their ids, one for every character it takes from the text. */
  lemma AcknowledgedVersion(d: Doc, user: string, clock: int, edit: CollabEditor.Edit)
    requires edit.Delete? ==> AllFirst(d.content, edit.position, edit.length)
    ensures var d' := Handle(d, user, clock, edit);
            d'.version == d.version + if edit.Insert? then |edit.content| else |Visible(d.content)| - |Visible(d'.content)|
  {
    match edit
    case Insert(position, text) => TypedVersion(d, Typing(user, position, clock, text), |text|);
    case Delete(position, length) =>
      ErasedVersion(d, position, length);
      EraseIff(d, position, length);
  }

  lemma {:induction false} TypedVersion(d: Doc, m: Typing, n: nat)
    requires n <= |m.text|
    ensures Typed(d, m, n).version == d.version + n
  {
    hide Typed, Apply, LetterOp;
    if n == 0 {
      OneLetterStart(d, m);
    } else {
      TypedVersion(d, m, n - 1);
      TypedNext(d, m, n - 1);
      InsertVersion(Typed(d, m, n - 1), LetterOp(Typed(d, m, n - 1).content, m, n - 1));
    }
  }

  lemma InsertVersion(d: Doc, op: Op)
    requires op.Insert?
    ensures Apply(d, op).version == d.version + 1
  {}

  lemma EraseOneVersion(d: Doc, position: nat)
    ensures EraseOne(d, position).version == d.version + if position < |Visible(d.content)| then 1 else 0
  {}

  lemma {:induction false} ErasedVersion(d: Doc, position: nat, n: nat)
    requires AllFirst(d.content, position, n)
    ensures var v := |Visible(d.content)|;
            Erased(d, position, n).version == d.version + Min(position + n, v) - Min(position, v)
  {
    hide Visible, EraseOne, FirstBearer, CutRange;
    if n > 0 {
      forall i | 0 <= i < |d.content| && InRange(d.content, i, position, n - 1) ensures FirstBearer(d.content, i) {
        assert InRange(d.content, i, position, n);
      }
      ErasedVersion(d, position, n - 1);
      EraseIff(d, position, n - 1);
      EraseOneVersion(Erased(d, position, n - 1), position);
    }
  }

  /** The collaboration service, for one file of one session. */
  class CollaborationService {
    const doc: CrdtDocument
    var userClocks: map<string, int>

    constructor ()
      ensures doc.Value() == Doc([], 0) && userClocks == map[] && fresh(doc)
    {
      doc := new CrdtDocument();
      userClocks := map[];
    }

    method HandleEditOperation(user: string, edit: CollabEditor.Edit)
      modifies this`userClocks, doc
      ensures var clock := if user in old(userClocks) then old(userClocks)[user] else 0;
              && userClocks == old(userClocks)[user := clock + 1]
              && doc.Value() == Handle(old(doc.Value()), user, clock, edit)
    {
      hide Typed, Erased;
      var clock := if user in userClocks then userClocks[user] else 0;
      userClocks := userClocks[user := clock + 1];
      match edit
      case Insert(position, text) =>
        InsertText(user, position, clock, text);
      case Delete(position, length) =>
        EraseText(position, length);
    }

    method EraseText(position: nat, length: nat)
      modifies doc
      ensures doc.Value() == Erased(old(doc.Value()), position, length)
    {
      for i := 0 to length
        invariant doc.Value() == Erased(old(doc.Value()), position, i)
      {
        var crdtOp := CreateDelete(doc.content, position);
        if crdtOp.Some? {
          doc.ApplyOperation(crdtOp.value);
        }
      }
    }

    method InsertText(user: string, position: nat, clock: int, text: string)
      modifies doc
      ensures doc.Value() == Typed(old(doc.Value()), Typing(user, position, clock, text), |text|)
    {
      hide CreateInsert, Typed, Crdt.Apply;
      ghost var m := Typing(user, position, clock, text);
      var i := 0;
      OneLetterStart(doc.Value(), m);
      for k := 0 to |text|
        invariant i == Offset(text, k)
        invariant doc.Value() == Typed(old(doc.Value()), m, k)
      {
        var crdtOp := CreateInsert(doc.content, user, position + i, text[k], clock + i);
        OneLetter(old(doc.Value()), m, k, crdtOp);
        doc.ApplyOperation(crdtOp);
        i := i + Width(text[k]);
      }
    }
  }

  lemma OneLetterStart(d: Doc, m: Typing)
    ensures Typed(d, m, 0) == d
  {}

  lemma OneLetter(d: Doc, m: Typing, k: nat, op: Op)
    requires k < |m.text|
    requires op == CreateInsert(Typed(d, m, k).content, m.site, m.position + Offset(m.text, k), m.text[k],
                                m.clock + Offset(m.text, k))
    ensures Typed(d, m, k + 1) == Apply(Typed(d, m, k), op)
  {
    hide CreateInsert, Apply, Offset, Typed;
    TypedNext(d, m, k);
  }

  /** An insertion behind the first letter of a text none of whose characters outranks it. */
  lemma BehindFirst(d: Doc, op: Op)
    requires op.Insert? && d.content != [] && op.after == Some(d.content[0].id)
    requires forall i :: 0 < i < |d.content| ==> !Outranks(d.content[i].id, op.charId)
    ensures Apply(d, op).content == d.content + [Fresh(op)]
  {
    ScanIs(d.content, 1, op, |d.content|);
  }

  lemma TypeA(d: Doc)
    requires d.content == []
    ensures Typed(d, Typing("u", 0, 0, "ab"), 1).content == [Char(CharId("u", 0, 0), 'a', false)]
  {
    var a := CreateInsert([], "u", 0, 'a', 0);
    OneLetter(d, Typing("u", 0, 0, "ab"), 0, a);
    FrontInsertAppends(d, a);
  }

  lemma TypeAb(d: Doc)
    requires d.content == []
    ensures Handle(d, "u", 0, CollabEditor.Insert(0, "ab")).content ==
            [Char(CharId("u", 0, 0), 'a', false), Char(CharId("u", 1, 1), 'b', false)]
  {
    hide Typed;
    var m := Typing("u", 0, 0, "ab");
    TypeA(d);
    var b := CreateInsert(Typed(d, m, 1).content, "u", 1, 'b', 1);
    BehindFirst(Typed(d, m, 1), b);
    OneLetter(d, m, 1, b);
  }

  lemma TypeX(d: Doc)
    requires d.content == [Char(CharId("u", 0, 0), 'a', false), Char(CharId("u", 1, 1), 'b', false)]
    ensures Handle(d, "u", 1, CollabEditor.Insert(1, "x")).content == d.content + [Char(CharId("u", 1, 1), 'x', false)]
  {
    var x := CreateInsert(d.content, "u", 1, 'x', 1);
    AboveIsTotal("u", "u");
    BehindFirst(d, x);
    OneLetter(d, Typing("u", 1, 1, "x"), 0, x);
  }

  /** A message of several letters uses up more stamps than the clock is advanced by: "ab" at the start and then "x"
      behind the a, both by one user, give the b and the x one id. The x has gone to the end besides. Deleting the x
      there removes the b. */
  lemma ClockReuse()
    ensures var d := Handle(Handle(Doc([], 0), "u", 0, CollabEditor.Insert(0, "ab")), "u", 1, CollabEditor.Insert(1, "x"));
            && Visible(d.content) == "abx" && d.content[1].id == d.content[2].id
            && Visible(Handle(d, "u", 2, CollabEditor.Delete(2, 1)).content) == "ax"
  {
    hide Handle, Visible;
    var ab := Handle(Doc([], 0), "u", 0, CollabEditor.Insert(0, "ab"));
    TypeAb(Doc([], 0));
    TypeX(ab);
    DeleteX(Handle(ab, "u", 1, CollabEditor.Insert(1, "x")));
  }

  lemma DeleteX(d: Doc)
    requires d.content == [Char(CharId("u", 0, 0), 'a', false), Char(CharId("u", 1, 1), 'b', false),
                           Char(CharId("u", 1, 1), 'x', false)]
    ensures Visible(d.content) == "abx" && Visible(Handle(d, "u", 2, CollabEditor.Delete(2, 1)).content) == "ax"
  {
    var c := d.content;
    assert c[1..] == [c[1], c[2]] && c[1..][1..] == [c[2]];
    assert VisibleIndex(c, 2) == Some(2) && IndexOf(c, c[2].id) == Some(1);
    var r := Bury(c, 1);
    assert r == [c[0], c[1].(deleted := true), c[2]];
    VisibleAround([c[0]], r[1], [c[2]]);
    assert r == [c[0]] + [r[1]] + [c[2]];
    assert Erased(d, 2, 1) == EraseOne(Erased(d, 2, 0), 2);
    assert Visible([c[0]]) == "a" && Visible([c[2]]) == "x";
  }
}
