/** The collaboration server's replicated document (services/realtime/internal/services/crdt_engine.go).

    The engine promises that operations commute, so that replicas converge whatever order they apply them in.
    The lemmas below say exactly when that is so for the insertion rule the code uses.
 */
module Crdt {
  import opened Common

  datatype CharId = CharId(site: string, clock: int, offset: int)

  datatype Char = Char(id: CharId, value: char, deleted: bool)

  datatype Op =
    | Insert(charId: CharId, value: char, after: Option<CharId>)
    | Delete(charId: CharId)

  datatype Doc = Doc(content: seq<Char>, version: nat)

  /** String order: `s > t` in the source. */
  predicate Above(s: string, t: string) {
    s != [] && (t == [] || s[0] > t[0] || (s[0] == t[0] && Above(s[1..], t[1..])))
  }

  /** At `k`, where `s` and `t` part, `s` has the greater letter or `t` is at its end. */
  predicate GreaterAt(s: string, t: string, k: nat) {
    k < |s| && k <= |t| && s[..k] == t[..k] && (k == |t| || s[k] > t[k])
  }

  lemma {:induction false} AboveIff(s: string, t: string)
    ensures Above(s, t) <==> exists k: nat :: GreaterAt(s, t, k)
  {
    if s != [] && t != [] && s[0] == t[0] {
      AboveIff(s[1..], t[1..]);
      if Above(s, t) {
        var k: nat :| GreaterAt(s[1..], t[1..], k);
        assert s[..k + 1] == [s[0]] + s[1..][..k] && t[..k + 1] == [t[0]] + t[1..][..k];
        assert GreaterAt(s, t, k + 1);
      }
      forall k: nat | GreaterAt(s, t, k) ensures Above(s, t) {
        assert s[1..][..k - 1] == s[..k][1..] && t[1..][..k - 1] == t[..k][1..];
        assert GreaterAt(s[1..], t[1..], k - 1);
      }
    } else if Above(s, t) {
      assert GreaterAt(s, t, 0);
    } else {
      forall k: nat ensures !GreaterAt(s, t, k) {
        assert k > 0 && k < |s| && k <= |t| ==> s[..k][0] == s[0] && t[..k][0] == t[0];
      }
    }
  }

  lemma {:induction false} AboveIsTotal(s: string, t: string)
    ensures Above(s, t) ==> s != t && !Above(t, s)
    ensures Above(s, t) || Above(t, s) || s == t
  {
    if s != [] && t != [] && s[0] == t[0] {
      AboveIsTotal(s[1..], t[1..]);
      assert s == [s[0]] + s[1..] && t == [t[0]] + t[1..];
    }
  }

  lemma {:induction false} AboveIsTransitive(s: string, t: string, u: string)
    requires Above(s, t) && Above(t, u)
    ensures Above(s, u)
  {
    if u != [] && s[0] == t[0] == u[0] {
      AboveIsTransitive(s[1..], t[1..], u[1..]);
    }
  }

  /** The order of two ids: by site, then by clock. */
  predicate Outranks(a: CharId, b: CharId) {
    Above(a.site, b.site) || (a.site == b.site && a.clock > b.clock)
  }

  /** The scan of an insertion stops in front of this character. Without an anchor nothing stops it. */
  predicate Blocks(existing: CharId, op: Op)
    requires op.Insert?
  {
    op.after.Some? && Outranks(existing, op.charId)
  }

  function IndexOf(content: seq<Char>, id: CharId): (i: Option<nat>)
    ensures i.Some? ==> i.value < |content| && content[i.value].id == id
    ensures i.Some? ==> forall j :: 0 <= j < i.value ==> content[j].id != id
    ensures i.None? ==> forall j :: 0 <= j < |content| ==> content[j].id != id
  {
    if content == [] then None
    else if content[0].id == id then Some(0)
    else match IndexOf(content[1..], id)
      case None => None
      case Some(i) => Some(i + 1)
  }

  function Start(content: seq<Char>, after: Option<CharId>): (s: nat)
    ensures s <= |content|
  {
    match after
    case None => 0
    case Some(id) =>
      match IndexOf(content, id)
      case None => 0
      case Some(i) => i + 1
  }

  /** First position at or after `pos` whose character blocks `op`, or the end. */
  function Scan(content: seq<Char>, pos: nat, op: Op): (p: nat)
    requires pos <= |content| && op.Insert?
    ensures pos <= p <= |content|
    ensures forall i :: pos <= i < p ==> !Blocks(content[i].id, op)
    ensures p < |content| ==> Blocks(content[p].id, op)
    decreases |content| - pos
  {
    if pos == |content| || Blocks(content[pos].id, op) then pos else Scan(content, pos + 1, op)
  }

  function InsertPos(content: seq<Char>, op: Op): (p: nat)
    requires op.Insert?
    ensures Start(content, op.after) <= p <= |content|
  {
    Scan(content, Start(content, op.after), op)
  }

  /** A character in front of which an anchored insertion is put: its site is the greater string, or the site is the same
      and its clock the later one. */
  ghost predicate Before(existing: CharId, inserted: CharId) {
    || (exists k: nat :: GreaterAt(existing.site, inserted.site, k))
    || (existing.site == inserted.site && existing.clock > inserted.clock)
  }

  /** Where the scan begins: behind the first character with the anchor's id, and at the start when there is none. */
  ghost predicate Begins(content: seq<Char>, after: Option<CharId>, s: nat) {
    if exists i: nat :: FirstWith(content, after, i)
    then exists i: nat :: FirstWith(content, after, i) && s == i + 1
    else s == 0
  }

  ghost predicate FirstWith(content: seq<Char>, after: Option<CharId>, i: nat) {
    i < |content| && Some(content[i].id) == after && forall j :: 0 <= j < i ==> content[j].id != content[i].id
  }

  /** An insertion lands at the first position from the beginning of its scan that an existing character holds against
      it, and at the end if there is none; without an anchor, always at the end. */
  lemma LandsWhere(content: seq<Char>, op: Op)
    requires op.Insert?
    ensures var p := InsertPos(content, op);
            if op.after.None? then p == |content|
            else exists s: nat :: Begins(content, op.after, s) && s <= p <= |content|
                                  && (forall i :: s <= i < p ==> !Before(content[i].id, op.charId))
                                  && (p < |content| ==> Before(content[p].id, op.charId))
  {
    var s, p := Start(content, op.after), InsertPos(content, op);
    forall i | 0 <= i < |content| ensures Before(content[i].id, op.charId) <==> Outranks(content[i].id, op.charId) {
      AboveIff(content[i].id.site, op.charId.site);
    }
    if op.after.Some? {
      BeginsAtStart(content, op.after);
    }
  }

  lemma BeginsAtStart(content: seq<Char>, after: Option<CharId>)
    requires after.Some?
    ensures Begins(content, after, Start(content, after))
  {
    var i := IndexOf(content, after.value);
    if i.Some? {
      assert FirstWith(content, after, i.value);
    }
  }

  function InsertAt(content: seq<Char>, p: nat, c: Char): (r: seq<Char>)
    requires p <= |content|
    ensures |r| == |content| + 1 && r[p] == c
    ensures forall i :: 0 <= i < p ==> r[i] == content[i]
    ensures forall i :: p < i < |r| ==> r[i] == content[i - 1]
  {
    content[..p] + [c] + content[p..]
  }

  function Fresh(op: Op): Char
    requires op.Insert?
  {
    Char(op.charId, op.value, false)
  }

  function Bury(content: seq<Char>, i: nat): seq<Char>
    requires i < |content|
  {
    content[i := content[i].(deleted := true)]
  }

  function Apply(d: Doc, op: Op): Doc {
    match op
    case Insert(_, _, _) => Doc(InsertAt(d.content, InsertPos(d.content, op), Fresh(op)), d.version + 1)
    case Delete(id) =>
      match IndexOf(d.content, id)
      case None => d
      case Some(i) => Doc(Bury(d.content, i), d.version + 1)
  }

  function Visible(content: seq<Char>): string {
    if content == [] then ""
    else Shown(content[0]) + Visible(content[1..])
  }

  function Shown(c: Char): string {
    if c.deleted then "" else [c.value]
  }

  class CrdtDocument {
    var content: seq<Char>
    var version: nat

    constructor ()
      ensures Value() == Doc([], 0)
    {
      content, version := [], 0;
    }

    ghost function Value(): Doc
      reads this
    {
      Doc(content, version)
    }

    method ApplyOperation(op: Op)
      modifies this
      ensures Value() == Apply(old(Value()), op)
    {
      match op
      case Insert(_, _, _) => ApplyInsert(op);
      case Delete(_) => ApplyDelete(op);
    }

    method ApplyInsert(op: Op)
      requires op.Insert?
      modifies this
      ensures Value() == Apply(old(Value()), op)
    {
      var insertPos := 0;
      if op.after.Some? {
        var i := 0;
        while i < |content|
          invariant 0 <= i <= |content| && insertPos == 0
          invariant forall j :: 0 <= j < i ==> content[j].id != op.after.value
        {
          if content[i].id == op.after.value {
            insertPos := i + 1;
            break;
          }
          i := i + 1;
        }
      }
      assert insertPos == Start(content, op.after);
      while insertPos < |content|
        invariant insertPos <= |content|
        invariant Scan(content, insertPos, op) == InsertPos(content, op)
      {
        var existing := content[insertPos];
        if op.after.Some? && Above(existing.id.site, op.charId.site) {
          break;
        }
        if op.after.Some? && existing.id.site == op.charId.site && existing.id.clock > op.charId.clock {
          break;
        }
        insertPos := insertPos + 1;
      }
      content := content[..insertPos] + [Char(op.charId, op.value, false)] + content[insertPos..];
      version := version + 1;
    }

    method ApplyDelete(op: Op)
      requires op.Delete?
      modifies this
      ensures Value() == Apply(old(Value()), op)
    {
      var i := 0;
      while i < |content|
        invariant 0 <= i <= |content| && content == old(content) && version == old(version)
        invariant forall j :: 0 <= j < i ==> content[j].id != op.charId
      {
        if content[i].id == op.charId {
          content := content[i := content[i].(deleted := true)];
          version := version + 1;
          return;
        }
        i := i + 1;
      }
    }

    method GetContent() returns (text: string)
      ensures text == Visible(content)
    {
      text := "";
      var i := 0;
      while i < |content|
        invariant 0 <= i <= |content|
        invariant Visible(content) == text + Visible(content[i..])
      {
        calc {
          Visible(content);
          text + Visible(content[i..]);
          { assert content[i..][1..] == content[i + 1..]; }
          text + (Shown(content[i]) + Visible(content[i + 1..]));
          { Assoc(text, Shown(content[i]), Visible(content[i + 1..])); }
          text + Shown(content[i]) + Visible(content[i + 1..]);
        }
        if !content[i].deleted {
          text := text + [content[i].value];
        } else {
          assert text + Shown(content[i]) == text;
        }
        i := i + 1;
      }
    }
  }

  // ---------- when two operations commute ----------

  ghost predicate Commute(d: Doc, a: Op, b: Op) {
    Apply(Apply(d, a), b) == Apply(Apply(d, b), a)
  }

  /** Different characters, and neither is inserted directly behind the other. */
  predicate Concurrent(a: Op, b: Op)
    requires a.Insert? && b.Insert?
  {
    a.charId != b.charId && a.after != Some(b.charId) && b.after != Some(a.charId)
  }

  lemma IndexIs(content: seq<Char>, id: CharId, i: nat)
    requires i < |content| && content[i].id == id && forall j :: 0 <= j < i ==> content[j].id != id
    ensures IndexOf(content, id) == Some(i)
  {
    var k := IndexOf(content, id);
    assert k.Some?;
    assert k.value == i;
  }

  lemma IndexIsNone(content: seq<Char>, id: CharId)
    requires forall j :: 0 <= j < |content| ==> content[j].id != id
    ensures IndexOf(content, id) == None
  {
    assert IndexOf(content, id).None?;
  }

  lemma IndexAfterInsert(content: seq<Char>, p: nat, c: Char, id: CharId)
    requires p <= |content| && c.id != id
    ensures IndexOf(InsertAt(content, p, c), id) ==
            match IndexOf(content, id) case None => None case Some(i) => Some(if p <= i then i + 1 else i)
  {
    var r, found := InsertAt(content, p, c), IndexOf(content, id);
    var bound := if found.None? then |r| else if p <= found.value then found.value + 1 else found.value;
    forall j | 0 <= j < bound ensures r[j].id != id {
      if j > p { assert r[j] == content[j - 1]; }
    }
    if found.None? {
      IndexIsNone(r, id);
    } else {
      assert r[bound] == content[found.value];
      IndexIs(r, id, bound);
    }
  }

  lemma ScanIs(content: seq<Char>, pos: nat, op: Op, q: nat)
    requires op.Insert? && pos <= q <= |content|
    requires forall i :: pos <= i < q ==> !Blocks(content[i].id, op)
    requires q < |content| ==> Blocks(content[q].id, op)
    ensures Scan(content, pos, op) == q
  {
    assert Scan(content, pos, op) == q;
  }

  lemma StartAfter(content: seq<Char>, p: nat, c: Char, after: Option<CharId>)
    requires p <= |content| && after != Some(c.id)
    ensures Start(InsertAt(content, p, c), after) ==
            if p < Start(content, after) then Start(content, after) + 1 else Start(content, after)
  {
    if after.Some? {
      IndexAfterInsert(content, p, c, after.value);
    }
  }

  /** Where `b` lands once `a` has landed. */
  function PosAfter(content: seq<Char>, a: Op, b: Op): nat
    requires a.Insert? && b.Insert?
  {
    var pa, pb := InsertPos(content, a), InsertPos(content, b);
    if pa < Start(content, b.after) then pb + 1
    else if pa > pb then pb
    else if Blocks(a.charId, b) then pa
    else pb + 1
  }

  lemma LandsAt(content: seq<Char>, a: Op, b: Op)
    requires a.Insert? && b.Insert? && Concurrent(a, b)
    ensures InsertPos(InsertAt(content, InsertPos(content, a), Fresh(a)), b) == PosAfter(content, a, b)
  {
    hide Blocks, Scan, IndexOf;
    var pa, pb, sb := InsertPos(content, a), InsertPos(content, b), Start(content, b.after);
    var r := InsertAt(content, pa, Fresh(a));
    StartAfter(content, pa, Fresh(a), b.after);
    var s, q := Start(r, b.after), PosAfter(content, a, b);
    assert q < |r| ==> Blocks(r[q].id, b);
    forall i | s <= i < q ensures !Blocks(r[i].id, b) {
      assert r[i] == if i < pa then content[i] else if i == pa then Fresh(a) else content[i - 1];
    }
    ScanIs(r, s, b, q);
  }

  lemma InsertsSwap(s: seq<Char>, p: nat, x: Char, q: nat, y: Char)
    requires p <= q <= |s|
    ensures InsertAt(InsertAt(s, p, x), q + 1, y) == InsertAt(InsertAt(s, q, y), p, x)
  {}

  /** Exactly one of two insertions stops the scan of the other. */
  predicate OneBlocks(a: Op, b: Op)
    requires a.Insert? && b.Insert?
  {
    Blocks(a.charId, b) != Blocks(b.charId, a)
  }

  /** The exact condition under which two concurrent insertions commute: they aim at different positions, or
      exactly one stops the other. */
  predicate InsertsCommute(content: seq<Char>, a: Op, b: Op)
    requires a.Insert? && b.Insert?
  {
    InsertPos(content, a) != InsertPos(content, b) || OneBlocks(a, b)
  }

  lemma InsertsCommuteIff(d: Doc, a: Op, b: Op)
    requires a.Insert? && b.Insert? && Concurrent(a, b)
    ensures Commute(d, a, b) <==> InsertsCommute(d.content, a, b)
  {
    if InsertPos(d.content, a) <= InsertPos(d.content, b) {
      InsertsCommuteOrdered(d, a, b);
    } else {
      InsertsCommuteOrdered(d, b, a);
    }
  }

  lemma InsertsCommuteOrdered(d: Doc, a: Op, b: Op)
    requires a.Insert? && b.Insert? && Concurrent(a, b)
    requires InsertPos(d.content, a) <= InsertPos(d.content, b)
    ensures Commute(d, a, b) <==> InsertsCommute(d.content, a, b)
  {
    LandsAt(d.content, a, b);
    LandsAt(d.content, b, a);
    if InsertPos(d.content, a) < InsertPos(d.content, b) {
      EarlierDoesNotBlock(d.content, a, b);
    }
    OrdersAgreeIff(d.content, InsertPos(d.content, a), Fresh(a), InsertPos(d.content, b), Fresh(b),
                   PosAfter(d.content, a, b), PosAfter(d.content, b, a));
  }

  /** An insertion that lands before another's position does not stop it: what stopped it would stop the other. */
  lemma EarlierDoesNotBlock(content: seq<Char>, a: Op, b: Op)
    requires a.Insert? && b.Insert? && InsertPos(content, a) < InsertPos(content, b)
    ensures Start(content, b.after) <= InsertPos(content, a) ==> !Blocks(a.charId, b)
  {
    var p := InsertPos(content, a);
    assert Blocks(content[p].id, a);
    if Blocks(a.charId, b) {
      OutranksIsTransitive(content[p].id, a.charId, b.charId);
    }
  }

  lemma OutranksIsTransitive(x: CharId, y: CharId, z: CharId)
    requires Outranks(x, y) && Outranks(y, z)
    ensures Outranks(x, z)
  {
    if Above(x.site, y.site) && Above(y.site, z.site) {
      AboveIsTransitive(x.site, y.site, z.site);
    }
  }

  /** `y` is put at `qy` once `x` is in at `px`; `x` is put at `qx` once `y` is in at `py`. */
  lemma OrdersAgreeIff(s: seq<Char>, px: nat, x: Char, py: nat, y: Char, qy: nat, qx: nat)
    requires px <= py <= |s| && x.id != y.id
    requires qy in {px, py + 1} && (if px < py then qx == px else qx in {px, px + 1})
    ensures InsertAt(InsertAt(s, px, x), qy, y) == InsertAt(InsertAt(s, py, y), qx, x) <==>
            (if px < py then qy == py + 1 else (qy == px) == (qx == px + 1))
  {
    var xy, yx := InsertAt(InsertAt(s, px, x), qy, y), InsertAt(InsertAt(s, py, y), qx, x);
    if qy == py + 1 && qx == px {
      InsertsSwap(s, px, x, py, y);
    } else if qy == px && qx == px + 1 {
      InsertsSwap(s, px, y, px, x);
    } else {
      assert xy[px] != yx[px];
    }
  }

  /** An insertion and a deletion commute exactly when the deletion is not of the inserted id, or an earlier
      character already carries that id, so that both orders delete that one. */
  lemma InsertDeleteCommuteIff(d: Doc, a: Op, id: CharId)
    requires a.Insert?
    ensures Commute(d, a, Delete(id)) <==>
            a.charId != id || (var i := IndexOf(d.content, id); i.Some? && i.value < InsertPos(d.content, a))
  {
    var p, i := InsertPos(d.content, a), IndexOf(d.content, id);
    var r := Apply(d, a).content;
    if a.charId != id {
      InsertIgnoresTombstone(d, a, id);
    } else {
      assert forall j :: 0 <= j < p ==> r[j] == d.content[j];
      IndexIs(r, id, if i.Some? && i.value < p then i.value else p);
      if i.Some? {
        SameIds(d.content, Bury(d.content, i.value), a);
        if i.value < p {
          BuryAfterInsert(d.content, p, Fresh(a), i.value);
        }
      }
      if i.None? || p <= i.value {
        assert Apply(Apply(d, a), Delete(id)).content[p].deleted;
        assert !Apply(Apply(d, Delete(id)), a).content[p].deleted;
      }
    }
  }

  lemma InsertIgnoresTombstone(d: Doc, a: Op, id: CharId)
    requires a.Insert? && a.charId != id
    ensures Commute(d, a, Delete(id))
  {
    var p := InsertPos(d.content, a);
    IndexAfterInsert(d.content, p, Fresh(a), id);
    match IndexOf(d.content, id)
    case None =>
    case Some(i) =>
      SameIds(d.content, Bury(d.content, i), a);
      BuryAfterInsert(d.content, p, Fresh(a), i);
  }

  lemma BuryAfterInsert(s: seq<Char>, p: nat, c: Char, i: nat)
    requires p <= |s| && i < |s|
    ensures Bury(InsertAt(s, p, c), if p <= i then i + 1 else i) == InsertAt(Bury(s, i), p, c)
  {}

  /** Where an insertion lands depends on the ids alone. */
  lemma SameIds(s: seq<Char>, t: seq<Char>, a: Op)
    requires a.Insert? && |s| == |t| && forall j :: 0 <= j < |t| ==> t[j].id == s[j].id
    ensures InsertPos(s, a) == InsertPos(t, a)
  {
    assert Start(s, a.after) == Start(t, a.after) by {
      if a.after.Some? {
        var x, y := IndexOf(s, a.after.value), IndexOf(t, a.after.value);
        assert x.Some? ==> t[x.value].id == a.after.value;
        assert y.Some? ==> s[y.value].id == a.after.value;
      }
    }
    ScanIs(t, Start(t, a.after), a, InsertPos(s, a));
  }

  lemma DeletesCommute(d: Doc, x: CharId, y: CharId)
    ensures Commute(d, Delete(x), Delete(y))
  {
    TombstoneKeepsIndex(d, x, y);
    TombstoneKeepsIndex(d, y, x);
    assert Apply(Apply(d, Delete(x)), Delete(y)).content == Apply(Apply(d, Delete(y)), Delete(x)).content;
  }

  lemma TombstoneKeepsIndex(d: Doc, x: CharId, y: CharId)
    ensures IndexOf(Apply(d, Delete(x)).content, y) == IndexOf(d.content, y)
  {
    var t := Apply(d, Delete(x)).content;
    assert forall j :: 0 <= j < |t| ==> t[j].id == d.content[j].id;
    var i, j := IndexOf(d.content, y), IndexOf(t, y);
    assert i.Some? ==> t[i.value].id == y;
    assert j.Some? ==> d.content[j.value].id == y;
  }

  /** Two concurrent insertions commute on every document exactly when exactly one of them stops the other; the
      empty document already tells. */
  lemma AlwaysCommuteIff(a: Op, b: Op)
    requires a.Insert? && b.Insert? && Concurrent(a, b)
    ensures (forall d :: Commute(d, a, b)) <==> OneBlocks(a, b)
    ensures Commute(Doc([], 0), a, b) <==> OneBlocks(a, b)
  {
    InsertsCommuteIff(Doc([], 0), a, b);
    if OneBlocks(a, b) {
      forall d ensures Commute(d, a, b) {
        InsertsCommuteIff(d, a, b);
      }
    }
  }

  predicate SameStamp(a: Op, b: Op)
    requires a.Insert? && b.Insert?
  {
    a.charId.site == b.charId.site && a.charId.clock == b.charId.clock
  }

  /** Which pairs those are: with two anchors, all with different stamps; with one, those whose unanchored
      insertion outranks the other; with none, none. */
  lemma OneBlocksWhen(a: Op, b: Op)
    requires a.Insert? && b.Insert?
    ensures a.after.Some? && b.after.Some? ==> (OneBlocks(a, b) <==> !SameStamp(a, b))
    ensures a.after.None? && b.after.Some? ==> (OneBlocks(a, b) <==> Outranks(a.charId, b.charId))
    ensures a.after.None? && b.after.None? ==> !OneBlocks(a, b)
  {
    AboveIsTotal(a.charId.site, b.charId.site);
  }

  /** Two insertions at the very front carry no anchor; both go to the end, so the replica's text records the
      order of arrival. The two orders agree on no document. */
  lemma FrontInsertsNeverCommute(d: Doc, a: Op, b: Op)
    requires a.Insert? && b.Insert? && a.charId != b.charId && a.after.None? && b.after.None?
    ensures !Commute(d, a, b)
    ensures Visible(Apply(Apply(d, a), b).content) == Visible(d.content) + [a.value, b.value]
    ensures Visible(Apply(Apply(d, b), a).content) == Visible(d.content) + [b.value, a.value]
  {
    TwoFrontInserts(d, a, b);
    TwoFrontInserts(d, b, a);
    assert Apply(Apply(d, a), b).content[|d.content|].id != Apply(Apply(d, b), a).content[|d.content|].id;
  }

  lemma TwoFrontInserts(d: Doc, a: Op, b: Op)
    requires a.Insert? && b.Insert? && a.after.None? && b.after.None?
    ensures var r := Apply(Apply(d, a), b).content;
            && |r| > |d.content| && r[|d.content|].id == a.charId
            && Visible(r) == Visible(d.content) + [a.value, b.value]
  {
    FrontInsertAppends(d, a);
    FrontInsertAppends(Apply(d, a), b);
    Assoc(Visible(d.content), [a.value], [b.value]);
    assert [a.value] + [b.value] == [a.value, b.value];
  }

  lemma FrontInsertAppends(d: Doc, a: Op)
    requires a.Insert? && a.after.None?
    ensures Apply(d, a).content == d.content + [Fresh(a)]
    ensures Visible(Apply(d, a).content) == Visible(d.content) + [a.value]
  {
    ScanIs(d.content, 0, a, |d.content|);
    VisibleConcat(d.content, [Fresh(a)]);
  }

  lemma {:induction false} VisibleConcat(s: seq<Char>, t: seq<Char>)
    ensures Visible(s + t) == Visible(s) + Visible(t)
    decreases |s|
  {
    if s == [] {
      assert s + t == t;
    } else {
      VisibleConcat(s[1..], t);
      calc {
        Visible(s + t);
        { assert (s + t)[0] == s[0] && (s + t)[1..] == s[1..] + t; }
        Shown(s[0]) + Visible(s[1..] + t);
        Shown(s[0]) + (Visible(s[1..]) + Visible(t));
        { Assoc(Shown(s[0]), Visible(s[1..]), Visible(t)); }
        Visible(s) + Visible(t);
      }
    }
  }
}
