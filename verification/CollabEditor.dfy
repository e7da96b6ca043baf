/** Collaborative editing in the web client (apps/web/src/components/CollaborativeEditor.tsx): how a sender turns
    a change event of its buffer into operations, and how a receiver replays them. Positions are offsets.
 */
module CollabEditor {
  import opened Common

  /** One change of a buffer event: the replaced range, in offsets of the buffer before the event, and its text. */
  datatype Change = Change(offset: nat, length: nat, text: string)

  datatype Edit = Insert(position: nat, content: string) | Delete(position: nat, length: nat)

  datatype Operation = Operation(filePath: string, edit: Edit)

  function Replace(doc: string, from: nat, to: nat, text: string): string
    requires from <= to <= |doc|
  {
    doc[..from] + text + doc[to..]
  }

  // ---------- the sender ----------

  /** Changes as an event lists them: from the end of the buffer to its start, without overlap. */
  predicate Descending(changes: seq<Change>, bound: nat) {
    changes == [] ||
    (changes[0].offset + changes[0].length <= bound && Descending(changes[1..], changes[0].offset))
  }

  /** The buffer after an event: every range of the old buffer replaced at once. */
  function Replaced(doc: string, changes: seq<Change>): string
    requires Descending(changes, |doc|)
    decreases |changes|
  {
    if changes == [] then doc
    else
      var c := changes[0];
      Replaced(doc[..c.offset], changes[1..]) + c.text + doc[c.offset + c.length..]
  }

  /** What one change emits: the insertion first, then the deletion, both at the same offset. */
  function Emit(c: Change): seq<Edit> {
    (if c.text != "" then [Insert(c.offset, c.text)] else []) +
    (if c.length > 0 then [Delete(c.offset, c.length)] else [])
  }

  function EmitAll(changes: seq<Change>): seq<Edit> {
    if changes == [] then [] else Emit(changes[0]) + EmitAll(changes[1..])
  }

  function For(filePath: string, edits: seq<Edit>): (ops: seq<Operation>)
    ensures |ops| == |edits| && forall i :: 0 <= i < |ops| ==> ops[i] == Operation(filePath, edits[i])
  {
    seq(|edits|, i requires 0 <= i < |edits| => Operation(filePath, edits[i]))
  }

  // ---------- the receiver ----------

  /** Offsets beyond the end are positions at the end. */
  function Clamp(offset: nat, doc: string): (p: nat)
    ensures p <= |doc| && (offset <= |doc| ==> p == offset) && (offset > |doc| ==> p == |doc|)
  {
    Min(offset, |doc|)
  }

  function Apply(doc: string, e: Edit): string {
    match e
    case Insert(p, content) => if content == "" then doc else Replace(doc, Clamp(p, doc), Clamp(p, doc), content)
    case Delete(p, n) => if n == 0 then doc else Replace(doc, Clamp(p, doc), Clamp(p + n, doc), "")
  }

  function ApplyAll(doc: string, edits: seq<Edit>): string
    decreases |edits|
  {
    if edits == [] then doc else ApplyAll(Apply(doc, edits[0]), edits[1..])
  }

  /** The operations for one file. */
  function EditsFor(filePath: string, ops: seq<Operation>): seq<Edit> {
    if ops == [] then []
    else (if ops[0].filePath == filePath then [ops[0].edit] else []) + EditsFor(filePath, ops[1..])
  }

  // ---------- the component ----------

  class Editor {
    const filePath: string
    var doc: string
    /** `isRemoteChangeRef` */
    var isRemoteChange: bool
    /** `pendingOperations` of the store */
    var pending: seq<Operation>
    /** What `sendEdit` has sent. */
    var outbox: seq<Operation>

    constructor (filePath: string, doc: string)
      ensures this.filePath == filePath && this.doc == doc && !isRemoteChange && pending == [] && outbox == []
    {
      this.filePath, this.doc := filePath, doc;
      isRemoteChange, pending, outbox := false, [], [];
    }

    method OnDidChangeModelContent(changes: seq<Change>)
      modifies this`outbox
      ensures outbox == old(outbox) + if isRemoteChange then [] else For(filePath, EmitAll(changes))
    {
      if isRemoteChange {
        return;
      }
      for i := 0 to |changes|
        invariant outbox + For(filePath, EmitAll(changes[i..])) == old(outbox) + For(filePath, EmitAll(changes))
      {
        EmitStep(outbox, filePath, changes, i);
        SendChange(changes[i]);
      }
    }

    /** The body of the listener's loop. */
    method SendChange(change: Change)
      modifies this`outbox
      ensures outbox == old(outbox) + For(filePath, Emit(change))
    {
      if change.text != "" {
        outbox := outbox + [Operation(filePath, Insert(change.offset, change.text))];
      }
      if change.length > 0 {
        outbox := outbox + [Operation(filePath, Delete(change.offset, change.length))];
      }
    }

    /** A local event: the buffer has changed, then the listener runs. */
    method LocalEvent(changes: seq<Change>)
      requires Descending(changes, |doc|) && !isRemoteChange
      modifies this`doc, this`outbox
      ensures doc == Replaced(old(doc), changes)
      ensures outbox == old(outbox) + For(filePath, EmitAll(changes))
    {
      doc := Replaced(doc, changes);
      OnDidChangeModelContent(changes);
    }

    /** `executeEdits`: it changes the buffer, and the listener runs for this change as for any other. */
    method ExecuteEdit(from: nat, to: nat, text: string)
      requires from <= to <= |doc| && isRemoteChange
      modifies this`doc, this`outbox
      ensures doc == Replace(old(doc), from, to, text) && outbox == old(outbox)
    {
      doc := Replace(doc, from, to, text);
      OnDidChangeModelContent([Change(from, to - from, text)]);
    }

    method ApplyRemoteEdit(op: Operation)
      modifies this`pending
      ensures pending == old(pending) + [op]
    {
      pending := pending + [op];
    }

    /** The body of the replay loop. */
    method Replay(op: Operation)
      requires isRemoteChange
      modifies this`doc, this`outbox
      ensures doc == if op.filePath == filePath then Apply(old(doc), op.edit) else old(doc)
      ensures outbox == old(outbox)
    {
      if op.filePath != filePath {
        return;
      }
      match op.edit
      case Insert(position, content) =>
        if content != "" {
          ExecuteEdit(Clamp(position, doc), Clamp(position, doc), content);
        }
      case Delete(position, length) =>
        if length > 0 {
          ExecuteEdit(Clamp(position, doc), Clamp(position + length, doc), "");
        }
    }

    /** The pending-operations effect. Replay sends nothing of its own. */
    method ReplayPending()
      modifies this
      ensures doc == ApplyAll(old(doc), EditsFor(filePath, old(pending)))
      ensures outbox == old(outbox) && pending == []
      ensures !isRemoteChange || old(isRemoteChange && pending == [])
    {
      if pending == [] {
        return;
      }
      isRemoteChange := true;
      for i := 0 to |pending|
        invariant isRemoteChange && pending == old(pending) && outbox == old(outbox)
        invariant ApplyAll(doc, EditsFor(filePath, pending[i..])) == ApplyAll(old(doc), EditsFor(filePath, pending))
      {
        ReplayStep(filePath, doc, pending, i);
        Replay(pending[i]);
      }
      isRemoteChange := false;
      pending := [];
    }
  }

  lemma ForConcat(filePath: string, a: seq<Edit>, b: seq<Edit>)
    ensures For(filePath, a + b) == For(filePath, a) + For(filePath, b)
  {}

  lemma EmitStep(sent: seq<Operation>, filePath: string, changes: seq<Change>, i: nat)
    requires i < |changes|
    ensures sent + For(filePath, EmitAll(changes[i..])) ==
            (sent + For(filePath, Emit(changes[i]))) + For(filePath, EmitAll(changes[i + 1..]))
  {
    assert changes[i..][1..] == changes[i + 1..];
    ForConcat(filePath, Emit(changes[i]), EmitAll(changes[i + 1..]));
  }

  lemma ReplayStep(filePath: string, doc: string, ops: seq<Operation>, i: nat)
    requires i < |ops|
    ensures var next := if ops[i].filePath == filePath then Apply(doc, ops[i].edit) else doc;
            ApplyAll(doc, EditsFor(filePath, ops[i..])) == ApplyAll(next, EditsFor(filePath, ops[i + 1..]))
  {
    var rest := EditsFor(filePath, ops[i + 1..]);
    assert ops[i..][1..] == ops[i + 1..];
    if ops[i].filePath == filePath {
      assert ([ops[i].edit] + rest)[1..] == rest;
    } else {
      assert [] + rest == rest;
    }
  }

  // ---------- replay ----------

  lemma {:induction false} ApplyAllConcat(doc: string, a: seq<Edit>, b: seq<Edit>)
    ensures ApplyAll(doc, a + b) == ApplyAll(ApplyAll(doc, a), b)
    decreases |a|
  {
    if a == [] {
      assert a + b == b;
    } else {
      calc {
        ApplyAll(doc, a + b);
        { assert (a + b)[1..] == a[1..] + b && (a + b)[0] == a[0]; }
        ApplyAll(Apply(doc, a[0]), a[1..] + b);
        { ApplyAllConcat(Apply(doc, a[0]), a[1..], b); }
        ApplyAll(ApplyAll(Apply(doc, a[0]), a[1..]), b);
      }
    }
  }

  lemma {:induction false} EditsForConcat(filePath: string, a: seq<Operation>, b: seq<Operation>)
    ensures EditsFor(filePath, a + b) == EditsFor(filePath, a) + EditsFor(filePath, b)
  {
    if a == [] {
      assert a + b == b;
    } else {
      var first := if a[0].filePath == filePath then [a[0].edit] else [];
      calc {
        EditsFor(filePath, a + b);
        { assert (a + b)[1..] == a[1..] + b; }
        first + EditsFor(filePath, a[1..] + b);
        { EditsForConcat(filePath, a[1..], b); }
        first + (EditsFor(filePath, a[1..]) + EditsFor(filePath, b));
        (first + EditsFor(filePath, a[1..])) + EditsFor(filePath, b);
      }
    }
  }

  /** Replaying a queue in two batches, however it is cut, is replaying it at once. */
  lemma BatchesDoNotMatter(filePath: string, doc: string, a: seq<Operation>, b: seq<Operation>)
    ensures ApplyAll(doc, EditsFor(filePath, a + b)) == ApplyAll(ApplyAll(doc, EditsFor(filePath, a)), EditsFor(filePath, b))
  {
    EditsForConcat(filePath, a, b);
    ApplyAllConcat(doc, EditsFor(filePath, a), EditsFor(filePath, b));
  }

  /** Operations of a file are the ones that file's editors replay; those of other files are skipped. */
  lemma {:induction false} OwnOperationsOnly(filePath: string, other: string, edits: seq<Edit>)
    ensures EditsFor(filePath, For(other, edits)) == if filePath == other then edits else []
  {
    if edits != [] {
      assert For(other, edits)[1..] == For(other, edits[1..]);
      OwnOperationsOnly(filePath, other, edits[1..]);
    }
  }

  /** Beyond the end of the document an insertion appends, and a deletion takes what there is. */
  lemma BeyondTheEnd(doc: string, p: nat, n: nat, text: string)
    ensures p >= |doc| ==> Apply(doc, Insert(p, text)) == doc + text && Apply(doc, Delete(p, n)) == doc
    ensures p <= |doc| <= p + n ==> Apply(doc, Delete(p, n)) == doc[..p]
  {
    assert doc[..|doc|] == doc && doc + "" == doc;
    if p <= |doc| {
      assert doc[..p] + "" + "" == doc[..p];
    }
  }

  // ---------- one change ----------

  /** What a receiver ends up with in place of a replaced text. */
  function Landed(before: string, text: string): (r: string)
    ensures |r| == |text|
  {
    (text + before)[|before|..]
  }

  function Old(doc: string, c: Change): string
    requires c.offset + c.length <= |doc|
  {
    doc[c.offset..c.offset + c.length]
  }

  lemma InsertOnly(a: string, x: string, b: string, text: string)
    ensures Apply(a + x + b, Insert(|a|, text)) == a + (text + x) + b
  {
    var doc := a + x + b;
    assert doc[..|a|] == a && doc[|a|..] == x + b;
    if text == "" {
      assert text + x == x;
    } else {
      Regroup(a, text, x, b);
    }
  }

  lemma Regroup(a: string, s: string, x: string, b: string)
    ensures a + s + (x + b) == a + (s + x) + b
  {}

  lemma DeleteOnly(a: string, x: string, b: string, n: nat)
    requires n <= |x|
    ensures Apply(a + x + b, Delete(|a|, n)) == a + x[n..] + b
  {
    var doc := a + x + b;
    assert doc[..|a|] == a && doc[|a| + n..] == x[n..] + b;
    if n == 0 {
      assert x[0..] == x;
    } else {
      assert Apply(doc, Delete(|a|, n)) == a + "" + (x[n..] + b);
    }
  }

  lemma EmitIsInsertDelete(doc: string, c: Change)
    ensures ApplyAll(doc, Emit(c)) == Apply(Apply(doc, Insert(c.offset, c.text)), Delete(c.offset, c.length))
  {
    var i := if c.text != "" then [Insert(c.offset, c.text)] else [];
    var d := if c.length > 0 then [Delete(c.offset, c.length)] else [];
    ApplyAllConcat(doc, i, d);
    assert [Insert(c.offset, c.text)][1..] == [] && [Delete(c.offset, c.length)][1..] == [];
  }

  lemma EmittedPieces(a: string, x: string, b: string, c: Change)
    requires c.offset == |a| && c.length == |x|
    ensures ApplyAll(a + x + b, Emit(c)) == a + Landed(x, c.text) + b
  {
    EmitIsInsertDelete(a + x + b, c);
    InsertOnly(a, x, b, c.text);
    DeleteOnly(a, c.text + x, b, |x|);
  }

  lemma InPieces(doc: string, c: Change)
    requires c.offset + c.length <= |doc|
    ensures doc == doc[..c.offset] + Old(doc, c) + doc[c.offset + c.length..]
  {}

  /** Replaying one change's insert-then-delete: the deletion takes its characters from the inserted text first. */
  lemma EmittedChange(doc: string, c: Change)
    requires c.offset + c.length <= |doc|
    ensures ApplyAll(doc, Emit(c)) == doc[..c.offset] + Landed(Old(doc, c), c.text) + doc[c.offset + c.length..]
  {
    InPieces(doc, c);
    EmittedPieces(doc[..c.offset], Old(doc, c), doc[c.offset + c.length..], c);
  }

  predicate Benign(before: string, text: string) {
    Landed(before, text) == text
  }

  /** The receiver makes the intended replacement exactly when the change is benign. */
  lemma ChangeConvergesIff(doc: string, c: Change)
    requires c.offset + c.length <= |doc|
    ensures ApplyAll(doc, Emit(c)) == Replace(doc, c.offset, c.offset + c.length, c.text) <==> Benign(Old(doc, c), c.text)
  {
    EmittedChange(doc, c);
    SameMiddleIff(doc[..c.offset], Landed(Old(doc, c), c.text), c.text, doc[c.offset + c.length..]);
  }

  lemma SameMiddleIff(a: string, x: string, y: string, b: string)
    requires |x| == |y|
    ensures a + x + b == a + y + b <==> x == y
  {
    if a + x + b == a + y + b {
      forall i | 0 <= i < |x| ensures x[i] == y[i] {
        assert (a + x + b)[|a| + i] == x[i] && (a + y + b)[|a| + i] == y[i];
      }
    }
  }

  /** Pure insertions and pure deletions are benign. A replacement by a text that is not longer is benign exactly
      when the old text ends with the new one: the receiver keeps the tail of the old text. */
  lemma BenignCases(before: string, text: string)
    ensures before == "" || text == "" ==> Benign(before, text)
    ensures |text| <= |before| ==> Landed(before, text) == before[|before| - |text|..]
    ensures |text| <= |before| ==> (Benign(before, text) <==> before[|before| - |text|..] == text)
  {
    assert before == "" ==> text + before == text;
  }

  /** Had the deletion been sent first, every change would arrive as intended. */
  lemma DeleteThenInsert(doc: string, c: Change)
    requires c.offset + c.length <= |doc|
    ensures Apply(Apply(doc, Delete(c.offset, c.length)), Insert(c.offset, c.text)) ==
            Replace(doc, c.offset, c.offset + c.length, c.text)
  {
    var cut := Apply(doc, Delete(c.offset, c.length));
    assert cut == doc[..c.offset] + doc[c.offset + c.length..];
    if c.text == "" {
      assert doc[..c.offset] + "" == doc[..c.offset];
    } else {
      assert cut[..c.offset] == doc[..c.offset] && cut[c.offset..] == doc[c.offset + c.length..];
    }
  }

  // ---------- one event ----------

  /** Applying the changes one after the other, each at its original offset. */
  function OneByOne(doc: string, changes: seq<Change>): string
    requires Descending(changes, |doc|)
    decreases |changes|
  {
    if changes == [] then doc
    else
      var c := changes[0];
      var next := Replace(doc, c.offset, c.offset + c.length, c.text);
      DescendingGrows(changes[1..], c.offset, |next|);
      OneByOne(next, changes[1..])
  }

  lemma DescendingGrows(changes: seq<Change>, bound: nat, larger: nat)
    requires Descending(changes, bound) && bound <= larger
    ensures Descending(changes, larger)
  {}

  /** Changes below `bound` leave the rest of the document alone. */
  lemma {:induction false} OneByOneBelow(a: string, b: string, changes: seq<Change>)
    requires Descending(changes, |a|) && Descending(changes, |a + b|)
    ensures OneByOne(a + b, changes) == OneByOne(a, changes) + b
    decreases |changes|
  {
    if changes != [] {
      var c := changes[0];
      var next := Replace(a, c.offset, c.offset + c.length, c.text);
      assert Replace(a + b, c.offset, c.offset + c.length, c.text) == next + b;
      DescendingGrows(changes[1..], c.offset, |next|);
      DescendingGrows(changes[1..], c.offset, |next + b|);
      OneByOneBelow(next, b, changes[1..]);
    }
  }

  /** Listed from the end of the buffer, changes may be applied one by one at their original offsets. */
  lemma {:induction false} SequentialIsSimultaneous(doc: string, changes: seq<Change>)
    requires Descending(changes, |doc|)
    ensures OneByOne(doc, changes) == Replaced(doc, changes)
    decreases |changes|
  {
    if changes != [] {
      var c := changes[0];
      var a, b := doc[..c.offset], c.text + doc[c.offset + c.length..];
      assert Replace(doc, c.offset, c.offset + c.length, c.text) == a + b;
      DescendingGrows(changes[1..], c.offset, |a + b|);
      OneByOneBelow(a, b, changes[1..]);
      SequentialIsSimultaneous(a, changes[1..]);
      assert Replaced(a, changes[1..]) + b == Replaced(a, changes[1..]) + c.text + doc[c.offset + c.length..];
    }
  }

  /** The event a receiver really carries out: the same ranges, with the texts that land. */
  function LandedAll(doc: string, changes: seq<Change>): (r: seq<Change>)
    requires Descending(changes, |doc|)
    ensures |r| == |changes|
    ensures changes != [] ==> r[0] == changes[0].(text := Landed(Old(doc, changes[0]), changes[0].text))
    ensures Descending(r, |doc|)
    decreases |changes|
  {
    if changes == [] then []
    else
      var c := changes[0];
      [c.(text := Landed(Old(doc, c), c.text))] + LandedAll(doc[..c.offset], changes[1..])
  }

  lemma ChangeBelow(a: string, b: string, c: Change)
    requires c.offset + c.length <= |a|
    ensures ApplyAll(a + b, Emit(c)) == ApplyAll(a, Emit(c)) + b
    ensures |ApplyAll(a, Emit(c))| >= c.offset
  {
    var p, x, s := a[..c.offset], Old(a, c), a[c.offset + c.length..];
    calc {
      ApplyAll(a + b, Emit(c));
      { InPieces(a, c); Assoc(p + x, s, b); }
      ApplyAll(p + x + (s + b), Emit(c));
      { EmittedPieces(p, x, s + b, c); }
      p + Landed(x, c.text) + (s + b);
      p + Landed(x, c.text) + s + b;
      { EmittedChange(a, c); }
      ApplyAll(a, Emit(c)) + b;
    }
    EmittedChange(a, c);
  }

  lemma {:induction false} EditsBelow(a: string, b: string, changes: seq<Change>)
    requires Descending(changes, |a|)
    ensures ApplyAll(a + b, EmitAll(changes)) == ApplyAll(a, EmitAll(changes)) + b
    decreases |changes|
  {
    if changes != [] {
      var c, rest := changes[0], EmitAll(changes[1..]);
      var next := ApplyAll(a, Emit(c));
      ChangeBelow(a, b, c);
      DescendingGrows(changes[1..], c.offset, |next|);
      EditsBelow(next, b, changes[1..]);
      ApplyAllConcat(a, Emit(c), rest);
      ApplyAllConcat(a + b, Emit(c), rest);
    }
  }

  /** Replaying an event's operations is the simultaneous replacement by the texts that land. */
  lemma {:induction false} EmittedEvent(doc: string, changes: seq<Change>)
    requires Descending(changes, |doc|)
    ensures ApplyAll(doc, EmitAll(changes)) == Replaced(doc, LandedAll(doc, changes))
    decreases |changes|
  {
    if changes != [] {
      var c, rest := changes[0], changes[1..];
      var a, landed, b := doc[..c.offset], Landed(Old(doc, c), c.text), doc[c.offset + c.length..];
      var r := LandedAll(a, rest);
      assert LandedAll(doc, changes)[1..] == r;
      calc {
        ApplyAll(doc, EmitAll(changes));
        { ApplyAllConcat(doc, Emit(c), EmitAll(rest)); }
        ApplyAll(ApplyAll(doc, Emit(c)), EmitAll(rest));
        { EmittedChange(doc, c); Assoc(a, landed, b); }
        ApplyAll(a + (landed + b), EmitAll(rest));
        { EditsBelow(a, landed + b, rest); }
        ApplyAll(a, EmitAll(rest)) + (landed + b);
        { EmittedEvent(a, rest); }
        Replaced(a, r) + (landed + b);
        { Assoc(Replaced(a, r), landed, b); }
        Replaced(a, r) + landed + b;
      }
    }
  }

  predicate AllBenign(doc: string, changes: seq<Change>)
    requires Descending(changes, |doc|)
    decreases |changes|
  {
    changes == [] ||
    (Benign(Old(doc, changes[0]), changes[0].text) && AllBenign(doc[..changes[0].offset], changes[1..]))
  }

  function LandedChange(doc: string, c: Change): Change
    requires c.offset + c.length <= |doc|
  {
    c.(text := Landed(Old(doc, c), c.text))
  }

  lemma LandedAllCons(doc: string, changes: seq<Change>)
    requires Descending(changes, |doc|) && changes != []
    ensures LandedAll(doc, changes) == [LandedChange(doc, changes[0])] + LandedAll(doc[..changes[0].offset], changes[1..])
  {}

  lemma LandedCons(doc: string, changes: seq<Change>)
    requires Descending(changes, |doc|) && changes != []
    ensures var c := changes[0];
            var a := doc[..c.offset];
            Replaced(doc, LandedAll(doc, changes)) ==
            Replaced(a, LandedAll(a, changes[1..])) + Landed(Old(doc, c), c.text) + doc[c.offset + c.length..]
  {
    LandedAllCons(doc, changes);
    ReplacedCons(doc, LandedChange(doc, changes[0]), LandedAll(doc[..changes[0].offset], changes[1..]));
  }

  lemma ReplacedCons(doc: string, c: Change, rest: seq<Change>)
    requires c.offset + c.length <= |doc| && Descending(rest, c.offset)
    ensures Descending([c] + rest, |doc|)
    ensures Replaced(doc, [c] + rest) == Replaced(doc[..c.offset], rest) + c.text + doc[c.offset + c.length..]
  {
    assert ([c] + rest)[1..] == rest;
  }

  lemma {:induction false} SameTextsIff(doc: string, changes: seq<Change>)
    requires Descending(changes, |doc|)
    ensures |Replaced(doc, LandedAll(doc, changes))| == |Replaced(doc, changes)|
    ensures Replaced(doc, LandedAll(doc, changes)) == Replaced(doc, changes) <==> AllBenign(doc, changes)
    decreases |changes|
  {
    if changes != [] {
      var c, rest := changes[0], changes[1..];
      var a := doc[..c.offset];
      SameTextsIff(a, rest);
      LandedCons(doc, changes);
      SamePartsIff(Replaced(a, LandedAll(a, rest)), Replaced(a, rest), Landed(Old(doc, c), c.text), c.text,
                   doc[c.offset + c.length..]);
    }
  }

  lemma SamePartsIff(x: string, y: string, s: string, t: string, b: string)
    requires |x| == |y| && |s| == |t|
    ensures x + s + b == y + t + b <==> x == y && s == t
  {
    if x + s + b == y + t + b {
      assert x == (x + s + b)[..|x|] == (y + t + b)[..|y|] == y;
      SameMiddleIff(x, s, t, b);
    }
  }

  /** A receiver follows an event exactly when every change of it is benign. */
  lemma EventConvergesIff(doc: string, changes: seq<Change>)
    requires Descending(changes, |doc|)
    ensures ApplyAll(doc, EmitAll(changes)) == Replaced(doc, changes) <==> AllBenign(doc, changes)
  {
    EmittedEvent(doc, changes);
    SameTextsIff(doc, changes);
  }

  // ---------- runs of events ----------

  ghost predicate Events(doc: string, events: seq<seq<Change>>)
    decreases |events|
  {
    events == [] || (Descending(events[0], |doc|) && Events(Replaced(doc, events[0]), events[1..]))
  }

  /** The sender's buffer after a run of local events. */
  function Sender(doc: string, events: seq<seq<Change>>): string
    requires Events(doc, events)
    decreases |events|
  {
    if events == [] then doc else Sender(Replaced(doc, events[0]), events[1..])
  }

  function Sent(events: seq<seq<Change>>): seq<Edit> {
    if events == [] then [] else EmitAll(events[0]) + Sent(events[1..])
  }

  predicate AllEventsBenign(doc: string, events: seq<seq<Change>>)
    requires Events(doc, events)
    decreases |events|
  {
    events == [] || (AllBenign(doc, events[0]) && AllEventsBenign(Replaced(doc, events[0]), events[1..]))
  }

  /** Starting from equal documents, a run of benign events leaves the receiver with the sender's document. */
  lemma {:induction false} RunConverges(doc: string, events: seq<seq<Change>>)
    requires Events(doc, events) && AllEventsBenign(doc, events)
    ensures ApplyAll(doc, Sent(events)) == Sender(doc, events)
    decreases |events|
  {
    if events != [] {
      EventConvergesIff(doc, events[0]);
      ApplyAllConcat(doc, EmitAll(events[0]), Sent(events[1..]));
      RunConverges(Replaced(doc, events[0]), events[1..]);
    }
  }

  lemma {:induction false} PrefixEvents(doc: string, events: seq<seq<Change>>, k: nat)
    requires Events(doc, events) && k <= |events|
    ensures Events(doc, events[..k])
    decreases k
  {
    if k > 0 {
      PrefixEvents(Replaced(doc, events[0]), events[1..], k - 1);
      assert events[..k][1..] == events[1..][..k - 1];
    }
  }

  ghost predicate InStep(doc: string, events: seq<seq<Change>>, k: nat)
    requires Events(doc, events) && k <= |events|
  {
    PrefixEvents(doc, events, k);
    ApplyAll(doc, Sent(events[..k])) == Sender(doc, events[..k])
  }

  lemma InStepTail(doc: string, events: seq<seq<Change>>, k: nat)
    requires Events(doc, events) && 0 < k <= |events| && AllBenign(doc, events[0])
    ensures InStep(doc, events, k) <==> InStep(Replaced(doc, events[0]), events[1..], k - 1)
  {
    PrefixEvents(doc, events, k);
    PrefixEvents(Replaced(doc, events[0]), events[1..], k - 1);
    assert events[..k][1..] == events[1..][..k - 1];
    EventConvergesIff(doc, events[0]);
    ApplyAllConcat(doc, EmitAll(events[0]), Sent(events[1..][..k - 1]));
  }

  ghost predicate AlwaysInStep(doc: string, events: seq<seq<Change>>)
    requires Events(doc, events)
  {
    forall k: nat :: k <= |events| ==> InStep(doc, events, k)
  }

  /** Receiver and sender agree after every event of a run exactly when all its events are benign. */
  lemma {:induction false} RunInStepIff(doc: string, events: seq<seq<Change>>)
    requires Events(doc, events)
    ensures AlwaysInStep(doc, events) <==> AllEventsBenign(doc, events)
    decreases |events|
  {
    assert events[..0] == [];
    assert InStep(doc, events, 0);
    if events != [] {
      FirstEvent(doc, events);
      if AllBenign(doc, events[0]) {
        RunInStepIff(Replaced(doc, events[0]), events[1..]);
        TailInStep(doc, events);
      }
    }
  }

  lemma TailInStep(doc: string, events: seq<seq<Change>>)
    requires Events(doc, events) && events != [] && AllBenign(doc, events[0]) && InStep(doc, events, 0)
    ensures AlwaysInStep(doc, events) <==> AlwaysInStep(Replaced(doc, events[0]), events[1..])
  {
    var doc', rest := Replaced(doc, events[0]), events[1..];
    if AlwaysInStep(doc, events) {
      forall k: nat | k <= |rest| ensures InStep(doc', rest, k) {
        InStepTail(doc, events, k + 1);
      }
    }
    if AlwaysInStep(doc', rest) {
      forall k: nat | k <= |events| ensures InStep(doc, events, k) {
        if k > 0 {
          InStepTail(doc, events, k);
        }
      }
    }
  }

  lemma FirstEvent(doc: string, events: seq<seq<Change>>)
    requires Events(doc, events) && events != []
    ensures InStep(doc, events, 1) <==> AllBenign(doc, events[0])
  {
    PrefixEvents(doc, events, 1);
    assert events[..1] == [events[0]] && events[..1][1..] == [];
    assert Sent(events[..1]) == EmitAll(events[0]) + Sent([]) == EmitAll(events[0]);
    assert Sender(doc, events[..1]) == Sender(Replaced(doc, events[0]), []);
    EventConvergesIff(doc, events[0]);
  }

  /** Pure insertions and pure deletions. */
  predicate Pure(changes: seq<Change>) {
    forall i :: 0 <= i < |changes| ==> changes[i].text == "" || changes[i].length == 0
  }

  lemma {:induction false} PureChangesAreBenign(doc: string, changes: seq<Change>)
    requires Descending(changes, |doc|) && Pure(changes)
    ensures AllBenign(doc, changes)
    decreases |changes|
  {
    if changes != [] {
      BenignCases(Old(doc, changes[0]), changes[0].text);
      PureChangesAreBenign(doc[..changes[0].offset], changes[1..]);
    }
  }

  /** Every run of pure insertions and pure deletions converges. */
  lemma {:induction false} PureRunsConverge(doc: string, events: seq<seq<Change>>)
    requires Events(doc, events) && forall i :: 0 <= i < |events| ==> Pure(events[i])
    ensures AllEventsBenign(doc, events)
    ensures ApplyAll(doc, Sent(events)) == Sender(doc, events)
    decreases |events|
  {
    if events != [] {
      PureChangesAreBenign(doc, events[0]);
      PureRunsConverge(Replaced(doc, events[0]), events[1..]);
    }
    RunConverges(doc, events);
  }

  /** Typing one letter over another: the receiver keeps the old letter. */
  lemma OverwritingDiverges(a: string, was: char, b: string, letter: char)
    requires was != letter
    ensures var c := Change(|a|, 1, [letter]);
            ApplyAll(a + [was] + b, Emit(c)) == a + [was] + b != a + [letter] + b
  {
    EmittedPieces(a, [was], b, Change(|a|, 1, [letter]));
    BenignCases([was], [letter]);
    assert Landed([was], [letter]) == [was];
    SameMiddleIff(a, [was], [letter], b);
  }
}
