/** When replicas of the collaboration server's document converge: the same operations in different orders. */
module CrdtConvergence {
  import opened Common
  import opened Crdt

  /** An operation with its sender and its number among the sender's operations. */
  datatype Message = Message(op: Op, sender: string, number: nat)

  type Relation = (Message, Message) -> bool

  function ApplyAll(d: Doc, run: seq<Message>): Doc
    decreases |run|
  {
    if run == [] then d else ApplyAll(Apply(d, run[0].op), run[1..])
  }

  lemma {:induction false} ApplyAllConcat(d: Doc, s: seq<Message>, t: seq<Message>)
    ensures ApplyAll(d, s + t) == ApplyAll(ApplyAll(d, s), t)
    decreases |s|
  {
    if s == [] {
      assert s + t == t;
    } else {
      assert (s + t)[1..] == s[1..] + t;
      ApplyAllConcat(Apply(d, s[0].op), s[1..], t);
    }
  }

  /** `b` anchors on the character of `a`, or deletes it. */
  predicate Depends(a: Message, b: Message) {
    a.op.Insert? && match b.op
                    case Insert(_, _, after) => after == Some(a.op.charId)
                    case Delete(charId) => charId == a.op.charId
  }

  /** Nothing is delivered ahead of what comes before it. */
  ghost predicate Respects(run: seq<Message>, before: Relation) {
    forall i, j :: 0 <= i < j < |run| ==> !before(run[j], run[i])
  }

  predicate Resolved(a: Message, b: Message) {
    a.op.Insert? && b.op.Insert? ==> a.op.charId != b.op.charId && OneBlocks(a.op, b.op)
  }

  /** Two different messages of the batch, or two copies of one. */
  predicate Both(all: multiset<Message>, a: Message, b: Message) {
    a in all && b in all && (a == b ==> all[a] > 1)
  }

  /** Of any two insertions that no order is imposed on, exactly one stops the scan of the other. */
  ghost predicate ResolvedUnless(all: multiset<Message>, before: Relation) {
    forall a, b :: Both(all, a, b) && !before(a, b) && !before(b, a) ==> Resolved(a, b)
  }

  lemma UnrelatedCommute(d: Doc, a: Message, b: Message)
    requires !Depends(a, b) && !Depends(b, a) && Resolved(a, b)
    ensures Commute(d, a.op, b.op)
  {
    match (a.op, b.op)
    case (Insert(_, _, _), Insert(_, _, _)) => InsertsCommuteIff(d, a.op, b.op);
    case (Insert(_, _, _), Delete(y)) => InsertIgnoresTombstone(d, a.op, y);
    case (Delete(x), Insert(_, _, _)) => InsertIgnoresTombstone(d, b.op, x);
    case (Delete(x), Delete(y)) => DeletesCommute(d, x, y);
  }

  ghost predicate Movable(x: Message, pre: seq<Message>) {
    forall i :: 0 <= i < |pre| ==> !Depends(pre[i], x) && !Depends(x, pre[i]) && Resolved(pre[i], x)
  }

  lemma {:induction false} MoveToFront(d: Doc, pre: seq<Message>, x: Message, post: seq<Message>)
    requires Movable(x, pre)
    ensures ApplyAll(d, pre + [x] + post) == ApplyAll(Apply(d, x.op), pre + post)
    decreases |pre|
  {
    if pre == [] {
      assert [] + [x] + post == [x] + post && [] + post == post;
    } else {
      assert (pre + [x] + post)[1..] == pre[1..] + [x] + post;
      assert (pre + post)[1..] == pre[1..] + post;
      MoveToFront(Apply(d, pre[0].op), pre[1..], x, post);
      UnrelatedCommute(d, pre[0], x);
    }
  }

  lemma MultisetAround(pre: seq<Message>, x: Message, post: seq<Message>)
    ensures multiset(pre + [x] + post) == multiset(pre + post) + multiset{x}
  {}

  lemma FindHead(run: seq<Message>, x: Message, rest: seq<Message>) returns (pre: seq<Message>, post: seq<Message>)
    requires multiset(run) == multiset{x} + multiset(rest)
    ensures run == pre + [x] + post && multiset(pre + post) == multiset(rest)
  {
    assert x in multiset(run);
    var k :| 0 <= k < |run| && run[k] == x;
    pre, post := run[..k], run[k + 1..];
    assert run == pre + [x] + post;
    MultisetAround(pre, x, post);
    calc {
      multiset(pre + post);
      multiset(run) - multiset{x};
      multiset(rest);
    }
  }

  lemma WithoutOne(pre: seq<Message>, x: Message, post: seq<Message>, before: Relation)
    requires Respects(pre + [x] + post, before)
    ensures Respects(pre + post, before)
    ensures forall i :: 0 <= i < |pre| ==> !before(x, pre[i])
  {
    var run, rest, k := pre + [x] + post, pre + post, |pre|;
    assert run[k] == x;
    assert forall i :: 0 <= i < k ==> run[i] == pre[i];
    assert forall i :: 0 <= i < |rest| ==> rest[i] == run[if i < k then i else i + 1];
  }

  /** What the first message of one order had to pass in another, it has nothing to do with. */
  lemma FirstIsMovable(pre: seq<Message>, x: Message, post: seq<Message>, rest: seq<Message>, before: Relation)
    requires forall a, b :: Depends(a, b) ==> before(a, b)
    requires Respects(pre + [x] + post, before) && Respects([x] + rest, before)
    requires ResolvedUnless(multiset(pre + [x] + post), before) && multiset(pre + post) == multiset(rest)
    ensures Movable(x, pre)
  {
    WithoutOne(pre, x, post, before);
    MultisetAround(pre, x, post);
    forall i | 0 <= i < |pre|
      ensures !Depends(pre[i], x) && !Depends(x, pre[i]) && Resolved(pre[i], x)
    {
      assert pre[i] == (pre + post)[i];
      assert pre[i] in multiset(rest);
      var j :| 0 <= j < |rest| && rest[j] == pre[i];
      assert ([x] + rest)[0] == x && ([x] + rest)[j + 1] == rest[j];
      assert Both(multiset(pre + [x] + post), pre[i], x);
    }
  }

  /** Replicas that deliver the same messages in two orders, both within any order `before` that keeps dependent
      operations apart, end in the same document, from any document, as long as of any two insertions that `before`
      leaves unordered exactly one stops the other. */
  lemma {:induction false} OrderedConverges(d: Doc, run: seq<Message>, other: seq<Message>, before: Relation)
    requires forall a, b :: Depends(a, b) ==> before(a, b)
    requires Respects(run, before) && Respects(other, before) && multiset(run) == multiset(other)
    requires ResolvedUnless(multiset(run), before)
    ensures ApplyAll(d, run) == ApplyAll(d, other)
    decreases |other|
  {
    hide ResolvedUnless, Movable, Apply, Depends;
    if other == [] {
      assert |multiset(run)| == |multiset(other)| == 0;
      assert run == other;
    } else {
      var x, rest := other[0], other[1..];
      assert other == [x] + rest;
      var pre, post := FindHead(run, x, rest);
      WithoutOne(pre, x, post, before);
      FirstIsMovable(pre, x, post, rest, before);
      MultisetAround(pre, x, post);
      SmallerBatch(multiset(pre + post), multiset(run), before);
      assert Respects(rest, before) by {
        assert forall i :: 0 <= i < |rest| ==> rest[i] == other[i + 1];
      }
      calc {
        ApplyAll(d, run);
        { MoveToFront(d, pre, x, post); }
        ApplyAll(Apply(d, x.op), pre + post);
        { OrderedConverges(Apply(d, x.op), pre + post, rest, before); }
        ApplyAll(Apply(d, x.op), rest);
        ApplyAll(d, other);
      }
    }
  }

  lemma SmallerBatch(part: multiset<Message>, all: multiset<Message>, before: Relation)
    requires part <= all && ResolvedUnless(all, before)
    ensures ResolvedUnless(part, before)
  {
    forall a, b | Both(part, a, b) && !before(a, b) && !before(b, a) ensures Resolved(a, b) {
      assert Both(all, a, b);
    }
  }

  // ---------- orders that follow from single steps ----------

  /** `a` leads to `b` by at most `n + 1` steps through messages of the batch. */
  ghost predicate Path(step: Relation, all: multiset<Message>, a: Message, b: Message, n: nat)
    decreases n
  {
    step(a, b) || (n > 0 && exists c :: c in all && step(a, c) && Path(step, all, c, b, n - 1))
  }

  ghost predicate Leads(step: Relation, all: multiset<Message>, a: Message, b: Message) {
    exists n: nat :: Path(step, all, a, b, n)
  }

  /** A delivery that respects single steps respects everything that follows from them. */
  lemma {:induction false} PathGoesForward(step: Relation, run: seq<Message>, i: nat, j: nat, n: nat)
    requires Respects(run, step) && i < j < |run|
    ensures !Path(step, multiset(run), run[j], run[i], n)
    decreases n
  {
    if n > 0 {
      forall c | c in multiset(run) && step(run[j], c) ensures !Path(step, multiset(run), c, run[i], n - 1) {
        var k :| 0 <= k < |run| && run[k] == c;
        PathGoesForward(step, run, i, k, n - 1);
      }
    }
  }

  /** So only insertions between which no chain of steps runs need to be resolved. */
  lemma StepsConverge(d: Doc, run: seq<Message>, other: seq<Message>, step: Relation)
    requires forall a, b :: Depends(a, b) ==> step(a, b)
    requires Respects(run, step) && Respects(other, step) && multiset(run) == multiset(other)
    requires ResolvedUnless(multiset(run), (a, b) => Leads(step, multiset(run), a, b))
    ensures ApplyAll(d, run) == ApplyAll(d, other)
  {
    var all := multiset(run);
    var before: Relation := (a, b) => Leads(step, all, a, b);
    forall a, b | Depends(a, b) ensures before(a, b) {
      assert Path(step, all, a, b, 0);
    }
    forall i, j | 0 <= i < j < |run| ensures !before(run[j], run[i]) {
      forall n: nat ensures !Path(step, all, run[j], run[i], n) {
        PathGoesForward(step, run, i, j, n);
      }
    }
    forall i, j | 0 <= i < j < |other| ensures !before(other[j], other[i]) {
      forall n: nat ensures !Path(step, all, other[j], other[i], n) {
        PathGoesForward(step, other, i, j, n);
      }
    }
    OrderedConverges(d, run, other, before);
  }

  ghost predicate Causal(run: seq<Message>) {
    Respects(run, Depends)
  }

  ghost predicate Follows(all: multiset<Message>, a: Message, b: Message) {
    Leads(Depends, all, a, b)
  }

  /** Any two causal orders converge as long as of any two insertions, neither of which follows from the other
      through anchors in the batch, exactly one stops the other. */
  lemma Converges(d: Doc, run: seq<Message>, other: seq<Message>)
    requires Causal(run) && Causal(other) && multiset(run) == multiset(other)
    requires ResolvedUnless(multiset(run), (a, b) => Follows(multiset(run), a, b))
    ensures ApplyAll(d, run) == ApplyAll(d, other)
  {
    var all := multiset(run);
    var via: Relation, leads: Relation := (a, b) => Follows(all, a, b), (a, b) => Leads(Depends, all, a, b);
    forall a, b | Both(all, a, b) && !leads(a, b) && !leads(b, a) ensures Resolved(a, b) {
      assert !via(a, b) && !via(b, a);
    }
    StepsConverge(d, run, other, Depends);
  }

  ghost predicate DistinctStamps(all: multiset<Message>) {
    forall a, b :: Both(all, a, b) && a.op.Insert? && b.op.Insert? ==> !SameStamp(a.op, b.op)
  }

  ghost predicate Anchored(all: multiset<Message>) {
    forall a :: a in all && a.op.Insert? ==> a.op.after.Some?
  }

  /** Insertions with anchors and stamps of their own converge, wherever in the text they are. */
  lemma AnchoredConverge(d: Doc, run: seq<Message>, other: seq<Message>)
    requires Causal(run) && Causal(other) && multiset(run) == multiset(other)
    requires Anchored(multiset(run)) && DistinctStamps(multiset(run))
    ensures ApplyAll(d, run) == ApplyAll(d, other)
  {
    FrontsLeadResolve(multiset(run));
    Converges(d, run, other);
  }

  // ---------- delivery in the order of each sender ----------

  /** A dependent operation, or a later one of the same sender. */
  predicate SentLater(a: Message, b: Message) {
    Depends(a, b) || (a.sender == b.sender && a.number < b.number)
  }

  /** Senders number their messages, and stamp their characters with their own name. */
  ghost predicate Numbered(all: multiset<Message>) {
    && (forall a, b :: Both(all, a, b) && a.sender == b.sender ==> a.number != b.number)
    && (forall a :: a in all && a.op.Insert? ==> a.op.charId.site == a.sender)
  }

  /** When every replica hears each sender in order, clocks may even repeat; only the insertions at the front have to
      come before, or outrank, those of the other senders. */
  lemma SendersConverge(d: Doc, run: seq<Message>, other: seq<Message>)
    requires Respects(run, SentLater) && Respects(other, SentLater) && multiset(run) == multiset(other)
    requires Numbered(multiset(run))
    requires forall a, b :: a in run && b in run && a.op.Insert? && b.op.Insert? && a.op.after.None? && a.sender != b.sender ==>
      Outranks(a.op.charId, b.op.charId) || Leads(SentLater, multiset(run), a, b) || Leads(SentLater, multiset(run), b, a)
    ensures ApplyAll(d, run) == ApplyAll(d, other)
  {
    var all := multiset(run);
    forall a, b | Both(all, a, b) && !Leads(SentLater, all, a, b) && !Leads(SentLater, all, b, a)
      ensures Resolved(a, b)
    {
      assert !Path(SentLater, all, a, b, 0) && !Path(SentLater, all, b, a, 0);
      if a.op.Insert? && b.op.Insert? {
        AboveIsTotal(a.op.charId.site, b.op.charId.site);
        OneBlocksWhen(a.op, b.op);
        OneBlocksWhen(b.op, a.op);
      }
    }
    StepsConverge(d, run, other, SentLater);
  }

  // ---------- exactly which batches converge ----------

  /** There is at most one insertion at the front, and it comes before or outranks every other insertion. */
  ghost predicate FrontsLead(all: multiset<Message>) {
    forall a, b :: Both(all, a, b) && a.op.Insert? && b.op.Insert? && a.op.after.None? ==> Leading(all, a, b)
  }

  ghost predicate Leading(all: multiset<Message>, a: Message, b: Message)
    requires a.op.Insert? && b.op.Insert?
  {
    b.op.after.Some? && (Follows(all, a, b) || Outranks(a.op.charId, b.op.charId))
  }

  lemma FrontsLeadResolve(all: multiset<Message>)
    requires DistinctStamps(all) && FrontsLead(all)
    ensures ResolvedUnless(all, (a, b) => Follows(all, a, b))
  {
    var via: Relation := (a, b) => Follows(all, a, b);
    forall a, b | Both(all, a, b) && !via(a, b) && !via(b, a) ensures Resolved(a, b) {
      if a.op.Insert? && b.op.Insert? {
        OneBlocksWhen(a.op, b.op);
        OneBlocksWhen(b.op, a.op);
        assert Both(all, b, a);
      }
    }
  }

  lemma TwoPositions(run: seq<Message>, i: nat, j: nat)
    requires i < j < |run|
    ensures Both(multiset(run), run[i], run[j])
  {
    var pre, post := run[..j], run[j + 1..];
    assert run == pre + [run[j]] + post;
    assert run[i] in pre;
    MultisetAround(pre, run[j], post);
  }

  /** Taking a message forward past messages it does not depend on. */
  lemma MoveUp(pre: seq<Message>, mid: seq<Message>, x: Message, post: seq<Message>)
    requires Causal(pre + (mid + [x] + post)) && forall i :: 0 <= i < |mid| ==> !Depends(mid[i], x)
    ensures Causal(pre + [x] + (mid + post))
    ensures multiset(pre + [x] + (mid + post)) == multiset(pre + (mid + [x] + post))
  {
    var run, moved, p, k := pre + (mid + [x] + post), pre + [x] + (mid + post), |pre|, |pre| + |mid|;
    assert run[k] == x && moved[p] == x;
    assert forall i :: 0 <= i < p ==> moved[i] == run[i];
    assert forall i :: p < i <= k ==> moved[i] == run[i - 1] == mid[i - 1 - p];
    assert forall i :: k < i < |run| ==> moved[i] == run[i];
  }

  lemma {:induction false} OneStepMore(step: Relation, all: multiset<Message>, a: Message, b: Message, c: Message, n: nat)
    requires Path(step, all, a, b, n) && b in all && step(b, c)
    ensures Path(step, all, a, c, n + 1)
    decreases n
  {
    if step(a, b) {
      assert Path(step, all, b, c, n);
    } else {
      var m :| m in all && step(a, m) && Path(step, all, m, b, n - 1);
      OneStepMore(step, all, m, b, c, n - 1);
    }
  }

  /** Insertions each behind the character of the one before. */
  ghost predicate Chained(chain: seq<Message>) {
    forall i :: 0 <= i < |chain| ==>
      chain[i].op.Insert? && (i > 0 ==> chain[i].op.after == Some(chain[i - 1].op.charId))
  }

  ghost predicate ComesFrom(chain: seq<Message>, all: multiset<Message>, x: Message) {
    forall m :: m in chain ==> m == x || Follows(all, m, x)
  }

  /** In a causal run, what an insertion anchors on can be brought to the front, in its order. */
  lemma {:induction false} Gather(run: seq<Message>, k: nat) returns (chain: seq<Message>, rest: seq<Message>)
    requires Causal(run) && DistinctStamps(multiset(run)) && k < |run| && run[k].op.Insert?
    ensures Chained(chain + [run[k]]) && ComesFrom(chain, multiset(run), run[k]) && run[k] !in chain
    ensures Causal(chain + [run[k]] + rest) && multiset(chain + [run[k]] + rest) == multiset(run)
    decreases k
  {
    hide Causal, Chained, DistinctStamps, ComesFrom;
    var x := run[k];
    if j: nat :| j < k && Depends(run[j], x) {
      var up, others := Gather(run, j);
      chain := up + [run[j]];
      ChainExtends(run, up, j, k);
      assert x in multiset(chain + others);
      rest := TakeNext(chain, others, x);
    } else {
      chain, rest := [], run[..k] + run[k + 1..];
      BringForward(run, k);
    }
  }

  /** An insertion that depends on nothing before it can be brought to the front. */
  lemma BringForward(run: seq<Message>, k: nat)
    requires Causal(run) && k < |run| && run[k].op.Insert? && forall j :: 0 <= j < k ==> !Depends(run[j], run[k])
    ensures var none: seq<Message>, rest := [], run[..k] + run[k + 1..];
            && Chained(none + [run[k]]) && ComesFrom(none, multiset(run), run[k])
            && Causal(none + [run[k]] + rest) && multiset(none + [run[k]] + rest) == multiset(run)
  {
    var none: seq<Message> := [];
    assert run == none + (run[..k] + [run[k]] + run[k + 1..]);
    MoveUp(none, run[..k], run[k], run[k + 1..]);
  }

  /** `x` is directly behind the end of the chain. */
  lemma ChainExtends(run: seq<Message>, up: seq<Message>, j: nat, k: nat)
    requires Causal(run) && j < k < |run| && Depends(run[j], run[k]) && run[k].op.Insert?
    requires Chained(up + [run[j]]) && ComesFrom(up, multiset(run), run[j])
    ensures var chain := up + [run[j]];
            Chained(chain + [run[k]]) && ComesFrom(chain, multiset(run), run[k]) && run[k] !in chain
  {
    var x, y, all, chain := run[k], run[j], multiset(run), up + [run[j]];
    assert Path(Depends, all, y, x, 0);
    forall m | m in up ensures Follows(all, m, x) && m != x {
      if m != y {
        var n: nat :| Path(Depends, all, m, y, n);
        OneStepMore(Depends, all, m, y, x, n);
        PathGoesForward(Depends, run, j, k, n);
      }
    }
    var longer := chain + [x];
    assert forall i :: 0 <= i < |chain| ==> longer[i] == chain[i];
  }

  lemma BehindChain(chain: seq<Message>, x: Message)
    requires Chained(chain + [x]) && chain != []
    ensures x.op.Insert? && chain[|chain| - 1].op.Insert? && x.op.after == Some(chain[|chain| - 1].op.charId)
  {
    assert (chain + [x])[|chain|] == x && (chain + [x])[|chain| - 1] == chain[|chain| - 1];
  }

  /** Only the end of the chain carries the id that `x` anchors on. */
  lemma OneAnchor(chain: seq<Message>, others: seq<Message>, x: Message, i: nat)
    requires DistinctStamps(multiset(chain + others)) && Chained(chain + [x]) && chain != [] && i < |others|
    ensures !Depends(others[i], x)
  {
    var last, run := |chain| - 1, chain + others;
    BehindChain(chain, x);
    TwoPositions(run, last, |chain| + i);
    assert run[last] == chain[last] && run[|chain| + i] == others[i];
  }

  /** Brings the message that is directly behind the chain up to it. */
  lemma TakeNext(chain: seq<Message>, others: seq<Message>, x: Message) returns (rest: seq<Message>)
    requires Causal(chain + others) && DistinctStamps(multiset(chain + others))
    requires x in others && Chained(chain + [x]) && chain != []
    ensures Causal(chain + [x] + rest) && multiset(chain + [x] + rest) == multiset(chain + others)
  {
    var p :| 0 <= p < |others| && others[p] == x;
    var pre, post := others[..p], others[p + 1..];
    rest := pre + post;
    forall i | 0 <= i < |pre| ensures !Depends(pre[i], x) {
      OneAnchor(chain, others, x, i);
    }
    assert others == pre + [x] + post;
    MoveUp(chain, pre, x, post);
  }

  /** On the empty document a chain is appended character by character. */
  lemma {:induction false} ChainContent(chain: seq<Message>)
    requires Chained(chain) && DistinctIds(chain)
    ensures Spelled(ApplyAll(Doc([], 0), chain).content, chain)
    decreases |chain|
  {
    if chain != [] {
      var l := |chain| - 1;
      var up, x := chain[..l], chain[l];
      ChainContent(up);
      var d := ApplyAll(Doc([], 0), up);
      assert chain == up + [x];
      ApplyAllConcat(Doc([], 0), up, [x]);
      NextAppends(d, up, x);
    }
  }

  ghost predicate DistinctIds(run: seq<Message>) {
    forall i, j :: 0 <= i < j < |run| && run[i].op.Insert? && run[j].op.Insert? ==> run[i].op.charId != run[j].op.charId
  }

  /** The document has the characters of the chain, in its order. */
  ghost predicate Spelled(content: seq<Char>, chain: seq<Message>) {
    && |content| == |chain|
    && forall i :: 0 <= i < |chain| ==> chain[i].op.Insert? && content[i].id == chain[i].op.charId
  }

  lemma NextAppends(d: Doc, chain: seq<Message>, x: Message)
    requires Chained(chain + [x]) && DistinctIds(chain)
    requires Spelled(d.content, chain)
    ensures x.op.Insert? && InsertPos(d.content, x.op) == |d.content|
    ensures Apply(d, x.op).content == d.content + [Fresh(x.op)]
  {
    var l := |chain|;
    assert (chain + [x])[l] == x;
    if l > 0 {
      assert (chain + [x])[l - 1] == chain[l - 1];
      assert forall i :: 0 <= i < l ==> (chain + [x])[i] == chain[i];
      IndexIs(d.content, x.op.after.value, l - 1);
    }
    assert InsertPos(d.content, x.op) == l;
  }

  ghost predicate InOrder(content: seq<Char>, x: CharId, y: CharId) {
    var i, j := IndexOf(content, x), IndexOf(content, y);
    i.Some? && j.Some? && i.value < j.value
  }

  /** The order of two characters never changes while no other character takes either id. */
  lemma {:induction false} OrderIsKept(d: Doc, run: seq<Message>, x: CharId, y: CharId)
    requires InOrder(d.content, x, y)
    requires forall m :: m in run && m.op.Insert? ==> m.op.charId != x && m.op.charId != y
    ensures InOrder(ApplyAll(d, run).content, x, y)
    decreases |run|
  {
    if run != [] {
      var op := run[0].op;
      assert run[0] in run;
      match op {
        case Insert(_, _, _) =>
          IndexAfterInsert(d.content, InsertPos(d.content, op), Fresh(op), x);
          IndexAfterInsert(d.content, InsertPos(d.content, op), Fresh(op), y);
        case Delete(id) =>
          TombstoneKeepsIndex(d, id, x);
          TombstoneKeepsIndex(d, id, y);
      }
      OrderIsKept(Apply(d, op), run[1..], x, y);
    }
  }

  lemma AppendsBehindFront(d: Doc, chain: seq<Message>, a: Message, b: Message)
    requires a.op.Insert? && b.op.Insert? && b.op.after != Some(a.op.charId) && Chained(chain + [b]) && DistinctIds(chain)
    requires b.op.after.None? || !Outranks(a.op.charId, b.op.charId)
    requires Spelled(d.content, chain)
    ensures InsertPos(d.content + [Fresh(a.op)], b.op) == |chain| + 1
  {
    var r, l := InsertAt(d.content, |chain|, Fresh(a.op)), |chain|;
    assert r == d.content + [Fresh(a.op)];
    NextAppends(d, chain, b);
    StartAfter(d.content, l, Fresh(a.op), b.op.after);
    ScanIs(r, Start(r, b.op.after), b.op, l + 1);
  }

  /** The insertions land at the end of the document of the chain, in either order. */
  lemma BothAppend(d: Doc, chain: seq<Message>, a: Message, b: Message)
    requires a.op.Insert? && b.op.Insert? && a.op.after.None? && b.op.after != Some(a.op.charId)
    requires b.op.after.None? || !Outranks(a.op.charId, b.op.charId)
    requires Chained(chain + [b]) && DistinctIds(chain) && Spelled(d.content, chain)
    ensures Apply(Apply(d, a.op), b.op).content == d.content + [Fresh(a.op)] + [Fresh(b.op)]
    ensures Apply(Apply(d, b.op), a.op).content == d.content + [Fresh(b.op)] + [Fresh(a.op)]
  {
    NextAppends(d, chain, b);
    FrontInsertAppends(Apply(d, b.op), a.op);
    FrontInsertAppends(d, a.op);
    AppendsBehindFront(d, chain, a, b);
    AtEnd(Apply(d, a.op).content, Fresh(b.op));
  }

  lemma AtEnd(content: seq<Char>, c: Char)
    ensures InsertAt(content, |content|, c) == content + [c]
  {}

  lemma EndInOrder(content: seq<Char>, x: Char, y: Char)
    requires x.id != y.id && forall i :: 0 <= i < |content| ==> content[i].id != x.id && content[i].id != y.id
    ensures InOrder(content + [x] + [y], x.id, y.id)
  {
    var r := content + [x] + [y];
    assert forall i :: 0 <= i < |content| ==> r[i] == content[i];
    IndexIs(r, x.id, |content|);
    IndexIs(r, y.id, |content| + 1);
  }

  ghost predicate Unordered(all: multiset<Message>, a: Message, b: Message) {
    && Both(all, a, b) && a.op.Insert? && b.op.Insert? && a.op.after.None?
    && !Leading(all, a, b)
  }

  /** An insertion at the front and one that it neither comes before nor outranks end in the order of arrival. */
  lemma FrontRecordsOrder(chain: seq<Message>, a: Message, b: Message, rest: seq<Message>)
    requires DistinctIds(chain + [a] + ([b] + rest)) && Chained(chain + [b])
    requires a.op.Insert? && b.op.Insert? && a.op.after.None? && b.op.after != Some(a.op.charId)
    requires b.op.after.None? || !Outranks(a.op.charId, b.op.charId)
    ensures ApplyAll(Doc([], 0), chain + [a] + ([b] + rest)) != ApplyAll(Doc([], 0), chain + [b] + ([a] + rest))
  {
    var none := Doc([], 0);
    IdsApart(chain, a, b, rest);
    ChainContent(chain);
    var d := ApplyAll(none, chain);
    BothAppend(d, chain, a, b);
    forall i | 0 <= i < |chain| ensures Neither(chain[i], a, b) {
      assert chain[i] in chain;
    }
    EndInOrder(d.content, Fresh(a.op), Fresh(b.op));
    EndInOrder(d.content, Fresh(b.op), Fresh(a.op));
    TwoThenRest(none, chain, a, b, rest);
    TwoThenRest(none, chain, b, a, rest);
    OrderIsKept(Apply(Apply(d, a.op), b.op), rest, a.op.charId, b.op.charId);
    OrderIsKept(Apply(Apply(d, b.op), a.op), rest, b.op.charId, a.op.charId);
  }

  predicate Neither(m: Message, a: Message, b: Message)
    requires a.op.Insert? && b.op.Insert?
  {
    m.op.Insert? ==> m.op.charId != a.op.charId && m.op.charId != b.op.charId
  }

  lemma IdsApart(chain: seq<Message>, a: Message, b: Message, rest: seq<Message>)
    requires DistinctIds(chain + [a] + ([b] + rest)) && Chained(chain + [b]) && a.op.Insert? && b.op.Insert?
    ensures Chained(chain) && DistinctIds(chain) && a.op.charId != b.op.charId
    ensures forall m :: m in chain ==> Neither(m, a, b)
    ensures forall m :: m in rest ==> Neither(m, a, b)
  {
    var run, l := chain + [a] + ([b] + rest), |chain|;
    assert forall i :: 0 <= i < l ==> run[i] == chain[i] && chain[i] == (chain + [b])[i];
    assert run[l] == a && run[l + 1] == b;
    forall m | m in rest ensures Neither(m, a, b) {
      var i :| 0 <= i < |rest| && rest[i] == m;
      assert run[l + 2 + i] == m;
    }
  }

  lemma StampsAreIds(run: seq<Message>)
    requires DistinctStamps(multiset(run))
    ensures DistinctIds(run)
  {
    forall i, j | 0 <= i < j < |run| && run[i].op.Insert? && run[j].op.Insert?
      ensures run[i].op.charId != run[j].op.charId
    {
      TwoPositions(run, i, j);
    }
  }

  lemma OneMore(d: Doc, pre: seq<Message>, a: Message, rest: seq<Message>)
    ensures ApplyAll(d, pre + [a] + rest) == ApplyAll(Apply(ApplyAll(d, pre), a.op), rest)
  {
    Assoc(pre, [a], rest);
    ApplyAllConcat(d, pre, [a] + rest);
  }

  lemma TwoThenRest(d: Doc, pre: seq<Message>, a: Message, b: Message, rest: seq<Message>)
    ensures ApplyAll(d, pre + [a] + ([b] + rest)) == ApplyAll(Apply(Apply(ApplyAll(d, pre), a.op), b.op), rest)
  {
    OneMore(d, pre, a, [b] + rest);
    assert ([b] + rest)[1..] == rest;
  }

  /** From the chain of `b` on, `a` can be brought forward to either side of `b`. */
  lemma EitherSide(chain: seq<Message>, b: Message, rest: seq<Message>, a: Message) returns (others: seq<Message>)
    requires Causal(chain + [b] + rest) && a in rest && a.op.Insert? && a.op.after.None? && !Depends(b, a)
    ensures var one, two := chain + [a] + ([b] + others), chain + [b] + ([a] + others);
            && Causal(one) && multiset(one) == multiset(chain + [b] + rest)
            && Causal(two) && multiset(two) == multiset(chain + [b] + rest)
  {
    var p :| 0 <= p < |rest| && rest[p] == a;
    var pre, post := rest[..p], rest[p + 1..];
    others := pre + post;
    assert rest == pre + [a] + post;
    MoveUp(chain + [b], pre, a, post);
    Assoc(chain + [b], [a], others);
    assert chain + [b] + ([a] + others) == chain + ([b] + [a] + others);
    MoveUp(chain, [b], a, others);
  }

  /** An insertion at the front and another that it neither comes before nor outranks. */
  ghost predicate Unsettled(all: multiset<Message>, a: Message, b: Message) {
    && Both(all, a, b) && a.op.Insert? && b.op.Insert? && a.op.after.None?
    && !Leading(all, a, b)
  }

  /** Two causal orders that the empty document tells apart. */
  lemma OrdersApart(run: seq<Message>, a: Message, b: Message) returns (one: seq<Message>, two: seq<Message>)
    requires Causal(run) && DistinctStamps(multiset(run)) && Unsettled(multiset(run), a, b)
    ensures Causal(one) && multiset(one) == multiset(run) && Causal(two) && multiset(two) == multiset(run)
    ensures ApplyAll(Doc([], 0), one) != ApplyAll(Doc([], 0), two)
  {
    var all := multiset(run);
    assert b in run;
    var k :| 0 <= k < |run| && run[k] == b;
    var chain, rest := Gather(run, k);
    NotBehind(run, chain, rest, a, b);
    var others := EitherSide(chain, b, rest, a);
    one, two := chain + [a] + ([b] + others), chain + [b] + ([a] + others);
    StampsAreIds(one);
    FrontRecordsOrder(chain, a, b, others);
  }

  lemma NotBehind(run: seq<Message>, chain: seq<Message>, rest: seq<Message>, a: Message, b: Message)
    requires Unsettled(multiset(run), a, b) && DistinctStamps(multiset(run))
    requires multiset(chain + [b] + rest) == multiset(run)
    requires Chained(chain + [b]) && ComesFrom(chain, multiset(run), b)
    ensures a in rest && b.op.after != Some(a.op.charId) && (b.op.after.None? || !Outranks(a.op.charId, b.op.charId))
  {
    var all := multiset(run);
    assert Both(all, a, b) && a != b;
    if chain != [] {
      BehindChain(chain, b);
    }
    assert a !in chain;
    if b.op.after == Some(a.op.charId) {
      assert Path(Depends, all, a, b, 0);
    }
    assert a in multiset(chain + [b] + rest);
  }

  /** A batch whose insertions have stamps of their own converges, in all causal orders and from all documents, exactly
      when at most one of them is at the front and that one comes before or outranks every other. */
  lemma ConvergesIff(run: seq<Message>)
    requires Causal(run) && DistinctStamps(multiset(run))
    ensures (forall d, other :: Causal(other) && multiset(other) == multiset(run) ==> ApplyAll(d, other) == ApplyAll(d, run))
            <==> FrontsLead(multiset(run))
  {
    var all := multiset(run);
    if FrontsLead(all) {
      FrontsLeadResolve(all);
      forall d, other | Causal(other) && multiset(other) == all ensures ApplyAll(d, other) == ApplyAll(d, run) {
        Converges(d, run, other);
      }
    } else {
      var a, b :| Both(all, a, b) && Unsettled(all, a, b);
      var one, two := OrdersApart(run, a, b);
    }
  }
}
