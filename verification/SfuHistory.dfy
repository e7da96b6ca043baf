/** Whole runs of the media router (services/media/src/sfu.rs), read against their own history. */
module SfuHistory {
  import opened Common
  import opened Sfu

  /** The store after the first `n` calls, from `start`. */
  ghost function From(cfg: Config, start: Rooms, ops: seq<Op>, n: nat): Rooms
    requires n <= |ops|
  {
    if n == 0 then start else Step(cfg, From(cfg, start, ops, n - 1), ops[n - 1]).0
  }

  ghost function At(cfg: Config, ops: seq<Op>, n: nat): Rooms
    requires n <= |ops|
  {
    From(cfg, map[], ops, n)
  }

  ghost predicate Accepted(cfg: Config, ops: seq<Op>, i: nat)
    requires i < |ops|
  {
    Step(cfg, At(cfg, ops, i), ops[i]).1.Ok?
  }

  function Drawn(op: Op): Option<Id> {
    match op
    case CreateRoom(id, _) => Some(id)
    case Join(id, _, _, _) => Some(id)
    case CreateTransport(id, _, _, _) => Some(id)
    case Produce(id, _, _, _, _, _) => Some(id)
    case Consume(id, _, _, _, _) => Some(id)
    case _ => None
  }

  /** Random identifiers never repeat. */
  ghost predicate Distinct(ops: seq<Op>) {
    forall i, j :: 0 <= i < j < |ops| && Drawn(ops[i]).Some? ==> Drawn(ops[i]) != Drawn(ops[j])
  }

  ghost predicate Issued(ops: seq<Op>, n: nat, id: Id)
    requires n <= |ops|
  {
    exists i :: 0 <= i < n && Drawn(ops[i]) == Some(id)
  }

  ghost predicate Present(rooms: Rooms, r: Id, p: Id) {
    r in rooms && p in rooms[r].participants
  }

  ghost predicate On(op: Op, r: Id, p: Id) {
    op.OfParticipant() && op.room == r && op.who == p
  }

  /** How a participant present after a call came to be what it is. */
  lemma Effect(cfg: Config, rooms: Rooms, op: Op, r: Id, p: Id)
    requires Present(Step(cfg, rooms, op).0, r, p)
    ensures var (rooms', answer) := Step(cfg, rooms, op);
            var p' := rooms'[r].participants[p];
            if op.Join? && op.room == r && op.drawn == p && answer.Ok? then p' == Newcomer(p, op.userId, op.displayName)
            else
              && Present(rooms, r, p)
              && var before := rooms[r].participants[p];
                 if On(op, r, p) && answer.Ok?
                 then Change(rooms[r], before, op).Ok? && p' == Change(rooms[r], before, op).value.0
                 else p' == before
  {}

  lemma IssuedGrows(ops: seq<Op>, n: nat, id: Id)
    requires n < |ops|
    ensures Issued(ops, n + 1, id) <==> Issued(ops, n, id) || Drawn(ops[n]) == Some(id)
  {
    assert Drawn(ops[n]) == Some(id) ==> Issued(ops, n + 1, id);
  }

  lemma {:induction false} PresentIsIssued(cfg: Config, ops: seq<Op>, n: nat, r: Id, p: Id)
    requires n <= |ops| && Present(At(cfg, ops, n), r, p)
    ensures Issued(ops, n, p)
  {
    if n > 0 {
      Effect(cfg, At(cfg, ops, n - 1), ops[n - 1], r, p);
      IssuedGrows(ops, n - 1, p);
      if Present(At(cfg, ops, n - 1), r, p) {
        PresentIsIssued(cfg, ops, n - 1, r, p);
      }
    }
  }

  lemma {:induction false} RoomIsIssued(cfg: Config, ops: seq<Op>, n: nat, r: Id)
    requires n <= |ops| && r in At(cfg, ops, n)
    ensures Issued(ops, n, r)
  {
    IssuedGrows(ops, n - 1, r);
    if r in At(cfg, ops, n - 1) {
      RoomIsIssued(cfg, ops, n - 1, r);
    }
  }

  /** A participant that has just joined was named by no earlier accepted call. */
  lemma NewToHistory(cfg: Config, ops: seq<Op>, n: nat, i: nat, r: Id)
    requires Distinct(ops) && i < n < |ops| && ops[n].Join?
    ensures !Present(At(cfg, ops, i), r, ops[n].drawn)
  {
    if Present(At(cfg, ops, i), r, ops[n].drawn) {
      PresentIsIssued(cfg, ops, i, r, ops[n].drawn);
    }
  }

  // ---------- producers and consumers against the calls that made them ----------

  /** Call `i` was an accepted produce by `p` in `r` that got the producer id `k`. */
  ghost predicate Produced(cfg: Config, ops: seq<Op>, i: nat, r: Id, p: Id, k: Id)
    requires i < |ops|
  {
    ops[i].Produce? && On(ops[i], r, p) && ops[i].drawn == k && Accepted(cfg, ops, i)
  }

  ghost predicate MadeBy(op: Op, kind: Kind, rtp: RtpParameters) {
    op.Produce? && op.kind == kind && op.rtp == rtp
  }

  /** While its owner is present, a producer is held with the kind and parameters it was created with. */
  lemma {:induction false} ProducerPersists(cfg: Config, ops: seq<Op>, n: nat, i: nat, r: Id, p: Id, k: Id)
    requires Distinct(ops) && i < n <= |ops|
    requires Produced(cfg, ops, i, r, p, k) && Present(At(cfg, ops, n), r, p)
    ensures var producers := At(cfg, ops, n)[r].participants[p].producers;
            k in producers && MadeBy(ops[i], producers[k].kind, producers[k].rtp)
  {
    var op := ops[n - 1];
    Effect(cfg, At(cfg, ops, n - 1), op, r, p);
    if op.Join? && op.drawn == p {
      assert Present(At(cfg, ops, i), r, p);
      if i < n - 1 {
        NewToHistory(cfg, ops, n - 1, i, r);
      }
    } else if i < n - 1 {
      ProducerPersists(cfg, ops, n - 1, i, r, p, k);
      assert Drawn(ops[i]) != Drawn(op);
    }
  }

  /** Every producer held was created by an accepted produce of its owner, with its kind and parameters. */
  lemma {:induction false} ProducerHasOrigin(cfg: Config, ops: seq<Op>, n: nat, r: Id, p: Id, k: Id) returns (i: nat)
    requires n <= |ops| && Present(At(cfg, ops, n), r, p) && k in At(cfg, ops, n)[r].participants[p].producers
    ensures i < n && Produced(cfg, ops, i, r, p, k)
    ensures var c := At(cfg, ops, n)[r].participants[p].producers[k]; MadeBy(ops[i], c.kind, c.rtp)
  {
    var op := ops[n - 1];
    Effect(cfg, At(cfg, ops, n - 1), op, r, p);
    if op.Produce? && On(op, r, p) && Accepted(cfg, ops, n - 1) && op.drawn == k {
      i := n - 1;
    } else {
      i := ProducerHasOrigin(cfg, ops, n - 1, r, p, k);
    }
  }

  lemma NewProducerId(cfg: Config, ops: seq<Op>, n: nat)
    requires n < |ops| && Distinct(ops) && ops[n].Produce? && ops[n].room in At(cfg, ops, n)
    ensures Unproduced(At(cfg, ops, n)[ops[n].room], ops[n].drawn)
  {
    var room, id := At(cfg, ops, n)[ops[n].room], ops[n].drawn;
    forall p | p in room.participants ensures id !in room.participants[p].producers {
      if id in room.participants[p].producers {
        var i := ProducerHasOrigin(cfg, ops, n, ops[n].room, p, id);
      }
    }
  }

  lemma GoodNext(cfg: Config, ops: seq<Op>, n: nat)
    requires 0 < n <= |ops| && Distinct(ops) && Good(cfg, At(cfg, ops, n - 1))
    ensures Good(cfg, At(cfg, ops, n))
  {
    var op, rooms := ops[n - 1], At(cfg, ops, n - 1);
    if op.Produce? && op.room in rooms {
      NewProducerId(cfg, ops, n - 1);
    }
    StepKeepsGood(cfg, rooms, op);
    assert At(cfg, ops, n) == Step(cfg, rooms, op).0;
  }

  /** In every reachable state the store invariant holds. */
  lemma {:induction false} AlwaysGood(cfg: Config, ops: seq<Op>, n: nat)
    requires n <= |ops| && Distinct(ops)
    ensures Good(cfg, At(cfg, ops, n))
  {
    if n == 0 {
      assert At(cfg, ops, 0) == map[];
    } else {
      AlwaysGood(cfg, ops, n - 1);
      GoodNext(cfg, ops, n);
    }
  }

  ghost predicate HasOrigin(cfg: Config, ops: seq<Op>, n: nat, r: Id, c: Consumer)
    requires n <= |ops|
  {
    exists i, owner :: 0 <= i < n && Produced(cfg, ops, i, r, owner, c.producerId) && MadeBy(ops[i], c.kind, c.rtp)
  }

  lemma FoundOwner(cfg: Config, room: Room, r: Id, producer: Id) returns (owner: Id)
    requires GoodRoom(cfg, room, r) && FindProducer(room, producer).Some?
    ensures owner in room.participants && producer in room.participants[owner].producers
    ensures FindProducer(room, producer) == Some(room.participants[owner].producers[producer])
  {
    var key;
    owner, key :| Offers(room, owner, key, producer);
    assert GoodParticipant(room.participants[owner], owner);
    OneProducer(cfg, room, r, owner, producer);
  }

  lemma NewConsumerHasOrigin(cfg: Config, ops: seq<Op>, n: nat, r: Id, q: Id, c: Consumer)
    requires n < |ops| && Distinct(ops) && ops[n].Consume? && On(ops[n], r, q) && Accepted(cfg, ops, n)
    requires c.producerId == ops[n].producer
    requires var found := FindProducer(At(cfg, ops, n)[r], c.producerId);
             found.Some? && found.value.kind == c.kind && found.value.rtp == c.rtp
    ensures HasOrigin(cfg, ops, n + 1, r, c)
  {
    var room := At(cfg, ops, n)[r];
    AlwaysGood(cfg, ops, n);
    assert GoodRoom(cfg, room, r);
    var owner := FoundOwner(cfg, room, r, c.producerId);
    var i := ProducerHasOrigin(cfg, ops, n, r, owner, c.producerId);
    assert Produced(cfg, ops, i, r, owner, c.producerId) && MadeBy(ops[i], c.kind, c.rtp);
  }

  lemma {:induction false} ConsumerHasOrigin(cfg: Config, ops: seq<Op>, n: nat, r: Id, q: Id, k: Id)
    requires n <= |ops| && Distinct(ops) && Present(At(cfg, ops, n), r, q)
    requires k in At(cfg, ops, n)[r].participants[q].consumers
    ensures HasOrigin(cfg, ops, n, r, At(cfg, ops, n)[r].participants[q].consumers[k])
  {
    var op := ops[n - 1];
    var c := At(cfg, ops, n)[r].participants[q].consumers[k];
    Effect(cfg, At(cfg, ops, n - 1), op, r, q);
    if op.Consume? && On(op, r, q) && Accepted(cfg, ops, n - 1) && op.drawn == k {
      NewConsumerHasOrigin(cfg, ops, n - 1, r, q, c);
    } else {
      ConsumerHasOrigin(cfg, ops, n - 1, r, q, k);
      var i, owner :| 0 <= i < n - 1 && Produced(cfg, ops, i, r, owner, c.producerId) && MadeBy(ops[i], c.kind, c.rtp);
    }
  }

  /** In every reachable state, a consumer's kind and parameters are those its producer was created with, and
      while the producer's owner is in the room the producer is found there with the same ones. */
  lemma ConsumerAgrees(cfg: Config, ops: seq<Op>, n: nat, r: Id, q: Id, k: Id) returns (i: nat, owner: Id)
    requires n <= |ops| && Distinct(ops) && Present(At(cfg, ops, n), r, q)
    requires k in At(cfg, ops, n)[r].participants[q].consumers
    ensures var c := At(cfg, ops, n)[r].participants[q].consumers[k];
            && i < n && Produced(cfg, ops, i, r, owner, c.producerId) && MadeBy(ops[i], c.kind, c.rtp)
            && (Present(At(cfg, ops, n), r, owner) ==>
                  && c.producerId in At(cfg, ops, n)[r].participants[owner].producers
                  && (var found := At(cfg, ops, n)[r].participants[owner].producers[c.producerId];
                      found.kind == c.kind && found.rtp == c.rtp))
  {
    var c := At(cfg, ops, n)[r].participants[q].consumers[k];
    ConsumerHasOrigin(cfg, ops, n, r, q, k);
    i, owner :| 0 <= i < n && Produced(cfg, ops, i, r, owner, c.producerId) && MadeBy(ops[i], c.kind, c.rtp);
    if Present(At(cfg, ops, n), r, owner) {
      ProducerPersists(cfg, ops, n, i, r, owner, c.producerId);
    }
  }

  // ---------- settings against the calls that made them ----------

  /** Call `i` was an accepted pause or resume of this producer. */
  ghost predicate Toggled(cfg: Config, ops: seq<Op>, i: nat, r: Id, p: Id, k: Id)
    requires i < |ops|
  {
    ops[i].SetPaused? && On(ops[i], r, p) && ops[i].producer == k && Accepted(cfg, ops, i)
  }

  /** The flag of the latest accepted pause or resume; producers start unpaused. */
  ghost function LatestPause(cfg: Config, ops: seq<Op>, n: nat, r: Id, p: Id, k: Id): bool
    requires n <= |ops|
  {
    if n == 0 then false
    else if Toggled(cfg, ops, n - 1, r, p, k) then ops[n - 1].paused
    else LatestPause(cfg, ops, n - 1, r, p, k)
  }

  ghost predicate QualitySet(cfg: Config, ops: seq<Op>, i: nat, r: Id, p: Id)
    requires i < |ops|
  {
    ops[i].SetVideoQuality? && On(ops[i], r, p) && Accepted(cfg, ops, i)
  }

  ghost function LatestQuality(cfg: Config, ops: seq<Op>, n: nat, r: Id, p: Id): VideoQuality
    requires n <= |ops|
  {
    if n == 0 then Quality720p
    else if QualitySet(cfg, ops, n - 1, r, p) then ops[n - 1].quality
    else LatestQuality(cfg, ops, n - 1, r, p)
  }

  lemma {:induction false} UntoggledBeforeProduced(cfg: Config, ops: seq<Op>, n: nat, m: nat, r: Id, p: Id)
    requires m <= n < |ops| && Distinct(ops) && ops[n].Produce?
    ensures !LatestPause(cfg, ops, m, r, p, ops[n].drawn)
  {
    if m > 0 {
      UntoggledBeforeProduced(cfg, ops, n, m - 1, r, p);
      if Toggled(cfg, ops, m - 1, r, p, ops[n].drawn) {
        var i := ProducerHasOrigin(cfg, ops, m - 1, r, p, ops[n].drawn);
      }
    }
  }

  /** A producer is paused exactly as the latest accepted pause or resume of it says. */
  lemma {:induction false} PausedIsLatest(cfg: Config, ops: seq<Op>, n: nat, r: Id, p: Id, k: Id)
    requires n <= |ops| && Distinct(ops) && Present(At(cfg, ops, n), r, p)
    requires k in At(cfg, ops, n)[r].participants[p].producers
    ensures At(cfg, ops, n)[r].participants[p].producers[k].paused == LatestPause(cfg, ops, n, r, p, k)
  {
    var op := ops[n - 1];
    Effect(cfg, At(cfg, ops, n - 1), op, r, p);
    if op.Produce? && On(op, r, p) && Accepted(cfg, ops, n - 1) && op.drawn == k {
      UntoggledBeforeProduced(cfg, ops, n - 1, n - 1, r, p);
    } else {
      PausedIsLatest(cfg, ops, n - 1, r, p, k);
    }
  }

  /** Nobody sets the quality of a participant that has not joined yet. */
  lemma NotSetBeforeJoin(cfg: Config, ops: seq<Op>, n: nat, i: nat, r: Id)
    requires i < n < |ops| && Distinct(ops) && ops[n].Join?
    ensures !QualitySet(cfg, ops, i, r, ops[n].drawn)
  {
    NewToHistory(cfg, ops, n, i, r);
  }

  lemma {:induction false} UnsetIfNeverSet(cfg: Config, ops: seq<Op>, m: nat, r: Id, p: Id)
    requires m <= |ops| && forall i :: 0 <= i < m ==> !QualitySet(cfg, ops, i, r, p)
    ensures LatestQuality(cfg, ops, m, r, p) == Quality720p
  {
    if m > 0 {
      UnsetIfNeverSet(cfg, ops, m - 1, r, p);
    }
  }

  lemma UnsetBeforeJoin(cfg: Config, ops: seq<Op>, n: nat, r: Id)
    requires n < |ops| && Distinct(ops) && ops[n].Join?
    ensures LatestQuality(cfg, ops, n, r, ops[n].drawn) == Quality720p
  {
    forall i | 0 <= i < n ensures !QualitySet(cfg, ops, i, r, ops[n].drawn) {
      NotSetBeforeJoin(cfg, ops, n, i, r);
    }
    UnsetIfNeverSet(cfg, ops, n, r, ops[n].drawn);
  }

  /** A participant's quality is the latest it was set to, 720p before that. */
  lemma {:induction false} QualityIsLatest(cfg: Config, ops: seq<Op>, n: nat, r: Id, p: Id)
    requires n <= |ops| && Distinct(ops) && Present(At(cfg, ops, n), r, p)
    ensures At(cfg, ops, n)[r].participants[p].quality == LatestQuality(cfg, ops, n, r, p)
  {
    var op := ops[n - 1];
    Effect(cfg, At(cfg, ops, n - 1), op, r, p);
    if op.Join? && op.room == r && op.drawn == p && Accepted(cfg, ops, n - 1) {
      UnsetBeforeJoin(cfg, ops, n - 1, r);
    } else {
      QualityIsLatest(cfg, ops, n - 1, r, p);
    }
  }

  // ---------- transports against the calls that made and connected them ----------

  ghost predicate Made(cfg: Config, ops: seq<Op>, i: nat, r: Id, p: Id, dir: Direction)
    requires i < |ops|
  {
    ops[i].CreateTransport? && On(ops[i], r, p) && ops[i].dir == dir && Accepted(cfg, ops, i)
  }

  /** Call `j` is the latest accepted `create_transport` of `p` in direction `dir`, among the first `n`. */
  ghost predicate LatestMade(cfg: Config, ops: seq<Op>, n: nat, r: Id, p: Id, dir: Direction, j: nat)
    requires n <= |ops|
  {
    j < n && Made(cfg, ops, j, r, p, dir) && forall k :: j < k < n ==> !Made(cfg, ops, k, r, p, dir)
  }

  ghost predicate Linked(cfg: Config, ops: seq<Op>, m: nat, r: Id, p: Id, transport: Id)
    requires m < |ops|
  {
    ops[m] == Connect(r, p, transport) && Accepted(cfg, ops, m)
  }

  ghost predicate LinkedSince(cfg: Config, ops: seq<Op>, n: nat, r: Id, p: Id, transport: Id, j: nat)
    requires n <= |ops|
  {
    exists m :: j < m < n && Linked(cfg, ops, m, r, p, transport)
  }

  /** Transport `t` was made by call `j`, the latest of its kind, and is connected iff a later call did so. */
  ghost predicate Tells(cfg: Config, ops: seq<Op>, n: nat, r: Id, p: Id, dir: Direction, t: Transport, j: nat)
    requires n <= |ops|
  {
    && LatestMade(cfg, ops, n, r, p, dir, j) && ops[j].drawn == t.id
    && (t.connected <==> LinkedSince(cfg, ops, n, r, p, t.id, j))
  }

  /** What the history says of one transport slot of a participant. */
  ghost predicate SlotTold(cfg: Config, ops: seq<Op>, n: nat, r: Id, p: Id, dir: Direction, slot: Option<Transport>)
    requires n <= |ops|
  {
    match slot
    case None => forall k :: 0 <= k < n ==> !Made(cfg, ops, k, r, p, dir)
    case Some(t) => exists j: nat :: Tells(cfg, ops, n, r, p, dir, t, j)
  }

  /** One slot after a call of the participant's own. */
  function NextSlot(slot: Option<Transport>, op: Op, dir: Direction): Option<Transport>
    requires op.OfParticipant()
  {
    if op.CreateTransport? && op.dir == dir then Some(Transport(op.drawn, dir, false))
    else if op.Connect? && slot.Some? && slot.value.id == op.transport then Some(slot.value.(connected := true))
    else slot
  }

  lemma ChangeSlots(room: Room, p: Participant, op: Op, dir: Direction)
    requires op.OfParticipant() && Change(room, p, op).Ok?
    requires p.send.Some? && p.recv.Some? ==> p.send.value.id != p.recv.value.id
    ensures Change(room, p, op).value.0.Slot(dir) == NextSlot(p.Slot(dir), op, dir)
  {}

  lemma ToldAfterOwnCall(cfg: Config, ops: seq<Op>, n: nat, r: Id, p: Id, dir: Direction, slot: Option<Transport>)
    requires n < |ops| && On(ops[n], r, p) && Accepted(cfg, ops, n) && SlotTold(cfg, ops, n, r, p, dir, slot)
    ensures SlotTold(cfg, ops, n + 1, r, p, dir, NextSlot(slot, ops[n], dir))
  {
    var op := ops[n];
    if op.CreateTransport? && op.dir == dir {
      assert Tells(cfg, ops, n + 1, r, p, dir, Transport(op.drawn, dir, false), n);
    } else if op.Connect? && slot.Some? && slot.value.id == op.transport {
      var t := slot.value;
      var j: nat :| Tells(cfg, ops, n, r, p, dir, t, j);
      assert Linked(cfg, ops, n, r, p, t.id);
      assert Tells(cfg, ops, n + 1, r, p, dir, t.(connected := true), j);
    } else {
      ToldIfUntouched(cfg, ops, n, r, p, dir, slot);
    }
  }

  lemma ToldIfUntouched(cfg: Config, ops: seq<Op>, n: nat, r: Id, p: Id, dir: Direction, slot: Option<Transport>)
    requires n < |ops| && SlotTold(cfg, ops, n, r, p, dir, slot) && !Made(cfg, ops, n, r, p, dir)
    requires slot.Some? ==> !Linked(cfg, ops, n, r, p, slot.value.id)
    ensures SlotTold(cfg, ops, n + 1, r, p, dir, slot)
  {
    if slot.Some? {
      var t := slot.value;
      var j: nat :| Tells(cfg, ops, n, r, p, dir, t, j);
      LinkedSinceGrows(cfg, ops, n, r, p, t.id, j);
      assert LatestMade(cfg, ops, n + 1, r, p, dir, j);
      assert Tells(cfg, ops, n + 1, r, p, dir, t, j);
    }
  }

  lemma LinkedSinceGrows(cfg: Config, ops: seq<Op>, n: nat, r: Id, p: Id, transport: Id, j: nat)
    requires j < n < |ops| && !Linked(cfg, ops, n, r, p, transport)
    ensures LinkedSince(cfg, ops, n + 1, r, p, transport, j) <==> LinkedSince(cfg, ops, n, r, p, transport, j)
  {}

  /** The two slots of a participant never hold the same transport. */
  lemma SlotsDiffer(cfg: Config, ops: seq<Op>, n: nat, r: Id, p: Id, s: Transport, t: Transport)
    requires n <= |ops| && Distinct(ops)
    requires SlotTold(cfg, ops, n, r, p, Send, Some(s)) && SlotTold(cfg, ops, n, r, p, Recv, Some(t))
    ensures s.id != t.id
  {
    var i: nat :| Tells(cfg, ops, n, r, p, Send, s, i);
    var j: nat :| Tells(cfg, ops, n, r, p, Recv, t, j);
    assert Drawn(ops[i]) == Some(s.id) && Drawn(ops[j]) == Some(t.id) && ops[i].dir != ops[j].dir;
  }

  ghost predicate BothTold(cfg: Config, ops: seq<Op>, n: nat, r: Id, p: Id)
    requires n <= |ops| && Present(At(cfg, ops, n), r, p)
  {
    var q := At(cfg, ops, n)[r].participants[p];
    SlotTold(cfg, ops, n, r, p, Send, q.send) && SlotTold(cfg, ops, n, r, p, Recv, q.recv)
  }

  lemma NothingToldYet(cfg: Config, ops: seq<Op>, n: nat, r: Id, p: Id)
    requires 0 < n <= |ops| && Distinct(ops) && Present(At(cfg, ops, n), r, p)
    requires var op := ops[n - 1]; op.Join? && op.room == r && op.drawn == p && Accepted(cfg, ops, n - 1)
    ensures BothTold(cfg, ops, n, r, p)
  {
    Effect(cfg, At(cfg, ops, n - 1), ops[n - 1], r, p);
    forall k, dir | 0 <= k < n ensures !Made(cfg, ops, k, r, p, dir) {
      if k < n - 1 { NewToHistory(cfg, ops, n - 1, k, r); }
    }
  }

  lemma ToldNext(cfg: Config, ops: seq<Op>, n: nat, r: Id, p: Id, dir: Direction)
    requires 0 < n <= |ops| && Present(At(cfg, ops, n - 1), r, p) && Present(At(cfg, ops, n), r, p)
    requires var op := ops[n - 1]; !(op.Join? && op.room == r && op.drawn == p && Accepted(cfg, ops, n - 1))
    requires var q := At(cfg, ops, n - 1)[r].participants[p];
             && SlotTold(cfg, ops, n - 1, r, p, dir, q.Slot(dir))
             && (q.send.Some? && q.recv.Some? ==> q.send.value.id != q.recv.value.id)
    ensures SlotTold(cfg, ops, n, r, p, dir, At(cfg, ops, n)[r].participants[p].Slot(dir))
  {
    var room, op := At(cfg, ops, n - 1)[r], ops[n - 1];
    var q := room.participants[p];
    Effect(cfg, At(cfg, ops, n - 1), op, r, p);
    if On(op, r, p) && Accepted(cfg, ops, n - 1) {
      ChangeSlots(room, q, op, dir);
      ToldAfterOwnCall(cfg, ops, n - 1, r, p, dir, q.Slot(dir));
    } else {
      ToldIfUntouched(cfg, ops, n - 1, r, p, dir, q.Slot(dir));
    }
  }

  lemma BothToldNext(cfg: Config, ops: seq<Op>, n: nat, r: Id, p: Id)
    requires 0 < n <= |ops| && Distinct(ops) && Present(At(cfg, ops, n - 1), r, p) && Present(At(cfg, ops, n), r, p)
    requires var op := ops[n - 1]; !(op.Join? && op.room == r && op.drawn == p && Accepted(cfg, ops, n - 1))
    requires BothTold(cfg, ops, n - 1, r, p)
    ensures BothTold(cfg, ops, n, r, p)
  {
    var q := At(cfg, ops, n - 1)[r].participants[p];
    if q.send.Some? && q.recv.Some? {
      SlotsDiffer(cfg, ops, n - 1, r, p, q.send.value, q.recv.value);
    }
    ToldNext(cfg, ops, n, r, p, Send);
    ToldNext(cfg, ops, n, r, p, Recv);
  }

  lemma {:induction false} SlotsAreTold(cfg: Config, ops: seq<Op>, n: nat, r: Id, p: Id)
    requires n <= |ops| && Distinct(ops) && Present(At(cfg, ops, n), r, p)
    ensures BothTold(cfg, ops, n, r, p)
  {
    Effect(cfg, At(cfg, ops, n - 1), ops[n - 1], r, p);
    if ops[n - 1].Join? && ops[n - 1].room == r && ops[n - 1].drawn == p && Accepted(cfg, ops, n - 1) {
      NothingToldYet(cfg, ops, n, r, p);
    } else {
      SlotsAreTold(cfg, ops, n - 1, r, p);
      BothToldNext(cfg, ops, n, r, p);
    }
  }

  /** The transport named is the participant's latest in that direction, and was connected after it was made. */
  ghost predicate Entitled(cfg: Config, ops: seq<Op>, n: nat, r: Id, p: Id, dir: Direction, transport: Id)
    requires n <= |ops|
  {
    exists j: nat :: LatestMade(cfg, ops, n, r, p, dir, j) && ops[j].drawn == transport &&
                     LinkedSince(cfg, ops, n, r, p, transport, j)
  }

  lemma EntitledIffReady(cfg: Config, ops: seq<Op>, n: nat, r: Id, p: Id, dir: Direction, transport: Id)
    requires n <= |ops| && Distinct(ops) && Present(At(cfg, ops, n), r, p)
    ensures Entitled(cfg, ops, n, r, p, dir, transport) <==>
            Ready(At(cfg, ops, n)[r].participants[p].Slot(dir), transport)
  {
    SlotsAreTold(cfg, ops, n, r, p);
    var slot := At(cfg, ops, n)[r].participants[p].Slot(dir);
    assert SlotTold(cfg, ops, n, r, p, dir, slot);
    if slot.Some? {
      var j: nat :| Tells(cfg, ops, n, r, p, dir, slot.value, j);
      forall i: nat | LatestMade(cfg, ops, n, r, p, dir, i) ensures i == j {}
    }
  }

  /** A produce is accepted exactly when its participant is in the room and the transport it names is that
      participant's most recent send transport, connected since it was created. */
  lemma ProduceDiscipline(cfg: Config, ops: seq<Op>, n: nat)
    requires n < |ops| && Distinct(ops) && ops[n].Produce?
    ensures Accepted(cfg, ops, n) <==>
            && Present(At(cfg, ops, n), ops[n].room, ops[n].who)
            && Entitled(cfg, ops, n, ops[n].room, ops[n].who, Send, ops[n].transport)
  {
    if Present(At(cfg, ops, n), ops[n].room, ops[n].who) {
      EntitledIffReady(cfg, ops, n, ops[n].room, ops[n].who, Send, ops[n].transport);
    }
  }

  /** Some participant still in the room was granted this producer id. */
  ghost predicate OnOffer(cfg: Config, ops: seq<Op>, n: nat, r: Id, producer: Id)
    requires n <= |ops|
  {
    exists i, owner :: 0 <= i < n && Produced(cfg, ops, i, r, owner, producer) && Present(At(cfg, ops, n), r, owner)
  }

  lemma OnOfferIffFound(cfg: Config, ops: seq<Op>, n: nat, r: Id, producer: Id)
    requires n <= |ops| && Distinct(ops) && r in At(cfg, ops, n)
    ensures OnOffer(cfg, ops, n, r, producer) <==> FindProducer(At(cfg, ops, n)[r], producer).Some?
  {
    var room := At(cfg, ops, n)[r];
    AlwaysGood(cfg, ops, n);
    assert GoodRoom(cfg, room, r);
    if OnOffer(cfg, ops, n, r, producer) {
      var i, owner :| 0 <= i < n && Produced(cfg, ops, i, r, owner, producer) && Present(At(cfg, ops, n), r, owner);
      ProducerPersists(cfg, ops, n, i, r, owner, producer);
      OneProducer(cfg, room, r, owner, producer);
    }
    if FindProducer(room, producer).Some? {
      var owner, key :| Offers(room, owner, key, producer);
      assert GoodParticipant(room.participants[owner], owner);
      var i := ProducerHasOrigin(cfg, ops, n, r, owner, key);
      assert Produced(cfg, ops, i, r, owner, producer);
    }
  }

  /** A consume is accepted exactly when its participant is in the room, someone in the room still offers the
      producer, and the transport named is the participant's most recent receive transport, connected since. */
  lemma ConsumeDiscipline(cfg: Config, ops: seq<Op>, n: nat)
    requires n < |ops| && Distinct(ops) && ops[n].Consume?
    ensures Accepted(cfg, ops, n) <==>
            && Present(At(cfg, ops, n), ops[n].room, ops[n].who)
            && OnOffer(cfg, ops, n, ops[n].room, ops[n].producer)
            && Entitled(cfg, ops, n, ops[n].room, ops[n].who, Recv, ops[n].transport)
  {
    if Present(At(cfg, ops, n), ops[n].room, ops[n].who) {
      EntitledIffReady(cfg, ops, n, ops[n].room, ops[n].who, Recv, ops[n].transport);
      OnOfferIffFound(cfg, ops, n, ops[n].room, ops[n].producer);
    }
  }

  // ---------- what accepted calls answer ----------

  lemma {:induction false} ConsumerIsIssued(cfg: Config, ops: seq<Op>, n: nat, r: Id, p: Id, k: Id)
    requires n <= |ops| && Present(At(cfg, ops, n), r, p) && k in At(cfg, ops, n)[r].participants[p].consumers
    ensures Issued(ops, n, k)
  {
    var op := ops[n - 1];
    Effect(cfg, At(cfg, ops, n - 1), op, r, p);
    IssuedGrows(ops, n - 1, k);
    if !(op.Consume? && On(op, r, p) && op.drawn == k) {
      ConsumerIsIssued(cfg, ops, n - 1, r, p, k);
    }
  }

  lemma TransportIsIssued(cfg: Config, ops: seq<Op>, n: nat, r: Id, p: Id, dir: Direction)
    requires n <= |ops| && Distinct(ops) && Present(At(cfg, ops, n), r, p)
    ensures var slot := At(cfg, ops, n)[r].participants[p].Slot(dir); slot.Some? ==> Issued(ops, n, slot.value.id)
  {
    SlotsAreTold(cfg, ops, n, r, p);
    var slot := At(cfg, ops, n)[r].participants[p].Slot(dir);
    assert SlotTold(cfg, ops, n, r, p, dir, slot);
    if slot.Some? {
      var j: nat :| Tells(cfg, ops, n, r, p, dir, slot.value, j);
      assert Drawn(ops[j]) == Some(slot.value.id);
    }
  }

  ghost function Reply(cfg: Config, ops: seq<Op>, n: nat): Answer
    requires n < |ops|
  {
    Step(cfg, At(cfg, ops, n), ops[n]).1
  }

  /** An accepted consume is answered with the id of the consumer that is new, the only one, under which the caller now
      holds what the answer says: that producer, with the kind and parameters of the call that made it. */
  lemma ConsumeAnswers(cfg: Config, ops: seq<Op>, n: nat)
    requires n < |ops| && Distinct(ops) && ops[n].Consume? && Accepted(cfg, ops, n)
    ensures var op, r, reply := ops[n], ops[n].room, Reply(cfg, ops, n).value;
            && Present(At(cfg, ops, n), r, op.who) && Present(At(cfg, ops, n + 1), r, op.who)
            && reply.Consuming?
            && var p, p' := At(cfg, ops, n)[r].participants[op.who], At(cfg, ops, n + 1)[r].participants[op.who];
               && reply.id !in p.consumers && p'.consumers.Keys == p.consumers.Keys + {reply.id}
               && p'.(consumers := p.consumers) == p && p'.consumers - {reply.id} == p.consumers
               && p'.consumers[reply.id] == Consumer(reply.id, op.producer, reply.kind, reply.rtp, false)
               && reply.producerId == op.producer
               && exists i, owner :: 0 <= i < n && Produced(cfg, ops, i, r, owner, op.producer) &&
                                     MadeBy(ops[i], reply.kind, reply.rtp)
  {
    hide Step;
    var op := ops[n];
    ConsumeEffect(cfg, At(cfg, ops, n), op);
    var p := At(cfg, ops, n)[op.room].participants[op.who];
    if op.drawn in p.consumers {
      ConsumerIsIssued(cfg, ops, n, op.room, op.who, op.drawn);
    }
    var p' := At(cfg, ops, n + 1)[op.room].participants[op.who];
    assert p'.consumers - {op.drawn} == p.consumers;
    var c := p'.consumers[op.drawn];
    NewConsumerHasOrigin(cfg, ops, n, op.room, op.who, c);
    var i, owner :| 0 <= i < n + 1 && Produced(cfg, ops, i, op.room, owner, op.producer) && MadeBy(ops[i], c.kind, c.rtp);
    assert !ops[n].Produce?;
  }

  lemma ConsumeEffect(cfg: Config, rooms: Rooms, op: Op)
    requires op.Consume? && Step(cfg, rooms, op).1.Ok?
    ensures var (rooms', answer) := Step(cfg, rooms, op);
            && Present(rooms, op.room, op.who) && Present(rooms', op.room, op.who)
            && var p, found := rooms[op.room].participants[op.who], FindProducer(rooms[op.room], op.producer);
               && found.Some? && answer.value == Consuming(op.drawn, op.producer, found.value.kind, found.value.rtp)
               && rooms'[op.room].participants[op.who] == p.(consumers := p.consumers[op.drawn :=
                    Consumer(op.drawn, op.producer, found.value.kind, found.value.rtp, false)])
  {}

  /** An accepted produce is answered with the id of the producer that is new in the room, the only one. */
  lemma ProduceAnswers(cfg: Config, ops: seq<Op>, n: nat)
    requires n < |ops| && Distinct(ops) && ops[n].Produce? && Accepted(cfg, ops, n)
    ensures var op, r, reply := ops[n], ops[n].room, Reply(cfg, ops, n).value;
            && Present(At(cfg, ops, n), r, op.who) && Present(At(cfg, ops, n + 1), r, op.who)
            && reply.Created? && Unproduced(At(cfg, ops, n)[r], reply.id)
            && var p, p' := At(cfg, ops, n)[r].participants[op.who], At(cfg, ops, n + 1)[r].participants[op.who];
               && p'.(producers := p.producers) == p && p'.producers - {reply.id} == p.producers
               && reply.id in p'.producers
               && p'.producers[reply.id] == Producer(reply.id, op.kind, op.rtp, false)
  {
    var op := ops[n];
    NewProducerId(cfg, ops, n);
    var p, p' := At(cfg, ops, n)[op.room].participants[op.who], At(cfg, ops, n + 1)[op.room].participants[op.who];
    assert p'.producers - {op.drawn} == p.producers;
  }

  /** An accepted `create_transport` is answered with the id of the transport now in that slot, unconnected, which was in
      neither slot before; the other slot stays. */
  lemma TransportAnswers(cfg: Config, ops: seq<Op>, n: nat)
    requires n < |ops| && Distinct(ops) && ops[n].CreateTransport? && Accepted(cfg, ops, n)
    ensures var op, r, reply := ops[n], ops[n].room, Reply(cfg, ops, n).value;
            && Present(At(cfg, ops, n), r, op.who) && Present(At(cfg, ops, n + 1), r, op.who)
            && reply.Created?
            && var p, p' := At(cfg, ops, n)[r].participants[op.who], At(cfg, ops, n + 1)[r].participants[op.who];
               && !Holds(p.send, reply.id) && !Holds(p.recv, reply.id)
               && p'.Slot(op.dir) == Some(Transport(reply.id, op.dir, false))
               && p'.(send := p.send) == (if op.dir == Send then p else p.(recv := p'.recv))
               && p'.(recv := p.recv) == (if op.dir == Recv then p else p.(send := p'.send))
  {
    TransportIsIssued(cfg, ops, n, ops[n].room, ops[n].who, Send);
    TransportIsIssued(cfg, ops, n, ops[n].room, ops[n].who, Recv);
  }

  /** An accepted join is answered with the id of the one participant that is new, who has nothing yet. */
  lemma JoinAnswers(cfg: Config, ops: seq<Op>, n: nat)
    requires n < |ops| && Distinct(ops) && ops[n].Join? && Accepted(cfg, ops, n)
    ensures var op, r, reply := ops[n], ops[n].room, Reply(cfg, ops, n).value;
            && r in At(cfg, ops, n) && reply.Created? && !Present(At(cfg, ops, n), r, reply.id)
            && Present(At(cfg, ops, n + 1), r, reply.id)
            && At(cfg, ops, n + 1)[r].participants - {reply.id} == At(cfg, ops, n)[r].participants
            && var p := At(cfg, ops, n + 1)[r].participants[reply.id];
               && p.id == reply.id && p.userId == op.userId && p.displayName == op.displayName
               && p.send.None? && p.recv.None? && p.producers == map[] && p.consumers == map[] && p.quality == Quality720p
  {
    var op := ops[n];
    if Present(At(cfg, ops, n), op.room, op.drawn) {
      PresentIsIssued(cfg, ops, n, op.room, op.drawn);
    }
    var room := At(cfg, ops, n)[op.room];
    assert With(room, op.drawn, Newcomer(op.drawn, op.userId, op.displayName)).participants - {op.drawn} == room.participants;
  }

  /** An accepted `create_room` is answered with the id of the one room that is new, which is empty. */
  lemma RoomAnswers(cfg: Config, ops: seq<Op>, n: nat)
    requires n < |ops| && Distinct(ops) && ops[n].CreateRoom? && Accepted(cfg, ops, n)
    ensures var op, reply := ops[n], Reply(cfg, ops, n).value;
            && reply.Created? && reply.id !in At(cfg, ops, n) && reply.id in At(cfg, ops, n + 1)
            && At(cfg, ops, n + 1) - {reply.id} == At(cfg, ops, n)
            && At(cfg, ops, n + 1)[reply.id] == Room(reply.id, op.meetingId, map[], false)
  {
    if ops[n].drawn in At(cfg, ops, n) {
      RoomIsIssued(cfg, ops, n, ops[n].drawn);
    }
  }

  /** Who somebody in a room is, is what the call they joined by said; the room is that of the call that created it. */
  lemma {:induction false} JoinerPersists(cfg: Config, ops: seq<Op>, n: nat, r: Id, p: Id) returns (i: nat)
    requires n <= |ops| && Present(At(cfg, ops, n), r, p)
    ensures i < n && JoinsAs(ops[i], r, p) && Accepted(cfg, ops, i)
    ensures var q := At(cfg, ops, n)[r].participants[p]; q.userId == ops[i].userId && q.displayName == ops[i].displayName
  {
    hide Step, Change;
    var op := ops[n - 1];
    Effect(cfg, At(cfg, ops, n - 1), op, r, p);
    if JoinsAs(op, r, p) && Accepted(cfg, ops, n - 1) {
      i := n - 1;
    } else {
      if On(op, r, p) {
        ChangeKeepsName(At(cfg, ops, n - 1)[r], At(cfg, ops, n - 1)[r].participants[p], op);
      }
      i := JoinerPersists(cfg, ops, n - 1, r, p);
    }
  }

  lemma ChangeKeepsName(room: Room, p: Participant, op: Op)
    requires op.OfParticipant()
    ensures var changed := Change(room, p, op);
            changed.Ok? ==> changed.value.0.userId == p.userId && changed.value.0.displayName == p.displayName
  {}

  lemma RoomEffect(cfg: Config, rooms: Rooms, op: Op, r: Id)
    requires r in Step(cfg, rooms, op).0
    ensures var (rooms', answer) := Step(cfg, rooms, op);
            if op.CreateRoom? && op.drawn == r && answer.Ok? then rooms'[r] == Room(r, op.meetingId, map[], false)
            else r in rooms && rooms'[r].(participants := rooms[r].participants) == rooms[r]
  {}

  lemma {:induction false} RoomPersists(cfg: Config, ops: seq<Op>, n: nat, r: Id) returns (i: nat)
    requires n <= |ops| && r in At(cfg, ops, n)
    ensures i < n && ops[i].CreateRoom? && ops[i].drawn == r && Accepted(cfg, ops, i)
    ensures var room := At(cfg, ops, n)[r]; room.meetingId == ops[i].meetingId && !room.recordingEnabled
  {
    hide Step;
    RoomEffect(cfg, At(cfg, ops, n - 1), ops[n - 1], r);
    if ops[n - 1].CreateRoom? && ops[n - 1].drawn == r && Accepted(cfg, ops, n - 1) {
      i := n - 1;
    } else {
      i := RoomPersists(cfg, ops, n - 1, r);
    }
  }

  // ---------- empty rooms, and leaving in two steps ----------

  ghost predicate JoinedAt(cfg: Config, ops: seq<Op>, i: nat, r: Id)
    requires i < |ops|
  {
    ops[i].Join? && ops[i].room == r && Accepted(cfg, ops, i)
  }

  ghost predicate Empty(rooms: Rooms, r: Id) {
    r in rooms && rooms[r].participants == map[]
  }

  /** Call `i` was a two-step leave that emptied the room, and the room has stayed empty since. */
  ghost predicate ClosePending(cfg: Config, ops: seq<Op>, n: nat, r: Id, i: nat)
    requires n <= |ops|
  {
    && i < n && ops[i].LeaveBegin? && ops[i].room == r && Accepted(cfg, ops, i)
    && forall k :: i < k <= n ==> Empty(At(cfg, ops, k), r)
  }

  /** Only a two-step leave empties a room and keeps it. */
  lemma HowEmptied(cfg: Config, rooms: Rooms, op: Op, r: Id)
    requires Empty(Step(cfg, rooms, op).0, r) && Drawn(op) != Some(r)
    ensures Empty(rooms, r) || (op.LeaveBegin? && op.room == r && Step(cfg, rooms, op).1.Ok?)
    ensures !(op.Join? && op.room == r && Step(cfg, rooms, op).1.Ok?)
  {
    if !op.CreateRoom? && op.room == r && r in rooms && RoomStep(cfg, rooms[r], op).1.Ok? {
      NobodyLeft(cfg, rooms[r], op);
    }
  }

  lemma NobodyLeft(cfg: Config, room: Room, op: Op)
    requires !op.CreateRoom? && RoomStep(cfg, room, op).1.Ok? && RoomStep(cfg, room, op).0.Some?
    requires RoomStep(cfg, room, op).0.value.participants == map[]
    ensures op.LeaveBegin?
  {
    if op.Join? {
      WithSomebody(room, op.drawn, Newcomer(op.drawn, op.userId, op.displayName));
    } else if op.OfParticipant() {
      WithSomebody(room, op.who, Change(room, room.participants[op.who], op).value.0);
    }
  }

  lemma WithSomebody(room: Room, who: Id, p: Participant)
    ensures With(room, who, p).participants != map[]
  {
    assert who in With(room, who, p).participants;
  }

  lemma StillPending(cfg: Config, ops: seq<Op>, n: nat, r: Id, i: nat)
    requires 0 < n <= |ops| && ClosePending(cfg, ops, n - 1, r, i) && Empty(At(cfg, ops, n), r)
    ensures ClosePending(cfg, ops, n, r, i)
  {
    forall k | i < k <= n ensures Empty(At(cfg, ops, k), r) {
      assert k < n || k == n;
    }
  }

  lemma PendingNow(cfg: Config, ops: seq<Op>, n: nat, r: Id)
    requires 0 < n <= |ops| && Drawn(ops[n - 1]) != Some(r) && Empty(At(cfg, ops, n), r) && !Empty(At(cfg, ops, n - 1), r)
    ensures ClosePending(cfg, ops, n, r, n - 1)
  {
    HowEmptied(cfg, At(cfg, ops, n - 1), ops[n - 1], r);
  }

  /** The call after an accepted join of `r` does not draw `r` again. */
  lemma RoomIsNotRedrawn(cfg: Config, ops: seq<Op>, j: nat, n: nat, r: Id)
    requires j <= n < |ops| && Distinct(ops) && JoinedAt(cfg, ops, j, r)
    ensures Drawn(ops[n]) != Some(r)
  {
    RoomIsIssued(cfg, ops, j, r);
  }

  lemma JoinFills(cfg: Config, ops: seq<Op>, n: nat, r: Id)
    requires 0 < n <= |ops| && JoinedAt(cfg, ops, n - 1, r)
    ensures !Empty(At(cfg, ops, n), r)
  {
    var op := ops[n - 1];
    WithSomebody(At(cfg, ops, n - 1)[r], op.drawn, Newcomer(op.drawn, op.userId, op.displayName));
  }

  lemma NotPendingYet(cfg: Config, ops: seq<Op>, n: nat, r: Id)
    requires 0 < n <= |ops| && JoinedAt(cfg, ops, n - 1, r)
    ensures PendingIfEmpty(cfg, ops, n, r)
  {
    JoinFills(cfg, ops, n, r);
  }

  /** The room is not empty, or a close of it is pending. */
  ghost predicate PendingIfEmpty(cfg: Config, ops: seq<Op>, n: nat, r: Id)
    requires n <= |ops|
  {
    Empty(At(cfg, ops, n), r) ==> exists i: nat {:trigger ClosePending(cfg, ops, n, r, i)} :: ClosePending(cfg, ops, n, r, i)
  }

  lemma PendingIfEmptyNext(cfg: Config, ops: seq<Op>, n: nat, r: Id)
    requires 0 < n <= |ops| && Drawn(ops[n - 1]) != Some(r) && PendingIfEmpty(cfg, ops, n - 1, r)
    ensures PendingIfEmpty(cfg, ops, n, r)
  {
    if Empty(At(cfg, ops, n), r) {
      if Empty(At(cfg, ops, n - 1), r) {
        var i: nat :| ClosePending(cfg, ops, n - 1, r, i);
        StillPending(cfg, ops, n, r, i);
      } else {
        PendingNow(cfg, ops, n, r);
      }
    }
  }

  /** A room anyone ever joined is empty only between the two steps of a leave. */
  lemma {:induction false} EmptyOnlyWhilePending(cfg: Config, ops: seq<Op>, n: nat, j: nat, r: Id)
    requires j < n <= |ops| && Distinct(ops) && JoinedAt(cfg, ops, j, r)
    ensures PendingIfEmpty(cfg, ops, n, r)
  {
    hide Step, PendingIfEmpty;
    if j == n - 1 {
      NotPendingYet(cfg, ops, n, r);
    } else {
      EmptyOnlyWhilePending(cfg, ops, n - 1, j, r);
      RoomIsNotRedrawn(cfg, ops, j, n - 1, r);
      PendingIfEmptyNext(cfg, ops, n, r);
    }
  }

  /** When leaving is one step, a room anyone ever joined is never empty. */
  lemma NeverEmpty(cfg: Config, ops: seq<Op>, n: nat, j: nat, r: Id)
    requires j < n <= |ops| && Distinct(ops) && JoinedAt(cfg, ops, j, r)
    requires forall i :: 0 <= i < n ==> !ops[i].LeaveBegin?
    ensures !Empty(At(cfg, ops, n), r)
  {
    if Empty(At(cfg, ops, n), r) {
      EmptyOnlyWhilePending(cfg, ops, n, j, r);
    }
  }

  ghost predicate Agree(a: Rooms, b: Rooms, o: Id) {
    (o in a <==> o in b) && (o in a ==> a[o] == b[o])
  }

  /** Two stores that differ at most in room `r`, which the first does not have. */
  ghost predicate SameBut(a: Rooms, b: Rooms, r: Id) {
    r !in a && forall o {:trigger Agree(a, b, o)} :: o != r ==> Agree(a, b, o)
  }

  lemma SameButSize(a: Rooms, b: Rooms, r: Id)
    requires SameBut(a, b, r)
    ensures |a| <= |b| && a == b - {r}
  {
    forall o ensures o in a <==> o in b - {r} {
      assert o != r ==> Agree(a, b, o);
    }
    forall o | o in a ensures a[o] == b[o] {
      assert Agree(a, b, o);
    }
    assert a == b - {r};
    FewerKeys(b, r);
  }

  lemma SameButElsewhere(cfg: Config, a: Rooms, b: Rooms, r: Id, op: Op)
    requires SameBut(a, b, r) && !op.CreateRoom? && op.room != r
    ensures SameBut(Step(cfg, a, op).0, Step(cfg, b, op).0, r) && Step(cfg, a, op).1 == Step(cfg, b, op).1
  {
    assert Agree(a, b, op.room);
    var a', b' := Step(cfg, a, op).0, Step(cfg, b, op).0;
    forall o | o != r ensures Agree(a', b', o) {
      assert Agree(a, b, o);
    }
  }

  lemma SameButHere(cfg: Config, a: Rooms, b: Rooms, r: Id, op: Op)
    requires SameBut(a, b, r) && !op.CreateRoom? && op.room == r
    ensures SameBut(a, Step(cfg, b, op).0, r) && Step(cfg, a, op) == (a, Err(RoomNotFound))
  {
    var b' := Step(cfg, b, op).0;
    forall o | o != r ensures Agree(a, b', o) {
      assert Agree(a, b, o);
    }
  }

  /** A room creation that the lingering room `r`, and nothing else, keeps from fitting. */
  predicate Squeezed(cfg: Config, rooms: Rooms, r: Id, op: Op) {
    op.CreateRoom? && r in rooms && |rooms| == cfg.maxRooms
  }

  lemma SameButCreated(cfg: Config, a: Rooms, b: Rooms, r: Id, op: Op)
    requires SameBut(a, b, r) && op.CreateRoom? && op.drawn != r && !Squeezed(cfg, b, r, op)
    ensures SameBut(Step(cfg, a, op).0, Step(cfg, b, op).0, r) && Step(cfg, a, op).1 == Step(cfg, b, op).1
  {
    SameButSize(a, b, r);
    var a', b' := Step(cfg, a, op).0, Step(cfg, b, op).0;
    forall o | o != r ensures Agree(a', b', o) {
      assert Agree(a, b, o);
    }
  }

  /** A squeezed creation is refused, but would not have been without the lingering room. */
  lemma SqueezedDiffers(cfg: Config, a: Rooms, b: Rooms, r: Id, op: Op)
    requires SameBut(a, b, r) && Squeezed(cfg, b, r, op)
    ensures Step(cfg, a, op).1.Ok? && Step(cfg, b, op).1 == Err(MaxRoomsReached)
  {
    SameButSize(a, b, r);
    assert |a| == |b| - 1;
  }

  /** The answers of the two stores to one call are as they should be: calls on the lingering room are refused in the
      store without it, all others are answered alike. */
  ghost predicate AnsweredAlike(cfg: Config, a: Rooms, b: Rooms, r: Id, op: Op) {
    if !op.CreateRoom? && op.room == r then Step(cfg, a, op).1 == Err(RoomNotFound)
    else Step(cfg, a, op).1 == Step(cfg, b, op).1
  }

  lemma SameButStep(cfg: Config, a: Rooms, b: Rooms, r: Id, op: Op)
    requires SameBut(a, b, r) && Drawn(op) != Some(r)
    ensures AnsweredAlike(cfg, a, b, r, op) <==> !Squeezed(cfg, b, r, op)
    ensures !Squeezed(cfg, b, r, op) ==> SameBut(Step(cfg, a, op).0, Step(cfg, b, op).0, r)
  {
    if Squeezed(cfg, b, r, op) {
      SqueezedDiffers(cfg, a, b, r, op);
    } else if op.CreateRoom? {
      SameButCreated(cfg, a, b, r, op);
    } else if op.room == r {
      SameButHere(cfg, a, b, r, op);
    } else {
      SameButElsewhere(cfg, a, b, r, op);
    }
  }

  /** Whether one of the first `n` calls of a run is squeezed. */
  ghost predicate SqueezedBefore(cfg: Config, start: Rooms, r: Id, ops: seq<Op>, n: nat)
    requires n <= |ops|
  {
    exists i {:trigger From(cfg, start, ops, i)} :: 0 <= i < n && Squeezed(cfg, From(cfg, start, ops, i), r, ops[i])
  }

  ghost predicate AllAlike(cfg: Config, a: Rooms, b: Rooms, r: Id, ops: seq<Op>, n: nat)
    requires n <= |ops|
  {
    forall i {:trigger From(cfg, b, ops, i)} ::
      0 <= i < n ==> AnsweredAlike(cfg, From(cfg, a, ops, i), From(cfg, b, ops, i), r, ops[i])
  }

  lemma {:induction false} SameButRun(cfg: Config, a: Rooms, b: Rooms, r: Id, ops: seq<Op>, n: nat)
    requires n <= |ops| && SameBut(a, b, r) && !SqueezedBefore(cfg, b, r, ops, n)
    requires forall i :: 0 <= i < |ops| ==> Drawn(ops[i]) != Some(r)
    ensures SameBut(From(cfg, a, ops, n), From(cfg, b, ops, n), r)
  {
    if n > 0 {
      SameButRun(cfg, a, b, r, ops, n - 1);
      var a', b', op := From(cfg, a, ops, n - 1), From(cfg, b, ops, n - 1), ops[n - 1];
      assert From(cfg, a, ops, n) == Step(cfg, a', op).0 && From(cfg, b, ops, n) == Step(cfg, b', op).0;
      SameButStep(cfg, a', b', r, op);
    }
  }

  lemma {:induction false} FirstSqueezed(cfg: Config, start: Rooms, r: Id, ops: seq<Op>, n: nat) returns (i: nat)
    requires n <= |ops| && SqueezedBefore(cfg, start, r, ops, n)
    ensures i < n && Squeezed(cfg, From(cfg, start, ops, i), r, ops[i]) && !SqueezedBefore(cfg, start, r, ops, i)
  {
    if SqueezedBefore(cfg, start, r, ops, n - 1) {
      i := FirstSqueezed(cfg, start, r, ops, n - 1);
    } else {
      i := n - 1;
    }
  }

  lemma AlikeIff(cfg: Config, a: Rooms, b: Rooms, r: Id, ops: seq<Op>)
    requires SameBut(a, b, r) && forall i :: 0 <= i < |ops| ==> Drawn(ops[i]) != Some(r)
    ensures AllAlike(cfg, a, b, r, ops, |ops|) <==> !SqueezedBefore(cfg, b, r, ops, |ops|)
  {
    if SqueezedBefore(cfg, b, r, ops, |ops|) {
      var i := FirstSqueezed(cfg, b, r, ops, |ops|);
      SameButRun(cfg, a, b, r, ops, i);
      SameButStep(cfg, From(cfg, a, ops, i), From(cfg, b, ops, i), r, ops[i]);
    } else {
      forall i | 0 <= i < |ops| ensures AnsweredAlike(cfg, From(cfg, a, ops, i), From(cfg, b, ops, i), r, ops[i]) {
        SameButRun(cfg, a, b, r, ops, i);
        SameButStep(cfg, From(cfg, a, ops, i), From(cfg, b, ops, i), r, ops[i]);
      }
    }
  }

  lemma LeavesSameBut(cfg: Config, rooms: Rooms, r: Id, who: Id)
    requires Present(rooms, r, who) && rooms[r].participants.Keys == {who}
    ensures SameBut(Step(cfg, rooms, Leave(r, who)).0, Step(cfg, rooms, LeaveBegin(r, who)).0, r)
    ensures Empty(Step(cfg, rooms, LeaveBegin(r, who)).0, r)
  {
    assert Without(rooms[r], who).participants == map[];
    var a, b := Step(cfg, rooms, Leave(r, who)).0, Step(cfg, rooms, LeaveBegin(r, who)).0;
    assert forall o {:trigger Agree(a, b, o)} :: o != r ==> Agree(a, b, o);
  }

  lemma AfterClose(cfg: Config, rooms: Rooms, r: Id)
    ensures Step(cfg, rooms, CloseRoom(r)).0 == rooms - {r}
  {}

  /** Calls that land between the two steps of a leave that empties a room: those on the room itself are lost (with an
      atomic leave every one of them is answered `RoomNotFound`), and all others are answered as after an atomic leave,
      exactly when no room creation among them fails for want of the lingering room's place. Then the store after the
      close is also the one an atomic leave would have led to. */
  lemma TwoStepLeave(cfg: Config, rooms: Rooms, r: Id, who: Id, mid: seq<Op>)
    requires Present(rooms, r, who) && rooms[r].participants.Keys == {who}
    requires forall i :: 0 <= i < |mid| ==> Drawn(mid[i]) != Some(r)
    ensures var atomic, begun := Step(cfg, rooms, Leave(r, who)).0, Step(cfg, rooms, LeaveBegin(r, who)).0;
            && (AllAlike(cfg, atomic, begun, r, mid, |mid|) <==> !SqueezedBefore(cfg, begun, r, mid, |mid|))
            && (!SqueezedBefore(cfg, begun, r, mid, |mid|) ==>
                Step(cfg, From(cfg, begun, mid, |mid|), CloseRoom(r)).0 == From(cfg, atomic, mid, |mid|))
  {
    var atomic, begun := Step(cfg, rooms, Leave(r, who)).0, Step(cfg, rooms, LeaveBegin(r, who)).0;
    LeavesSameBut(cfg, rooms, r, who);
    AlikeIff(cfg, atomic, begun, r, mid);
    AfterClose(cfg, From(cfg, begun, mid, |mid|), r);
    if !SqueezedBefore(cfg, begun, r, mid, |mid|) {
      SameButRun(cfg, atomic, begun, r, mid, |mid|);
      SameButSize(From(cfg, atomic, mid, |mid|), From(cfg, begun, mid, |mid|), r);
    }
  }

  // ---------- whom a late close discards ----------

  predicate Removes(op: Op, r: Id, p: Id) {
    || (op.CloseRoom? && op.room == r)
    || ((op.Leave? || op.LeaveBegin?) && op.room == r && op.who == p)
  }

  predicate JoinsAs(op: Op, r: Id, p: Id) {
    op.Join? && op.room == r && op.drawn == p
  }

  /** Which of the calls of a run are accepted. */
  ghost function Accepts(cfg: Config, start: Rooms, ops: seq<Op>): (acc: seq<bool>)
    ensures |acc| == |ops|
  {
    seq(|ops|, i requires 0 <= i < |ops| => Step(cfg, From(cfg, start, ops, i), ops[i]).1.Ok?)
  }

  /** Call `i` was an accepted join of `r` as `p`, and no later one removes `p` or closes `r`. */
  predicate StandingJoin(acc: seq<bool>, ops: seq<Op>, n: nat, r: Id, p: Id, i: nat)
    requires n <= |ops| == |acc|
  {
    i < n && JoinsAs(ops[i], r, p) && acc[i] && forall k :: i < k < n ==> !Removes(ops[k], r, p)
  }

  ghost predicate HasStandingJoin(acc: seq<bool>, ops: seq<Op>, n: nat, r: Id, p: Id)
    requires n <= |ops| == |acc|
  {
    exists i: nat {:trigger StandingJoin(acc, ops, n, r, p, i)} :: StandingJoin(acc, ops, n, r, p, i)
  }

  lemma StandingNext(acc: seq<bool>, ops: seq<Op>, n: nat, r: Id, p: Id)
    requires 0 < n <= |ops| == |acc|
    ensures HasStandingJoin(acc, ops, n, r, p) <==>
            || (JoinsAs(ops[n - 1], r, p) && acc[n - 1])
            || (HasStandingJoin(acc, ops, n - 1, r, p) && !Removes(ops[n - 1], r, p))
  {
    if JoinsAs(ops[n - 1], r, p) && acc[n - 1] {
      assert StandingJoin(acc, ops, n, r, p, n - 1);
    }
    if HasStandingJoin(acc, ops, n - 1, r, p) && !Removes(ops[n - 1], r, p) {
      var i: nat :| StandingJoin(acc, ops, n - 1, r, p, i);
      assert StandingJoin(acc, ops, n, r, p, i);
    }
    if HasStandingJoin(acc, ops, n, r, p) {
      var i: nat :| StandingJoin(acc, ops, n, r, p, i);
      assert i < n - 1 ==> StandingJoin(acc, ops, n - 1, r, p, i);
    }
  }

  /** Who is in a room after one call. */
  lemma PresentNext(cfg: Config, rooms: Rooms, op: Op, r: Id, p: Id)
    requires Drawn(op) != Some(r)
    ensures Present(Step(cfg, rooms, op).0, r, p) <==>
            || (JoinsAs(op, r, p) && Step(cfg, rooms, op).1.Ok?)
            || (Present(rooms, r, p) && !Removes(op, r, p))
  {
    if op.Leave? && op.room == r && Present(rooms, r, p) && op.who != p {
      assert p in Without(rooms[r], op.who).participants;
    }
  }

  /** The same for the `n`-th call of a run, `acc` being what the run accepts. */
  lemma PresentAfter(cfg: Config, start: Rooms, ops: seq<Op>, acc: seq<bool>, n: nat, r: Id, p: Id)
    requires 0 < n <= |ops| && acc == Accepts(cfg, start, ops) && Drawn(ops[n - 1]) != Some(r)
    ensures Present(From(cfg, start, ops, n), r, p) <==>
            || (JoinsAs(ops[n - 1], r, p) && acc[n - 1])
            || (Present(From(cfg, start, ops, n - 1), r, p) && !Removes(ops[n - 1], r, p))
  {
    hide Step;
    PresentNext(cfg, From(cfg, start, ops, n - 1), ops[n - 1], r, p);
  }

  /** In a run from a store in which `p` is not in `r`, `p` is there exactly when a join of it stands. */
  lemma {:induction false} PresentIffJoined(cfg: Config, start: Rooms, ops: seq<Op>, acc: seq<bool>, n: nat, r: Id, p: Id)
    requires n <= |ops| && acc == Accepts(cfg, start, ops) && !Present(start, r, p)
    requires forall i :: 0 <= i < |ops| ==> Drawn(ops[i]) != Some(r)
    ensures Present(From(cfg, start, ops, n), r, p) <==> HasStandingJoin(acc, ops, n, r, p)
  {
    hide Step;
    if n > 0 {
      hide HasStandingJoin;
      PresentIffJoined(cfg, start, ops, acc, n - 1, r, p);
      PresentAfter(cfg, start, ops, acc, n, r, p);
      StandingNext(acc, ops, n, r, p);
    }
  }

  /** Whatever calls land between the two steps of a leave that emptied a room, the close discards exactly those who
      joined the room meanwhile and neither left again nor had it closed under them: it discards somebody if and only
      if there is such a join. */
  lemma CloseDiscardsIff(cfg: Config, rooms: Rooms, r: Id, who: Id, mid: seq<Op>)
    requires Present(rooms, r, who) && rooms[r].participants.Keys == {who}
    requires forall i :: 0 <= i < |mid| ==> Drawn(mid[i]) != Some(r)
    ensures var begun := Step(cfg, rooms, LeaveBegin(r, who)).0;
            var after, acc := From(cfg, begun, mid, |mid|), Accepts(cfg, begun, mid);
            && (forall p :: Present(after, r, p) <==> HasStandingJoin(acc, mid, |mid|, r, p))
            && (r in after && !Empty(after, r) <==> exists p :: HasStandingJoin(acc, mid, |mid|, r, p))
            && r !in Step(cfg, after, CloseRoom(r)).0
  {
    var begun := Step(cfg, rooms, LeaveBegin(r, who)).0;
    LeavesSameBut(cfg, rooms, r, who);
    EmptyRunDiscardsIff(cfg, begun, r, mid);
    AfterClose(cfg, From(cfg, begun, mid, |mid|), r);
  }

  lemma EmptyRunDiscardsIff(cfg: Config, start: Rooms, r: Id, ops: seq<Op>)
    requires Empty(start, r) && forall i :: 0 <= i < |ops| ==> Drawn(ops[i]) != Some(r)
    ensures var after, acc := From(cfg, start, ops, |ops|), Accepts(cfg, start, ops);
            && (forall p :: Present(after, r, p) <==> HasStandingJoin(acc, ops, |ops|, r, p))
            && (r in after && !Empty(after, r) <==> exists p :: HasStandingJoin(acc, ops, |ops|, r, p))
  {
    var after, acc := From(cfg, start, ops, |ops|), Accepts(cfg, start, ops);
    forall p ensures Present(after, r, p) <==> HasStandingJoin(acc, ops, |ops|, r, p) {
      PresentIffJoined(cfg, start, ops, acc, |ops|, r, p);
    }
    OccupiedIff(after, r);
  }

  lemma OccupiedIff(rooms: Rooms, r: Id)
    ensures r in rooms && !Empty(rooms, r) <==> exists p :: Present(rooms, r, p)
  {
    if r in rooms && !Empty(rooms, r) {
      var p :| p in rooms[r].participants;
      assert Present(rooms, r, p);
    }
  }

  /** Such a join is never refused while the room lingers empty, unless rooms hold nobody at all. */
  lemma LateJoinIsAccepted(cfg: Config, rooms: Rooms, r: Id, op: Op)
    requires Empty(rooms, r) && op.Join? && op.room == r && cfg.maxParticipants > 0
    ensures var (rooms', answer) := Step(cfg, rooms, op); answer == Ok(Created(op.drawn)) && Present(rooms', r, op.drawn)
  {}
}
