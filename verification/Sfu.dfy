/** The media router's store (services/media/src/sfu.rs): rooms, participants, transports, producers, consumers.

    `Step` is the effect of one call on the store of rooms; the methods of `SfuRouter` perform it in place.
    An identifier a call draws at random is an argument here, and runs draw each identifier once.
 */
module Sfu {
  import opened Common

  type Id = nat

  datatype VideoQuality = Quality1080p | Quality720p | Quality480p | Quality360p | AudioOnly

  datatype Kind = Audio | Video

  datatype Direction = Send | Recv

  datatype RtpParameters = RtpParameters(codecs: seq<string>, headerExtensions: seq<string>, encodings: seq<string>)

  datatype Transport = Transport(id: Id, direction: Direction, connected: bool)

  datatype Producer = Producer(id: Id, kind: Kind, rtp: RtpParameters, paused: bool)

  datatype Consumer = Consumer(id: Id, producerId: Id, kind: Kind, rtp: RtpParameters, paused: bool)

  datatype Participant = Participant(
    id: Id, userId: Id, displayName: string,
    send: Option<Transport>, recv: Option<Transport>,
    producers: map<Id, Producer>, consumers: map<Id, Consumer>, quality: VideoQuality)
  {
    function Slot(dir: Direction): Option<Transport> {
      if dir == Send then send else recv
    }
  }

  datatype Room = Room(id: Id, meetingId: Id, participants: map<Id, Participant>, recordingEnabled: bool)

  type Rooms = map<Id, Room>

  datatype Config = Config(maxRooms: nat, maxParticipants: nat)

  datatype Error =
    | MaxRoomsReached | RoomNotFound | RoomFull | ParticipantNotFound
    | TransportNotFound | TransportNotConnected | ProducerNotFound

  datatype Reply = Done | Created(id: Id) | Consuming(id: Id, producerId: Id, kind: Kind, rtp: RtpParameters)

  type Answer = Result<Reply, Error>

  /** The router's calls. `LeaveBegin` is what `Leave` does before it gives up the lock; the close follows. */
  datatype Op =
    | CreateRoom(drawn: Id, meetingId: Id)
    | CloseRoom(room: Id)
    | Join(drawn: Id, room: Id, userId: Id, displayName: string)
    | Leave(room: Id, who: Id)
    | LeaveBegin(room: Id, who: Id)
    | CreateTransport(drawn: Id, room: Id, who: Id, dir: Direction)
    | Connect(room: Id, who: Id, transport: Id)
    | Produce(drawn: Id, room: Id, who: Id, transport: Id, kind: Kind, rtp: RtpParameters)
    | Consume(drawn: Id, room: Id, who: Id, transport: Id, producer: Id)
    | SetPaused(room: Id, who: Id, producer: Id, paused: bool)
    | SetVideoQuality(room: Id, who: Id, quality: VideoQuality)
  {
    /** Calls that act on one participant of a room. */
    predicate OfParticipant() {
      CreateTransport? || Connect? || Produce? || Consume? || SetPaused? || SetVideoQuality?
    }
  }

  function With(room: Room, who: Id, p: Participant): Room {
    room.(participants := room.participants[who := p])
  }

  function Without(room: Room, who: Id): Room {
    room.(participants := room.participants - {who})
  }

  function Newcomer(id: Id, userId: Id, displayName: string): Participant {
    Participant(id, userId, displayName, None, None, map[], map[], Quality720p)
  }

  ghost predicate Offers(room: Room, owner: Id, key: Id, producer: Id) {
    && owner in room.participants
    && key in room.participants[owner].producers
    && room.participants[owner].producers[key].id == producer
  }

  /** The producer a search of the room finds; which one, if several carried the id, is left open. */
  ghost function FindProducer(room: Room, producer: Id): Option<Producer> {
    if exists owner, key :: Offers(room, owner, key, producer) then
      var owner, key :| Offers(room, owner, key, producer);
      Some(room.participants[owner].producers[key])
    else None
  }

  predicate Ready(slot: Option<Transport>, transport: Id) {
    slot.Some? && slot.value.id == transport && slot.value.connected
  }

  /** What a call made by a participant does to that participant. */
  ghost function Change(room: Room, p: Participant, op: Op): Result<(Participant, Reply), Error>
    requires op.OfParticipant()
  {
    match op
    case CreateTransport(drawn, _, _, dir) =>
      var t := Some(Transport(drawn, dir, false));
      Ok((if dir == Send then p.(send := t) else p.(recv := t), Created(drawn)))
    case Connect(_, _, transport) =>
      if p.send.Some? && p.send.value.id == transport then
        Ok((p.(send := Some(p.send.value.(connected := true))), Done))
      else if p.recv.Some? && p.recv.value.id == transport then
        Ok((p.(recv := Some(p.recv.value.(connected := true))), Done))
      else Err(TransportNotFound)
    case Produce(drawn, _, _, transport, kind, rtp) =>
      if Ready(p.send, transport)
      then Ok((p.(producers := p.producers[drawn := Producer(drawn, kind, rtp, false)]), Created(drawn)))
      else Err(TransportNotConnected)
    case Consume(drawn, _, _, transport, producer) =>
      (match FindProducer(room, producer)
       case None => Err(ProducerNotFound)
       case Some(found) =>
         if Ready(p.recv, transport) then
           Ok((p.(consumers := p.consumers[drawn := Consumer(drawn, producer, found.kind, found.rtp, false)]),
               Consuming(drawn, producer, found.kind, found.rtp)))
         else Err(TransportNotConnected))
    case SetPaused(_, _, producer, paused) =>
      if producer in p.producers
      then Ok((p.(producers := p.producers[producer := p.producers[producer].(paused := paused)]), Done))
      else Err(ProducerNotFound)
    case SetVideoQuality(_, _, quality) => Ok((p.(quality := quality), Done))
  }

  ghost function ParticipantStep(room: Room, op: Op): (Room, Answer)
    requires op.OfParticipant()
  {
    if op.Consume? && FindProducer(room, op.producer).None? then (room, Err(ProducerNotFound))
    else if op.who !in room.participants then (room, Err(ParticipantNotFound))
    else
      match Change(room, room.participants[op.who], op)
      case Err(e) => (room, Err(e))
      case Ok((p, reply)) => (With(room, op.who, p), Ok(reply))
  }

  /** A call on an existing room: what becomes of the room (`None`: it is closed) and the answer. */
  ghost function RoomStep(cfg: Config, room: Room, op: Op): (Option<Room>, Answer)
    requires !op.CreateRoom?
  {
    if op.OfParticipant() then
      var (room', answer) := ParticipantStep(room, op);
      (Some(room'), answer)
    else
      match op
      case CloseRoom(_) => (None, Ok(Done))
      case Join(drawn, _, userId, displayName) =>
        if |room.participants| >= cfg.maxParticipants then (Some(room), Err(RoomFull))
        else (Some(With(room, drawn, Newcomer(drawn, userId, displayName))), Ok(Created(drawn)))
      case Leave(_, who) =>
        if who !in room.participants then (Some(room), Err(ParticipantNotFound))
        else (if Without(room, who).participants == map[] then None else Some(Without(room, who)), Ok(Done))
      case LeaveBegin(_, who) =>
        if who !in room.participants then (Some(room), Err(ParticipantNotFound))
        else (Some(Without(room, who)), Ok(Done))
  }

  ghost function Step(cfg: Config, rooms: Rooms, op: Op): (Rooms, Answer) {
    if op.CreateRoom? then
      if |rooms| >= cfg.maxRooms then (rooms, Err(MaxRoomsReached))
      else (rooms[op.drawn := Room(op.drawn, op.meetingId, map[], false)], Ok(Created(op.drawn)))
    else if op.room !in rooms then (rooms, Err(RoomNotFound))
    else
      var (room', answer) := RoomStep(cfg, rooms[op.room], op);
      (if answer.Err? then rooms else
       match room'
       case None => rooms - {op.room}
       case Some(room) => rooms[op.room := room],
       answer)
  }

  // ---------- the store invariant ----------

  ghost predicate GoodParticipant(p: Participant, key: Id) {
    && p.id == key
    && (p.send.Some? ==> p.send.value.direction == Send)
    && (p.recv.Some? ==> p.recv.value.direction == Recv)
    && (p.producers != map[] ==> p.send.Some?)
    && (p.consumers != map[] ==> p.recv.Some?)
    && (forall k {:trigger p.producers[k]} :: k in p.producers ==> p.producers[k].id == k)
    && (forall k {:trigger p.consumers[k]} :: k in p.consumers ==> p.consumers[k].id == k)
  }

  ghost predicate Apart(p: Participant, q: Participant) {
    forall k :: k in p.producers ==> k !in q.producers
  }

  ghost predicate GoodRoom(cfg: Config, room: Room, key: Id) {
    && room.id == key
    && |room.participants| <= cfg.maxParticipants
    && (forall p {:trigger GoodParticipant(room.participants[p], p)} ::
          p in room.participants ==> GoodParticipant(room.participants[p], p))
    && (forall p, q {:trigger Apart(room.participants[p], room.participants[q])} ::
          p in room.participants && q in room.participants && p != q ==>
          Apart(room.participants[p], room.participants[q]))
  }

  ghost predicate Good(cfg: Config, rooms: Rooms) {
    && |rooms| <= cfg.maxRooms
    && forall r {:trigger GoodRoom(cfg, rooms[r], r)} :: r in rooms ==> GoodRoom(cfg, rooms[r], r)
  }

  ghost predicate Unproduced(room: Room, id: Id) {
    forall p :: p in room.participants ==> id !in room.participants[p].producers
  }

  lemma ChangeKeepsGood(room: Room, p: Participant, op: Op)
    requires op.OfParticipant() && GoodParticipant(p, op.who) && Change(room, p, op).Ok?
    ensures var p' := Change(room, p, op).value.0;
            && GoodParticipant(p', op.who)
            && p'.producers.Keys == p.producers.Keys + if op.Produce? then {op.drawn} else {}
  {}

  /** Replacing one participant by a good one keeps the room good, if any producer it gains is new. */
  lemma RoomKeepsGood(cfg: Config, room: Room, key: Id, who: Id, p: Participant, gained: set<Id>)
    requires GoodRoom(cfg, room, key) && GoodParticipant(p, who)
    requires who in room.participants || |room.participants| < cfg.maxParticipants
    requires p.producers.Keys <= gained + if who in room.participants then room.participants[who].producers.Keys else {}
    requires forall id :: id in gained ==> Unproduced(room, id)
    ensures GoodRoom(cfg, room.(participants := room.participants[who := p]), key)
  {
    var ps := room.participants[who := p];
    forall a, b | a in ps && b in ps && a != b ensures Apart(ps[a], ps[b]) {
      if a == who {
        NewIsApart(room, who, p, gained, b);
      } else if b == who {
        NewIsApart(room, who, p, gained, a);
      } else {
        assert Apart(room.participants[a], room.participants[b]);
      }
    }
  }

  lemma NewIsApart(room: Room, who: Id, p: Participant, gained: set<Id>, b: Id)
    requires b in room.participants && b != who
    requires who in room.participants ==> Apart(room.participants[who], room.participants[b])
    requires p.producers.Keys <= gained + if who in room.participants then room.participants[who].producers.Keys else {}
    requires forall id :: id in gained ==> Unproduced(room, id)
    ensures Apart(p, room.participants[b]) && Apart(room.participants[b], p)
  {
    forall k | k in p.producers ensures k !in room.participants[b].producers {
      assert k in gained || (who in room.participants && k in room.participants[who].producers);
    }
  }

  lemma FewerKeys<V>(m: map<Id, V>, k: Id)
    ensures |m - {k}| <= |m|
  {
    assert (m - {k}).Keys == m.Keys - {k};
    assert |(m - {k}).Keys| <= |m.Keys|;
  }

  lemma DropKeepsGood(cfg: Config, room: Room, key: Id, who: Id)
    requires GoodRoom(cfg, room, key)
    ensures GoodRoom(cfg, Without(room, who), key)
  {
    FewerKeys(room.participants, who);
  }

  lemma ParticipantStepKeepsGood(cfg: Config, room: Room, key: Id, op: Op)
    requires GoodRoom(cfg, room, key) && op.OfParticipant()
    requires op.Produce? ==> Unproduced(room, op.drawn)
    ensures GoodRoom(cfg, ParticipantStep(room, op).0, key)
  {
    if ParticipantStep(room, op).1.Ok? {
      var p := room.participants[op.who];
      assert GoodParticipant(p, op.who);
      ChangeKeepsGood(room, p, op);
      RoomKeepsGood(cfg, room, key, op.who, Change(room, p, op).value.0, if op.Produce? then {op.drawn} else {});
    }
  }

  lemma RoomStepKeepsGood(cfg: Config, room: Room, key: Id, op: Op)
    requires GoodRoom(cfg, room, key) && !op.CreateRoom?
    requires op.Produce? ==> Unproduced(room, op.drawn)
    ensures var room' := RoomStep(cfg, room, op).0; room'.Some? ==> GoodRoom(cfg, room'.value, key)
  {
    if op.OfParticipant() {
      ParticipantStepKeepsGood(cfg, room, key, op);
    } else if op.Join? && |room.participants| < cfg.maxParticipants {
      RoomKeepsGood(cfg, room, key, op.drawn, Newcomer(op.drawn, op.userId, op.displayName), {});
    } else if op.Leave? || op.LeaveBegin? {
      DropKeepsGood(cfg, room, key, op.who);
    }
  }

  /** Every call keeps the store good, provided a producer id it draws is new to the room. */
  lemma StepKeepsGood(cfg: Config, rooms: Rooms, op: Op)
    requires Good(cfg, rooms)
    requires op.Produce? && op.room in rooms ==> Unproduced(rooms[op.room], op.drawn)
    ensures Good(cfg, Step(cfg, rooms, op).0)
  {
    if !op.CreateRoom? && op.room in rooms {
      FewerKeys(rooms, op.room);
      assert GoodRoom(cfg, rooms[op.room], op.room);
      RoomStepKeepsGood(cfg, rooms[op.room], op.room, op);
    }
  }

  /** A refused call changes nothing; an accepted one changes no room but the one it names. */
  lemma FailureAtomicity(cfg: Config, rooms: Rooms, op: Op)
    ensures var (rooms', answer) := Step(cfg, rooms, op);
            && (answer.Err? ==> rooms' == rooms)
            && (answer.Ok? ==> var named := if op.CreateRoom? then op.drawn else op.room;
                               rooms' - {named} == rooms - {named})
  {}

  /** Leaving is removing the participant and, if that emptied the room, closing it. */
  lemma LeaveInTwoSteps(cfg: Config, rooms: Rooms, room: Id, who: Id)
    ensures var (begun, answer) := Step(cfg, rooms, LeaveBegin(room, who));
            Step(cfg, rooms, Leave(room, who)) ==
            (if answer.Ok? && begun[room].participants == map[] then Step(cfg, begun, CloseRoom(room)).0 else begun,
             answer)
  {
    if room in rooms {
      assert rooms[room := Without(rooms[room], who)] - {room} == rooms - {room};
    }
  }

  /** In a good room at most one producer carries an id, so the search has one answer. */
  lemma OneProducer(cfg: Config, room: Room, key: Id, owner: Id, producer: Id)
    requires GoodRoom(cfg, room, key) && owner in room.participants && producer in room.participants[owner].producers
    ensures FindProducer(room, producer) == Some(room.participants[owner].producers[producer])
  {
    assert GoodParticipant(room.participants[owner], owner);
    assert Offers(room, owner, producer, producer);
    forall o, k | Offers(room, o, k, producer) ensures o == owner && k == producer {
      assert GoodParticipant(room.participants[o], o);
      assert o != owner ==> Apart(room.participants[o], room.participants[owner]);
    }
  }

  lemma NoProducer(cfg: Config, room: Room, key: Id, producer: Id)
    requires GoodRoom(cfg, room, key) && Unproduced(room, producer)
    ensures FindProducer(room, producer) == None
  {
    forall o, k ensures !Offers(room, o, k, producer) {
      assert o in room.participants ==> GoodParticipant(room.participants[o], o);
    }
  }

  // ---------- which call is refused, and why ----------

  /** The participant the call is made by, where there is one. */
  predicate IsBy(op: Op, who: Id) {
    (op.OfParticipant() || op.Leave? || op.LeaveBegin?) && op.who == who
  }

  ghost predicate Absent(rooms: Rooms, op: Op) {
    !op.CreateRoom? && op.room in rooms && exists who :: IsBy(op, who) && who !in rooms[op.room].participants
  }

  ghost predicate Caller(rooms: Rooms, op: Op, p: Participant) {
    && !op.CreateRoom? && op.room in rooms
    && exists who :: IsBy(op, who) && who in rooms[op.room].participants && rooms[op.room].participants[who] == p
  }

  predicate Holds(transport: Option<Transport>, id: Id) {
    transport.Some? && transport.value.id == id
  }

  predicate Connected(transport: Option<Transport>, id: Id) {
    Holds(transport, id) && transport.value.connected
  }

  predicate Unconnected(op: Op, p: Participant) {
    (op.Produce? && !Connected(p.send, op.transport)) || (op.Consume? && !Connected(p.recv, op.transport))
  }

  /** Nobody in the room a consume names holds the producer it names. */
  ghost predicate NotOffered(rooms: Rooms, op: Op) {
    op.Consume? && op.room in rooms && Unproduced(rooms[op.room], op.producer)
  }

  /** Each refusal, exactly. Where several reasons hold, a missing room comes first, then, for a consume, a producer
      nobody offers, then a caller who is not in the room. */
  lemma RefusedExactly(cfg: Config, rooms: Rooms, op: Op)
    requires Good(cfg, rooms)
    ensures var answer := Step(cfg, rooms, op).1;
            && (answer == Err(MaxRoomsReached) <==> op.CreateRoom? && |rooms| >= cfg.maxRooms)
            && (answer == Err(RoomNotFound) <==> !op.CreateRoom? && op.room !in rooms)
            && (answer == Err(RoomFull) <==>
                op.Join? && op.room in rooms && |rooms[op.room].participants| == cfg.maxParticipants)
            && (answer == Err(ParticipantNotFound) <==> Absent(rooms, op) && !NotOffered(rooms, op))
            && (answer == Err(ProducerNotFound) <==>
                NotOffered(rooms, op) || exists p :: Caller(rooms, op, p) && op.SetPaused? && op.producer !in p.producers)
            && (answer == Err(TransportNotFound) <==>
                exists p :: Caller(rooms, op, p) && op.Connect? && !Holds(p.send, op.transport) && !Holds(p.recv, op.transport))
            && (answer == Err(TransportNotConnected) <==>
                !NotOffered(rooms, op) && exists p :: Caller(rooms, op, p) && Unconnected(op, p))
  {
    if !op.CreateRoom? && op.room in rooms {
      var room := rooms[op.room];
      assert GoodRoom(cfg, room, op.room);
      if op.Consume? {
        OfferedIffFound(cfg, room, op.room, op.producer);
      }
      if op.OfParticipant() || op.Leave? || op.LeaveBegin? {
        assert IsBy(op, op.who);
        assert op.who in room.participants ==> Caller(rooms, op, room.participants[op.who]);
      }
    }
  }

  lemma OfferedIffFound(cfg: Config, room: Room, key: Id, producer: Id)
    requires GoodRoom(cfg, room, key)
    ensures FindProducer(room, producer).None? <==> Unproduced(room, producer)
  {
    if !Unproduced(room, producer) {
      var owner :| owner in room.participants && producer in room.participants[owner].producers;
      OneProducer(cfg, room, key, owner, producer);
    } else {
      NoProducer(cfg, room, key, producer);
    }
  }

  /** The router: every method is one `Step` on the store it holds. `Valid` is the store invariant. */
  class SfuRouter {
    var rooms: Rooms
    const config: Config

    ghost predicate Valid()
      reads this
    {
      Good(config, rooms)
    }

    constructor (config: Config)
      ensures Valid() && rooms == map[] && this.config == config
    {
      this.config := config;
      rooms := map[];
    }

    method CreateRoom(drawn: Id, meetingId: Id) returns (answer: Answer)
      requires Valid()
      modifies this
      ensures Valid()
      ensures (rooms, answer) == Step(config, old(rooms), Op.CreateRoom(drawn, meetingId))
    {
      StepKeepsGood(config, rooms, Op.CreateRoom(drawn, meetingId));
      if |rooms| >= config.maxRooms {
        return Err(MaxRoomsReached);
      }
      rooms := rooms[drawn := Room(drawn, meetingId, map[], false)];
      return Ok(Created(drawn));
    }

    method CloseRoom(room: Id) returns (answer: Answer)
      requires Valid()
      modifies this
      ensures Valid()
      ensures (rooms, answer) == Step(config, old(rooms), Op.CloseRoom(room))
    {
      StepKeepsGood(config, rooms, Op.CloseRoom(room));
      if room !in rooms {
        return Err(RoomNotFound);
      }
      rooms := rooms - {room};
      return Ok(Done);
    }

    method JoinRoom(drawn: Id, room: Id, userId: Id, displayName: string) returns (answer: Answer)
      requires Valid()
      modifies this
      ensures Valid()
      ensures (rooms, answer) == Step(config, old(rooms), Op.Join(drawn, room, userId, displayName))
    {
      StepKeepsGood(config, rooms, Op.Join(drawn, room, userId, displayName));
      if room !in rooms {
        return Err(RoomNotFound);
      }
      if |rooms[room].participants| >= config.maxParticipants {
        return Err(RoomFull);
      }
      rooms := rooms[room := With(rooms[room], drawn, Newcomer(drawn, userId, displayName))];
      return Ok(Created(drawn));
    }

    /** Leaves and, as the second step, closes a room that this left empty. */
    method LeaveRoom(room: Id, who: Id) returns (answer: Answer)
      requires Valid()
      modifies this
      ensures Valid()
      ensures (rooms, answer) == Step(config, old(rooms), Op.Leave(room, who))
    {
      LeaveInTwoSteps(config, rooms, room, who);
      answer := RemoveParticipant(room, who);
      if answer.Ok? && rooms[room].participants == map[] {
        var _ := CloseRoom(room);
      }
    }

    method RemoveParticipant(room: Id, who: Id) returns (answer: Answer)
      requires Valid()
      modifies this
      ensures Valid()
      ensures (rooms, answer) == Step(config, old(rooms), Op.LeaveBegin(room, who))
    {
      StepKeepsGood(config, rooms, Op.LeaveBegin(room, who));
      if room !in rooms {
        return Err(RoomNotFound);
      }
      if who !in rooms[room].participants {
        return Err(ParticipantNotFound);
      }
      rooms := rooms[room := Without(rooms[room], who)];
      return Ok(Done);
    }

    method Lookup(room: Id, who: Id) returns (found: Result<Participant, Error>)
      ensures found == if room !in rooms then Err(RoomNotFound)
                       else if who !in rooms[room].participants then Err(ParticipantNotFound)
                       else Ok(rooms[room].participants[who])
    {
      if room !in rooms {
        return Err(RoomNotFound);
      }
      if who !in rooms[room].participants {
        return Err(ParticipantNotFound);
      }
      return Ok(rooms[room].participants[who]);
    }

    method CreateTransport(drawn: Id, room: Id, who: Id, dir: Direction) returns (answer: Answer)
      requires Valid()
      modifies this
      ensures Valid()
      ensures (rooms, answer) == Step(config, old(rooms), Op.CreateTransport(drawn, room, who, dir))
    {
      StepKeepsGood(config, rooms, Op.CreateTransport(drawn, room, who, dir));
      var found := Lookup(room, who);
      if found.Err? {
        return Err(found.error);
      }
      var p := found.value;
      var transport := Transport(drawn, dir, false);
      match dir {
        case Send => p := p.(send := Some(transport));
        case Recv => p := p.(recv := Some(transport));
      }
      rooms := rooms[room := With(rooms[room], who, p)];
      return Ok(Created(drawn));
    }

    method ConnectTransport(room: Id, who: Id, transport: Id) returns (answer: Answer)
      requires Valid()
      modifies this
      ensures Valid()
      ensures (rooms, answer) == Step(config, old(rooms), Op.Connect(room, who, transport))
    {
      StepKeepsGood(config, rooms, Op.Connect(room, who, transport));
      var found := Lookup(room, who);
      if found.Err? {
        return Err(found.error);
      }
      var p := found.value;
      if p.send.Some? && p.send.value.id == transport {
        p := p.(send := Some(p.send.value.(connected := true)));
      } else if p.recv.Some? && p.recv.value.id == transport {
        p := p.(recv := Some(p.recv.value.(connected := true)));
      } else {
        return Err(TransportNotFound);
      }
      rooms := rooms[room := With(rooms[room], who, p)];
      return Ok(Done);
    }

    method Produce(drawn: Id, room: Id, who: Id, transport: Id, kind: Kind, rtp: RtpParameters) returns (answer: Answer)
      requires Valid() && (room in rooms ==> Unproduced(rooms[room], drawn))
      modifies this
      ensures Valid()
      ensures (rooms, answer) == Step(config, old(rooms), Op.Produce(drawn, room, who, transport, kind, rtp))
    {
      StepKeepsGood(config, rooms, Op.Produce(drawn, room, who, transport, kind, rtp));
      var found := Lookup(room, who);
      if found.Err? {
        return Err(found.error);
      }
      var p := found.value;
      if p.send.None? || p.send.value.id != transport || !p.send.value.connected {
        return Err(TransportNotConnected);
      }
      rooms := rooms[room := With(rooms[room], who, p.(producers := p.producers[drawn := Producer(drawn, kind, rtp, false)]))];
      return Ok(Created(drawn));
    }

    method FindProducerIn(room: Id, producer: Id) returns (found: Option<Producer>)
      requires room in rooms && GoodRoom(config, rooms[room], room)
      ensures found == FindProducer(rooms[room], producer)
    {
      var ps := rooms[room].participants;
      var owners := ps.Keys;
      while owners != {}
        invariant owners <= ps.Keys
        invariant forall o :: o in ps.Keys - owners ==> producer !in ps[o].producers
        decreases owners
      {
        var o :| o in owners;
        assert GoodParticipant(ps[o], o);
        var keys := ps[o].producers.Keys;
        while keys != {}
          invariant keys <= ps[o].producers.Keys && producer !in ps[o].producers.Keys - keys
          decreases keys
        {
          var k :| k in keys;
          if ps[o].producers[k].id == producer {
            OneProducer(config, rooms[room], room, o, k);
            return Some(ps[o].producers[k]);
          }
          keys := keys - {k};
        }
        owners := owners - {o};
      }
      NoProducer(config, rooms[room], room, producer);
      return None;
    }

    method Consume(drawn: Id, room: Id, who: Id, transport: Id, producer: Id) returns (answer: Answer)
      requires Valid()
      modifies this
      ensures Valid()
      ensures (rooms, answer) == Step(config, old(rooms), Op.Consume(drawn, room, who, transport, producer))
    {
      StepKeepsGood(config, rooms, Op.Consume(drawn, room, who, transport, producer));
      if room !in rooms {
        return Err(RoomNotFound);
      }
      var offered := FindProducerIn(room, producer);
      if offered.None? {
        return Err(ProducerNotFound);
      }
      var found := Lookup(room, who);
      if found.Err? {
        return Err(found.error);
      }
      var p := found.value;
      if p.recv.None? || p.recv.value.id != transport || !p.recv.value.connected {
        return Err(TransportNotConnected);
      }
      var consumer := Consumer(drawn, producer, offered.value.kind, offered.value.rtp, false);
      rooms := rooms[room := With(rooms[room], who, p.(consumers := p.consumers[drawn := consumer]))];
      return Ok(Consuming(drawn, producer, offered.value.kind, offered.value.rtp));
    }

    method PauseProducer(room: Id, who: Id, producer: Id) returns (answer: Answer)
      requires Valid()
      modifies this
      ensures Valid()
      ensures (rooms, answer) == Step(config, old(rooms), Op.SetPaused(room, who, producer, true))
    {
      answer := SetPaused(room, who, producer, true);
    }

    method ResumeProducer(room: Id, who: Id, producer: Id) returns (answer: Answer)
      requires Valid()
      modifies this
      ensures Valid()
      ensures (rooms, answer) == Step(config, old(rooms), Op.SetPaused(room, who, producer, false))
    {
      answer := SetPaused(room, who, producer, false);
    }

    method SetPaused(room: Id, who: Id, producer: Id, paused: bool) returns (answer: Answer)
      requires Valid()
      modifies this
      ensures Valid()
      ensures (rooms, answer) == Step(config, old(rooms), Op.SetPaused(room, who, producer, paused))
    {
      StepKeepsGood(config, rooms, Op.SetPaused(room, who, producer, paused));
      var found := Lookup(room, who);
      if found.Err? {
        return Err(found.error);
      }
      var p := found.value;
      if producer !in p.producers {
        return Err(ProducerNotFound);
      }
      rooms := rooms[room := With(rooms[room], who, p.(producers := p.producers[producer := p.producers[producer].(paused := paused)]))];
      return Ok(Done);
    }

    method SetVideoQuality(room: Id, who: Id, quality: VideoQuality) returns (answer: Answer)
      requires Valid()
      modifies this
      ensures Valid()
      ensures (rooms, answer) == Step(config, old(rooms), Op.SetVideoQuality(room, who, quality))
    {
      StepKeepsGood(config, rooms, Op.SetVideoQuality(room, who, quality));
      var found := Lookup(room, who);
      if found.Err? {
        return Err(found.error);
      }
      rooms := rooms[room := With(rooms[room], who, found.value.(quality := quality))];
      return Ok(Done);
    }
  }
}
