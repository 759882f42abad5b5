/** The controller: the container backlog intake, depot allocation, the
    pool of messages awaiting acknowledgement and the handling of those
    acknowledgements. Writing to the simulator is modelled by appending the
    message to `outbox`; message ids come from the counter `nextId`. */
module Control {
  import opened Text
  import opened Terminal
  import opened Registry
  import opened Distribution
  import opened Messages
  import opened Allocation

  /** The transporters ts as stamped by the spawn loop: the k-th waits for
      the message with id id0 + k. */
  function Stamped(ts: seq<Transporter>, id0: int): (r: seq<Transporter>)
    ensures |r| == |ts|
  {
    if |ts| == 0 then []
    else Stamped(ts[..|ts| - 1], id0) + [ts[|ts| - 1].(processingId := id0 + |ts| - 1)]
  }

  /** The CREATE messages for the transporters at base, base + 1, ...,
      base + n - 1, with ids id0, id0 + 1, ... */
  function CreateMessages(base: nat, id0: int, n: nat): (r: seq<Message>)
    ensures |r| == n
  {
    if n == 0 then [] else CreateMessages(base, id0, n - 1) + [Message(id0 + n - 1, Create(base + n - 1))]
  }

  lemma {:induction false} StampedAt(ts: seq<Transporter>, id0: int, k: nat)
    requires k < |ts|
    ensures Stamped(ts, id0)[k] == ts[k].(processingId := id0 + k)
  {
    var init := ts[..|ts| - 1];
    if k < |init| {
      StampedAt(init, id0, k);
    }
  }

  lemma {:induction false} CreateMessageAt(base: nat, id0: int, n: nat, k: nat)
    requires k < n
    ensures CreateMessages(base, id0, n)[k] == Message(id0 + k, Create(base + k))
  {
    if k < n - 1 {
      CreateMessageAt(base, id0, n - 1, k);
    }
  }

  lemma StampStep(before: seq<Transporter>, ts: seq<Transporter>, id0: int, k: nat)
    requires k < |ts|
    ensures (before + Stamped(ts[..k], id0) + ts[k..])[|before| + k := ts[k].(processingId := id0 + k)]
         == before + Stamped(ts[..k + 1], id0) + ts[k + 1..]
  {
    assert ts[..k + 1][..k] == ts[..k];
    assert ts[k..] == [ts[k]] + ts[k + 1..];
  }

  lemma CreateStep(prefix: seq<Message>, base: nat, id0: int, k: nat)
    ensures prefix + CreateMessages(base, id0, k + 1)
         == (prefix + CreateMessages(base, id0, k)) + [Message(id0 + k, Create(base + k))]
  {
  }

  /** Spawning pairs every new transporter with exactly one new CREATE
      message: the one its processing id names, and that message names the
      transporter. */
  lemma SpawnPairs(ts: seq<Transporter>, base: nat, id0: int, k: nat)
    requires k < |ts|
    ensures Stamped(ts, id0)[k].processingId == CreateMessages(base, id0, |ts|)[k].id
    ensures CreateMessages(base, id0, |ts|)[k].body == Create(base + k)
    ensures forall j :: 0 <= j < |ts| && CreateMessages(base, id0, |ts|)[j].body == Create(base + k) ==> j == k
  {
    StampedAt(ts, id0, k);
    forall j | 0 <= j < |ts| ensures CreateMessages(base, id0, |ts|)[j] == Message(id0 + j, Create(base + j)) {
      CreateMessageAt(base, id0, |ts|, j);
    }
  }

  /** Every transporter spawned from due containers has a CREATE text, as
      the CREATE message of this model writes it, and the type that text
      announces, read from its first container, is the transporter's own
      type. */
  lemma SpawnedCreateText(cs: seq<Container>, k: nat, id: int, transporterId: int,
                          containerXml: Container -> string)
    requires k < |Distribute(cs)|
    ensures CreateXml(id, transporterId, Distribute(cs)[k].load, containerXml).Some?
    ensures ReadCreateHead(CreateXml(id, transporterId, Distribute(cs)[k].load, containerXml).value).Some?
    ensures ReadCreateHead(CreateXml(id, transporterId, Distribute(cs)[k].load, containerXml).value).value.kind
         == Name(Distribute(cs)[k].kind)
  {
    var ts := Distribute(cs);
    assert Fresh(ts) && OwnType(ts, cs);
    var t := ts[k];
    assert |t.load| > 0;
    assert t.load[0] in t.load;
    assert t.load[0].arrivalType == Name(t.kind);
    CreateTypeIsOwn(t, id, transporterId, containerXml);
  }

  /** A transporter whose first container arrives by the transporter's own
      type announces that type in its CREATE text. */
  lemma CreateTypeIsOwn(t: Transporter, id: int, transporterId: int, containerXml: Container -> string)
    requires |t.load| > 0 && t.load[0].arrivalType == Name(t.kind)
    ensures CreateXml(id, transporterId, t.load, containerXml).Some?
    ensures ReadCreateHead(CreateXml(id, transporterId, t.load, containerXml).value).Some?
    ensures ReadCreateHead(CreateXml(id, transporterId, t.load, containerXml).value).value.kind == Name(t.kind)
  {
    assert '<' !in Name(t.kind) by {
      match t.kind
      case Truck =>
      case Train =>
      case InlandShip =>
      case SeaShip =>
    }
    CreateXmlRead(id, transporterId, t.load, containerXml);
  }

  /** The free lists once the first i transporters of ts are processed. */
  predicate Offers(available: map<TransportType, seq<nat>>, ts: seq<Transporter>, d: Depots, i: nat)
    requires Complete(d) && i <= |ts|
  {
    forall k: TransportType :: k in available && available[k] == Remaining(FreeSlots(d[k]), IdleBefore(ts, k, i))
  }

  /** How one transporter changes the free lists: an idle one of type k
      consumes the head of k's list if there is one. */
  lemma RemainingStep(ts: seq<Transporter>, d: Depots, available: map<TransportType, seq<nat>>, i: nat)
    requires Complete(d) && i < |ts|
    requires Offers(available, ts, d, i)
    ensures var k := ts[i].kind;
            Gets(ts, d, i) <==> Idle(ts[i]) && |available[k]| > 0
    ensures Gets(ts, d, i) ==> available[ts[i].kind][0] == Slot(ts, d, i)
    ensures var k := ts[i].kind;
            var next := if Idle(ts[i]) && |available[k]| > 0 then available[k := available[k][1..]] else available;
            Offers(next, ts, d, i + 1)
  {
    var k := ts[i].kind;
    var free := FreeSlots(d[k]);
    var r := IdleBefore(ts, k, i);
    assert available[k] == Remaining(free, r);
    var next := if Idle(ts[i]) && |available[k]| > 0 then available[k := available[k][1..]] else available;
    forall k2: TransportType
      ensures k2 in next && next[k2] == Remaining(FreeSlots(d[k2]), IdleBefore(ts, k2, i + 1))
    {
      assert k2 in available && available[k2] == Remaining(FreeSlots(d[k2]), IdleBefore(ts, k2, i));
      if k2 == k && Idle(ts[i]) && r < |free| {
        assert free[r..][1..] == free[r + 1..];
      }
    }
  }

  lemma ArriveStep(prefix: seq<Message>, ts: seq<Transporter>, d: Depots, id0: int, i: nat)
    requires Complete(d) && i < |ts| && Gets(ts, d, i)
    ensures prefix + ArriveMessages(ts, d, id0, i + 1)
         == (prefix + ArriveMessages(ts, d, id0, i)) + [Message(id0 + GetsBefore(ts, d, i), Arrive(i, Slot(ts, d, i)))]
  {
  }

  // ---------------------------------------------------------------------
  // Container lookups

  /** findContainer: the first container with the earliest departure date;
      None exactly when the list is empty. */
  method FindContainer(containers: seq<Container>) returns (r: Option<Container>)
    ensures r.None? <==> |containers| == 0
    ensures r.Some? ==> forall c :: c in containers ==> r.value.departureDate <= c.departureDate
    ensures r.Some? ==> exists i :: 0 <= i < |containers| && containers[i] == r.value
                          && forall j :: 0 <= j < i ==> containers[j].departureDate != r.value.departureDate
  {
    var firstDate: Option<int> := None;
    for i := 0 to |containers|
      invariant firstDate.None? <==> i == 0
      invariant firstDate.Some? ==> exists j :: 0 <= j < i && containers[j].departureDate == firstDate.value
      invariant firstDate.Some? ==> forall j :: 0 <= j < i ==> firstDate.value <= containers[j].departureDate
    {
      if firstDate.None? {
        firstDate := Some(containers[i].departureDate);
      } else if firstDate.value > containers[i].departureDate {
        firstDate := Some(containers[i].departureDate);
      }
    }
    r := None;
    if firstDate.Some? {
      var i := 0;
      while i < |containers|
        invariant 0 <= i <= |containers|
        invariant forall j :: 0 <= j < i ==> containers[j].departureDate != firstDate.value
      {
        if containers[i].departureDate == firstDate.value {
          r := Some(containers[i]);
          return;
        }
        i := i + 1;
      }
      assert false;
    }
  }

  /** The first container of cs with the given number. */
  function ByNumber(cs: seq<Container>, number: int): (r: Option<Container>)
    ensures r.Some? ==> r.value in cs && r.value.number == number
    ensures r.None? <==> forall c :: c in cs ==> c.number != number
  {
    if |cs| == 0 then None
    else if cs[0].number == number then Some(cs[0])
    else ByNumber(cs[1..], number)
  }

  /** ByNumber finds a container with that number, the first one, and finds
      nothing only when no container has it. */
  lemma {:induction false} ByNumberSpec(cs: seq<Container>, number: int)
    ensures ByNumber(cs, number).None? <==> forall c :: c in cs ==> c.number != number
    ensures ByNumber(cs, number).Some? ==>
              exists i :: 0 <= i < |cs| && cs[i] == ByNumber(cs, number).value && cs[i].number == number
                && forall j :: 0 <= j < i ==> cs[j].number != number
  {
    if |cs| > 0 && cs[0].number != number {
      ByNumberSpec(cs[1..], number);
      assert forall c :: c in cs ==> c == cs[0] || c in cs[1..];
      if ByNumber(cs, number).Some? {
        var i :| 0 <= i < |cs[1..]| && cs[1..][i] == ByNumber(cs, number).value && cs[1..][i].number == number
                 && forall j :: 0 <= j < i ==> cs[1..][j].number != number;
        assert cs[i + 1] == ByNumber(cs, number).value;
        assert forall j :: 1 <= j < i + 1 ==> cs[j] == cs[1..][j - 1];
      }
    }
  }

  /** findContainerByNumber: the first container with that number, if any. */
  method FindContainerByNumber(containers: seq<Container>, number: int) returns (r: Option<Container>)
    ensures r == ByNumber(containers, number)
    ensures r.None? <==> forall c :: c in containers ==> c.number != number
    ensures r.Some? ==> r.value in containers && r.value.number == number
  {
    ByNumberSpec(containers, number);
    for i := 0 to |containers|
      invariant ByNumber(containers, number) == ByNumber(containers[i..], number)
    {
      if containers[i].number == number {
        return Some(containers[i]);
      }
      assert containers[i..][1..] == containers[i + 1..];
    }
    return None;
  }

  /** cs with the first occurrence of c taken out. */
  function RemoveFirst(cs: seq<Container>, c: Container): seq<Container> {
    if |cs| == 0 then []
    else if cs[0] == c then cs[1..]
    else [cs[0]] + RemoveFirst(cs[1..], c)
  }

  /** Removing c takes out one copy of it, if it is there, and nothing else. */
  lemma {:induction false} RemoveFirstCount(cs: seq<Container>, c: Container)
    ensures multiset(RemoveFirst(cs, c)) == multiset(cs) - multiset{c}
  {
    if |cs| > 0 {
      assert cs == [cs[0]] + cs[1..];
      if cs[0] != c {
        RemoveFirstCount(cs[1..], c);
      }
    }
  }

  /** The load after the acknowledged crane job: the first container with
      the job's number is popped; a load without one stays as it is. */
  function Popped(load: seq<Container>, number: int): (r: seq<Container>)
    ensures multiset(r) <= multiset(load)
    ensures forall c: Container :: c.number != number ==> multiset(r)[c] == multiset(load)[c]
    ensures |r| == |load| - (if exists c :: c in load && c.number == number then 1 else 0)
  {
    match ByNumber(load, number)
    case Some(c) => RemoveFirstCount(load, c); RemoveFirst(load, c)
    case None => load
  }

  /** Popping takes out exactly one container with the number, if there is
      one, and otherwise leaves the load alone. */
  lemma PoppedSpec(load: seq<Container>, number: int)
    ensures (exists c :: c in load && c.number == number) ==>
              exists c :: c in load && c.number == number && multiset(Popped(load, number)) == multiset(load) - multiset{c}
    ensures (forall c :: c in load ==> c.number != number) ==> Popped(load, number) == load
  {
    ByNumberSpec(load, number);
    if ByNumber(load, number).Some? {
      RemoveFirstCount(load, ByNumber(load, number).value);
    }
  }

  /** The crane pool findCrane searches for a transport type name. */
  function CranePoolFor(typeName: string): (r: Option<CranePool>)
    ensures r.Some? <==> TypeOf(typeName).Some?
    ensures r != Some(StoragePool)
    ensures r == Some(DockingPool) <==> TypeOf(typeName) == Some(InlandShip) || TypeOf(typeName) == Some(SeaShip)
  {
    if typeName == Name(Truck) then Some(TruckPool)
    else if typeName == Name(Train) then Some(TrainPool)
    else if typeName == Name(InlandShip) || typeName == Name(SeaShip) then Some(DockingPool)
    else None
  }

  /** The position of the first crane with the given id, if any. */
  method SearchCranes(cranes: seq<Crane>, craneId: int) returns (r: Option<nat>)
    ensures r.Some? ==> r.value < |cranes| && cranes[r.value].id == craneId
                        && forall j :: 0 <= j < r.value ==> cranes[j].id != craneId
    ensures r.None? ==> forall c :: c in cranes ==> c.id != craneId
  {
    for i := 0 to |cranes|
      invariant forall j :: 0 <= j < i ==> cranes[j].id != craneId
    {
      if cranes[i].id == craneId {
        return Some(i);
      }
    }
    return None;
  }

  /** The position of the first message in p with the given id, if any. */
  function PositionOf(p: seq<Message>, id: int): (r: Option<nat>)
    ensures r.Some? ==> r.value < |p| && p[r.value].id == id
                        && forall k :: 0 <= k < r.value ==> p[k].id != id
    ensures r.None? <==> forall m :: m in p ==> m.id != id
  {
    if |p| == 0 then None
    else if p[0].id == id then Some(0)
    else
      assert forall m :: m in p ==> m == p[0] || m in p[1..];
      match PositionOf(p[1..], id)
      case None => None
      case Some(k) => Some(k + 1)
  }

  /** Taking out the message at j of a pool with distinct ids leaves every
      other message and none carrying j's id. */
  lemma {:induction false} RemoveAtFacts(p: seq<Message>, j: nat)
    requires forall a, b :: 0 <= a < b < |p| ==> p[a].id != p[b].id
    requires j < |p|
    ensures forall m :: m in p[..j] + p[j + 1..] ==> m.id != p[j].id
    ensures forall i :: 0 <= i < |p| && i != j ==> p[i] in p[..j] + p[j + 1..]
  {
    var rest := p[..j] + p[j + 1..];
    forall m | m in rest
      ensures m.id != p[j].id
    {
      var a :| 0 <= a < |rest| && rest[a] == m;
      if a < j {
        assert m == p[a];
      } else {
        assert m == p[a + 1];
      }
    }
    forall i | 0 <= i < |p| && i != j
      ensures p[i] in rest
    {
      if i < j {
        assert rest[i] == p[i];
      } else {
        assert rest[i - 1] == p[i];
      }
    }
  }

  /** The outcome of one acknowledgement. */
  datatype AckError =
    | Malformed   // not exactly one id element, or an id that is not an integer
    | UnknownId   // no pending message has that id
    | CastFailure // an acknowledged MOVE is cast to an ARRIVE message
    | AgvFailure  // the AGV check that follows an acknowledged ARRIVE throws

  datatype AckResult = Handled | Rejected(error: AckError)

  class Controller {
    const model: Model
    var messagePool: seq<Message>
    var speed: real
    var currentDate: int
    var nextId: int
    var outbox: seq<Message>

    /** Every reference a pending message makes is valid. */
    ghost predicate RefsOk(b: Body)
      reads this, model
    {
      match b
      case Create(t) => t < |model.transporters|
      case Arrive(t, _) => t < |model.transporters|
      case CraneJob(c, t, _) => t < |model.transporters| && c.index < |model.Cranes(c.pool)|
      case Depart(t) => t < |model.transporters|
      case _ => true
    }

    /** The registry is well formed, pending ids are distinct and below the
        next id, and pending messages refer to existing entities. */
    ghost predicate Valid()
      reads this, model
    {
      && model.Valid()
      && (forall i :: 0 <= i < |messagePool| ==> messagePool[i].id < nextId)
      && (forall i, j :: 0 <= i < j < |messagePool| ==> messagePool[i].id != messagePool[j].id)
      && (forall i :: 0 <= i < |messagePool| ==> RefsOk(messagePool[i].body))
    }

    /** The controller at start-up; `now` is the simulation date and
        `firstId` the first message id the id supply hands out. */
    constructor (now: int, firstId: int)
      ensures Valid()
      ensures fresh(model)
      ensures model.containerPool == [] && model.transporters == []
      ensures forall t: TransportType :: model.depots[t] == EmptyRow(Capacity(t))
      ensures messagePool == [] && outbox == []
      ensures speed == 1.0 && currentDate == now && nextId == firstId
    {
      model := new Model();
      messagePool := [];
      speed := 1.0;
      currentDate := now;
      nextId := firstId;
      outbox := [];
    }

    /** A new message enters the pool and is written to the simulator. */
    method Send(body: Body) returns (id: int)
      requires Valid() && RefsOk(body)
      modifies this
      ensures Valid()
      ensures id == old(nextId) && nextId == old(nextId) + 1
      ensures messagePool == old(messagePool) + [Message(id, body)]
      ensures outbox == old(outbox) + [Message(id, body)]
      ensures speed == old(speed) && currentDate == old(currentDate)
    {
      id := nextId;
      nextId := nextId + 1;
      messagePool := messagePool + [Message(id, body)];
      outbox := outbox + [Message(id, body)];
    }

    /** setProcessingMessageId on a registered transporter. */
    method SetProcessingId(t: nat, pid: int)
      requires Valid() && t < |model.transporters|
      modifies model
      ensures Valid()
      ensures model.transporters == old(model.transporters)[t := old(model.transporters)[t].(processingId := pid)]
      ensures unchanged(model`depots, model`agvs, model`containerPool)
      ensures unchanged(model`dockingCranes, model`storageCranes, model`trainCranes, model`truckCranes)
    {
      model.transporters := model.transporters[t := model.transporters[t].(processingId := pid)];
      assert forall i :: 0 <= i < |messagePool| ==> RefsOk(messagePool[i].body) by {
        forall i | 0 <= i < |messagePool| ensures RefsOk(messagePool[i].body) {
          assert old(RefsOk(messagePool[i].body));
        }
      }
    }

    /** updateSpeed: a SPEED message is sent; the speed itself changes only
        when it is acknowledged. */
    method UpdateSpeed(s: real)
      requires Valid()
      modifies this
      ensures Valid()
      ensures messagePool == old(messagePool) + [Message(old(nextId), Speed(s))]
      ensures outbox == old(outbox) + [Message(old(nextId), Speed(s))]
      ensures nextId == old(nextId) + 1 && speed == old(speed)
    {
      var _ := Send(Speed(s));
    }

    /** containersForCurrentDate: the containers due before the current
        date leave the backlog, in backlog order; the rest stay, in order. */
    method ContainersForCurrentDate() returns (result: seq<Container>)
      requires Valid()
      modifies model
      ensures Valid()
      ensures result == Due(old(model.containerPool), currentDate)
      ensures model.containerPool == NotDue(old(model.containerPool), currentDate)
      ensures unchanged(model`transporters, model`depots, model`agvs)
      ensures unchanged(model`dockingCranes, model`storageCranes, model`trainCranes, model`truckCranes)
    {
      var pool := model.containerPool;
      var kept := [];
      result := [];
      for i := 0 to |pool|
        invariant result == Due(pool[..i], currentDate)
        invariant kept == NotDue(pool[..i], currentDate)
      {
        assert pool[..i + 1][..i] == pool[..i];
        if pool[i].arrivalDate < currentDate {
          result := result + [pool[i]];
        } else {
          kept := kept + [pool[i]];
        }
      }
      assert pool[..|pool|] == pool;
      model.containerPool := kept;
    }

    /** spawnTransporters: the due containers are distributed over new
        transporters, which join the registry, each with its own CREATE
        message; nothing changes when nothing is due. */
    method SpawnTransporters()
      requires Valid()
      modifies this, model
      ensures Valid()
      ensures model.containerPool == NotDue(old(model.containerPool), currentDate)
      ensures |Due(old(model.containerPool), currentDate)| == 0 ==>
                && model.containerPool == old(model.containerPool)
                && model.transporters == old(model.transporters)
                && messagePool == old(messagePool) && outbox == old(outbox) && nextId == old(nextId)
      ensures |Due(old(model.containerPool), currentDate)| > 0 ==>
                var ts := Distribute(Due(old(model.containerPool), currentDate));
                && model.transporters == old(model.transporters) + Stamped(ts, old(nextId))
                && messagePool == old(messagePool) + CreateMessages(|old(model.transporters)|, old(nextId), |ts|)
                && outbox == old(outbox) + CreateMessages(|old(model.transporters)|, old(nextId), |ts|)
                && nextId == old(nextId) + |ts|
      ensures unchanged(model`depots, model`agvs)
      ensures unchanged(model`dockingCranes, model`storageCranes, model`trainCranes, model`truckCranes)
      ensures speed == old(speed) && currentDate == old(currentDate)
    {
      ghost var pool0 := model.containerPool;
      var containers := ContainersForCurrentDate();
      if |containers| == 0 {
        NothingDue(pool0, currentDate);
        return;
      }
      var ts := DistributeContainers(containers);
      StampNew(ts);
    }

    /** The second half of spawnTransporters: the new transporters join the
        registry, and each gets a CREATE message and waits for it. */
    method StampNew(ts: seq<Transporter>)
      requires Valid()
      modifies this, model
      ensures Valid()
      ensures model.transporters == old(model.transporters) + Stamped(ts, old(nextId))
      ensures messagePool == old(messagePool) + CreateMessages(|old(model.transporters)|, old(nextId), |ts|)
      ensures outbox == old(outbox) + CreateMessages(|old(model.transporters)|, old(nextId), |ts|)
      ensures nextId == old(nextId) + |ts|
      ensures unchanged(model`depots, model`agvs, model`containerPool)
      ensures unchanged(model`dockingCranes, model`storageCranes, model`trainCranes, model`truckCranes)
      ensures speed == old(speed) && currentDate == old(currentDate)
    {
      var base := |model.transporters|;
      ghost var before, messages0, outbox0, id0 := model.transporters, messagePool, outbox, nextId;
      model.transporters := model.transporters + ts;
      for k := 0 to |ts|
        invariant Valid()
        invariant model.transporters == before + Stamped(ts[..k], id0) + ts[k..]
        invariant messagePool == messages0 + CreateMessages(base, id0, k)
        invariant outbox == outbox0 + CreateMessages(base, id0, k)
        invariant nextId == id0 + k
        invariant unchanged(model`depots, model`agvs, model`containerPool)
        invariant unchanged(model`dockingCranes, model`storageCranes, model`trainCranes, model`truckCranes)
        invariant speed == old(speed) && currentDate == old(currentDate)
      {
        var id := Send(Create(base + k));
        StampStep(before, ts, id0, k);
        CreateStep(messages0, base, id0, k);
        CreateStep(outbox0, base, id0, k);
        SetProcessingId(base + k, id);
      }
      assert ts[..|ts|] == ts;
    }

    /** One placement of assignTransportersToDepots: transporter t takes
        depot slot `spot` of its type, is marked occupied, and waits for
        the ARRIVE message sent for it. */
    method Place(t: nat, spot: nat) returns (id: int)
      requires Valid() && t < |model.transporters|
      requires spot < |model.depots[model.transporters[t].kind]|
      modifies this, model
      ensures Valid()
      ensures id == old(nextId) && nextId == old(nextId) + 1
      ensures var k := old(model.transporters[t].kind);
              model.depots == old(model.depots)[k := old(model.depots)[k][spot := Some(t)]]
      ensures model.transporters
           == old(model.transporters)[t := old(model.transporters[t]).(occupied := true, processingId := id)]
      ensures messagePool == old(messagePool) + [Message(id, Arrive(t, spot))]
      ensures outbox == old(outbox) + [Message(id, Arrive(t, spot))]
      ensures unchanged(model`agvs, model`containerPool)
      ensures unchanged(model`dockingCranes, model`storageCranes, model`trainCranes, model`truckCranes)
      ensures speed == old(speed) && currentDate == old(currentDate)
    {
      var k := model.transporters[t].kind;
      model.depots := model.depots[k := model.depots[k][spot := Some(t)]];
      model.transporters := model.transporters[t := model.transporters[t].(occupied := true)];
      assert RefsOk(Arrive(t, spot));
      id := Send(Arrive(t, spot));
      SetProcessingId(t, id);
    }

    /** The state part way through assignTransportersToDepots: the first i
        transporters of ts (the registry before the pass, with depot rows d
        and next id id0) are processed, the rest untouched. */
    ghost predicate AssignedUpTo(ts: seq<Transporter>, d: Depots, id0: int,
                                 pool0: seq<Message>, outbox0: seq<Message>, i: nat)
      reads this, model
    {
      && Complete(d) && i <= |ts| && |model.transporters| == |ts|
      && (forall j :: 0 <= j < i ==> model.transporters[j] == Assigned(ts, d, id0, j))
      && (forall j :: i <= j < |ts| ==> model.transporters[j] == ts[j])
      && model.depots == Placed(ts, d, i)
      && nextId == id0 + GetsBefore(ts, d, i)
      && messagePool == pool0 + ArriveMessages(ts, d, id0, i)
      && outbox == outbox0 + ArriveMessages(ts, d, id0, i)
    }

    /** One iteration of assignTransportersToDepots, on transporter i. */
    method AssignOne(ghost ts: seq<Transporter>, ghost d: Depots, ghost id0: int,
                     ghost pool0: seq<Message>, ghost outbox0: seq<Message>,
                     available: map<TransportType, seq<nat>>, i: nat)
      returns (next: map<TransportType, seq<nat>>)
      requires Valid() && AssignedUpTo(ts, d, id0, pool0, outbox0, i) && i < |ts|
      requires Offers(available, ts, d, i)
      modifies this, model
      ensures Valid() && AssignedUpTo(ts, d, id0, pool0, outbox0, i + 1)
      ensures Offers(next, ts, d, i + 1)
      ensures unchanged(model`agvs, model`containerPool)
      ensures unchanged(model`dockingCranes, model`storageCranes, model`trainCranes, model`truckCranes)
      ensures speed == old(speed) && currentDate == old(currentDate)
    {
      var t := model.transporters[i];
      RemainingStep(ts, d, available, i);
      if !t.occupied && t.processingId == -1 && |available[t.kind]| > 0 {
        var spot := available[t.kind][0];
        next := available[t.kind := available[t.kind][1..]];
        PlaceNext(ts, d, id0, pool0, outbox0, i, spot);
      } else {
        next := available;
        assert t == ts[i] && !Gets(ts, d, i);
        assert Assigned(ts, d, id0, i) == ts[i];
        assert Placed(ts, d, i + 1) == Placed(ts, d, i);
        assert GetsBefore(ts, d, i + 1) == GetsBefore(ts, d, i);
        assert ArriveMessages(ts, d, id0, i + 1) == ArriveMessages(ts, d, id0, i) + [];
      }
    }

    /** The placing branch of AssignOne. */
    method PlaceNext(ghost ts: seq<Transporter>, ghost d: Depots, ghost id0: int,
                     ghost pool0: seq<Message>, ghost outbox0: seq<Message>, i: nat, spot: nat)
      requires Valid() && AssignedUpTo(ts, d, id0, pool0, outbox0, i) && i < |ts|
      requires Gets(ts, d, i) && spot == Slot(ts, d, i)
      modifies this, model
      ensures Valid() && AssignedUpTo(ts, d, id0, pool0, outbox0, i + 1)
      ensures unchanged(model`agvs, model`containerPool)
      ensures unchanged(model`dockingCranes, model`storageCranes, model`trainCranes, model`truckCranes)
      ensures speed == old(speed) && currentDate == old(currentDate)
    {
      SlotWasFree(ts, d, i);
      var id := Place(i, spot);
      ArriveStep(pool0, ts, d, id0, i);
      ArriveStep(outbox0, ts, d, id0, i);
    }

    /** assignTransportersToDepots: in registry order, every idle
        transporter whose type still has a free slot takes the lowest one
        (free slots are listed once, before the pass) and gets an ARRIVE
        message. */
    method AssignTransportersToDepots()
      requires Valid()
      modifies this, model
      ensures Valid()
      ensures |model.transporters| == |old(model.transporters)|
      ensures forall i :: 0 <= i < |model.transporters| ==>
                model.transporters[i] == Assigned(old(model.transporters), old(model.depots), old(nextId), i)
      ensures model.depots == Placed(old(model.transporters), old(model.depots), |old(model.transporters)|)
      ensures messagePool == old(messagePool)
                + ArriveMessages(old(model.transporters), old(model.depots), old(nextId), |old(model.transporters)|)
      ensures outbox == old(outbox)
                + ArriveMessages(old(model.transporters), old(model.depots), old(nextId), |old(model.transporters)|)
      ensures nextId == old(nextId) + GetsBefore(old(model.transporters), old(model.depots), |old(model.transporters)|)
      ensures unchanged(model`agvs, model`containerPool)
      ensures unchanged(model`dockingCranes, model`storageCranes, model`trainCranes, model`truckCranes)
      ensures speed == old(speed) && currentDate == old(currentDate)
    {
      ghost var ts, d, id0, pool0, outbox0 := model.transporters, model.depots, nextId, messagePool, outbox;
      var available := model.AvailableDepots();
      for i := 0 to |model.transporters|
        invariant Valid() && AssignedUpTo(ts, d, id0, pool0, outbox0, i)
        invariant Offers(available, ts, d, i)
        invariant unchanged(model`agvs, model`containerPool)
        invariant unchanged(model`dockingCranes, model`storageCranes, model`trainCranes, model`truckCranes)
        invariant speed == old(speed) && currentDate == old(currentDate)
      {
        available := AssignOne(ts, d, id0, pool0, outbox0, available, i);
      }
    }

    /** findCrane: the first crane with the id in the pool that serves the
        transport type: truck cranes, train cranes, or docking cranes for
        both kinds of ship. None for another type name or an absent id. */
    method FindCrane(typeName: string, craneId: int) returns (r: Option<CraneRef>)
      ensures r.Some? ==>
                && CranePoolFor(typeName) == Some(r.value.pool)
                && r.value.index < |model.Cranes(r.value.pool)|
                && model.Cranes(r.value.pool)[r.value.index].id == craneId
                && forall j :: 0 <= j < r.value.index ==> model.Cranes(r.value.pool)[j].id != craneId
      ensures r.None? <==>
                || CranePoolFor(typeName).None?
                || forall c :: c in model.Cranes(CranePoolFor(typeName).value) ==> c.id != craneId
    {
      r := None;
      if typeName == "vrachtauto" {
        var i := SearchCranes(model.truckCranes, craneId);
        if i.Some? { return Some(CraneRef(TruckPool, i.value)); }
      }
      if typeName == "trein" {
        var i := SearchCranes(model.trainCranes, craneId);
        if i.Some? { return Some(CraneRef(TrainPool, i.value)); }
      }
      if typeName == "binnenschip" {
        var i := SearchCranes(model.dockingCranes, craneId);
        if i.Some? { return Some(CraneRef(DockingPool, i.value)); }
      }
      if typeName == "zeeschip" {
        var i := SearchCranes(model.dockingCranes, craneId);
        if i.Some? { return Some(CraneRef(DockingPool, i.value)); }
      }
    }

    /** The position of the first pending message with the given id, if
        any. */
    method PendingIndex(id: int) returns (r: Option<nat>)
      ensures r == PositionOf(messagePool, id)
    {
      for i := 0 to |messagePool|
        invariant forall j :: 0 <= j < i ==> messagePool[j].id != id
      {
        if messagePool[i].id == id {
          return Some(i);
        }
      }
      return None;
    }

    /** messagePool.remove: the pending message at position j leaves the
        pool; the others keep their order. */
    method RemoveAt(j: nat)
      requires Valid() && j < |messagePool|
      modifies this
      ensures Valid()
      ensures messagePool == old(messagePool[..j] + messagePool[j + 1..])
      ensures nextId == old(nextId) && outbox == old(outbox)
      ensures speed == old(speed) && currentDate == old(currentDate)
    {
      ghost var p := messagePool;
      messagePool := messagePool[..j] + messagePool[j + 1..];
      assert forall i :: 0 <= i < |messagePool| ==> messagePool[i] == p[if i < j then i else i + 1];
    }

    /** handleOkCraneMessage and departTransporter: the crane is free
        again, the job's container is popped from the transporter, and a
        transporter left empty is sent away with a DEPART message it then
        waits for. */
    method AckCrane(c: CraneRef, t: nat, x: Container)
      requires Valid() && t < |model.transporters| && c.index < |model.Cranes(c.pool)|
      modifies this, model
      ensures Valid()
      ensures model.Cranes(c.pool)
           == old(model.Cranes(c.pool))[c.index := old(model.Cranes(c.pool)[c.index]).(processingId := -1)]
      ensures forall q :: q != c.pool ==> model.Cranes(q) == old(model.Cranes(q))
      ensures var load := Popped(old(model.transporters[t].load), x.number);
              if |load| == 0 then
                && model.transporters
                   == old(model.transporters)[t := old(model.transporters[t]).(load := load, processingId := old(nextId))]
                && messagePool == old(messagePool) + [Message(old(nextId), Depart(t))]
                && outbox == old(outbox) + [Message(old(nextId), Depart(t))]
                && nextId == old(nextId) + 1
              else
                && model.transporters == old(model.transporters)[t := old(model.transporters[t]).(load := load)]
                && messagePool == old(messagePool) && outbox == old(outbox) && nextId == old(nextId)
      ensures unchanged(model`depots, model`agvs, model`containerPool)
      ensures speed == old(speed) && currentDate == old(currentDate)
    {
      model.SetCraneProcessingId(c.pool, c.index, -1);
      var load := model.transporters[t].load;
      var con := FindContainerByNumber(load, x.number);
      if con.Some? {
        load := RemoveFirst(load, con.value);
      }
      model.transporters := model.transporters[t := model.transporters[t].(load := load)];
      assert forall i :: 0 <= i < |messagePool| ==> RefsOk(messagePool[i].body) by {
        forall i | 0 <= i < |messagePool| ensures RefsOk(messagePool[i].body) {
          assert old(RefsOk(messagePool[i].body));
        }
      }
      DepartTransporter(t);
    }

    /** departTransporter: a transporter with nothing left to unload gets a
        DEPART message and waits for it; otherwise nothing happens. */
    method DepartTransporter(t: nat)
      requires Valid() && t < |model.transporters|
      modifies this, model
      ensures Valid()
      ensures |old(model.transporters[t].load)| == 0 ==>
                && model.transporters == old(model.transporters)[t := old(model.transporters[t]).(processingId := old(nextId))]
                && messagePool == old(messagePool) + [Message(old(nextId), Depart(t))]
                && outbox == old(outbox) + [Message(old(nextId), Depart(t))]
                && nextId == old(nextId) + 1
      ensures |old(model.transporters[t].load)| > 0 ==>
                && model.transporters == old(model.transporters)
                && messagePool == old(messagePool) && outbox == old(outbox) && nextId == old(nextId)
      ensures unchanged(model`depots, model`agvs, model`containerPool)
      ensures unchanged(model`dockingCranes, model`storageCranes, model`trainCranes, model`truckCranes)
      ensures speed == old(speed) && currentDate == old(currentDate)
    {
      if |model.transporters[t].load| == 0 {
        var id := Send(Depart(t));
        SetProcessingId(t, id);
      }
    }

    /** The effect of acknowledging the pending message at position j, as
        the switch of handleOkMessage and the removal after it have it:
        CREATE, ARRIVE and DEPART free their transporter, SPEED sets the
        speed, a crane job frees its crane, pops its container and departs
        an emptied transporter; the message then leaves the pool. A MOVE
        message is never acknowledged (see HandleOkMessage). */
    twostate predicate Acknowledged(j: nat)
      reads this, model
    {
      var p := old(messagePool);
      var ts := old(model.transporters);
      && j < |p|
      && match p[j].body
         case Create(t) =>
           && t < |ts| && model.transporters == ts[t := ts[t].(processingId := -1)]
           && messagePool == p[..j] + p[j + 1..] && outbox == old(outbox) && nextId == old(nextId)
           && speed == old(speed) && (forall q :: model.Cranes(q) == old(model.Cranes(q)))
         case Arrive(t, _) =>
           && t < |ts| && model.transporters == ts[t := ts[t].(processingId := -1)]
           && messagePool == p[..j] + p[j + 1..] && outbox == old(outbox) && nextId == old(nextId)
           && speed == old(speed) && (forall q :: model.Cranes(q) == old(model.Cranes(q)))
         case Depart(t) =>
           && t < |ts| && model.transporters == ts[t := ts[t].(processingId := -1)]
           && messagePool == p[..j] + p[j + 1..] && outbox == old(outbox) && nextId == old(nextId)
           && speed == old(speed) && (forall q :: model.Cranes(q) == old(model.Cranes(q)))
         case Speed(v) =>
           && model.transporters == ts
           && messagePool == p[..j] + p[j + 1..] && outbox == old(outbox) && nextId == old(nextId)
           && speed == v && (forall q :: model.Cranes(q) == old(model.Cranes(q)))
         case CraneJob(c, t, x) =>
           && t < |ts| && c.index < |old(model.Cranes(c.pool))|
           && model.Cranes(c.pool)
              == old(model.Cranes(c.pool))[c.index := old(model.Cranes(c.pool)[c.index]).(processingId := -1)]
           && (forall q :: q != c.pool ==> model.Cranes(q) == old(model.Cranes(q)))
           && (var load := Popped(ts[t].load, x.number);
               if |load| == 0 then
                 && model.transporters == ts[t := ts[t].(load := load, processingId := old(nextId))]
                 && messagePool == p[..j] + p[j + 1..] + [Message(old(nextId), Depart(t))]
                 && outbox == old(outbox) + [Message(old(nextId), Depart(t))]
                 && nextId == old(nextId) + 1
               else
                 && model.transporters == ts[t := ts[t].(load := load)]
                 && messagePool == p[..j] + p[j + 1..] && outbox == old(outbox) && nextId == old(nextId))
           && speed == old(speed)
         case Move => false
    }

    /** An acknowledgement leaves every other pending message in the pool
        and none carrying the acknowledged id. */
    twostate lemma AcknowledgedPool(j: nat)
      requires old(Valid()) && Acknowledged(j)
      ensures forall m :: m in messagePool ==> m.id != old(messagePool)[j].id
      ensures forall i :: 0 <= i < |old(messagePool)| && i != j ==> old(messagePool)[i] in messagePool
    {
      RemoveAtFacts(old(messagePool), j);
    }

    /** The switch of handleOkMessage and the removal after it: the pending
        message at position j runs its handler and leaves the pool. */
    method Acknowledge(j: nat)
      requires Valid() && j < |messagePool| && !messagePool[j].body.Move?
      modifies this, model
      ensures Valid()
      ensures Acknowledged(j)
      ensures unchanged(model`depots, model`agvs, model`containerPool)
      ensures currentDate == old(currentDate)
    {
      ghost var p := messagePool;
      match messagePool[j].body
      case Create(t) =>
        SetProcessingId(t, -1);
        RemoveAt(j);
      case Arrive(t, _) =>
        SetProcessingId(t, -1);
        RemoveAt(j);
      case Depart(t) =>
        SetProcessingId(t, -1);
        RemoveAt(j);
      case Speed(v) =>
        speed := v;
        RemoveAt(j);
      case CraneJob(c, t, x) =>
        AckCrane(c, t, x);
        assert messagePool[..j] + messagePool[j + 1..] == p[..j] + p[j + 1..] + messagePool[|p|..];
        RemoveAt(j);
    }

    /** handleOkMessage, from the text of its id elements on: exactly one id
        element holding an integer that names a pending message is
        acknowledged (the first pending message with that id, as the pool
        is searched from the front); anything else is rejected and changes
        nothing. A MOVE
        message is rejected too, because moveCranes casts it to an ARRIVE
        message before the handlers run. For an ARRIVE message, moveAgv
        then looks at the first AGV; `agvThrows` says whether that look
        throws, in which case the acknowledgement is rejected as well. */
    method HandleOkMessage(ids: seq<string>, agvThrows: bool) returns (r: AckResult)
      requires Valid()
      modifies this, model
      ensures Valid()
      ensures r == Rejected(Malformed) <==> |ids| != 1 || ParseInt(ids[0]).None?
      ensures r == Rejected(UnknownId) <==>
                |ids| == 1 && ParseInt(ids[0]).Some? && forall m :: m in old(messagePool) ==> m.id != ParseInt(ids[0]).value
      ensures r == Rejected(CastFailure) <==>
                && |ids| == 1 && ParseInt(ids[0]).Some?
                && PositionOf(old(messagePool), ParseInt(ids[0]).value).Some?
                && old(messagePool)[PositionOf(old(messagePool), ParseInt(ids[0]).value).value].body == Move
      ensures r == Rejected(AgvFailure) <==>
                && |ids| == 1 && ParseInt(ids[0]).Some? && agvThrows
                && PositionOf(old(messagePool), ParseInt(ids[0]).value).Some?
                && old(messagePool)[PositionOf(old(messagePool), ParseInt(ids[0]).value).value].body.Arrive?
      ensures r.Rejected? ==> unchanged(this) && unchanged(model)
      ensures r.Handled? ==>
                && PositionOf(old(messagePool), ParseInt(ids[0]).value).Some?
                && Acknowledged(PositionOf(old(messagePool), ParseInt(ids[0]).value).value)
      ensures r.Handled? ==>
                && (forall m :: m in messagePool ==> m.id != ParseInt(ids[0]).value)
                && (forall m :: m in old(messagePool) && m.id != ParseInt(ids[0]).value ==> m in messagePool)
      ensures unchanged(model`depots, model`agvs, model`containerPool) && currentDate == old(currentDate)
    {
      if |ids| != 1 {
        return Rejected(Malformed);
      }
      var parsed := ParseInt(ids[0]);
      if parsed.None? {
        return Rejected(Malformed);
      }
      var id := parsed.value;
      var found := PendingIndex(id);
      if found.None? {
        return Rejected(UnknownId);
      }
      var j := found.value;
      if messagePool[j].body.Move? {
        return Rejected(CastFailure);
      }
      if messagePool[j].body.Arrive? && agvThrows {
        return Rejected(AgvFailure);
      }
      Acknowledge(j);
      AcknowledgedPool(j);
      return Handled;
    }
  }
}
