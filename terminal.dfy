/** The entities of the terminal as values: transport types, containers,
    transporters, cranes and AGVs. */
module Terminal {
  import opened Text

  /** The four arrival/departure transport types. On the wire and in the
      schedules they are the Dutch names given by Name. */
  datatype TransportType = Truck | Train | InlandShip | SeaShip

  const KnownTypes: seq<TransportType> := [Truck, Train, InlandShip, SeaShip]

  function Name(t: TransportType): string {
    match t
    case Truck => "vrachtauto"
    case Train => "trein"
    case InlandShip => "binnenschip"
    case SeaShip => "zeeschip"
  }

  lemma NamesDistinct()
    ensures forall t, u :: t != u ==> Name(t) != Name(u)
  {
  }

  /** The transport type a name stands for, if it is one of the four. */
  function TypeOf(s: string): (r: Option<TransportType>)
    ensures r.Some? ==> Name(r.value) == s
    ensures r.None? ==> forall t: TransportType :: Name(t) != s
  {
    if s == "vrachtauto" then Some(Truck)
    else if s == "trein" then Some(Train)
    else if s == "binnenschip" then Some(InlandShip)
    else if s == "zeeschip" then Some(SeaShip)
    else None
  }

  /** A spawn grid coordinate. The source keys its buckets by the string
      "x,y,z", which is injective on integer triples. */
  datatype Point = Point(x: int, y: int, z: int)

  datatype Container = Container(
    number: int,
    arrivalDate: int,
    departureDate: int,
    arrivalType: string,
    departureType: string,
    spawn: Point)

  /** A truck, train or ship. `load` is its containers in load order;
      `processingId` is the id of its in-flight message, -1 when idle. */
  datatype Transporter = Transporter(
    kind: TransportType,
    limitX: int, limitY: int, limitZ: int,
    load: seq<Container>,
    occupied: bool,
    processingId: int)

  datatype Crane = Crane(id: int, typeName: string, processingId: int)

  datatype Agv = Agv(id: int, x: real, y: real)

  /** The containers of cs whose arrival transport type is `name`, in order. */
  function OfType(cs: seq<Container>, name: string): seq<Container>
  {
    if |cs| == 0 then []
    else OfType(cs[..|cs| - 1], name)
         + (if cs[|cs| - 1].arrivalType == name then [cs[|cs| - 1]] else [])
  }

  /** OfType keeps each container of the requested type as often as it
      occurs in the input, and no other container. */
  lemma {:induction false} OfTypeCount(cs: seq<Container>, name: string, c: Container)
    ensures multiset(OfType(cs, name))[c] == (if c.arrivalType == name then multiset(cs)[c] else 0)
  {
    if |cs| > 0 {
      var init, last := cs[..|cs| - 1], cs[|cs| - 1];
      OfTypeCount(init, name, c);
      assert cs == init + [last];
      assert multiset(cs) == multiset(init) + multiset{last};
    }
  }

  lemma {:induction false} OfTypeLength(cs: seq<Container>, name: string)
    ensures |OfType(cs, name)| <= |cs|
  {
    if |cs| > 0 {
      OfTypeLength(cs[..|cs| - 1], name);
    }
  }

  /** OfType keeps exactly the containers of the requested type, each as
      often as it occurs in the input, and never grows the list. */
  lemma OfTypeContents(cs: seq<Container>, name: string)
    ensures |OfType(cs, name)| <= |cs|
    ensures forall c :: multiset(OfType(cs, name))[c]
                        == (if c.arrivalType == name then multiset(cs)[c] else 0)
    ensures forall c :: c in OfType(cs, name) <==> c in cs && c.arrivalType == name
  {
    OfTypeLength(cs, name);
    forall c ensures multiset(OfType(cs, name))[c]
                     == (if c.arrivalType == name then multiset(cs)[c] else 0)
    {
      OfTypeCount(cs, name, c);
    }
    forall c ensures c in OfType(cs, name) <==> c in cs && c.arrivalType == name {
      OfTypeCount(cs, name, c);
      assert c in OfType(cs, name) <==> multiset(OfType(cs, name))[c] > 0;
      assert c in cs <==> multiset(cs)[c] > 0;
    }
  }
}
