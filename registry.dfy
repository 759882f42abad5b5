/** The entity registry: the container backlog, the transporters, the depot
    slots per transport type, the four crane pools and the AGVs. */
module Registry {
  import opened Text
  import opened Terminal

  const MaxAgv: nat := 143
  const DockingCraneCount: nat := 18
  const StorageCraneCount: nat := 12
  const TrainCraneCount: nat := 4
  const TruckCraneCount: nat := 20

  /** Depot slots per transport type. */
  function Capacity(t: TransportType): nat {
    match t
    case Truck => 20
    case Train => 1
    case InlandShip => 2
    case SeaShip => 1
  }

  /** A row of depot slots; a taken slot holds the index of its transporter
      in the registry's transporter list. */
  type DepotRow = seq<Option<nat>>

  /** The storage buffer; the registry never creates one. */
  datatype Storage = Storage(containers: seq<Container>)

  /** The four crane pools of the registry. */
  datatype CranePool = DockingPool | StoragePool | TrainPool | TruckPool

  predicate StrictlyAscending(s: seq<nat>) {
    forall i, j :: 0 <= i < j < |s| ==> s[i] < s[j]
  }

  /** A row of n empty slots. */
  function EmptyRow(n: nat): (row: DepotRow)
    ensures |row| == n
  {
    seq(n, _ => None)
  }

  /** The indices 0, 1, ..., n - 1. */
  function Indices(n: nat): (s: seq<nat>)
    ensures |s| == n
  {
    seq(n, i => i)
  }

  /** The empty slots of a depot row, lowest first. */
  function FreeSlots(row: DepotRow): (r: seq<nat>)
    ensures |r| <= |row|
    ensures forall k :: 0 <= k < |r| ==> r[k] < |row| && row[r[k]].None?
  {
    if |row| == 0 then []
    else FreeSlots(row[..|row| - 1]) + (if row[|row| - 1].None? then [|row| - 1] else [])
  }

  /** FreeSlots lists exactly the empty slots, each once, in ascending order. */
  lemma {:induction false} FreeSlotsSpec(row: DepotRow)
    ensures StrictlyAscending(FreeSlots(row))
    ensures forall i: nat :: i in FreeSlots(row) <==> i < |row| && row[i].None?
    ensures forall k :: 0 <= k < |FreeSlots(row)| ==> FreeSlots(row)[k] < |row|
  {
    if |row| > 0 {
      var init := row[..|row| - 1];
      FreeSlotsSpec(init);
      forall i: nat ensures i in FreeSlots(row) <==> i < |row| && row[i].None? {
        if i < |init| {
          assert row[i] == init[i];
        }
      }
    }
  }

  /** A free slot below the entry at position rank of the free list sits
      at an earlier position of that list. */
  lemma FreeSlotBelow(row: DepotRow, s: nat, rank: nat) returns (r: nat)
    requires s < |row| && row[s].None?
    requires rank < |FreeSlots(row)| && s < FreeSlots(row)[rank]
    ensures r < rank && FreeSlots(row)[r] == s
  {
    var free := FreeSlots(row);
    FreeSlotsSpec(row);
    assert s in free;
    r :| 0 <= r < |free| && free[r] == s;
    assert StrictlyAscending(free) && free[r] < free[rank];
  }

  /** In an all-empty row of n slots, the free list is 0, 1, ..., n - 1. */
  lemma {:induction false} EmptyRowAllFree(n: nat)
    ensures FreeSlots(EmptyRow(n)) == Indices(n)
  {
    if n > 0 {
      EmptyRowAllFree(n - 1);
      var row := EmptyRow(n);
      assert row[..n - 1] == EmptyRow(n - 1);
      assert row[n - 1].None?;
      assert FreeSlots(row) == FreeSlots(EmptyRow(n - 1)) + [n - 1];
      assert Indices(n) == Indices(n - 1) + [n - 1];
    }
  }

  /** availableDepotsForType: the free slot indices of one depot row. */
  method AvailableDepotsForType(row: DepotRow) returns (result: seq<nat>)
    ensures result == FreeSlots(row)
    ensures StrictlyAscending(result)
    ensures forall i: nat :: i in result <==> i < |row| && row[i].None?
  {
    result := [];
    for i := 0 to |row|
      invariant result == FreeSlots(row[..i])
    {
      assert row[..i + 1][..i] == row[..i];
      if row[i].None? {
        result := result + [i];
      }
    }
    assert row[..|row|] == row;
    FreeSlotsSpec(row);
  }

  /** One crane pool as built at start-up: the crane at position i has id i. */
  method BuildCranes(count: nat, typeName: string) returns (cranes: seq<Crane>)
    ensures |cranes| == count
    ensures forall i :: 0 <= i < count ==> cranes[i] == Crane(i, typeName, -1)
  {
    cranes := [];
    for i := 0 to count
      invariant |cranes| == i
      invariant forall k :: 0 <= k < i ==> cranes[k] == Crane(k, typeName, -1)
    {
      cranes := cranes + [Crane(i, typeName, -1)];
    }
  }

  /** agvToParking: the i-th AGV is parked at (i, i). */
  method AgvsToParking(count: nat) returns (agvs: seq<Agv>)
    ensures |agvs| == count
    ensures forall i :: 0 <= i < count ==> agvs[i] == Agv(i, i as real, i as real)
  {
    agvs := [];
    for i := 0 to count
      invariant |agvs| == i
      invariant forall k :: 0 <= k < i ==> agvs[k] == Agv(k, k as real, k as real)
    {
      agvs := agvs + [Agv(i, i as real, i as real)];
    }
  }

  class Model {
    var containerPool: seq<Container>
    var agvs: seq<Agv>
    var transporters: seq<Transporter>
    var depots: map<TransportType, DepotRow>
    const storage: Option<Storage>
    var storageCranes: seq<Crane>
    var dockingCranes: seq<Crane>
    var trainCranes: seq<Crane>
    var truckCranes: seq<Crane>

    /** Every transport type has its fixed row of depot slots, and every
        taken slot names a registered transporter. */
    ghost predicate Valid()
      reads this
    {
      && (forall t: TransportType :: t in depots && |depots[t]| == Capacity(t))
      && (forall t, i :: t in depots && 0 <= i < |depots[t]| && depots[t][i].Some?
            ==> depots[t][i].value < |transporters|)
    }

    function Cranes(pool: CranePool): seq<Crane>
      reads this
    {
      match pool
      case DockingPool => dockingCranes
      case StoragePool => storageCranes
      case TrainPool => trainCranes
      case TruckPool => truckCranes
    }

    constructor ()
      ensures Valid()
      ensures containerPool == [] && transporters == []
      ensures forall t: TransportType :: depots[t] == EmptyRow(Capacity(t))
      ensures storage.None?
      ensures |dockingCranes| == DockingCraneCount && |storageCranes| == StorageCraneCount
      ensures |trainCranes| == TrainCraneCount && |truckCranes| == TruckCraneCount
      ensures forall i :: 0 <= i < |dockingCranes| ==> dockingCranes[i] == Crane(i, "DockingCrane", -1)
      ensures forall i :: 0 <= i < |storageCranes| ==> storageCranes[i] == Crane(i, "StorageCrane", -1)
      ensures forall i :: 0 <= i < |trainCranes| ==> trainCranes[i] == Crane(i, "TrainCrane", -1)
      ensures forall i :: 0 <= i < |truckCranes| ==> truckCranes[i] == Crane(i, "TruckCrane", -1)
      ensures |agvs| == MaxAgv
      ensures forall i :: 0 <= i < |agvs| ==> agvs[i] == Agv(i, i as real, i as real)
    {
      containerPool := [];
      transporters := [];
      depots := map[
        Truck := EmptyRow(Capacity(Truck)),
        Train := EmptyRow(Capacity(Train)),
        InlandShip := EmptyRow(Capacity(InlandShip)),
        SeaShip := EmptyRow(Capacity(SeaShip))];
      storage := None;
      var docking := BuildCranes(DockingCraneCount, "DockingCrane");
      var stacking := BuildCranes(StorageCraneCount, "StorageCrane");
      var train := BuildCranes(TrainCraneCount, "TrainCrane");
      var truck := BuildCranes(TruckCraneCount, "TruckCrane");
      var parked := AgvsToParking(MaxAgv);
      dockingCranes, storageCranes, trainCranes, truckCranes := docking, stacking, train, truck;
      agvs := parked;
      new;
      forall t: TransportType ensures t in depots && |depots[t]| == Capacity(t) {
        if t.Truck? {} else if t.Train? {} else if t.InlandShip? {} else {}
      }
    }

    /** setProcessingMessageId on the crane at `index` of one pool. */
    method SetCraneProcessingId(pool: CranePool, index: nat, pid: int)
      requires index < |Cranes(pool)|
      modifies this
      ensures Cranes(pool) == old(Cranes(pool))[index := old(Cranes(pool)[index]).(processingId := pid)]
      ensures forall q :: q != pool ==> Cranes(q) == old(Cranes(q))
      ensures unchanged(`transporters, `depots, `agvs, `containerPool)
    {
      match pool
      case DockingPool => dockingCranes := dockingCranes[index := dockingCranes[index].(processingId := pid)];
      case StoragePool => storageCranes := storageCranes[index := storageCranes[index].(processingId := pid)];
      case TrainPool => trainCranes := trainCranes[index := trainCranes[index].(processingId := pid)];
      case TruckPool => truckCranes := truckCranes[index := truckCranes[index].(processingId := pid)];
    }

    /** availableDepots: every transport type mapped to its free slot list;
        the depots themselves are only read. */
    method AvailableDepots() returns (result: map<TransportType, seq<nat>>)
      requires Valid()
      ensures result.Keys == depots.Keys
      ensures forall t :: t in result ==> result[t] == FreeSlots(depots[t])
    {
      result := map[];
      var remaining := depots.Keys;
      while remaining != {}
        invariant remaining <= depots.Keys
        invariant result.Keys == depots.Keys - remaining
        invariant forall t :: t in result ==> result[t] == FreeSlots(depots[t])
        decreases remaining
      {
        var t :| t in remaining;
        var free := AvailableDepotsForType(depots[t]);
        result := result[t := free];
        remaining := remaining - {t};
      }
    }
  }

  /** A fresh registry offers every depot slot of every type, lowest first. */
  lemma FreshDepotsAllFree(m: Model)
    requires forall t: TransportType :: t in m.depots && m.depots[t] == EmptyRow(Capacity(t))
    ensures forall t: TransportType :: FreeSlots(m.depots[t]) == Indices(Capacity(t))
  {
    forall t: TransportType ensures FreeSlots(m.depots[t]) == Indices(Capacity(t)) {
      EmptyRowAllFree(Capacity(t));
    }
  }
}
