/** Depot allocation in closed form: which transporters one pass of the
    allocator places, in which slot, and which ARRIVE messages it sends.
    The free slot lists are computed once, before the pass, and each
    transporter that is placed consumes the head of its type's list. */
module Allocation {
  import opened Text
  import opened Terminal
  import opened Registry
  import opened Messages

  type Depots = map<TransportType, DepotRow>

  /** Every transport type has a depot row. */
  predicate Complete(d: Depots) {
    forall t: TransportType :: t in d
  }

  /** Not at a depot and not waiting for an acknowledgement. */
  predicate Idle(t: Transporter) {
    !t.occupied && t.processingId == -1
  }

  /** How many idle transporters of type k come before position i. */
  function IdleBefore(ts: seq<Transporter>, k: TransportType, i: nat): nat
    requires i <= |ts|
  {
    if i == 0 then 0
    else IdleBefore(ts, k, i - 1) + (if Idle(ts[i - 1]) && ts[i - 1].kind == k then 1 else 0)
  }

  /** Transporter i is placed: it is idle and its type still has a free
      slot once the idle transporters of its type before it are served. */
  predicate Gets(ts: seq<Transporter>, d: Depots, i: nat)
    requires i < |ts| && Complete(d)
  {
    Idle(ts[i]) && IdleBefore(ts, ts[i].kind, i) < |FreeSlots(d[ts[i].kind])|
  }

  /** The slot transporter i is placed in. */
  function Slot(ts: seq<Transporter>, d: Depots, i: nat): nat
    requires i < |ts| && Complete(d) && Gets(ts, d, i)
  {
    FreeSlots(d[ts[i].kind])[IdleBefore(ts, ts[i].kind, i)]
  }

  /** How many transporters before position i are placed. */
  function GetsBefore(ts: seq<Transporter>, d: Depots, i: nat): nat
    requires i <= |ts| && Complete(d)
  {
    if i == 0 then 0 else GetsBefore(ts, d, i - 1) + (if Gets(ts, d, i - 1) then 1 else 0)
  }

  /** Transporter i after the pass: a placed one is occupied and waits for
      its ARRIVE message, whose id is the next one after those of the
      transporters placed before it. */
  function Assigned(ts: seq<Transporter>, d: Depots, id0: int, i: nat): (r: Transporter)
    requires i < |ts| && Complete(d)
    ensures r.(occupied := ts[i].occupied, processingId := ts[i].processingId) == ts[i]
    ensures r.occupied == (ts[i].occupied || Gets(ts, d, i))
    ensures Gets(ts, d, i) ==> id0 <= r.processingId < id0 + GetsBefore(ts, d, |ts|)
    ensures !Gets(ts, d, i) ==> r.processingId == ts[i].processingId
  {
    if Gets(ts, d, i) then
      GetsBeforeGrows(ts, d, i + 1, |ts|);
      ts[i].(occupied := true, processingId := id0 + GetsBefore(ts, d, i))
    else ts[i]
  }

  /** The ARRIVE messages of the first n transporters, in order. */
  function ArriveMessages(ts: seq<Transporter>, d: Depots, id0: int, n: nat): seq<Message>
    requires n <= |ts| && Complete(d)
  {
    if n == 0 then []
    else ArriveMessages(ts, d, id0, n - 1)
         + (if Gets(ts, d, n - 1) then [Message(id0 + GetsBefore(ts, d, n - 1), Arrive(n - 1, Slot(ts, d, n - 1)))]
            else [])
  }

  /** The transporter among the first n that is placed in slot s of type k. */
  function Holder(ts: seq<Transporter>, d: Depots, k: TransportType, s: nat, n: nat): Option<nat>
    requires n <= |ts| && Complete(d)
  {
    if n == 0 then None
    else if Gets(ts, d, n - 1) && ts[n - 1].kind == k && Slot(ts, d, n - 1) == s then Some(n - 1)
    else Holder(ts, d, k, s, n - 1)
  }

  /** The depot rows once the first n transporters are processed: each
      placed transporter's slot holds its index. */
  function Placed(ts: seq<Transporter>, d: Depots, n: nat): (r: Depots)
    requires n <= |ts| && Complete(d)
    ensures r.Keys == d.Keys
    ensures forall k :: k in d ==> |r[k]| == |d[k]|
  {
    if n == 0 then d
    else
      var p := Placed(ts, d, n - 1);
      if Gets(ts, d, n - 1) then
        var k := ts[n - 1].kind;
        SlotWasFree(ts, d, n - 1);
        p[k := p[k][Slot(ts, d, n - 1) := Some(n - 1)]]
      else p
  }

  /** What is left of a free list once r transporters of its type have
      asked for a slot. */
  function Remaining(free: seq<nat>, r: nat): seq<nat> {
    if r < |free| then free[r..] else []
  }

  // ---------------------------------------------------------------------
  // Properties

  lemma {:induction false} IdleBeforeMonotone(ts: seq<Transporter>, k: TransportType, i: nat, j: nat)
    requires i <= j <= |ts|
    ensures IdleBefore(ts, k, i) <= IdleBefore(ts, k, j)
    decreases j - i
  {
    if i < j {
      IdleBeforeMonotone(ts, k, i, j - 1);
    }
  }

  /** Two idle transporters of one type have different ranks. */
  lemma RankIncreases(ts: seq<Transporter>, i: nat, j: nat)
    requires i < j < |ts|
    requires Idle(ts[i]) && ts[i].kind == ts[j].kind
    ensures IdleBefore(ts, ts[i].kind, i) < IdleBefore(ts, ts[i].kind, j)
  {
    IdleBeforeMonotone(ts, ts[i].kind, i + 1, j);
  }

  /** No slot is handed out twice in one pass. */
  lemma SlotsDistinct(ts: seq<Transporter>, d: Depots, i: nat, j: nat)
    requires Complete(d) && i < j < |ts|
    requires Gets(ts, d, i) && Gets(ts, d, j) && ts[i].kind == ts[j].kind
    ensures Slot(ts, d, i) != Slot(ts, d, j)
  {
    RankIncreases(ts, i, j);
    FreeSlotsSpec(d[ts[i].kind]);
  }

  /** A placed transporter goes to a slot of its own type that was free
      before the pass. */
  lemma SlotWasFree(ts: seq<Transporter>, d: Depots, i: nat)
    requires Complete(d) && i < |ts| && Gets(ts, d, i)
    ensures Slot(ts, d, i) < |d[ts[i].kind]| && d[ts[i].kind][Slot(ts, d, i)].None?
  {
    var free := FreeSlots(d[ts[i].kind]);
    FreeSlotsSpec(d[ts[i].kind]);
    assert Slot(ts, d, i) in free;
  }

  /** Below any rank reached at position i sits an idle transporter of that
      type holding that rank. */
  lemma {:induction false} RankWitness(ts: seq<Transporter>, k: TransportType, i: nat, r: nat)
    requires i <= |ts| && r < IdleBefore(ts, k, i)
    ensures exists j :: 0 <= j < i && Idle(ts[j]) && ts[j].kind == k && IdleBefore(ts, k, j) == r
  {
    if r < IdleBefore(ts, k, i - 1) {
      RankWitness(ts, k, i - 1, r);
    } else {
      assert Idle(ts[i - 1]) && ts[i - 1].kind == k && IdleBefore(ts, k, i - 1) == r;
    }
  }

  lemma {:induction false} HolderBound(ts: seq<Transporter>, d: Depots, k: TransportType, s: nat, n: nat)
    requires n <= |ts| && Complete(d)
    ensures Holder(ts, d, k, s, n).Some? ==> Holder(ts, d, k, s, n).value < n
  {
    if n > 0 {
      HolderBound(ts, d, k, s, n - 1);
    }
  }

  /** Holder names the transporter placed in a slot, if any, and only that
      one. */
  lemma {:induction false} HolderSpec(ts: seq<Transporter>, d: Depots, k: TransportType, s: nat, n: nat, i: nat)
    requires n <= |ts| && Complete(d) && i < n
    ensures Holder(ts, d, k, s, n) == Some(i) <==> Gets(ts, d, i) && ts[i].kind == k && Slot(ts, d, i) == s
  {
    var m := n - 1;
    if Gets(ts, d, m) && ts[m].kind == k && Slot(ts, d, m) == s {
      if i < m && Gets(ts, d, i) && ts[i].kind == k {
        SlotsDistinct(ts, d, i, m);
      }
    } else if i == m {
      HolderBound(ts, d, k, s, m);
    } else {
      HolderSpec(ts, d, k, s, m, i);
    }
  }

  /** Lowest free slot first: every free slot below the one transporter i
      gets was already given to a transporter before it in the same pass. */
  lemma LowestFree(ts: seq<Transporter>, d: Depots, i: nat, s: nat)
    requires Complete(d) && i < |ts| && Gets(ts, d, i)
    requires s < |d[ts[i].kind]| && d[ts[i].kind][s].None? && s < Slot(ts, d, i)
    ensures Holder(ts, d, ts[i].kind, s, i).Some?
  {
    var k := ts[i].kind;
    var rank := IdleBefore(ts, k, i);
    var r := FreeSlotBelow(d[k], s, rank);
    RankWitness(ts, k, i, r);
    var j :| 0 <= j < i && Idle(ts[j]) && ts[j].kind == k && IdleBefore(ts, k, j) == r;
    assert Gets(ts, d, j) && Slot(ts, d, j) == s;
    HolderSpec(ts, d, k, s, i, j);
  }

  /** One ARRIVE message per placed transporter, with consecutive ids. */
  lemma {:induction false} ArriveMessagesIds(ts: seq<Transporter>, d: Depots, id0: int, n: nat)
    requires n <= |ts| && Complete(d)
    ensures |ArriveMessages(ts, d, id0, n)| == GetsBefore(ts, d, n)
    ensures forall m :: 0 <= m < |ArriveMessages(ts, d, id0, n)| ==> ArriveMessages(ts, d, id0, n)[m].id == id0 + m
  {
    if n > 0 {
      ArriveMessagesIds(ts, d, id0, n - 1);
    }
  }

  /** Transporter i's ARRIVE message sits at position GetsBefore(i), names
      its slot, and carries the id its processing id is set to. */
  lemma {:induction false} ArriveMessageOf(ts: seq<Transporter>, d: Depots, id0: int, n: nat, i: nat)
    requires n <= |ts| && Complete(d)
    requires i < n && Gets(ts, d, i)
    ensures GetsBefore(ts, d, i) < |ArriveMessages(ts, d, id0, n)|
    ensures ArriveMessages(ts, d, id0, n)[GetsBefore(ts, d, i)]
         == Message(Assigned(ts, d, id0, i).processingId, Arrive(i, Slot(ts, d, i)))
  {
    ArriveMessagesIds(ts, d, id0, n);
    var prev := ArriveMessages(ts, d, id0, n - 1);
    ArriveMessagesIds(ts, d, id0, n - 1);
    if i < n - 1 {
      ArriveMessageOf(ts, d, id0, n - 1, i);
      assert ArriveMessages(ts, d, id0, n)[..|prev|] == prev;
    } else {
      assert |prev| == GetsBefore(ts, d, i);
    }
  }

  /** After the pass a slot holds the transporter placed in it, if any;
      every other slot is as it was. */
  lemma {:induction false} PlacedSpec(ts: seq<Transporter>, d: Depots, n: nat, k: TransportType, s: nat)
    requires n <= |ts| && Complete(d) && s < |d[k]|
    ensures Placed(ts, d, n)[k][s]
         == (if Holder(ts, d, k, s, n).Some? then Some(Holder(ts, d, k, s, n).value) else d[k][s])
  {
    if n > 0 {
      PlacedSpec(ts, d, n - 1, k, s);
    }
  }

  /** Transporters placed in one pass wait for different ARRIVE messages,
      in placement order. */
  lemma ArriveIdsIncrease(ts: seq<Transporter>, d: Depots, id0: int, i: nat, j: nat)
    requires Complete(d) && i < j < |ts| && Gets(ts, d, i) && Gets(ts, d, j)
    ensures Assigned(ts, d, id0, i).processingId < Assigned(ts, d, id0, j).processingId
  {
    GetsBeforeGrows(ts, d, i + 1, j);
  }

  lemma {:induction false} GetsBeforeGrows(ts: seq<Transporter>, d: Depots, i: nat, j: nat)
    requires i <= j <= |ts| && Complete(d)
    ensures GetsBefore(ts, d, i) <= GetsBefore(ts, d, j)
    decreases j - i
  {
    if i < j {
      GetsBeforeGrows(ts, d, i, j - 1);
    }
  }
}
