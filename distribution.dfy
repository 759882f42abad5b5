/** Container intake: which backlog containers are due, and how due
    containers are packed into new transporters. */
module Distribution {
  import opened Terminal

  // ---------------------------------------------------------------------
  // Due containers

  /** The containers whose arrival date is strictly before `now`, in order. */
  function Due(pool: seq<Container>, now: int): (r: seq<Container>)
    ensures |r| <= |pool|
    ensures forall c :: c in r ==> c.arrivalDate < now
  {
    if |pool| == 0 then []
    else Due(pool[..|pool| - 1], now)
         + (if pool[|pool| - 1].arrivalDate < now then [pool[|pool| - 1]] else [])
  }

  /** The containers that stay in the backlog, in their original order. */
  function NotDue(pool: seq<Container>, now: int): (r: seq<Container>)
    ensures |r| <= |pool|
    ensures forall c :: c in r ==> c.arrivalDate >= now
  {
    if |pool| == 0 then []
    else NotDue(pool[..|pool| - 1], now)
         + (if pool[|pool| - 1].arrivalDate < now then [] else [pool[|pool| - 1]])
  }

  /** Splitting the backlog loses and duplicates nothing: the due part and
      the remaining part together are a permutation of the backlog, and the
      split is by arrival date. */
  lemma DueSplit(pool: seq<Container>, now: int)
    ensures multiset(Due(pool, now)) + multiset(NotDue(pool, now)) == multiset(pool)
    ensures forall c :: c in Due(pool, now) ==> c in pool && c.arrivalDate < now
    ensures forall c :: c in NotDue(pool, now) ==> c in pool && c.arrivalDate >= now
    ensures |Due(pool, now)| + |NotDue(pool, now)| == |pool|
  {
    DueCount(pool, now);
    var due, rest := Due(pool, now), NotDue(pool, now);
    assert |multiset(due) + multiset(rest)| == |multiset(pool)|;
    forall c | c in due ensures c in pool {
      assert multiset(due)[c] > 0;
    }
    forall c | c in rest ensures c in pool {
      assert multiset(rest)[c] > 0;
    }
  }

  lemma {:induction false} DueCount(pool: seq<Container>, now: int)
    ensures multiset(Due(pool, now)) + multiset(NotDue(pool, now)) == multiset(pool)
  {
    if |pool| > 0 {
      var init, last := pool[..|pool| - 1], pool[|pool| - 1];
      DueCount(init, now);
      assert multiset(pool) == multiset(init) + multiset{last} by {
        assert pool == init + [last];
      }
      if last.arrivalDate < now {
        assert Due(pool, now) == Due(init, now) + [last];
        assert NotDue(pool, now) == NotDue(init, now);
      } else {
        assert Due(pool, now) == Due(init, now);
        assert NotDue(pool, now) == NotDue(init, now) + [last];
      }
    }
  }

  /** With nothing due, the backlog stays exactly as it was. */
  lemma {:induction false} NothingDue(pool: seq<Container>, now: int)
    requires |Due(pool, now)| == 0
    ensures NotDue(pool, now) == pool
  {
    if |pool| > 0 {
      var init, last := pool[..|pool| - 1], pool[|pool| - 1];
      assert Due(pool, now) == Due(init, now) + (if last.arrivalDate < now then [last] else []);
      assert last.arrivalDate >= now && |Due(init, now)| == 0;
      NothingDue(init, now);
      assert NotDue(pool, now) == init + [last];
      assert pool == init + [last];
    }
  }

  // ---------------------------------------------------------------------
  // Buckets by spawn point

  /** The distinct spawn points of cs in order of first appearance. */
  function Points(cs: seq<Container>): seq<Point>
  {
    if |cs| == 0 then []
    else if cs[|cs| - 1].spawn in Points(cs[..|cs| - 1]) then Points(cs[..|cs| - 1])
    else Points(cs[..|cs| - 1]) + [cs[|cs| - 1].spawn]
  }

  /** The containers of cs spawned at p, in order. */
  function Bucket(cs: seq<Container>, p: Point): seq<Container>
  {
    if |cs| == 0 then []
    else Bucket(cs[..|cs| - 1], p) + (if cs[|cs| - 1].spawn == p then [cs[|cs| - 1]] else [])
  }

  /** The bucket dictionary as a map. */
  function Buckets(cs: seq<Container>): map<Point, seq<Container>>
  {
    map p | p in Points(cs) :: Bucket(cs, p)
  }

  predicate Distinct(ps: seq<Point>) {
    forall i, j :: 0 <= i < j < |ps| ==> ps[i] != ps[j]
  }

  lemma {:induction false} PointsSpec(cs: seq<Container>)
    ensures Distinct(Points(cs))
    ensures forall p :: p in Points(cs) <==> exists c :: c in cs && c.spawn == p
  {
    if |cs| > 0 {
      var init := cs[..|cs| - 1];
      PointsSpec(init);
      assert cs == init + [cs[|cs| - 1]];
    }
  }

  lemma {:induction false} BucketSpec(cs: seq<Container>, p: Point)
    ensures forall c :: c in Bucket(cs, p) ==> c.spawn == p
    ensures |Bucket(cs, p)| == 0 <==> p !in Points(cs)
  {
    if |cs| > 0 {
      var init := cs[..|cs| - 1];
      BucketSpec(init, p);
    }
  }

  /** The size of the largest bucket among ps. */
  function MaxLen(cs: seq<Container>, ps: seq<Point>): (n: nat)
    ensures forall p :: p in ps ==> |Bucket(cs, p)| <= n
    ensures |ps| > 0 ==> exists p :: p in ps && |Bucket(cs, p)| == n
  {
    if |ps| == 0 then 0
    else
      var m := MaxLen(cs, ps[..|ps| - 1]);
      var q := ps[|ps| - 1];
      assert forall p :: p in ps ==> p in ps[..|ps| - 1] || p == q;
      if |Bucket(cs, q)| > m then |Bucket(cs, q)| else m
  }

  function Coord(p: Point, axis: nat): int {
    if axis == 0 then p.x else if axis == 1 then p.y else p.z
  }

  /** The transporter's size along one axis: one more than the largest
      coordinate along it, and at least 1. */
  function Limit(ps: seq<Point>, axis: nat): (l: int)
    ensures l >= 1
    ensures forall p :: p in ps ==> Coord(p, axis) + 1 <= l
    ensures l == 1 || exists p :: p in ps && Coord(p, axis) + 1 == l
  {
    if |ps| == 0 then 1
    else
      var l := Limit(ps[..|ps| - 1], axis);
      var q := ps[|ps| - 1];
      assert forall p :: p in ps ==> p in ps[..|ps| - 1] || p == q;
      if l < Coord(q, axis) + 1 then Coord(q, axis) + 1 else l
  }

  /** The k-th layer: the k-th container of each bucket among ps that has
      one, in the order of ps. */
  function Layer(cs: seq<Container>, ps: seq<Point>, k: nat): seq<Container>
  {
    if |ps| == 0 then []
    else
      var q := ps[|ps| - 1];
      Layer(cs, ps[..|ps| - 1], k) + Nth(Bucket(cs, q), k)
  }

  /** The k-th element of b as a one-element list, or nothing if b is shorter. */
  function Nth(b: seq<Container>, k: nat): seq<Container>
  {
    if k < |b| then [b[k]] else []
  }

  /** The first n elements of b, or all of b if it is shorter. */
  function Prefix(b: seq<Container>, n: nat): seq<Container>
  {
    b[..if n < |b| then n else |b|]
  }

  lemma PrefixStep(b: seq<Container>, n: nat)
    requires n > 0
    ensures Prefix(b, n) == Prefix(b, n - 1) + Nth(b, n - 1)
  {
    if n - 1 < |b| {
      assert b[..n] == b[..n - 1] + [b[n - 1]];
    }
  }

  /** A fresh transporter as the source builds it: not occupied, no message. */
  function NewTransporter(t: TransportType, ps: seq<Point>, load: seq<Container>): Transporter {
    Transporter(t, Limit(ps, 0), Limit(ps, 1), Limit(ps, 2), load, false, -1)
  }

  /** The transporters built for one type from its containers g: one per
      layer, as many as the largest bucket holds. */
  function Fill(t: TransportType, g: seq<Container>): (r: seq<Transporter>)
    ensures |r| == MaxLen(g, Points(g))
    ensures Fresh(r) && forall k :: 0 <= k < |r| ==> r[k].kind == t
    ensures forall k, c :: 0 <= k < |r| && c in r[k].load ==> c in g
  {
    FillFacts(t, g);
    Transporters(t, g, Points(g), MaxLen(g, Points(g)))
  }

  /** Every transporter is new: loaded, not occupied and waiting for no
      message. */
  predicate Fresh(ts: seq<Transporter>) {
    forall k :: 0 <= k < |ts| ==> |ts[k].load| > 0 && !ts[k].occupied && ts[k].processingId == -1
  }

  /** One transporter for each of the first n layers of g over ps. */
  function Transporters(t: TransportType, g: seq<Container>, ps: seq<Point>, n: nat): seq<Transporter>
  {
    if n == 0 then [] else Transporters(t, g, ps, n - 1) + [NewTransporter(t, ps, Layer(g, ps, n - 1))]
  }

  /** distributeContainers as a value: trucks, then trains, then inland
      ships, then sea ships. Every transporter built is new, and carries
      only given containers whose arrival type is its own type. */
  function Distribute(cs: seq<Container>): (r: seq<Transporter>)
    ensures Fresh(r) && OwnType(r, cs)
  {
    var a := Fill(Truck, OfType(cs, Name(Truck)));
    var b := Fill(Train, OfType(cs, Name(Train)));
    var d := Fill(InlandShip, OfType(cs, Name(InlandShip)));
    var e := Fill(SeaShip, OfType(cs, Name(SeaShip)));
    FillOwnType(Truck, cs);
    FillOwnType(Train, cs);
    FillOwnType(InlandShip, cs);
    FillOwnType(SeaShip, cs);
    FreshAppend(a, b, cs);
    FreshAppend(a + b, d, cs);
    FreshAppend(a + b + d, e, cs);
    a + b + d + e
  }

  /** Each transporter of ts carries only containers of cs whose arrival
      type is the transporter's own type. */
  predicate OwnType(ts: seq<Transporter>, cs: seq<Container>) {
    forall k, c :: 0 <= k < |ts| && c in ts[k].load ==> c in cs && c.arrivalType == Name(ts[k].kind)
  }

  lemma FillOwnType(t: TransportType, cs: seq<Container>)
    ensures Fresh(Fill(t, OfType(cs, Name(t)))) && OwnType(Fill(t, OfType(cs, Name(t))), cs)
  {
    OfTypeContents(cs, Name(t));
  }

  lemma FreshAppend(a: seq<Transporter>, b: seq<Transporter>, cs: seq<Container>)
    requires Fresh(a) && OwnType(a, cs) && Fresh(b) && OwnType(b, cs)
    ensures Fresh(a + b) && OwnType(a + b, cs)
  {
    forall k | 0 <= k < |a + b| ensures (a + b)[k] == if k < |a| then a[k] else b[k - |a|] {}
  }

  /** The transporters of one type as Fill builds them: one per layer, each
      new, of the type, and loaded from g only. */
  lemma FillFacts(t: TransportType, g: seq<Container>)
    ensures var r := Transporters(t, g, Points(g), MaxLen(g, Points(g)));
            && |r| == MaxLen(g, Points(g))
            && Fresh(r) && (forall k :: 0 <= k < |r| ==> r[k].kind == t)
            && forall k, c :: 0 <= k < |r| && c in r[k].load ==> c in g
  {
    var ps := Points(g);
    var n := MaxLen(g, ps);
    TransportersLength(t, g, ps, n);
    forall k | 0 <= k < n
      ensures Transporters(t, g, ps, n)[k] == NewTransporter(t, ps, Layer(g, ps, k))
      ensures |Layer(g, ps, k)| > 0
      ensures forall c :: c in Layer(g, ps, k) ==> c in g
    {
      TransportersAt(t, g, ps, n, k);
      LayerNonEmpty(g, ps, k);
      LayerFrom(g, ps, k);
    }
  }

  lemma {:induction false} BucketFrom(cs: seq<Container>, p: Point)
    ensures forall c :: c in Bucket(cs, p) ==> c in cs
  {
    if |cs| > 0 {
      BucketFrom(cs[..|cs| - 1], p);
    }
  }

  /** A layer takes its containers from cs only. */
  lemma {:induction false} LayerFrom(cs: seq<Container>, ps: seq<Point>, k: nat)
    ensures forall c :: c in Layer(cs, ps, k) ==> c in cs
  {
    if |ps| > 0 {
      LayerFrom(cs, ps[..|ps| - 1], k);
      BucketFrom(cs, ps[|ps| - 1]);
    }
  }

  /** All containers of a list of transporters, transporter by transporter. */
  function Loads(ts: seq<Transporter>): seq<Container>
  {
    if |ts| == 0 then [] else Loads(ts[..|ts| - 1]) + ts[|ts| - 1].load
  }

  // ---------------------------------------------------------------------
  // Properties of a layer

  /** Within a layer every spawn point occurs at most once, and the
      container taken for point p is the k-th of p's bucket. */
  lemma {:induction false} LayerShape(cs: seq<Container>, ps: seq<Point>, k: nat)
    requires Distinct(ps)
    ensures |Layer(cs, ps, k)| <= |ps|
    ensures forall c :: c in Layer(cs, ps, k) ==>
              c.spawn in ps && k < |Bucket(cs, c.spawn)| && c == Bucket(cs, c.spawn)[k]
    ensures forall i, j :: 0 <= i < j < |Layer(cs, ps, k)| ==>
              Layer(cs, ps, k)[i].spawn != Layer(cs, ps, k)[j].spawn
  {
    if |ps| > 0 {
      var init, q := ps[..|ps| - 1], ps[|ps| - 1];
      LayerShape(cs, init, k);
      BucketSpec(cs, q);
      var l := Layer(cs, init, k);
      if k < |Bucket(cs, q)| {
        var c := Bucket(cs, q)[k];
        assert c in Bucket(cs, q);
        assert q !in init;
        forall i | 0 <= i < |l| ensures l[i].spawn != c.spawn {
          assert l[i] in l;
        }
      }
    }
  }

  /** The k-th container of every bucket lands in the k-th layer. */
  lemma {:induction false} LayerTakes(cs: seq<Container>, ps: seq<Point>, k: nat, p: Point)
    requires p in ps && k < |Bucket(cs, p)|
    ensures Bucket(cs, p)[k] in Layer(cs, ps, k)
  {
    var init, q := ps[..|ps| - 1], ps[|ps| - 1];
    if p != q {
      assert p in init;
      LayerTakes(cs, init, k, p);
    }
  }

  /** Below the largest bucket size no layer is empty. */
  lemma LayerNonEmpty(cs: seq<Container>, ps: seq<Point>, k: nat)
    requires k < MaxLen(cs, ps)
    ensures |Layer(cs, ps, k)| > 0
  {
    var p :| p in ps && |Bucket(cs, p)| == MaxLen(cs, ps);
    LayerTakes(cs, ps, k, p);
  }

  // ---------------------------------------------------------------------
  // Conservation

  /** The first n layers, concatenated. */
  function FlatLayers(cs: seq<Container>, ps: seq<Point>, n: nat): seq<Container>
  {
    if n == 0 then [] else FlatLayers(cs, ps, n - 1) + Layer(cs, ps, n - 1)
  }

  /** The first n containers of each bucket, bucket by bucket. */
  function TruncBuckets(cs: seq<Container>, ps: seq<Point>, n: nat): seq<Container>
  {
    if |ps| == 0 then []
    else
      TruncBuckets(cs, ps[..|ps| - 1], n) + Prefix(Bucket(cs, ps[|ps| - 1]), n)
  }

  /** Every bucket, whole, bucket by bucket. */
  function AllBuckets(cs: seq<Container>, ps: seq<Point>): seq<Container>
  {
    if |ps| == 0 then [] else AllBuckets(cs, ps[..|ps| - 1]) + Bucket(cs, ps[|ps| - 1])
  }

  lemma {:induction false} TruncBucketsStep(cs: seq<Container>, ps: seq<Point>, n: nat)
    requires n > 0
    ensures multiset(TruncBuckets(cs, ps, n))
         == multiset(TruncBuckets(cs, ps, n - 1)) + multiset(Layer(cs, ps, n - 1))
  {
    if |ps| > 0 {
      var init := ps[..|ps| - 1];
      TruncBucketsStep(cs, init, n);
      var b := Bucket(cs, ps[|ps| - 1]);
      PrefixStep(b, n);
      var li := Layer(cs, init, n - 1);
      var ti, ti' := TruncBuckets(cs, init, n - 1), TruncBuckets(cs, init, n);
      assert TruncBuckets(cs, ps, n - 1) == ti + Prefix(b, n - 1);
      assert TruncBuckets(cs, ps, n) == ti' + (Prefix(b, n - 1) + Nth(b, n - 1));
      assert Layer(cs, ps, n - 1) == li + Nth(b, n - 1);
    }
  }

  /** The first n layers hold exactly the first n containers of every
      bucket. */
  lemma {:induction false} LayersAreBuckets(cs: seq<Container>, ps: seq<Point>, n: nat)
    ensures multiset(FlatLayers(cs, ps, n)) == multiset(TruncBuckets(cs, ps, n))
  {
    if n > 0 {
      LayersAreBuckets(cs, ps, n - 1);
      TruncBucketsStep(cs, ps, n);
      MultisetStep(FlatLayers(cs, ps, n - 1), Layer(cs, ps, n - 1),
                   TruncBuckets(cs, ps, n - 1), TruncBuckets(cs, ps, n));
    } else {
      LayersZero(cs, ps, n);
    }
  }

  lemma LayersZero(cs: seq<Container>, ps: seq<Point>, n: nat)
    requires n == 0
    ensures multiset(FlatLayers(cs, ps, n)) == multiset(TruncBuckets(cs, ps, n))
  {
    TruncBucketsZero(cs, ps);
  }

  lemma MultisetStep(prev: seq<Container>, layer: seq<Container>, before: seq<Container>, after: seq<Container>)
    requires multiset(prev) == multiset(before)
    requires multiset(after) == multiset(before) + multiset(layer)
    ensures multiset(prev + layer) == multiset(after)
  {
  }

  lemma {:induction false} TruncBucketsZero(cs: seq<Container>, ps: seq<Point>)
    ensures TruncBuckets(cs, ps, 0) == []
  {
    if |ps| > 0 {
      TruncBucketsZero(cs, ps[..|ps| - 1]);
    }
  }

  lemma {:induction false} TruncBucketsAll(cs: seq<Container>, ps: seq<Point>, n: nat)
    requires forall p :: p in ps ==> |Bucket(cs, p)| <= n
    ensures TruncBuckets(cs, ps, n) == AllBuckets(cs, ps)
  {
    if |ps| > 0 {
      var init := ps[..|ps| - 1];
      assert forall p :: p in init ==> p in ps;
      TruncBucketsAll(cs, init, n);
      var b := Bucket(cs, ps[|ps| - 1]);
      assert Prefix(b, n) == b;
    }
  }

  lemma {:induction false} AllBucketsAppend(cs: seq<Container>, c: Container, ps: seq<Point>)
    requires Distinct(ps)
    ensures multiset(AllBuckets(cs + [c], ps))
         == multiset(AllBuckets(cs, ps)) + (if c.spawn in ps then multiset{c} else multiset{})
  {
    if |ps| > 0 {
      var init, q := ps[..|ps| - 1], ps[|ps| - 1];
      AllBucketsAppend(cs, c, init);
      assert (cs + [c])[..|cs|] == cs;
      assert Bucket(cs + [c], q) == Bucket(cs, q) + (if c.spawn == q then [c] else []);
      assert c.spawn in ps <==> c.spawn in init || c.spawn == q;
      assert c.spawn == q ==> c.spawn !in init;
    }
  }

  /** Bucketing by spawn point keeps every container exactly once. */
  lemma {:induction false} BucketsPartition(cs: seq<Container>)
    ensures multiset(AllBuckets(cs, Points(cs))) == multiset(cs)
  {
    if |cs| > 0 {
      var init, c := cs[..|cs| - 1], cs[|cs| - 1];
      assert cs == init + [c];
      BucketsPartition(init);
      PointsSpec(init);
      AllBucketsAppend(init, c, Points(init));
      if c.spawn !in Points(init) {
        BucketSpec(init, c.spawn);
        assert Points(cs) == Points(init) + [c.spawn];
        assert Points(cs)[..|Points(cs)| - 1] == Points(init);
        assert Bucket(cs, c.spawn) == Bucket(init, c.spawn) + [c];
        assert AllBuckets(cs, Points(cs)) == AllBuckets(cs, Points(init)) + Bucket(cs, c.spawn);
      }
    }
  }

  lemma {:induction false} LoadsOfTransporters(t: TransportType, g: seq<Container>, ps: seq<Point>, n: nat)
    ensures Loads(Transporters(t, g, ps, n)) == FlatLayers(g, ps, n)
  {
    if n > 0 {
      LoadsOfTransporters(t, g, ps, n - 1);
    }
  }

  /** The transporters built for one type carry exactly the containers of
      that type: none lost, none duplicated. */
  lemma FillConserves(t: TransportType, g: seq<Container>)
    ensures multiset(Loads(Fill(t, g))) == multiset(g)
  {
    var ps := Points(g);
    var n := MaxLen(g, ps);
    LoadsOfTransporters(t, g, ps, n);
    LayersAreBuckets(g, ps, n);
    TruncBucketsAll(g, ps, n);
    BucketsPartition(g);
  }

  lemma {:induction false} TransportersAt(t: TransportType, g: seq<Container>, ps: seq<Point>, n: nat, k: nat)
    requires k < n
    ensures |Transporters(t, g, ps, n)| == n
    ensures Transporters(t, g, ps, n)[k] == NewTransporter(t, ps, Layer(g, ps, k))
  {
    TransportersLength(t, g, ps, n);
    TransportersLength(t, g, ps, n - 1);
    if k < n - 1 {
      TransportersAt(t, g, ps, n - 1, k);
    }
  }

  lemma FillAt(t: TransportType, g: seq<Container>, k: nat)
    requires k < |Fill(t, g)|
    ensures |Fill(t, g)| == MaxLen(g, Points(g))
    ensures Fill(t, g)[k] == NewTransporter(t, Points(g), Layer(g, Points(g), k))
  {
    var n := MaxLen(g, Points(g));
    TransportersLength(t, g, Points(g), n);
    TransportersAt(t, g, Points(g), n, k);
  }

  lemma {:induction false} TransportersLength(t: TransportType, g: seq<Container>, ps: seq<Point>, n: nat)
    ensures |Transporters(t, g, ps, n)| == n
  {
    if n > 0 {
      TransportersLength(t, g, ps, n - 1);
    }
  }

  /** Shape of the transporters built for one type: as many as the largest
      bucket, each of that type, non-empty, carrying the k-th layer, with
      limits per axis of one more than the largest coordinate (at least 1). */
  lemma FillShape(t: TransportType, g: seq<Container>)
    ensures |Fill(t, g)| == MaxLen(g, Points(g))
    ensures forall k :: 0 <= k < |Fill(t, g)| ==>
              && Fill(t, g)[k].kind == t
              && Fill(t, g)[k].load == Layer(g, Points(g), k)
              && |Fill(t, g)[k].load| > 0
              && !Fill(t, g)[k].occupied && Fill(t, g)[k].processingId == -1
              && Fill(t, g)[k].limitX == Limit(Points(g), 0)
              && Fill(t, g)[k].limitY == Limit(Points(g), 1)
              && Fill(t, g)[k].limitZ == Limit(Points(g), 2)
  {
    var ps := Points(g);
    var n := MaxLen(g, ps);
    TransportersLength(t, g, ps, n);
    forall k | 0 <= k < n
      ensures Fill(t, g)[k] == NewTransporter(t, ps, Layer(g, ps, k))
      ensures |Layer(g, ps, k)| > 0
    {
      FillAt(t, g, k);
      LayerNonEmpty(g, ps, k);
    }
  }

  /** Within one type, a transporter takes at most one container per spawn
      point, and the k-th container of a point's bucket rides on the k-th
      transporter. */
  lemma FillRoundRobin(t: TransportType, g: seq<Container>, k: nat)
    requires k < |Fill(t, g)|
    ensures forall i, j :: 0 <= i < j < |Fill(t, g)[k].load| ==>
              Fill(t, g)[k].load[i].spawn != Fill(t, g)[k].load[j].spawn
    ensures forall p :: p in Points(g) && k < |Bucket(g, p)| ==> Bucket(g, p)[k] in Fill(t, g)[k].load
    ensures forall c :: c in Fill(t, g)[k].load ==>
              k < |Bucket(g, c.spawn)| && c == Bucket(g, c.spawn)[k]
  {
    FillAt(t, g, k);
    var ps := Points(g);
    var load := Layer(g, ps, k);
    assert Fill(t, g)[k].load == load;
    PointsSpec(g);
    LayerShape(g, ps, k);
    forall p | p in ps && k < |Bucket(g, p)| ensures Bucket(g, p)[k] in load {
      LayerTakes(g, ps, k, p);
    }
  }

  lemma {:induction false} LoadsConcat(a: seq<Transporter>, b: seq<Transporter>)
    ensures Loads(a + b) == Loads(a) + Loads(b)
  {
    if |b| > 0 {
      LoadsConcat(a, b[..|b| - 1]);
      assert (a + b)[..|a + b| - 1] == a + b[..|b| - 1];
      assert (a + b)[|a + b| - 1] == b[|b| - 1];
    } else {
      assert a + b == a;
    }
  }

  lemma DistributeLoads(cs: seq<Container>)
    ensures multiset(Loads(Distribute(cs)))
         == multiset(OfType(cs, Name(Truck))) + multiset(OfType(cs, Name(Train)))
          + multiset(OfType(cs, Name(InlandShip))) + multiset(OfType(cs, Name(SeaShip)))
  {
    var a := Fill(Truck, OfType(cs, Name(Truck)));
    var b := Fill(Train, OfType(cs, Name(Train)));
    var d := Fill(InlandShip, OfType(cs, Name(InlandShip)));
    var e := Fill(SeaShip, OfType(cs, Name(SeaShip)));
    assert Distribute(cs) == a + b + d + e;
    LoadsConcat(a + b + d, e);
    LoadsConcat(a + b, d);
    LoadsConcat(a, b);
    assert Loads(Distribute(cs)) == Loads(a) + Loads(b) + Loads(d) + Loads(e);
    FillConserves(Truck, OfType(cs, Name(Truck)));
    FillConserves(Train, OfType(cs, Name(Train)));
    FillConserves(InlandShip, OfType(cs, Name(InlandShip)));
    FillConserves(SeaShip, OfType(cs, Name(SeaShip)));
  }

  lemma DistributeConservesAt(cs: seq<Container>, c: Container)
    ensures multiset(Loads(Distribute(cs)))[c]
         == (if TypeOf(c.arrivalType).Some? then multiset(cs)[c] else 0)
  {
    DistributeLoads(cs);
    var n := c.arrivalType;
    var m := multiset(cs)[c];
    OfTypeCount(cs, Name(Truck), c);
    OfTypeCount(cs, Name(Train), c);
    OfTypeCount(cs, Name(InlandShip), c);
    OfTypeCount(cs, Name(SeaShip), c);
    var a := multiset(OfType(cs, Name(Truck)))[c];
    var b := multiset(OfType(cs, Name(Train)))[c];
    var d := multiset(OfType(cs, Name(InlandShip)))[c];
    var e := multiset(OfType(cs, Name(SeaShip)))[c];
    assert multiset(Loads(Distribute(cs)))[c] == a + b + d + e;
    NamesDistinct();
    if n == Name(Truck) {
      assert a == m && b == 0 && d == 0 && e == 0;
    } else if n == Name(Train) {
      assert a == 0 && b == m && d == 0 && e == 0;
    } else if n == Name(InlandShip) {
      assert a == 0 && b == 0 && d == m && e == 0;
    } else if n == Name(SeaShip) {
      assert a == 0 && b == 0 && d == 0 && e == m;
    } else {
      assert TypeOf(n).None?;
    }
  }

  /** Every due container of a known type ends up in exactly one transporter
      load (as often as it was due); containers of any other type are
      dropped. */
  lemma DistributeConserves(cs: seq<Container>)
    ensures forall c :: multiset(Loads(Distribute(cs)))[c]
                        == (if TypeOf(c.arrivalType).Some? then multiset(cs)[c] else 0)
  {
    forall c ensures multiset(Loads(Distribute(cs)))[c]
                     == (if TypeOf(c.arrivalType).Some? then multiset(cs)[c] else 0)
    {
      DistributeConservesAt(cs, c);
    }
  }

  // ---------------------------------------------------------------------
  // distributeContainers, step by step

  /** The first loop: one list per known type, in input order; containers
      of any other type go nowhere. */
  method Partition(containers: seq<Container>)
    returns (lorry: seq<Container>, train: seq<Container>, inland: seq<Container>, sea: seq<Container>)
    ensures lorry == OfType(containers, Name(Truck))
    ensures train == OfType(containers, Name(Train))
    ensures inland == OfType(containers, Name(InlandShip))
    ensures sea == OfType(containers, Name(SeaShip))
  {
    lorry, train, inland, sea := [], [], [], [];
    NamesDistinct();
    for i := 0 to |containers|
      invariant lorry == OfType(containers[..i], Name(Truck))
      invariant train == OfType(containers[..i], Name(Train))
      invariant inland == OfType(containers[..i], Name(InlandShip))
      invariant sea == OfType(containers[..i], Name(SeaShip))
    {
      var c := containers[i];
      assert containers[..i + 1][..i] == containers[..i];
      if c.arrivalType == Name(Truck) {
        lorry := lorry + [c];
      } else if c.arrivalType == Name(Train) {
        train := train + [c];
      } else if c.arrivalType == Name(InlandShip) {
        inland := inland + [c];
      } else if c.arrivalType == Name(SeaShip) {
        sea := sea + [c];
      }
    }
    assert containers[..|containers|] == containers;
  }

  /** Appending a container to the input: its point joins the key order
      if new, and its bucket grows by it. */
  lemma BucketsStep(pre: seq<Container>, c: Container)
    ensures Points(pre + [c]) == if c.spawn in Points(pre) then Points(pre) else Points(pre) + [c.spawn]
    ensures Buckets(pre + [c])
         == Buckets(pre)[c.spawn := if c.spawn in Buckets(pre) then Buckets(pre)[c.spawn] + [c] else [c]]
  {
    var post := pre + [c];
    assert post[..|pre|] == pre;
    var m := Buckets(pre)[c.spawn := if c.spawn in Buckets(pre) then Buckets(pre)[c.spawn] + [c] else [c]];
    assert Bucket(post, c.spawn) == Bucket(pre, c.spawn) + [c];
    if c.spawn !in Points(pre) {
      BucketSpec(pre, c.spawn);
    }
    forall p | p in Points(post) ensures p in m && m[p] == Bucket(post, p) {
      if p != c.spawn {
        assert Bucket(post, p) == Bucket(pre, p);
      }
    }
    assert m.Keys == Buckets(post).Keys;
  }

  /** The second loop: the bucket dictionary, with its keys in order of
      first appearance. */
  method BucketByPoint(g: seq<Container>) returns (order: seq<Point>, dict: map<Point, seq<Container>>)
    ensures order == Points(g)
    ensures dict == Buckets(g)
  {
    order, dict := [], map[];
    for i := 0 to |g|
      invariant order == Points(g[..i])
      invariant dict == Buckets(g[..i])
    {
      var c := g[i];
      assert g[..i + 1] == g[..i] + [c];
      BucketsStep(g[..i], c);
      assert c.spawn in dict <==> c.spawn in Points(g[..i]);
      if c.spawn !in dict {
        order := order + [c.spawn];
        dict := dict[c.spawn := [c]];
      } else {
        dict := dict[c.spawn := dict[c.spawn] + [c]];
      }
    }
    assert g[..|g|] == g;
  }

  /** The third loop: the size of the largest bucket. */
  method LargestBucket(g: seq<Container>, order: seq<Point>, dict: map<Point, seq<Container>>)
    returns (amount: nat)
    requires forall p :: p in order ==> p in dict && dict[p] == Bucket(g, p)
    ensures amount == MaxLen(g, order)
  {
    amount := 0;
    for j := 0 to |order|
      invariant amount == MaxLen(g, order[..j])
    {
      assert order[..j + 1][..j] == order[..j];
      if amount < |dict[order[j]]| {
        amount := |dict[order[j]]|;
      }
    }
    assert order[..|order|] == order;
  }

  /** The fourth loop: the limits along the three axes. */
  method Limits(order: seq<Point>) returns (limitX: int, limitY: int, limitZ: int)
    ensures limitX == Limit(order, 0) && limitY == Limit(order, 1) && limitZ == Limit(order, 2)
  {
    limitX, limitY, limitZ := 1, 1, 1;
    for j := 0 to |order|
      invariant limitX == Limit(order[..j], 0)
      invariant limitY == Limit(order[..j], 1)
      invariant limitZ == Limit(order[..j], 2)
    {
      assert order[..j + 1][..j] == order[..j];
      var p := order[j];
      if limitX < p.x + 1 {
        limitX := p.x + 1;
      }
      if limitY < p.y + 1 {
        limitY := p.y + 1;
      }
      if limitZ < p.z + 1 {
        limitZ := p.z + 1;
      }
    }
    assert order[..|order|] == order;
  }

  /** Point p's entry in the peeled dictionary before round i: present
      exactly while its bucket has at least i containers, and then holding
      the bucket without its first i containers. */
  ghost predicate PeeledAt(g: seq<Container>, dict: map<Point, seq<Container>>, p: Point, i: nat) {
    && (p in dict <==> i <= |Bucket(g, p)|)
    && (p in dict ==> i <= |Bucket(g, p)| && dict[p] == Bucket(g, p)[i..])
  }

  /** One step of the iterator: the entry for p gives up its head, or is
      removed when found empty. */
  method PeelPoint(g: seq<Container>, dict0: map<Point, seq<Container>>, p: Point, i: nat)
    returns (taken: seq<Container>, dict: map<Point, seq<Container>>)
    requires PeeledAt(g, dict0, p, i)
    ensures taken == Nth(Bucket(g, p), i)
    ensures PeeledAt(g, dict, p, i + 1)
    ensures dict.Keys <= dict0.Keys
    ensures forall q :: q != p ==> (q in dict <==> q in dict0) && (q in dict ==> dict[q] == dict0[q])
  {
    dict := dict0;
    taken := [];
    if p in dict {
      if |dict[p]| == 0 {
        dict := dict - {p};
      } else {
        var b := Bucket(g, p);
        assert dict[p][0] == b[i] && dict[p][1..] == b[i + 1..];
        taken := [dict[p][0]];
        dict := dict[p := dict[p][1..]];
      }
    }
  }

  /** One pass of the iterator over the dictionary: every entry gives up its
      head, and an entry found empty is removed. The containers taken form
      layer i. */
  method PeelRound(g: seq<Container>, order: seq<Point>, dict0: map<Point, seq<Container>>, i: nat)
    returns (load: seq<Container>, dict: map<Point, seq<Container>>)
    requires Distinct(order)
    requires Peeled(g, order, dict0, i)
    ensures load == Layer(g, order, i)
    ensures Peeled(g, order, dict, i + 1)
  {
    load, dict := [], dict0;
    for j := 0 to |order|
      invariant forall p :: p in dict ==> p in order
      invariant forall k :: 0 <= k < j ==> PeeledAt(g, dict, order[k], i + 1)
      invariant forall k :: j <= k < |order| ==> PeeledAt(g, dict, order[k], i)
      invariant load == Layer(g, order[..j], i)
    {
      var p := order[j];
      assert order[..j + 1][..j] == order[..j];
      assert Layer(g, order[..j + 1], i) == load + Nth(Bucket(g, p), i);
      ghost var prev := dict;
      var taken;
      taken, dict := PeelPoint(g, dict, p, i);
      load := load + taken;
      forall k | 0 <= k < |order| && k != j
        ensures PeeledAt(g, dict, order[k], if k < j then i + 1 else i)
      {
        assert order[k] != p;
        assert PeeledAt(g, prev, order[k], if k < j then i + 1 else i);
      }
    }
    assert order[..|order|] == order;
  }

  /** The dictionary after i rounds of peeling: keys only from order, and
      every point of order as PeeledAt says. */
  ghost predicate Peeled(g: seq<Container>, order: seq<Point>, dict: map<Point, seq<Container>>, i: nat) {
    && (forall p :: p in dict ==> p in order)
    && (forall k :: 0 <= k < |order| ==> PeeledAt(g, dict, order[k], i))
  }

  lemma PeeledStart(g: seq<Container>)
    ensures Peeled(g, Points(g), Buckets(g), 0)
  {
    var order, dict := Points(g), Buckets(g);
    forall k | 0 <= k < |order| ensures PeeledAt(g, dict, order[k], 0) {
      assert Bucket(g, order[k])[0..] == Bucket(g, order[k]);
    }
  }

  /** The fifth loop: one transporter per round, loaded with that round's
      layer. */
  method FillType(t: TransportType, g: seq<Container>) returns (result: seq<Transporter>)
    ensures result == Fill(t, g)
  {
    var order, dict := BucketByPoint(g);
    PointsSpec(g);
    PeeledStart(g);
    var amount := LargestBucket(g, order, dict);
    var limitX, limitY, limitZ := Limits(order);
    result := [];
    for i := 0 to amount
      invariant Peeled(g, order, dict, i)
      invariant result == Transporters(t, g, order, i)
    {
      var load;
      load, dict := PeelRound(g, order, dict, i);
      LayerNonEmpty(g, order, i);
      if |load| > 0 {
        result := result + [Transporter(t, limitX, limitY, limitZ, load, false, -1)];
      }
    }
  }

  /** The transporters of the first n type groups, in type order. */
  function FillGroups(groups: seq<seq<Container>>, n: nat): seq<Transporter>
    requires n <= |groups| <= |KnownTypes|
  {
    if n == 0 then [] else FillGroups(groups, n - 1) + Fill(KnownTypes[n - 1], groups[n - 1])
  }

  /** distributeContainers: partition by type, then fill each non-empty
      type group in turn. */
  method DistributeContainers(containers: seq<Container>) returns (result: seq<Transporter>)
    ensures result == Distribute(containers)
  {
    var lorry, train, inland, sea := Partition(containers);
    var groups := [lorry, train, inland, sea];
    result := [];
    for counter := 0 to |groups|
      invariant result == FillGroups(groups, counter)
    {
      var g := groups[counter];
      if |g| == 0 {
        assert Fill(KnownTypes[counter], g) == [];
        continue;
      }
      var filled := FillType(KnownTypes[counter], g);
      result := result + filled;
    }
    assert FillGroups(groups, 4) == FillGroups(groups, 3) + Fill(SeaShip, sea);
    assert FillGroups(groups, 3) == FillGroups(groups, 2) + Fill(InlandShip, inland);
    assert FillGroups(groups, 2) == FillGroups(groups, 1) + Fill(Train, train);
    assert FillGroups(groups, 1) == Fill(Truck, lorry);
  }
}
