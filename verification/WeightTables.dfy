/** The cumulative weight table of one chain and the draw over it. */
module WeightTables {
  import opened Types
  import opened Fleets

  datatype Weight = Weight(epName: string, aggregate: int)

  type Table = seq<Weight>

  /** Where the draws of row `i` begin; where they end is its aggregate. */
  function Start(t: Table, i: nat): int
    requires i <= |t|
  {
    if i == 0 then 0 else t[i - 1].aggregate
  }

  function Limit(t: Table): int {
    Start(t, |t|)
  }

  ghost predicate Rising(t: Table) {
    forall i :: 0 <= i < |t| ==> Start(t, i) < t[i].aggregate
  }

  ghost predicate HasRow(t: Table, n: string) {
    exists i :: 0 <= i < |t| && t[i].epName == n
  }

  /** Row `i` belongs to a healthy endpoint and is as wide as its configured weight, 100 if that is not positive. */
  ghost predicate ExactRow(t: Table, i: nat, v: Fleet)
    requires i < |t|
  {
    && t[i].epName in v
    && v[t[i].epName].healthy
    && var weight := v[t[i].epName].weight; t[i].aggregate == Start(t, i) + if weight > 0 then weight else 100
  }

  ghost predicate Distinct(t: Table) {
    forall i, j :: 0 <= i < j < |t| ==> t[i].epName != t[j].epName
  }

  ghost predicate ExactRows(t: Table, v: Fleet) {
    forall i :: 0 <= i < |t| ==> ExactRow(t, i, v)
  }

  ghost predicate Covers(t: Table, v: Fleet) {
    forall n :: n in v && v[n].healthy ==> HasRow(t, n)
  }

  /** One exact row per healthy endpoint and none twice. */
  ghost predicate Exact(t: Table, v: Fleet) {
    Distinct(t) && ExactRows(t, v) && Covers(t, v)
  }

  /** The first row at or after `from` whose aggregate exceeds the draw; |t| if there is none. */
  function FirstAbove(t: Table, w: int, from: nat): (i: nat)
    requires from <= |t|
    ensures from <= i <= |t|
    ensures forall j :: from <= j < i ==> t[j].aggregate <= w
    ensures i < |t| ==> w < t[i].aggregate
    decreases |t| - from
  {
    if from == |t| || w < t[from].aggregate then from else FirstAbove(t, w, from + 1)
  }

  function Pick(t: Table, w: int): Option<string> {
    if w < 0 then None
    else
      var i := FirstAbove(t, w, 0);
      if i < |t| then Some(t[i].epName) else None
  }

  /** A random number below `lim`: any such number, depending on the seed. */
  function Intn(seed: nat, lim: int): (w: int)
    requires lim > 0
    ensures 0 <= w < lim
    ensures seed < lim ==> w == seed
  {
    seed % lim
  }

  /** The endpoint drawn from a table. */
  function Draw(t: Table, seed: nat): Option<string> {
    if Limit(t) > 0 then Pick(t, Intn(seed, Limit(t))) else None
  }

  lemma {:induction false} Ordered(t: Table, i: nat, j: nat)
    requires Rising(t) && i <= j <= |t|
    ensures 0 <= Start(t, i) <= Start(t, j)
    decreases i + j
  {
    if i < j {
      Ordered(t, i, j - 1);
      assert Start(t, j - 1) < t[j - 1].aggregate;
    } else if i == 0 {
    } else {
      Ordered(t, i - 1, j - 1);
      assert Start(t, i - 1) < t[i - 1].aggregate;
    }
  }

  /** A draw hits row `i` exactly when it lies between the row's start and its aggregate. */
  lemma HitsRow(t: Table, w: int, i: nat)
    requires Rising(t) && i < |t| && 0 <= w
    ensures FirstAbove(t, w, 0) == i <==> Start(t, i) <= w < t[i].aggregate
  {
    var k := FirstAbove(t, w, 0);
    if k < i {
      Ordered(t, k + 1, i);
    } else if i < k {
      assert t[i].aggregate <= w;
    } else if i > 0 {
      assert t[i - 1].aggregate <= w;
    }
  }

  /** The rows from the first hit on exceed the draw, the rows before do not. */
  lemma RowsRise(t: Table, w: int, i: nat)
    requires Rising(t) && i < |t|
    ensures t[i].aggregate > w <==> FirstAbove(t, w, 0) <= i
  {
    var k := FirstAbove(t, w, 0);
    if k <= i {
      Ordered(t, k + 1, i + 1);
    }
  }

  /** Draws inside [0, Limit) always find an endpoint, all others never do. */
  lemma PickFindsInRange(t: Table, w: int)
    requires Rising(t)
    ensures Pick(t, w).Some? <==> 0 <= w < Limit(t)
  {
    if w >= 0 {
      var k := FirstAbove(t, w, 0);
      if k < |t| {
        Ordered(t, k + 1, |t|);
      }
    }
  }

  lemma ExactRises(t: Table, v: Fleet)
    requires Exact(t, v)
    ensures Rising(t)
  {
    forall i | 0 <= i < |t| ensures Start(t, i) < t[i].aggregate {
      assert ExactRow(t, i, v);
    }
  }

  lemma NotListed(t: Table, v: Fleet, n: string)
    requires ExactRows(t, v) && (n !in v || !v[n].healthy)
    ensures !HasRow(t, n)
  {
    forall i | 0 <= i < |t| ensures t[i].epName != n {
      assert ExactRow(t, i, v);
    }
  }

  lemma RowsStay(t: Table, v: Fleet, n: string, e: EndpointState)
    requires ExactRows(t, v) && !HasRow(t, n)
    ensures ExactRows(Appended(t, n, e), v[n := e])
  {
    var u, v' := Appended(t, n, e), v[n := e];
    forall i | 0 <= i < |u| ensures ExactRow(u, i, v') {
      if i < |t| {
        assert t[i].epName != n;
        assert ExactRow(t, i, v);
      }
    }
  }

  lemma RowCovers(t: Table, v: Fleet, n: string, e: EndpointState)
    requires Covers(t, v)
    ensures Covers(Appended(t, n, e), v[n := e])
  {
    var u, v' := Appended(t, n, e), v[n := e];
    forall m | m in v' && v'[m].healthy ensures HasRow(u, m) {
      if m == n {
        assert u[|t|].epName == n;
      } else {
        assert HasRow(t, m);
        var i :| 0 <= i < |t| && t[i].epName == m;
        assert u[i].epName == m;
      }
    }
  }

  lemma AppendToUnlisted(t: Table, v: Fleet, n: string, e: EndpointState)
    requires Exact(t, v) && (n !in v || !v[n].healthy)
    ensures Exact(Appended(t, n, e), v[n := e])
  {
    NotListed(t, v, n);
    RowsStay(t, v, n, e);
    RowCovers(t, v, n, e);
  }

  lemma AppendToListed(t: Table, v: Fleet, n: string, e: EndpointState)
    requires Exact(t, v) && n in v && v[n].healthy
    ensures !Exact(Appended(t, n, e), v[n := e])
  {
    var u, v' := Appended(t, n, e), v[n := e];
    assert HasRow(t, n);
    var i :| 0 <= i < |t| && t[i].epName == n;
    assert u[i].epName == n;
    assert e.healthy ==> u[|t|].epName == n;
    assert !e.healthy ==> !ExactRow(u, i, v');
  }

  /**
   Adding an endpoint to a set keeps the table exact exactly when its name is new or stood for an unhealthy
   endpoint: the row of a replaced healthy one is not taken out.
   */
  lemma AppendKeepsExact(t: Table, v: Fleet, n: string, e: EndpointState)
    requires Exact(t, v)
    ensures Exact(Appended(t, n, e), v[n := e]) <==> n !in v || !v[n].healthy
  {
    if n in v && v[n].healthy {
      AppendToListed(t, v, n, e);
    } else {
      AppendToUnlisted(t, v, n, e);
    }
  }

  /** The table with the endpoint's row appended, if it is healthy. */
  function Appended(t: Table, n: string, e: EndpointState): Table {
    if e.healthy then t + [Weight(n, Limit(t) + Effective(e.weight))] else t
  }

  ghost function Interval(lo: int, hi: int): (s: set<int>)
    requires lo <= hi
    ensures forall w :: w in s <==> lo <= w < hi
    ensures |s| == hi - lo
    decreases hi - lo
  {
    if lo == hi then {} else Interval(lo, hi - 1) + {hi - 1}
  }

  /** The random numbers below the limit that draw an endpoint. */
  ghost function DrawsFor(t: Table, n: string): set<int> {
    set seed | 0 <= seed < Limit(t) && Draw(t, seed) == Some(n)
  }

  /** The random number lies between the aggregate of the row before, 0 for the first, and the row's own. */
  predicate RowHolds(t: Table, i: nat, seed: nat)
    requires i < |t|
  {
    (i == 0 || t[i - 1].aggregate <= seed) && seed < t[i].aggregate
  }

  /** A random number within a row draws the endpoint of that row. */
  lemma DrawHitsRow(t: Table, i: nat, seed: nat)
    requires Rising(t) && i < |t| && RowHolds(t, i, seed)
    ensures seed < Limit(t) && Draw(t, seed) == Some(t[i].epName)
  {
    Ordered(t, i + 1, |t|);
    HitsRow(t, seed, i);
  }

  lemma DrawsFillTheRow(t: Table, v: Fleet, i: nat, w: int)
    requires Exact(t, v) && Rising(t) && i < |t|
    ensures w in DrawsFor(t, t[i].epName) <==> Start(t, i) <= w < t[i].aggregate
  {
    Ordered(t, 0, i);
    Ordered(t, i + 1, |t|);
    if 0 <= w {
      HitsRow(t, w, i);
      var k := FirstAbove(t, w, 0);
      assert k < |t| && k != i ==> t[k].epName != t[i].epName;
    }
  }

  lemma PicksHealthy(t: Table, v: Fleet, w: int)
    requires Exact(t, v)
    ensures Pick(t, w).Some? ==> Pick(t, w).value in v && v[Pick(t, w).value].healthy
  {
    if Pick(t, w).Some? {
      assert ExactRow(t, FirstAbove(t, w, 0), v);
    }
  }

  /**
   Exactly as many random numbers below the limit draw an endpoint as its configured weight says, a hundred if that
   is not positive, and none if the endpoint is unhealthy.
   */
  lemma DrawsAreExact(t: Table, v: Fleet, n: string)
    requires Exact(t, v) && n in v
    ensures v[n].healthy && v[n].weight > 0 ==> |DrawsFor(t, n)| == v[n].weight
    ensures v[n].healthy && v[n].weight <= 0 ==> |DrawsFor(t, n)| == 100
    ensures !v[n].healthy ==> DrawsFor(t, n) == {}
  {
    ExactRises(t, v);
    if v[n].healthy {
      assert HasRow(t, n);
      var i :| 0 <= i < |t| && t[i].epName == n;
      assert ExactRow(t, i, v);
      var row := Interval(Start(t, i), t[i].aggregate);
      forall w ensures w in DrawsFor(t, n) <==> w in row {
        DrawsFillTheRow(t, v, i, w);
      }
      assert DrawsFor(t, n) == row;
    } else {
      forall seed: nat ensures Draw(t, seed) != Some(n) {
        if Limit(t) > 0 {
          PicksHealthy(t, v, Intn(seed, Limit(t)));
        }
      }
      assert DrawsFor(t, n) == {};
    }
  }

  lemma OnlyEmptyHasNoLimit(t: Table)
    requires Rising(t) && t != []
    ensures Limit(t) > 0
  {
    Ordered(t, 0, |t| - 1);
    assert Start(t, |t| - 1) < t[|t| - 1].aggregate;
  }

  /** A draw finds a healthy endpoint, and finds none only if there is none. */
  lemma DrawsHealthy(t: Table, v: Fleet, seed: nat)
    requires Exact(t, v)
    ensures Draw(t, seed).Some? ==> Draw(t, seed).value in v && v[Draw(t, seed).value].healthy
    ensures Draw(t, seed).None? ==> forall n :: n in v ==> !v[n].healthy
  {
    ExactRises(t, v);
    if t != [] {
      OnlyEmptyHasNoLimit(t);
      var w := Intn(seed, Limit(t));
      PickFindsInRange(t, w);
      PicksHealthy(t, v, w);
    } else {
      forall n | n in v ensures !v[n].healthy {
        assert !HasRow(t, n);
      }
    }
  }

  // ----- The limit does not depend on the order of the rows -----

  /** What an endpoint adds to the limit, by its configuration. */
  function Share(e: EndpointState): nat {
    if !e.healthy then 0 else if e.weight > 0 then e.weight else 100
  }

  ghost function HealthyWeight(v: Fleet): nat
    decreases |v.Keys|
  {
    if v == map[] then 0
    else
      var n :| n in v;
      assert |(v - {n}).Keys| < |v.Keys| by { assert v.Keys == (v - {n}).Keys + {n}; }
      Share(v[n]) + HealthyWeight(v - {n})
  }

  lemma {:induction false} TakeOut(v: Fleet, n: string)
    requires n in v
    ensures HealthyWeight(v) == Share(v[n]) + HealthyWeight(v - {n})
    decreases |v.Keys|
  {
    var m :| m in v && HealthyWeight(v) == Share(v[m]) + HealthyWeight(v - {m});
    if m != n {
      assert v.Keys == (v - {m}).Keys + {m};
      assert v.Keys == (v - {n}).Keys + {n};
      TakeOut(v - {m}, n);
      TakeOut(v - {n}, m);
      assert v - {m} - {n} == v - {n} - {m};
    }
  }

  lemma {:induction false} NoneHealthy(v: Fleet)
    requires forall n :: n in v ==> !v[n].healthy
    ensures HealthyWeight(v) == 0
    decreases |v.Keys|
  {
    if v == map[] {
    } else {
      var n :| n in v;
      assert v.Keys == (v - {n}).Keys + {n};
      TakeOut(v, n);
      NoneHealthy(v - {n});
    }
  }

  /** The limit of any exact table is the total of what the healthy endpoints are configured with. */
  lemma {:induction false} LimitIsTotal(t: Table, v: Fleet)
    requires Exact(t, v)
    ensures Limit(t) == HealthyWeight(v)
    decreases |t|
  {
    if t == [] {
      assert forall n :: n in v && v[n].healthy ==> HasRow(t, n);
      NoneHealthy(v);
    } else {
      var last := |t| - 1;
      var n := t[last].epName;
      var u := t[..last];
      assert ExactRow(t, last, v);
      forall i | 0 <= i < |u| ensures ExactRow(u, i, v - {n}) {
        assert ExactRow(t, i, v);
      }
      forall m | m in v - {n} && (v - {n})[m].healthy ensures HasRow(u, m) {
        assert HasRow(t, m);
        var i :| 0 <= i < |t| && t[i].epName == m;
        assert u[i].epName == m;
      }
      LimitIsTotal(u, v - {n});
      TakeOut(v, n);
    }
  }
}
