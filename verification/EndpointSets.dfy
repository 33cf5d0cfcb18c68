/** The endpoints of one chain with the two things derived from them: the weight table and the tip. */
module EndpointSets {
  import opened Types
  import opened Fleets
  import opened WeightTables
  import opened Endpoints
  import opened Derived

  class EndpointSet {
    var items: map<string, Endpoint>
    var weights: Table
    var maxTipHeight: int

    constructor ()
      ensures items == map[] && weights == [] && maxTipHeight == 0
    {
      items, weights, maxTipHeight := map[], [], 0;
    }

    ghost predicate Keyed()
      reads this
    {
      forall n :: n in items ==> items[n].name == n
    }

    ghost function Summary(): SetFacts
      reads this
    {
      SetFacts(items.Keys, weights, maxTipHeight)
    }

    ghost function View(): Fleet
      reads this, items.Values
    {
      map n | n in items :: items[n].State()
    }

    /** The weight table is exact for the items. */
    ghost predicate Tabled()
      reads this, items.Values
    {
      Keyed() && Exact(weights, View())
    }

    /** Rescans every head; the result is the tip whatever it was before. */
    method ResetMaxTipHeight()
      modifies this`maxTipHeight
      ensures IsTip(View(), maxTipHeight)
    {
      var maxHeight := 0;
      var remaining := items.Keys;
      while remaining != {}
        invariant remaining <= items.Keys
        invariant maxHeight >= 0
        invariant forall n :: n in items && n !in remaining && items[n].blockhead.Some?
                              ==> items[n].blockhead.value.height <= maxHeight
        invariant maxHeight > 0 ==> exists n :: n in items && items[n].blockhead.Some?
                                                && items[n].blockhead.value.height == maxHeight
        decreases |remaining|
      {
        var n :| n in remaining;
        remaining := remaining - {n};
        var ep := items[n];
        if ep.blockhead.Some? && ep.blockhead.value.height > maxHeight {
          maxHeight := ep.blockhead.value.height;
        }
      }
      maxTipHeight := maxHeight;
      var v := View();
      if maxHeight > 0 {
        var n :| n in items && items[n].blockhead.Some? && items[n].blockhead.value.height == maxHeight;
        assert Holds(v, n, maxHeight);
      }
    }

    /** Appends the endpoint's row unless it is unhealthy; earlier rows stay as they are. */
    method AppendWeights(ep: Endpoint)
      modifies this`weights
      ensures weights == Appended(old(weights), ep.name, ep.State())
      ensures ep.healthy && ep.config.weight > 0 ==> Limit(weights) == old(Limit(weights)) + ep.config.weight
      ensures ep.healthy && ep.config.weight <= 0 ==> Limit(weights) == old(Limit(weights)) + 100
      ensures ep.healthy ==> |weights| == |old(weights)| + 1 && weights[|weights| - 1].epName == ep.name
      ensures if ep.healthy then old(weights) == weights[..|weights| - 1] else old(weights) == weights
    {
      if !ep.healthy {
        return;
      }
      var w := ep.config.weight;
      if w <= 0 {
        w := 100;
      }
      if |weights| > 0 {
        w := weights[|weights| - 1].aggregate + w;
      }
      weights := weights + [Weight(ep.name, w)];
    }

    /** Puts the endpoint under its name and appends its row; the tip is not looked at. */
    method Add(ep: Endpoint)
      requires Keyed()
      modifies this`items, this`weights
      ensures Keyed() && items == old(items)[ep.name := ep]
      ensures weights == Appended(old(weights), ep.name, ep.State())
    {
      items := items[ep.name := ep];
      AppendWeights(ep);
    }

    /** Rebuilds the table from the items, in whatever order they come. */
    method ResetWeights()
      requires Keyed()
      modifies this`weights
      ensures Tabled()
    {
      var rebuilt: Table := [];
      var remaining := items.Keys;
      ghost var done: Fleet := map[];
      while remaining != {}
        invariant remaining <= items.Keys
        invariant done == map n | n in items && n !in remaining :: items[n].State()
        invariant Exact(rebuilt, done)
        decreases |remaining|
      {
        var n :| n in remaining;
        remaining := remaining - {n};
        var ep := items[n];
        ghost var before := rebuilt;
        AppendToUnlisted(rebuilt, done, n, ep.State());
        done := done[n := ep.State()];
        if ep.healthy {
          var w := ep.config.weight;
          if w <= 0 {
            w := 100;
          }
          if |rebuilt| > 0 {
            w := rebuilt[|rebuilt| - 1].aggregate + w;
          }
          rebuilt := rebuilt + [Weight(ep.name, w)];
        }
        assert rebuilt == Appended(before, n, ep.State());
      }
      weights := rebuilt;
      assert done == View();
    }

    function WeightLimit(): int
      reads this
    {
      if |weights| > 0 then weights[|weights| - 1].aggregate else 0
    }

    /** Binary search for the first row whose aggregate exceeds the draw. */
    method WeightSearch(w: int) returns (epName: Option<string>)
      requires Rising(weights)
      ensures epName == Pick(weights, w)
    {
      if w < 0 {
        return None;
      }
      hide Rising;
      var lo, hi := 0, |weights|;
      while lo < hi
        invariant 0 <= lo <= hi <= |weights|
        invariant lo <= FirstAbove(weights, w, 0) <= hi
      {
        var mid := (lo + hi) / 2;
        RowsRise(weights, w, mid);
        if weights[mid].aggregate > w {
          hi := mid;
        } else {
          lo := mid + 1;
        }
      }
      return if lo < |weights| then Some(weights[lo].epName) else None;
    }

    /** A random number below the limit draws the endpoint in whose row it falls; nothing if the table is empty. */
    method WeightedRandom(seed: nat) returns (epName: Option<string>)
      requires Rising(weights)
      ensures epName == Draw(weights, seed)
      ensures forall i: nat :: i < |weights| && RowHolds(weights, i, seed) ==> epName == Some(weights[i].epName)
    {
      forall i: nat | i < |weights| && RowHolds(weights, i, seed)
        ensures Draw(weights, seed) == Some(weights[i].epName)
      {
        DrawHitsRow(weights, i, seed);
      }
      var lim := WeightLimit();
      if lim > 0 {
        epName := WeightSearch(Intn(seed, lim));
      } else {
        epName := None;
      }
    }

    predicate Suits(n: string, rpc: string, minHeight: int, websocket: bool)
      requires n in items
      reads this, items.Values
    {
      (websocket ==> items[n].HasWebsocket()) && items[n].IsAvailable(rpc, minHeight)
    }

    ghost function Suited(rpc: string, minHeight: int, websocket: bool): set<string>
      reads this, items.Values
    {
      set n | n in items && Suits(n, rpc, minHeight, websocket)
    }

    lemma NoneHealthySuits(rpc: string, minHeight: int, websocket: bool)
      requires forall n :: n in View() ==> !View()[n].healthy
      ensures Suited(rpc, minHeight, websocket) == {}
    {
      forall n | n in items ensures !Suits(n, rpc, minHeight, websocket) {
        assert View()[n].healthy == items[n].healthy;
      }
    }

    /**
     A weighted draw first and, if what was drawn does not suit, any endpoint that does. The second attempt is
     made only after a successful draw; since the table is exact nothing is missed by that.
     */
    method Choose(rpc: string, minHeight: int, websocket: bool, seed: nat) returns (ep: Endpoint?)
      requires Tabled()
      ensures var drawn := Draw(weights, seed);
              drawn.Some? && drawn.value in Suited(rpc, minHeight, websocket) ==> ep != null && ep.name == drawn.value
      ensures forall i: nat :: i < |weights| && RowHolds(weights, i, seed)
                               && weights[i].epName in Suited(rpc, minHeight, websocket) ==>
                                 ep != null && ep.name == weights[i].epName
      ensures ep != null ==> ep.name in Suited(rpc, minHeight, websocket) && items[ep.name] == ep
      ensures ep == null ==> Suited(rpc, minHeight, websocket) == {}
    {
      ExactRises(weights, View());
      DrawsHealthy(weights, View(), seed);
      var drawn := WeightedRandom(seed);
      if drawn.Some? {
        ep := items[drawn.value];
        if (websocket ==> ep.HasWebsocket()) && ep.IsAvailable(rpc, minHeight) {
          return ep;
        }
        var remaining := items.Keys;
        while remaining != {}
          invariant remaining <= items.Keys
          invariant forall n :: n in items && n !in remaining ==> !Suits(n, rpc, minHeight, websocket)
          decreases |remaining|
        {
          var n :| n in remaining;
          remaining := remaining - {n};
          ep := items[n];
          if (websocket ==> ep.HasWebsocket()) && ep.IsAvailable(rpc, minHeight) {
            return ep;
          }
        }
      } else {
        NoneHealthySuits(rpc, minHeight, websocket);
      }
      return null;
    }

    /** Every endpoint that suits, once each, in some order. */
    method AllSuited(rpc: string, minHeight: int) returns (eps: seq<Endpoint>)
      requires Keyed()
      ensures forall ep :: ep in eps ==> ep.name in items && items[ep.name] == ep
      ensures Lists(eps, Suited(rpc, minHeight, false))
    {
      eps := [];
      var remaining := items.Keys;
      ghost var done := {};
      while remaining != {}
        invariant remaining <= items.Keys
        invariant done == set n | n in items && n !in remaining && Suits(n, rpc, minHeight, false)
        invariant forall ep :: ep in eps ==> ep.name in items && items[ep.name] == ep
        invariant Lists(eps, done)
        decreases |remaining|
      {
        var n :| n in remaining;
        remaining := remaining - {n};
        if items[n].IsAvailable(rpc, minHeight) {
          ListsMore(eps, done, items[n]);
          eps := eps + [items[n]];
          done := done + {n};
        }
      }
      assert done == Suited(rpc, minHeight, false);
    }

    /** The cache keys of the endpoints that suit. */
    method CacheKeys(request: Request, prefix: string, minHeight: int) returns (keys: seq<CacheKey>)
      ensures forall k :: k in keys <==>
                exists n :: n in Suited(request.rpc, minHeight, false) && k == KeyFor(prefix, n, request)
    {
      keys := [];
      var remaining := items.Keys;
      ghost var done := {};
      while remaining != {}
        invariant remaining <= items.Keys
        invariant done == set n | n in items && n !in remaining && Suits(n, request.rpc, minHeight, false)
        invariant forall k :: k in keys <==> exists n :: n in done && k == KeyFor(prefix, n, request)
        decreases |remaining|
      {
        var n :| n in remaining;
        remaining := remaining - {n};
        if items[n].IsAvailable(request.rpc, minHeight) {
          keys := keys + [KeyFor(prefix, n, request)];
          done := done + {n};
        }
      }
      assert done == Suited(request.rpc, minHeight, false);
    }
  }

  function KeyFor(prefix: string, epName: string, request: Request): CacheKey {
    CacheKey(prefix + epName + "/", request)
  }

  /** The endpoints carry exactly these names, none twice. */
  ghost predicate Lists(eps: seq<Endpoint>, names: set<string>) {
    && (forall i, j :: 0 <= i < j < |eps| ==> eps[i].name != eps[j].name)
    && (forall i :: 0 <= i < |eps| ==> eps[i].name in names)
    && |eps| == |names|
  }

  lemma ListsMore(eps: seq<Endpoint>, names: set<string>, ep: Endpoint)
    requires Lists(eps, names) && ep.name !in names
    ensures Lists(eps + [ep], names + {ep.name})
  {
  }

  function NamesOf(eps: seq<Endpoint>): set<string> {
    set k | 0 <= k < |eps| :: eps[k].name
  }

  /** Such a list names all of them. */
  lemma {:induction false} ListsAll(eps: seq<Endpoint>, names: set<string>)
    requires Lists(eps, names)
    ensures NamesOf(eps) == names
    decreases |eps|
  {
    if eps == [] {
    } else {
      var rest, last := eps[..|eps| - 1], eps[|eps| - 1];
      assert last.name in names;
      assert Lists(rest, names - {last.name});
      ListsAll(rest, names - {last.name});
      assert eps == rest + [last];
      assert NamesOf(eps) == NamesOf(rest) + {last.name} by {
        assert forall k :: 0 <= k < |rest| ==> eps[k] == rest[k];
      }
    }
  }
}
