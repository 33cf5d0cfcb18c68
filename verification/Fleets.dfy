/**
 The facts behind the routing state, as one value: for every known endpoint its chain,
 its configuration and the last health and head heard of it.
 Everything else that the multiplexer stores is derived from this value.
 */
module Fleets {
  import opened Types

  datatype EndpointState = EndpointState(
    chain: ChainRef,
    weight: int,
    websocket: bool,
    skip: set<string>,
    healthy: bool,
    head: Option<Block>)

  type Fleet = map<string, EndpointState>

  /** A configured weight that is not positive stands for the default of 100. */
  function Effective(weight: int): int {
    if weight <= 0 then 100 else weight
  }

  predicate Available(e: EndpointState, rpc: string, minHeight: int) {
    && e.healthy
    && (minHeight > 0 ==> e.head.Some? && minHeight <= e.head.value.height)
    && (rpc == "" || rpc !in e.skip)
  }

  /** The endpoints of one chain. */
  function Members(f: Fleet, c: ChainRef): Fleet {
    map n | n in f && f[n].chain == c :: f[n]
  }

  // ----- The tip of a chain, recomputed from the heads -----

  /** The endpoint's head is at this height. */
  predicate Holds(v: Fleet, n: string, t: int) {
    n in v && v[n].head.Some? && v[n].head.value.height == t
  }

  /** `t` is 0 or the height of some head. */
  ghost predicate Held(v: Fleet, t: int) {
    t >= 0 && (t > 0 ==> exists n :: Holds(v, n, t))
  }

  /** `t` is the maximum of 0 and every head, of healthy and unhealthy endpoints alike. */
  ghost predicate IsTip(v: Fleet, t: int) {
    Held(v, t) && forall n :: n in v && v[n].head.Some? ==> v[n].head.value.height <= t
  }

  lemma {:induction false} TipExists(v: Fleet)
    ensures exists t :: IsTip(v, t)
    decreases |v|
  {
    if v == map[] {
      assert IsTip(v, 0);
    } else {
      var n :| n in v;
      var rest := v - {n};
      assert v.Keys == rest.Keys + {n};
      assert |rest.Keys| < |v.Keys|;
      TipExists(rest);
      var t :| IsTip(rest, t);
      if v[n].head.Some? && v[n].head.value.height > t {
        assert t >= 0 && Holds(v, n, v[n].head.value.height);
        assert IsTip(v, v[n].head.value.height);
      } else {
        if t > 0 {
          var m :| Holds(rest, m, t);
          assert Holds(v, m, t);
        }
        assert IsTip(v, t);
      }
    }
  }

  lemma TipUnique(v: Fleet, s: int, t: int)
    requires IsTip(v, s) && IsTip(v, t)
    ensures s == t
  {
    if s > 0 {
      var n :| Holds(v, n, s);
    }
    if t > 0 {
      var n :| Holds(v, n, t);
    }
  }

  ghost function Tip(f: Fleet, c: ChainRef): (t: int)
    ensures IsTip(Members(f, c), t)
  {
    TipExists(Members(f, c));
    var t :| IsTip(Members(f, c), t);
    t
  }

  // ----- Which endpoints a request may use -----

  /** A positive height is taken as it is; zero or below counts back from a tip. */
  function CountBack(tip: int, heightSpec: int): int {
    if heightSpec <= 0 then tip + heightSpec else heightSpec
  }

  ghost function ResolvedHeight(f: Fleet, c: ChainRef, heightSpec: int): int {
    CountBack(Tip(f, c), heightSpec)
  }

  /** The names of the chain's endpoints that can serve `rpc` at `minHeight`. */
  function Usable(f: Fleet, c: ChainRef, rpc: string, minHeight: int): set<string> {
    set n | n in f && f[n].chain == c && Available(f[n], rpc, minHeight)
  }

  /** Health and the skip list, without regard to heights. */
  predicate Serves(e: EndpointState, rpc: string) {
    e.healthy && (rpc == "" || rpc !in e.skip)
  }

  /** All endpoints of the chain that serve the method. */
  function Servers(f: Fleet, c: ChainRef, rpc: string): set<string> {
    set n | n in f && f[n].chain == c && Serves(f[n], rpc)
  }

  function UsableSocket(f: Fleet, c: ChainRef, rpc: string, minHeight: int): set<string> {
    set n | n in Usable(f, c, rpc, minHeight) && f[n].websocket
  }

  /** Spelled out: the endpoint is there for a request on that chain, for that method, at or above that height. */
  ghost predicate Offers(f: Fleet, n: string, c: ChainRef, rpc: string, height: int, websocket: bool) {
    && n in f && f[n].chain == c && f[n].healthy
    && (rpc == "" || rpc !in f[n].skip)
    && (height > 0 ==> f[n].head.Some? && f[n].head.value.height >= height)
    && (websocket ==> f[n].websocket)
  }

  lemma UsableAreOffers(f: Fleet, c: ChainRef, rpc: string, height: int)
    ensures forall n :: n in Usable(f, c, rpc, height) <==> Offers(f, n, c, rpc, height, false)
    ensures forall n :: n in UsableSocket(f, c, rpc, height) <==> Offers(f, n, c, rpc, height, true)
    ensures forall n :: n in Servers(f, c, rpc) <==> Offers(f, n, c, rpc, 0, false)
  {
  }

  /**
   A positive tip belongs to some endpoint of the chain; if such an endpoint serves the method, every request that
   counts back from it has an endpoint to go to. A tip that is merely held is good enough for that.
   */
  lemma TipIsReachable(f: Fleet, c: ChainRef, rpc: string, heightSpec: int, t: int)
    requires heightSpec <= 0 && Held(Members(f, c), t)
    ensures t > 0 ==> exists n :: Holds(Members(f, c), n, t)
    ensures forall n :: Holds(Members(f, c), n, t) && Serves(f[n], rpc) ==>
              n in Usable(f, c, rpc, CountBack(t, heightSpec))
    ensures t == 0 ==> Usable(f, c, rpc, CountBack(t, heightSpec)) == Servers(f, c, rpc)
  {
  }

  /** The endpoints of the chain that serve the method, as a fleet of their own. */
  function Served(f: Fleet, c: ChainRef, rpc: string): Fleet {
    map n | n in f && f[n].chain == c && Serves(f[n], rpc) :: f[n]
  }

  /**
   The tip also counts heads of endpoints that are unhealthy or skip the method. Counting back from it, or from
   whatever is taken for it, finds nobody exactly when nobody serves the method or the tip of those who do lags by
   more than the allowance.
   */
  lemma CountingBackFails(f: Fleet, c: ChainRef, rpc: string, heightSpec: int, t: int)
    requires heightSpec <= 0
    ensures Usable(f, c, rpc, CountBack(t, heightSpec)) == {} <==>
            Servers(f, c, rpc) == {} || Tip(Served(f, c, rpc), c) < t + heightSpec
  {
    var v, height := Served(f, c, rpc), t + heightSpec;
    var u, top := Usable(f, c, rpc, height), Tip(v, c);
    assert Members(v, c) == v;
    if n :| n in u {
      assert n in v;
    }
    if m :| m in Servers(f, c, rpc) {
      if height <= 0 {
        assert m in u;
      } else if top >= height {
        var n :| Holds(v, n, top);
        assert n in u;
      }
    }
  }

  /** At a height of zero or less everyone who serves the method is usable, at any other height nobody else. */
  lemma NoHeightCheck(f: Fleet, c: ChainRef, rpc: string, low: int, height: int)
    requires low <= 0
    ensures Usable(f, c, rpc, low) == Servers(f, c, rpc)
    ensures Usable(f, c, rpc, height) <= Servers(f, c, rpc)
  {
  }

  /** Such a chain exists: a stale unhealthy leader leaves a healthy endpoint out of reach. */
  lemma UnhealthyTipStrands(c: ChainRef, lead: Block, lag: Block, weight: int)
    requires lead.height > lag.height + 2 && lead.height > 2
    ensures var f := map["lead" := EndpointState(c, weight, false, {}, false, Some(lead)),
                         "lag" := EndpointState(c, weight, false, {}, true, Some(lag))];
            Usable(f, c, "", 0) == {"lag"} && Usable(f, c, "", ResolvedHeight(f, c, -2)) == {}
  {
    var f := map["lead" := EndpointState(c, weight, false, {}, false, Some(lead)),
                 "lag" := EndpointState(c, weight, false, {}, true, Some(lag))];
    var v := Members(f, c);
    assert v["lead"].head == Some(lead) && v["lag"].head == Some(lag);
    TipUnique(v, lead.height, Tip(f, c));
  }
}
