/**
 The routing state: every endpoint under its name, every chain's endpoints in a set of its own, and
 per set a weight table and a tip that statuses keep up to date step by step.
 `Sound` says that names and weights are what a recomputation from the endpoints would give and each tip is 0 or
 some head of its chain, `Valid` that the tips are right as well. Every operation keeps the former.
 One update and one selection are each taken as one atomic step.
 */
module Multiplexers {
  import opened Types
  import opened Fleets
  import opened Replays
  import opened WeightTables
  import opened Endpoints
  import opened EndpointSets
  import opened Derived
  import ChainRefs

  ghost function FactsOf(index: map<string, Endpoint>): Fleet
    reads index.Values
  {
    map n | n in index :: index[n].State()
  }

  ghost function SetsOf(index: map<ChainRef, EndpointSet>): Sets
    reads index.Values
  {
    map c | c in index :: index[c].Summary()
  }

  lemma FactsOfAdded(index: map<string, Endpoint>, n: string, ep: Endpoint)
    ensures FactsOf(index[n := ep]) == FactsOf(index)[n := ep.State()]
  {
  }

  /** The sets after the endpoint went into that of its chain. */
  ghost function WithNewcomer(d: Sets, ep: Endpoint): Sets
    reads ep
  {
    d[ep.chain := Extended(SetOf(d, ep.chain), ep.name, ep.State())]
  }

  /** Both indexes lead to the same objects, and no two chains share a set. */
  ghost predicate Linked(names: map<string, Endpoint>, chains: map<ChainRef, EndpointSet>)
    reads chains.Values
  {
    && (forall n :: n in names ==> names[n].name == n)
    && (forall c, n :: c in chains && n in chains[c].items ==> n in names && names[n] == chains[c].items[n])
    && (forall c, d :: c in chains && d in chains && c != d ==> chains[c] != chains[d])
  }

  lemma LinkedIsKeyed(names: map<string, Endpoint>, chains: map<ChainRef, EndpointSet>)
    requires Linked(names, chains)
    ensures forall c :: c in chains ==> chains[c].Keyed()
  {
    forall c, n | c in chains && n in chains[c].items ensures chains[c].items[n].name == n {
      assert names[n] == chains[c].items[n];
    }
  }

  lemma ViewOfLinked(names: map<string, Endpoint>, chains: map<ChainRef, EndpointSet>, c: ChainRef)
    requires Linked(names, chains) && c in chains
    requires chains[c].items.Keys == Members(FactsOf(names), c).Keys
    ensures chains[c].Keyed()
    ensures chains[c].View() == Members(FactsOf(names), c)
  {
    var v, m := chains[c].View(), Members(FactsOf(names), c);
    assert v.Keys == m.Keys;
    forall n | n in v ensures v[n] == m[n] {
      assert n in chains[c].items;
    }
  }

  lemma Overwritten(f: Fleet, n: string, d: EndpointState, e: EndpointState)
    ensures f[n := d][n := e] == f[n := e]
  {
  }

  class Multiplexer {
    var nameIndex: map<string, Endpoint>
    var chainIndex: map<ChainRef, EndpointSet>

    constructor ()
      ensures Valid() && Facts() == map[]
    {
      nameIndex, chainIndex := map[], map[];
    }

    /** The facts that everything else is derived from. */
    ghost function Facts(): Fleet
      reads this, nameIndex.Values
    {
      FactsOf(nameIndex)
    }

    ghost predicate Sound()
      reads this, nameIndex.Values, chainIndex.Values
    {
      Linked(nameIndex, chainIndex) && Agrees(FactsOf(nameIndex), SetsOf(chainIndex))
    }

    /** The chains whose stored tip is the tip. */
    ghost function RightTips(): iset<ChainRef>
      reads this, nameIndex.Values, chainIndex.Values
    {
      Right(FactsOf(nameIndex), SetsOf(chainIndex))
    }

    ghost predicate Valid()
      reads this, nameIndex.Values, chainIndex.Values
    {
      Sound() && forall c :: c in RightTips()
    }

    lemma ViewIsMembers(c: ChainRef)
      requires Sound() && c in chainIndex
      ensures chainIndex[c].Tabled()
      ensures chainIndex[c].View() == Members(Facts(), c)
      ensures AgreesAt(Facts(), c, chainIndex[c].Summary())
    {
      var s := chainIndex[c].Summary();
      assert AgreesAt(Facts(), c, s) by {
        assert SetsOf(chainIndex)[c] == s;
      }
      ViewOfLinked(nameIndex, chainIndex, c);
    }

    lemma NamesAreKeys()
      requires Sound()
      ensures forall n :: n in nameIndex ==> nameIndex[n].name == n
    {
    }

    /** No set was lost or replaced, and new ones are new objects. */
    twostate predicate SetsKept()
      reads this
    {
      && (forall c :: c in old(chainIndex) ==> c in chainIndex && chainIndex[c] == old(chainIndex[c]))
      && (forall c :: c in chainIndex && c !in old(chainIndex) ==> fresh(chainIndex[c]))
    }

    twostate lemma FactsStay()
      requires forall n :: n in old(nameIndex) ==> unchanged(old(nameIndex)[n])
      ensures FactsOf(old(nameIndex)) == old(Facts())
    {
    }

    twostate lemma SetsStay(new c: ChainRef, new eps: EndpointSet)
      requires forall d :: d in old(chainIndex) && d != c ==> unchanged(old(chainIndex)[d])
      ensures SetsOf(old(chainIndex)[c := eps]) == old(SetsOf(chainIndex))[c := eps.Summary()]
    {
    }

    ghost function ItemsOf(c: ChainRef): map<string, Endpoint>
      reads this, chainIndex.Values
    {
      if c in chainIndex then chainIndex[c].items else map[]
    }

    twostate lemma LinksStay(ep: Endpoint, new eps: EndpointSet)
      requires old(Linked(nameIndex, chainIndex)) && ep.name !in old(nameIndex)
      requires forall d :: d in old(chainIndex) && d != ep.chain ==> unchanged(old(chainIndex)[d])
      requires forall d :: d in old(chainIndex) && d != ep.chain ==> old(chainIndex)[d] != eps
      requires eps.items == old(ItemsOf(ep.chain))[ep.name := ep]
      ensures Linked(old(nameIndex)[ep.name := ep], old(chainIndex)[ep.chain := eps])
    {
    }

    /** Puts the endpoint under its name and into the set of its chain, founding the set if there is none. */
    method Index(endpoint: Endpoint) returns (eps: EndpointSet)
      requires Linked(nameIndex, chainIndex)
      modifies this
      modifies if endpoint.chain in chainIndex then {chainIndex[endpoint.chain]} else {}
      ensures nameIndex == old(nameIndex)[endpoint.name := endpoint]
      ensures chainIndex == old(chainIndex)[endpoint.chain := eps]
      ensures eps.items == old(ItemsOf(endpoint.chain))[endpoint.name := endpoint]
      ensures eps.Summary() == Extended(SetOf(old(SetsOf(chainIndex)), endpoint.chain), endpoint.name, endpoint.State())
      ensures if endpoint.chain in old(chainIndex) then eps == old(chainIndex)[endpoint.chain] else fresh(eps)
      ensures forall d :: d in old(chainIndex) && d != endpoint.chain ==> unchanged(old(chainIndex)[d])
      ensures forall d :: d in old(chainIndex) && d != endpoint.chain ==> old(chainIndex)[d] != eps
      ensures forall n :: n in old(nameIndex) ==> unchanged(old(nameIndex)[n])
    {
      LinkedIsKeyed(nameIndex, chainIndex);
      nameIndex := nameIndex[endpoint.name := endpoint];
      if endpoint.chain in chainIndex {
        eps := chainIndex[endpoint.chain];
        eps.Add(endpoint);
      } else {
        eps := new EndpointSet();
        chainIndex := chainIndex[endpoint.chain := eps];
        eps.Add(endpoint);
      }
    }

    method AddNew(endpoint: Endpoint)
      requires Linked(nameIndex, chainIndex) && endpoint.name !in nameIndex
      modifies this, chainIndex.Values
      ensures nameIndex == old(nameIndex)[endpoint.name := endpoint]
      ensures Facts() == old(Facts())[endpoint.name := endpoint.State()]
      ensures SetsOf(chainIndex) == WithNewcomer(old(SetsOf(chainIndex)), endpoint)
      ensures Linked(nameIndex, chainIndex)
      ensures SetsKept()
    {
      var eps := Index(endpoint);
      FactsStay();
      SetsStay(endpoint.chain, eps);
      LinksStay(endpoint, eps);
      FactsOfAdded(old(nameIndex), endpoint.name, endpoint);
    }

    /**
     Registers an endpoint under a new name. Names and weights stay what a recomputation gives. The tip of a chain
     is right afterwards exactly when it was before and the endpoint brings no head above it, because adding never
     looks at the tip.
     */
    method Add(endpoint: Endpoint) returns (added: bool)
      requires Sound()
      modifies this, chainIndex.Values
      ensures added == (endpoint.name !in old(nameIndex))
      ensures nameIndex == if added then old(nameIndex)[endpoint.name := endpoint] else old(nameIndex)
      ensures Facts() == if added then old(Facts())[endpoint.name := endpoint.State()] else old(Facts())
      ensures Sound()
      ensures RightTips() == old(RightTips()) - if added then Outrun(old(Facts()), endpoint.State()) else iset{}
      ensures SetsKept()
    {
      if endpoint.name in nameIndex {
        return false;
      }
      ghost var f, d := Facts(), SetsOf(chainIndex);
      AddNew(endpoint);
      AddAgrees(f, d, endpoint.name, endpoint.State());
      return true;
    }

    /**
     Registers every configured endpoint, in any order. A configuration with a chain that does not parse or is
     not supported makes it panic (`ok` is false); what was registered before the panic stays.
     */
    method LoadFromConfig(endpoints: map<string, EndpointConfig>, supported: set<string>) returns (ok: bool)
      requires Sound()
      modifies this, chainIndex.Values
      ensures Sound() && RightTips() == old(RightTips())
      ensures ok <==> forall n :: n in endpoints ==> OnSupportedChain(endpoints[n].chain, supported)
      ensures ok ==> Facts() == Loaded(endpoints, {}, supported) + old(Facts())
    {
      hide Sound, RightTips, Facts, OnSupportedChain, Loaded, Fresh;
      var remaining := endpoints.Keys;
      ghost var f := Facts();
      NothingLoaded(endpoints, supported, f);
      while remaining != {}
        invariant remaining <= endpoints.Keys
        invariant Sound() && RightTips() == old(RightTips())
        invariant SetsKept()
        invariant forall n :: n in endpoints && n !in remaining ==> OnSupportedChain(endpoints[n].chain, supported)
        invariant Facts() == Loaded(endpoints, remaining, supported) + f
        decreases |remaining|
      {
        var n :| n in remaining;
        LoadableMeans(endpoints[n], supported);
        if !Loadable(endpoints[n], supported) {
          return false;
        }
        LoadedMore(endpoints, remaining, n, supported, f);
        remaining := remaining - {n};
        AddConfigured(n, endpoints[n]);
      }
      return true;
    }

    method AddConfigured(n: string, config: EndpointConfig)
      requires Sound() && ChainRefs.ParseChain(config.chain).Some?
      modifies this, chainIndex.Values
      ensures Sound() && RightTips() == old(RightTips()) && SetsKept()
      ensures Facts() == if n in old(Facts()) then old(Facts()) else old(Facts())[n := Fresh(config)]
    {
      hide Agrees, Right;
      var ep := new Endpoint(n, config);
      var added := Add(ep);
    }

    // ----- Statuses -----

    /** One endpoint changed, and of its set no more than what is derived. */
    twostate lemma OneChanged(ep: Endpoint)
      requires nameIndex == old(nameIndex) && chainIndex == old(chainIndex)
      requires old(Linked(nameIndex, chainIndex)) && old(Indexed(ep))
      requires chainIndex[ep.chain].items == old(chainIndex[ep.chain].items)
      requires forall n :: n in nameIndex && nameIndex[n] != ep ==> unchanged(nameIndex[n])
      requires forall c :: c in chainIndex && c != ep.chain ==> unchanged(chainIndex[c])
      ensures Facts() == old(Facts())[ep.name := ep.State()]
      ensures chainIndex[ep.chain].View() == old(chainIndex[ep.chain].View())[ep.name := ep.State()]
      ensures SetsOf(chainIndex) == old(SetsOf(chainIndex))[ep.chain := chainIndex[ep.chain].Summary()]
      ensures Linked(nameIndex, chainIndex)
    {
      hide SetsOf, FactsOf;
      FactsChange(ep);
      SetsStay(ep.chain, chainIndex[ep.chain]);
      assert chainIndex == old(chainIndex)[ep.chain := chainIndex[ep.chain]];
      ViewChange(ep);
    }

    twostate lemma ViewChange(ep: Endpoint)
      requires nameIndex == old(nameIndex) && chainIndex == old(chainIndex)
      requires old(Linked(nameIndex, chainIndex)) && old(Indexed(ep))
      requires chainIndex[ep.chain].items == old(chainIndex[ep.chain].items)
      requires forall n :: n in nameIndex && nameIndex[n] != ep ==> unchanged(nameIndex[n])
      ensures chainIndex[ep.chain].View() == old(chainIndex[ep.chain].View())[ep.name := ep.State()]
    {
      var items := chainIndex[ep.chain].items;
      forall n | n in items && n != ep.name ensures items[n].State() == old(items[n].State()) {
        assert nameIndex[n] == items[n];
      }
    }

    twostate lemma FactsChange(ep: Endpoint)
      requires nameIndex == old(nameIndex) && Registered(ep)
      requires forall n :: n in nameIndex ==> nameIndex[n].name == n
      requires forall n :: n in nameIndex && nameIndex[n] != ep ==> unchanged(nameIndex[n])
      ensures Facts() == old(Facts())[ep.name := ep.State()]
    {
    }

    ghost predicate Registered(ep: Endpoint)
      reads this
    {
      ep.name in nameIndex && nameIndex[ep.name] == ep
    }

    /** The endpoint is where both indexes say it is. */
    ghost predicate Indexed(ep: Endpoint)
      reads this, chainIndex.Values
    {
      && Registered(ep)
      && ep.chain in chainIndex
      && ep.name in chainIndex[ep.chain].items && chainIndex[ep.chain].items[ep.name] == ep
    }

    lemma RegisteredIsIndexed(ep: Endpoint)
      requires Sound() && Registered(ep)
      ensures Indexed(ep)
    {
      var f := Facts();
      assert f[ep.name].chain == ep.chain;
      ViewIsMembers(ep.chain);
      assert ep.name in Members(f, ep.chain);
    }

    /**
     The two indexes agree: a name is in a chain's set exactly when it is registered with an endpoint of that
     chain, under the same object; and every row of the chain's table names an item of the set, so no lookup
     by a drawn name can fail. No tip has to be right for that.
     */
    lemma IndexesAgree(n: string, c: ChainRef)
      requires Sound()
      ensures c in chainIndex && n in chainIndex[c].items <==> n in nameIndex && nameIndex[n].chain == c
      ensures c in chainIndex && n in chainIndex[c].items ==> chainIndex[c].items[n] == nameIndex[n]
      ensures c in chainIndex ==>
                forall i :: 0 <= i < |chainIndex[c].weights| ==> chainIndex[c].weights[i].epName in chainIndex[c].items
    {
      if n in nameIndex {
        RegisteredIsIndexed(nameIndex[n]);
      }
      if c in chainIndex {
        ViewIsMembers(c);
        var s := chainIndex[c];
        forall i | 0 <= i < |s.weights| ensures s.weights[i].epName in s.items {
          assert ExactRow(s.weights, i, s.View());
        }
        assert n in s.items ==> n in Members(Facts(), c);
      }
    }

    /** A health flip: the field is set and the chain's weight table rebuilt. */
    method FlipHealth(ep: Endpoint, eps: EndpointSet, healthy: bool)
      requires Linked(nameIndex, chainIndex) && Indexed(ep) && eps == chainIndex[ep.chain] && eps.Keyed()
      modifies ep`healthy, eps`weights
      ensures ep.healthy == healthy
      ensures nameIndex == old(nameIndex) && chainIndex == old(chainIndex)
      ensures Facts() == old(Facts())[ep.name := ep.State()]
      ensures eps.Tabled() && eps.View() == old(eps.View())[ep.name := ep.State()]
      ensures SetsOf(chainIndex) == old(SetsOf(chainIndex))[ep.chain := eps.Summary()]
      ensures Linked(nameIndex, chainIndex)
    {
      ep.healthy := healthy;
      eps.ResetWeights();
      OneChanged(ep);
    }

    /**
     A new head: a falling head makes the set rescan for its tip, any other can only raise the tip.
     A stored tip that is right stays right, and a rescan makes it right.
     */
    method MoveHead(ep: Endpoint, eps: EndpointSet, block: Block)
      requires Linked(nameIndex, chainIndex) && Indexed(ep) && eps == chainIndex[ep.chain]
      modifies ep`blockhead, eps`maxTipHeight
      ensures ep.blockhead == Some(block)
      ensures nameIndex == old(nameIndex) && chainIndex == old(chainIndex)
      ensures Facts() == old(Facts())[ep.name := ep.State()]
      ensures eps.View() == old(eps.View())[ep.name := ep.State()]
      ensures old(IsTip(eps.View(), eps.maxTipHeight)) || Falls(old(ep.blockhead), Some(block)) ==>
                IsTip(eps.View(), eps.maxTipHeight)
      ensures Moved(old(eps.View()), ep.name, ep.State(), old(eps.maxTipHeight), eps.maxTipHeight)
      ensures SetsOf(chainIndex) == old(SetsOf(chainIndex))[ep.chain := eps.Summary()]
      ensures Linked(nameIndex, chainIndex)
    {
      ghost var view, tip := eps.View(), eps.maxTipHeight;
      var heightChanged := false;
      if ep.blockhead.Some? && ep.blockhead.value.height > block.height {
        heightChanged := true;
      }
      ep.blockhead := Some(block);
      if heightChanged {
        eps.ResetMaxTipHeight();
      } else if eps.maxTipHeight < block.height {
        eps.maxTipHeight := block.height;
      }
      OneChanged(ep);
      if !heightChanged && IsTip(view, tip) {
        TipWith(view, ep.name, ep.State(), tip);
      }
    }

    /** The first half of an update: take over the health. No tip depends on it. */
    method UpdateHealth(ep: Endpoint, eps: EndpointSet, healthy: bool)
      requires Sound() && Indexed(ep) && eps == chainIndex[ep.chain]
      modifies ep`healthy, eps`weights
      ensures Sound() && ep.healthy == healthy
      ensures Facts() == old(Facts())[ep.name := ep.State()]
      ensures RightTips() == old(RightTips())
      ensures forall b :: Mending(Facts(), ep.name, b) == Mending(old(Facts()), ep.name, b)
    {
      hide Agrees, Mending, Right;
      if healthy != ep.healthy {
        LinkedIsKeyed(nameIndex, chainIndex);
        ViewIsMembers(ep.chain);
        ghost var f, d := Facts(), SetsOf(chainIndex);
        FlipHealth(ep, eps, healthy);
        HealthAgrees(f, d, ep.name, ep.State(), eps.weights);
      } else {
        assert Facts()[ep.name] == ep.State();
      }
    }

    /** The second half: take over a head, if there is one. */
    method UpdateHead(ep: Endpoint, eps: EndpointSet, head: Option<Block>)
      requires Sound() && Indexed(ep) && eps == chainIndex[ep.chain]
      modifies ep`blockhead, eps`maxTipHeight
      ensures Sound() && ep.blockhead == if head.Some? then head else old(ep.blockhead)
      ensures Facts() == old(Facts())[ep.name := ep.State()]
      ensures RightTips() == old(RightTips()) + Mending(old(Facts()), ep.name, head)
    {
      hide Agrees, Right;
      if head.Some? {
        ViewIsMembers(ep.chain);
        ghost var f, d := Facts(), SetsOf(chainIndex);
        MoveHead(ep, eps, head.value);
        HeadAgrees(f, d, ep.name, ep.State(), eps.maxTipHeight);
      } else {
        assert Facts()[ep.name] == ep.State();
      }
    }

    method UpdateBoth(ep: Endpoint, eps: EndpointSet, cs: ChainStatus)
      requires Sound() && Indexed(ep) && eps == chainIndex[ep.chain]
      modifies ep, eps
      ensures nameIndex == old(nameIndex) && chainIndex == old(chainIndex)
      ensures Sound() && ep.State() == Updated(old(ep.State()), cs)
      ensures Facts() == old(Facts())[ep.name := ep.State()]
      ensures RightTips() == old(RightTips()) + Mending(old(Facts()), ep.name, cs.blockhead)
    {
      hide Agrees, Mending, Right;
      ghost var f := Facts();
      UpdateHealth(ep, eps, cs.healthy);
      ghost var e := ep.State();
      UpdateHead(ep, eps, cs.blockhead);
      Overwritten(f, ep.name, e, ep.State());
    }

    /** What a status may touch: the endpoint it names and the one set that holds it. */
    ghost function Touched(n: string): set<object>
      reads this
    {
      if n in nameIndex && nameIndex[n].chain in chainIndex then {nameIndex[n], chainIndex[nameIndex[n].chain]} else {}
    }

    /**
     Applies one status. A status for an unknown name changes nothing. For a known one names and weights agree with
     a recomputation again, the set of its chain is always found, and no other is touched. The tip of a chain is
     right afterwards exactly when it was before or the status mends it.
     */
    method UpdateStatus(cs: ChainStatus)
      requires Sound()
      modifies Touched(cs.endpointName)
      ensures nameIndex == old(nameIndex) && chainIndex == old(chainIndex)
      ensures Sound() && Facts() == Apply(old(Facts()), cs)
      ensures RightTips() == old(RightTips()) + Mending(old(Facts()), cs.endpointName, cs.blockhead)
    {
      if cs.endpointName !in nameIndex {
        return;
      }
      var ep := nameIndex[cs.endpointName];
      assert Facts()[cs.endpointName] == ep.State() && ep.name == cs.endpointName;
      RegisteredIsIndexed(ep);
      if ep.chain in chainIndex {
        UpdateBoth(ep, chainIndex[ep.chain], cs);
      } else {
        assert false;
      }
    }

    method Deliver(statuses: seq<ChainStatus>, i: nat)
      requires Sound() && i < |statuses|
      modifies nameIndex.Values, chainIndex.Values
      ensures nameIndex == old(nameIndex) && chainIndex == old(chainIndex)
      ensures Sound() && Replay(Facts(), statuses[i + 1..]) == Replay(old(Facts()), statuses[i..])
      ensures RightTips() + Mended(Facts(), statuses[i + 1..]) == old(RightTips()) + Mended(old(Facts()), statuses[i..])
    {
      hide Agrees, Mending, Right;
      RunStep(Facts(), statuses, i);
      UpdateStatus(statuses[i]);
    }

    /** The updater: applies whatever arrives, in order. Tips that are right stay right, others wait to be mended. */
    method RunUpdator(statuses: seq<ChainStatus>)
      requires Sound()
      modifies nameIndex.Values, chainIndex.Values
      ensures nameIndex == old(nameIndex) && chainIndex == old(chainIndex)
      ensures Sound() && Facts() == Replay(old(Facts()), statuses)
      ensures RightTips() == old(RightTips()) + Mended(old(Facts()), statuses)
    {
      ghost var goal := Replay(Facts(), statuses);
      hide Agrees, Right;
      ghost var right := RightTips() + Mended(Facts(), statuses);
      for i := 0 to |statuses|
        invariant nameIndex == old(nameIndex) && chainIndex == old(chainIndex)
        invariant Sound()
        invariant Replay(Facts(), statuses[i..]) == goal
        invariant RightTips() + Mended(Facts(), statuses[i..]) == right
      {
        Deliver(statuses, i);
      }
    }

    // ----- Selection -----

    /** The endpoint that the chain's weighted draw comes up with. */
    function Drawn(c: ChainRef, seed: nat): Option<string>
      reads this, chainIndex.Values
    {
      if c in chainIndex then Draw(chainIndex[c].weights, seed) else None
    }

    /**
     Nothing is selected only if there is nothing to select; what is selected is one of `names`, and it is the
     drawn one if that is among them.
     */
    ghost predicate Selected(ep: Endpoint?, names: set<string>, drawn: Option<string>)
      reads this
    {
      && (ep == null <==> names == {})
      && (ep != null ==> Registered(ep) && ep.name in names)
      && (ep != null && drawn.Some? && drawn.value in names ==> ep.name == drawn.value)
    }

    /** An endpoint that is there for the request, spelled out, and null only if there is none. */
    ghost predicate Found(ep: Endpoint?, c: ChainRef, rpc: string, height: int, websocket: bool)
      reads this, nameIndex.Values
    {
      if ep != null then Registered(ep) && Offers(Facts(), ep.name, c, rpc, height, websocket)
      else forall n :: !Offers(Facts(), n, c, rpc, height, websocket)
    }

    lemma SelectedIsFound(ep: Endpoint?, c: ChainRef, rpc: string, height: int, websocket: bool, drawn: Option<string>)
      requires var f := Facts();
               Selected(ep, if websocket then UsableSocket(f, c, rpc, height) else Usable(f, c, rpc, height), drawn)
      ensures Found(ep, c, rpc, height, websocket)
    {
      UsableAreOffers(Facts(), c, rpc, height);
    }

    /** Of the random numbers below the limit as many draw an endpoint as its configured weight says. */
    lemma DrawnByWeight(c: ChainRef, n: string)
      requires Sound() && n in nameIndex && nameIndex[n].chain == c
      ensures c in chainIndex && chainIndex[c].Tabled()
      ensures var ep, limit := nameIndex[n], Limit(chainIndex[c].weights);
              var seeds := set seed | 0 <= seed < limit && Drawn(c, seed) == Some(n);
              && (ep.healthy && ep.config.weight > 0 ==> |seeds| == ep.config.weight)
              && (ep.healthy && ep.config.weight <= 0 ==> |seeds| == 100)
              && (!ep.healthy ==> seeds == {})
    {
      RegisteredIsIndexed(nameIndex[n]);
      ViewIsMembers(c);
      var t := chainIndex[c].weights;
      assert Facts()[n] == nameIndex[n].State() && n in Members(Facts(), c);
      DrawsAreExact(t, Members(Facts(), c), n);
      assert DrawsFor(t, n) == set seed | 0 <= seed < Limit(t) && Drawn(c, seed) == Some(n);
    }

    ghost function StoredTip(c: ChainRef): int
      reads this, chainIndex.Values
    {
      if c in chainIndex then chainIndex[c].maxTipHeight else 0
    }

    /** The height that a selection asks for. */
    ghost function HeightFor(c: ChainRef, heightSpec: int): int
      reads this, chainIndex.Values
    {
      CountBack(StoredTip(c), heightSpec)
    }

    /** Where the stored tip is right, and nowhere else, all heights are resolved as they should be. */
    lemma HeightIsResolved(c: ChainRef)
      requires Sound()
      ensures c in RightTips() <==> forall h :: HeightFor(c, h) == ResolvedHeight(Facts(), c, h)
    {
      SetOfAgrees(Facts(), SetsOf(chainIndex), c);
      if c in chainIndex {
        assert SetsOf(chainIndex)[c] == chainIndex[c].Summary();
      }
      assert HeightFor(c, 0) == StoredTip(c);
    }

    /** Some endpoint of the chain that serves the method has its head at the stored tip, or the stored tip is 0. */
    ghost predicate TipServed(c: ChainRef, rpc: string)
      reads this, nameIndex.Values, chainIndex.Values
    {
      exists n :: n in Servers(Facts(), c, rpc) && (StoredTip(c) == 0 || Holds(Members(Facts(), c), n, StoredTip(c)))
    }

    /**
     Right or not, a positive stored tip is some endpoint's head; if such an endpoint serves the method, counting
     back from the stored tip by any allowance finds somebody.
     */
    lemma StoredTipIsReachable(c: ChainRef, rpc: string, heightSpec: int)
      requires Sound()
      ensures StoredTip(c) > 0 ==> exists n :: Holds(Members(Facts(), c), n, StoredTip(c))
      ensures heightSpec <= 0 && TipServed(c, rpc) ==> Usable(Facts(), c, rpc, HeightFor(c, heightSpec)) != {}
    {
      SetOfAgrees(Facts(), SetsOf(chainIndex), c);
      assert Held(Members(Facts(), c), StoredTip(c));
      if heightSpec <= 0 {
        TipIsReachable(Facts(), c, rpc, heightSpec, StoredTip(c));
      }
    }

    /** What a set holds and what a recomputation finds usable are the same. */
    lemma SetIsUsable(c: ChainRef, rpc: string, minHeight: int)
      requires Sound()
      ensures c !in chainIndex ==> Usable(Facts(), c, rpc, minHeight) == {}
      ensures c in chainIndex ==>
                && chainIndex[c].Tabled()
                && (forall n :: n in chainIndex[c].items ==> n in nameIndex && nameIndex[n] == chainIndex[c].items[n])
                && chainIndex[c].Suited(rpc, minHeight, false) == Usable(Facts(), c, rpc, minHeight)
                && chainIndex[c].Suited(rpc, minHeight, true) == UsableSocket(Facts(), c, rpc, minHeight)
    {
      var f := Facts();
      if c in chainIndex {
        ViewIsMembers(c);
        var v := chainIndex[c].View();
        forall n ensures n in Usable(f, c, rpc, minHeight) <==> n in chainIndex[c].Suited(rpc, minHeight, false) {
          assert n in v <==> n in Members(f, c);
        }
        forall n ensures n in UsableSocket(f, c, rpc, minHeight) <==> n in chainIndex[c].Suited(rpc, minHeight, true) {
          assert n in v <==> n in Members(f, c);
        }
      } else {
        assert forall n :: n in f ==> f[n].chain in SetsOf(chainIndex);
      }
    }

    /** A choice from the set of a chain is a selection among what is usable. */
    method ChooseFrom(c: ChainRef, eps: EndpointSet, rpc: string, height: int, websocket: bool, seed: nat)
      returns (ep: Endpoint?)
      requires Sound() && c in chainIndex && chainIndex[c] == eps
      ensures Selected(ep, if websocket then UsableSocket(Facts(), c, rpc, height) else Usable(Facts(), c, rpc, height),
                       Drawn(c, seed))
      ensures Found(ep, c, rpc, height, websocket)
    {
      hide Agrees, Found;
      SetIsUsable(c, rpc, height);
      ep := eps.Choose(rpc, height, websocket, seed);
      SelectedIsFound(ep, c, rpc, height, websocket, Drawn(c, seed));
    }

    lemma NothingUsable(c: ChainRef, rpc: string, height: int)
      requires Sound() && c !in chainIndex
      ensures Usable(Facts(), c, rpc, height) == {} && UsableSocket(Facts(), c, rpc, height) == {}
      ensures forall websocket :: Found(null, c, rpc, height, websocket)
    {
      SetIsUsable(c, rpc, height);
      UsableAreOffers(Facts(), c, rpc, height);
    }

    /** Some endpoint of the chain that serves the method, at any height. */
    method Select(chain: ChainRef, rpc: string, seed: nat) returns (ep: Endpoint?)
      requires Sound()
      ensures Selected(ep, Usable(Facts(), chain, rpc, 0), Drawn(chain, seed))
      ensures Found(ep, chain, rpc, 0, false)
    {
      if chain in chainIndex {
        ep := ChooseFrom(chain, chainIndex[chain], rpc, 0, false, seed);
        return;
      }
      NothingUsable(chain, rpc, 0);
      return null;
    }

    /**
     Sound and complete for every draw: an endpoint of the chain available at the asked height, if there is one.
     Where the stored tip is right that is the height counted back from the tip. Right or not, counting back finds
     somebody if a holder of the stored tip serves the method.
     */
    method SelectOverHeight(chain: ChainRef, rpc: string, heightSpec: int, seed: nat) returns (ep: Endpoint?)
      requires Sound()
      ensures Selected(ep, Usable(Facts(), chain, rpc, HeightFor(chain, heightSpec)), Drawn(chain, seed))
      ensures Found(ep, chain, rpc, if heightSpec > 0 then heightSpec else StoredTip(chain) + heightSpec, false)
      ensures chain in RightTips() ==> HeightFor(chain, heightSpec) == ResolvedHeight(Facts(), chain, heightSpec)
      ensures heightSpec <= 0 && TipServed(chain, rpc) ==> ep != null
    {
      StoredTipIsReachable(chain, rpc, heightSpec);
      HeightIsResolved(chain);
      if chain in chainIndex {
        var eps := chainIndex[chain];
        var height := heightSpec;
        if heightSpec <= 0 {
          height := eps.maxTipHeight + heightSpec;
        }
        ep := ChooseFrom(chain, eps, rpc, height, false, seed);
        return;
      }
      NothingUsable(chain, rpc, HeightFor(chain, heightSpec));
      return null;
    }

    /** As above among the endpoints with a websocket, but here zero is no check rather than the tip. */
    method SelectWebsocketEndpoint(chain: ChainRef, rpc: string, heightSpec: int, seed: nat) returns (ep: Endpoint?)
      requires Sound()
      ensures var height := if heightSpec == 0 then 0 else HeightFor(chain, heightSpec);
              Selected(ep, UsableSocket(Facts(), chain, rpc, height), Drawn(chain, seed))
      ensures Found(ep, chain, rpc, if heightSpec >= 0 then heightSpec else StoredTip(chain) + heightSpec, true)
      ensures chain in RightTips() ==> HeightFor(chain, heightSpec) == ResolvedHeight(Facts(), chain, heightSpec)
    {
      HeightIsResolved(chain);
      if chain in chainIndex {
        var eps := chainIndex[chain];
        var height := heightSpec;
        if heightSpec < 0 {
          height := eps.maxTipHeight + heightSpec;
        }
        ep := ChooseFrom(chain, eps, rpc, height, true, seed);
        return;
      }
      NothingUsable(chain, rpc, if heightSpec == 0 then 0 else HeightFor(chain, heightSpec));
      return null;
    }

    /** Every endpoint of the chain available at the height as given, once each; a height below zero is not resolved. */
    method AllHealthyEndpoints(chain: ChainRef, rpc: string, height: int) returns (eps: seq<Endpoint>)
      requires Sound()
      ensures forall ep :: ep in eps ==> Registered(ep)
      ensures Lists(eps, Usable(Facts(), chain, rpc, height))
      ensures forall n :: n in NamesOf(eps) <==> Offers(Facts(), n, chain, rpc, height, false)
    {
      SetIsUsable(chain, rpc, height);
      if chain in chainIndex {
        eps := chainIndex[chain].AllSuited(rpc, height);
      } else {
        eps := [];
      }
      ListsAll(eps, Usable(Facts(), chain, rpc, height));
      UsableAreOffers(Facts(), chain, rpc, height);
    }

    /** The cache keys of exactly the endpoints that a selection for the same height could return. */
    method RequestCacheKeys(chain: ChainRef, request: Request, prefix: string, heightSpec: int)
      returns (keys: seq<CacheKey>)
      requires Sound()
      ensures forall k :: k in keys <==>
                exists n :: n in Usable(Facts(), chain, request.rpc, HeightFor(chain, heightSpec))
                            && k == KeyFor(prefix, n, request)
      ensures var height := if heightSpec > 0 then heightSpec else StoredTip(chain) + heightSpec;
              forall k :: k in keys <==>
                exists n :: Offers(Facts(), n, chain, request.rpc, height, false)
                            && k == CacheKey(prefix + n + "/", request)
      ensures chain in RightTips() ==> HeightFor(chain, heightSpec) == ResolvedHeight(Facts(), chain, heightSpec)
    {
      hide Offers, Usable, UsableSocket, KeyFor, RightTips, ResolvedHeight;
      HeightIsResolved(chain);
      if chain in chainIndex {
        var eps := chainIndex[chain];
        var height := heightSpec;
        if heightSpec <= 0 {
          height := eps.maxTipHeight + heightSpec;
        }
        SetIsUsable(chain, request.rpc, height);
        keys := eps.CacheKeys(request, prefix, height);
      } else {
        NothingUsable(chain, request.rpc, HeightFor(chain, heightSpec));
        keys := [];
      }
      KeysOfOffers(Facts(), chain, prefix, request, HeightFor(chain, heightSpec), keys);
    }

    /**
     Tiered relay: an endpoint over the asked height if there is one; if there is none and the height was an
     absolute one, an endpoint within two blocks of the tip; else not available, which is null here.
     */
    method DefaultRelay(chain: ChainRef, rpc: string, overHeight: int, seed: nat, seedBelow: nat)
      returns (ep: Endpoint?)
      requires Sound()
      ensures var over := Usable(Facts(), chain, rpc, HeightFor(chain, overHeight));
              if over == {} && overHeight > 0
              then Selected(ep, Usable(Facts(), chain, rpc, HeightFor(chain, -2)), Drawn(chain, seedBelow))
              else Selected(ep, over, Drawn(chain, seed))
      ensures if overHeight > 0
              then (ep != null && Found(ep, chain, rpc, overHeight, false))
                   || (Found(null, chain, rpc, overHeight, false) && Found(ep, chain, rpc, StoredTip(chain) - 2, false))
              else Found(ep, chain, rpc, StoredTip(chain) + overHeight, false)
      ensures chain in RightTips() ==> forall h :: HeightFor(chain, h) == ResolvedHeight(Facts(), chain, h)
      decreases overHeight > 0
    {
      hide Found, Usable, RightTips, ResolvedHeight, Sound;
      HeightIsResolved(chain);
      ep := SelectOverHeight(chain, rpc, overHeight, seed);
      if ep == null && overHeight > 0 {
        ep := DefaultRelay(chain, rpc, -2, seedBelow, seedBelow);
      }
    }
  }

  /** The keys of what is usable, spelled out. */
  lemma KeysOfOffers(f: Fleet, c: ChainRef, prefix: string, request: Request, height: int, keys: seq<CacheKey>)
    requires forall k :: k in keys <==>
               exists n :: n in Usable(f, c, request.rpc, height) && k == KeyFor(prefix, n, request)
    ensures forall k :: k in keys <==>
              exists n :: Offers(f, n, c, request.rpc, height, false) && k == CacheKey(prefix + n + "/", request)
  {
    UsableAreOffers(f, c, request.rpc, height);
  }

  /** Can this endpoint be loaded, that is, does its chain parse and is the chain's namespace supported? */
  predicate Loadable(config: EndpointConfig, supported: set<string>) {
    ChainRefs.ParseChain(config.chain).Some? && ChainRefs.ParseChain(config.chain).value.ns in supported
  }

  /** The text begins with a supported namespace and the slash behind it. */
  ghost predicate OnSupportedChain(chain: string, supported: set<string>) {
    exists ns :: ns in supported && '/' !in ns && ns + "/" <= chain
  }

  lemma LoadableMeans(config: EndpointConfig, supported: set<string>)
    ensures Loadable(config, supported) <==> OnSupportedChain(config.chain, supported)
  {
    ChainRefs.ParseThenPrint(config.chain);
    if Loadable(config, supported) {
      var c := ChainRefs.ParseChain(config.chain).value;
      assert c.ns + "/" + c.network == config.chain;
      assert c.ns + "/" <= config.chain;
    }
    if ns :| ns in supported && '/' !in ns && ns + "/" <= config.chain {
      var network := config.chain[|ns| + 1..];
      assert config.chain == ns + "/" + network;
      ChainRefs.PrintThenParse(ChainRef(ns, network));
    }
  }

  /** The configured endpoints without those still to come: all healthy, none with a head. */
  function Loaded(endpoints: map<string, EndpointConfig>, remaining: set<string>, supported: set<string>): Fleet {
    map n | n in endpoints && n !in remaining && Loadable(endpoints[n], supported) :: Fresh(endpoints[n])
  }

  lemma NothingLoaded(endpoints: map<string, EndpointConfig>, supported: set<string>, f: Fleet)
    ensures Loaded(endpoints, endpoints.Keys, supported) + f == f
  {
  }

  lemma LoadedMore(endpoints: map<string, EndpointConfig>, remaining: set<string>, n: string, supported: set<string>,
                   f: Fleet)
    requires n in endpoints && n in remaining && Loadable(endpoints[n], supported)
    ensures var sofar := Loaded(endpoints, remaining, supported) + f;
            Loaded(endpoints, remaining - {n}, supported) + f ==
            if n in sofar then sofar else sofar[n := Fresh(endpoints[n])]
  {
  }

  /** What the configuration says of an endpoint, spelled out. */
  ghost predicate AsConfigured(e: EndpointState, config: EndpointConfig) {
    && e.chain.ns + "/" + e.chain.network == config.chain && '/' !in e.chain.ns
    && e.weight == config.weight
    && (e.websocket <==> "wss://" <= config.streamingUrl || "ws://" <= config.streamingUrl)
    && (forall rpc :: rpc in e.skip <==> rpc in config.skipMethods)
  }

  lemma LoadedAsConfigured(endpoints: map<string, EndpointConfig>, supported: set<string>, ss: seq<ChainStatus>)
    ensures var f := Settled(Loaded(endpoints, {}, supported), ss);
            && (forall n :: n in f <==> n in endpoints && OnSupportedChain(endpoints[n].chain, supported))
            && (forall n :: n in f ==> AsConfigured(f[n], endpoints[n]))
  {
    hide OnSupportedChain;
    var f := Settled(Loaded(endpoints, {}, supported), ss);
    forall n | n in endpoints
      ensures n in f <==> OnSupportedChain(endpoints[n].chain, supported)
      ensures n in f ==> AsConfigured(f[n], endpoints[n])
    {
      LoadableMeans(endpoints[n], supported);
      ChainRefs.ParseThenPrint(endpoints[n].chain);
    }
  }

  /**
   A freshly loaded gateway after any run: an endpoint has the chain, weight, websocket and skipped methods of its
   configuration; it is as healthy as its last status says, healthy if there is none; its head is that of its last
   status with one; the tip of a chain is the maximum of 0 and these.
   */
  lemma RunFromFresh(endpoints: map<string, EndpointConfig>, supported: set<string>, ss: seq<ChainStatus>, c: ChainRef)
    ensures var f := Replay(Loaded(endpoints, {}, supported), ss);
            && (forall n :: n in f <==> n in endpoints && OnSupportedChain(endpoints[n].chain, supported))
            && (forall n :: n in f ==> AsConfigured(f[n], endpoints[n]))
            && (forall n :: n in f ==> f[n].healthy == (LastStatus(ss, n).None? || LastStatus(ss, n).value.healthy))
            && (forall n :: n in f ==> f[n].head == LastHead(ss, n))
            && (forall n :: n in f && f[n].chain == c && LastHead(ss, n).Some? ==>
                              LastHead(ss, n).value.height <= Tip(f, c))
            && (Tip(f, c) > 0 ==>
                  exists n :: Holds(Members(f, c), n, Tip(f, c)) && LastHead(ss, n) == f[n].head)
  {
    hide OnSupportedChain, AsConfigured;
    ReplaySettles(Loaded(endpoints, {}, supported), ss);
    LoadedAsConfigured(endpoints, supported, ss);
    var f := Replay(Loaded(endpoints, {}, supported), ss);
    var v := Members(f, c);
    forall n | n in f && f[n].chain == c && LastHead(ss, n).Some? ensures LastHead(ss, n).value.height <= Tip(f, c) {
      assert n in v && v[n].head == LastHead(ss, n);
    }
    if Tip(f, c) > 0 {
      var n :| Holds(v, n, Tip(f, c));
      assert v[n].head == LastHead(ss, n);
    }
  }

  lemma RunStep(f: Fleet, ss: seq<ChainStatus>, i: nat)
    requires i < |ss|
    ensures Replay(f, ss[i..]) == Replay(Apply(f, ss[i]), ss[i + 1..])
    ensures Mended(f, ss[i..]) == Mending(f, ss[i].endpointName, ss[i].blockhead) + Mended(Apply(f, ss[i]), ss[i + 1..])
  {
    assert ss[i..][0] == ss[i] && ss[i..][1..] == ss[i + 1..];
  }
}
