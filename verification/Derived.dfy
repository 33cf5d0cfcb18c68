/**
 What is kept beside the facts, as values: per chain the names in its set, the weight table and the tip.
 `Agrees` is the recomputation that the stored values must equal; the lemmas say how single steps keep it.
 */
module Derived {
  import opened Types
  import opened Fleets
  import opened Replays
  import opened WeightTables

  datatype SetFacts = SetFacts(names: set<string>, weights: Table, tip: int)

  type Sets = map<ChainRef, SetFacts>

  /** Names and weights are what a recomputation gives; the tip is at least some head of the chain, or 0. */
  ghost predicate AgreesAt(f: Fleet, c: ChainRef, s: SetFacts) {
    && s.names == Members(f, c).Keys
    && Exact(s.weights, Members(f, c))
    && Held(Members(f, c), s.tip)
  }

  ghost predicate Agrees(f: Fleet, d: Sets) {
    && (forall n :: n in f ==> f[n].chain in d)
    && (forall c :: c in d ==> AgreesAt(f, c, d[c]))
  }

  /** The chains whose stored tip, if there is one, is what a recomputation gives. */
  ghost function Right(f: Fleet, d: Sets): iset<ChainRef> {
    iset c | c in d ==> d[c].tip == Tip(f, c)
  }

  /** What a set looks like after a new endpoint went in: a row if healthy, the tip untouched. */
  function Extended(s: SetFacts, n: string, e: EndpointState): SetFacts {
    SetFacts(s.names + {n}, Appended(s.weights, n, e), s.tip)
  }

  function SetOf(d: Sets, c: ChainRef): SetFacts {
    if c in d then d[c] else SetFacts({}, [], 0)
  }

  /** A set that was never created is as good as an empty one, and its tip is right. */
  lemma SetOfAgrees(f: Fleet, d: Sets, c: ChainRef)
    requires Agrees(f, d)
    ensures AgreesAt(f, c, SetOf(d, c))
    ensures c !in d ==> Tip(f, c) == 0
  {
    if c !in d {
      assert Members(f, c) == map[];
      TipUnique(map[], 0, Tip(f, c));
    }
  }

  lemma MembersOfUpdate(f: Fleet, n: string, e: EndpointState)
    requires n !in f || f[n].chain == e.chain
    ensures Members(f[n := e], e.chain) == Members(f, e.chain)[n := e]
    ensures forall d :: d != e.chain ==> Members(f[n := e], d) == Members(f, d)
  {
  }

  // ----- Tips -----

  /** A tip raised to a head, if that is higher. */
  function Raised(t: int, head: Option<Block>): int {
    if head.Some? && t < head.value.height then head.value.height else t
  }

  predicate Falls(from: Option<Block>, to: Option<Block>) {
    from.Some? && (to.None? || to.value.height < from.value.height)
  }

  lemma NoHeadAboveTip(f: Fleet, n: string)
    requires n in f
    ensures Raised(Tip(f, f[n].chain), f[n].head) == Tip(f, f[n].chain)
  {
    assert n in Members(f, f[n].chain);
  }

  lemma OtherTips(f: Fleet, n: string, e: EndpointState, c: ChainRef)
    requires n !in f || f[n].chain == e.chain
    requires c != e.chain
    ensures Tip(f[n := e], c) == Tip(f, c)
  {
    MembersOfUpdate(f, n, e);
    TipUnique(Members(f, c), Tip(f[n := e], c), Tip(f, c));
  }

  /** A height that is held stays so, raised to a new head, as long as no head falls. */
  lemma HeldWith(v: Fleet, n: string, e: EndpointState, t: int)
    requires Held(v, t)
    requires n in v ==> !Falls(v[n].head, e.head)
    ensures Held(v[n := e], Raised(t, e.head))
    ensures n !in v || v[n].head == e.head ==> Held(v[n := e], t)
  {
    var u := v[n := e];
    if Raised(t, e.head) > t {
      assert Holds(u, n, e.head.value.height);
    }
    if t > 0 {
      var m :| Holds(v, m, t);
      assert Raised(t, e.head) == t ==> Holds(u, m, t);
      assert n !in v || v[n].head == e.head ==> Holds(u, m, t);
    }
  }

  lemma TipIsHeld(v: Fleet, t: int)
    requires IsTip(v, t)
    ensures Held(v, t)
  {
  }

  lemma HeldIsBelow(f: Fleet, c: ChainRef, t: int)
    requires Held(Members(f, c), t)
    ensures t <= Tip(f, c)
  {
    if t > 0 {
      var n :| Holds(Members(f, c), n, t);
    }
  }

  lemma TipWith(v: Fleet, n: string, e: EndpointState, t: int)
    requires IsTip(v, t)
    requires n in v ==> !Falls(v[n].head, e.head)
    ensures IsTip(v[n := e], Raised(t, e.head))
  {
    HeldWith(v, n, e, t);
  }

  /** As long as no head falls, an endpoint that comes or changes raises its chain's tip to its head and that is all. */
  lemma RaisedTip(f: Fleet, n: string, e: EndpointState)
    requires n in f ==> f[n].chain == e.chain && !Falls(f[n].head, e.head)
    ensures Tip(f[n := e], e.chain) == Raised(Tip(f, e.chain), e.head)
    ensures forall c :: c != e.chain ==> Tip(f[n := e], c) == Tip(f, c)
  {
    MembersOfUpdate(f, n, e);
    TipWith(Members(f, e.chain), n, e, Tip(f, e.chain));
    TipUnique(Members(f[n := e], e.chain), Tip(f[n := e], e.chain), Raised(Tip(f, e.chain), e.head));
    forall c | c != e.chain ensures Tip(f[n := e], c) == Tip(f, c) {
      OtherTips(f, n, e, c);
    }
  }

  /** The chain whose tip a reported head mends: it makes the set rescan, or it is nowhere below the tip. */
  ghost function Mending(f: Fleet, n: string, head: Option<Block>): iset<ChainRef> {
    if n in f && head.Some? && (Falls(f[n].head, head) || head.value.height >= Tip(f, f[n].chain)) then iset{f[n].chain}
    else iset{}
  }

  /** The chains whose tips some status of a run mends. */
  ghost function Mended(f: Fleet, ss: seq<ChainStatus>): iset<ChainRef> {
    if ss == [] then iset{}
    else Mending(f, ss[0].endpointName, ss[0].blockhead) + Mended(Apply(f, ss[0]), ss[1..])
  }

  // ----- One set replaced -----

  lemma OthersAgree(f: Fleet, d: Sets, n: string, e: EndpointState, b: ChainRef)
    requires Agrees(f, d) && b in d && b != e.chain
    requires n !in f || f[n].chain == e.chain
    ensures AgreesAt(f[n := e], b, d[b])
  {
    MembersOfUpdate(f, n, e);
    OtherTips(f, n, e, b);
    assert AgreesAt(f, b, d[b]);
  }

  /** Replacing one set after one endpoint came or changed: all that is left to look at is the new set. */
  lemma ChangeAgrees(f: Fleet, d: Sets, n: string, e: EndpointState, s: SetFacts)
    requires Agrees(f, d)
    requires n !in f || f[n].chain == e.chain
    requires AgreesAt(f[n := e], e.chain, s)
    ensures Agrees(f[n := e], d[e.chain := s])
    ensures Right(f[n := e], d[e.chain := s]) ==
            Right(f, d) - iset{e.chain} + if s.tip == Tip(f[n := e], e.chain) then iset{e.chain} else iset{}
  {
    hide AgreesAt, Held, Tip;
    var f', d' := f[n := e], d[e.chain := s];
    forall b | b in d && b != e.chain ensures AgreesAt(f', b, d'[b]) {
      OthersAgree(f, d, n, e, b);
    }
    forall c | c != e.chain ensures c in Right(f', d') <==> c in Right(f, d) {
      OtherTips(f, n, e, c);
    }
    assert d'[e.chain] == s;
  }

  /** The chain whose tip an endpoint exceeds. */
  ghost function Outrun(f: Fleet, e: EndpointState): iset<ChainRef> {
    if e.head.Some? && e.head.value.height > Tip(f, e.chain) then iset{e.chain} else iset{}
  }

  /**
   Adding an endpoint keeps names and weights in agreement whatever head it brings. The tip of its chain is
   right afterwards exactly when it was and the endpoint brings no head above it.
   */
  lemma AddAgrees(f: Fleet, d: Sets, n: string, e: EndpointState)
    requires Agrees(f, d) && n !in f
    ensures var f', d' := f[n := e], d[e.chain := Extended(SetOf(d, e.chain), n, e)];
            && Agrees(f', d')
            && Right(f', d') == Right(f, d) - Outrun(f, e)
  {
    hide Exact, IsTip, Held, Tip;
    var s := SetOf(d, e.chain);
    SetOfAgrees(f, d, e.chain);
    MembersOfUpdate(f, n, e);
    RaisedTip(f, n, e);
    HeldWith(Members(f, e.chain), n, e, s.tip);
    HeldIsBelow(f, e.chain, s.tip);
    AppendToUnlisted(s.weights, Members(f, e.chain), n, e);
    ChangeAgrees(f, d, n, e, Extended(s, n, e));
  }

  /** The one endpoint "lag" with its head as tip, and then "lead", which brings a head of its own. */
  function LagFleet(c: ChainRef, lag: Block): Fleet {
    map["lag" := EndpointState(c, 100, false, {}, true, Some(lag))]
  }

  function LagSets(c: ChainRef, lag: Block): Sets {
    map[c := SetFacts({"lag"}, [Weight("lag", 100)], lag.height)]
  }

  /**
   Adding an endpoint with a head can leave a wrong tip: everything agrees and the tip is right, then a leader is
   added. The stored tip stays where it was, and counting back from it takes a laggard for current.
   */
  lemma AddLeavesTipWrong(c: ChainRef, lag: Block, lead: Block)
    requires lag.height > 0 && lead.height > lag.height + 2
    ensures Agrees(LagFleet(c, lag), LagSets(c, lag)) && c in Right(LagFleet(c, lag), LagSets(c, lag))
    ensures var e := EndpointState(c, 100, false, {}, true, Some(lead));
            var f, s := LagFleet(c, lag)["lead" := e], Extended(LagSets(c, lag)[c], "lead", e);
            && s.tip == lag.height && Tip(f, c) == lead.height && c !in Right(f, map[c := s])
            && "lag" in Usable(f, c, "", CountBack(s.tip, -2))
            && "lag" !in Usable(f, c, "", ResolvedHeight(f, c, -2))
  {
    var f, d, e := LagFleet(c, lag), LagSets(c, lag), EndpointState(c, 100, false, {}, true, Some(lead));
    assert Members(f, c) == f;
    assert Holds(f, "lag", lag.height);
    TipUnique(f, lag.height, Tip(f, c));
    assert Exact(d[c].weights, f) by {
      assert ExactRow(d[c].weights, 0, f);
      assert d[c].weights[0].epName == "lag";
    }
    RaisedTip(f, "lead", e);
  }

  lemma TableIgnoresHeads(t: Table, v: Fleet, n: string, e: EndpointState)
    requires Exact(t, v) && n in v && e.healthy == v[n].healthy && e.weight == v[n].weight
    ensures Exact(t, v[n := e])
  {
    var u := v[n := e];
    assert ExactRows(t, u) by {
      forall i: nat | i < |t| ensures ExactRow(t, i, u) {
        assert ExactRow(t, i, v);
      }
    }
  }

  /** A rebuilt table after a change of health. */
  lemma HealthAgrees(f: Fleet, d: Sets, n: string, e: EndpointState, w: Table)
    requires Agrees(f, d) && n in f && e.chain == f[n].chain && e.head == f[n].head
    requires Exact(w, Members(f, e.chain)[n := e])
    ensures var f', d' := f[n := e], d[e.chain := d[e.chain].(weights := w)];
            Agrees(f', d') && Right(f', d') == Right(f, d)
    ensures forall b :: Mending(f[n := e], n, b) == Mending(f, n, b)
  {
    hide Exact, IsTip, Held, Tip;
    var c := e.chain;
    assert AgreesAt(f, c, d[c]);
    MembersOfUpdate(f, n, e);
    NoHeadAboveTip(f, n);
    HeldWith(Members(f, c), n, e, d[c].tip);
    RaisedTip(f, n, e);
    ChangeAgrees(f, d, n, e, d[c].(weights := w));
  }

  /** The tip to store after a new head: rescanned if the head fell, else the old one raised to it. */
  ghost predicate Moved(v: Fleet, n: string, e: EndpointState, before: int, after: int)
    requires n in v
  {
    if Falls(v[n].head, e.head) then IsTip(v[n := e], after) else after == Raised(before, e.head)
  }

  /** A new tip after a change of head: a tip is right afterwards exactly when it was or the head mends it. */
  lemma HeadAgrees(f: Fleet, d: Sets, n: string, e: EndpointState, t: int)
    requires Agrees(f, d) && n in f && e.chain == f[n].chain && e.healthy == f[n].healthy && e.weight == f[n].weight
    requires e.head.Some? && Moved(Members(f, e.chain), n, e, d[e.chain].tip, t)
    ensures var f', d' := f[n := e], d[e.chain := d[e.chain].(tip := t)];
            Agrees(f', d') && Right(f', d') == Right(f, d) + Mending(f, n, e.head)
  {
    hide Exact, IsTip, Held, Tip;
    var c := e.chain;
    assert AgreesAt(f, c, d[c]);
    MembersOfUpdate(f, n, e);
    TableIgnoresHeads(d[c].weights, Members(f, c), n, e);
    if Falls(f[n].head, e.head) {
      TipUnique(Members(f[n := e], c), t, Tip(f[n := e], c));
      TipIsHeld(Members(f[n := e], c), t);
    } else {
      HeldIsBelow(f, c, d[c].tip);
      HeldWith(Members(f, c), n, e, d[c].tip);
      RaisedTip(f, n, e);
    }
    ChangeAgrees(f, d, n, e, d[c].(tip := t));
  }

  lemma SameHealthKeepsTable(t: Table, v: Fleet, w: Fleet)
    requires SameHealth(v, w) && Exact(t, v)
    ensures Exact(t, w)
  {
    assert forall n :: n in v ==> v[n].(head := None).healthy == w[n].(head := None).healthy
                                  && v[n].(head := None).weight == w[n].(head := None).weight;
    assert ExactRows(t, w) by {
      forall i: nat | i < |t| ensures ExactRow(t, i, w) {
        assert ExactRow(t, i, v);
      }
    }
  }

  /**
   Fleets that differ in heads alone have the same exact weight tables and the same endpoints to offer where no
   height is asked for: this much a catch-up restores even when it loses heads.
   */
  lemma SameHealthSameRouting(f: Fleet, g: Fleet, c: ChainRef, rpc: string, t: Table)
    requires SameHealth(f, g)
    ensures Exact(t, Members(f, c)) <==> Exact(t, Members(g, c))
    ensures Servers(f, c, rpc) == Servers(g, c, rpc)
  {
    var v, w := Members(f, c), Members(g, c);
    forall n | n in f ensures f[n].(head := g[n].head) == g[n] {
      assert f[n].(head := None) == g[n].(head := None);
    }
    assert SameHealth(v, w) && SameHealth(w, v);
    if Exact(t, v) {
      SameHealthKeepsTable(t, v, w);
    }
    if Exact(t, w) {
      SameHealthKeepsTable(t, w, v);
    }
  }
}
