/**
 Broadcasting a request: one goroutine per endpoint calls it and then appends the result to a shared list
 under a lock. The calls run concurrently, the appends exclude each other; the list is read when all are done.
 */
module Broadcasts {
  import opened Types
  import opened Fleets
  import opened Endpoints
  import opened EndpointSets
  import opened Multiplexers

  /** What an upstream can answer with; `id` stands for everything else about the message. */
  datatype Message =
    | ResultMessage(id: nat, text: Option<string>)
    | ErrorMessage(id: nat, code: int)
    | OtherMessage(id: nat)

  datatype RPCResult = RPCResult(endpoint: string, response: Option<Message>, err: Option<string>)

  /** Where one goroutine is: in its call, waiting for the lock, holding it, or through. */
  datatype Phase = Calling | Waiting(result: RPCResult) | Holding(result: RPCResult) | Done

  datatype Broadcast = Broadcast(phases: map<string, Phase>, results: seq<RPCResult>)

  datatype Action = Answered(n: string) | Lock(n: string) | Append(n: string)

  type Replies = map<string, RPCResult>

  /**
   Does the call come back? It looks into the response if there is no error, and panics, together with the whole
   gateway, if there is no response either.
   */
  predicate Returns(r: RPCResult) {
    r.err.Some? || r.response.Some?
  }

  predicate Enabled(s: Broadcast, replies: Replies, a: Action)
    requires s.phases.Keys == replies.Keys
  {
    && a.n in s.phases
    && match a
       case Answered(n) => s.phases[n].Calling? && Returns(replies[n])
       case Lock(n) => s.phases[n].Waiting? && (forall m :: m in s.phases ==> !s.phases[m].Holding?)
       case Append(n) => s.phases[n].Holding?
  }

  /** One step of one goroutine; `replies` says what each endpoint's call comes to. */
  function Step(s: Broadcast, replies: Replies, a: Action): Broadcast
    requires s.phases.Keys == replies.Keys && Enabled(s, replies, a)
  {
    match a
    case Answered(n) => s.(phases := s.phases[n := Waiting(replies[n])])
    case Lock(n) => s.(phases := s.phases[n := Holding(s.phases[n].result)])
    case Append(n) => Broadcast(s.phases[n := Done], s.results + [s.phases[n].result])
  }

  predicate Runs(s: Broadcast, replies: Replies, acts: seq<Action>)
    requires s.phases.Keys == replies.Keys
    decreases |acts|
  {
    acts == [] || (Enabled(s, replies, acts[0]) && Runs(Step(s, replies, acts[0]), replies, acts[1..]))
  }

  function End(s: Broadcast, replies: Replies, acts: seq<Action>): (e: Broadcast)
    requires s.phases.Keys == replies.Keys && Runs(s, replies, acts)
    ensures e.phases.Keys == replies.Keys
    decreases |acts|
  {
    if acts == [] then s else End(Step(s, replies, acts[0]), replies, acts[1..])
  }

  function Begin(replies: Replies): Broadcast {
    Broadcast(map n | n in replies :: Calling, [])
  }

  /** The wait is over: every goroutine is through. */
  predicate Complete(s: Broadcast) {
    forall n :: n in s.phases ==> s.phases[n].Done?
  }

  /** Exactly one result for each of these endpoints, and it is what the endpoint replied. */
  ghost predicate Collected(results: seq<RPCResult>, names: set<string>, replies: Replies)
    requires names <= replies.Keys
  {
    && (forall i, j :: 0 <= i < j < |results| ==> results[i].endpoint != results[j].endpoint)
    && (forall n :: n in names ==> replies[n] in results)
    && (forall r :: r in results ==> r.endpoint in names && replies[r.endpoint] == r)
  }

  /** Every reply carries the endpoint it came from. */
  predicate Signed(replies: Replies) {
    forall n :: n in replies ==> replies[n].endpoint == n
  }

  function DoneNames(s: Broadcast): set<string> {
    set n <- s.phases | s.phases[n].Done?
  }

  /** What every reachable state satisfies, whatever the interleaving; in particular nobody shares the lock. */
  ghost predicate Sound(s: Broadcast, replies: Replies) {
    && s.phases.Keys == replies.Keys && Signed(replies)
    && (forall n :: n in s.phases && !s.phases[n].Calling? ==> Returns(replies[n]))
    && (forall n :: n in s.phases && (s.phases[n].Waiting? || s.phases[n].Holding?) ==>
                      s.phases[n].result == replies[n])
    && (forall m, n :: m in s.phases && n in s.phases && s.phases[m].Holding? && s.phases[n].Holding? ==> m == n)
    && Collected(s.results, DoneNames(s), replies)
  }

  lemma StepStaysSound(s: Broadcast, replies: Replies, a: Action)
    requires Sound(s, replies) && Enabled(s, replies, a)
    ensures Sound(Step(s, replies, a), replies)
  {
    var t := Step(s, replies, a);
    if a.Append? {
      assert DoneNames(t) == DoneNames(s) + {a.n};
      var r := replies[a.n];
      assert t.results == s.results + [r];
      forall i | 0 <= i < |s.results| ensures s.results[i].endpoint != a.n {
        assert s.results[i] in s.results;
      }
    } else {
      assert DoneNames(t) == DoneNames(s);
    }
  }

  lemma {:induction false} RunStaysSound(s: Broadcast, replies: Replies, acts: seq<Action>)
    requires Sound(s, replies) && Runs(s, replies, acts)
    ensures Sound(End(s, replies, acts), replies)
    decreases |acts|
  {
    if acts == [] {
    } else {
      StepStaysSound(s, replies, acts[0]);
      RunStaysSound(Step(s, replies, acts[0]), replies, acts[1..]);
    }
  }

  lemma BeginsSound(replies: Replies)
    requires Signed(replies)
    ensures Sound(Begin(replies), replies)
  {
    assert DoneNames(Begin(replies)) == {};
  }

  /**
   Every interleaving that completes leaves exactly one result per endpoint, and each of them has an error or a
   response: a call that came back with neither would have taken the gateway down before.
   */
  lemma BroadcastCollects(replies: Replies, acts: seq<Action>)
    requires Signed(replies)
    requires Runs(Begin(replies), replies, acts) && Complete(End(Begin(replies), replies, acts))
    ensures Collected(End(Begin(replies), replies, acts).results, replies.Keys, replies)
    ensures forall r :: r in End(Begin(replies), replies, acts).results ==> Returns(r)
  {
    BeginsSound(replies);
    RunStaysSound(Begin(replies), replies, acts);
    var e := End(Begin(replies), replies, acts);
    assert DoneNames(e) == replies.Keys;
  }

  /** No interleaving gets stuck: some step is possible exactly as long as someone is at work whose call comes back. */
  lemma BroadcastProgresses(s: Broadcast, replies: Replies)
    requires Sound(s, replies)
    ensures (exists a :: Enabled(s, replies, a)) <==>
            exists n :: n in s.phases && !s.phases[n].Done? && Returns(replies[n])
  {
    if n :| n in s.phases && !s.phases[n].Done? && Returns(replies[n]) {
      if m :| m in s.phases && s.phases[m].Holding? {
        assert Enabled(s, replies, Append(m));
      } else if s.phases[n].Calling? {
        assert Enabled(s, replies, Answered(n));
      } else {
        assert Enabled(s, replies, Lock(n));
      }
    }
  }

  // ----- Running one broadcast -----

  /** The steps that are left to a goroutine, and to all of them. */
  function StepsLeft(p: Phase): nat {
    match p
    case Calling => 3
    case Waiting(_) => 2
    case Holding(_) => 1
    case Done => 0
  }

  ghost function AllLeft(phases: map<string, Phase>): nat
    decreases |phases.Keys|
  {
    if phases == map[] then 0
    else
      var n :| n in phases;
      assert phases.Keys == (phases - {n}).Keys + {n};
      StepsLeft(phases[n]) + AllLeft(phases - {n})
  }

  lemma {:induction false} LeftWithout(phases: map<string, Phase>, n: string)
    requires n in phases
    ensures AllLeft(phases) == StepsLeft(phases[n]) + AllLeft(phases - {n})
    decreases |phases.Keys|
  {
    var m :| m in phases && AllLeft(phases) == StepsLeft(phases[m]) + AllLeft(phases - {m});
    if m == n {
    } else {
      assert phases.Keys == (phases - {m}).Keys + {m};
      assert phases.Keys == (phases - {n}).Keys + {n};
      LeftWithout(phases - {m}, n);
      LeftWithout(phases - {n}, m);
      assert phases - {m} - {n} == phases - {n} - {m};
    }
  }

  /** Every step brings a broadcast closer to its end. */
  lemma StepsRunOut(s: Broadcast, replies: Replies, a: Action)
    requires s.phases.Keys == replies.Keys && Enabled(s, replies, a)
    ensures AllLeft(Step(s, replies, a).phases) == AllLeft(s.phases) - 1
  {
    var t := Step(s, replies, a);
    LeftWithout(s.phases, a.n);
    LeftWithout(t.phases, a.n);
    assert t.phases - {a.n} == s.phases - {a.n};
  }

  lemma {:induction false} OneMore(s: Broadcast, replies: Replies, acts: seq<Action>, a: Action)
    requires s.phases.Keys == replies.Keys
    requires Runs(s, replies, acts) && Enabled(End(s, replies, acts), replies, a)
    ensures Runs(s, replies, acts + [a])
    ensures End(s, replies, acts + [a]) == Step(End(s, replies, acts), replies, a)
    decreases |acts|
  {
    if acts == [] {
      assert [a][1..] == [];
    } else {
      assert (acts + [a])[1..] == acts[1..] + [a];
      OneMore(Step(s, replies, acts[0]), replies, acts[1..], a);
    }
  }

  /** Some possible step, whichever the scheduler likes. */
  method NextStep(s: Broadcast, replies: Replies) returns (a: Option<Action>)
    requires s.phases.Keys == replies.Keys
    ensures a.Some? ==> Enabled(s, replies, a.value)
    ensures a.None? ==> forall b :: !Enabled(s, replies, b)
  {
    var free := forall m <- s.phases :: !s.phases[m].Holding?;
    var able := set n <- s.phases | s.phases[n].Holding? || (s.phases[n].Waiting? && free)
                                    || (s.phases[n].Calling? && Returns(replies[n]));
    if able == {} {
      forall b ensures !Enabled(s, replies, b) {
        assert b.n !in able;
      }
      return None;
    }
    var n :| n in able;
    match s.phases[n] {
      case Calling => return Some(Answered(n));
      case Waiting(_) => return Some(Lock(n));
      case Holding(_) => return Some(Append(n));
      case Done => assert false;
    }
  }

  /** The goroutines run, in any order, until nobody can go on; all get through exactly if every call comes back. */
  method Wait(replies: Replies) returns (s: Broadcast, ghost acts: seq<Action>)
    requires Signed(replies)
    ensures Runs(Begin(replies), replies, acts) && s == End(Begin(replies), replies, acts)
    ensures Complete(s) <==> forall n :: n in replies ==> Returns(replies[n])
  {
    s, acts := Begin(replies), [];
    BeginsSound(replies);
    var a := NextStep(s, replies);
    while a.Some?
      invariant Sound(s, replies) && Runs(Begin(replies), replies, acts) && s == End(Begin(replies), replies, acts)
      invariant if a.Some? then Enabled(s, replies, a.value) else forall b :: !Enabled(s, replies, b)
      decreases AllLeft(s.phases)
    {
      StepStaysSound(s, replies, a.value);
      StepsRunOut(s, replies, a.value);
      OneMore(Begin(replies), replies, acts, a.value);
      acts := acts + [a.value];
      s := Step(s, replies, a.value);
      a := NextStep(s, replies);
    }
    BroadcastProgresses(s, replies);
  }

  /** What the endpoints' calls come to. */
  function RepliesOf(names: set<string>, call: string -> RPCResult): Replies {
    map n | n in names :: call(n)
  }

  /** One goroutine for each of the endpoints. */
  method CallAll(eps: seq<Endpoint>, call: string -> RPCResult) returns (results: seq<RPCResult>, died: bool)
    requires forall n :: call(n).endpoint == n
    ensures var replies := RepliesOf(NamesOf(eps), call);
            && (died <==> exists n :: n in replies && !Returns(replies[n]))
            && (!died ==> Collected(results, replies.Keys, replies) && forall r :: r in results ==> Returns(r))
  {
    var replies: Replies := map[];
    for i := 0 to |eps|
      invariant replies == RepliesOf(NamesOf(eps[..i]), call)
    {
      assert NamesOf(eps[..i + 1]) == NamesOf(eps[..i]) + {eps[i].name} by {
        assert forall k :: 0 <= k < i ==> eps[..i + 1][k] == eps[..i][k];
      }
      replies := replies[eps[i].name := call(eps[i].name)];
    }
    assert eps[..|eps|] == eps;
    var s, acts := Wait(replies);
    if !Complete(s) {
      return [], true;
    }
    BroadcastCollects(replies, acts);
    return s.results, false;
  }

  /**
   A broadcast goes to exactly the endpoints available at the height as given. It ends, for every schedule, with
   one result of each of them, unless one of the calls takes the gateway down.
   */
  method BroadcastRPC(m: Multiplexer, chain: ChainRef, rpc: string, height: int, call: string -> RPCResult)
    returns (results: seq<RPCResult>, died: bool)
    requires m.Sound()
    requires forall n :: call(n).endpoint == n
    ensures var replies := RepliesOf(Usable(m.Facts(), chain, rpc, height), call);
            && (died <==> exists n :: n in replies && !Returns(replies[n]))
            && (!died ==> Collected(results, replies.Keys, replies) && forall r :: r in results ==> Returns(r))
  {
    var eps := m.AllHealthyEndpoints(chain, rpc, height);
    ListsAll(eps, Usable(m.Facts(), chain, rpc, height));
    if |eps| == 0 {
      return [], false;
    }
    results, died := CallAll(eps, call);
  }
}
