/** Which of the results of a broadcast the web3 gateway answers with. */
module Web3Choices {
  import opened Types
  import opened Fleets
  import opened Broadcasts
  import opened Endpoints
  import opened Multiplexers

  /** What the caller gets: a message, an error, or a crash on a result that has neither. */
  datatype Answer = Message(message: Broadcasts.Message) | Error(err: Option<string>) | Crash

  predicate IsResult(r: RPCResult) {
    r.err.None? && r.response.Some? && r.response.value.ResultMessage?
  }

  predicate IsError(r: RPCResult) {
    r.err.None? && r.response.Some? && r.response.value.ErrorMessage?
  }

  predicate HasMessage(r: RPCResult) {
    r.err.None? && r.response.Some?
  }

  /** A result that reports no error and has no response either. */
  predicate Hollow(r: RPCResult) {
    r.err.None? && r.response.None?
  }

  // ----- What an answer must be, spelled out -----

  ghost function SetOfAll(results: seq<RPCResult>): set<RPCResult> {
    set r | r in results
  }

  /** The messages among the results of calls that did not fail. */
  ghost function MessagesOf(rs: set<RPCResult>): set<Broadcasts.Message> {
    set r | r in rs && r.err.None? && r.response.Some? :: r.response.value
  }

  /** Without a message the answer is the error of a failed call, otherwise it is one of the messages. */
  ghost predicate Given(rs: set<RPCResult>, a: Answer) {
    if MessagesOf(rs) == {} then exists r :: r in rs && r.err.Some? && a == Error(r.err)
    else a.Message? && a.message in MessagesOf(rs)
  }

  /** A result if there is any, else an error of code -32000 if there is any, else an error, else whatever message. */
  ghost predicate Preferred(rs: set<RPCResult>, a: Answer) {
    var ms := MessagesOf(rs);
    && Given(rs, a)
    && if exists m :: m in ms && m.ResultMessage? then a.Message? && a.message.ResultMessage?
       else if exists m :: m in ms && m.ErrorMessage? && m.code == -32000
       then a.Message? && a.message.ErrorMessage? && a.message.code == -32000
       else (exists m :: m in ms && m.ErrorMessage?) ==> a.Message? && a.message.ErrorMessage?
  }

  /** The message is a result whose text the decoder takes for this number. */
  ghost predicate Says(m: Broadcasts.Message, decode: string -> Option<nat>, nonce: nat) {
    m.ResultMessage? && m.text.Some? && decode(m.text.value) == Some(nonce)
  }

  /** The greatest number if there is any, else an error if there is any, else whatever message. */
  ghost predicate Greatest(rs: set<RPCResult>, decode: string -> Option<nat>, a: Answer) {
    var ms := MessagesOf(rs);
    && Given(rs, a)
    && if exists m, u :: m in ms && Says(m, decode, u)
       then a.Message? && exists v :: Says(a.message, decode, v)
                                      && forall m, u :: m in ms && Says(m, decode, u) ==> u <= v
       else (exists m :: m in ms && m.ErrorMessage?) ==> a.Message? && a.message.ErrorMessage?
  }

  // ----- Sending a raw transaction -----

  const ALREADY_KNOWN := -32000

  /** Lower is better: a result, the node's "already known", another error, any message, a failed call. */
  function Rank(r: RPCResult): nat {
    if r.err.Some? || r.response.None? then 4
    else
      match r.response.value
      case ResultMessage(_, _) => 0
      case ErrorMessage(_, code) => if code == ALREADY_KNOWN then 1 else 2
      case OtherMessage(_) => 3
  }

  /** The first result of least rank. */
  ghost predicate IsFirstBest(results: seq<RPCResult>, i: int) {
    && 0 <= i < |results|
    && (forall j :: 0 <= j < |results| ==> Rank(results[i]) <= Rank(results[j]))
    && (forall j :: 0 <= j < i ==> Rank(results[i]) < Rank(results[j]))
  }

  /** A hollow result is looked at, and crashes the answer, unless a proper result comes before it. */
  ghost predicate Crashes(results: seq<RPCResult>) {
    exists i :: 0 <= i < |results| && Hollow(results[i]) && forall j :: 0 <= j < i ==> !IsResult(results[j])
  }

  function AnswerOf(r: RPCResult): Answer {
    if HasMessage(r) then Message(r.response.value) else Error(r.err)
  }

  lemma LeastIsPreferred(rs: set<RPCResult>, r: RPCResult)
    requires r in rs && !Hollow(r) && forall q :: q in rs ==> Rank(r) <= Rank(q)
    ensures Preferred(rs, AnswerOf(r))
  {
    var ms := MessagesOf(rs);
    if r.err.None? {
      assert r.response.value in ms;
    }
    forall m | m in ms ensures exists q :: q in rs && q.err.None? && q.response == Some(m) {
      var q :| q in rs && q.err.None? && q.response.Some? && q.response.value == m;
      assert q.response == Some(m);
    }
  }

  lemma FirstBestIsPreferred(results: seq<RPCResult>, i: int)
    requires IsFirstBest(results, i) && !Hollow(results[i])
    ensures Preferred(SetOfAll(results), AnswerOf(results[i]))
  {
    LeastIsPreferred(SetOfAll(results), results[i]);
  }

  /**
   Four passes over the results, each with its own idea of what is acceptable. Together they pick the first
   result of least rank - the crash apart, that is; if all calls failed, the first failure.
   */
  method ChooseRaw(results: seq<RPCResult>) returns (a: Answer)
    requires results != []
    ensures a.Crash? <==> Crashes(results)
    ensures !a.Crash? ==> exists i :: IsFirstBest(results, i) && a == AnswerOf(results[i])
    ensures !a.Crash? ==> Preferred(SetOfAll(results), a)
  {
    hide Preferred;
    for i := 0 to |results|
      invariant forall j :: 0 <= j < i ==> Rank(results[j]) > 0 && !Hollow(results[j])
    {
      if results[i].err.None? {
        if results[i].response.None? {
          return Crash;
        }
        if results[i].response.value.ResultMessage? {
          assert IsFirstBest(results, i);
          FirstBestIsPreferred(results, i);
          return Message(results[i].response.value);
        }
      }
    }
    assert forall j :: 0 <= j < |results| ==> !IsResult(results[j]);
    for i := 0 to |results|
      invariant forall j :: 0 <= j < i ==> Rank(results[j]) > 1
    {
      if IsError(results[i]) && results[i].response.value.code == ALREADY_KNOWN {
        assert IsFirstBest(results, i);
        FirstBestIsPreferred(results, i);
        return Message(results[i].response.value);
      }
    }
    for i := 0 to |results|
      invariant forall j :: 0 <= j < i ==> Rank(results[j]) > 2
    {
      if IsError(results[i]) {
        assert IsFirstBest(results, i);
        FirstBestIsPreferred(results, i);
        return Message(results[i].response.value);
      }
    }
    for i := 0 to |results|
      invariant forall j :: 0 <= j < i ==> Rank(results[j]) > 3
    {
      if HasMessage(results[i]) {
        assert IsFirstBest(results, i);
        FirstBestIsPreferred(results, i);
        return Message(results[i].response.value);
      }
    }
    assert IsFirstBest(results, 0);
    FirstBestIsPreferred(results, 0);
    return Error(results[0].err);
  }

  /** The same results in any order: each occurs in the one exactly when it occurs in the other. */
  predicate SameResults(a: seq<RPCResult>, b: seq<RPCResult>) {
    (forall r :: r in a ==> r in b) && (forall r :: r in b ==> r in a)
  }

  /** The rank of the answer does not depend on the order in which the calls completed. */
  lemma RankIgnoresOrder(a: seq<RPCResult>, b: seq<RPCResult>, i: int, j: int)
    requires SameResults(a, b) && IsFirstBest(a, i) && IsFirstBest(b, j)
    ensures Rank(a[i]) == Rank(b[j])
  {
    assert a[i] in b && b[j] in a;
  }

  // ----- Asking for a transaction count -----

  /** The nonce in a result; `decode` is the decoder of hexadecimal numbers, which may refuse a text. */
  function Nonce(r: RPCResult, decode: string -> Option<nat>): Option<nat> {
    if IsResult(r) && r.response.value.text.Some? then decode(r.response.value.text.value) else None
  }

  ghost predicate AnyNonce(results: seq<RPCResult>, decode: string -> Option<nat>) {
    exists r :: r in results && Nonce(r, decode).Some?
  }

  /** The first result with the greatest nonce; a nonce of 0 counts. */
  ghost predicate IsFirstGreatest(results: seq<RPCResult>, decode: string -> Option<nat>, i: int) {
    && 0 <= i < |results| && Nonce(results[i], decode).Some?
    && (forall r :: r in results && Nonce(r, decode).Some? ==>
                      Nonce(r, decode).value <= Nonce(results[i], decode).value)
    && (forall j :: 0 <= j < i ==> Nonce(results[j], decode) != Nonce(results[i], decode))
  }

  /** Without a nonce the first error response is taken, else the first response, else the first failure. */
  ghost predicate IsFallback(results: seq<RPCResult>, a: Answer) {
    if exists r :: r in results && IsError(r)
    then exists i :: 0 <= i < |results| && IsError(results[i]) && a == AnswerOf(results[i])
                     && forall j :: 0 <= j < i ==> !IsError(results[j])
    else if exists r :: r in results && HasMessage(r)
    then exists i :: 0 <= i < |results| && HasMessage(results[i]) && a == AnswerOf(results[i])
                     && forall j :: 0 <= j < i ==> !HasMessage(results[j])
    else results != [] && a == Error(results[0].err)
  }

  ghost predicate Counted(results: seq<RPCResult>, decode: string -> Option<nat>, a: Answer) {
    if AnyNonce(results, decode) then exists i :: IsFirstGreatest(results, decode, i) && a == AnswerOf(results[i])
    else IsFallback(results, a)
  }

  lemma CountedIsGreatest(rs: set<RPCResult>, results: seq<RPCResult>, decode: string -> Option<nat>, a: Answer)
    requires rs == SetOfAll(results) && (forall r :: r in rs ==> !Hollow(r)) && Counted(results, decode, a)
    ensures Greatest(rs, decode, a)
  {
    var ms := MessagesOf(rs);
    forall m | m in ms ensures exists q :: q in results && q.err.None? && q.response == Some(m) {
      var q :| q in rs && q.err.None? && q.response.Some? && q.response.value == m;
      assert q.response == Some(m);
    }
    if AnyNonce(results, decode) {
      var i :| IsFirstGreatest(results, decode, i) && a == AnswerOf(results[i]);
      assert results[i] in rs && results[i].response.value in ms;
      var v := Nonce(results[i], decode).value;
      assert Says(a.message, decode, v);
      forall m, u | m in ms && Says(m, decode, u) ensures u <= v {
        var q :| q in results && q.err.None? && q.response == Some(m);
        assert Nonce(q, decode) == Some(u);
      }
    } else {
      forall m, u | m in ms ensures !Says(m, decode, u) {
        var q :| q in results && q.err.None? && q.response == Some(m);
        assert Nonce(q, decode).None?;
      }
      FallbackIsGiven(rs, results, a);
    }
  }

  lemma FallbackIsGiven(rs: set<RPCResult>, results: seq<RPCResult>, a: Answer)
    requires rs == SetOfAll(results) && (forall r :: r in rs ==> !Hollow(r)) && IsFallback(results, a)
    ensures Given(rs, a)
    ensures (exists m :: m in MessagesOf(rs) && m.ErrorMessage?) ==> a.Message? && a.message.ErrorMessage?
  {
    var ms := MessagesOf(rs);
    forall m | m in ms ensures exists q :: q in results && HasMessage(q) && q.response == Some(m) {
      var q :| q in rs && q.err.None? && q.response.Some? && q.response.value == m;
      assert q.response == Some(m);
    }
    if exists r :: r in results && IsError(r) {
      var i :| 0 <= i < |results| && IsError(results[i]) && a == AnswerOf(results[i]);
      assert results[i] in rs && results[i].response.value in ms;
    } else if exists r :: r in results && HasMessage(r) {
      var i :| 0 <= i < |results| && HasMessage(results[i]) && a == AnswerOf(results[i]);
      assert results[i] in rs && results[i].response.value in ms;
    } else {
      assert results[0] in rs;
    }
  }

  method ChooseCount(results: seq<RPCResult>, decode: string -> Option<nat>) returns (a: Answer)
    requires results != []
    ensures Counted(results, decode, a)
  {
    var maxNonce := 0;
    var maxResMsg: Option<Broadcasts.Message> := None;
    ghost var at := 0;
    for i := 0 to |results|
      invariant maxResMsg.None? ==> forall j :: 0 <= j < i ==> Nonce(results[j], decode).None?
      invariant maxResMsg.Some? ==>
          && 0 <= at < i && Nonce(results[at], decode) == Some(maxNonce)
          && AnswerOf(results[at]) == Message(maxResMsg.value)
          && (forall j :: 0 <= j < i && Nonce(results[j], decode).Some? ==> Nonce(results[j], decode).value <= maxNonce)
          && (forall j :: 0 <= j < at ==> Nonce(results[j], decode) != Some(maxNonce))
    {
      var n := Nonce(results[i], decode);
      if n.None? {
        continue;
      }
      if maxResMsg.None? || n.value > maxNonce {
        maxNonce, maxResMsg, at := n.value, results[i].response, i;
      }
    }
    if maxResMsg.Some? {
      assert results[at] in results && IsFirstGreatest(results, decode, at);
      return Message(maxResMsg.value);
    }
    for i := 0 to |results|
      invariant forall j :: 0 <= j < i ==> !IsError(results[j])
    {
      if IsError(results[i]) {
        assert results[i] in results;
        return Message(results[i].response.value);
      }
    }
    for i := 0 to |results|
      invariant forall j :: 0 <= j < i ==> !HasMessage(results[j])
    {
      if HasMessage(results[i]) {
        assert results[i] in results;
        return Message(results[i].response.value);
      }
    }
    return Error(results[0].err);
  }

  /** Whether there is a nonce, and which is taken, does not depend on the order in which the calls completed. */
  lemma NonceIgnoresOrder(a: seq<RPCResult>, b: seq<RPCResult>, decode: string -> Option<nat>, i: int, j: int)
    requires SameResults(a, b)
    ensures AnyNonce(a, decode) <==> AnyNonce(b, decode)
    ensures IsFirstGreatest(a, decode, i) && IsFirstGreatest(b, decode, j) ==>
              Nonce(a[i], decode) == Nonce(b[j], decode)
  {
    if IsFirstGreatest(a, decode, i) && IsFirstGreatest(b, decode, j) {
      assert a[i] in b && b[j] in a;
    }
  }

  /** What `BroadcastCollects` leaves is never hollow, so the choice among it does not crash. */
  lemma NeverCrashes(results: seq<RPCResult>)
    requires forall r :: r in results ==> Returns(r)
    ensures !Crashes(results)
  {
    forall i | 0 <= i < |results| ensures !Hollow(results[i]) {
      assert results[i] in results;
    }
  }

  /**
   Two broadcasts of the same request with the same replies, interleaved in any two ways: no crash, same nonce,
   and answers to a raw transaction of the same rank.
   */
  lemma AnswersIgnoreInterleaving(replies: Replies, x: seq<Action>, y: seq<Action>,
                                  decode: string -> Option<nat>, i: int, j: int)
    requires Signed(replies)
    requires Runs(Begin(replies), replies, x) && Complete(End(Begin(replies), replies, x))
    requires Runs(Begin(replies), replies, y) && Complete(End(Begin(replies), replies, y))
    ensures var a, b := End(Begin(replies), replies, x).results, End(Begin(replies), replies, y).results;
            && !Crashes(a) && !Crashes(b)
            && (IsFirstGreatest(a, decode, i) && IsFirstGreatest(b, decode, j) ==>
                  Nonce(a[i], decode) == Nonce(b[j], decode))
            && (AnyNonce(a, decode) <==> AnyNonce(b, decode))
            && (IsFirstBest(a, i) && IsFirstBest(b, j) ==> Rank(a[i]) == Rank(b[j]))
  {
    var a, b := End(Begin(replies), replies, x).results, End(Begin(replies), replies, y).results;
    BroadcastCollects(replies, x);
    BroadcastCollects(replies, y);
    NeverCrashes(a);
    NeverCrashes(b);
    CollectedAlike(a, b, replies);
    NonceIgnoresOrder(a, b, decode, i, j);
    if IsFirstBest(a, i) && IsFirstBest(b, j) {
      RankIgnoresOrder(a, b, i, j);
    }
  }

  lemma CollectedAlike(a: seq<RPCResult>, b: seq<RPCResult>, replies: Replies)
    requires Collected(a, replies.Keys, replies) && Collected(b, replies.Keys, replies)
    ensures SameResults(a, b)
  {
    forall r | r in a ensures r in b {
      assert replies[r.endpoint] in b;
    }
    forall r | r in b ensures r in a {
      assert replies[r.endpoint] in a;
    }
  }

  // ----- From the routing state to the answer -----

  /** How a request ends: with an answer, with a relay, or with a call that takes the gateway down. */
  datatype Outcome = Answered(answer: Answer) | Relayed(relay: Endpoint?) | Died

  /** An answer that one of the replies gives and no other beats. */
  ghost predicate BestReply(replies: Replies, a: Answer) {
    exists n :: n in replies && a == AnswerOf(replies[n])
                && forall k :: k in replies ==> Rank(replies[n]) <= Rank(replies[k])
  }

  ghost predicate GreatestReply(replies: Replies, decode: string -> Option<nat>, a: Answer) {
    exists n :: n in replies && a == AnswerOf(replies[n]) && Nonce(replies[n], decode).Some?
                && forall k :: k in replies && Nonce(replies[k], decode).Some?
                               ==> Nonce(replies[k], decode).value <= Nonce(replies[n], decode).value
  }

  /** Without a nonce: an error response if there is any, else a response if there is any, else a failure. */
  ghost predicate FallbackReply(replies: Replies, a: Answer) {
    exists n :: n in replies && a == AnswerOf(replies[n])
                && ((exists k :: k in replies && IsError(replies[k])) ==> IsError(replies[n]))
                && ((exists k :: k in replies && HasMessage(replies[k])) ==> HasMessage(replies[n]))
  }

  ghost predicate CountReply(replies: Replies, decode: string -> Option<nat>, a: Answer) {
    if exists n :: n in replies && Nonce(replies[n], decode).Some? then GreatestReply(replies, decode, a)
    else FallbackReply(replies, a)
  }

  lemma NoneCollected(results: seq<RPCResult>, replies: Replies)
    requires Collected(results, replies.Keys, replies)
    ensures results == [] <==> replies == map[]
  {
    if n :| n in replies {
      assert replies[n] in results;
    }
    if results != [] {
      assert results[0] in results;
    }
  }

  lemma BestOfCollected(results: seq<RPCResult>, replies: Replies, i: int)
    requires Collected(results, replies.Keys, replies) && IsFirstBest(results, i)
    ensures BestReply(replies, AnswerOf(results[i]))
  {
    var n := results[i].endpoint;
    assert results[i] in results && replies[n] == results[i];
    forall k | k in replies ensures Rank(replies[n]) <= Rank(replies[k]) {
      assert replies[k] in results;
    }
  }

  lemma NoncesCollected(results: seq<RPCResult>, replies: Replies, decode: string -> Option<nat>)
    requires Collected(results, replies.Keys, replies)
    ensures AnyNonce(results, decode) <==> exists n :: n in replies && Nonce(replies[n], decode).Some?
  {
    if r :| r in results && Nonce(r, decode).Some? {
      assert replies[r.endpoint] == r;
    }
    if n :| n in replies && Nonce(replies[n], decode).Some? {
      assert replies[n] in results;
    }
  }

  lemma GreatestOfCollected(results: seq<RPCResult>, replies: Replies, decode: string -> Option<nat>, i: int)
    requires Collected(results, replies.Keys, replies) && IsFirstGreatest(results, decode, i)
    ensures GreatestReply(replies, decode, AnswerOf(results[i]))
  {
    var n := results[i].endpoint;
    assert results[i] in results && replies[n] == results[i];
    forall k | k in replies && Nonce(replies[k], decode).Some?
      ensures Nonce(replies[k], decode).value <= Nonce(replies[n], decode).value
    {
      assert replies[k] in results;
    }
  }

  lemma FallbackOfCollected(results: seq<RPCResult>, replies: Replies, a: Answer)
    requires Collected(results, replies.Keys, replies) && IsFallback(results, a)
    ensures FallbackReply(replies, a)
  {
    assert forall k :: k in replies ==> replies[k] in results;
    if exists r :: r in results && IsError(r) {
      var i :| 0 <= i < |results| && IsError(results[i]) && a == AnswerOf(results[i]);
      assert results[i] in results && replies[results[i].endpoint] == results[i];
    } else if exists r :: r in results && HasMessage(r) {
      var i :| 0 <= i < |results| && HasMessage(results[i]) && a == AnswerOf(results[i]);
      assert results[i] in results && replies[results[i].endpoint] == results[i];
    } else {
      assert results[0] in results && replies[results[0].endpoint] == results[0];
    }
  }

  lemma CountOfCollected(results: seq<RPCResult>, replies: Replies, decode: string -> Option<nat>, a: Answer)
    requires Collected(results, replies.Keys, replies) && Counted(results, decode, a)
    ensures CountReply(replies, decode, a)
  {
    NoncesCollected(results, replies, decode);
    if AnyNonce(results, decode) {
      var i :| IsFirstGreatest(results, decode, i) && a == AnswerOf(results[i]);
      GreatestOfCollected(results, replies, decode, i);
    } else {
      FallbackOfCollected(results, replies, a);
    }
  }

  method RelayInVain(m: Multiplexer, chain: ChainRef, rpc: string, seed: nat) returns (relay: Endpoint?)
    requires m.Sound() && Servers(m.Facts(), chain, rpc) == {}
    ensures relay == null
  {
    NoHeightCheck(m.Facts(), chain, rpc, 0, m.HeightFor(chain, -5));
    relay := m.DefaultRelay(chain, rpc, -5, seed, seed);
  }

  /**
   The request goes to all that serve the method, at height -10, which is no check. Only if there is nobody it is
   relayed, at 5 below the tip - in vain: in the state that finds nobody a relay does not find anybody either.
   */
  method AskServers(m: Multiplexer, chain: ChainRef, rpc: string, call: string -> RPCResult, seed: nat)
    returns (results: seq<RPCResult>, died: bool, relay: Endpoint?)
    requires m.Sound()
    requires forall n :: call(n).endpoint == n
    ensures relay == null
    ensures var replies := RepliesOf(Servers(m.Facts(), chain, rpc), call);
            && (died <==> exists n :: n in replies && !Returns(replies[n]))
            && (!died ==> Collected(results, replies.Keys, replies) && !Crashes(results))
            && (!died ==> (results == [] <==> replies == map[]))
  {
    NoHeightCheck(m.Facts(), chain, rpc, -10, -10);
    results, died := BroadcastRPC(m, chain, rpc, -10, call);
    relay := null;
    if !died {
      NeverCrashes(results);
      NoneCollected(results, RepliesOf(Servers(m.Facts(), chain, rpc), call));
      if |results| == 0 {
        assert Servers(m.Facts(), chain, rpc) == RepliesOf(Servers(m.Facts(), chain, rpc), call).Keys;
        relay := RelayInVain(m, chain, rpc, seed);
      }
    }
  }

  lemma CollectedValues(results: seq<RPCResult>, replies: Replies)
    requires Collected(results, replies.Keys, replies)
    ensures SetOfAll(results) == replies.Values
  {
    forall r | r in results ensures r in replies.Values {
      assert replies[r.endpoint] == r;
    }
  }

  lemma NoneHollow(replies: Replies)
    requires forall n :: n in replies ==> Returns(replies[n])
    ensures forall r :: r in replies.Values ==> !Hollow(r)
  {
  }

  /** Whatever the schedule of the broadcast, a raw transaction is answered with a reply of least rank. */
  method SendRawTransaction(m: Multiplexer, chain: ChainRef, rpc: string, call: string -> RPCResult, seed: nat)
    returns (o: Outcome)
    requires m.Sound()
    requires forall n :: call(n).endpoint == n
    ensures var replies := RepliesOf(Servers(m.Facts(), chain, rpc), call);
            match o
            case Relayed(ep) => replies == map[] && ep == null
            case Died => exists n :: n in replies && !Returns(replies[n])
            case Answered(a) =>
              && (forall n :: n in replies ==> Returns(replies[n]))
              && BestReply(replies, a) && Preferred(replies.Values, a)
  {
    hide Collected, Servers, BestReply, CountReply, Counted, Returns, Preferred, Greatest, Hollow;
    var results, died, relay := AskServers(m, chain, rpc, call, seed);
    ghost var replies := RepliesOf(Servers(m.Facts(), chain, rpc), call);
    if died {
      return Died;
    }
    if |results| == 0 {
      return Relayed(relay);
    }
    var a := ChooseRaw(results);
    ghost var i :| IsFirstBest(results, i) && a == AnswerOf(results[i]);
    BestOfCollected(results, replies, i);
    CollectedValues(results, replies);
    return Outcome.Answered(a);
  }

  /** Whatever the schedule, a transaction count is answered with a reply of the greatest nonce, if there is any. */
  method GetTransactionCount(m: Multiplexer, chain: ChainRef, rpc: string, call: string -> RPCResult,
                             decode: string -> Option<nat>, seed: nat)
    returns (o: Outcome)
    requires m.Sound()
    requires forall n :: call(n).endpoint == n
    ensures var replies := RepliesOf(Servers(m.Facts(), chain, rpc), call);
            match o
            case Relayed(ep) => replies == map[] && ep == null
            case Died => exists n :: n in replies && !Returns(replies[n])
            case Answered(a) =>
              && (forall n :: n in replies ==> Returns(replies[n]))
              && CountReply(replies, decode, a) && Greatest(replies.Values, decode, a)
  {
    hide Collected, Servers, BestReply, CountReply, Counted, Returns, Preferred, Greatest, Hollow;
    var results, died, relay := AskServers(m, chain, rpc, call, seed);
    ghost var replies := RepliesOf(Servers(m.Facts(), chain, rpc), call);
    if died {
      return Died;
    }
    if |results| == 0 {
      return Relayed(relay);
    }
    var a := ChooseCount(results, decode);
    CountOfCollected(results, replies, decode, a);
    CollectedValues(results, replies);
    NoneHollow(replies);
    CountedIsGreatest(replies.Values, results, decode, a);
    return Outcome.Answered(a);
  }
}
