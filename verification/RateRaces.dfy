/**
 The rate limiter when calls overlap. The increment and the reset to the base are two store operations, so
 other callers get in between. One field in one window; every increment is a caller of its own, and every
 caller that saw a value at or below the base resets the counter some time later.
 */
module RateRaces {
  import opened RateLimits

  /**
   `early` counts the callers before the first reset, `low` those that are to reset because they saw a value at or
   below the base and were admitted, `pending` those of them yet to do it.
   */
  datatype Race = Race(value: int, early: nat, pending: nat, low: nat, admitted: nat)

  /** A caller comes with a limit of its own. */
  datatype Action = Increment(limit: int) | Reset

  const START := Race(0, 0, 0, 0, 0)

  function Step(s: Race, a: Action): Race
    requires a.Reset? ==> s.pending > 0
  {
    match a
    case Increment(limit) =>
      var v, t := s.value + 1, s.(early := if s.pending == s.low then s.early + 1 else s.early);
      if v >= VALUE_BASE + limit then t.(value := v)
      else if v > VALUE_BASE then t.(value := v, admitted := s.admitted + 1)
      else t.(value := v, pending := s.pending + 1, low := s.low + 1, admitted := s.admitted + 1)
    case Reset => s.(value := VALUE_BASE, pending := s.pending - 1)
  }

  predicate Runs(s: Race, acts: seq<Action>)
    decreases |acts|
  {
    acts == [] || ((acts[0].Reset? ==> s.pending > 0) && Runs(Step(s, acts[0]), acts[1..]))
  }

  function End(s: Race, acts: seq<Action>): Race
    requires Runs(s, acts)
    decreases |acts|
  {
    if acts == [] then s else End(Step(s, acts[0]), acts[1..])
  }

  function Min(a: int, b: int): int {
    if a < b then a else b
  }

  /** Only when more than a thousand callers came before the first reset can one more round of admissions happen. */
  function Overshoot(s: Race): nat {
    if s.early > VALUE_BASE then 1 else 0
  }

  /** The rounds that are over. */
  function Rounds(s: Race): int {
    if s.pending >= s.low then 0 else s.low - s.pending + Overshoot(s) - 1
  }

  /** What every reachable state satisfies: each reset opens at most one more round of most - 1 admissions. */
  ghost predicate Bounded(s: Race, most: int) {
    && s.pending <= s.low <= VALUE_BASE
    && (s.pending == s.low ==> s.value == s.early && s.low <= s.value)
    && (s.pending < s.low ==> s.value >= VALUE_BASE)
    && s.admitted <= s.low + Rounds(s) * (most - 1) +
                     if s.value < VALUE_BASE then 0 else Min(s.value - VALUE_BASE, most - 1)
  }

  /** No caller asks for more than this. */
  predicate Capped(acts: seq<Action>, most: int) {
    forall i :: 0 <= i < |acts| && acts[i].Increment? ==> acts[i].limit <= most
  }

  lemma Product(a: int, b: int, c: int)
    requires a <= b && c >= 0
    ensures a * c <= b * c
  {
  }

  lemma StepStaysBounded(s: Race, most: int, a: Action)
    requires most >= 1 && Bounded(s, most)
    requires if a.Increment? then a.limit <= most else s.pending > 0
    ensures Bounded(Step(s, a), most)
  {
    var t := Step(s, a);
    if a.Reset? {
      if s.pending < s.low || s.early > VALUE_BASE {
        assert Rounds(t) == Rounds(s) + 1;
        assert (Rounds(s) + 1) * (most - 1) == Rounds(s) * (most - 1) + (most - 1);
      } else {
        assert Rounds(t) == Rounds(s) == 0;
      }
    } else {
      assert Rounds(t) == Rounds(s);
    }
  }

  lemma {:induction false} RunStaysBounded(s: Race, most: int, acts: seq<Action>)
    requires most >= 1 && Bounded(s, most) && Runs(s, acts) && Capped(acts, most)
    ensures Bounded(End(s, acts), most)
    decreases |acts|
  {
    if acts == [] {
    } else {
      assert Capped(acts[1..], most) by {
        assert forall i :: 0 <= i < |acts| - 1 ==> acts[1..][i] == acts[i + 1];
      }
      StepStaysBounded(s, most, acts[0]);
      RunStaysBounded(Step(s, acts[0]), most, acts[1..]);
    }
  }

  lemma BoundedTotal(s: Race, most: int)
    requires most >= 1 && Bounded(s, most)
    ensures s.admitted <= s.low * most + Overshoot(s) * (most - 1)
  {
    var o, m := Overshoot(s), most - 1;
    assert s.low * most == s.low + s.low * m;
    if s.pending < s.low {
      Product(Rounds(s), s.low + o - 1, m);
      assert (s.low + o - 1) * m + m == s.low * m + o * m;
    } else {
      assert Rounds(s) * m == 0;
      Product(0, s.low, m);
    }
  }

  /**
   However the calls interleave and whatever limits they come with, negative ones included: if `s` of them have to
   reset and none asks for more than `most`, at most s * most are admitted - and most - 1 more when over a thousand
   came before the first reset. More than a thousand can never have to reset.
   */
  lemma RaceOfAnyLimits(most: int, acts: seq<Action>)
    requires most >= 1 && Runs(START, acts) && Capped(acts, most)
    ensures var e := End(START, acts);
            e.low <= VALUE_BASE && e.admitted <= e.low * most + Overshoot(e) * (most - 1)
  {
    RunStaysBounded(START, most, acts);
    BoundedTotal(End(START, acts), most);
  }

  // ----- Positive limits -----

  /** Every caller has a limit of at least 1, as the server sees to. */
  predicate Positive(acts: seq<Action>) {
    forall i :: 0 <= i < |acts| && acts[i].Increment? ==> acts[i].limit >= 1
  }

  /** Until the first reset every caller up to the thousandth has to reset, afterwards nobody new. */
  predicate FirstThousand(s: Race) {
    && s.pending <= s.low == Min(s.early, VALUE_BASE)
    && if s.pending == s.low then s.value == s.early else s.value >= VALUE_BASE
  }

  lemma {:induction false} LowAreFirst(s: Race, acts: seq<Action>)
    requires FirstThousand(s) && Runs(s, acts) && Positive(acts)
    ensures FirstThousand(End(s, acts))
    decreases |acts|
  {
    if acts == [] {
    } else {
      assert Positive(acts[1..]) by {
        assert forall i :: 0 <= i < |acts| - 1 ==> acts[1..][i] == acts[i + 1];
      }
      LowAreFirst(Step(s, acts[0]), acts[1..]);
    }
  }

  lemma CallersComeFirst(acts: seq<Action>)
    requires Runs(START, acts)
    ensures acts != [] ==> acts[0].Increment?
  {
  }

  /** A limit is at least 1 and at most `most`: if that cannot be nobody came. */
  lemma NobodyCame(most: int, acts: seq<Action>)
    requires most < 1 && Runs(START, acts) && Capped(acts, most) && Positive(acts)
    ensures acts == []
  {
    CallersComeFirst(acts);
  }

  /**
   With positive limits, however the calls interleave: if `s` of them have to reset and none asks for more than
   `most`, at most s * most are admitted. Only at a full thousand, the most `s` can be, can it be most - 1 more.
   In particular the limit holds if no two first callers overlap, and nobody is admitted without a first caller.
   */
  lemma RaceLimit(most: int, acts: seq<Action>)
    requires Runs(START, acts) && Capped(acts, most) && Positive(acts)
    ensures var e := End(START, acts);
            && e.low <= 1000
            && e.admitted <= e.low * most + (if e.low == 1000 then most - 1 else 0)
            && (e.low < 1000 ==> e.admitted <= e.low * most)
            && (e.low == 1 ==> e.admitted <= most)
            && (e.low == 0 ==> e.early == 0 && e.admitted == 0)
  {
    var e := End(START, acts);
    LowAreFirst(START, acts);
    if most >= 1 {
      RaceOfAnyLimits(most, acts);
    } else {
      NobodyCame(most, acts);
    }
  }

  // ----- Calls in turn -----

  /** A caller that resets, if it has to, before the next one comes. */
  function InTurn(limits: seq<int>): Race {
    if limits == [] then START
    else
      var s := Step(InTurn(Front(limits)), Increment(Last(limits)));
      if s.pending > 0 then Step(s, Reset) else s
  }

  /** Without overlap the two store operations add up to the counter of the limiter called in turn. */
  lemma {:induction false} InTurnCountsExactly(limits: seq<int>)
    ensures InTurn(limits).pending == 0
    ensures InTurn(limits).value == Tally(limits) && InTurn(limits).admitted == Granted(limits)
  {
    if limits == [] {
    } else {
      InTurnCountsExactly(Front(limits));
    }
  }

  // ----- The bound is reached -----

  function Times(limit: int, n: nat): seq<Action> {
    seq(n, _ => Increment(limit))
  }

  /** A caller that resets, followed by the round of admissions that its reset opens. */
  function Round(limit: nat): seq<Action>
    requires limit >= 1
  {
    [Reset] + Times(limit, limit - 1)
  }

  function RoundsOf(limit: nat, n: nat): seq<Action>
    requires limit >= 1
  {
    if n == 0 then [] else Round(limit) + RoundsOf(limit, n - 1)
  }

  /** `s` callers before anyone resets; if they are a thousand one round for free; then `s` rounds. */
  function WorstCase(limit: nat, s: nat): seq<Action>
    requires limit >= 1
  {
    Times(limit, s) + (if s == VALUE_BASE then Times(limit, limit - 1) else []) + RoundsOf(limit, s)
  }

  lemma {:induction false} EndOfConcat(s: Race, a: seq<Action>, b: seq<Action>)
    requires Runs(s, a) && Runs(End(s, a), b)
    ensures Runs(s, a + b) && End(s, a + b) == End(End(s, a), b)
    decreases |a|
  {
    if a == [] {
      assert a + b == b;
    } else {
      assert (a + b)[1..] == a[1..] + b;
      EndOfConcat(Step(s, a[0]), a[1..], b);
    }
  }

  lemma {:induction false} LowCallers(s: Race, limit: int, n: nat)
    requires limit >= 1 && s.pending == s.low && 0 <= s.value && s.value + n <= VALUE_BASE
    ensures Runs(s, Times(limit, n))
    ensures End(s, Times(limit, n)) == Race(s.value + n, s.early + n, s.pending + n, s.low + n, s.admitted + n)
    decreases n
  {
    if n == 0 {
    } else {
      assert Times(limit, n)[1..] == Times(limit, n - 1);
      LowCallers(Step(s, Increment(limit)), limit, n - 1);
    }
  }

  lemma {:induction false} HighCallers(s: Race, limit: int, n: nat)
    requires s.value >= VALUE_BASE && s.value + n < VALUE_BASE + limit
    ensures Runs(s, Times(limit, n))
    ensures End(s, Times(limit, n)) == s.(value := s.value + n, admitted := s.admitted + n,
                                          early := if s.pending == s.low then s.early + n else s.early)
    decreases n
  {
    if n == 0 {
    } else {
      assert Times(limit, n)[1..] == Times(limit, n - 1);
      HighCallers(Step(s, Increment(limit)), limit, n - 1);
    }
  }

  lemma OneRound(s: Race, limit: nat)
    requires limit >= 1 && 0 < s.pending <= s.low
    ensures Runs(s, Round(limit))
    ensures End(s, Round(limit)) ==
            Race(VALUE_BASE + limit - 1, s.early, s.pending - 1, s.low, s.admitted + limit - 1)
  {
    assert Round(limit)[1..] == Times(limit, limit - 1);
    HighCallers(Step(s, Reset), limit, limit - 1);
  }

  lemma {:induction false} AllRounds(s: Race, limit: nat, n: nat)
    requires limit >= 1 && n <= s.pending <= s.low
    ensures Runs(s, RoundsOf(limit, n))
    ensures End(s, RoundsOf(limit, n)).low == s.low && End(s, RoundsOf(limit, n)).early == s.early
    ensures End(s, RoundsOf(limit, n)).admitted == s.admitted + n * (limit - 1)
    decreases n
  {
    if n == 0 {
    } else {
      OneRound(s, limit);
      var t := End(s, Round(limit));
      AllRounds(t, limit, n - 1);
      EndOfConcat(s, Round(limit), RoundsOf(limit, n - 1));
      assert n * (limit - 1) == (limit - 1) + (n - 1) * (limit - 1);
    }
  }

  /** The bound is exact for every number of overlapping first callers up to a thousand. */
  lemma RaceLimitIsReached(limit: nat, s: nat)
    requires limit >= 1 && s <= VALUE_BASE
    ensures Runs(START, WorstCase(limit, s)) && Capped(WorstCase(limit, s), limit) && Positive(WorstCase(limit, s))
    ensures var e := End(START, WorstCase(limit, s));
            e.low == s && e.admitted == s * limit + (if s == VALUE_BASE then limit - 1 else 0)
  {
    hide Capped, Positive, Runs, End, RoundsOf;
    LowCallers(START, limit, s);
    var first := End(START, Times(limit, s));
    var free := if s == VALUE_BASE then Times(limit, limit - 1) else [];
    if s == VALUE_BASE {
      HighCallers(first, limit, limit - 1);
    }
    NobodyMoves(first);
    EndOfConcat(START, Times(limit, s), free);
    var second := End(START, Times(limit, s) + free);
    AllRounds(second, limit, s);
    EndOfConcat(START, Times(limit, s) + free, RoundsOf(limit, s));
    WorstIsCapped(limit, s);
    assert s * limit == s + s * (limit - 1);
  }

  lemma NobodyMoves(s: Race)
    ensures Runs(s, []) && End(s, []) == s
  {
  }

  lemma WorstIsCapped(limit: nat, s: nat)
    requires limit >= 1
    ensures Capped(WorstCase(limit, s), limit) && Positive(WorstCase(limit, s))
  {
    RoundsAreCapped(limit, s);
  }

  lemma {:induction false} RoundsAreCapped(limit: nat, n: nat)
    requires limit >= 1
    ensures Capped(RoundsOf(limit, n), limit) && Positive(RoundsOf(limit, n))
  {
    if n == 0 {
    } else {
      RoundsAreCapped(limit, n - 1);
    }
  }

  /**
   Below a thousand the general bound needs its exception: callers with a very low limit count but are neither
   admitted nor reset, so behind 999 of them a single first caller opens two rounds.
   */
  lemma RefusedCallersMakeRoom(limit: nat)
    requires limit > 1
    ensures var acts := Times(-VALUE_BASE, VALUE_BASE - 1) + Times(limit, limit) + Round(limit);
            && Runs(START, acts) && Capped(acts, limit)
            && End(START, acts).low == 1 && End(START, acts).admitted == limit + (limit - 1)
  {
    var refused, acts := Times(-VALUE_BASE, VALUE_BASE - 1), Times(-VALUE_BASE, VALUE_BASE - 1) + Times(limit, limit);
    RefusedCallers(START, VALUE_BASE - 1);
    var s := End(START, refused);
    assert Times(limit, limit)[1..] == Times(limit, limit - 1);
    HighCallers(Step(s, Increment(limit)), limit, limit - 1);
    EndOfConcat(START, refused, Times(limit, limit));
    OneRound(End(START, acts), limit);
    EndOfConcat(START, acts, Round(limit));
  }

  lemma {:induction false} RefusedCallers(s: Race, n: nat)
    requires s.value >= 0 && s.pending == s.low
    ensures Runs(s, Times(-VALUE_BASE, n))
    ensures End(s, Times(-VALUE_BASE, n)) == s.(value := s.value + n, early := s.early + n)
    decreases n
  {
    if n == 0 {
    } else {
      assert Times(-VALUE_BASE, n)[1..] == Times(-VALUE_BASE, n - 1);
      RefusedCallers(Step(s, Increment(-VALUE_BASE)), n - 1);
    }
  }
}
