/** The sequence counter of the timer: one writer, any number of readers, one memory access at a time.
    Ticks are written and read in two halves, and the counter is a word that wraps. */
module SeqLock {
  import Arith

  const WORD: nat := 0x1_0000_0000

  /** Timer_Increment: at rest, or after raising the counter, the low half, the high half. */
  datatype Writer = Rest | Opened | LowDone(high: nat) | HighDone

  /** Timer_GetTicks: outside, about to read the counter again, or after reading the counter, the low
      half, the high half.  since and first are the unwrapped counts at the call and at the first read
      of the counter in this round. */
  datatype Reader =
    | Out
    | Again(since: nat)
    | GotSeq(since: nat, first: nat, seq0: nat)
    | GotLow(since: nat, first: nat, seq0: nat, low: nat)
    | GotHigh(since: nat, first: nat, seq0: nat, low: nat, high: nat)

  /** What a call returned, and the unwrapped counts at its start, at the first read of its last
      round and at its end. */
  datatype Result = Result(value: nat, since: nat, first: nat, until: nat)

  /** The machine carries an unwrapped count beside the counter. */
  datatype State = State(count: nat, counter: nat, low: nat, high: nat, writer: Writer, readers: seq<Reader>, results: seq<seq<Result>>)

  datatype Actor = Write | Read(r: nat)

  function WriterStep(s: State): State {
    match s.writer
    case Rest => s.(count := s.count + 1, counter := (s.counter + 1) % WORD, writer := Opened)
    case Opened =>
      s.(low := (s.low + 1) % WORD, writer := LowDone(if s.low + 1 == WORD then (s.high + 1) % WORD else s.high))
    case LowDone(high) => s.(high := high, writer := HighDone)
    case HighDone => s.(count := s.count + 1, counter := (s.counter + 1) % WORD, writer := Rest)
  }

  function ReaderStep(s: State, r: nat): State
    requires r < |s.readers| == |s.results|
  {
    match s.readers[r]
    case Out => s.(readers := s.readers[r := GotSeq(s.count, s.count, s.counter)])
    case Again(since) => s.(readers := s.readers[r := GotSeq(since, s.count, s.counter)])
    case GotSeq(since, first, seq0) => s.(readers := s.readers[r := GotLow(since, first, seq0, s.low)])
    case GotLow(since, first, seq0, low) => s.(readers := s.readers[r := GotHigh(since, first, seq0, low, s.high)])
    case GotHigh(since, first, seq0, low, high) =>
      if seq0 != s.counter || seq0 % 2 == 1 then s.(readers := s.readers[r := Again(since)])
      else
        s.(readers := s.readers[r := Out],
           results := s.results[r := s.results[r] + [Result(high * WORD + low, since, first, s.count)]])
  }

  function Step(s: State, a: Actor): (t: State)
    requires |s.readers| == |s.results|
    ensures |t.readers| == |t.results| == |s.readers|
  {
    match a
    case Write => WriterStep(s)
    case Read(r) => if r < |s.readers| then ReaderStep(s, r) else s
  }

  /** A step that ends a round of reading finds the counter raised fewer than bound times in it. */
  predicate Within(bound: nat, s: State, a: Actor) {
    a.Read? && a.r < |s.readers| && s.readers[a.r].GotHigh? ==> s.count < s.readers[a.r].first + bound
  }

  predicate Init(s: State) {
    && s.count == s.counter == s.low == s.high == 0 && s.writer == Rest
    && |s.readers| == |s.results| && forall r :: 0 <= r < |s.readers| ==> s.readers[r] == Out && s.results[r] == []
  }

  /** A run: writer and readers in any order, every round within the bound. */
  predicate Run(bound: nat, s: State, actors: seq<Actor>, t: State)
    requires |s.readers| == |s.results|
    decreases |actors|
  {
    if actors == [] then s == t
    else Within(bound, s, actors[0]) && Run(bound, Step(s, actors[0]), actors[1..], t)
  }

  // ---------------------------------------------------------------- the invariant

  /** The tick count after k increments, and its halves. */
  function Ticks(k: nat): nat {
    k % (WORD * WORD)
  }

  function Low(k: nat): nat {
    k % WORD
  }

  function High(k: nat): nat {
    k / WORD % WORD
  }

  lemma HalvesMakeTicks(k: nat)
    ensures High(k) * WORD + Low(k) == Ticks(k)
    ensures Low(k + 1) == (Low(k) + 1) % WORD
    ensures High(k + 1) == if Low(k) + 1 == WORD then (High(k) + 1) % WORD else High(k)
  {
    DigitsNext(k, WORD);
    TwoDigits(k, WORD);
  }

  /** The low two digits of k to base w. */
  lemma TwoDigits(k: nat, w: nat)
    requires w > 1
    ensures w * w > 0 && k / w % w * w + k % w == k % (w * w)
  {
    var q, r := k / w, k % w;
    var p, h := q / w, q % w;
    DivMod(k, w);
    DivMod(q, w);
    Arith.Distribute(p, w, h);
    LessDigits(h, r, w);
    Remainder(k, w * w, p, h * w + r);
  }

  lemma DivMod(k: nat, w: nat)
    requires w > 0
    ensures k == k / w * w + k % w && k % w < w
  {
  }

  lemma Remainder(k: nat, d: nat, p: nat, r: nat)
    requires k == p * d + r && r < d
    ensures k % d == r
  {
    Arith.DivUnique(k, d, p, r);
  }

  lemma LessDigits(h: nat, r: nat, w: nat)
    requires h < w && r < w
    ensures h * w + r < w * w
  {
    assert w * w == h * w + (w - h) * w;
    Arith.AtLeastOnce(w - h, w);
  }

  lemma DigitsNext(k: nat, w: nat)
    requires w > 1
    ensures (k + 1) % w == (k % w + 1) % w
    ensures (k + 1) / w % w == if k % w + 1 == w then (k / w % w + 1) % w else k / w % w
  {
    var q, r := k / w, k % w;
    assert k == q * w + r;
    Arith.NextMultiple(q, w);
    if r + 1 == w {
      Arith.DivUnique(k + 1, w, q + 1, 0);
      Arith.DivUnique(w, w, 1, 0);
      DigitUp(q, w);
    } else {
      Arith.DivUnique(k + 1, w, q, r + 1);
      Arith.DivUnique(r + 1, w, 0, r + 1);
    }
  }

  lemma DigitUp(q: nat, w: nat)
    requires w > 1
    ensures (q + 1) % w == (q % w + 1) % w
  {
    var p, h := q / w, q % w;
    assert q == p * w + h;
    Arith.NextMultiple(p, w);
    if h + 1 == w {
      Arith.DivUnique(q + 1, w, p + 1, 0);
      Arith.DivUnique(w, w, 1, 0);
    } else {
      Arith.DivUnique(q + 1, w, p, h + 1);
      Arith.DivUnique(h + 1, w, 0, h + 1);
    }
  }

  predicate WriterOk(s: State) {
    match s.writer
    case Rest => s.count % 2 == 0 && s.low == Low(s.count / 2) && s.high == High(s.count / 2)
    case Opened => s.count % 2 == 1 && s.low == Low(s.count / 2) && s.high == High(s.count / 2)
    case LowDone(high) => s.count % 2 == 1 && s.low == Low(s.count / 2 + 1) && high == High(s.count / 2 + 1)
    case HighDone => s.count % 2 == 1 && s.low == Low(s.count / 2 + 1) && s.high == High(s.count / 2 + 1)
  }

  predicate ReaderOk(count: nat, r: Reader) {
    match r
    case Out => true
    case Again(since) => since <= count
    case GotSeq(since, first, seq0) => since <= first <= count && seq0 == first % WORD
    case GotLow(since, first, seq0, low) =>
      since <= first <= count && seq0 == first % WORD && (first == count && first % 2 == 0 ==> low == Low(first / 2))
    case GotHigh(since, first, seq0, low, high) =>
      since <= first <= count && seq0 == first % WORD && (first == count && first % 2 == 0 ==> low == Low(first / 2) && high == High(first / 2))
  }

  /** A result is the number of increments completed when its last round began, which is inside the call. */
  predicate ResultOk(res: Result) {
    res.first % 2 == 0 && res.since <= res.first <= res.until && res.value == Ticks(res.first / 2)
  }

  predicate Inv(s: State) {
    && |s.readers| == |s.results| && s.counter == s.count % WORD && WriterOk(s)
    && (forall r :: 0 <= r < |s.readers| ==> ReaderOk(s.count, s.readers[r]))
    && (forall r, i :: 0 <= r < |s.results| && 0 <= i < |s.results[r]| ==> ResultOk(s.results[r][i]) && s.results[r][i].until <= s.count)
    && (forall r, i :: 0 <= r < |s.results| && 0 <= i < |s.results[r]| && !s.readers[r].Out? ==> s.results[r][i].until <= s.readers[r].since)
    && (forall r, i, j :: 0 <= r < |s.results| && 0 <= i < j < |s.results[r]| ==> s.results[r][i].until <= s.results[r][j].since)
  }

  lemma WriterKeeps(s: State)
    requires Inv(s)
    ensures Inv(WriterStep(s))
  {
    hide WriterOk, ReaderOk, ResultOk;
    var t := WriterStep(s);
    WriterAdvances(s);
    forall r | 0 <= r < |s.readers|
      ensures ReaderOk(t.count, t.readers[r])
    {
      ReaderStaysOk(s.count, t.count, s.readers[r]);
    }
  }

  lemma WriterAdvances(s: State)
    requires WriterOk(s) && s.counter == s.count % WORD
    ensures var t := WriterStep(s); WriterOk(t) && t.counter == t.count % WORD && t.count >= s.count
  {
    hide Low, High;
    var k := s.count / 2;
    NextCount(s.count);
    match s.writer
    case Opened => HalvesMakeTicks(k);
    case _ =>
  }

  lemma NextCount(c: nat)
    ensures (c % WORD + 1) % WORD == (c + 1) % WORD
    ensures if c % 2 == 0 then (c + 1) / 2 == c / 2 && (c + 1) % 2 == 1 else (c + 1) / 2 == c / 2 + 1 && (c + 1) % 2 == 0
  {
  }

  lemma ReaderStaysOk(count: nat, more: nat, r: Reader)
    requires ReaderOk(count, r) && count <= more
    ensures ReaderOk(more, r)
  {
    hide Low, High;
  }

  /** Two counts less than a whole turn of the counter apart that read the same are the same. */
  lemma NoTurn(first: nat, count: nat)
    requires first <= count < first + WORD && first % WORD == count % WORD
    ensures first == count
  {
  }

  lemma ReaderKeeps(bound: nat, s: State, r: nat)
    requires Inv(s) && r < |s.readers| && Within(bound, s, Read(r)) && bound <= WORD
    ensures Inv(ReaderStep(s, r))
  {
    hide Low, High, Ticks;
    match s.readers[r]
    case GotHigh(since, first, seq0, low, high) =>
      if seq0 == s.counter && seq0 % 2 == 0 {
        NoTurn(first, s.count);
        HalvesMakeTicks(first / 2);
        assert ResultOk(Result(high * WORD + low, since, first, s.count));
      }
    case _ =>
  }

  lemma StepKeeps(bound: nat, s: State, a: Actor)
    requires Inv(s) && Within(bound, s, a) && bound <= WORD
    ensures Inv(Step(s, a))
  {
    hide Inv;
    InvSizes(s);
    match a
    case Write => WriterKeeps(s);
    case Read(r) =>
      if r < |s.readers| {
        ReaderKeeps(bound, s, r);
      }
  }

  lemma InvSizes(s: State)
    requires Inv(s)
    ensures |s.readers| == |s.results|
  {
  }

  lemma {:induction false} RunKeeps(bound: nat, s: State, actors: seq<Actor>, t: State)
    requires Inv(s) && bound <= WORD && Run(bound, s, actors, t)
    ensures Inv(t) && |t.readers| == |s.readers|
    decreases |actors|
  {
    hide Inv, Step;
    InvSizes(s);
    if actors != [] {
      StepKeeps(bound, s, actors[0]);
      RunKeeps(bound, Step(s, actors[0]), actors[1..], t);
    }
  }

  // ---------------------------------------------------------------- main results

  ghost predicate Reachable(bound: nat, t: State) {
    exists s: State, actors: seq<Actor> :: Init(s) && Run(bound, s, actors, t)
  }

  /** While no round sees the counter turn over, a call returns half the count it first read, that is,
      the increments completed at an instant inside the call. */
  lemma NeverTorn(t: State, r: nat, i: nat)
    requires Reachable(WORD, t) && |t.readers| == |t.results| && r < |t.results| && i < |t.results[r]|
    ensures var res := t.results[r][i];
      res.since <= res.first <= res.until && res.first % 2 == 0 && res.value == Ticks(res.first / 2)
    ensures t.count < 2 * WORD * WORD ==> t.results[r][i].value == t.results[r][i].first / 2
  {
    var s: State, actors: seq<Actor> :| Init(s) && Run(WORD, s, actors, t);
    HalvesMakeTicks(0);
    RunKeeps(WORD, s, actors, t);
    assert ResultOk(t.results[r][i]);
  }

  /** A round of reading that starts between two increments and is not disturbed returns, with the
      increments completed so far, whether the call begins with it or has tried before. */
  lemma CallReturns(t: State, r: nat)
    requires Reachable(WORD, t) && |t.readers| == |t.results| && r < |t.readers| && t.count % 2 == 0
    requires t.readers[r].Out? || t.readers[r].Again?
    ensures var u := Step(Step(Step(Step(t, Read(r)), Read(r)), Read(r)), Read(r));
      var since := if t.readers[r].Out? then t.count else t.readers[r].since;
      && u.readers[r] == Out && u.results == t.results[r := t.results[r] + [Result(Ticks(t.count / 2), since, t.count, t.count)]]
      && u.count == t.count && u.low == t.low && u.high == t.high
  {
    var s: State, actors: seq<Actor> :| Init(s) && Run(WORD, s, actors, t);
    HalvesMakeTicks(0);
    RunKeeps(WORD, s, actors, t);
    HalvesMakeTicks(t.count / 2);
    RoundEnds(t, r);
  }

  lemma RoundEnds(t: State, r: nat)
    requires |t.readers| == |t.results| && r < |t.readers| && (t.readers[r].Out? || t.readers[r].Again?)
    requires t.count % 2 == 0 && t.counter == t.count % WORD
    ensures var u := Step(Step(Step(Step(t, Read(r)), Read(r)), Read(r)), Read(r));
      var since := if t.readers[r].Out? then t.count else t.readers[r].since;
      && u.readers[r] == Out && u.results == t.results[r := t.results[r] + [Result(t.high * WORD + t.low, since, t.count, t.count)]]
      && u.count == t.count && u.low == t.low && u.high == t.high
  {
    var since := if t.readers[r].Out? then t.count else t.readers[r].since;
    var t1 := Step(t, Read(r));
    assert t1.readers[r] == GotSeq(since, t.count, t.counter);
    var t2 := Step(t1, Read(r));
    assert t2.readers[r] == GotLow(since, t.count, t.counter, t.low);
    var t3 := Step(t2, Read(r));
    assert t3.readers[r] == GotHigh(since, t.count, t.counter, t.low, t.high);
    assert t.counter % 2 == 0;
  }

  /** A reader's results never go back, until the tick count itself wraps. */
  lemma NeverGoesBack(t: State, r: nat, i: nat, j: nat)
    requires Reachable(WORD, t) && |t.readers| == |t.results| && r < |t.results| && i < j < |t.results[r]|
    ensures t.results[r][i].first <= t.results[r][j].first
    ensures t.count < 2 * WORD * WORD ==> t.results[r][i].value <= t.results[r][j].value
  {
    var s: State, actors: seq<Actor> :| Init(s) && Run(WORD, s, actors, t);
    HalvesMakeTicks(0);
    RunKeeps(WORD, s, actors, t);
    assert ResultOk(t.results[r][i]) && ResultOk(t.results[r][j]);
  }

  // ---------------------------------------------------------------- the bound is exact

  /** One whole increment. */
  lemma OneIncrement(bound: nat, s: State)
    requires Inv(s) && s.writer == Rest
    ensures var t := Step(Step(Step(Step(s, Write), Write), Write), Write);
      Inv(t) && t.writer == Rest && t.count == s.count + 2 && t.readers == s.readers && t.results == s.results
  {
    hide Inv;
    WriterKeeps(s);
    WriterKeeps(WriterStep(s));
    WriterKeeps(WriterStep(WriterStep(s)));
    WriterKeeps(WriterStep(WriterStep(WriterStep(s))));
    InvSizes(s);
  }

  /** The writer alone can complete any number of increments. */
  lemma {:induction false} Increments(bound: nat, s: State, n: nat) returns (actors: seq<Actor>, t: State)
    requires Inv(s) && s.writer == Rest
    ensures Run(bound, s, actors, t) && Inv(t) && t.writer == Rest
    ensures t.count == s.count + 2 * n && t.readers == s.readers && t.results == s.results
    decreases n
  {
    hide Inv, WriterStep;
    InvSizes(s);
    if n == 0 {
      actors, t := [], s;
    } else {
      OneIncrement(bound, s);
      var u := Step(Step(Step(Step(s, Write), Write), Write), Write);
      var rest;
      rest, t := Increments(bound, u, n - 1);
      actors := [Write, Write, Write, Write] + rest;
      WritesFirst(bound, s, rest, t);
    }
  }

  lemma WritesFirst(bound: nat, s: State, rest: seq<Actor>, t: State)
    requires |s.readers| == |s.results| && Run(bound, Step(Step(Step(Step(s, Write), Write), Write), Write), rest, t)
    ensures Run(bound, s, [Write, Write, Write, Write] + rest, t)
  {
    hide Step;
    var s1 := Step(s, Write);
    var s2 := Step(s1, Write);
    var s3 := Step(s2, Write);
    RunCons(bound, s3, Write, rest, t);
    RunCons(bound, s2, Write, [Write] + rest, t);
    RunCons(bound, s1, Write, [Write] + ([Write] + rest), t);
    RunCons(bound, s, Write, [Write] + ([Write] + ([Write] + rest)), t);
    assert [Write, Write, Write, Write] + rest == [Write] + ([Write] + ([Write] + ([Write] + rest)));
  }

  lemma RunCons(bound: nat, s: State, a: Actor, rest: seq<Actor>, t: State)
    requires |s.readers| == |s.results| && Within(bound, s, a) && Run(bound, Step(s, a), rest, t)
    ensures Run(bound, s, [a] + rest, t)
  {
    hide Step, Within;
    assert ([a] + rest)[1..] == rest;
  }

  /** A round in which the counter turns over exactly once returns a count that was not the one it began at. */
  lemma TurnedOver(bound: nat) returns (t: State)
    requires bound > WORD
    ensures Reachable(bound, t) && t.results == [[Result(WORD / 2, 0, 0, WORD)]]
  {
    hide Inv, Run;
    var s := State(0, 0, 0, 0, Rest, [Out], [[]]);
    var s1 := State(0, 0, 0, 0, Rest, [GotSeq(0, 0, 0)], [[]]);
    assert Init(s) && Step(s, Read(0)) == s1;
    StartOk(s1);
    var actors, u := Increments(bound, s1, WORD / 2);
    HalfTurn(u);
    var last;
    last, t := ReadsOut(bound, u);
    RunsJoin(bound, s1, actors, u, last, t);
    RunCons(bound, s, Read(0), actors + last, t);
  }

  lemma StartOk(s: State)
    requires s.count == s.counter == s.low == s.high == 0 && s.writer == Rest && s.readers == [GotSeq(0, 0, 0)] && s.results == [[]]
    ensures Inv(s)
  {
    HalvesMakeTicks(0);
  }

  lemma HalfTurn(u: State)
    requires Inv(u) && u.writer == Rest && u.count == WORD
    ensures u.counter == 0 && u.low == WORD / 2 && u.high == 0
  {
  }

  /** The remaining reads of the round. */
  lemma ReadsOut(bound: nat, u: State) returns (last: seq<Actor>, t: State)
    requires bound > WORD && u.count == WORD && u.counter == 0 && u.low == WORD / 2 && u.high == 0
    requires u.readers == [GotSeq(0, 0, 0)] && u.results == [[]]
    ensures Run(bound, u, last, t) && t.results == [[Result(WORD / 2, 0, 0, WORD)]]
  {
    hide Run;
    var u1 := u.(readers := [GotLow(0, 0, 0, WORD / 2)]);
    var u2 := u.(readers := [GotHigh(0, 0, 0, WORD / 2, 0)]);
    t := u.(readers := [Out], results := [[Result(WORD / 2, 0, 0, WORD)]]);
    var res := Result(WORD / 2, 0, 0, WORD);
    assert u2.results[0] + [res] == [res] && u2.results[0 := [res]] == [[res]] && u2.readers[0 := Out] == [Out];
    assert Step(u, Read(0)) == u1 && Step(u1, Read(0)) == u2 && Step(u2, Read(0)) == t;
    RunNothing(bound, t);
    RunCons(bound, u2, Read(0), [], t);
    RunCons(bound, u1, Read(0), [Read(0)] + [], t);
    RunCons(bound, u, Read(0), [Read(0)] + ([Read(0)] + []), t);
    last := [Read(0)] + ([Read(0)] + ([Read(0)] + []));
  }

  lemma RunNothing(bound: nat, t: State)
    requires |t.readers| == |t.results|
    ensures Run(bound, t, [], t)
  {
  }

  lemma {:induction false} RunsJoin(bound: nat, s: State, a: seq<Actor>, t: State, b: seq<Actor>, u: State)
    requires |s.readers| == |s.results| && |t.readers| == |t.results| && Run(bound, s, a, t) && Run(bound, t, b, u)
    ensures Run(bound, s, a + b, u)
    decreases |a|
  {
    hide Step, Within;
    if a == [] {
      assert a + b == b;
    } else {
      assert (a + b)[1..] == a[1..] + b;
      RunsJoin(bound, Step(s, a[0]), a[1..], t, b, u);
    }
  }

  ghost predicate AllRight(t: State) {
    forall r, i :: 0 <= r < |t.results| && 0 <= i < |t.results[r]| ==> ResultOk(t.results[r][i])
  }

  /** Every result in every run is right if and only if no round lasts a whole turn of the counter. */
  lemma RightIffNoTurn(bound: nat)
    ensures (forall t: State :: Reachable(bound, t) ==> AllRight(t)) <==> bound <= WORD
  {
    if bound <= WORD {
      forall t: State | Reachable(bound, t)
        ensures AllRight(t)
      {
        var s: State, actors: seq<Actor> :| Init(s) && Run(bound, s, actors, t);
        HalvesMakeTicks(0);
        RunKeeps(bound, s, actors, t);
      }
    } else {
      var t := TurnedOver(bound);
      assert !ResultOk(t.results[0][0]);
      assert !AllRight(t);
    }
  }
}
