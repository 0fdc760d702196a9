/**
 When the merged output is in key order: sorted inputs are enough while the inputs stay
 the same, and an input added late must not start below what was already released.
 */
module AggregatorOrder {
  import opened Options
  import opened AggregatorSpec
  import opened AggregatorRuns

  predicate IsPush<T>(c: Call<T>) {
    c.Push? || c.PushLatest?
  }

  // ----- sorted inputs -----

  /** The newest key each input has been given, after one more call. */
  ghost function Given<T>(last: seq<Option<int>>, key: T -> int, c: Call<T>): seq<Option<int>> {
    if IsPush(c) && c.input < |last| then last[c.input := Some(key(c.item))]
    else if c.AddInput? then last + [None]
    else last
  }

  ghost predicate SortedCall<T>(last: seq<Option<int>>, key: T -> int, c: Call<T>) {
    IsPush(c) ==> c.input < |last| && (last[c.input].Some? ==> last[c.input].value <= key(c.item))
  }

  /** The keys pushed to each input never go down. */
  ghost predicate MonotoneInputs<T>(last: seq<Option<int>>, key: T -> int, cs: seq<Call<T>>)
    decreases |cs|
  {
    cs == [] || (SortedCall(last, key, cs[0]) && MonotoneInputs(Given(last, key, cs[0]), key, cs[1..]))
  }

  // ----- timely pushes -----

  /** The key released last, after one more call. */
  ghost function LastReleased<T>(s: State<T>, key: T -> int, c: Call<T>, released: Option<int>): Option<int>
    requires s.Valid()
  {
    if FirstRelease(s, key, c) == [] then released else Some(key(FirstRelease(s, key, c)[0].1))
  }

  /** A push is late when its key is below the key released last. */
  ghost predicate TimelyCall<T>(key: T -> int, c: Call<T>, released: Option<int>) {
    IsPush(c) && released.Some? ==> released.value <= key(c.item)
  }

  /** No push of the run is late. */
  ghost predicate Timely<T>(s: State<T>, key: T -> int, cs: seq<Call<T>>, released: Option<int>)
    requires Legal(s, key, cs)
    decreases |cs|
  {
    cs == [] ||
    (TimelyCall(key, cs[0], released) && Timely(Step(s, key, cs[0]), key, cs[1..], LastReleased(s, key, cs[0], released)))
  }

  // ----- the floor under what is queued -----

  ghost predicate SortedBy<T>(q: seq<T>, key: T -> int) {
    forall a, b :: 0 <= a < b < |q| ==> key(q[a]) <= key(q[b])
  }

  ghost predicate AtMost<T>(q: seq<T>, last: Option<int>, key: T -> int) {
    q == [] || (last.Some? && forall a :: 0 <= a < |q| ==> key(q[a]) <= last.value)
  }

  ghost predicate AtLeast<T>(q: seq<T>, released: Option<int>, key: T -> int) {
    released.Some? ==> forall a :: 0 <= a < |q| ==> released.value <= key(q[a])
  }

  /** One input's queue is sorted, holds no key above the newest it was given, and none
      below the key released last. */
  ghost predicate InputFloor<T>(q: seq<T>, last: Option<int>, released: Option<int>, key: T -> int) {
    SortedBy(q, key) && AtMost(q, last, key) && AtLeast(q, released, key)
  }

  ghost predicate Floor<T>(s: State<T>, key: T -> int, last: seq<Option<int>>, released: Option<int>) {
    && s.Valid() && |last| == |s.queues|
    && (forall i :: 0 <= i < |s.queues| ==> InputFloor(s.queues[i], last[i], released, key))
  }

  lemma SortedSuffix<T>(q: seq<T>, k: nat, key: T -> int)
    requires SortedBy(q, key) && k <= |q|
    ensures SortedBy(q[k..], key)
  {
    var r := q[k..];
    forall a, b | 0 <= a < b < |r| ensures key(r[a]) <= key(r[b]) {
      assert r[a] == q[k + a] && r[b] == q[k + b];
    }
  }

  lemma InputFloorSuffix<T>(q: seq<T>, k: nat, last: Option<int>, released: Option<int>, key: T -> int)
    requires InputFloor(q, last, released, key) && k <= |q|
    ensures InputFloor(q[k..], last, released, key)
  {
    SortedSuffix(q, k, key);
    var r := q[k..];
    forall a | 0 <= a < |r| ensures key(r[a]) <= last.value && (released.Some? ==> released.value <= key(r[a])) {
      assert r[a] == q[k + a];
    }
  }

  lemma SortedPush<T>(q: seq<T>, x: T, key: T -> int)
    requires SortedBy(q, key) && AtMost(q, Some(key(x)), key)
    ensures SortedBy(q + [x], key)
  {
    var r := q + [x];
    forall a, b | 0 <= a < b < |r| ensures key(r[a]) <= key(r[b]) {
      assert r[a] == q[a];
      assert b < |q| ==> r[b] == q[b];
    }
  }

  lemma AtMostNewest<T>(q: seq<T>, last: Option<int>, k: int, key: T -> int)
    requires AtMost(q, last, key) && (last.Some? ==> last.value <= k)
    ensures AtMost(q, Some(k), key)
  {
    forall a | 0 <= a < |q| ensures key(q[a]) <= k {
      assert key(q[a]) <= last.value;
    }
  }

  lemma InputFloorPush<T>(q: seq<T>, x: T, last: Option<int>, released: Option<int>, key: T -> int)
    requires InputFloor(q, last, released, key) && (last.Some? ==> last.value <= key(x))
    requires released.Some? ==> released.value <= key(x)
    ensures InputFloor(q + [x], Some(key(x)), released, key)
    ensures InputFloor([x], Some(key(x)), released, key)
  {
    AtMostNewest(q, last, key(x), key);
    SortedPush(q, x, key);
    var r := q + [x];
    forall a | 0 <= a < |r| ensures key(r[a]) <= key(x) && (released.Some? ==> released.value <= key(r[a])) {
      assert a < |q| ==> r[a] == q[a];
    }
    assert [x][0] == x;
  }

  lemma FloorAfterPush<T>(s: State<T>, key: T -> int, c: Call<T>, last: seq<Option<int>>, released: Option<int>)
    requires IsPush(c) && InRange(s, c) && Floor(s, key, last, released)
    requires SortedCall(last, key, c) && TimelyCall(key, c, released)
    ensures Floor(Step(s, key, c), key, Given(last, key, c), released)
  {
    var i, x := c.input, c.item;
    InputFloorPush(s.queues[i], x, last[i], released, key);
    var q := s.queues[i] + [x];
    InputFloorSuffix(q, Excess(|q|, s.maxDepth), Some(key(x)), released, key);
  }

  lemma HeadIsAtLeast<T>(q: seq<T>, last: Option<int>, released: Option<int>, k: int, key: T -> int)
    requires InputFloor(q, last, released, key) && q != [] && k <= key(q[0])
    ensures InputFloor(q, last, Some(k), key)
  {
    forall a | 0 <= a < |q| ensures k <= key(q[a]) {
      assert a > 0 ==> key(q[0]) <= key(q[a]);
    }
  }

  lemma FloorAfterTake<T>(s: State<T>, key: T -> int, last: seq<Option<int>>, released: Option<int>)
    requires Floor(s, key, last, released) && s.Ready()
    ensures
      var w := Earliest(s.queues, key).value;
      && (released.Some? ==> released.value <= key(s.queues[w][0]))
      && Floor(PopStep(s, w), key, last, Some(key(s.queues[w][0])))
  {
    var w := Earliest(s.queues, key).value;
    var k := key(s.queues[w][0]);
    assert InputFloor(s.queues[w], last[w], released, key);
    forall i | 0 <= i < |s.queues| ensures InputFloor(s.queues[i], last[i], Some(k), key) {
      assert InputFloor(s.queues[i], last[i], released, key);
      if s.queues[i] != [] {
        HeadIsAtLeast(s.queues[i], last[i], released, k, key);
      }
    }
    InputFloorSuffix(s.queues[w], 1, last[w], Some(k), key);
  }

  /** `r` is what is left of `q` after its first items are gone. */
  ghost predicate IsSuffix<T>(r: seq<T>, q: seq<T>) {
    |r| <= |q| && r == q[|q| - |r|..]
  }

  /** Fewer items in some queues, and the floor stays. */
  lemma FloorAfterDrop<T>(s: State<T>, t: State<T>, key: T -> int, last: seq<Option<int>>, released: Option<int>)
    requires Floor(s, key, last, released) && t.Valid() && |t.queues| == |s.queues|
    requires forall i :: 0 <= i < |s.queues| ==> IsSuffix(t.queues[i], s.queues[i])
    ensures Floor(t, key, last, released)
  {
    forall i | 0 <= i < |s.queues| ensures InputFloor(t.queues[i], last[i], released, key) {
      assert InputFloor(s.queues[i], last[i], released, key) && IsSuffix(t.queues[i], s.queues[i]);
      InputFloorSuffix(s.queues[i], |s.queues[i]| - |t.queues[i]|, last[i], released, key);
    }
  }

  lemma DropsOnly<T>(s: State<T>, key: T -> int, c: Call<T>, i: nat)
    requires s.Valid() && InRange(s, c) && (c.Clear? || c.MarkEnded? || c.TakeRound? || c.TakeRoundLatest?)
    requires i < |s.queues|
    ensures |Step(s, key, c).queues| == |s.queues| && IsSuffix(Step(s, key, c).queues[i], s.queues[i])
  {
    SuffixesOf(s.queues[i]);
    match c
    case Clear(_) =>
    case MarkEnded(_) =>
    case TakeRound =>
    case TakeRoundLatest(_) =>
  }

  lemma SuffixesOf<T>(q: seq<T>)
    ensures IsSuffix(q, q) && IsSuffix([], q) && (q != [] ==> IsSuffix(q[1..], q))
  {
  }

  ghost predicate NonDecreasing<T>(items: seq<(nat, T)>, key: T -> int, floor: Option<int>) {
    && (forall a, b :: 0 <= a < b < |items| ==> key(items[a].1) <= key(items[b].1))
    && (floor.Some? ==> forall a :: 0 <= a < |items| ==> floor.value <= key(items[a].1))
  }

  /** One timely call keeps the floor, and releases nothing below it. */
  lemma FloorStep<T>(s: State<T>, key: T -> int, c: Call<T>, last: seq<Option<int>>, released: Option<int>)
    requires InRange(s, c) && Floor(s, key, last, released)
    requires SortedCall(last, key, c) && TimelyCall(key, c, released)
    ensures Floor(Step(s, key, c), key, Given(last, key, c), LastReleased(s, key, c, released))
    ensures NonDecreasing(FirstRelease(s, key, c), key, released)
  {
    if IsPush(c) {
      FloorAfterPush(s, key, c, last, released);
    } else if c.TakeEarliest? {
      if s.Ready() {
        FloorAfterTake(s, key, last, released);
      }
    } else if c.AddInput? {
      AddedFloor(s, key, last, released);
    } else {
      forall i | 0 <= i < |s.queues| ensures IsSuffix(Step(s, key, c).queues[i], s.queues[i]) {
        DropsOnly(s, key, c, i);
      }
      FloorAfterDrop(s, Step(s, key, c), key, last, released);
    }
  }

  lemma AddedFloor<T>(s: State<T>, key: T -> int, last: seq<Option<int>>, released: Option<int>)
    requires Floor(s, key, last, released)
    ensures Floor(AddInputStep(s), key, last + [None], released)
  {
  }

  lemma NonDecreasingCons<T>(x: (nat, T), rest: seq<(nat, T)>, key: T -> int, floor: Option<int>)
    requires NonDecreasing(rest, key, Some(key(x.1))) && (floor.Some? ==> floor.value <= key(x.1))
    ensures NonDecreasing([x] + rest, key, floor)
  {
  }

  lemma NonDecreasingRest<T>(x: (nat, T), rest: seq<(nat, T)>, key: T -> int, floor: Option<int>)
    requires NonDecreasing([x] + rest, key, floor)
    ensures NonDecreasing(rest, key, Some(key(x.1)))
  {
    var all := [x] + rest;
    forall a, b | 0 <= a < b < |rest| ensures key(rest[a].1) <= key(rest[b].1) {
      assert all[a + 1] == rest[a] && all[b + 1] == rest[b];
    }
    forall a | 0 <= a < |rest| ensures key(x.1) <= key(rest[a].1) {
      assert all[0] == x && all[a + 1] == rest[a];
    }
  }

  /** The output of a run is its first release and then the rest, above that release. */
  lemma NonDecreasingAfter<T>(first: seq<(nat, T)>, rest: seq<(nat, T)>, key: T -> int, floor: Option<int>, next: Option<int>)
    requires |first| <= 1 && NonDecreasing(first, key, floor)
    requires next == (if first == [] then floor else Some(key(first[0].1)))
    ensures NonDecreasing(first + rest, key, floor) <==> NonDecreasing(rest, key, next)
  {
    if first == [] {
      assert first + rest == rest;
    } else {
      assert first == [first[0]];
      if NonDecreasing(rest, key, next) {
        NonDecreasingCons(first[0], rest, key, floor);
      }
      if NonDecreasing(first + rest, key, floor) {
        NonDecreasingRest(first[0], rest, key, floor);
      }
    }
  }

  /** Sorted inputs and timely pushes give one non-decreasing output, whatever the depth
      cap evicts, whatever is cleared, added or taken in rounds on the way. */
  lemma {:induction false} OrderedFrom<T>(s: State<T>, key: T -> int, cs: seq<Call<T>>, last: seq<Option<int>>, released: Option<int>)
    requires Legal(s, key, cs) && Timely(s, key, cs, released)
    requires Floor(s, key, last, released) && MonotoneInputs(last, key, cs)
    ensures NonDecreasing(Merged(s, key, cs), key, released)
    decreases |cs|
  {
    if cs != [] {
      var c := cs[0];
      var t, next := Step(s, key, c), LastReleased(s, key, c, released);
      FloorStep(s, key, c, last, released);
      OrderedFrom(t, key, cs[1..], Given(last, key, c), next);
      NonDecreasingAfter(FirstRelease(s, key, c), Merged(t, key, cs[1..]), key, released, next);
    }
  }

  // ----- a late push shows -----

  /** Nothing is pushed any more. */
  ghost predicate Quiet<T>(cs: seq<Call<T>>) {
    forall k :: 0 <= k < |cs| ==> !IsPush(cs[k])
  }

  /** However the run is broken off and then taken to an end, its output is in order. */
  ghost predicate OrderedHoweverItEnds<T(!new)>(s: State<T>, key: T -> int, cs: seq<Call<T>>, released: Option<int>) {
    forall k, more :: 0 <= k <= |cs| && Quiet(more) && Legal(s, key, cs[..k] + more) ==>
      NonDecreasing(Merged(s, key, cs[..k] + more), key, released)
  }

  lemma {:induction false} QuietIsTimely<T>(s: State<T>, key: T -> int, more: seq<Call<T>>, last: seq<Option<int>>, released: Option<int>)
    requires Legal(s, key, more) && Quiet(more)
    ensures Timely(s, key, more, released) && MonotoneInputs(last, key, more)
    decreases |more|
  {
    if more != [] {
      assert Quiet(more[1..]);
      QuietIsTimely(Step(s, key, more[0]), key, more[1..], Given(last, key, more[0]), LastReleased(s, key, more[0], released));
    }
  }

  lemma {:induction false} TimelyPrefix<T>(s: State<T>, key: T -> int, cs: seq<Call<T>>, k: nat, more: seq<Call<T>>,
                                           last: seq<Option<int>>, released: Option<int>)
    requires k <= |cs| && Quiet(more) && Legal(s, key, cs) && Legal(s, key, cs[..k] + more)
    requires Timely(s, key, cs, released) && MonotoneInputs(last, key, cs)
    ensures Timely(s, key, cs[..k] + more, released) && MonotoneInputs(last, key, cs[..k] + more)
    decreases k
  {
    if k == 0 {
      assert cs[..k] + more == more;
      QuietIsTimely(s, key, more, last, released);
    } else {
      var all, c := cs[..k] + more, cs[0];
      assert all[0] == c && all[1..] == cs[1..][..k - 1] + more;
      TimelyPrefix(Step(s, key, c), key, cs[1..], k - 1, more, Given(last, key, c), LastReleased(s, key, c, released));
    }
  }

  /** Ends inputs `i` to `n`, then takes once. */
  ghost function EndAndTake<T>(i: nat, n: nat): (cs: seq<Call<T>>)
    decreases n - i
  {
    if i >= n then [TakeEarliest] else [MarkEnded(i)] + EndAndTake(i + 1, n)
  }

  lemma {:induction false} EndAndTakeIsQuiet<T>(i: nat, n: nat)
    ensures Quiet(EndAndTake<T>(i, n))
    decreases n - i
  {
    if i < n {
      EndAndTakeIsQuiet<T>(i + 1, n);
    }
  }

  /** With everything ended, one take releases a key no larger than any queued head. */
  lemma TakeOfEnded<T>(s: State<T>, key: T -> int, i: nat)
    requires s.Valid() && i < |s.queues| && s.queues[i] != [] && forall j :: 0 <= j < |s.ended| ==> s.ended[j]
    ensures Legal(s, key, [TakeEarliest]) && |Merged(s, key, [TakeEarliest])| == 1
    ensures key(Merged(s, key, [TakeEarliest])[0].1) <= key(s.queues[i][0])
  {
    assert s.Contributes(i);
    assert s.Ready();
    var cs: seq<Call<T>> := [TakeEarliest];
    assert cs[1..] == [];
    assert Merged(Step(s, key, TakeEarliest), key, []) == [];
  }

  lemma {:induction false} TakeAfterEnds<T>(s: State<T>, key: T -> int, k: nat, i: nat)
    requires s.Valid() && i < |s.queues| && s.queues[i] != []
    requires k <= |s.queues| && forall j :: 0 <= j < k ==> s.ended[j]
    ensures
      var cs := EndAndTake<T>(k, |s.queues|);
      && Legal(s, key, cs) && |Merged(s, key, cs)| == 1
      && key(Merged(s, key, cs)[0].1) <= key(s.queues[i][0])
    decreases |s.queues| - k
  {
    if k == |s.queues| {
      TakeOfEnded(s, key, i);
    } else {
      var cs, t := EndAndTake<T>(k, |s.queues|), MarkEndedStep(s, k);
      TakeAfterEnds(t, key, k + 1, i);
      assert cs[0] == MarkEnded(k) && cs[1..] == EndAndTake<T>(k + 1, |s.queues|);
      assert Merged(s, key, cs) == [] + Merged(t, key, cs[1..]);
    }
  }

  /** The pushed item is queued, and nothing before it in its queue has a larger key. */
  lemma PushedHead<T>(s: State<T>, key: T -> int, c: Call<T>, last: seq<Option<int>>, released: Option<int>)
    requires IsPush(c) && InRange(s, c) && Floor(s, key, last, released) && SortedCall(last, key, c)
    ensures
      var q := Step(s, key, c).queues[c.input];
      q != [] && key(q[0]) <= key(c.item)
  {
    var i, x := c.input, c.item;
    assert InputFloor(s.queues[i], last[i], released, key);
    AtMostNewest(s.queues[i], last[i], key(x), key);
    var all := s.queues[i] + [x];
    var k := Excess(|all|, s.maxDepth);
    assert k < |all|;
    assert all[k..][0] == all[k];
    assert k < |s.queues[i]| ==> all[k] == s.queues[i][k];
  }

  /** The run's output is out of order. */
  ghost predicate Shows<T>(s: State<T>, key: T -> int, run: seq<Call<T>>, released: Option<int>) {
    Legal(s, key, run) && !NonDecreasing(Merged(s, key, run), key, released)
  }

  lemma LatePushShows<T>(s: State<T>, key: T -> int, c: Call<T>, last: seq<Option<int>>, released: Option<int>)
    requires IsPush(c) && InRange(s, c) && Floor(s, key, last, released) && SortedCall(last, key, c)
    requires !TimelyCall(key, c, released)
    ensures Shows(s, key, [c] + EndAndTake<T>(0, |s.queues|), released)
  {
    var cs, t := [c] + EndAndTake<T>(0, |s.queues|), Step(s, key, c);
    PushedHead(s, key, c, last, released);
    TakeAfterEnds(t, key, 0, c.input);
    assert cs[1..] == EndAndTake<T>(0, |t.queues|);
    assert Merged(s, key, cs) == [] + Merged(t, key, cs[1..]);
    var out := Merged(s, key, cs);
    assert key(out[0].1) < released.value;
  }

  /** A run with a late push can be broken off right after it and ended so that the output
      is out of order. */
  lemma {:induction false} LateRunShows<T>(s: State<T>, key: T -> int, cs: seq<Call<T>>, last: seq<Option<int>>, released: Option<int>)
    returns (k: nat, more: seq<Call<T>>)
    requires Legal(s, key, cs) && Floor(s, key, last, released) && MonotoneInputs(last, key, cs)
    requires !Timely(s, key, cs, released)
    ensures k <= |cs| && Quiet(more) && Shows(s, key, cs[..k] + more, released)
    decreases |cs|
  {
    var c := cs[0];
    if !TimelyCall(key, c, released) {
      k, more := 1, EndAndTake<T>(0, |s.queues|);
      EndAndTakeIsQuiet<T>(0, |s.queues|);
      LatePushShows(s, key, c, last, released);
      assert cs[..1] == [c];
    } else {
      var t, next := Step(s, key, c), LastReleased(s, key, c, released);
      FloorStep(s, key, c, last, released);
      k, more := LateRunShows(t, key, cs[1..], Given(last, key, c), next);
      ShowsBefore(s, key, c, cs[1..][..k] + more, last, released);
      PrefixFirst(cs, k, more);
      k := k + 1;
    }
  }

  lemma PrefixFirst<T>(cs: seq<Call<T>>, k: nat, more: seq<Call<T>>)
    requires k < |cs|
    ensures cs[..k + 1] + more == [cs[0]] + (cs[1..][..k] + more)
  {
  }

  /** Output that is out of order is out of order after one more call before it. */
  lemma ShowsBefore<T>(s: State<T>, key: T -> int, c: Call<T>, later: seq<Call<T>>, last: seq<Option<int>>, released: Option<int>)
    requires InRange(s, c) && Floor(s, key, last, released) && SortedCall(last, key, c) && TimelyCall(key, c, released)
    requires Shows(Step(s, key, c), key, later, LastReleased(s, key, c, released))
    ensures Shows(s, key, [c] + later, released)
  {
    var t, cs := Step(s, key, c), [c] + later;
    assert cs[0] == c && cs[1..] == later;
    FloorStep(s, key, c, last, released);
    NonDecreasingAfter(FirstRelease(s, key, c), Merged(t, key, later), key, released, LastReleased(s, key, c, released));
  }

  /** Exactly the runs without a late push keep their output in order however they end. */
  lemma OrderedExactlyWhenTimely<T(!new)>(s: State<T>, key: T -> int, cs: seq<Call<T>>, last: seq<Option<int>>, released: Option<int>)
    requires Legal(s, key, cs) && Floor(s, key, last, released) && MonotoneInputs(last, key, cs)
    ensures Timely(s, key, cs, released) <==> OrderedHoweverItEnds(s, key, cs, released)
  {
    if Timely(s, key, cs, released) {
      forall k, more | 0 <= k <= |cs| && Quiet(more) && Legal(s, key, cs[..k] + more)
        ensures NonDecreasing(Merged(s, key, cs[..k] + more), key, released)
      {
        TimelyPrefix(s, key, cs, k, more, last, released);
        OrderedFrom(s, key, cs[..k] + more, last, released);
      }
    } else {
      var k, more := LateRunShows(s, key, cs, last, released);
      assert Legal(s, key, cs[..k] + more);
    }
  }

  // ----- which pushes can be late -----

  /** Every open input that was given anything was given at least the key released last. */
  ghost predicate CaughtUp<T>(s: State<T>, last: seq<Option<int>>, released: Option<int>)
    requires |s.ended| <= |last|
  {
    forall i :: 0 <= i < |s.ended| && !s.ended[i] && released.Some? && last[i].Some? ==> released.value <= last[i].value
  }

  /** No open input is still to give its first item once something was released. */
  ghost predicate AllStarted<T>(s: State<T>, last: seq<Option<int>>, released: Option<int>)
    requires |s.ended| <= |last|
  {
    forall i :: 0 <= i < |s.ended| && !s.ended[i] && released.Some? ==> last[i].Some?
  }

  ghost predicate HonestCall<T>(ended: seq<bool>, c: Call<T>) {
    IsPush(c) ==> c.input < |ended| && !ended[c.input]
  }

  lemma HonestRun<T>(s: State<T>, key: T -> int, cs: seq<Call<T>>)
    requires s.Valid() && cs != [] && InRange(s, cs[0]) && NoPushAfterEnd(s.ended, cs)
    ensures HonestCall(s.ended, cs[0]) && NoPushAfterEnd(Step(s, key, cs[0]).ended, cs[1..])
  {
  }

  /** A release leaves every open input with an item it could have been compared with. */
  lemma CaughtUpByTake<T>(s: State<T>, key: T -> int, last: seq<Option<int>>, released: Option<int>)
    requires Floor(s, key, last, released) && s.Ready()
    ensures
      var w := Earliest(s.queues, key).value;
      CaughtUp(s, last, Some(key(s.queues[w][0]))) && AllStarted(s, last, Some(key(s.queues[w][0])))
  {
    var w := Earliest(s.queues, key).value;
    forall i | 0 <= i < |s.ended| && !s.ended[i]
      ensures last[i].Some? && key(s.queues[w][0]) <= last[i].value
    {
      assert s.Contributes(i) && InputFloor(s.queues[i], last[i], released, key);
      assert key(s.queues[i][0]) <= last[i].value;
    }
  }

  lemma CaughtUpStep<T>(s: State<T>, key: T -> int, c: Call<T>, last: seq<Option<int>>, released: Option<int>)
    requires InRange(s, c) && Floor(s, key, last, released) && CaughtUp(s, last, released)
    requires SortedCall(last, key, c) && TimelyCall(key, c, released)
    ensures Floor(Step(s, key, c), key, Given(last, key, c), LastReleased(s, key, c, released))
    ensures CaughtUp(Step(s, key, c), Given(last, key, c), LastReleased(s, key, c, released))
    ensures !c.AddInput? && AllStarted(s, last, released) ==>
              AllStarted(Step(s, key, c), Given(last, key, c), LastReleased(s, key, c, released))
  {
    FloorStep(s, key, c, last, released);
    if c.TakeEarliest? && s.Ready() {
      CaughtUpByTake(s, key, last, released);
    }
  }

  /** Like `Timely`, asked only of pushes to inputs that were given nothing before. */
  ghost predicate FirstPushesTimely<T>(s: State<T>, key: T -> int, cs: seq<Call<T>>, last: seq<Option<int>>, released: Option<int>)
    requires Legal(s, key, cs)
    decreases |cs|
  {
    cs == [] ||
    (var c := cs[0];
     && (IsPush(c) && c.input < |last| && last[c.input].None? ==> TimelyCall(key, c, released))
     && FirstPushesTimely(Step(s, key, c), key, cs[1..], Given(last, key, c), LastReleased(s, key, c, released)))
  }

  /** Only the first push to an input can be late. */
  lemma {:induction false} OnlyFirstPushesCanBeLate<T>(s: State<T>, key: T -> int, cs: seq<Call<T>>,
                                                       last: seq<Option<int>>, released: Option<int>)
    requires Legal(s, key, cs) && NoPushAfterEnd(s.ended, cs) && MonotoneInputs(last, key, cs)
    requires Floor(s, key, last, released) && CaughtUp(s, last, released)
    ensures Timely(s, key, cs, released) <==> FirstPushesTimely(s, key, cs, last, released)
    decreases |cs|
  {
    if cs != [] {
      var c := cs[0];
      HonestRun(s, key, cs);
      if TimelyCall(key, c, released) {
        CaughtUpStep(s, key, c, last, released);
        OnlyFirstPushesCanBeLate(Step(s, key, c), key, cs[1..], Given(last, key, c), LastReleased(s, key, c, released));
      }
    }
  }

  ghost predicate SameInputs<T>(cs: seq<Call<T>>) {
    forall k :: 0 <= k < |cs| ==> !cs[k].AddInput?
  }

  /** While no input is added, no push is late. */
  lemma {:induction false} SameInputsAreTimely<T>(s: State<T>, key: T -> int, cs: seq<Call<T>>,
                                                  last: seq<Option<int>>, released: Option<int>)
    requires Legal(s, key, cs) && NoPushAfterEnd(s.ended, cs) && MonotoneInputs(last, key, cs) && SameInputs(cs)
    requires Floor(s, key, last, released) && CaughtUp(s, last, released) && AllStarted(s, last, released)
    ensures Timely(s, key, cs, released)
    decreases |cs|
  {
    if cs != [] {
      var c := cs[0];
      HonestRun(s, key, cs);
      assert !c.AddInput? && SameInputs(cs[1..]);
      CaughtUpStep(s, key, c, last, released);
      SameInputsAreTimely(Step(s, key, c), key, cs[1..], Given(last, key, c), LastReleased(s, key, c, released));
    }
  }

  // ----- from the start -----

  ghost function NothingGiven(inputs: nat): seq<Option<int>> {
    seq(inputs, _ => None)
  }

  lemma FreshFloor<T>(inputs: nat, maxDepth: nat, key: T -> int)
    requires maxDepth >= 1
    ensures Floor(Fresh<T>(inputs, maxDepth), key, NothingGiven(inputs), None)
  {
  }

  /** Inputs with non-decreasing keys and honest ends, none of them added on the way, give
      one non-decreasing output, whatever is evicted, cleared or taken in rounds. */
  lemma OutputIsOrdered<T>(inputs: nat, maxDepth: nat, key: T -> int, cs: seq<Call<T>>)
    requires maxDepth >= 1
    requires Legal(Fresh<T>(inputs, maxDepth), key, cs) && SameInputs(cs)
    requires NoPushAfterEnd(Fresh<T>(inputs, maxDepth).ended, cs) && MonotoneInputs(NothingGiven(inputs), key, cs)
    ensures NonDecreasing(Merged(Fresh<T>(inputs, maxDepth), key, cs), key, None)
  {
    FreshFloor(inputs, maxDepth, key);
    SameInputsAreTimely(Fresh<T>(inputs, maxDepth), key, cs, NothingGiven(inputs), None);
    OrderedFrom(Fresh<T>(inputs, maxDepth), key, cs, NothingGiven(inputs), None);
  }

  /** With inputs added on the way, the output is in order however the run ends exactly when
      the first push to each input is not below the key released last. */
  lemma LateInputsOrderedExactly<T(!new)>(inputs: nat, maxDepth: nat, key: T -> int, cs: seq<Call<T>>)
    requires maxDepth >= 1
    requires Legal(Fresh<T>(inputs, maxDepth), key, cs)
    requires NoPushAfterEnd(Fresh<T>(inputs, maxDepth).ended, cs) && MonotoneInputs(NothingGiven(inputs), key, cs)
    ensures OrderedHoweverItEnds(Fresh<T>(inputs, maxDepth), key, cs, None)
       <==> FirstPushesTimely(Fresh<T>(inputs, maxDepth), key, cs, NothingGiven(inputs), None)
  {
    var s, last := Fresh<T>(inputs, maxDepth), NothingGiven(inputs);
    FreshFloor(inputs, maxDepth, key);
    OrderedExactlyWhenTimely(s, key, cs, last, None);
    OnlyFirstPushesCanBeLate(s, key, cs, last, None);
  }

  /** A run an added input puts out of order: it was no contributor when an item was
      released, and then brings an earlier one. */
  lemma LateInputBreaksOrder()
    ensures
      var key := (x: int) => x;
      var s := PushStep(PushStep(Fresh<int>(1, 2), 0, 5), 0, 6);
      var cs: seq<Call<int>> := [TakeEarliest, AddInput, Push(1, 3), TakeEarliest];
      && Legal(s, key, cs)
      && NoPushAfterEnd(s.ended, cs)
      && Merged(s, key, cs) == [(0, 5), (1, 3)]
  {
    AfterTwoPushes();
    TakeFromOne();
    TakeFromTwo();
    var key := (x: int) => x;
    var cs: seq<Call<int>> := [TakeEarliest, AddInput, Push(1, 3), TakeEarliest];
    assert cs[1..] == [AddInput, Push(1, 3), TakeEarliest];
    assert cs[1..][1..] == [Push(1, 3), TakeEarliest];
    assert cs[1..][1..][1..] == [TakeEarliest];
    var s2 := State([[6], []], [false, false], 2, 0);
    var s3 := State([[6], [3]], [false, false], 2, 0);
    assert PushStep(s2, 1, 3) == s3 by {
      assert ([] + [3])[0..] == [3];
      assert s2.queues[1 := [3]] == [[6], [3]];
    }
    assert AddInputStep(State([[6]], [false], 2, 0)) == s2;
    assert Legal(s3, key, cs[1..][1..][1..]) && Merged(s3, key, cs[1..][1..][1..]) == [(1, 3)];
    assert Legal(s2, key, cs[1..][1..]) && Merged(s2, key, cs[1..][1..]) == [(1, 3)];
  }

  lemma AfterTwoPushes()
    ensures PushStep(PushStep(Fresh<int>(1, 2), 0, 5), 0, 6) == State([[5, 6]], [false], 2, 0)
  {
    var s0 := PushStep(Fresh<int>(1, 2), 0, 5);
    assert ([] + [5])[0..] == [5] && ([5] + [6])[0..] == [5, 6];
    assert s0.queues == [[5]] && s0.ended == [false];
    assert PushStep(s0, 0, 6).queues == [[5, 6]];
  }

  lemma TakeFromOne()
    ensures
      var s := State([[5, 6]], [false], 2, 0);
      && EarliestRelease(s, (x: int) => x) == Some((0, 5))
      && PopStep(s, 0) == State([[6]], [false], 2, 0)
  {
    var s := State([[5, 6]], [false], 2, 0);
    assert s.Contributes(0);
    EarliestIsUnique(s.queues, (x: int) => x, 0, Earliest(s.queues, (x: int) => x).value);
    assert [5, 6][1..] == [6];
  }

  lemma TakeFromTwo()
    ensures EarliestRelease(State([[6], [3]], [false, false], 2, 0), (x: int) => x) == Some((1, 3))
  {
    var s := State([[6], [3]], [false, false], 2, 0);
    assert s.Contributes(0);
    EarliestIsUnique(s.queues, (x: int) => x, 1, Earliest(s.queues, (x: int) => x).value);
  }
}
