/**
 Whole runs of the collector: what every interleaving of calls has in common.
 */
module AggregatorRuns {
  import opened Sequences
  import opened AggregatorSpec

  /** Every call of the run names an input the collector has at that moment. */
  ghost predicate Legal<T>(s: State<T>, key: T -> int, cs: seq<Call<T>>)
    decreases |cs|
  {
    s.Valid() && (cs == [] || (InRange(s, cs[0]) && Legal(Step(s, key, cs[0]), key, cs[1..])))
  }

  ghost function Final<T>(s: State<T>, key: T -> int, cs: seq<Call<T>>): (t: State<T>)
    requires Legal(s, key, cs)
    ensures t.Valid() && t.dropped >= s.dropped
    decreases |cs|
  {
    if cs == [] then s else Final(Step(s, key, cs[0]), key, cs[1..])
  }

  /** Everything that left a queue during the run, in order. */
  ghost function Log<T>(s: State<T>, key: T -> int, cs: seq<Call<T>>): seq<Departure<T>>
    requires Legal(s, key, cs)
    decreases |cs|
  {
    if cs == [] then [] else Departures(s, key, cs[0]) + Log(Step(s, key, cs[0]), key, cs[1..])
  }

  ghost function FirstRelease<T>(s: State<T>, key: T -> int, c: Call<T>): seq<(nat, T)>
    requires s.Valid()
  {
    if c.TakeEarliest? && EarliestRelease(s, key).Some? then [EarliestRelease(s, key).value] else []
  }

  /** What `take_earliest_by` handed out, in order. */
  ghost function Merged<T>(s: State<T>, key: T -> int, cs: seq<Call<T>>): seq<(nat, T)>
    requires Legal(s, key, cs)
    decreases |cs|
  {
    if cs == [] then []
    else FirstRelease(s, key, cs[0]) + Merged(Step(s, key, cs[0]), key, cs[1..])
  }

  /** The rounds `take_round` handed out, in order. */
  ghost function RoundsTaken<T>(s: State<T>, key: T -> int, cs: seq<Call<T>>): seq<seq<(nat, T)>>
    requires Legal(s, key, cs)
    decreases |cs|
  {
    if cs == [] then []
    else
      (if cs[0].TakeRound? && s.Ready() then [Row(s.queues, 0)] else [])
      + RoundsTaken(Step(s, key, cs[0]), key, cs[1..])
  }

  /** The items the run pushes to input `i`, in order. */
  ghost function Pushes<T>(cs: seq<Call<T>>, i: nat): seq<T> {
    if cs == [] then []
    else (if cs[0].Push? && cs[0].input == i then [cs[0].item] else []) + Pushes(cs[1..], i)
  }

  /** The whole stream of each input: what it has queued, then what the run pushes. */
  ghost function Streams<T>(s: State<T>, cs: seq<Call<T>>): seq<seq<T>> {
    seq(|s.queues|, i requires 0 <= i < |s.queues| => Stream(s, cs, i))
  }

  ghost function Stream<T>(s: State<T>, cs: seq<Call<T>>, i: nat): seq<T>
    requires i < |s.queues|
  {
    s.queues[i] + Pushes(cs, i)
  }

  /** The run keeps the end-of-stream promise: nothing is pushed to an ended input. */
  ghost predicate NoPushAfterEnd<T>(ended: seq<bool>, cs: seq<Call<T>>)
    decreases |cs|
  {
    cs == [] ||
    match cs[0]
    case Push(i, _) => i < |ended| && !ended[i] && NoPushAfterEnd(ended, cs[1..])
    case PushLatest(i, _) => i < |ended| && !ended[i] && NoPushAfterEnd(ended, cs[1..])
    case MarkEnded(i) => i < |ended| && NoPushAfterEnd(ended[i := true], cs[1..])
    case AddInput => NoPushAfterEnd(ended + [false], cs[1..])
    case _ => NoPushAfterEnd(ended, cs[1..])
  }

  lemma {:induction false} EndedInputGetsNothing<T>(ended: seq<bool>, cs: seq<Call<T>>, i: nat)
    requires NoPushAfterEnd(ended, cs) && i < |ended| && ended[i]
    ensures Pushes(cs, i) == []
    decreases |cs|
  {
    if cs != [] {
      match cs[0]
      case MarkEnded(j) => EndedInputGetsNothing(ended[j := true], cs[1..], i);
      case AddInput => EndedInputGetsNothing(ended + [false], cs[1..], i);
      case _ => EndedInputGetsNothing(ended, cs[1..], i);
    }
  }

  // ----- the merge does not depend on the schedule -----

  ghost predicate MergeRun<T>(cs: seq<Call<T>>) {
    forall k :: 0 <= k < |cs| ==> cs[k].Push? || cs[k].MarkEnded? || cs[k].TakeEarliest?
  }

  lemma StreamHead<T>(s: State<T>, cs: seq<Call<T>>, i: nat)
    requires s.Valid() && s.Ready() && NoPushAfterEnd(s.ended, cs) && i < |s.queues|
    ensures Stream(s, cs, i) == [] <==> s.queues[i] == []
    ensures s.queues[i] != [] ==> Stream(s, cs, i)[0] == s.queues[i][0]
    ensures s.queues[i] == [] ==> Pushes(cs, i) == []
  {
    if s.queues[i] == [] {
      assert !s.Contributes(i);
      EndedInputGetsNothing(s.ended, cs, i);
    }
  }

  /** A ready collector sees the head of every stream that still has one, so its
      earliest head is the earliest head of the whole streams. */
  lemma {:induction false} ReadySeesTheEarliest<T>(s: State<T>, key: T -> int, cs: seq<Call<T>>)
    requires s.Valid() && s.Ready() && NoPushAfterEnd(s.ended, cs)
    ensures Earliest(Streams(s, cs), key) == Earliest(s.queues, key)
  {
    var all := Streams(s, cs);
    forall i | 0 <= i < |all|
      ensures (all[i] == [] <==> s.queues[i] == []) && (all[i] != [] ==> all[i][0] == s.queues[i][0])
    {
      StreamHead(s, cs, i);
    }
    var w := Earliest(s.queues, key);
    assert exists i :: 0 <= i < |s.queues| && s.queues[i] != [];
    assert IsEarliest(all, key, w.value);
    EarliestIsUnique(all, key, w.value, Earliest(all, key).value);
  }

  lemma NoCallsNoPushes<T>(s: State<T>)
    ensures Streams(s, []) == s.queues
  {
    forall i | 0 <= i < |s.queues| ensures Stream(s, [], i) == s.queues[i] {
    }
  }

  lemma StreamsUnchangedBy<T>(s: State<T>, t: State<T>, cs: seq<Call<T>>)
    requires cs != [] && !cs[0].Push? && t.queues == s.queues
    ensures Streams(t, cs[1..]) == Streams(s, cs)
  {
    forall i | 0 <= i < |s.queues| ensures Stream(t, cs[1..], i) == Stream(s, cs, i) {
      assert Pushes(cs, i) == Pushes(cs[1..], i);
    }
  }

  lemma StreamsAfterPush<T>(s: State<T>, cs: seq<Call<T>>)
    requires s.Valid() && cs != [] && cs[0].Push? && cs[0].input < |s.queues|
    requires PushStep(s, cs[0].input, cs[0].item).dropped == s.dropped
    ensures Streams(PushStep(s, cs[0].input, cs[0].item), cs[1..]) == Streams(s, cs)
  {
    var t := PushStep(s, cs[0].input, cs[0].item);
    forall i | 0 <= i < |s.queues| ensures Stream(t, cs[1..], i) == Stream(s, cs, i) {
      StreamAfterPush(s, cs, i);
    }
  }

  lemma StreamAfterPush<T>(s: State<T>, cs: seq<Call<T>>, i: nat)
    requires s.Valid() && cs != [] && cs[0].Push? && cs[0].input < |s.queues| && i < |s.queues|
    requires PushStep(s, cs[0].input, cs[0].item).dropped == s.dropped
    ensures Stream(PushStep(s, cs[0].input, cs[0].item), cs[1..], i) == Stream(s, cs, i)
  {
    var j, x := cs[0].input, cs[0].item;
    if i == j {
      var q := s.queues[i] + [x];
      assert q[0..] == q;
      assert Pushes(cs, i) == [x] + Pushes(cs[1..], i);
      assert s.queues[i] + ([x] + Pushes(cs[1..], i)) == q + Pushes(cs[1..], i);
    } else {
      assert Pushes(cs, i) == Pushes(cs[1..], i);
    }
  }

  lemma StreamsAfterPop<T>(s: State<T>, cs: seq<Call<T>>, w: nat)
    requires s.Valid() && cs != [] && !cs[0].Push? && w < |s.queues| && s.queues[w] != []
    ensures Streams(PopStep(s, w), cs[1..]) == Streams(s, cs)[w := Streams(s, cs)[w][1..]]
  {
    var t, before := PopStep(s, w), Streams(s, cs);
    forall i | 0 <= i < |s.queues| ensures Stream(t, cs[1..], i) == if i == w then before[w][1..] else before[i] {
      StreamAfterPop(s, cs, w, i);
    }
  }

  lemma StreamAfterPop<T>(s: State<T>, cs: seq<Call<T>>, w: nat, i: nat)
    requires s.Valid() && cs != [] && !cs[0].Push? && w < |s.queues| && s.queues[w] != [] && i < |s.queues|
    ensures Stream(s, cs, w) != []
    ensures Stream(PopStep(s, w), cs[1..], i) == if i == w then Stream(s, cs, w)[1..] else Stream(s, cs, i)
  {
    NoPushFirst(cs, i);
    TailOfConcat(s.queues[w], Pushes(cs, w));
  }

  lemma NoPushFirst<T>(cs: seq<Call<T>>, i: nat)
    requires cs != [] && !cs[0].Push?
    ensures Pushes(cs, i) == Pushes(cs[1..], i)
  {
  }

  lemma TailOfConcat<T>(a: seq<T>, b: seq<T>)
    requires a != []
    ensures (a + b)[1..] == a[1..] + b
  {
  }

  /** Schedule independence. Whatever the interleaving, the releases so far followed
      by the merge of what is still queued is the merge of the whole streams. */
  lemma {:induction false} MergeOfAnySchedule<T>(s: State<T>, key: T -> int, cs: seq<Call<T>>)
    requires Legal(s, key, cs) && MergeRun(cs) && NoPushAfterEnd(s.ended, cs)
    requires Final(s, key, cs).dropped == s.dropped
    ensures Merge(Streams(s, cs), key) == Merged(s, key, cs) + Merge(Final(s, key, cs).queues, key)
    decreases |cs|
  {
    if cs == [] {
      NoCallsNoPushes(s);
    } else {
      var t := Step(s, key, cs[0]);
      MergeRunTail(cs);
      MergeOfAnySchedule(t, key, cs[1..]);
      MergeStep(s, key, cs);
      MergedStep(s, key, cs);
      Regroup(FirstRelease(s, key, cs[0]), Merged(t, key, cs[1..]), Merge(Final(s, key, cs).queues, key));
    }
  }

  lemma MergedStep<T>(s: State<T>, key: T -> int, cs: seq<Call<T>>)
    requires cs != [] && Legal(s, key, cs)
    ensures Merged(s, key, cs) == FirstRelease(s, key, cs[0]) + Merged(Step(s, key, cs[0]), key, cs[1..])
    ensures Final(s, key, cs) == Final(Step(s, key, cs[0]), key, cs[1..])
  {
  }

  lemma MergeRunTail<T>(cs: seq<Call<T>>)
    requires cs != [] && MergeRun(cs)
    ensures MergeRun(cs[1..])
  {
  }

  /** One call either leaves the merge of the whole streams alone, or takes its
      first item. */
  lemma MergeStep<T>(s: State<T>, key: T -> int, cs: seq<Call<T>>)
    requires s.Valid() && cs != [] && InRange(s, cs[0]) && MergeRun(cs) && NoPushAfterEnd(s.ended, cs)
    requires Step(s, key, cs[0]).dropped == s.dropped
    ensures
      var rest := Merge(Streams(Step(s, key, cs[0]), cs[1..]), key);
      Merge(Streams(s, cs), key)
      == FirstRelease(s, key, cs[0]) + rest
  {
    if cs[0].Push? {
      StreamsAfterPush(s, cs);
    } else if cs[0].TakeEarliest? && s.Ready() {
      MergeTakes(s, key, cs);
    } else {
      StreamsUnchangedBy(s, Step(s, key, cs[0]), cs);
    }
  }

  lemma MergeTakes<T>(s: State<T>, key: T -> int, cs: seq<Call<T>>)
    requires s.Valid() && cs != [] && cs[0].TakeEarliest? && s.Ready() && NoPushAfterEnd(s.ended, cs)
    ensures
      Merge(Streams(s, cs), key)
      == FirstRelease(s, key, cs[0]) + Merge(Streams(Step(s, key, cs[0]), cs[1..]), key)
  {
    ReadySeesTheEarliest(s, key, cs);
    var w := Earliest(s.queues, key).value;
    StreamsAfterPop(s, cs, w);
    assert Streams(s, cs)[w] == Stream(s, cs, w);
  }

  lemma MergeOfNothing<T>(qs: seq<seq<T>>, key: T -> int)
    requires AllEmpty(qs)
    ensures Merge(qs, key) == []
  {
  }

  /** From a fresh collector: the releases are always a prefix of the one merge of
      the streams pushed, and are all of it once the collector is drained. */
  lemma ReleasesFollowTheMerge<T>(inputs: nat, maxDepth: nat, key: T -> int, cs: seq<Call<T>>)
    requires maxDepth >= 1
    requires Legal(Fresh<T>(inputs, maxDepth), key, cs) && MergeRun(cs)
    requires NoPushAfterEnd(Fresh<T>(inputs, maxDepth).ended, cs)
    requires Final(Fresh<T>(inputs, maxDepth), key, cs).dropped == 0
    ensures
      var s := Fresh<T>(inputs, maxDepth);
      var streams := seq(inputs, i requires 0 <= i < inputs => Pushes(cs, i));
      && Merged(s, key, cs) <= Merge(streams, key)
      && (Final(s, key, cs).Drained() ==> Merged(s, key, cs) == Merge(streams, key))
  {
    var s := Fresh<T>(inputs, maxDepth);
    var streams := seq(inputs, i requires 0 <= i < inputs => Pushes(cs, i));
    MergeOfAnySchedule(s, key, cs);
    assert Streams(s, cs) == streams by {
      forall i | 0 <= i < inputs ensures Streams(s, cs)[i] == streams[i] {
        assert s.queues[i] == [];
      }
    }
    var f := Final(s, key, cs);
    if f.Drained() {
      MergeOfNothing(f.queues, key);
      assert Merged(s, key, cs) + [] == Merged(s, key, cs);
    }
  }

  /** Two schedules of the same streams that both drain release the same sequence. */
  lemma SameStreamsSameMerge<T>(inputs: nat, d1: nat, d2: nat, key: T -> int, cs1: seq<Call<T>>, cs2: seq<Call<T>>)
    requires d1 >= 1 && d2 >= 1
    requires Legal(Fresh<T>(inputs, d1), key, cs1) && MergeRun(cs1) && NoPushAfterEnd(Fresh<T>(inputs, d1).ended, cs1)
    requires Legal(Fresh<T>(inputs, d2), key, cs2) && MergeRun(cs2) && NoPushAfterEnd(Fresh<T>(inputs, d2).ended, cs2)
    requires Final(Fresh<T>(inputs, d1), key, cs1).dropped == 0 && Final(Fresh<T>(inputs, d1), key, cs1).Drained()
    requires Final(Fresh<T>(inputs, d2), key, cs2).dropped == 0 && Final(Fresh<T>(inputs, d2), key, cs2).Drained()
    requires forall i :: 0 <= i < inputs ==> Pushes(cs1, i) == Pushes(cs2, i)
    ensures Merged(Fresh<T>(inputs, d1), key, cs1) == Merged(Fresh<T>(inputs, d2), key, cs2)
  {
    ReleasesFollowTheMerge(inputs, d1, key, cs1);
    ReleasesFollowTheMerge(inputs, d2, key, cs2);
    assert seq(inputs, i requires 0 <= i < inputs => Pushes(cs1, i))
        == seq(inputs, i requires 0 <= i < inputs => Pushes(cs2, i));
  }

  // ----- rounds are the transpose -----

  ghost predicate RoundRun<T>(cs: seq<Call<T>>) {
    forall k :: 0 <= k < |cs| ==> cs[k].Push? || cs[k].MarkEnded? || cs[k].TakeRound?
  }

  lemma {:induction false} RowAgrees<T>(a: seq<seq<T>>, b: seq<seq<T>>, j: nat, k: nat, n: nat)
    requires |a| == |b| && n <= |a|
    requires forall i :: 0 <= i < n ==>
               (|a[i]| > j <==> |b[i]| > k) && (|a[i]| > j ==> a[i][j] == b[i][k])
    ensures RowUpTo(a, j, n) == RowUpTo(b, k, n)
  {
    if n > 0 {
      RowAgrees(a, b, j, k, n - 1);
    }
  }

  /** Rounds in closed form: as many as the longest stream, and round `k` is row `k`. */
  lemma {:induction false} RoundsAreRows<T>(qs: seq<seq<T>>)
    ensures |Rounds(qs)| == Longest(qs)
    ensures forall k :: 0 <= k < |Rounds(qs)| ==> Rounds(qs)[k] == Row(qs, k)
    decreases Longest(qs)
  {
    if AllEmpty(qs) {
      assert Longest(qs) == 0;
    } else {
      LongestTails(qs);
      RoundsAreRows(Tails(qs));
      forall k | 0 <= k < |Rounds(qs)| ensures Rounds(qs)[k] == Row(qs, k) {
        if k > 0 {
          assert Rounds(qs)[k] == Rounds(Tails(qs))[k - 1];
          TailRow(qs, k);
        }
      }
    }
  }

  lemma TailRow<T>(qs: seq<seq<T>>, k: nat)
    requires k > 0
    ensures Row(Tails(qs), k - 1) == Row(qs, k)
  {
    RowAgrees(Tails(qs), qs, k - 1, k, |qs|);
  }

  lemma StreamTail<T>(s: State<T>, cs: seq<Call<T>>, i: nat)
    requires s.Valid() && s.Ready() && NoPushAfterEnd(s.ended, cs) && cs != [] && !cs[0].Push? && i < |s.queues|
    ensures (if Stream(s, cs, i) == [] then [] else Stream(s, cs, i)[1..])
         == (if s.queues[i] == [] then [] else s.queues[i][1..]) + Pushes(cs[1..], i)
  {
    assert Pushes(cs, i) == Pushes(cs[1..], i);
    StreamHead(s, cs, i);
    if s.queues[i] != [] {
      assert (s.queues[i] + Pushes(cs, i))[1..] == s.queues[i][1..] + Pushes(cs, i);
    }
  }

  lemma ReadySeesTheRound<T>(s: State<T>, cs: seq<Call<T>>)
    requires s.Valid() && s.Ready() && NoPushAfterEnd(s.ended, cs)
    ensures !AllEmpty(Streams(s, cs))
    ensures Row(Streams(s, cs), 0) == Row(s.queues, 0)
  {
    var all := Streams(s, cs);
    forall i | 0 <= i < |all|
      ensures (all[i] == [] <==> s.queues[i] == []) && (all[i] != [] ==> all[i][0] == s.queues[i][0])
    {
      StreamHead(s, cs, i);
    }
    RowAgrees(all, s.queues, 0, 0, |all|);
    var i :| 0 <= i < |s.queues| && s.Contributes(i);
    assert all[i] != [];
  }

  lemma StreamsAfterRound<T>(s: State<T>, cs: seq<Call<T>>)
    requires s.Valid() && s.Ready() && NoPushAfterEnd(s.ended, cs) && cs != [] && !cs[0].Push?
    ensures Tails(Streams(s, cs)) == Streams(s.(queues := Tails(s.queues)), cs[1..])
  {
    var t := s.(queues := Tails(s.queues));
    forall i | 0 <= i < |s.queues| ensures Tails(Streams(s, cs))[i] == Stream(t, cs[1..], i) {
      StreamTail(s, cs, i);
    }
  }

  /** Whatever the arrival order, the rounds taken so far followed by the rounds
      still queued are the transpose of the whole streams. */
  lemma {:induction false} RoundsOfAnySchedule<T>(s: State<T>, key: T -> int, cs: seq<Call<T>>)
    requires Legal(s, key, cs) && RoundRun(cs) && NoPushAfterEnd(s.ended, cs)
    requires Final(s, key, cs).dropped == s.dropped
    ensures Rounds(Streams(s, cs)) == RoundsTaken(s, key, cs) + Rounds(Final(s, key, cs).queues)
    decreases |cs|
  {
    if cs == [] {
      NoCallsNoPushes(s);
    } else {
      var t := Step(s, key, cs[0]);
      RoundRunTail(cs);
      RoundsOfAnySchedule(t, key, cs[1..]);
      RoundsStep(s, key, cs);
      RoundsTakenStep(s, key, cs);
      Regroup(FirstRound(s, cs[0]), RoundsTaken(t, key, cs[1..]), Rounds(Final(s, key, cs).queues));
    }
  }

  ghost function FirstRound<T>(s: State<T>, c: Call<T>): seq<seq<(nat, T)>>
    requires s.Valid()
  {
    if c.TakeRound? && s.Ready() then [Row(s.queues, 0)] else []
  }

  lemma RoundsTakenStep<T>(s: State<T>, key: T -> int, cs: seq<Call<T>>)
    requires cs != [] && Legal(s, key, cs)
    ensures RoundsTaken(s, key, cs) == FirstRound(s, cs[0]) + RoundsTaken(Step(s, key, cs[0]), key, cs[1..])
    ensures Final(s, key, cs) == Final(Step(s, key, cs[0]), key, cs[1..])
  {
  }

  lemma RoundRunTail<T>(cs: seq<Call<T>>)
    requires cs != [] && RoundRun(cs)
    ensures RoundRun(cs[1..])
  {
  }

  lemma RoundsStep<T>(s: State<T>, key: T -> int, cs: seq<Call<T>>)
    requires s.Valid() && cs != [] && InRange(s, cs[0]) && RoundRun(cs) && NoPushAfterEnd(s.ended, cs)
    requires Step(s, key, cs[0]).dropped == s.dropped
    ensures
      Rounds(Streams(s, cs))
      == FirstRound(s, cs[0]) + Rounds(Streams(Step(s, key, cs[0]), cs[1..]))
  {
    if cs[0].Push? {
      StreamsAfterPush(s, cs);
    } else if cs[0].TakeRound? && s.Ready() {
      ReadySeesTheRound(s, cs);
      StreamsAfterRound(s, cs);
    } else {
      StreamsUnchangedBy(s, Step(s, key, cs[0]), cs);
    }
  }

  /** The `k`-th round handed out holds item `k` of exactly the inputs whose whole
      stream has more than `k` items, in input order. */
  lemma RoundIsRow<T>(s: State<T>, key: T -> int, cs: seq<Call<T>>, k: nat)
    requires Legal(s, key, cs) && RoundRun(cs) && NoPushAfterEnd(s.ended, cs)
    requires Final(s, key, cs).dropped == s.dropped
    requires k < |RoundsTaken(s, key, cs)|
    ensures RoundsTaken(s, key, cs)[k] == Row(Streams(s, cs), k)
  {
    RoundsOfAnySchedule(s, key, cs);
    RoundsAreRows(Streams(s, cs));
    assert RoundsTaken(s, key, cs)[k] == (RoundsTaken(s, key, cs) + Rounds(Final(s, key, cs).queues))[k];
  }

  ghost function Repeat<T>(c: Call<T>, n: nat): seq<Call<T>> {
    if n == 0 then [] else [c] + Repeat(c, n - 1)
  }

  lemma LongestIsReady<T>(s: State<T>)
    requires s.Valid() && (forall i :: 0 <= i < |s.ended| ==> s.ended[i]) && Longest(s.queues) > 0
    ensures s.Ready() && !AllEmpty(s.queues)
  {
    var i :| 0 <= i < |s.queues| && |s.queues[i]| == Longest(s.queues);
    assert s.Contributes(i);
  }

  lemma RoundFirst<T>(s: State<T>, key: T -> int, cs: seq<Call<T>>)
    requires s.Valid() && s.Ready() && cs != [] && cs[0] == TakeRound
    requires Legal(s.(queues := Tails(s.queues)), key, cs[1..])
    ensures Legal(s, key, cs)
    ensures RoundsTaken(s, key, cs) == [Row(s.queues, 0)] + RoundsTaken(s.(queues := Tails(s.queues)), key, cs[1..])
    ensures Final(s, key, cs) == Final(s.(queues := Tails(s.queues)), key, cs[1..])
  {
    assert Step(s, key, TakeRound) == s.(queues := Tails(s.queues));
    RoundsTakenStep(s, key, cs);
  }

  /** Once every input has ended, exactly as many rounds are left as the longest
      queue has items; taking them drains the collector. */
  lemma {:induction false} EndedInputsDrain<T>(s: State<T>, key: T -> int)
    requires s.Valid() && forall i :: 0 <= i < |s.ended| ==> s.ended[i]
    ensures
      var takes := Repeat<T>(TakeRound, Longest(s.queues));
      && Legal(s, key, takes)
      && Final(s, key, takes).Drained()
      && RoundsTaken(s, key, takes) == Rounds(s.queues)
      && !Final(s, key, takes).Ready()
    decreases Longest(s.queues)
  {
    var n := Longest(s.queues);
    var takes := Repeat<T>(TakeRound, n);
    if n == 0 {
      assert AllEmpty(s.queues);
    } else {
      LongestIsReady(s);
      LongestTails(s.queues);
      EndedInputsDrain(s.(queues := Tails(s.queues)), key);
      assert takes[1..] == Repeat<T>(TakeRound, n - 1);
      RoundFirst(s, key, takes);
    }
  }

  // ----- conservation -----

  ghost predicate KeepsEverything<T>(cs: seq<Call<T>>) {
    forall k :: 0 <= k < |cs| ==> !cs[k].PushLatest? && !cs[k].Clear?
  }

  /** The items of input `i` in a log, released and evicted alike. */
  ghost function LeftBy<T>(log: seq<Departure<T>>, i: nat): seq<T> {
    if log == [] then []
    else (if log[0].input == i then [log[0].item] else []) + LeftBy(log[1..], i)
  }

  ghost function Evictions<T>(log: seq<Departure<T>>): nat {
    if log == [] then 0 else (if log[0].released then 0 else 1) + Evictions(log[1..])
  }

  lemma LeftByConcat<T>(a: seq<Departure<T>>, b: seq<Departure<T>>, i: nat)
    ensures LeftBy(a + b, i) == LeftBy(a, i) + LeftBy(b, i)
    ensures Evictions(a + b) == Evictions(a) + Evictions(b)
  {
    EvictionsConcat(a, b);
    ItemsConcat(a, b, i);
  }

  lemma {:induction false} ItemsConcat<T>(a: seq<Departure<T>>, b: seq<Departure<T>>, i: nat)
    ensures LeftBy(a + b, i) == LeftBy(a, i) + LeftBy(b, i)
  {
    if a == [] {
      assert a + b == b;
    } else {
      assert (a + b)[0] == a[0] && (a + b)[1..] == a[1..] + b;
      ItemsConcat(a[1..], b, i);
      Regroup(if a[0].input == i then [a[0].item] else [], LeftBy(a[1..], i), LeftBy(b, i));
    }
  }

  lemma {:induction false} EvictionsConcat<T>(a: seq<Departure<T>>, b: seq<Departure<T>>)
    ensures Evictions(a + b) == Evictions(a) + Evictions(b)
  {
    if a == [] {
      assert a + b == b;
    } else {
      assert (a + b)[0] == a[0] && (a + b)[1..] == a[1..] + b;
      EvictionsConcat(a[1..], b);
    }
  }

  lemma {:induction false} EvictedPrefix<T>(j: nat, q: seq<T>, k: nat, i: nat)
    requires k <= |q|
    ensures
      var log := seq(k, a requires 0 <= a < k => Departure(j, q[a], false));
      && LeftBy(log, i) == (if i == j then q[..k] else [])
      && Evictions(log) == k
  {
    var log := seq(k, a requires 0 <= a < k => Departure(j, q[a], false));
    if k > 0 {
      EvictedPrefix(j, q[1..], k - 1, i);
      assert log[1..] == seq(k - 1, a requires 0 <= a < k - 1 => Departure(j, q[1..][a], false));
      assert q[..k] == [q[0]] + q[1..][..k - 1];
    }
  }

  lemma {:induction false} RoundLeaves<T>(qs: seq<seq<T>>, n: nat, i: nat)
    requires n <= |qs|
    ensures LeftBy(Mark(RowUpTo(qs, 0, n)), i) == (if i < n && qs[i] != [] then [qs[i][0]] else [])
    ensures Evictions(Mark(RowUpTo(qs, 0, n))) == 0
  {
    if n > 0 {
      RoundLeaves(qs, n - 1, i);
      var prev := RowUpTo(qs, 0, n - 1);
      var tail := RowUpTo(qs, 0, n)[|prev|..];
      assert RowUpTo(qs, 0, n) == prev + tail;
      assert Mark(RowUpTo(qs, 0, n)) == Mark(prev) + Mark(tail);
      LeftByConcat(Mark(prev), Mark(tail), i);
      if tail != [] {
        assert Mark(tail)[1..] == [];
      }
    }
  }

  lemma PushConserves<T>(s: State<T>, key: T -> int, j: nat, x: T, i: nat)
    requires s.Valid() && InRange(s, Call<T>.Push(j, x)) && i < |s.queues|
    ensures
      var c := Call<T>.Push(j, x);
      && s.queues[i] + (if j == i then [x] else []) == LeftBy(Departures(s, key, c), i) + Step(s, key, c).queues[i]
      && Step(s, key, c).dropped == s.dropped + Evictions(Departures(s, key, c))
  {
    var q := s.queues[j] + [x];
    var k := Excess(|q|, s.maxDepth);
    EvictedPrefix(j, q, k, i);
    assert q == q[..k] + q[k..];
  }

  /** What input `i` held and was pushed is what left it followed by what it holds now. */
  ghost predicate Keeps<T>(s: State<T>, key: T -> int, c: Call<T>, i: nat)
    requires s.Valid() && InRange(s, c) && i < |s.queues|
  {
    var gone, t := Departures(s, key, c), Step(s, key, c);
    && i < |t.queues|
    && s.queues[i] + (if c.Push? && c.input == i then [c.item] else []) == LeftBy(gone, i) + t.queues[i]
    && t.dropped == s.dropped + Evictions(gone)
  }

  lemma RoundConserves<T>(s: State<T>, key: T -> int, i: nat)
    requires s.Valid() && i < |s.queues|
    ensures Keeps(s, key, Call<T>.TakeRound, i)
  {
    RoundLeaves(s.queues, |s.queues|, i);
  }

  lemma EarliestConserves<T>(s: State<T>, key: T -> int, i: nat)
    requires s.Valid() && i < |s.queues|
    ensures Keeps(s, key, Call<T>.TakeEarliest, i)
  {
    if s.Ready() {
      PopConserves(s, EarliestRelease(s, key).value.0, i);
    }
  }

  lemma LatestConserves<T>(s: State<T>, key: T -> int, timing: nat, i: nat)
    requires s.Valid() && i < |s.queues| && InRange(s, Call<T>.TakeRoundLatest(timing))
    ensures Keeps(s, key, Call<T>.TakeRoundLatest(timing), i)
  {
    if s.queues[timing] != [] {
      PopConserves(s, timing, i);
    }
  }

  lemma StepConserves<T>(s: State<T>, key: T -> int, c: Call<T>, i: nat)
    requires s.Valid() && InRange(s, c) && i < |s.queues|
    requires !c.PushLatest? && !c.Clear?
    ensures Keeps(s, key, c, i)
  {
    match c
    case Push(j, x) => PushConserves(s, key, j, x, i);
    case TakeRound => RoundConserves(s, key, i);
    case TakeEarliest => EarliestConserves(s, key, i);
    case TakeRoundLatest(timing) => LatestConserves(s, key, timing, i);
    case MarkEnded(_) =>
    case AddInput =>
  }

  lemma PopConserves<T>(s: State<T>, j: nat, i: nat)
    requires s.Valid() && j < |s.queues| && s.queues[j] != [] && i < |s.queues|
    ensures
      var gone := [Departure(j, s.queues[j][0], true)];
      s.queues[i] == LeftBy(gone, i) + PopStep(s, j).queues[i] && Evictions(gone) == 0
  {
    var gone := [Departure(j, s.queues[j][0], true)];
    assert gone[1..] == [];
    assert s.queues[j] == [s.queues[j][0]] + s.queues[j][1..];
  }

  lemma Splice<T>(q: seq<T>, now: seq<T>, gone: seq<T>, q1: seq<T>, pushes: seq<T>, left: seq<T>, q2: seq<T>)
    requires q + now == gone + q1 && q1 + pushes == left + q2
    ensures q + (now + pushes) == (gone + left) + q2
  {
    assert q + (now + pushes) == (q + now) + pushes;
    assert (gone + q1) + pushes == gone + (q1 + pushes);
    assert gone + (left + q2) == (gone + left) + q2;
  }

  /** Conservation, per input and in order: what was queued and what was pushed is
      what left (released or evicted) followed by what is queued now; and `dropped`
      counts the evictions. */
  lemma {:induction false} Conservation<T>(s: State<T>, key: T -> int, cs: seq<Call<T>>, i: nat)
    requires Legal(s, key, cs) && KeepsEverything(cs) && i < |s.queues|
    ensures i < |Final(s, key, cs).queues|
    ensures s.queues[i] + Pushes(cs, i) == LeftBy(Log(s, key, cs), i) + Final(s, key, cs).queues[i]
    ensures Final(s, key, cs).dropped == s.dropped + Evictions(Log(s, key, cs))
    decreases |cs|
  {
    if cs != [] {
      var c := cs[0];
      var t := Step(s, key, c);
      assert KeepsEverything(cs[1..]);
      StepConserves(s, key, c, i);
      Conservation(t, key, cs[1..], i);
      var gone, later := Departures(s, key, c), Log(t, key, cs[1..]);
      LeftByConcat(gone, later, i);
      var now := if c.Push? && c.input == i then [c.item] else [];
      Splice(s.queues[i], now, LeftBy(gone, i), t.queues[i], Pushes(cs[1..], i), LeftBy(later, i),
             Final(t, key, cs[1..]).queues[i]);
    }
  }
}
