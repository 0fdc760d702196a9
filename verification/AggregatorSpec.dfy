/**
 The fan-in collector as a value: what each call does to the queues, and the
 reference orders its releases are measured against.
 */
module AggregatorSpec {
  import opened Options

  /** Queues hold the oldest item first. */
  datatype State<T> = State(queues: seq<seq<T>>, ended: seq<bool>, maxDepth: nat, dropped: nat) {
    ghost predicate Valid() {
      |queues| == |ended| && maxDepth >= 1
    }

    /** Neither ended nor drained: this input still takes part in a round. */
    predicate Contributes(i: nat)
      requires Valid() && i < |queues|
    {
      !(ended[i] && queues[i] == [])
    }

    /** Some input contributes, and every contributor has an item queued. */
    ghost predicate Ready()
      requires Valid()
    {
      && (exists i :: 0 <= i < |queues| && Contributes(i))
      && (forall i :: 0 <= i < |queues| && Contributes(i) ==> queues[i] != [])
    }

    ghost predicate Drained() {
      && (forall i :: 0 <= i < |ended| ==> ended[i])
      && AllEmpty(queues)
    }
  }

  ghost predicate AllEmpty<T>(qs: seq<seq<T>>) {
    forall i :: 0 <= i < |qs| ==> qs[i] == []
  }

  function Fresh<T>(inputs: nat, maxDepth: nat): (s: State<T>)
    requires maxDepth >= 1
    ensures s.Valid() && AllEmpty(s.queues)
  {
    State(seq(inputs, _ => []), seq(inputs, _ => false), maxDepth, 0)
  }

  // ----- picking the earliest head -----

  /** `w` has the smallest head key among the non-empty queues, and is the lowest
      input with that key. */
  ghost predicate IsEarliest<T>(qs: seq<seq<T>>, key: T -> int, w: nat) {
    && w < |qs| && qs[w] != []
    && (forall j :: 0 <= j < |qs| && qs[j] != [] ==> key(qs[w][0]) <= key(qs[j][0]))
    && (forall j :: 0 <= j < w && qs[j] != [] ==> key(qs[w][0]) < key(qs[j][0]))
  }

  function Earliest<T>(qs: seq<seq<T>>, key: T -> int): (w: Option<nat>)
    ensures w.None? <==> AllEmpty(qs)
    ensures w.Some? ==> IsEarliest(qs, key, w.value)
  {
    if qs == [] then None
    else
      var n := |qs| - 1;
      var best := Earliest(qs[..n], key);
      if qs[n] == [] then best
      else if best.None? || key(qs[n][0]) < key(qs[best.value][0]) then Some(n)
      else best
  }

  lemma EarliestIsUnique<T>(qs: seq<seq<T>>, key: T -> int, a: nat, b: nat)
    requires IsEarliest(qs, key, a) && IsEarliest(qs, key, b)
    ensures a == b
  {
  }

  ghost function Total<T>(qs: seq<seq<T>>): nat {
    if qs == [] then 0 else |qs[0]| + Total(qs[1..])
  }

  lemma TotalDrops<T>(qs: seq<seq<T>>, w: nat)
    requires w < |qs| && qs[w] != []
    ensures Total(qs[w := qs[w][1..]]) == Total(qs) - 1
  {
    var rs := qs[w := qs[w][1..]];
    if w == 0 {
      assert rs[1..] == qs[1..];
    } else {
      assert rs[1..] == qs[1..][w - 1 := qs[w][1..]];
      TotalDrops(qs[1..], w - 1);
    }
  }

  /** The one greedy merge of whole streams: smallest head key first, lowest input
      on a tie. It mentions no schedule, no end-of-stream and no waiting. */
  ghost function Merge<T>(qs: seq<seq<T>>, key: T -> int): seq<(nat, T)>
    decreases Total(qs)
  {
    match Earliest(qs, key)
    case None => []
    case Some(w) =>
      TotalDrops(qs, w);
      [(w, qs[w][0])] + Merge(qs[w := qs[w][1..]], key)
  }

  // ----- synchronized rounds -----

  /** Round `k` of the first `n` whole streams: item `k` of exactly the streams
      that have one, in input order. */
  function RowUpTo<T>(qs: seq<seq<T>>, k: nat, n: nat): seq<(nat, T)>
    requires n <= |qs|
  {
    if n == 0 then []
    else RowUpTo(qs, k, n - 1) + if |qs[n - 1]| > k then [(n - 1, qs[n - 1][k])] else []
  }

  function Row<T>(qs: seq<seq<T>>, k: nat): seq<(nat, T)> {
    RowUpTo(qs, k, |qs|)
  }

  /** The inputs below `n` with something queued, in order. */
  function NonEmpty<T>(qs: seq<seq<T>>, n: nat): (r: seq<nat>)
    requires n <= |qs|
    ensures forall a :: 0 <= a < |r| ==> r[a] < n && qs[r[a]] != []
  {
    if n == 0 then []
    else NonEmpty(qs, n - 1) + if qs[n - 1] == [] then [] else [n - 1]
  }

  /** The inputs below `n` that still contribute, in order. */
  function ContributorsOf<T>(s: State<T>, n: nat): seq<nat>
    requires s.Valid() && n <= |s.queues|
  {
    if n == 0 then [] else ContributorsOf(s, n - 1) + (if s.Contributes(n - 1) then [n - 1] else [])
  }

  lemma {:induction false} ContributorsAre<T>(s: State<T>, n: nat)
    requires s.Valid() && n <= |s.queues|
    ensures forall i :: i in ContributorsOf(s, n) <==> 0 <= i < n && s.Contributes(i)
    ensures forall a, b :: 0 <= a < b < |ContributorsOf(s, n)| ==> ContributorsOf(s, n)[a] < ContributorsOf(s, n)[b]
  {
    if n > 0 {
      ContributorsAre(s, n - 1);
      var before := ContributorsOf(s, n - 1);
      forall a | 0 <= a < |before| ensures before[a] < n - 1 {
        assert before[a] in before;
      }
    }
  }

  /** When every contributor has an item, the contributors are the inputs with one. */
  lemma {:induction false} CompleteContributors<T>(s: State<T>, n: nat)
    requires s.Valid() && n <= |s.queues|
    requires forall i :: 0 <= i < n && s.Contributes(i) ==> s.queues[i] != []
    ensures ContributorsOf(s, n) == NonEmpty(s.queues, n)
  {
    if n > 0 {
      CompleteContributors(s, n - 1);
    }
  }

  /** Ready means that some input contributes and every contributor has an item. */
  lemma CompleteIsReady<T>(s: State<T>, complete: bool)
    requires s.Valid()
    requires complete <==> forall i :: 0 <= i < |s.queues| && s.Contributes(i) ==> s.queues[i] != []
    ensures ContributorsOf(s, |s.queues|) != [] && complete <==> s.Ready()
    ensures complete ==> ContributorsOf(s, |s.queues|) == NonEmpty(s.queues, |s.queues|)
  {
    var inputs := ContributorsOf(s, |s.queues|);
    ContributorsAre(s, |s.queues|);
    assert inputs != [] ==> inputs[0] in inputs;
    if complete {
      CompleteContributors(s, |s.queues|);
    }
  }

  lemma {:induction false} NonEmptySorted<T>(qs: seq<seq<T>>, n: nat)
    requires n <= |qs|
    ensures forall a, b :: 0 <= a < b < |NonEmpty(qs, n)| ==> NonEmpty(qs, n)[a] < NonEmpty(qs, n)[b]
  {
    if n > 0 {
      NonEmptySorted(qs, n - 1);
    }
  }

  lemma {:induction false} NonEmptyIndex<T>(qs: seq<seq<T>>, n: nat, i: nat) returns (a: nat)
    requires i < n <= |qs| && qs[i] != []
    ensures a < |NonEmpty(qs, n)| && NonEmpty(qs, n)[a] == i
  {
    if i == n - 1 {
      a := |NonEmpty(qs, n - 1)|;
    } else {
      a := NonEmptyIndex(qs, n - 1, i);
    }
  }

  lemma {:induction false} RowOfHeads<T>(qs: seq<seq<T>>, n: nat)
    requires n <= |qs|
    ensures |RowUpTo(qs, 0, n)| == |NonEmpty(qs, n)|
    ensures forall a :: 0 <= a < |NonEmpty(qs, n)| ==>
              RowUpTo(qs, 0, n)[a] == (NonEmpty(qs, n)[a], qs[NonEmpty(qs, n)[a]][0])
  {
    if n > 0 {
      RowOfHeads(qs, n - 1);
    }
  }

  function Tails<T>(qs: seq<seq<T>>): (r: seq<seq<T>>)
    ensures |r| == |qs|
    ensures forall i :: 0 <= i < |qs| ==> r[i] == if qs[i] == [] then [] else qs[i][1..]
  {
    seq(|qs|, i requires 0 <= i < |qs| => if qs[i] == [] then [] else qs[i][1..])
  }

  function Longest<T>(qs: seq<seq<T>>): (n: nat)
    ensures forall i :: 0 <= i < |qs| ==> |qs[i]| <= n
    ensures n > 0 ==> exists i :: 0 <= i < |qs| && |qs[i]| == n
  {
    if qs == [] then 0
    else
      var rest := Longest(qs[1..]);
      assert rest > 0 ==> exists i :: 0 <= i < |qs[1..]| && |qs[1..][i]| == rest && qs[i + 1] == qs[1..][i];
      if |qs[0]| > rest then |qs[0]| else rest
  }

  /** The transpose of whole streams, one synchronized round after another. */
  ghost function Rounds<T>(qs: seq<seq<T>>): seq<seq<(nat, T)>>
    decreases Longest(qs)
  {
    if AllEmpty(qs) then []
    else
      LongestTails(qs);
      [Row(qs, 0)] + Rounds(Tails(qs))
  }

  lemma LongestTails<T>(qs: seq<seq<T>>)
    requires !AllEmpty(qs)
    ensures Longest(Tails(qs)) == Longest(qs) - 1
  {
    var n := Longest(qs);
    var i :| 0 <= i < |qs| && |qs[i]| == n;
    assert |Tails(qs)[i]| == n - 1;
    var m := Longest(Tails(qs));
    if m > 0 {
      var j :| 0 <= j < |qs| && |Tails(qs)[j]| == m;
    }
  }

  // ----- the calls -----

  datatype Call<T> =
    | Push(input: nat, item: T)
    | PushLatest(input: nat, item: T)
    | Clear(input: nat)
    | MarkEnded(input: nat)
    | TakeEarliest
    | TakeRound
    | TakeRoundLatest(timing: nat)
    | AddInput

  /** An item leaving its queue: released to the caller, or evicted by the cap. */
  datatype Departure<T> = Departure(input: nat, item: T, released: bool)

  /** Length of the oldest stretch a capped queue gives up. */
  function Excess(length: nat, maxDepth: nat): nat {
    if length > maxDepth then length - maxDepth else 0
  }

  function PushStep<T>(s: State<T>, i: nat, x: T): (t: State<T>)
    requires s.Valid() && i < |s.queues|
    ensures t.Valid()
  {
    var q := s.queues[i] + [x];
    var k := Excess(|q|, s.maxDepth);
    s.(queues := s.queues[i := q[k..]], dropped := s.dropped + k)
  }

  function PushLatestStep<T>(s: State<T>, i: nat, x: T): (t: State<T>)
    requires s.Valid() && i < |s.queues|
    ensures t.Valid()
  {
    s.(queues := s.queues[i := [x]])
  }

  function ClearStep<T>(s: State<T>, i: nat): (t: State<T>)
    requires s.Valid() && i < |s.queues|
    ensures t.Valid()
  {
    s.(queues := s.queues[i := []])
  }

  function MarkEndedStep<T>(s: State<T>, i: nat): (t: State<T>)
    requires s.Valid() && i < |s.queues|
    ensures t.Valid()
  {
    s.(ended := s.ended[i := true])
  }

  function PopStep<T>(s: State<T>, i: nat): (t: State<T>)
    requires s.Valid() && i < |s.queues| && s.queues[i] != []
    ensures t.Valid()
  {
    s.(queues := s.queues[i := s.queues[i][1..]])
  }

  function AddInputStep<T>(s: State<T>): (t: State<T>)
    requires s.Valid()
    ensures t.Valid()
  {
    s.(queues := s.queues + [[]], ended := s.ended + [false])
  }

  /** What `take_earliest_by` releases: the earliest head once every contributor
      has one, nothing before that. */
  ghost function EarliestRelease<T>(s: State<T>, key: T -> int): (r: Option<(nat, T)>)
    requires s.Valid()
    ensures r.Some? ==> r.value.0 < |s.queues| && s.queues[r.value.0] != [] && r.value.1 == s.queues[r.value.0][0]
  {
    if s.Ready() then
      var w := Earliest(s.queues, key).value;
      Some((w, s.queues[w][0]))
    else None
  }

  ghost function RoundRelease<T>(s: State<T>): Option<seq<(nat, T)>>
    requires s.Valid()
  {
    if s.Ready() then Some(Row(s.queues, 0)) else None
  }

  ghost predicate InRange<T>(s: State<T>, c: Call<T>) {
    match c
    case Push(i, _) => i < |s.queues|
    case PushLatest(i, _) => i < |s.queues|
    case Clear(i) => i < |s.queues|
    case MarkEnded(i) => i < |s.queues|
    case TakeRoundLatest(i) => i < |s.queues|
    case _ => true
  }

  ghost function Step<T>(s: State<T>, key: T -> int, c: Call<T>): (t: State<T>)
    requires s.Valid() && InRange(s, c)
    ensures t.Valid() && t.maxDepth == s.maxDepth && t.dropped >= s.dropped
    ensures !c.AddInput? ==> |t.queues| == |s.queues|
  {
    match c
    case Push(i, x) => PushStep(s, i, x)
    case PushLatest(i, x) => PushLatestStep(s, i, x)
    case Clear(i) => ClearStep(s, i)
    case MarkEnded(i) => MarkEndedStep(s, i)
    case TakeEarliest =>
      var r := EarliestRelease(s, key);
      if r.Some? then PopStep(s, r.value.0) else s
    case TakeRound => if s.Ready() then s.(queues := Tails(s.queues)) else s
    case TakeRoundLatest(i) => if s.queues[i] == [] then s else PopStep(s, i)
    case AddInput => AddInputStep(s)
  }

  /** What a call leaves in queue `i`, which held `q`: of a push the newest items that the
      depth allows, of a latest item that one, and of a release all but the head. */
  ghost predicate LeavesInQueue<T>(s: State<T>, key: T -> int, c: Call<T>, i: nat, q: seq<T>, r: seq<T>)
    requires s.Valid() && InRange(s, c)
  {
    match c
    case Push(j, x) =>
      if i != j then r == q
      else |r| == (if |q| < s.maxDepth then |q| + 1 else s.maxDepth) && r == (q + [x])[|q| + 1 - |r|..]
    case PushLatest(j, x) => r == if i == j then [x] else q
    case Clear(j) => r == if i == j then [] else q
    case TakeEarliest => if s.Ready() && IsEarliest(s.queues, key, i) then q != [] && q == [q[0]] + r else r == q
    case TakeRound => if s.Ready() && q != [] then q == [q[0]] + r else r == q
    case TakeRoundLatest(j) => if i == j && q != [] then q == [q[0]] + r else r == q
    case MarkEnded(_) => r == q
    case AddInput => r == q
  }

  lemma PushLeaves<T>(s: State<T>, key: T -> int, j: nat, x: T, i: nat)
    requires s.Valid() && InRange(s, Push(j, x)) && i < |s.queues|
    ensures LeavesInQueue(s, key, Push(j, x), i, s.queues[i], Step(s, key, Push(j, x)).queues[i])
    ensures Step(s, key, Push(j, x)).dropped
         == s.dropped + |s.queues[j]| + 1 - |Step(s, key, Push(j, x)).queues[j]|
  {
  }

  lemma EarliestLeaves<T>(s: State<T>, key: T -> int, i: nat)
    requires s.Valid() && i < |s.queues|
    ensures LeavesInQueue(s, key, TakeEarliest, i, s.queues[i], Step(s, key, Call<T>.TakeEarliest).queues[i])
  {
    if s.Ready() {
      var w := Earliest(s.queues, key).value;
      assert s.queues[w] == [s.queues[w][0]] + s.queues[w][1..];
      if IsEarliest(s.queues, key, i) {
        EarliestIsUnique(s.queues, key, i, w);
      }
    }
  }

  /** What one call leaves behind: in every queue, in the flags and in the counter. */
  lemma StepLeaves<T>(s: State<T>, key: T -> int, c: Call<T>)
    requires s.Valid() && InRange(s, c)
    ensures
      var t := Step(s, key, c);
      && (forall i :: 0 <= i < |s.queues| ==> LeavesInQueue(s, key, c, i, s.queues[i], t.queues[i]))
      && |t.queues| == |t.ended| == |s.queues| + (if c.AddInput? then 1 else 0)
      && (c.AddInput? ==> t.queues[|s.queues|] == [] && !t.ended[|s.queues|])
      && (forall i :: 0 <= i < |s.ended| ==> t.ended[i] == (s.ended[i] || (c.MarkEnded? && c.input == i)))
      && t.maxDepth == s.maxDepth && (!c.Push? ==> t.dropped == s.dropped)
      && (c.Push? ==> t.dropped == s.dropped + |s.queues[c.input]| + 1 - |t.queues[c.input]|)
  {
    var t := Step(s, key, c);
    forall i | 0 <= i < |s.queues| ensures LeavesInQueue(s, key, c, i, s.queues[i], t.queues[i]) {
      match c
      case Push(j, x) => PushLeaves(s, key, j, x, i);
      case TakeEarliest => EarliestLeaves(s, key, i);
      case _ => assert s.queues[i] != [] ==> s.queues[i] == [s.queues[i][0]] + s.queues[i][1..];
    }
    if c.Push? {
      PushLeaves(s, key, c.input, c.item, c.input);
    }
  }

  function Mark<T>(items: seq<(nat, T)>): seq<Departure<T>> {
    seq(|items|, k requires 0 <= k < |items| => Departure(items[k].0, items[k].1, true))
  }

  /** The items a call takes out of the queues, in order. (`clear` and
      `push_latest` discard without a record.) */
  ghost function Departures<T>(s: State<T>, key: T -> int, c: Call<T>): seq<Departure<T>>
    requires s.Valid() && InRange(s, c)
  {
    match c
    case Push(i, x) =>
      var q := s.queues[i] + [x];
      var k := Excess(|q|, s.maxDepth);
      seq(k, j requires 0 <= j < k => Departure(i, q[j], false))
    case TakeEarliest =>
      var r := EarliestRelease(s, key);
      if r.Some? then [Departure(r.value.0, r.value.1, true)] else []
    case TakeRound => if s.Ready() then Mark(Row(s.queues, 0)) else []
    case TakeRoundLatest(i) => if s.queues[i] == [] then [] else [Departure(i, s.queues[i][0], true)]
    case _ => []
  }
}
