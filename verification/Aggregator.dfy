/** The collector an element owns: per-input queues updated in place. */
module Aggregator {
  import opened Options
  import opened AggregatorSpec

  /** `usize::MAX`, the depth of a collector that was given no cap. */
  const UNBOUNDED_DEPTH: nat := 0xFFFF_FFFF_FFFF_FFFF

  /** `min_by_key` over the contributors: the first of the smallest. */
  method MinByKey<T>(queues: seq<seq<T>>, inputs: seq<nat>, key: T -> int) returns (winner: nat)
    requires inputs == NonEmpty(queues, |queues|) && inputs != []
    ensures IsEarliest(queues, key, winner)
  {
    NonEmptySorted(queues, |queues|);
    var w := 0;
    for k := 1 to |inputs|
      invariant 0 <= w < k
      invariant forall a :: 0 <= a < k ==> key(queues[inputs[w]][0]) <= key(queues[inputs[a]][0])
      invariant forall a :: 0 <= a < w ==> key(queues[inputs[w]][0]) < key(queues[inputs[a]][0])
    {
      if key(queues[inputs[k]][0]) < key(queues[inputs[w]][0]) {
        w := k;
      }
    }
    winner := inputs[w];
    forall j | 0 <= j < |queues| && queues[j] != []
      ensures key(queues[winner][0]) <= key(queues[j][0])
      ensures j < winner ==> key(queues[winner][0]) < key(queues[j][0])
    {
      ghost var a := NonEmptyIndex(queues, |queues|, j);
    }
  }

  /** One `pop_front` per contributor, in order. */
  method PopEach<T>(before: seq<seq<T>>, inputs: seq<nat>) returns (round: seq<(nat, T)>, queues: seq<seq<T>>)
    requires inputs == NonEmpty(before, |before|)
    ensures round == Row(before, 0)
    ensures queues == Tails(before)
  {
    NonEmptySorted(before, |before|);
    round, queues := [], before;
    for k := 0 to |inputs|
      invariant |queues| == |before| && |round| == k
      invariant forall a :: 0 <= a < k ==> round[a] == (inputs[a], before[inputs[a]][0])
      invariant forall a :: 0 <= a < k ==> queues[inputs[a]] == before[inputs[a]][1..]
      invariant forall a :: k <= a < |inputs| ==> queues[inputs[a]] == before[inputs[a]]
      invariant forall i :: 0 <= i < |before| && before[i] == [] ==> queues[i] == []
    {
      var i := inputs[k];
      round := round + [(i, queues[i][0])];
      queues := queues[i := queues[i][1..]];
    }
    RowOfHeads(before, |before|);
    assert round == Row(before, 0);
    forall i | 0 <= i < |before| ensures queues[i] == Tails(before)[i] {
      if before[i] != [] {
        ghost var a := NonEmptyIndex(before, |before|, i);
        assert queues[inputs[a]] == before[inputs[a]][1..];
      }
    }
    assert queues == Tails(before);
  }

  class InputAggregator<T> {
    var queues: seq<seq<T>>
    var ended: seq<bool>
    var maxDepth: nat
    var dropped: nat

    ghost function Contents(): State<T>
      reads this
    {
      State(queues, ended, maxDepth, dropped)
    }

    ghost predicate Valid()
      reads this
    {
      Contents().Valid()
    }

    constructor (inputs: nat)
      ensures Valid() && Contents() == Fresh(inputs, UNBOUNDED_DEPTH)
    {
      queues := seq(inputs, _ => []);
      ended := seq(inputs, _ => false);
      maxDepth := UNBOUNDED_DEPTH;
      dropped := 0;
    }

    method WithMaxDepth(depth: nat)
      requires Valid()
      modifies this
      ensures Valid()
      ensures Contents() == old(Contents()).(maxDepth := if depth == 0 then 1 else depth)
    {
      maxDepth := if depth > 1 then depth else 1;
    }

    method AddInput()
      requires Valid()
      modifies this
      ensures Valid() && Contents() == AddInputStep(old(Contents()))
    {
      queues := queues + [[]];
      ended := ended + [false];
    }

    method Push(input: nat, item: T)
      requires Valid() && input < |queues|
      modifies this
      ensures Valid() && Contents() == PushStep(old(Contents()), input, item)
    {
      var q := queues[input] + [item];
      ghost var all := q;
      while |q| > maxDepth
        invariant |q| <= |all| && q == all[|all| - |q|..]
        invariant |q| < |all| ==> |q| >= maxDepth
        invariant dropped == old(dropped) + |all| - |q|
        invariant queues == old(queues) && ended == old(ended) && maxDepth == old(maxDepth)
      {
        q := q[1..];
        dropped := dropped + 1;
      }
      queues := queues[input := q];
    }

    method PushLatest(input: nat, item: T)
      requires Valid() && input < |queues|
      modifies this
      ensures Valid() && Contents() == PushLatestStep(old(Contents()), input, item)
    {
      queues := queues[input := [item]];
    }

    method Latest(input: nat) returns (r: Option<T>)
      requires Valid() && input < |queues|
      ensures r == if queues[input] == [] then None else Some(queues[input][|queues[input]| - 1])
    {
      var q := queues[input];
      r := if q == [] then None else Some(q[|q| - 1]);
    }

    method Clear(input: nat)
      requires Valid() && input < |queues|
      modifies this
      ensures Valid() && Contents() == ClearStep(old(Contents()), input)
    {
      queues := queues[input := []];
    }

    method MarkEnded(input: nat)
      requires Valid() && input < |queues|
      modifies this
      ensures Valid() && Contents() == MarkEndedStep(old(Contents()), input)
    {
      ended := ended[input := true];
    }

    /** The contributing inputs in order, and whether each has an item queued. */
    method Contributors() returns (inputs: seq<nat>, complete: bool)
      requires Valid()
      ensures inputs == ContributorsOf(Contents(), |queues|)
      ensures complete <==> forall i :: 0 <= i < |queues| && Contents().Contributes(i) ==> queues[i] != []
      ensures inputs != [] && complete <==> Contents().Ready()
      ensures complete ==> inputs == NonEmpty(queues, |queues|)
    {
      inputs, complete := [], true;
      for i := 0 to |queues|
        invariant inputs == ContributorsOf(Contents(), i)
        invariant complete <==> forall k :: 0 <= k < i && Contents().Contributes(k) ==> queues[k] != []
      {
        if !(ended[i] && queues[i] == []) {
          inputs := inputs + [i];
          complete := complete && queues[i] != [];
        }
      }
      CompleteIsReady(Contents(), complete);
    }

    method TakeRound() returns (r: Option<seq<(nat, T)>>)
      requires Valid()
      modifies this
      ensures Valid()
      ensures r == RoundRelease(old(Contents()))
      ensures Contents() == Step(old(Contents()), (_: T) => 0, AggregatorSpec.TakeRound)
    {
      var inputs, complete := Contributors();
      if inputs == [] || !complete {
        return None;
      }
      var round, rest := PopEach(queues, inputs);
      queues := rest;
      r := Some(round);
    }

    method TakeEarliestBy(key: T -> int) returns (r: Option<(nat, T)>)
      requires Valid()
      modifies this
      ensures Valid()
      ensures r == EarliestRelease(old(Contents()), key)
      ensures Contents() == Step(old(Contents()), key, TakeEarliest)
    {
      var inputs, complete := Contributors();
      if inputs == [] || !complete {
        return None;
      }
      var winner := MinByKey(queues, inputs, key);
      EarliestIsUnique(queues, key, winner, Earliest(queues, key).value);
      r := Some((winner, queues[winner][0]));
      queues := queues[winner := queues[winner][1..]];
    }

    method LatestReady(timing: nat) returns (ready: bool)
      requires Valid()
      ensures ready <==> forall i :: 0 <= i < |queues| && i != timing ==> queues[i] != []
    {
      ready := true;
      for i := 0 to |queues|
        invariant ready <==> forall j :: 0 <= j < i && j != timing ==> queues[j] != []
      {
        ready := ready && (i == timing || queues[i] != []);
      }
    }

    method TakeRoundLatest(timing: nat) returns (r: Option<T>)
      requires Valid() && timing < |queues|
      modifies this
      ensures Valid()
      ensures r == if old(queues)[timing] == [] then None else Some(old(queues)[timing][0])
      ensures Contents() == Step(old(Contents()), (_: T) => 0, AggregatorSpec.TakeRoundLatest(timing))
    {
      var q := queues[timing];
      if q == [] {
        return None;
      }
      queues := queues[timing := q[1..]];
      r := Some(q[0]);
    }

    method IsDrained() returns (drained: bool)
      requires Valid()
      ensures drained <==> Contents().Drained()
    {
      drained := true;
      for i := 0 to |queues|
        invariant drained <==> forall j :: 0 <= j < i ==> ended[j] && queues[j] == []
      {
        drained := drained && ended[i] && queues[i] == [];
      }
    }
  }
}
