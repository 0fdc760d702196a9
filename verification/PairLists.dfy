/** What nested loops over two lists collect, and from which pairs. */
module PairLists {
  import opened Options

  /** What two items have in common, if anything. */
  type Meeting<!T> = (T, T) -> Option<T>

  function RowOf<T>(meet: Meeting<T>, a: T, bs: seq<T>): seq<T> {
    if bs == [] then []
    else (if meet(a, bs[0]).Some? then [meet(a, bs[0]).value] else []) + RowOf(meet, a, bs[1..])
  }

  function RowsOf<T>(meet: Meeting<T>, xs: seq<T>, bs: seq<T>): seq<T> {
    if xs == [] then [] else RowOf(meet, xs[0], bs) + RowsOf(meet, xs[1..], bs)
  }

  /** The pair at `p` meets in `c`. */
  ghost predicate MeetsIn<T>(meet: Meeting<T>, xs: seq<T>, bs: seq<T>, p: (nat, nat), c: T) {
    p.0 < |xs| && p.1 < |bs| && meet(xs[p.0], bs[p.1]) == Some(c)
  }

  /** Earlier in the left list, or in the right one at the same place of the left. */
  predicate Before(p: (nat, nat), q: (nat, nat)) {
    p.0 < q.0 || (p.0 == q.0 && p.1 < q.1)
  }

  /** The pairs of `ps` meet in what `all` lists. */
  ghost predicate AllMeet<T>(meet: Meeting<T>, xs: seq<T>, bs: seq<T>, all: seq<T>, ps: seq<(nat, nat)>) {
    |ps| == |all| && forall k :: 0 <= k < |ps| ==> MeetsIn(meet, xs, bs, ps[k], all[k])
  }

  ghost predicate InOrder(ps: seq<(nat, nat)>) {
    forall k, l :: 0 <= k < l < |ps| ==> Before(ps[k], ps[l])
  }

  ghost predicate HasAllPairs<T(!new)>(meet: Meeting<T>, xs: seq<T>, bs: seq<T>, ps: seq<(nat, nat)>) {
    forall p, c :: MeetsIn(meet, xs, bs, p, c) ==> p in ps
  }

  /** `ps` names, in order, the pairs that meet. */
  ghost predicate PairsOf<T(!new)>(meet: Meeting<T>, xs: seq<T>, bs: seq<T>, all: seq<T>, ps: seq<(nat, nat)>) {
    AllMeet(meet, xs, bs, all, ps) && InOrder(ps) && HasAllPairs(meet, xs, bs, ps)
  }

  function RightOf(ps: seq<(nat, nat)>): (r: seq<(nat, nat)>)
    ensures |r| == |ps| && forall k :: 0 <= k < |r| ==> r[k] == (ps[k].0, ps[k].1 + 1)
  {
    seq(|ps|, k requires 0 <= k < |ps| => (ps[k].0, ps[k].1 + 1))
  }

  function Below(ps: seq<(nat, nat)>): (r: seq<(nat, nat)>)
    ensures |r| == |ps| && forall k :: 0 <= k < |r| ==> r[k] == (ps[k].0 + 1, ps[k].1)
  {
    seq(|ps|, k requires 0 <= k < |ps| => (ps[k].0 + 1, ps[k].1))
  }

  function First<T>(o: Option<T>): seq<T> {
    if o.Some? then [o.value] else []
  }

  lemma {:induction false} RowPairs<T(!new)>(meet: Meeting<T>, a: T, bs: seq<T>) returns (ps: seq<(nat, nat)>)
    ensures PairsOf(meet, [a], bs, RowOf(meet, a, bs), ps)
  {
    ps := [];
    if bs != [] {
      var later := RowPairs(meet, a, bs[1..]);
      ps := (if meet(a, bs[0]).Some? then [(0, 0)] else []) + RightOf(later);
      RowMeetsFirst(meet, a, bs, First(meet(a, bs[0])), RowOf(meet, a, bs[1..]), later, ps);
      RowHasFirst(meet, a, bs, later, ps);
    }
  }

  lemma MeetsFurtherRight<T>(meet: Meeting<T>, a: T, bs: seq<T>, p: (nat, nat), c: T)
    requires bs != [] && MeetsIn(meet, [a], bs[1..], p, c)
    ensures MeetsIn(meet, [a], bs, (p.0, p.1 + 1), c)
  {
  }

  lemma RowMeetsFirst<T>(meet: Meeting<T>, a: T, bs: seq<T>, first: seq<T>, rest: seq<T>, later: seq<(nat, nat)>, ps: seq<(nat, nat)>)
    requires bs != [] && AllMeet(meet, [a], bs[1..], rest, later) && InOrder(later) && first == First(meet(a, bs[0]))
    requires ps == (if meet(a, bs[0]).Some? then [(0, 0)] else []) + RightOf(later)
    ensures AllMeet(meet, [a], bs, first + rest, ps) && InOrder(ps)
  {
    var n := |first|;
    forall k | 0 <= k < |ps| ensures MeetsIn(meet, [a], bs, ps[k], (first + rest)[k]) {
      if k >= n {
        MeetsFurtherRight(meet, a, bs, later[k - n], rest[k - n]);
      }
    }
  }

  lemma RowHasFirst<T(!new)>(meet: Meeting<T>, a: T, bs: seq<T>, later: seq<(nat, nat)>, ps: seq<(nat, nat)>)
    requires bs != [] && HasAllPairs(meet, [a], bs[1..], later)
    requires ps == (if meet(a, bs[0]).Some? then [(0, 0)] else []) + RightOf(later)
    ensures HasAllPairs(meet, [a], bs, ps)
  {
    forall p, c | MeetsIn(meet, [a], bs, p, c) ensures p in ps {
      if p.1 > 0 {
        assert MeetsIn(meet, [a], bs[1..], (p.0, p.1 - 1), c);
        var k :| 0 <= k < |later| && later[k] == (p.0, p.1 - 1);
        assert ps[|ps| - |later| + k] == p;
      } else {
        assert ps[0] == (0, 0);
      }
    }
  }

  /** The pairs that meet, in the order in which the nested loops come to them. */
  lemma {:induction false} RowsPairs<T(!new)>(meet: Meeting<T>, xs: seq<T>, bs: seq<T>) returns (ps: seq<(nat, nat)>)
    ensures PairsOf(meet, xs, bs, RowsOf(meet, xs, bs), ps)
  {
    ps := [];
    if xs != [] {
      var first := RowPairs(meet, xs[0], bs);
      var later := RowsPairs(meet, xs[1..], bs);
      ps := first + Below(later);
      RowsMeetFirst(meet, xs, bs, RowOf(meet, xs[0], bs), RowsOf(meet, xs[1..], bs), first, later);
      RowsInOrder(meet, xs[0], bs, RowOf(meet, xs[0], bs), first, later);
      RowsHaveFirst(meet, xs, bs, first, later);
    }
  }

  lemma MeetsFurtherBelow<T>(meet: Meeting<T>, xs: seq<T>, bs: seq<T>, p: (nat, nat), c: T)
    requires xs != []
    ensures MeetsIn(meet, xs[1..], bs, p, c) ==> MeetsIn(meet, xs, bs, (p.0 + 1, p.1), c)
    ensures MeetsIn(meet, [xs[0]], bs, p, c) ==> MeetsIn(meet, xs, bs, p, c)
  {
  }

  lemma RowsMeetFirst<T>(meet: Meeting<T>, xs: seq<T>, bs: seq<T>, row: seq<T>, rows: seq<T>, first: seq<(nat, nat)>, later: seq<(nat, nat)>)
    requires xs != [] && AllMeet(meet, [xs[0]], bs, row, first) && AllMeet(meet, xs[1..], bs, rows, later)
    ensures AllMeet(meet, xs, bs, row + rows, first + Below(later))
  {
    var ps := first + Below(later);
    forall k | 0 <= k < |ps| ensures MeetsIn(meet, xs, bs, ps[k], (row + rows)[k]) {
      if k >= |first| {
        MeetsFurtherBelow(meet, xs, bs, later[k - |first|], rows[k - |first|]);
      } else {
        MeetsFurtherBelow(meet, xs, bs, first[k], row[k]);
      }
    }
  }

  lemma RowsInOrder<T>(meet: Meeting<T>, x: T, bs: seq<T>, row: seq<T>, first: seq<(nat, nat)>, later: seq<(nat, nat)>)
    requires AllMeet(meet, [x], bs, row, first) && InOrder(first) && InOrder(later)
    ensures InOrder(first + Below(later))
  {
    var ps := first + Below(later);
    forall k, l | 0 <= k < l < |ps| ensures Before(ps[k], ps[l]) {
      if k < |first| {
        assert MeetsIn(meet, [x], bs, first[k], row[k]);
      }
    }
  }

  lemma RowsHaveFirst<T(!new)>(meet: Meeting<T>, xs: seq<T>, bs: seq<T>, first: seq<(nat, nat)>, later: seq<(nat, nat)>)
    requires xs != [] && HasAllPairs(meet, [xs[0]], bs, first) && HasAllPairs(meet, xs[1..], bs, later)
    ensures HasAllPairs(meet, xs, bs, first + Below(later))
  {
    var ps := first + Below(later);
    forall p, c | MeetsIn(meet, xs, bs, p, c) ensures p in ps {
      if p.0 > 0 {
        assert MeetsIn(meet, xs[1..], bs, (p.0 - 1, p.1), c);
        var k :| 0 <= k < |later| && later[k] == (p.0 - 1, p.1);
        assert ps[|first| + k] == p;
      } else {
        assert MeetsIn(meet, [xs[0]], bs, p, c);
      }
    }
  }

  // ----- without duplicates -----

  /** `c` stands at place `m` and at no earlier one. */
  ghost predicate FirstIn<T>(xs: seq<T>, m: nat, c: T) {
    m < |xs| && xs[m] == c && forall k :: 0 <= k < m ==> xs[k] != c
  }

  /** The pair at `p` is the first that meets in `c`. */
  ghost predicate FirstMeeting<T>(meet: Meeting<T>, xs: seq<T>, bs: seq<T>, p: (nat, nat), c: T) {
    MeetsIn(meet, xs, bs, p, c) && forall q :: Before(q, p) ==> !MeetsIn(meet, xs, bs, q, c)
  }

  lemma FirstPair<T(!new)>(meet: Meeting<T>, xs: seq<T>, bs: seq<T>, all: seq<T>, pairs: seq<(nat, nat)>, m: nat, c: T)
    requires PairsOf(meet, xs, bs, all, pairs) && FirstIn(all, m, c)
    ensures FirstMeeting(meet, xs, bs, pairs[m], c)
  {
    assert MeetsIn(meet, xs, bs, pairs[m], all[m]);
    forall q | MeetsIn(meet, xs, bs, q, c) ensures !Before(q, pairs[m]) {
      var k :| 0 <= k < |pairs| && pairs[k] == q;
      assert MeetsIn(meet, xs, bs, pairs[k], all[k]);
      assert k > m ==> Before(pairs[m], pairs[k]);
    }
  }

  /** The pairs of the first occurrences in `all` that `at` picks. */
  lemma FirstPairs<T(!new)>(meet: Meeting<T>, xs: seq<T>, bs: seq<T>, all: seq<T>, pairs: seq<(nat, nat)>, at: seq<nat>, listed: seq<T>)
    returns (ps: seq<(nat, nat)>)
    requires PairsOf(meet, xs, bs, all, pairs) && |at| == |listed|
    requires forall k :: 0 <= k < |at| ==> FirstIn(all, at[k], listed[k])
    requires forall k, l :: 0 <= k < l < |at| ==> at[k] < at[l]
    ensures |ps| == |listed| && InOrder(ps)
    ensures forall k :: 0 <= k < |ps| ==> FirstMeeting(meet, xs, bs, ps[k], listed[k])
  {
    ps := seq(|at|, k requires 0 <= k < |at| => pairs[at[k]]);
    forall k | 0 <= k < |ps| ensures FirstMeeting(meet, xs, bs, ps[k], listed[k]) {
      FirstPair(meet, xs, bs, all, pairs, at[k], listed[k]);
    }
  }

  /** What is collected is exactly what some pair meets in. */
  lemma ListedExactly<T(!new)>(meet: Meeting<T>, xs: seq<T>, bs: seq<T>, all: seq<T>, pairs: seq<(nat, nat)>, c: T)
    requires PairsOf(meet, xs, bs, all, pairs)
    ensures c in all <==> exists p :: MeetsIn(meet, xs, bs, p, c)
  {
    if c in all {
      var k :| 0 <= k < |all| && all[k] == c;
      assert MeetsIn(meet, xs, bs, pairs[k], all[k]);
    }
    if p :| MeetsIn(meet, xs, bs, p, c) {
      var k :| 0 <= k < |pairs| && pairs[k] == p;
      assert MeetsIn(meet, xs, bs, pairs[k], all[k]);
    }
  }
}
