/**
 Preference-ordered sets of caps: intersection with keep-first dedup, its algebra,
 and what the caps a link settles on are worth.
 */
module CapsSets {
  import opened Options
  import opened Sequences
  import opened PairLists
  import opened Caps

  /** The first alternative is the most preferred. */
  type CapsSet = seq<Caps>

  // ----- keep-first accumulation -----

  function PushUnique(out: CapsSet, c: Caps): CapsSet {
    if c in out then out else out + [c]
  }

  function PushAll(out: CapsSet, cs: seq<Caps>): CapsSet
    decreases |cs|
  {
    if cs == [] then out else PushAll(PushUnique(out, cs[0]), cs[1..])
  }

  /** The overlaps of one caps with each alternative, in order. */
  function Row(a: Caps, bs: seq<Caps>): seq<Caps> {
    if bs == [] then []
    else (if Intersect(a, bs[0]).Some? then [Intersect(a, bs[0]).value] else []) + Row(a, bs[1..])
  }

  /** All overlaps, the left side's preference first. */
  function Rows(xs: seq<Caps>, bs: seq<Caps>): seq<Caps> {
    if xs == [] then [] else Row(xs[0], bs) + Rows(xs[1..], bs)
  }

  function Meet(a: CapsSet, b: CapsSet): CapsSet {
    PushAll([], Rows(a, b))
  }

  /** The nested loops of the source. */
  method IntersectSets(a: CapsSet, b: CapsSet) returns (out: CapsSet)
    ensures out == Meet(a, b)
  {
    out := [];
    for i := 0 to |a|
      invariant PushAll(out, Rows(a[i..], b)) == Meet(a, b)
    {
      ghost var start := out;
      PushAllConcat(out, Row(a[i], b), Rows(a[i + 1..], b));
      assert a[i..][1..] == a[i + 1..];
      for j := 0 to |b|
        invariant PushAll(out, Row(a[i], b[j..])) == PushAll(start, Row(a[i], b))
      {
        assert b[j..][1..] == b[j + 1..];
        var c := Intersect(a[i], b[j]);
        if c.Some? {
          assert Row(a[i], b[j..]) == [c.value] + Row(a[i], b[j + 1..]);
          out := PushUnique(out, c.value);
        } else {
          assert Row(a[i], b[j..]) == Row(a[i], b[j + 1..]);
        }
      }
    }
  }

  function FixateSet(s: CapsSet): Option<Caps> {
    if s == [] then None
    else if Fixate(s[0]).Some? then Fixate(s[0])
    else FixateSet(s[1..])
  }

  predicate Accepts(s: CapsSet, c: Caps) {
    exists i :: 0 <= i < |s| && Intersect(s[i], c).Some?
  }

  // ----- accumulation laws -----

  lemma {:induction false} PushAllConcat(out: CapsSet, xs: seq<Caps>, ys: seq<Caps>)
    ensures PushAll(out, xs + ys) == PushAll(PushAll(out, xs), ys)
    decreases |xs|
  {
    if xs == [] {
      assert xs + ys == ys;
    } else {
      assert (xs + ys)[1..] == xs[1..] + ys;
      PushAllConcat(PushUnique(out, xs[0]), xs[1..], ys);
    }
  }

  lemma {:induction false} PushAllKeeps(out: CapsSet, xs: seq<Caps>)
    ensures forall c :: c in PushAll(out, xs) <==> c in out || c in xs
    ensures out <= PushAll(out, xs)
    decreases |xs|
  {
    if xs != [] {
      PushAllKeeps(PushUnique(out, xs[0]), xs[1..]);
      assert forall c :: c in xs <==> c == xs[0] || c in xs[1..];
    }
  }

  lemma {:induction false} PushPresent(out: CapsSet, xs: seq<Caps>)
    requires forall c :: c in xs ==> c in out
    ensures PushAll(out, xs) == out
    decreases |xs|
  {
    if xs != [] {
      assert xs[0] in out;
      PushPresent(out, xs[1..]);
    }
  }

  /** A set never lists a caps twice. */
  ghost predicate Distinct(s: CapsSet) {
    forall i, j :: 0 <= i < j < |s| ==> s[i] != s[j]
  }

  lemma {:induction false} PushAllDistinct(out: CapsSet, xs: seq<Caps>)
    requires Distinct(out)
    ensures Distinct(PushAll(out, xs))
    decreases |xs|
  {
    if xs != [] {
      PushAllDistinct(PushUnique(out, xs[0]), xs[1..]);
    }
  }

  lemma MeetIsDistinct(a: CapsSet, b: CapsSet)
    ensures Distinct(Meet(a, b))
  {
    PushAllDistinct([], Rows(a, b));
  }

  /** The overlap of two caps as a list of none or one. */
  function Overlap(a: Caps, b: Caps): seq<Caps> {
    if Intersect(a, b).Some? then [Intersect(a, b).value] else []
  }

  lemma RowFirst(a: Caps, b: Caps, rest: seq<Caps>)
    ensures Row(a, [b] + rest) == Overlap(a, b) + Row(a, rest)
  {
    assert ([b] + rest)[1..] == rest;
  }

  lemma {:induction false} RowConcat(a: Caps, xs: seq<Caps>, ys: seq<Caps>)
    ensures Row(a, xs + ys) == Row(a, xs) + Row(a, ys)
  {
    if xs == [] {
      assert xs + ys == ys;
    } else {
      var x, rest := xs[0], xs[1..];
      assert xs == [x] + rest && xs + ys == [x] + (rest + ys);
      RowFirst(a, x, rest);
      RowFirst(a, x, rest + ys);
      RowConcat(a, rest, ys);
      Regroup(Overlap(a, x), Row(a, rest), Row(a, ys));
    }
  }

  lemma {:induction false} RowsConcat(xs: seq<Caps>, ys: seq<Caps>, bs: seq<Caps>)
    ensures Rows(xs + ys, bs) == Rows(xs, bs) + Rows(ys, bs)
  {
    if xs == [] {
      assert xs + ys == ys;
    } else {
      assert (xs + ys)[1..] == xs[1..] + ys;
      RowsConcat(xs[1..], ys, bs);
    }
  }

  lemma {:induction false} RowInRows(x: Caps, xs: seq<Caps>, bs: seq<Caps>)
    requires x in xs
    ensures forall c :: c in Row(x, bs) ==> c in Rows(xs, bs)
  {
    if x != xs[0] {
      RowInRows(x, xs[1..], bs);
    }
  }

  lemma {:induction false} OverlapInRow(a: Caps, b: Caps, bs: seq<Caps>)
    requires b in bs && Intersect(a, b).Some?
    ensures Intersect(a, b).value in Row(a, bs)
  {
    if b != bs[0] {
      OverlapInRow(a, b, bs[1..]);
    }
  }

  // ----- duplicates on either side do not matter -----

  lemma RowOfOne(a: Caps, b: Caps)
    ensures Row(a, [b]) == if Intersect(a, b).Some? then [Intersect(a, b).value] else []
  {
    assert Row(a, [b][1..]) == [];
  }

  lemma RowsOfOne(a: Caps, bs: seq<Caps>)
    ensures Rows([a], bs) == Row(a, bs)
  {
    assert Rows([a][1..], bs) == [];
  }

  lemma {:induction false} DedupLeft(out: CapsSet, acc: CapsSet, xs: seq<Caps>, bs: seq<Caps>)
    ensures PushAll(out, Rows(PushAll(acc, xs), bs)) == PushAll(PushAll(out, Rows(acc, bs)), Rows(xs, bs))
    decreases |xs|
  {
    if xs != [] {
      var x, rest := xs[0], xs[1..];
      DedupLeft(out, PushUnique(acc, x), rest, bs);
      var after := PushAll(out, Rows(acc, bs));
      PushAllConcat(after, Row(x, bs), Rows(rest, bs));
      if x in acc {
        RowInRows(x, acc, bs);
        PushAllKeeps(out, Rows(acc, bs));
        PushPresent(after, Row(x, bs));
      } else {
        RowsConcat(acc, [x], bs);
        RowsOfOne(x, bs);
        PushAllConcat(out, Rows(acc, bs), Row(x, bs));
      }
    }
  }

  lemma {:induction false} DedupRow(out: CapsSet, a: Caps, acc: CapsSet, ys: seq<Caps>)
    ensures PushAll(out, Row(a, PushAll(acc, ys))) == PushAll(PushAll(out, Row(a, acc)), Row(a, ys))
    decreases |ys|
  {
    if ys != [] {
      var y, rest := ys[0], ys[1..];
      DedupRow(out, a, PushUnique(acc, y), rest);
      assert ys == [y] + rest;
      RowConcat(a, [y], rest);
      var after := PushAll(out, Row(a, acc));
      PushAllConcat(after, Row(a, [y]), Row(a, rest));
      RowOfOne(a, y);
      if y in acc {
        if Intersect(a, y).Some? {
          OverlapInRow(a, y, acc);
          PushAllKeeps(out, Row(a, acc));
        }
        PushPresent(after, Row(a, [y]));
      } else {
        RowConcat(a, acc, [y]);
        PushAllConcat(out, Row(a, acc), Row(a, [y]));
      }
    }
  }

  lemma {:induction false} DedupRight(out: CapsSet, xs: seq<Caps>, ys: seq<Caps>)
    ensures PushAll(out, Rows(xs, PushAll([], ys))) == PushAll(out, Rows(xs, ys))
    decreases |xs|
  {
    if xs != [] {
      var x, rest, d := xs[0], xs[1..], PushAll([], ys);
      PushAllConcat(out, Row(x, d), Rows(rest, d));
      PushAllConcat(out, Row(x, ys), Rows(rest, ys));
      DedupRow(out, x, [], ys);
      DedupRight(PushAll(out, Row(x, ys)), rest, ys);
    }
  }

  // ----- associativity of the ordered lists of overlaps -----

  lemma {:induction false} RowThenRow(a: Caps, b: Caps, cs: seq<Caps>)
    ensures Rows(Row(a, [b]), cs) == Row(a, Row(b, cs))
  {
    RowOfOne(a, b);
    if Intersect(a, b).Some? {
      RowsOfOne(Intersect(a, b).value, cs);
    }
    if cs != [] {
      var c := cs[0];
      RowThenRow(a, b, cs[1..]);
      if Intersect(a, b).Some? {
        RowsOfOne(Intersect(a, b).value, cs[1..]);
      }
      Associates(a, b, c);
      var first := if Intersect(b, c).Some? then [Intersect(b, c).value] else [];
      RowConcat(a, first, Row(b, cs[1..]));
      if Intersect(b, c).Some? {
        RowOfOne(a, Intersect(b, c).value);
      }
    }
  }

  lemma {:induction false} RowThenRows(a: Caps, bs: seq<Caps>, cs: seq<Caps>)
    ensures Rows(Row(a, bs), cs) == Row(a, Rows(bs, cs))
  {
    if bs != [] {
      assert bs == [bs[0]] + bs[1..];
      RowThenRow(a, bs[0], cs);
      RowThenRows(a, bs[1..], cs);
      RowConcat(a, [bs[0]], bs[1..]);
      RowsConcat(Row(a, [bs[0]]), Row(a, bs[1..]), cs);
      RowConcat(a, Row(bs[0], cs), Rows(bs[1..], cs));
    }
  }

  lemma {:induction false} RowsThenRows(xs: seq<Caps>, bs: seq<Caps>, cs: seq<Caps>)
    ensures Rows(Rows(xs, bs), cs) == Rows(xs, Rows(bs, cs))
  {
    if xs != [] {
      RowThenRows(xs[0], bs, cs);
      RowsThenRows(xs[1..], bs, cs);
      RowsConcat(Row(xs[0], bs), Rows(xs[1..], bs), cs);
    }
  }

  /** Set intersection is associative as an ordered list: the order of preference and
      the first occurrence that dedup keeps are the same either way. */
  lemma MeetAssociates(a: CapsSet, b: CapsSet, c: CapsSet)
    ensures Meet(Meet(a, b), c) == Meet(a, Meet(b, c))
  {
    DedupLeft([], [], Rows(a, b), c);
    assert Rows([], c) == [] && PushAll([], []) == [];
    DedupRight([], a, Rows(b, c));
    RowsThenRows(a, b, c);
  }

  // ----- what a meet lists, and in which order -----

  function Shifted(at: seq<nat>): (r: seq<nat>)
    ensures |r| == |at| && forall p :: 0 <= p < |r| ==> r[p] == at[p] + 1
  {
    seq(|at|, p requires 0 <= p < |at| => at[p] + 1)
  }

  /** What is pushed is what was there and then the first occurrences of the rest, in order. */
  ghost predicate PushedFrom(out: CapsSet, xs: seq<Caps>, all: CapsSet, at: seq<nat>) {
    && out <= all && |all| == |out| + |at|
    && (forall p :: 0 <= p < |at| ==> FirstIn(xs, at[p], all[|out| + p]))
    && (forall p, q :: 0 <= p < q < |at| ==> at[p] < at[q])
  }

  lemma {:induction false} PushedInOrder(out: CapsSet, xs: seq<Caps>) returns (at: seq<nat>)
    requires Distinct(out)
    ensures PushedFrom(out, xs, PushAll(out, xs), at)
    decreases |xs|
  {
    at := [];
    if xs != [] {
      var later := PushedInOrder(PushUnique(out, xs[0]), xs[1..]);
      PushAllDistinct(out, xs);
      at := (if xs[0] in out then [] else [0]) + Shifted(later);
      PushedFirst(out, xs, PushAll(out, xs), later);
    }
  }

  lemma PushedFirst(out: CapsSet, xs: seq<Caps>, all: CapsSet, later: seq<nat>)
    requires xs != [] && Distinct(all) && PushedFrom(PushUnique(out, xs[0]), xs[1..], all, later)
    ensures PushedFrom(out, xs, all, (if xs[0] in out then [] else [0]) + Shifted(later))
  {
    var there := PushUnique(out, xs[0]);
    forall p | 0 <= p < |later| ensures FirstIn(xs, later[p] + 1, all[|there| + p]) {
      assert FirstIn(xs[1..], later[p], all[|there| + p]);
      var k :| 0 <= k < |there| && there[k] == xs[0];
      assert all[k] == xs[0] && all[k] != all[|there| + p];
    }
  }

  function Overlapping(): Meeting<Caps> {
    (a, b) => Intersect(a, b)
  }

  lemma {:induction false} RowIsRowOf(a: Caps, bs: seq<Caps>)
    ensures Row(a, bs) == RowOf(Overlapping(), a, bs)
  {
    if bs != [] {
      RowIsRowOf(a, bs[1..]);
    }
  }

  lemma {:induction false} RowsAreRowsOf(xs: seq<Caps>, bs: seq<Caps>)
    ensures Rows(xs, bs) == RowsOf(Overlapping(), xs, bs)
  {
    if xs != [] {
      RowIsRowOf(xs[0], bs);
      RowsAreRowsOf(xs[1..], bs);
    }
  }

  /** The pair at `p` overlaps in `c`. */
  predicate OverlapsIn(a: CapsSet, b: CapsSet, p: (nat, nat), c: Caps) {
    p.0 < |a| && p.1 < |b| && Intersect(a[p.0], b[p.1]) == Some(c)
  }

  /** The pair at `p` is the first that overlaps in `c`. */
  ghost predicate FirstOverlap(a: CapsSet, b: CapsSet, p: (nat, nat), c: Caps) {
    OverlapsIn(a, b, p, c) && forall q :: Before(q, p) ==> !OverlapsIn(a, b, q, c)
  }

  lemma SameOverlaps(a: CapsSet, b: CapsSet, p: (nat, nat), c: Caps)
    ensures OverlapsIn(a, b, p, c) <==> MeetsIn(Overlapping(), a, b, p, c)
  {
  }

  lemma FirstIsFirstMeeting(a: CapsSet, b: CapsSet, p: (nat, nat), c: Caps)
    requires FirstMeeting(Overlapping(), a, b, p, c)
    ensures FirstOverlap(a, b, p, c)
  {
    SameOverlaps(a, b, p, c);
    forall q | Before(q, p) ensures !OverlapsIn(a, b, q, c) {
      SameOverlaps(a, b, q, c);
    }
  }

  lemma SomePairOverlaps(a: CapsSet, b: CapsSet, c: Caps)
    ensures (exists p :: MeetsIn(Overlapping(), a, b, p, c)) <==> exists p :: OverlapsIn(a, b, p, c)
  {
    if p :| MeetsIn(Overlapping(), a, b, p, c) {
      SameOverlaps(a, b, p, c);
    }
    if p :| OverlapsIn(a, b, p, c) {
      SameOverlaps(a, b, p, c);
    }
  }

  lemma MeetInOrder(a: CapsSet, b: CapsSet, all: seq<Caps>, listed: CapsSet) returns (ps: seq<(nat, nat)>)
    requires all == RowsOf(Overlapping(), a, b) && listed == PushAll([], all)
    ensures |ps| == |listed| && InOrder(ps)
    ensures forall k :: 0 <= k < |ps| ==> FirstMeeting(Overlapping(), a, b, ps[k], listed[k])
    ensures forall c :: c in listed <==> exists p :: MeetsIn(Overlapping(), a, b, p, c)
  {
    var pairs := RowsPairs(Overlapping(), a, b);
    var at := PushedInOrder([], all);
    ps := FirstPairs(Overlapping(), a, b, all, pairs, at, listed);
    PushAllKeeps([], all);
    forall c ensures c in listed <==> exists p :: MeetsIn(Overlapping(), a, b, p, c) {
      ListedExactly(Overlapping(), a, b, all, pairs, c);
    }
  }

  /** A meet lists exactly the overlaps of the two sides' alternatives, each once, where the
      first pair that has it stands: the left side's preference first, then the right's. */
  lemma MeetListsOverlaps(a: CapsSet, b: CapsSet) returns (ps: seq<(nat, nat)>)
    ensures |ps| == |Meet(a, b)| && InOrder(ps)
    ensures forall k :: 0 <= k < |ps| ==> FirstOverlap(a, b, ps[k], Meet(a, b)[k])
    ensures forall c :: c in Meet(a, b) <==> exists p :: OverlapsIn(a, b, p, c)
  {
    var listed := Meet(a, b);
    RowsAreRowsOf(a, b);
    ps := MeetInOrder(a, b, Rows(a, b), listed);
    forall k | 0 <= k < |ps| ensures FirstOverlap(a, b, ps[k], listed[k]) {
      FirstIsFirstMeeting(a, b, ps[k], listed[k]);
    }
    forall c ensures c in listed <==> exists p :: OverlapsIn(a, b, p, c) {
      SomePairOverlaps(a, b, c);
    }
  }

  // ----- negotiation -----

  /** The caps a link settles on for one pair of alternatives. */
  function Settle(a: Caps, b: Caps): Option<Caps> {
    match Intersect(a, b)
    case Some(c) => Fixate(c)
    case None => None
  }

  /** The pair at `(i, j)` settles on `f`, and no pair before it, in row order, settles. */
  ghost predicate FirstSettled(a: CapsSet, b: CapsSet, i: nat, j: nat, f: Caps) {
    && i < |a| && j < |b| && Settle(a[i], b[j]) == Some(f)
    && (forall p, q :: 0 <= p < i && 0 <= q < |b| ==> Settle(a[p], b[q]) == None)
    && (forall q :: 0 <= q < j ==> Settle(a[i], b[q]) == None)
  }

  lemma {:induction false} FixateConcat(xs: seq<Caps>, ys: seq<Caps>)
    ensures FixateSet(xs + ys) == if FixateSet(xs).Some? then FixateSet(xs) else FixateSet(ys)
  {
    if xs == [] {
      assert xs + ys == ys;
    } else {
      assert (xs + ys)[1..] == xs[1..] + ys;
      FixateConcat(xs[1..], ys);
    }
  }

  lemma {:induction false} FixateWithMember(xs: seq<Caps>, c: Caps)
    requires c in xs && FixateSet(xs) == None
    ensures Fixate(c) == None
  {
    if c != xs[0] {
      FixateWithMember(xs[1..], c);
    }
  }

  lemma {:induction false} FixatePushAll(out: CapsSet, xs: seq<Caps>)
    ensures FixateSet(PushAll(out, xs)) == if FixateSet(out).Some? then FixateSet(out) else FixateSet(xs)
    decreases |xs|
  {
    if xs != [] {
      FixatePushAll(PushUnique(out, xs[0]), xs[1..]);
      FixateConcat(out, [xs[0]]);
      assert FixateSet([xs[0]]) == Fixate(xs[0]) by {
        assert FixateSet([xs[0]][1..]) == None;
      }
      if xs[0] in out && FixateSet(out) == None {
        FixateWithMember(out, xs[0]);
      }
    }
  }

  lemma {:induction false} FixateRow(a: Caps, bs: seq<Caps>) returns (j: nat)
    ensures FixateSet(Row(a, bs)).Some? ==>
              j < |bs| && Settle(a, bs[j]) == FixateSet(Row(a, bs))
              && forall q :: 0 <= q < j ==> Settle(a, bs[q]) == None
    ensures FixateSet(Row(a, bs)).None? ==> forall q :: 0 <= q < |bs| ==> Settle(a, bs[q]) == None
  {
    j := 0;
    if bs != [] {
      var k := FixateRow(a, bs[1..]);
      var first := if Intersect(a, bs[0]).Some? then [Intersect(a, bs[0]).value] else [];
      FixateConcat(first, Row(a, bs[1..]));
      if first != [] {
        assert FixateSet(first[1..]) == None;
      }
      assert forall q :: 0 < q < |bs| ==> bs[q] == bs[1..][q - 1];
      if Settle(a, bs[0]) == None {
        j := k + 1;
      }
    }
  }

  ghost predicate NothingSettles(xs: CapsSet, bs: CapsSet) {
    forall p, q :: 0 <= p < |xs| && 0 <= q < |bs| ==> Settle(xs[p], bs[q]) == None
  }

  lemma FirstSettledCons(x: Caps, xs: CapsSet, bs: CapsSet, i: nat, j: nat, f: Caps)
    requires NothingSettles([x], bs) && FirstSettled(xs, bs, i, j, f)
    ensures FirstSettled([x] + xs, bs, i + 1, j, f)
  {
    var all := [x] + xs;
    forall p, q | 0 <= p < i + 1 && 0 <= q < |bs| ensures Settle(all[p], bs[q]) == None {
      if p == 0 {
        assert Settle([x][0], bs[q]) == None;
      }
    }
  }

  lemma NothingSettlesCons(x: Caps, xs: CapsSet, bs: CapsSet)
    requires NothingSettles([x], bs) && NothingSettles(xs, bs)
    ensures NothingSettles([x] + xs, bs)
  {
    var all := [x] + xs;
    forall p, q | 0 <= p < |all| && 0 <= q < |bs| ensures Settle(all[p], bs[q]) == None {
      if p == 0 {
        assert Settle([x][0], bs[q]) == None;
      }
    }
  }

  lemma {:induction false} FixateRows(xs: seq<Caps>, bs: seq<Caps>) returns (i: nat, j: nat)
    ensures FixateSet(Rows(xs, bs)).Some? ==> FirstSettled(xs, bs, i, j, FixateSet(Rows(xs, bs)).value)
    ensures FixateSet(Rows(xs, bs)).None? ==> NothingSettles(xs, bs)
  {
    i, j := 0, 0;
    if xs != [] {
      FixateConcat(Row(xs[0], bs), Rows(xs[1..], bs));
      j := FixateRow(xs[0], bs);
      if FixateSet(Row(xs[0], bs)).None? {
        assert NothingSettles([xs[0]], bs);
        i, j := FixateRows(xs[1..], bs);
        assert xs == [xs[0]] + xs[1..];
        if FixateSet(Rows(xs[1..], bs)).Some? {
          FirstSettledCons(xs[0], xs[1..], bs, i, j, FixateSet(Rows(xs[1..], bs)).value);
          i := i + 1;
        } else {
          NothingSettlesCons(xs[0], xs[1..], bs);
        }
      }
    }
  }

  /** A settled value lies inside both of the alternatives it came from. */
  lemma SettledIsInside(a: Caps, b: Caps)
    requires Settle(a, b).Some?
    ensures
      var f := Settle(a, b).value;
      IsFixed(f) && Intersect(a, f) == Some(f) && Intersect(b, f) == Some(f)
  {
    var c := Intersect(a, b).value;
    var f := Fixate(c).value;
    FixationIsInside(c);
    Absorbs(a, b);
    Associates(a, c, f);
    Commutes(c, b);
    Associates(b, c, f);
  }

  /** Negotiation over one link. A result is fixed, accepted by both sides, and is the
      fixation of the first pair of alternatives, in preference order, whose overlap
      can be fixated; there is no result exactly when no pair has one. */
  lemma NegotiationIsOptimal(a: CapsSet, b: CapsSet)
    ensures FixateSet(Meet(a, b)).Some? ==>
              var f := FixateSet(Meet(a, b)).value;
              IsFixed(f) && Accepts(a, f) && Accepts(b, f) && exists i, j :: FirstSettled(a, b, i, j, f)
    ensures FixateSet(Meet(a, b)).None? <==> NothingSettles(a, b)
  {
    FixatePushAll([], Rows(a, b));
    var i, j := FixateRows(a, b);
    if FixateSet(Meet(a, b)).Some? {
      SettledIsInside(a[i], b[j]);
    }
  }
}
