/**
 Worst-case stack analysis over a recorded call graph: the memoised depth-first
 search with cycle detection, and the conservative allowance for indirect calls.
 */
module Footprint {

  type Name = string

  /** One disassembled function: its frame size, its resolved call targets, and
      whether it also calls through a register. */
  datatype Func = Func(frame: nat, callees: set<Name>, indirect: bool)

  type CallGraph = map<Name, Func>

  /** `sys.exit` ends the whole analysis, so it is the other outcome of a search. */
  datatype Outcome = Depth(bytes: nat) | Recursion(through: Name)

  // ----- what a depth means -----

  /** A chain of direct calls between recorded functions. */
  ghost predicate IsChain(g: CallGraph, p: seq<Name>)
  {
    && |p| > 0
    && (forall i :: 0 <= i < |p| ==> p[i] in g)
    && (forall i :: 0 <= i < |p| - 1 ==> p[i + 1] in g[p[i]].callees)
  }

  ghost predicate ChainFrom(g: CallGraph, n: Name, p: seq<Name>)
  {
    IsChain(g, p) && p[0] == n
  }

  ghost predicate Repeats(p: seq<Name>)
  {
    exists i, j :: 0 <= i < j < |p| && p[i] == p[j]
  }

  /** No chain from `n` meets a function twice: the reachable part has no cycle. */
  ghost predicate Acyclic(g: CallGraph, n: Name)
  {
    forall p :: ChainFrom(g, n, p) ==> !Repeats(p)
  }

  ghost predicate CycleReachable(g: CallGraph, n: Name)
  {
    exists p :: ChainFrom(g, n, p) && Repeats(p)
  }

  ghost function FrameSum(g: CallGraph, p: seq<Name>): nat
    requires forall i :: 0 <= i < |p| ==> p[i] in g
  {
    if p == [] then 0 else g[p[0]].frame + FrameSum(g, p[1..])
  }

  /** Stack of a chain: its frames, plus `bound` when it stops in a function that
      may go on through a register. */
  ghost function Cost(g: CallGraph, bound: nat, p: seq<Name>): nat
    requires IsChain(g, p)
  {
    FrameSum(g, p) + if g[p[|p| - 1]].indirect then bound else 0
  }

  ghost predicate CostsAtMost(g: CallGraph, bound: nat, n: Name, d: nat)
  {
    forall p :: ChainFrom(g, n, p) ==> Cost(g, bound, p) <= d
  }

  /** `d` is the largest cost of a chain from `n` (and is 0 for a symbol the ELF
      does not define). */
  ghost predicate IsMaxCost(g: CallGraph, bound: nat, n: Name, d: nat)
  {
    if n in g then
      && CostsAtMost(g, bound, n, d)
      && (exists p :: ChainFrom(g, n, p) && Cost(g, bound, p) == d)
    else d == 0
  }

  // ----- chains -----

  lemma ChainTail(g: CallGraph, p: seq<Name>)
    requires IsChain(g, p) && |p| > 1
    ensures ChainFrom(g, p[1], p[1..])
    ensures p[1] in g[p[0]].callees
  {
    var q := p[1..];
    forall i | 0 <= i < |q| - 1 ensures q[i + 1] in g[q[i]].callees {
      assert p[(i + 1) + 1] in g[p[i + 1]].callees;
    }
    assert p[0 + 1] in g[p[0]].callees;
  }

  lemma ChainCons(g: CallGraph, n: Name, q: seq<Name>)
    requires n in g && IsChain(g, q) && q[0] in g[n].callees
    ensures ChainFrom(g, n, [n] + q)
  {
    var p := [n] + q;
    forall i | 0 <= i < |p| - 1 ensures p[i + 1] in g[p[i]].callees {
      if i > 0 {
        assert q[(i - 1) + 1] in g[q[i - 1]].callees;
      }
    }
  }

  lemma ChainSnoc(g: CallGraph, p: seq<Name>, c: Name)
    requires IsChain(g, p) && c in g && c in g[p[|p| - 1]].callees
    ensures IsChain(g, p + [c])
  {
    var q := p + [c];
    forall i | 0 <= i < |q| - 1 ensures q[i + 1] in g[q[i]].callees {
      if i < |p| - 1 {
        assert p[i + 1] in g[p[i]].callees;
      }
    }
  }

  lemma ChainPrefix(g: CallGraph, p: seq<Name>, k: nat)
    requires IsChain(g, p) && 0 < k <= |p|
    ensures IsChain(g, p[..k])
  {
    var q := p[..k];
    forall i | 0 <= i < |q| - 1 ensures q[i + 1] in g[q[i]].callees {
      assert p[i + 1] in g[p[i]].callees;
    }
  }

  lemma CostCons(g: CallGraph, bound: nat, n: Name, q: seq<Name>)
    requires n in g && IsChain(g, q) && q[0] in g[n].callees
    ensures ChainFrom(g, n, [n] + q)
    ensures Cost(g, bound, [n] + q) == g[n].frame + Cost(g, bound, q)
  {
    ChainCons(g, n, q);
    assert ([n] + q)[1..] == q;
    assert ([n] + q)[|q|] == q[|q| - 1];
  }

  lemma CostSingle(g: CallGraph, bound: nat, n: Name)
    requires n in g
    ensures ChainFrom(g, n, [n])
    ensures Cost(g, bound, [n]) == g[n].frame + if g[n].indirect then bound else 0
  {
    assert FrameSum(g, [n][1..]) == 0;
  }

  /** A chain from `n` that meets a function twice comes from a cycle one of the
      callees of `n` already reaches, even when the function met twice is `n`. */
  lemma CycleThroughCallee(g: CallGraph, n: Name, p: seq<Name>) returns (c: Name)
    requires ChainFrom(g, n, p) && Repeats(p)
    ensures c in g && c in g[n].callees && CycleReachable(g, c)
  {
    var i, j :| 0 <= i < j < |p| && p[i] == p[j];
    ChainTail(g, p);
    c := p[1];
    if i > 0 {
      assert p[1..][i - 1] == p[1..][j - 1];
      assert Repeats(p[1..]);
    } else {
      ChainPrefix(g, p, j + 1);
      ChainTail(g, p[..j + 1]);
      var q := p[..j + 1][1..];
      assert q[|q| - 1] == n;
      ChainSnoc(g, q, c);
      assert ChainFrom(g, c, q + [c]);
      assert (q + [c])[0] == (q + [c])[|q|];
      assert Repeats(q + [c]);
    }
  }

  lemma AcyclicFromCallees(g: CallGraph, n: Name)
    requires n in g
    requires forall c :: c in g[n].callees && c in g ==> Acyclic(g, c)
    ensures Acyclic(g, n)
  {
    if CycleReachable(g, n) {
      var p :| ChainFrom(g, n, p) && Repeats(p);
      var c := CycleThroughCallee(g, n, p);
      assert false;
    }
  }

  /** No cycle is reachable from these functions, and none of their chains costs more than `d`. */
  ghost predicate AllExplored(g: CallGraph, bound: nat, names: set<Name>, d: nat) {
    forall c :: c in names ==> Acyclic(g, c) && CostsAtMost(g, bound, c, d)
  }

  /** `deepest` is the indirect allowance of `n` or, above it, the maximum of its callee `best`. */
  ghost predicate IsDeepest(g: CallGraph, bound: nat, n: Name, deepest: nat, best: Name)
    requires n in g
  {
    var allowance := if g[n].indirect then bound else 0;
    allowance <= deepest && (deepest == allowance || (best in g[n].callees && IsMaxCost(g, bound, best, deepest)))
  }

  /** The recurrence the search computes: the maximum over chains from `n` is its
      frame plus the larger of its indirect allowance and its callees' maxima. */
  lemma MaxCostFromCallees(g: CallGraph, bound: nat, n: Name, deepest: nat, best: Name)
    requires n in g
    requires forall c :: c in g[n].callees ==> CostsAtMost(g, bound, c, deepest)
    requires IsDeepest(g, bound, n, deepest, best)
    ensures IsMaxCost(g, bound, n, g[n].frame + deepest)
  {
    var d := g[n].frame + deepest;
    forall p | ChainFrom(g, n, p) ensures Cost(g, bound, p) <= d {
      if |p| == 1 {
        assert p == [n];
        CostSingle(g, bound, n);
      } else {
        ChainTail(g, p);
        assert p == [n] + p[1..];
        CostCons(g, bound, n, p[1..]);
        assert CostsAtMost(g, bound, p[1], deepest);
      }
    }
    if deepest == if g[n].indirect then bound else 0 {
      CostSingle(g, bound, n);
    } else if best in g {
      var q :| ChainFrom(g, best, q) && Cost(g, bound, q) == deepest;
      CostCons(g, bound, n, q);
    } else {
      CostSingle(g, bound, n);
    }
  }

  /** One more callee explored. */
  lemma OneMoreExplored(g: CallGraph, bound: nat, n: Name, done: set<Name>, deepest: nat, best: Name, c: Name, bytes: nat)
    requires n in g && c in g[n].callees && Acyclic(g, c) && IsMaxCost(g, bound, c, bytes)
    requires AllExplored(g, bound, done, deepest) && IsDeepest(g, bound, n, deepest, best)
    ensures AllExplored(g, bound, done + {c}, if bytes > deepest then bytes else deepest)
    ensures bytes > deepest ==> IsDeepest(g, bound, n, bytes, c)
  {
  }

  /** Everything memoised is final: its whole reachable part was explored without meeting a
      cycle, and its value is the true maximum. */
  ghost predicate AllFinal(g: CallGraph, bound: nat, memo: map<Name, nat>) {
    forall n :: n in memo ==> n in g && Acyclic(g, n) && IsMaxCost(g, bound, n, memo[n])
  }

  /** With every callee explored, the function's own maximum is final. */
  lemma Explored(g: CallGraph, bound: nat, n: Name, deepest: nat, best: Name, memo: map<Name, nat>)
    requires n in g && AllExplored(g, bound, g[n].callees, deepest) && IsDeepest(g, bound, n, deepest, best)
    requires AllFinal(g, bound, memo)
    ensures Acyclic(g, n) && IsMaxCost(g, bound, n, g[n].frame + deepest)
    ensures AllFinal(g, bound, memo[n := g[n].frame + deepest])
  {
    AcyclicFromCallees(g, n);
    MaxCostFromCallees(g, bound, n, deepest, best);
  }

  // ----- the search -----

  ghost function Root(stack: seq<Name>, name: Name): Name {
    if stack == [] then name else stack[0]
  }

  /** `path` holds the functions on `stack`, the chain the search is standing on, and
      `name` is called by its last function. */
  ghost predicate StandingOn(g: CallGraph, path: set<Name>, stack: seq<Name>, name: Name) {
    && path == (set n | n in stack)
    && path <= g.Keys
    && (stack == [] || (IsChain(g, stack) && name in g[stack[|stack| - 1]].callees))
  }

  /** The stack with the function on it is a chain, with a cycle when it was on it before. */
  lemma OnStack(g: CallGraph, path: set<Name>, stack: seq<Name>, name: Name)
    requires StandingOn(g, path, stack, name) && name in g
    ensures ChainFrom(g, Root(stack, name), stack + [name])
    ensures name in path ==> CycleReachable(g, Root(stack, name))
  {
    var here := stack + [name];
    if stack != [] {
      ChainSnoc(g, stack, name);
    }
    if name in path {
      var i :| 0 <= i < |stack| && stack[i] == name;
      assert here[i] == here[|stack|];
      assert Repeats(here);
    }
  }

  /** From there the search goes on to each callee. */
  lemma Deeper(g: CallGraph, path: set<Name>, stack: seq<Name>, name: Name)
    requires StandingOn(g, path, stack, name) && name in g
    ensures forall c :: c in g[name].callees ==> StandingOn(g, path + {name}, stack + [name], c)
  {
    OnStack(g, path, stack, name);
    var here := stack + [name];
    assert path + {name} == (set n | n in here);
  }

  /** One search over a fixed graph. `memo` and `path` are the dictionary and the
      set the search updates as it goes. */
  class DepthSearch {
    const funcs: CallGraph
    const bound: nat
    var memo: map<Name, nat>
    var path: set<Name>

    constructor (g: CallGraph, indirectBound: nat)
      ensures funcs == g && bound == indirectBound
      ensures path == {} && memo == map[] && AllFinal(funcs, bound, memo)
    {
      funcs, bound := g, indirectBound;
      memo, path := map[], {};
    }

    method MaxDepth(name: Name, ghost stack: seq<Name>) returns (r: Outcome)
      requires AllFinal(funcs, bound, memo) && StandingOn(funcs, path, stack, name)
      modifies this
      ensures r.Depth? ==> AllFinal(funcs, bound, memo) && path == old(path)
      ensures r.Depth? ==> Acyclic(funcs, name) && IsMaxCost(funcs, bound, name, r.bytes)
      ensures r.Recursion? ==> CycleReachable(funcs, Root(stack, name))
      decreases funcs.Keys - path
    {
      if name !in funcs {
        return Depth(0);
      }
      ghost var here := stack + [name];
      OnStack(funcs, path, stack, name);
      Deeper(funcs, path, stack, name);
      if name in path {
        return Recursion(name);
      }
      if name in memo {
        return Depth(memo[name]);
      }
      var f := funcs[name];
      var deepest: nat := if f.indirect then bound else 0;
      ghost var best := name;
      path := path + {name};
      var todo := f.callees;
      while todo != {}
        invariant todo <= f.callees
        invariant path == old(path) + {name}
        invariant AllFinal(funcs, bound, memo)
        invariant AllExplored(funcs, bound, f.callees - todo, deepest)
        invariant IsDeepest(funcs, bound, name, deepest, best)
        decreases todo
      {
        var c :| c in todo;
        var sub := MaxDepth(c, here);
        if sub.Recursion? {
          return sub;
        }
        OneMoreExplored(funcs, bound, name, f.callees - todo, deepest, best, c, sub.bytes);
        if sub.bytes > deepest {
          deepest, best := sub.bytes, c;
        }
        todo := todo - {c};
        assert f.callees - todo == (f.callees - (todo + {c})) + {c};
      }
      path := path - {name};
      assert f.callees - todo == f.callees;
      Explored(funcs, bound, name, deepest, best, memo);
      memo := memo[name := f.frame + deepest];
      return Depth(memo[name]);
    }
  }

  /** A whole search from one function: it reports the maximum over all chains, or
      aborts, and which of the two is decided by whether a cycle is reachable. */
  method Search(g: CallGraph, name: Name, bound: nat) returns (r: Outcome)
    ensures r.Recursion? <==> CycleReachable(g, name)
    ensures r.Depth? ==> IsMaxCost(g, bound, name, r.bytes)
  {
    var s := new DepthSearch(g, bound);
    r := s.MaxDepth(name, []);
  }

  // ----- the indirect allowance and the reported depth -----

  /** The functions whose depth the allowance covers. */
  ghost predicate Covered(g: CallGraph, entry: Name, n: Name)
  {
    n in g && n != entry && !g[n].indirect
  }

  /** `b` is the largest frame sum of a direct chain from a covered function, 0
      when there is none. */
  ghost predicate IsAllowance(g: CallGraph, entry: Name, b: nat)
  {
    && (forall n, p :: Covered(g, entry, n) && ChainFrom(g, n, p) ==> FrameSum(g, p) <= b)
    && (b > 0 ==> exists n, p :: Covered(g, entry, n) && ChainFrom(g, n, p) && FrameSum(g, p) == b)
  }

  ghost predicate CoveredCycle(g: CallGraph, entry: Name)
  {
    exists n :: Covered(g, entry, n) && CycleReachable(g, n)
  }

  method IndirectBound(g: CallGraph, entry: Name) returns (r: Outcome)
    ensures r.Depth? ==> IsAllowance(g, entry, r.bytes)
    ensures r.Recursion? <==> CoveredCycle(g, entry)
  {
    var bound := 0;
    var todo := g.Keys;
    while todo != {}
      invariant todo <= g.Keys
      invariant forall n, p :: Covered(g, entry, n) && n !in todo && ChainFrom(g, n, p) ==> FrameSum(g, p) <= bound
      invariant forall n :: Covered(g, entry, n) && n !in todo ==> Acyclic(g, n)
      invariant bound > 0 ==> exists n, p :: Covered(g, entry, n) && ChainFrom(g, n, p) && FrameSum(g, p) == bound
      decreases todo
    {
      var n :| n in todo;
      if n != entry && !g[n].indirect {
        var d := Search(g, n, 0);
        if d.Recursion? {
          assert Covered(g, entry, n) && CycleReachable(g, n);
          return d;
        }
        forall p | ChainFrom(g, n, p) ensures FrameSum(g, p) <= d.bytes {
          assert Cost(g, 0, p) == FrameSum(g, p);
        }
        if d.bytes > bound {
          bound := d.bytes;
          ghost var p :| ChainFrom(g, n, p) && Cost(g, 0, p) == d.bytes;
          assert Covered(g, entry, n) && ChainFrom(g, n, p) && FrameSum(g, p) == bound;
        }
      }
      todo := todo - {n};
    }
    return Depth(bound);
  }

  /** A call chain in which a function marked indirect may also call any of
      `targets` of it through its register. */
  ghost predicate IsRun(g: CallGraph, targets: map<Name, set<Name>>, p: seq<Name>)
  {
    && |p| > 0
    && (forall i :: 0 <= i < |p| ==> p[i] in g)
    && (forall i :: 0 <= i < |p| - 1 ==> Calls(g, targets, p[i], p[i + 1]))
  }

  ghost predicate Calls(g: CallGraph, targets: map<Name, set<Name>>, caller: Name, callee: Name)
    requires caller in g
  {
    || callee in g[caller].callees
    || (g[caller].indirect && caller in targets && callee in targets[caller])
  }

  /** What the allowance assumes of a register's targets: they are not the entry,
      and nothing they reach directly makes another indirect call. */
  ghost predicate PlainTarget(g: CallGraph, entry: Name, t: Name)
  {
    && t in g && t != entry
    && forall p :: ChainFrom(g, t, p) ==> !g[p[|p| - 1]].indirect
  }

  ghost predicate PlainTargets(g: CallGraph, entry: Name, targets: map<Name, set<Name>>)
  {
    forall f, t :: f in targets && t in targets[f] ==> PlainTarget(g, entry, t)
  }

  lemma FrameSumSplit(g: CallGraph, p: seq<Name>, q: seq<Name>)
    requires forall i :: 0 <= i < |p| ==> p[i] in g
    requires forall i :: 0 <= i < |q| ==> q[i] in g
    ensures FrameSum(g, p + q) == FrameSum(g, p) + FrameSum(g, q)
  {
    if p == [] {
      assert p + q == q;
    } else {
      assert (p + q)[1..] == p[1..] + q;
      FrameSumSplit(g, p[1..], q);
    }
  }

  /** A run is a chain of direct calls, or a chain into an indirect caller followed,
      after its first indirect call, by a run from one of its targets. */
  lemma SplitAtIndirect(g: CallGraph, targets: map<Name, set<Name>>, p: seq<Name>) returns (k: nat)
    requires IsRun(g, targets, p)
    ensures 0 < k <= |p|
    ensures IsChain(g, p[..k])
    ensures k < |p| ==> g[p[k - 1]].indirect && p[k - 1] in targets && p[k] in targets[p[k - 1]]
    ensures k < |p| ==> IsRun(g, targets, p[k..])
  {
    k := 1;
    while k < |p| && p[k] in g[p[k - 1]].callees
      invariant 0 < k <= |p|
      invariant forall i :: 0 <= i < k - 1 ==> p[i + 1] in g[p[i]].callees
    {
      k := k + 1;
    }
    if k < |p| {
      assert Calls(g, targets, p[k - 1], p[(k - 1) + 1]);
      forall i | 0 <= i < |p[k..]| - 1 ensures Calls(g, targets, p[k..][i], p[k..][i + 1]) {
        assert Calls(g, targets, p[k + i], p[(k + i) + 1]);
      }
    }
  }

  /** After the first indirect call nothing indirect is left to happen. */
  lemma RunFromPlainTarget(g: CallGraph, entry: Name, targets: map<Name, set<Name>>, p: seq<Name>)
    requires IsRun(g, targets, p) && PlainTarget(g, entry, p[0])
    ensures IsChain(g, p)
  {
    var k := SplitAtIndirect(g, targets, p);
    assert ChainFrom(g, p[0], p[..k]);
    assert p[..k][|p[..k]| - 1] == p[k - 1];
    if k < |p| {
      assert false;
    }
    assert p[..k] == p;
  }

  /** `main`: the depth the tool prints. With plain targets it bounds the frames of
      every call chain from the entry, register calls included. */
  method ReportedDepth(g: CallGraph, entry: Name) returns (r: Outcome)
    requires entry in g
    ensures r.Depth? ==> exists b: nat :: IsAllowance(g, entry, b) && IsMaxCost(g, b, entry, r.bytes)
    ensures r.Depth? ==> forall targets, p | PlainTargets(g, entry, targets) && IsRun(g, targets, p) && p[0] == entry
                           :: FrameSum(g, p) <= r.bytes
    ensures r.Depth? ==> (BoundsEveryRun(g, entry, r.bytes) <==> NoIndirectFrom(g, entry) || IndirectIsWeightless(g))
    ensures r.Recursion? <==> CycleReachable(g, entry) || CoveredCycle(g, entry)
  {
    var b := IndirectBound(g, entry);
    if b.Recursion? {
      return b;
    }
    r := Search(g, entry, b.bytes);
    if r.Depth? {
      BoundHoldsExactly(g, entry, b.bytes, r.bytes);
      forall targets, p | PlainTargets(g, entry, targets) && IsRun(g, targets, p) && p[0] == entry
        ensures FrameSum(g, p) <= r.bytes
      {
        BoundedRun(g, entry, targets, p, b.bytes, r.bytes);
      }
    }
  }

  lemma BoundedRun(g: CallGraph, entry: Name, targets: map<Name, set<Name>>, p: seq<Name>, bound: nat, depth: nat)
    requires PlainTargets(g, entry, targets)
    requires IsRun(g, targets, p) && p[0] == entry
    requires IsAllowance(g, entry, bound)
    requires IsMaxCost(g, bound, entry, depth)
    ensures FrameSum(g, p) <= depth
  {
    var k := SplitAtIndirect(g, targets, p);
    assert ChainFrom(g, entry, p[..k]);
    assert p == p[..k] + p[k..];
    FrameSumSplit(g, p[..k], p[k..]);
    assert Cost(g, bound, p[..k]) <= depth;
    if k < |p| {
      var t := p[k];
      assert PlainTarget(g, entry, t);
      RunFromPlainTarget(g, entry, targets, p[k..]);
      CostSingle(g, 0, t);
      assert [t][|[t]| - 1] == t;
      assert Covered(g, entry, t);
      assert ChainFrom(g, t, p[k..]);
    }
  }

  // ----- whatever the register points at -----

  /** The depth bounds the frames of every run from the entry, for all register targets. */
  ghost predicate BoundsEveryRun(g: CallGraph, entry: Name, depth: nat)
  {
    forall targets, p :: IsRun(g, targets, p) && p[0] == entry ==> FrameSum(g, p) <= depth
  }

  /** `p` leads from `n` to a function that calls through a register. */
  ghost predicate LeadsToIndirect(g: CallGraph, n: Name, p: seq<Name>)
  {
    ChainFrom(g, n, p) && g[p[|p| - 1]].indirect
  }

  ghost predicate NoIndirectFrom(g: CallGraph, entry: Name)
  {
    forall p :: !LeadsToIndirect(g, entry, p)
  }

  /** Only functions without a frame can get to an indirect call. */
  ghost predicate IndirectIsWeightless(g: CallGraph)
  {
    forall n, p :: LeadsToIndirect(g, n, p) ==> g[n].frame == 0
  }

  /** Every function on a chain into an indirect caller is weightless, so the chain is. */
  lemma {:induction false} WeightlessChain(g: CallGraph, p: seq<Name>)
    requires IndirectIsWeightless(g) && IsChain(g, p) && g[p[|p| - 1]].indirect
    ensures FrameSum(g, p) == 0
  {
    assert LeadsToIndirect(g, p[0], p);
    if |p| == 1 {
      assert FrameSum(g, p[1..]) == 0;
    } else {
      ChainTail(g, p);
      assert p[1..][|p[1..]| - 1] == p[|p| - 1];
      WeightlessChain(g, p[1..]);
    }
  }

  /** Past the indirect callers it starts with, a chain starts at the entry or at a
      function the allowance covers. */
  lemma {:induction false} ChainWithinDepth(g: CallGraph, entry: Name, bound: nat, depth: nat, p: seq<Name>)
    requires IndirectIsWeightless(g) && IsAllowance(g, entry, bound) && CostsAtMost(g, bound, entry, depth)
    requires IsChain(g, p) && bound <= depth
    ensures FrameSum(g, p) <= depth
  {
    var n := p[0];
    assert ChainFrom(g, n, p);
    if n == entry {
      assert Cost(g, bound, p) <= depth;
    } else if !g[n].indirect {
      assert Covered(g, entry, n);
    } else {
      CostSingle(g, 0, n);
      assert LeadsToIndirect(g, n, [n]);
      if |p| > 1 {
        ChainTail(g, p);
        ChainWithinDepth(g, entry, bound, depth, p[1..]);
      }
    }
  }

  /** Everything before the last indirect call weighs nothing. */
  lemma {:induction false} RunWithinDepth(g: CallGraph, entry: Name, bound: nat, depth: nat,
                                          targets: map<Name, set<Name>>, p: seq<Name>)
    requires IndirectIsWeightless(g) && IsAllowance(g, entry, bound) && CostsAtMost(g, bound, entry, depth)
    requires IsRun(g, targets, p) && bound <= depth
    ensures FrameSum(g, p) <= depth
    decreases |p|
  {
    var k := SplitAtIndirect(g, targets, p);
    if k == |p| {
      assert p[..k] == p;
      ChainWithinDepth(g, entry, bound, depth, p);
    } else {
      assert p == p[..k] + p[k..];
      FrameSumSplit(g, p[..k], p[k..]);
      WeightlessChain(g, p[..k]);
      RunWithinDepth(g, entry, bound, depth, targets, p[k..]);
    }
  }

  lemma RunIsBounded(g: CallGraph, entry: Name, bound: nat, depth: nat, targets: map<Name, set<Name>>, p: seq<Name>)
    requires IsAllowance(g, entry, bound) && CostsAtMost(g, bound, entry, depth)
    requires NoIndirectFrom(g, entry) || IndirectIsWeightless(g)
    requires IsRun(g, targets, p) && p[0] == entry
    ensures FrameSum(g, p) <= depth
  {
    var k := SplitAtIndirect(g, targets, p);
    var q := p[..k];
    assert ChainFrom(g, entry, q) && q[|q| - 1] == p[k - 1];
    assert Cost(g, bound, q) <= depth;
    if k == |p| {
      assert q == p;
    } else {
      assert LeadsToIndirect(g, entry, q);
      WeightlessChain(g, q);
      RunWithinDepth(g, entry, bound, depth, targets, p);
    }
  }

  /** `head`, then `loop` round and round. */
  ghost function Rounds(head: seq<Name>, loop: seq<Name>, n: nat): seq<Name>
  {
    if n == 0 then head else Rounds(head, loop, n - 1) + loop
  }

  lemma {:induction false} RoundsAreARun(g: CallGraph, targets: map<Name, set<Name>>, head: seq<Name>, loop: seq<Name>, n: nat)
    requires IsChain(g, head) && IsChain(g, loop) && g[loop[0]].frame > 0
    requires Calls(g, targets, head[|head| - 1], loop[0]) && Calls(g, targets, loop[|loop| - 1], loop[0])
    ensures
      var p := Rounds(head, loop, n);
      && IsRun(g, targets, p) && p[0] == head[0]
      && (p[|p| - 1] == head[|head| - 1] || p[|p| - 1] == loop[|loop| - 1])
      && FrameSum(g, p) >= n
  {
    if n == 0 {
      assert IsRun(g, targets, head);
    } else {
      RoundsAreARun(g, targets, head, loop, n - 1);
      var p := Rounds(head, loop, n - 1);
      RunConcat(g, targets, p, loop);
      FrameSumSplit(g, p, loop);
      assert FrameSum(g, loop) >= g[loop[0]].frame;
    }
  }

  lemma RunConcat(g: CallGraph, targets: map<Name, set<Name>>, p: seq<Name>, q: seq<Name>)
    requires IsRun(g, targets, p) && IsChain(g, q) && Calls(g, targets, p[|p| - 1], q[0])
    ensures IsRun(g, targets, p + q)
  {
    var r := p + q;
    forall i | 0 <= i < |r| - 1 ensures Calls(g, targets, r[i], r[i + 1]) {
      if i < |p| - 1 {
        assert Calls(g, targets, p[i], p[i + 1]);
      } else if i >= |p| {
        assert q[(i - |p|) + 1] in g[q[i - |p|]].callees;
      }
    }
  }

  /** A framed function that gets back to an indirect call can be called again and
      again, so no depth bounds the runs. */
  lemma NothingBoundsALoop(g: CallGraph, entry: Name, head: seq<Name>, framed: Name, loop: seq<Name>, depth: nat)
    requires LeadsToIndirect(g, entry, head) && LeadsToIndirect(g, framed, loop) && g[framed].frame > 0
    ensures !BoundsEveryRun(g, entry, depth)
  {
    var targets := map[head[|head| - 1] := {framed}, loop[|loop| - 1] := {framed}];
    RoundsAreARun(g, targets, head, loop, depth + 1);
    assert IsRun(g, targets, Rounds(head, loop, depth + 1));
  }

  /** When the reported depth holds whatever the registers point at: exactly when the
      entry reaches no indirect call, or only frameless functions reach any. */
  lemma BoundHoldsExactly(g: CallGraph, entry: Name, bound: nat, depth: nat)
    requires entry in g && IsAllowance(g, entry, bound) && IsMaxCost(g, bound, entry, depth)
    ensures BoundsEveryRun(g, entry, depth) <==> NoIndirectFrom(g, entry) || IndirectIsWeightless(g)
  {
    if NoIndirectFrom(g, entry) || IndirectIsWeightless(g) {
      forall targets, p | IsRun(g, targets, p) && p[0] == entry ensures FrameSum(g, p) <= depth {
        RunIsBounded(g, entry, bound, depth, targets, p);
      }
    } else {
      var head :| LeadsToIndirect(g, entry, head);
      var framed, loop :| LeadsToIndirect(g, framed, loop) && g[framed].frame > 0;
      NothingBoundsALoop(g, entry, head, framed, loop, depth);
    }
  }

  /** The stated reason for the allowance, that it holds whatever the register
      points at, fails once a target makes an indirect call of its own: the search
      skips such functions when it computes the allowance. */
  lemma AllowanceMissesIndirectTargets()
    ensures
      var g: CallGraph := map["main" := Func(8, {}, true), "poll" := Func(100, {}, true)];
      var targets := map["main" := {"poll"}];
      && IsAllowance(g, "main", 0)
      && IsMaxCost(g, 0, "main", 8)
      && IsRun(g, targets, ["main", "poll"])
      && FrameSum(g, ["main", "poll"]) == 108
  {
    var g: CallGraph := map["main" := Func(8, {}, true), "poll" := Func(100, {}, true)];
    CostSingle(g, 0, "main");
    forall p | ChainFrom(g, "main", p) ensures p == ["main"] {
      if |p| > 1 {
        ChainTail(g, p);
      }
    }
    assert FrameSum(g, ["main", "poll"]) == 8 + FrameSum(g, ["main", "poll"][1..]);
    assert ["main", "poll"][1..] == ["poll"];
    CostSingle(g, 0, "poll");
    assert FrameSum(g, ["poll"]) == 100;
    var targets := map["main" := {"poll"}];
    assert Calls(g, targets, "main", "poll");
  }
}
