/**
 How far into nested loops a pass reaches. `MapLoops` itself hands the pass
 only the bodies of the loops it sees directly; deeper loops are reached only
 when the pass, in turn, runs `MapLoops` over the body it was given.
 */
module Nesting {
  import opened Syntax
  import opened Optimizer

  /**
   Applies `f` to every instruction sequence at nesting depth exactly `d`:
   depth 0 is `xs` itself, depth 1 the bodies of the loops in `xs`, and so on.
   */
  function RewriteAtDepth(xs: seq<Instruction>, d: nat, f: Pass): (r: seq<Instruction>)
    decreases xs
  {
    if d == 0 then f(xs)
    else seq(|xs|, i requires 0 <= i < |xs| =>
               match xs[i]
               case Loop(nodes) => Loop(RewriteAtDepth(nodes, d - 1, f))
               case other => other)
  }

  /** `MapLoops` applies its pass at nesting depth one and nowhere else. */
  lemma MapLoopsIsDepthOne(xs: seq<Instruction>, f: Pass)
    ensures MapLoops(xs, f) == RewriteAtDepth(xs, 1, f)
  {
    var lhs := MapLoops(xs, f);
    var rhs := RewriteAtDepth(xs, 1, f);
    assert |lhs| == |rhs|;
    forall i | 0 <= i < |xs|
      ensures lhs[i] == rhs[i]
    {
      if xs[i].Loop? {
        assert RewriteAtDepth(xs[i].nodes, 0, f) == f(xs[i].nodes);
      }
    }
  }

  /**
   The bottom-up rewrite that applies `local` to every instruction sequence of
   the tree: loop bodies first, then the sequence that holds them.
   */
  function Deep(local: Pass, xs: seq<Instruction>): (r: seq<Instruction>)
    decreases xs, 1
  {
    local(DeepChildren(local, xs))
  }

  /** `xs` with every loop body replaced by its bottom-up rewrite. */
  function DeepChildren(local: Pass, xs: seq<Instruction>): (r: seq<Instruction>)
    ensures |r| == |xs|
    ensures forall i :: 0 <= i < |xs| && !xs[i].Loop? ==> r[i] == xs[i]
    decreases xs, 0
  {
    seq(|xs|, i requires 0 <= i < |xs| =>
          match xs[i]
          case Loop(nodes) => Loop(Deep(local, nodes))
          case other => other)
  }

  /** `P` is a pass that first maps itself over the loop bodies and then runs `local`. */
  ghost predicate RecursesThroughMapLoops(P: Pass, local: Pass)
  {
    forall s :: P(s) == local(MapLoops(s, P))
  }

  /**
   A pass that first runs `MapLoops` with itself and then its own rewrite
   `local` (inside-out) reaches every nesting depth: it coincides with the
   bottom-up rewrite `Deep`. Proved by induction on the nesting depth of the
   input. A pass that rewrites first and maps itself afterwards is not covered.
   */
  lemma {:induction false} RecursivePassReachesEveryDepth(P: Pass, local: Pass, xs: seq<Instruction>)
    requires RecursesThroughMapLoops(P, local)
    ensures P(xs) == Deep(local, xs)
    decreases Depth(xs)
  {
    var mapped := MapLoops(xs, P);
    var children := DeepChildren(local, xs);
    forall i | 0 <= i < |xs|
      ensures mapped[i] == children[i]
    {
      if xs[i].Loop? {
        RecursivePassReachesEveryDepth(P, local, xs[i].nodes);
      }
    }
    assert mapped == children;
    assert P(xs) == local(mapped);
  }

  /**
   The recursion equation has a solution: the bottom-up rewrite itself maps
   `MapLoops` over the loop bodies and then runs `local`. With
   `RecursivePassReachesEveryDepth` this makes `Deep(local, _)` the one pass
   that satisfies the equation.
   */
  lemma DeepSolvesRecursion(local: Pass)
    ensures RecursesThroughMapLoops(s => Deep(local, s), local)
  {
    var P: Pass := s => Deep(local, s);
    forall s: seq<Instruction>
      ensures P(s) == local(MapLoops(s, P))
    {
      var mapped := MapLoops(s, P);
      var children := DeepChildren(local, s);
      forall i | 0 <= i < |s|
        ensures mapped[i] == children[i]
      {
        if s[i].Loop? {
          assert mapped[i] == Loop(Deep(local, s[i].nodes));
        }
      }
      assert mapped == children;
    }
  }

  /**
   Wrapping a pass that works at depth `d` in `MapLoops` gives a pass that
   works at depth `d + 1`: every extra level of nesting a pass reaches is one
   more `MapLoops` layer.
   */
  lemma MapLoopsShiftsDepth(xs: seq<Instruction>, d: nat, f: Pass)
    ensures MapLoops(xs, s => RewriteAtDepth(s, d, f)) == RewriteAtDepth(xs, d + 1, f)
  {
    var lhs := MapLoops(xs, s => RewriteAtDepth(s, d, f));
    var rhs := RewriteAtDepth(xs, d + 1, f);
    forall i | 0 <= i < |xs|
      ensures lhs[i] == rhs[i]
    {
    }
  }

  /** Appends a `Write`: a visible marker of where a pass was applied. */
  function MarkWithWrite(): Pass
  {
    s => s + [Write]
  }

  /**
   A pass that does not itself use `MapLoops` leaves a doubly nested loop
   body alone: only the outer body gets the marker, the inner one stays empty.
   A pass that does recurse through `MapLoops` marks the inner body too.
   */
  lemma {:induction false} ShallowPassMissesNestedLoop(P: Pass)
    requires RecursesThroughMapLoops(P, MarkWithWrite())
    ensures MapLoops([Loop([Loop([])])], MarkWithWrite()) == [Loop([Loop([]), Write])]
    ensures MapLoops([Loop([Loop([])])], P) == [Loop([Loop([Write]), Write])]
  {
    var inner: seq<Instruction> := [];
    var outer := [Loop(inner)];
    assert MarkWithWrite()(outer) == [Loop(inner), Write];
    assert MapLoops([Loop(outer)], MarkWithWrite())[0] == Loop([Loop(inner), Write]);
    assert MapLoops(inner, P) == [];
    assert P(inner) == [Write];
    assert MapLoops(outer, P) == [Loop([Write])];
    assert P(outer) == [Loop([Write]), Write];
  }
}
