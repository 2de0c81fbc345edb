/**
 The optimizer's pass-composition layer: a pass rewrites a sequence of
 instructions, `Optimize` chains passes by delegation, and `MapLoops` lets a
 pass reach into the bodies of the loops of a sequence.
 */
module Optimizer {
  import opened Syntax

  /** The result of one step of an iterator. */
  datatype Option<T> = None | Some(value: T)

  /** An optimization pass: a pure rewrite of an instruction sequence. */
  type Pass = seq<Instruction> -> seq<Instruction>

  /** The pass that changes nothing. */
  function Identity(): Pass
  {
    s => s
  }

  /** The pass that runs `first` and then `second`. */
  function Then(first: Pass, second: Pass): Pass
  {
    s => second(first(s))
  }

  /** Runs `pass` over `xs` by handing the whole sequence to the pass. */
  function Optimize(xs: seq<Instruction>, pass: Pass): (r: seq<Instruction>)
  {
    pass(xs)
  }

  /** Chaining two `Optimize` calls runs their composition. */
  lemma ChainIsComposition(xs: seq<Instruction>, a: Pass, b: Pass)
    ensures Optimize(Optimize(xs, a), b) == Then(a, b)(xs)
    ensures Optimize(Optimize(xs, a), b) == b(a(xs))
  {
  }

  /** How one instruction is rewritten: a loop gets its body optimized, anything else passes through. */
  function MapInstruction(x: Instruction, pass: Pass): (r: Instruction)
    ensures r.Loop? <==> x.Loop?
    ensures !x.Loop? ==> r == x
    ensures x.Loop? ==> r.nodes == pass(x.nodes)
  {
    match x
    case Loop(nodes) => Loop(pass(nodes))
    case other => other
  }

  /**
   Reference meaning of `map_loops`: the instructions of `xs` rewritten one at
   a time, in order, each by `MapInstruction`.
   */
  function MapLoops(xs: seq<Instruction>, pass: Pass): (r: seq<Instruction>)
    ensures |r| == |xs|
    ensures forall i :: 0 <= i < |xs| ==> r[i] == MapInstruction(xs[i], pass)
    ensures forall i :: 0 <= i < |xs| ==> (r[i].Loop? <==> xs[i].Loop?)
    ensures forall i :: 0 <= i < |xs| && !xs[i].Loop? ==> r[i] == xs[i]
    ensures forall i :: 0 <= i < |xs| && xs[i].Loop? ==> r[i] == Loop(pass(xs[i].nodes))
    decreases xs
  {
    if xs == [] then []
    else [MapInstruction(xs[0], pass)] + MapLoops(xs[1..], pass)
  }

  /**
   The state of a `map_loops` iterator: the instructions still to come and
   the pass to apply. Building one wraps a stream so that its loop bodies are
   rewritten by `optimizer`.
   */
  datatype MapLoopsIter = MapLoopsIter(iter: seq<Instruction>, optimizer: Pass)

  /**
   One step of the iterator: it yields `Some` exactly while the underlying
   stream does, and the yielded value is the next input instruction rewritten.
   */
  function Next(it: MapLoopsIter): (r: (Option<Instruction>, MapLoopsIter))
    ensures r.0.Some? <==> |it.iter| > 0
    ensures r.1.optimizer == it.optimizer
    ensures r.0.None? ==> r.1 == it
    ensures r.0.Some? ==> r.1.iter == it.iter[1..]
    ensures r.0.Some? ==> r.0.value == MapInstruction(it.iter[0], it.optimizer)
  {
    if it.iter == [] then (None, it)
    else (Some(MapInstruction(it.iter[0], it.optimizer)), it.(iter := it.iter[1..]))
  }

  /** Drains the iterator, collecting every yielded instruction in order. */
  method CollectVec(it: MapLoopsIter) returns (out: seq<Instruction>)
    ensures |out| == |it.iter|
    ensures forall i :: 0 <= i < |out| ==> out[i] == MapInstruction(it.iter[i], it.optimizer)
    ensures out == MapLoops(it.iter, it.optimizer)
  {
    out := [];
    var cur := it;
    var step := Next(cur);
    while step.0.Some?
      invariant cur.optimizer == it.optimizer
      invariant |out| + |cur.iter| == |it.iter|
      invariant cur.iter == it.iter[|out|..]
      invariant step == Next(cur)
      invariant forall i :: 0 <= i < |out| ==> out[i] == MapInstruction(it.iter[i], it.optimizer)
      decreases |cur.iter|
    {
      out := out + [step.0.value];
      cur := step.1;
      step := Next(cur);
    }
    MapLoopsPointwise(it.iter, it.optimizer, out);
  }

  /** A sequence that agrees with `MapInstruction` at every position is `MapLoops`. */
  lemma MapLoopsPointwise(xs: seq<Instruction>, pass: Pass, ys: seq<Instruction>)
    requires |ys| == |xs|
    requires forall i :: 0 <= i < |xs| ==> ys[i] == MapInstruction(xs[i], pass)
    ensures ys == MapLoops(xs, pass)
  {
  }

  /** `MapLoops` leaves `xs` unchanged exactly when the pass fixes the body of every loop in `xs`. */
  lemma MapLoopsUnchangedIff(xs: seq<Instruction>, pass: Pass)
    ensures MapLoops(xs, pass) == xs <==>
            forall i :: 0 <= i < |xs| && xs[i].Loop? ==> pass(xs[i].nodes) == xs[i].nodes
  {
    var r := MapLoops(xs, pass);
    if forall i :: 0 <= i < |xs| && xs[i].Loop? ==> pass(xs[i].nodes) == xs[i].nodes {
      forall i | 0 <= i < |xs|
        ensures r[i] == xs[i]
      {
        if xs[i].Loop? {
          assert r[i] == Loop(pass(xs[i].nodes));
        }
      }
    }
    if r == xs {
      forall i | 0 <= i < |xs| && xs[i].Loop?
        ensures pass(xs[i].nodes) == xs[i].nodes
      {
        assert r[i].nodes == pass(xs[i].nodes);
      }
    }
  }

  /** With the identity pass, `MapLoops` returns its input unchanged. */
  lemma MapLoopsIdentity(xs: seq<Instruction>)
    ensures MapLoops(xs, Identity()) == xs
  {
    MapLoopsUnchangedIff(xs, Identity());
  }

  /** `MapLoops` distributes over concatenation. */
  lemma {:induction false} MapLoopsAppend(a: seq<Instruction>, b: seq<Instruction>, pass: Pass)
    ensures MapLoops(a + b, pass) == MapLoops(a, pass) + MapLoops(b, pass)
    decreases a
  {
    if a == [] {
      assert a + b == b;
    } else {
      assert (a + b)[1..] == a[1..] + b;
      MapLoopsAppend(a[1..], b, pass);
    }
  }

  /** Two `MapLoops` rounds are one round with the composed pass. */
  lemma MapLoopsThen(xs: seq<Instruction>, p: Pass, q: Pass)
    ensures MapLoops(MapLoops(xs, p), q) == MapLoops(xs, Then(p, q))
  {
    var lhs := MapLoops(MapLoops(xs, p), q);
    var rhs := MapLoops(xs, Then(p, q));
    forall i | 0 <= i < |xs|
      ensures lhs[i] == rhs[i]
    {
      if xs[i].Loop? {
        assert lhs[i] == Loop(q(p(xs[i].nodes)));
      }
    }
  }

  /** If `q` undoes `p` on every loop body of `xs`, mapping with `p` and then `q` restores `xs`. */
  lemma MapLoopsInverse(xs: seq<Instruction>, p: Pass, q: Pass)
    requires forall i :: 0 <= i < |xs| && xs[i].Loop? ==> q(p(xs[i].nodes)) == xs[i].nodes
    ensures MapLoops(MapLoops(xs, p), q) == xs
  {
    MapLoopsThen(xs, p, q);
    MapLoopsUnchangedIff(xs, Then(p, q));
  }
}
