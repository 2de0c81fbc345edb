/**
 The program tree the optimizer rewrites. Only the `Loop` variant is inspected
 by the pass-composition layer; the other variants are carried along unchanged.
 */
module Syntax {

  /**
   A node of the program tree. `Loop` repeats `nodes` while the current cell
   is non-zero. The payloads of the other variants are placeholders: nothing
   in this model reads them.
   */
  datatype Instruction =
    | MovePointer(offset: int)
    | AddToCell(delta: int)
    | SetCell(value: int)
    | Read
    | Write
    | Loop(nodes: seq<Instruction>)

  /** Nesting depth of a sequence: 0 when it holds no loop, otherwise one more than its deepest loop body. */
  function Depth(xs: seq<Instruction>): (d: nat)
    ensures forall i :: 0 <= i < |xs| && xs[i].Loop? ==> Depth(xs[i].nodes) < d
    ensures d == 0 <==> forall i :: 0 <= i < |xs| ==> !xs[i].Loop?
    decreases xs
  {
    if xs == [] then 0
    else
      var tail := xs[1..];
      var head := if xs[0].Loop? then 1 + Depth(xs[0].nodes) else 0;
      var rest := Depth(tail);
      var d := if head < rest then rest else head;
      assert forall i :: 0 <= i < |xs| && xs[i].Loop? ==> Depth(xs[i].nodes) < d by {
        forall i | 0 <= i < |xs| && xs[i].Loop?
          ensures Depth(xs[i].nodes) < d
        {
          if i > 0 {
            assert xs[i] == tail[i - 1];
          }
        }
      }
      assert d == 0 <==> forall i :: 0 <= i < |xs| ==> !xs[i].Loop? by {
        if d == 0 {
          forall i | 0 <= i < |xs|
            ensures !xs[i].Loop?
          {
            if i > 0 {
              assert xs[i] == tail[i - 1];
            }
          }
        } else if head == 0 {
          var k :| 0 <= k < |tail| && tail[k].Loop?;
          assert xs[k + 1] == tail[k];
        }
      }
      d
  }

  /** A non-zero depth is attained: some loop's body is exactly one level shallower. */
  lemma {:induction false} DepthIsAttained(xs: seq<Instruction>)
    requires Depth(xs) > 0
    ensures exists i :: 0 <= i < |xs| && xs[i].Loop? && Depth(xs) == 1 + Depth(xs[i].nodes)
    decreases xs
  {
    var tail := xs[1..];
    var head := if xs[0].Loop? then 1 + Depth(xs[0].nodes) else 0;
    assert Depth(xs) == if head < Depth(tail) then Depth(tail) else head;
    if head < Depth(tail) {
      DepthIsAttained(tail);
      var k :| 0 <= k < |tail| && tail[k].Loop? && Depth(tail) == 1 + Depth(tail[k].nodes);
      assert xs[k + 1] == tail[k];
    } else {
      assert xs[0].Loop? && Depth(xs) == 1 + Depth(xs[0].nodes);
    }
  }
}
