/**
 Running several passes one after another with `Optimize`, and the fixed
 order the command-line driver uses for its three peephole passes.
 */
module Pipeline {
  import opened Syntax
  import opened Optimizer

  /**
   Runs `passes` left to right, each through `Optimize` on the previous result:
   the last pass of the chain sees the output of all the others.
   */
  function RunPasses(xs: seq<Instruction>, passes: seq<Pass>): (r: seq<Instruction>)
    ensures passes == [] ==> r == xs
    ensures passes != [] ==> r == passes[|passes| - 1](RunPasses(xs, passes[..|passes| - 1]))
    decreases |passes|
  {
    if passes == [] then xs
    else
      var rest := passes[1..];
      assert rest != [] ==> passes[..|passes| - 1][1..] == rest[..|rest| - 1];
      assert rest != [] ==> passes[|passes| - 1] == rest[|rest| - 1];
      RunPasses(Optimize(xs, passes[0]), rest)
  }

  /** The single pass that does what `passes` do, built by right-nested composition. */
  function ComposeAll(passes: seq<Pass>): (p: Pass)
    decreases |passes|
  {
    if passes == [] then Identity()
    else Then(passes[0], ComposeAll(passes[1..]))
  }

  /** A chain of `Optimize` calls is the composition of its passes. */
  lemma {:induction false} RunPassesIsComposition(xs: seq<Instruction>, passes: seq<Pass>)
    ensures RunPasses(xs, passes) == ComposeAll(passes)(xs)
    decreases |passes|
  {
    if passes != [] {
      RunPassesIsComposition(passes[0](xs), passes[1..]);
    }
  }

  /** Splitting a chain of passes anywhere gives the same result as running it whole. */
  lemma {:induction false} RunPassesAppend(xs: seq<Instruction>, a: seq<Pass>, b: seq<Pass>)
    ensures RunPasses(xs, a + b) == RunPasses(RunPasses(xs, a), b)
    decreases |a|
  {
    if a == [] {
      assert a + b == b;
    } else {
      assert (a + b)[0] == a[0];
      assert (a + b)[1..] == a[1..] + b;
      RunPassesAppend(Optimize(xs, a[0]), a[1..], b);
    }
  }

  /**
   The optimization stage of the driver: when optimization is requested the
   program goes through combine-increments, replace-set and combine-sets, in
   that order; otherwise it is used as parsed.
   */
  function OptimizeStage(instructions: seq<Instruction>, optimize: bool,
                         combineIncrements: Pass, replaceSet: Pass, combineSets: Pass): (r: seq<Instruction>)
    ensures optimize ==> r == combineSets(replaceSet(combineIncrements(instructions)))
    ensures !optimize ==> r == instructions
  {
    if optimize then
      var passes := [combineIncrements, replaceSet, combineSets];
      assert passes[..2] == [combineIncrements, replaceSet];
      assert passes[..2][..1] == [combineIncrements];
      assert [combineIncrements][..0] == [];
      RunPasses(instructions, passes)
    else
      instructions
  }
}
