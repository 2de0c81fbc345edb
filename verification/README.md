# brainc optimizer: pass composition

This project models the pass-composition layer of the brainc optimizer in Dafny. brainc is a Brainfuck-style toolchain: one data pointer moves over a tape of byte cells, and loops repeat while the current cell is non-zero. The modelled layer is `src/optimize/mod.rs`, and it has three parts:

- An **optimization pass** rewrites a sequence of `Instruction`s into a new sequence. It is modelled as the total function type `Optimizer.Pass`.
- **`OptimizeExt::optimize`** runs a pass by delegating to it. `Optimizer.Optimize` models it. `Pipeline.RunPasses` models a chain of such calls, such as the driver's `CombineIncrements` → `ReplaceSet` → `CombineSets`.
- **`map_loops`** wraps an instruction stream. Every `Loop { nodes }` in the stream comes out as a `Loop` whose body is the pass applied to `nodes`. Every other instruction passes through unchanged. This is how peephole passes reach into loop bodies.

The iterator is modelled twice:

- **As the source has it.** `Optimizer.MapLoopsIter` holds the remaining stream and the pass. `Optimizer.Next` is one `next` call. `Optimizer.CollectVec` drains the iterator in a loop, as `collect_vec` does.
- **As an independent reference.** `Optimizer.MapLoops` is a recursive, element-wise definition.

The two are proved equal. Every property of `map_loops` is then stated about the reference. These properties are:

- length and order are preserved;
- only loops change;
- the identity pass changes nothing;
- the map distributes over concatenation;
- two rounds equal one round with the composed pass;
- a pass and its inverse cancel.

The `Nesting` module states how deep a pass reaches:

- `map_loops` applies its pass at nesting depth one and nowhere else. Each further level reached costs one more `map_loops` layer.
- A pass that first runs `map_loops` with itself and then its own rewrite (inside-out) reaches every depth. It equals the bottom-up rewrite `Nesting.Deep`. This is proved by induction on nesting depth. The bottom-up rewrite is also shown to satisfy the recursion, so such a pass exists.

Modules:

- `syntax.dfy`: module `Syntax`. The `Instruction` tree and its nesting depth.
- `optimize.dfy`: module `Optimizer`. Passes, delegation, and the `map_loops` iterator with its reference definition and lemmas.
- `nesting.dfy`: module `Nesting`. Depth-indexed rewriting and the reach of recursive passes.
- `pipeline.dfy`: module `Pipeline`. Chains of passes and the driver's pass order.

## Model

| member | source | states |
|---|---|---|
| Optimizer.ChainIsComposition | src/optimize/mod.rs:14-16 | `xs.optimize(a).optimize(b)` equals the composed pass `Then(a, b)` applied to `xs`, which is `b(a(xs))` |
| Optimizer.Optimize | src/optimize/mod.rs:14-16 | no contract: `optimize` hands the whole stream to the pass; what that means is stated by `Optimizer.ChainIsComposition` and `Pipeline.RunPasses` |
| Optimizer.MapInstruction | src/optimize/mod.rs:47-52 | the per-instruction closure: the result is a `Loop` exactly when the input is; a non-loop comes out identical; a loop's new body is the pass applied to its old body |
| Optimizer.MapLoops | src/optimize/mod.rs:46-53 | one output per input, so the lengths are equal; output i comes from input i only; it is a `Loop` exactly when input i is; a non-loop is returned identical; a `Loop(nodes)` becomes `Loop(pass(nodes))` |
| Optimizer.Next | src/optimize/mod.rs:46-53 | `next` yields `Some` exactly while the underlying stream is non-empty; the yielded value is the first remaining instruction rewritten; the stream advances by one; after `None` the state is unchanged and the pass is never replaced |
| Optimizer.CollectVec | src/optimize/mod.rs:39-54 | draining the `map_loops` iterator collects exactly one element per input, in order, and the result equals the reference `MapLoops` |
| Optimizer.MapLoopsUnchangedIff | src/optimize/mod.rs:47-52 | `map_loops` returns its input unchanged if and only if the pass fixes the body of every top-level loop |
| Optimizer.MapLoopsIdentity | src/optimize/mod.rs:47-52 | with the identity pass, `map_loops` returns its input unchanged |
| Optimizer.MapLoopsAppend | src/optimize/mod.rs:46-53 | `map_loops(a ++ b) == map_loops(a) ++ map_loops(b)` |
| Optimizer.MapLoopsThen | src/optimize/mod.rs:46-53 | mapping with `p` and then with `q` equals one mapping with the composition of `p` and `q` |
| Optimizer.MapLoopsInverse | src/optimize/mod.rs:47-52 | if `q` undoes `p` on every loop body, mapping with `p` and then `q` gives back the input |
| Nesting.MapLoopsIsDepthOne | src/optimize/mod.rs:49 | `map_loops` applies its pass only to the bodies of the loops it sees directly (depth one) and does not recurse deeper itself |
| Nesting.RecursivePassReachesEveryDepth | src/optimize/mod.rs:49 | a pass defined as `local` after `map_loops` with itself equals the bottom-up rewrite that applies `local` at every nesting depth |
| Nesting.DeepSolvesRecursion | src/optimize/mod.rs:49 | the self-recursive pass exists: the bottom-up rewrite `Deep(local, _)` satisfies `P(s) == local(map_loops(s, P))`, so with `RecursivePassReachesEveryDepth` it is exactly the solutions of that equation |
| Nesting.MapLoopsShiftsDepth | src/optimize/mod.rs:47-52 | for every depth `d`, wrapping a pass that rewrites depth `d` in `map_loops` rewrites exactly depth `d + 1`: each level of nesting reached costs one `map_loops` layer |
| Nesting.ShallowPassMissesNestedLoop | src/optimize/mod.rs:47-52 | one concrete case: a pass that does not use `map_loops` leaves a doubly nested loop body untouched, while the self-recursive version of the same pass marks it |
| Pipeline.RunPasses | src/main.rs:64-69 | a chain of `.optimize` calls: with no passes the stream is unchanged; otherwise the last pass is applied to the result of all the earlier passes |
| Pipeline.RunPassesIsComposition | src/optimize/mod.rs:14-16 | a chain of `optimize` calls over a list of passes equals the single composed pass |
| Pipeline.RunPassesAppend | src/optimize/mod.rs:14-16 | running passes `a ++ b` equals running `a`, then running `b` on the result |
| Pipeline.OptimizeStage | src/main.rs:62-73 | with optimization on, the program becomes `combineSets(replaceSet(combineIncrements(xs)))`; with it off, the parsed program is used unchanged |

## Left out

- `OptimizationPass` has no member of its own. It is the function type `Optimizer.Pass`: the trait exposes one stateless method, and a pure function captures it.
- `MapLoopsExt::map_loops` (src/optimize/mod.rs:21-32) only stores its two arguments. It is modelled by the datatype constructor `Optimizer.MapLoopsIter`.
- Iterator laziness, `IntoIterator` and ownership are not modelled. Streams are finite sequences, and `collect_vec` is `Optimizer.CollectVec`.
- `Optimizer.Optimize` has no contract. Its meaning, plain delegation, is stated by `Optimizer.ChainIsComposition` and the `Pipeline` lemmas.
- The program's `syntax` module is not modelled. In `Syntax.Instruction` the non-loop variants `MovePointer`, `AddToCell`, `SetCell`, `Read` and `Write` are opaque: `map_loops` never inspects them and only carries them along. Their payload types are placeholders that nothing in the model reads.
- A pass that does its own rewrite first and then runs `map_loops` with itself (`P(s) == map_loops(local(s), P)`) is not characterised. It also reaches every depth, but it is not `Nesting.Deep(local)` in general. Which order the peephole passes use is not part of this model.
- The peephole passes `CombineIncrements`, `ReplaceSet` and `CombineSets` are not modelled. They are parameters of `Pipeline.OptimizeStage`.
- The parser (`syntax::parse`, src/main.rs:60) is not modelled. It builds the instruction tree before any pass runs, and the model takes that tree as its input.
- The interpreter, the JIT code generator, executable memory, `executor.run` and `dump_binary` are not modelled. They do I/O or emit machine code, which lies outside the pure rewriting modelled here.
- The rest of `src/main.rs` is not modelled: command-line parsing, file reading, timing and stdout flushing. It is I/O plumbing. Only the pass order (src/main.rs:62-73) is modelled.
