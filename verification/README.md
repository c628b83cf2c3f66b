# A verified model of the shader compiler and its software pipeline

The repository compiles a GLSL-like language to LLVM IR and SPIR-V and runs the result in a tiled, multi-threaded
software rasterizer. This project models its hardest parts in Dafny and proves what they are for. `dafny verify
dfyconfig.toml` checks everything.

**The packetizer** (`Ast` to `ShaderRules`). One structured scalar shader is turned into code that runs W
invocations at once, with structural masks, per-loop `la`/`em` masks for divergent break and continue, blended
stores, arms skipped when no lane wants them, and a fixpoint analysis that gives lane-independent locals scalar slots
and lane-independent loops plain branches. The main theorem is compiler correctness: each lane of the vector code
ends exactly when its own invocation does, with the same outputs, its live bit false exactly when the invocation
reaches `discard`; for every packet width, every input, and every meaning of the component operations
(`PacketCompiler.PacketIsScalarPerLane`, `PacketCompiler.PacketTerminatesIff`). The proof goes through two levels: a
mask semantics that simulates every lane (`LaneSimulation`), and the emitted vector code, slots and registers
included, that runs as the mask semantics says (`EmitterCorrectness`). `Packetizer` and `Analysis` are classes that
emit and analyse as the source does, with fields for `mask_`, `live_`, `la_`, `em_`, `divergentVars_` and
`uniformLoops_`. The analysis is only an optimisation: under every plan that justifies itself the packets do what fully
masked emission does (`PacketCompiler.AgreesWithMasked`), and what the code does once for all lanes stands under no mask
(`UniformPlacement.UniformIsUnmasked`). The plan found is the one with the fewest lane-dependent names and the most
uniform loops among those that settle every site of the shader's text (`UniformityAnalysis`), an expression counts as
uniform exactly when it reads only unmarked names and holds no conversion (`UniformSites.UniformIff`,
`UniformSites.DependsIff`), and invocations that agree on the unmarked names before a statement outside divergent
control flow agree on them after it (`UniformRuns.UniformStaysEqual`). Which shaders are refused is said of the text,
too: exactly those with a construct, an operator, a function, a swizzle target or a name there is no code for
(`PacketCompiler.BailsIff`). Values are component tuples; a loop bound `n` limits the iterations of every loop
entered, and all statements hold for all `n`.

The code needs three things of a shader. Each has a shader that meets the others and fails, and an exact condition;
`ShaderRules` shows that they shut out nothing ordinary: names that the semantic analysis resolves are definitely
assigned, and no loop is misplaced where loops come first in their text.

- No loop may follow a break or continue of the same body (`LoopsBeforeEscapes`), since an inner loop is seeded from
  the structural mask. `SideConditions.SeedExact`: the seed is right for all loops exactly when no lane of that mask
  has left the iteration; and a run in which every masked loop is entered like that is right, wherever the loops stand
  (`PacketCompiler.SeededIsScalarPerLane`). `SideConditions.LoopAfterBreakFails` is a shader for which the emitted
  code, at every width, leaves a wrong output in every lane.
- No `discard` under a loop, since `live_` is a plain SSA value. `PacketCompiler.ShaderValidIff`: the emitted code is
  valid SSA exactly when there is none; `SideConditions.DiscardInLoopIsInvalid` is a shader with one.
- Reads are definitely assigned (`Scoped`), since a local's slot is nulled where it is first assigned in program text,
  in all lanes. `DefiniteAssignment.NullingExact`: a masked assignment leaves its target alone in every idle lane
  exactly when the name was assigned before in program text or no lane is idle. `DefiniteAssignment.LateSlotFails` is a
  shader that keeps a name from one round of a loop to the next and never reads it unassigned: the emitted code, at
  every width, leaves a wrong output in every lane.

**Structured code generation** (`ControlFlow*`). The scalar path turns nested statements into a control-flow graph,
with stacks of break and continue targets, code after a terminator dropped, `&&`, `||` and `?:` as branches with
phis. Running the graph is running the source: same store, same answer, and it stops exactly when the source does. A
function with a result that is accepted never falls off its end, which is what `allPathsReturn` is for; which functions
are accepted is an equivalence on their last statements (`ControlFlowReturns.AcceptedIff`). `Generator` is
the imperative generator; its `CompileFunction` promises that of the graph it builds. `BackEnds` puts both paths
together: when a packet halts, the scalar path's graph stops on each lane's inputs, and the lane holds what it computed
(`BackEnds.LanesAreGraphRuns`).

**The rasterizer** (`RasterGeometry` to `CompiledShading`). Triangle setup, per-thread bins, a walk over tiles, stepped
edge functions, depth test, and fragments shaded in packets agree with a loop over all triangles in index order and
all pixels. `Projection` says in clip-space terms which pixels a triangle has (those whose centre it holds, if it is in
front and faces the viewer) and what their fragments carry (any affine function of the clip position, at the pixel), and
`RasterReference.NearestWins` which of them a pixel shows. `Renderer.Draw` proves it of the buffers for every split into
contiguous chunks and every order of the tiles; `TileSchedule` for every interleaving of the tiles' steps that gives each
tile enough turns. `CompiledShading` puts the packetizer behind it: a draw shaded by compiled packets shows each
fragment's own invocation. Arithmetic is real.

**Matrices** (`Determinant`, `MatrixKernels`). The recursive determinant and the adjugate inverse, for every size:
expansion along any row or column, zero for a repeated row, and the inverse on both sides.

**The SPIR-V emitter** (`BlockOrder`, `WordStream`). Blocks are written once each, the entry first, dominators before
what they dominate (section 2.16.1 of the SPIR-V Specification); a shipped module, header and stitched sections, reads
back as its id bound and its instructions exactly when each of them fits its encoding (sections 2.2.1 and 2.3).

**The parser** (`Expression*`, `Parser*`). Precedence climbing accepts exactly the grammar that the precedence table
and left associativity stand for, and is the inverse of printing with the fewest parentheses; `OperatorOrder` reads the
signs and the order of their classes off the trees.

**Semantic checks** (`StructCycles`, `DoubleFields`). The search for recursive structures is exact and leaves an
acyclic graph. The search for doubles relies on it, but follows array elements, too: it ends, and is then exact,
exactly when no cycle runs through the fields it looks at, each struct up to its first field with a double
(`DoubleFields.SearchEndsIff`); an array of the struct itself passes the check and has the search run forever.

**Mesh generation** (`Surface`, `Icosphere`). Subdivision keeps a closed, consistently oriented surface exactly when no
two triangles lie back to back on the same three vertices (`Surface.TwinsDoNotSplit` has two that do); the icosahedron
has none such, and splitting makes none.

**The stage boundary** (`AbiLayout`, `AbiRegions`, `StageInterface`). Values flattened into 32-bit and 64-bit regions
load back unchanged, the offsets move by the counted slots, and varyings arrive in the fragment stage up to the first
that holds a double.

## Model

| member | source | states |
|---|---|---|
| PacketCompiler.PacketIsScalarPerLane | src/codegen/emit/emit_fs_packet.h:972-1238 | within every iteration bound the vector code halts exactly when every lane's invocation does (discard continuing), and then each lane's live bit is false exactly when its invocation discards and live lanes hold the invocation's outputs |
| PacketCompiler.SeededIsScalarPerLane | src/codegen/emit/emit_fs_packet.h:1185-1238 | the same, without a rule on where loops stand, of every run in which each masked loop is entered with mask_ inside em |
| PacketCompiler.AcceptedIsCorrect | src/codegen/emit/emit_fs_packet.h:1240-1359 | one compilation is correct for all packet widths, bounds, operations and inputs |
| PacketCompiler.PacketTerminatesIff | src/codegen/emit/emit_fs_packet.h:1185-1238 | the packet terminates exactly when each lane's invocation does on its own |
| PacketCompiler.ShaderValidIff | src/codegen/emit/emit_fs_packet.h:284-312 | the emitted code, with the store of live_ at the end, is valid SSA exactly when no discard lies under a loop |
| PacketCompiler.IdleStatementIsSkip | src/codegen/emit/emit_fs_packet.h:1130-1150 | with no lane active a statement ends and leaves live_, la, em and every visible name of every lane alone, so skipping an arm is exact; its masked loops are entered with mask_ inside em |
| PacketCompiler.UniformLocalsAgree | src/codegen/emit/emit_fs_packet.h:156-282 | two invocations that share their globals and finish agree at the end on every name the analysis left unmarked |
| UniformRuns.UniformStaysEqual | src/codegen/emit/emit_fs_packet.h:156-282 | statement by statement: outside divergent control flow, invocations that agree on the unmarked names before agree after |
| UniformRuns.DivergentLeaves | src/codegen/emit/emit_fs_packet.h:222-272 | under divergent control flow a statement leaves every unmarked name alone |
| PacketCompiler.PlansAgree | src/codegen/emit/emit_fs_packet.h:156-282 | under any two plans that justify themselves the packets halt in the same cases, with the same live lanes and the same outputs in those |
| PacketCompiler.AgreesWithMasked | src/codegen/emit/emit_fs_packet.h:156-282 | so the packets of every such plan do what fully masked emission does |
| PacketCompiler.MaskedIsAccepted | src/codegen/emit/emit_fs_packet.h:274-282 | and the fully masked plan is accepted for every shader for which any plan is |
| Bailing.BailsAlike | src/codegen/emit/emit_fs_packet.h:972-1128 | whether a statement makes the packetizer give up does not depend on the plan |
| PacketCompiler.BailsIff | src/codegen/emit/emit_fs_packet.h:972-1128 | the packetizer gives up exactly when the text of the shader has a statement or expression of no known kind, an operator or function not listed with that number of operands, a swizzle assignment to what is no output, a break or continue outside all loops, or a read of a name neither of the interface nor assigned earlier |
| Bailing.CanEmitIff | src/codegen/emit/emit_fs_packet.h:930-970 | an expression is emitted exactly when every part of it, each by its kind, has code |
| Bailing.EmitFollows | src/codegen/emit/emit_fs_packet.h:972-1128 | statement by statement: the emitter gives up exactly where the text is refused, and else knows what it sets |
| PacketCompiler.GuardedIff | src/codegen/emit/emit_fs_packet.h:287-350 | an arm gets a branch around it exactly when its text has a loop or a call outside conversions, and no discard |
| ProgramText.BreakOrContinueIff | src/codegen/emit/emit_fs_packet.h:202-220 | hasBreakOrContinue: exactly when the text has a break or continue in no loop of its own |
| ProgramText.WellFormedIff | src/frontend/ast/ast.cpp:1764-1786 | the shaders meant: break and continue stand in loops, and loop headers are assignments |
| ShaderRules.BoundIsScoped | src/frontend/sema/sema.cpp:66-79 | where every name is found in the nested scopes, every read is definitely assigned |
| ShaderRules.OrderIsEnough | src/codegen/emit/emit_fs_packet.h:1185-1238 | where in the text of the shader and of each loop body the loops come before what breaks and continues, the rule on loops is kept |
| UniformPlacement.UniformIsUnmasked | src/codegen/emit/emit_fs_packet.h:222-282 | under a plan that justifies itself, stores of lane 0 and loops that test lane 0 are emitted outside all masked loops, guarded arms and conditionals |
| UniformPlacement.DivergentIsLanewise | src/codegen/emit/emit_fs_packet.h:222-282 | under divergent control flow neither is emitted at all |
| UniformPlacement.FullyMaskedIsLanewise | src/codegen/emit/emit_fs_packet.h:222-282 | nor under the fully masked plan, whatever the shader |
| PacketCompiler.CompiledRuns | src/codegen/emit/emit_fs_packet.h:1240-1359 | running the emitted code of a whole shader is running the mask semantics, slots and registers included |
| PacketCompiler.ShaderSimulates | src/codegen/emit/emit_fs_packet.h:972-1128 | the mask semantics of a whole shader simulates all lanes |
| ScalarSemantics.RecordingPredictsStopping | src/frontend/ast/ast.cpp:1786-1796 | the run that only records a discard ends alive exactly when the real run never reaches it, and in the same state |
| ScalarSemantics.MoreFuel | src/frontend/ast/ast.cpp:1798-1890 | a run that ends within a bound ends the same way within every larger one |
| LaneSimulation.Simulate | src/codegen/emit/emit_fs_packet.h:972-1128 | every statement ends exactly when each active lane's does, and then active lanes hold what their scalar runs left, escaped lanes have the right masks, idle lanes are untouched |
| LaneSimulation.EvalAgrees | src/codegen/emit/emit_fs_packet.h:603-694 | a lane of an emitted expression is the scalar value in that lane, ternaries by select and uniform builtin calls on lane 0 included |
| LaneSimulation.UniformValue | src/codegen/emit/emit_fs_packet.h:159-197 | an expression the analysis calls uniform has one value in all lanes |
| LaneSimulation.SimulateMasked | src/codegen/emit/emit_fs_packet.h:1185-1238 | a masked loop iterates within a bound exactly when each lane that entered does, and gives each its scalar result |
| LaneSimulation.SimulateUniform | src/codegen/emit/emit_fs_packet.h:1158-1183 | a loop that tests lane 0 for everyone is right for every lane |
| LaneSimulation.SimulateIf | src/codegen/emit/emit_fs_packet.h:1064-1084 | both masked arms together are the scalar `if` in every lane |
| LaneRelation.SkipSimulated | src/codegen/emit/emit_fs_packet.h:1130-1150 | with an all-false mask, doing nothing simulates any statement |
| EmitterCorrectness.EmitCorrect | src/codegen/emit/emit_fs_packet.h:972-1128 | the code emitted for a statement takes a matching machine where the mask semantics goes, and leaves older registers and slots alone |
| EmitterCorrectness.MaskedCorrect | src/codegen/emit/emit_fs_packet.h:1185-1238 | the code of a masked loop: seeding, header, body, increment under la, and the enclosing masks given back |
| EmitterCorrectness.UniformCorrect | src/codegen/emit/emit_fs_packet.h:1158-1183 | the code of a uniform loop runs as the mask semantics says |
| EmitterCorrectness.GuardedCorrect | src/codegen/emit/emit_fs_packet.h:1135-1150 | a guarded arm leaves the same, taken or skipped |
| EmitterCorrectness.BlendSteps | src/codegen/emit/emit_fs_packet.h:84-94 | effMask and one blended store; under the entry mask the select that is left out would have chosen the new value |
| EmitterCorrectness.EmitGrows | src/codegen/emit/emit_fs_packet.h:972-1128 | emitting never reuses a register or slot, and restores mask_, la_ and em_ |
| PacketEmitterClass.Packetizer.CompileEntry | src/codegen/emit/emit_fs_packet.h:1240-1359 | analysis and emission in place: it succeeds exactly when the text of the shader is not refused, and then, if the shader keeps the rules, the code is correct for all widths, inputs and operations |
| PacketEmitterClass.Packetizer.EmitStmt | src/codegen/emit/emit_fs_packet.h:972-1128 | the emitter's fields and code after a statement are those of the emission function, or it has bailed |
| PacketEmitterClass.Packetizer.EmitMaskedLoop | src/codegen/emit/emit_fs_packet.h:1185-1238 | in place, with la_, em_ and mask_ saved and restored |
| PacketEmitterClass.Packetizer.EmitMaskedArm | src/codegen/emit/emit_fs_packet.h:1135-1150 | in place: guarded exactly when the arm holds no discard and is worth a branch |
| UniformityAnalysis.Analysis.ScanUniformity | src/codegen/emit/emit_fs_packet.h:222-272 | one pass in place is the pass function, and reports a change exactly when a name was marked |
| UniformityAnalysis.Analysis.AnalyzeUniformity | src/codegen/emit/emit_fs_packet.h:274-282 | the fixpoint ends; its plan settles every site of the text, a loop uniform exactly when all lanes come to it, its test is lane-independent and it has no break or continue, and of all plans that justify themselves on every site it has the fewest marked names and, in the shader, the most uniform loops |
| UniformSites.UniformIff | src/codegen/emit/emit_fs_packet.h:159-197 | isUniformExpr: exactly when no part is a conversion or unknown and every name read is unmarked and not of the stage |
| UniformSites.DependsIff | src/codegen/emit/emit_fs_packet.h:159-197 | an expression without conditionals reads a marked or stage name exactly when, for some operations, two invocations that agree on the unmarked names give it two values |
| UniformSites.JudgedIff | src/codegen/emit/emit_fs_packet.h:222-272 | a plan is justified, or decided, on the tree exactly when it settles each event of the text |
| Uniformity.StablePassJustified | src/codegen/emit/emit_fs_packet.h:222-282 | a pass that marks nothing new leaves a plan that justifies itself, with every loop uniform whose test is: lane-independent names are assigned under the full mask only, from uniform values |
| Uniformity.ScanStaysBelow | src/codegen/emit/emit_fs_packet.h:222-272 | a pass from below a closed set stays below it |
| Uniformity.JustifiedIsClosed | src/codegen/emit/emit_fs_packet.h:222-282 | the names of a plan that justifies itself are such a set |
| Uniformity.DecidedHasMostLoops | src/codegen/emit/emit_fs_packet.h:222-282 | no plan that justifies itself has a uniform loop that the plan found lacks |
| TripCounts.ActivityFollowsTrips | src/codegen/emit/emit_fs_packet.h:1101-1123 | lane l is active in iteration i of a masked loop exactly when its scalar loop gets that far |
| TripCounts.SlowestLaneDecides | src/codegen/emit/emit_fs_packet.h:1208-1223 | the packet iterates as often as its slowest lane, and a lane that has left never becomes active again |
| SideConditions.SeedExact | src/codegen/emit/emit_fs_packet.h:1192-1195 | seeding an inner loop from mask_ is right for all loops exactly when every lane of mask_ is still in the iteration |
| SideConditions.LoopAfterBreakFails | src/codegen/emit/emit_fs_packet.h:1192-1195 | a shader with a loop behind a break: the packetizer emits it without complaint, and its code halts with a wrong output in every lane, at every width |
| SideConditions.EscapeIsIncorrect | src/codegen/emit/emit_fs_packet.h:1192-1195 | so its code is not correct |
| SideConditions.EscapeMeetsTheRest | src/codegen/emit/emit_fs_packet.h:1192-1195 | that shader meets every other condition |
| SideConditions.EscapeIsNotSeeded | src/codegen/emit/emit_fs_packet.h:1192-1195 | and all that is wrong with it is that its run enters a masked loop with mask_ outside em |
| Seeding.RuleSeeds | src/codegen/emit/emit_fs_packet.h:1185-1238 | where no loop follows a break or continue of its body, every run enters its masked loops with mask_ inside em |
| SideConditions.DiscardInLoopIsInvalid | src/codegen/emit/emit_fs_packet.h:1086-1093 | a loop that discards: emitted without complaint, not valid SSA |
| DefiniteAssignment.NullingExact | src/codegen/emit/emit_fs_packet.h:1003-1014 | a masked assignment leaves its target alone in every idle lane, whatever the packet, its state and the value, exactly when the name was assigned before in program text or no lane is idle |
| DefiniteAssignment.LateSlotFails | src/codegen/emit/emit_fs_packet.h:1003-1014 | a name first assigned under a condition and kept from one round of a loop to the next: emitted without complaint, and its code halts with a wrong output in every lane, at every width |
| DefiniteAssignment.LateSlotIsIncorrect | src/codegen/emit/emit_fs_packet.h:1003-1014 | so its code is not correct |
| DefiniteAssignment.HeldMeetsTheRest | src/codegen/emit/emit_fs_packet.h:1003-1014 | that shader meets every other condition, under the plan the analysis gives |
| DefiniteAssignment.HeldExec | src/frontend/ast/ast.cpp:1031-1041 | its invocation keeps the name, and gives the same whatever a name never assigned would read as |
| SsaValidity.ValidIff | src/codegen/emit/emit_fs_packet.h:284-312 | for each statement: every use is dominated by its definition, live_ afterwards included, exactly when no discard lies in a loop |
| ControlFlowSimulation.FunctionCorrect | src/frontend/ast/ast.cpp:898-980 | when the source ends the graph stops with the same store and the same answer: at an unreachable when the source discards, else at a return, with the value returned in a function that has a type; when the source is cut short after n rounds the graph goes on for n steps |
| ControlFlowSimulation.NoneFallsThrough | src/frontend/ast/ast.cpp:19-42 | where allPathsReturn holds no run ends without a return or a discard |
| ControlFlowSimulation.ReturnCorrect | src/frontend/ast/ast.cpp:1725-1762 | a return stops the graph with the value of its expression, evaluated at that point |
| ControlFlowSimulation.StopsOnce | src/frontend/ast/ast.cpp:898-980 | a graph has one way to stop from a given store |
| ControlFlowSimulation.StopsIff | src/frontend/ast/ast.cpp:1798-1890 | the graph's run stops exactly when the source's does |
| ControlFlowSimulation.SCorrect | src/frontend/ast/ast.cpp:898-980 | a statement's code ends at the insertion point, at the top of the break stack or of the continue stack, or at an unreachable, as its outcome says |
| ControlFlowSimulation.LoopCorrect | src/frontend/ast/ast.cpp:1798-1890 | condition, body, latch or increment and end blocks together are the source loop |
| ControlFlowSimulation.ChooseCorrect | src/frontend/ast/ast.cpp:898-962 | `if` with and without else, arms ended or not |
| ControlFlowSimulation.AllCorrect | src/frontend/ast/ast.cpp:964-979 | a block; what a terminator cuts off in the graph is what the source never runs |
| ControlFlowSimulation.JumpCorrect | src/frontend/ast/ast.cpp:1764-1796 | break, continue and discard |
| ControlFlowIteration.IterationsCorrect | src/frontend/ast/ast.cpp:1798-1890 | a loop put together from the runs of its pieces; n rounds take n steps at least |
| ControlFlowCorrectness.ECorrect | src/frontend/ast/ast.cpp:455-512 | an expression's code delivers its value and side effects in its operand, and leaves older values alone |
| ControlFlowCorrectness.LogicalCorrect | src/frontend/ast/ast.cpp:459-512 | `&&` and `\|\|` evaluate the right operand only when needed, and the phi picks by the edge taken |
| ControlFlowCorrectness.CondCorrect | src/frontend/ast/ast.cpp:634-698 | `?:` evaluates one arm, whose value the phi delivers though arms may end in other blocks than they began |
| ControlFlowGrowth.SGrows | src/frontend/ast/ast.cpp:898-980 | a statement's code changes only the insertion block and new blocks, and puts both stacks back |
| ControlFlowGrowth.EGrows | src/frontend/ast/ast.cpp:455-512 | so does an expression's, and it leaves the insertion block open |
| ControlFlowGenerator.Generator.CompileFunction | src/frontend/ast/ast.cpp:1680-1701 | the generator, run on a function body, returns a graph exactly when the function is void, its body is cut by a terminator, or its last statements, arms of an `if` with else included, are returns; and the graph does what the source does for every meaning of the operations |
| ControlFlowReturns.AcceptedIff | src/frontend/ast/ast.cpp:1680-1701 | which bodies are compiled, void or not |
| ControlFlowReturns.OpenIff | src/frontend/ast/ast.cpp:898-980 | the insertion point is open behind a statement exactly when no break, continue, discard or return stands outside its conditionals and loops |
| ControlFlowReturns.AllPathsReturnIff | src/frontend/ast/ast.cpp:19-42 | allPathsReturn: exactly when the last statements are all returns |
| ControlFlowReturns.LastIfIsEnough | src/frontend/ast/ast.cpp:19-42 | an `if` whose arms end with returns is enough at the end of a block, whatever comes before |
| ControlFlowReturns.JumpsIff | src/frontend/ast/ast.cpp:1725-1786 | what is asked of a function is that each break and continue has a loop, and each return a value exactly where the function has a type |
| ControlFlowGenerator.Generator.ReturnStatement | src/frontend/ast/ast.cpp:1725-1762 | the value is emitted, then the terminator |
| BackEnds.LanesAreGraphRuns | src/codegen/emit/emit_fs_packet.h:972-1359 | when the packet halts, the graph of the scalar path stops on each lane's inputs, and however it stops the lane's live bit and outputs are what it computed |
| BackEnds.SameRun | src/frontend/ast/ast.cpp:898-980 | the semantics the packetizer is measured by and the one the graphs are measured by agree on every shader |
| BackEnds.GraphStopsIff | src/frontend/ast/ast.cpp:1798-1890 | the graph of a shader stops exactly when the invocation terminates |
| ControlFlowGenerator.Generator.Statement | src/frontend/ast/ast.cpp:898-980 | blocks, insertion point, names and stacks after a statement |
| ControlFlowGenerator.Generator.LoopStatement | src/frontend/ast/ast.cpp:1798-1890 | loops in place, with the targets pushed and popped |
| ControlFlowGenerator.Generator.If | src/frontend/ast/ast.cpp:898-962 | `if` in place: terminators are looked at when each arm ends, jumps are written when both have |
| ControlFlowGenerator.Generator.Sequence | src/frontend/ast/ast.cpp:964-979 | the statement loop that stops at a terminator |
| ControlFlowGenerator.Generator.Expression | src/frontend/ast/ast.cpp:455-512 | expressions in place |
| RenderPipeline.Renderer.Draw | src/runtime/pipeline_runtime.cpp:178-421 | colour and depth buffers end up as the brute-force loop leaves them, whatever the chunks, the tile order and the packet width |
| RenderPipeline.Renderer.DrawRanges | src/runtime/pipeline_runtime.cpp:178-185 | drawing a range and then the rest without clearing draws the whole |
| RenderPipeline.Renderer.RasterTile | src/runtime/pipeline_runtime.cpp:347-417 | one tile: its bins in thread order and a final flush do to its pixels what its triangles do, and nothing else |
| RenderPipeline.Renderer.RasterTriangle | src/runtime/pipeline_runtime.cpp:357-415 | one triangle within a tile, with base edge values stepped by row and column |
| RenderPipeline.Renderer.Fragment | src/runtime/pipeline_runtime.cpp:382-413 | depth test and write, then the pixel shaded at once or when the batch is full |
| RenderPipeline.Renderer.Flush | src/runtime/pipeline_runtime.cpp:327-345 | the pending fragments are written in order, one pixel possibly several times, padding lanes without effect |
| RenderPipeline.ClippedDraw | src/runtime/pipeline_runtime.cpp:357-361 | clipping a triangle to a tile draws it in the tile's pixels and only inside its box |
| RasterReference.BruteForcePixel | src/runtime/pipeline_runtime.cpp:347-417 | a pixel of the reference is its triangles folded in index order |
| RasterReference.NearestWins | src/runtime/pipeline_runtime.cpp:382-413 | a pixel ends with the depth and the rounded colour of its nearest fragment, the first of those equally near; if that one is discarded, with the colour from before it |
| RasterReference.HiddenLeaves | src/runtime/pipeline_runtime.cpp:382-413 | a pixel that no fragment is in front of stays as it is |
| RasterReference.DrawsCompose | src/runtime/pipeline_runtime.cpp:178-185 | drawing one list and then another is drawing both |
| RasterReference.RangesCompose | src/runtime/pipeline_runtime.cpp:178-185 | drawing the ranges before and after any index, without clearing, draws the scene |
| RasterReference.HitHasDepth | src/runtime/pipeline_runtime.cpp:384-391 | the interpolated 1/w that is divided by is positive at every covered pixel |
| Projection.HitIff | src/runtime/pipeline_runtime.cpp:241-263 | a triangle has a fragment at a pixel exactly when all w are positive, its corners run counter-clockwise with an area that is not negligible, and the pixel's centre is a mean of its projected corners |
| Projection.FragmentCarries | src/runtime/pipeline_runtime.cpp:389-410 | an attribute that is an affine function of the clip position x, y, w at the corners is, times the interpolated 1/w, that function of the pixel centre in device coordinates, row 0 on top |
| Projection.EveryAttributeIsAffine | src/runtime/pipeline_runtime.cpp:389-410 | every attribute of a triangle with an area is such a function, so that law says what each fragment carries |
| Projection.FragmentDepth | src/runtime/pipeline_runtime.cpp:389-394 | the depth is z / w interpolated with perspective, from -1 .. 1 to 0 .. 1 |
| Projection.FragmentLies | src/runtime/pipeline_runtime.cpp:396-406 | buffer index and fragment coordinates of a pixel |
| RasterReference.ByteIsNearest | src/runtime/pipeline_runtime.cpp:320-325 | the byte written is nearest to the component, 0 and 255 beyond the ends, and bytes survive a round trip |
| RasterGeometry.CoveredIsKept | src/runtime/pipeline_runtime.cpp:258-273 | neither the off-screen test nor the clamped floor/ceil box drops a pixel whose centre passes the edge tests |
| RasterGeometry.EdgesSumToArea | src/runtime/pipeline_runtime.cpp:56-58 | the three edge functions add up to the area at every point |
| RasterGeometry.StepRight | src/runtime/pipeline_runtime.cpp:374-387 | one step right is the edge function of the next pixel centre |
| RasterGeometry.StepDown | src/runtime/pipeline_runtime.cpp:374-385 | dy row steps are the edge function dy rows below |
| RasterGeometry.CastsKeepCoordinates | src/runtime/pipeline_runtime.cpp:275-280 | the 16-bit box fields keep every coordinate exactly when the screen is at most 32768 by 32768, as the draws ask |
| TileBins.SetupIsExact | src/runtime/pipeline_runtime.cpp:242-281 | culled triangles hit no pixel, the others hit where the stored setup says |
| TileBins.BinIsEnough | src/runtime/pipeline_runtime.cpp:283-292 | the bin of a pixel's tile does to the pixel what all triangles do |
| TileBins.BinsJoin | src/runtime/pipeline_runtime.cpp:353-357 | bins of consecutive chunks in thread order are the bin of all their triangles |
| ThreadBinning.ThreadBins.BinChunk | src/runtime/pipeline_runtime.cpp:228-293 | a thread's loop over its chunk stores the setups and bins of exactly its triangles |
| ThreadBinning.ThreadBins.Push | src/runtime/pipeline_runtime.cpp:281-292 | a setup goes into the bin of every tile its box meets and no other |
| TileSchedule.AnyInterleavingDrawsTheReference | src/runtime/pipeline_runtime.cpp:347-419 | every interleaving of the tiles' per-fragment steps, batches included, leaves the reference picture |
| TileSchedule.EnoughTurnsDrawTheReference | src/runtime/pipeline_runtime.cpp:347-419 | every schedule that gives each tile a turn for each of its steps, in whatever order, draws the reference picture |
| TileSchedule.TurnsFinish | src/runtime/pipeline_runtime.cpp:347-419 | a tile that gets that many turns is finished, whoever moves in between |
| TileSchedule.ColoursWaitForThePacket | src/runtime/pipeline_runtime.cpp:327-404 | in packet mode no colour is written before a packet is full or its tile is through |
| TileSchedule.StepKeepsDestiny | src/runtime/pipeline_runtime.cpp:347-419 | no step of any worker changes what any pixel will be |
| TileSchedule.StepMakesProgress | src/runtime/pipeline_runtime.cpp:347-419 | a worker that is not finished gets closer with each of its steps, whatever the others do |
| VertexPass.ShadeVertices | src/runtime/pipeline_runtime.cpp:147-176 | packets of vertices, the last one padded, fill the buffer as the scalar loop does |
| CompiledShading.CompiledIsLaneWise | src/runtime/pipeline_runtime.cpp:327-345 | a compiled shader gives each fragment what its own invocation gives, whatever its lane and its neighbours in the batch |
| CompiledShading.DrawCompiled | src/runtime/pipeline_runtime.cpp:327-421 | a draw with it leaves the picture of the fragments' own invocations, whatever the packet width, the chunks and the tile order |
| Determinant.RowExpansion | src/codegen/codegen_state/codegen_state.cpp:156-179 | cofactor expansion along any row is the recursive determinant |
| Determinant.RepeatedRow | src/codegen/codegen_state/codegen_state.cpp:156-179 | a grid with a repeated row has determinant zero |
| Determinant.ColumnExpansion | src/codegen/codegen_state/codegen_state.cpp:156-179 | expansion along a column, with its own entries or another's |
| Determinant.DetOfTranspose | src/codegen/codegen_state/codegen_state.cpp:97-110 | a grid and its transpose have one determinant |
| MatrixKernels.InverseOnBothSides | src/codegen/codegen_state/codegen_state.cpp:188-218 | for every size and nonzero determinant the scaled adjugate is the inverse on both sides |
| MatrixKernels.InverseTimesMatrix | src/frontend/ast/ast.cpp:253-303 | the code's inverse times the matrix, and the matrix times it, by the code's product, is the identity |
| MatrixKernels.Inverse | src/codegen/codegen_state/codegen_state.cpp:188-218 | entry (c, r) is the cofactor of row c and column r over the determinant |
| MatrixKernels.DetGrid | src/codegen/codegen_state/codegen_state.cpp:156-179 | the recursion over filled sub-grids and a signed accumulator computes the determinant |
| MatrixKernels.MatTimesMat | src/frontend/ast/ast.cpp:287-303 | every entry of the product is the row by column sum |
| MatrixKernels.MatTimesVec | src/frontend/ast/ast.cpp:253-268 | columns scaled and accumulated give the row sums |
| BlockOrder.Walk.WriteBlocks | src/codegen/emit/emit_spirv_from_ir.h:2140-2165 | each reachable block once and no other, the entry first, every block after all its dominators |
| BlockOrder.Walk.Dfs | src/codegen/emit/emit_spirv_from_ir.h:2140-2155 | what is in the postorder is finished: successors seen, dominators under way or later |
| BlockOrder.ReverseIsValid | src/codegen/emit/emit_spirv_from_ir.h:2156-2165 | the reversed postorder of a finished walk is a valid order |
| WordStream.ModuleRoundTrip | src/codegen/emit/emit_spirv_from_ir.h:2261-2294 | the shipped bytes read back as the id bound of the header and the instructions of the sections in order, exactly when every instruction is encodable |
| WordStream.HeaderBytes | src/codegen/emit/emit_spirv_from_ir.h:2261-2294 | the first twenty bytes: magic number, version 1.0, generator, bound and schema, low bytes first |
| WordStream.StitchModule | src/codegen/emit/emit_spirv_from_ir.h:2261-2294 | the bytes are those of the five header words and the sections one after the other |
| WordStream.RoundTripExact | src/codegen/emit/emit_spirv_from_ir.h:41-104 | decoding recovers an instruction list exactly when every word count fits 16 bits, strings hold no NUL and forms fit opcodes |
| WordStream.HeaderFits | src/codegen/emit/emit_spirv_from_ir.h:41-53 | the header gives back its word count exactly when that fits 16 bits; the opcode always |
| WordStream.BytesRoundTrip | src/codegen/emit/emit_spirv_from_ir.h:2280-2294 | little-endian bytes give the words back |
| WordStream.Section.AppendOp | src/codegen/emit/emit_spirv_from_ir.h:41-53 | the section grows by exactly the encoding of a plain instruction |
| WordStream.Section.AppendOpStr | src/codegen/emit/emit_spirv_from_ir.h:68-104 | the section grows by exactly the encoding |
| WordStream.PackString | src/codegen/emit/emit_spirv_from_ir.h:68-88 | characters packed in place are the terminated, padded words of the string |
| WordStream.StreamBytes | src/codegen/emit/emit_spirv_from_ir.h:2280-2294 | the repacking loop writes the bytes of the words |
| ParserTheorems.AcceptsExactly | src/frontend/parser/parser.cpp:1287-1384 | a tree and the tokens left over come out exactly when the tokens before them spell a written expression of the grammar with that tree, which what is left does not extend |
| ParserTheorems.RejectsExactly | src/frontend/parser/parser.cpp:1287-1384 | the parser fails exactly when no front part of the tokens is such an expression |
| ParserTheorems.PrintThenParse | src/frontend/parser/parser.cpp:1494-1520 | a printed tree parses to itself, and exactly its tokens are consumed |
| ParserTheorems.ParseThenPrint | src/frontend/parser/parser.cpp:1494-1520 | the printed form of a parsed tree parses to the same result, if what is left does not extend the printed form |
| ParserTheorems.TidyIsShortest | src/frontend/parser/parser.cpp:145-177 | no way to write a tree takes fewer tokens than the printed one |
| ParserTheorems.OneReading | src/frontend/parser/parser.cpp:1494-1520 | the grammar is unambiguous |
| ParserTheorems.TwoOperators | src/frontend/parser/parser.cpp:145-177 | of two operators in a row the first goes first unless the second binds more tightly |
| OperatorOrder.LaterBindsTighter | src/frontend/parser/parser.cpp:145-177 | with the nine classes of operators listed, the second of two goes first exactly when its class is later in the list |
| OperatorOrder.OperatorsAreTheClasses | src/frontend/parser/parser.cpp:145-177 | a sign between operands is an operator exactly when it is in one of the classes |
| OperatorOrder.PrefixesAreFour | src/frontend/parser/parser.cpp:1311-1343 | the signs read in front of an operand are minus, plus, not and complement |
| OperatorOrder.StepsWantPlaces | src/frontend/parser/parser.cpp:1316-1331 | a prefix `++` or `--` wants a variable, a member or an element |
| ParserCompleteness.LevelParsed | src/frontend/parser/parser.cpp:1494-1520 | having read an expression that binds tightly enough, the operator loop stands behind it with its tree |
| ParserCompleteness.BinaryStep | src/frontend/parser/parser.cpp:1508-1516 | looking at the operator after next is only a short cut |
| ParserSoundness.BinaryRead | src/frontend/parser/parser.cpp:1494-1520 | what the operator loop builds is written at the level asked for, from the tokens consumed |
| ExpressionParser.Parser.Expression | src/frontend/parser/parser.cpp:1287-1309 | the sliding window delivers what the parse function says, or reports one error |
| ExpressionParser.Parser.BinaryTail | src/frontend/parser/parser.cpp:1496-1520 | the loop that rebuilds lhs |
| ExpressionParser.Parser.PostfixTail | src/frontend/parser/parser.cpp:1443-1494 | the loop that rebuilds base |
| ExpressionParser.Parser.Arguments | src/frontend/parser/parser.cpp:1418-1438 | the argument loop |
| ExpressionParser.ReadBack | src/frontend/parser/parser.cpp:1287-1309 | a parser object on a printed tree returns it and reports nothing |
| StructCycles.Checker.HasCycleFrom | src/frontend/sema/sema.cpp:202-222 | true exactly when an edge back onto the stack is found; else what was visited is sorted by dependency |
| StructCycles.Checker.Check | src/frontend/sema/sema.cpp:202-228 | true exactly when a cycle can be reached from the start |
| StructCycles.Checker.DetectCycles | src/frontend/sema/sema.cpp:224-238 | no errors exactly when the graph is acyclic, and the graph left afterwards always is |
| DoubleFields.SearchEndsIff | src/frontend/sema/sema.cpp:1257-1270 | the search for doubles ends exactly when no cycle runs through the fields it looks at, and then it is exact within as many steps as there are structs |
| DoubleFields.DirectEdges | src/frontend/sema/sema.cpp:188-200 | the graph that is checked for cycles has an edge exactly to each struct that is the type of a field |
| DoubleFields.AllSearchesEndIff | src/frontend/sema/sema.cpp:1257-1270 | the searches from all types end exactly when the graph of those fields is acyclic |
| DoubleFields.DoubleShieldsCycle | src/frontend/sema/sema.cpp:1257-1270 | a struct with a double before an array of itself: a cycle over all fields, and yet the search ends |
| DoubleFields.ExactWhenAcyclic | src/frontend/sema/sema.cpp:1257-1270 | an acyclic graph of all fields, array elements included, is enough |
| DoubleFields.AnswerIsRight | src/frontend/sema/sema.cpp:1257-1270 | whenever the search ends, its answer is right |
| DoubleFields.ArrayCycleSlipsThrough | src/frontend/sema/sema.cpp:188-200 | a cycle through an array field passes the check, and then the search has no end |
| Surface.SplitClosedIff | test/vk_host/icosphere.h:52-89 | a split closed surface is closed exactly when it had no twins, and then has none itself |
| Surface.TwinsDoNotSplit | test/vk_host/icosphere.h:52-89 | two triangles back to back are a closed surface, and no split of it is closed |
| Surface.EdgeCount | test/vk_host/icosphere.h:52-89 | a closed surface has three undirected edges for every two triangles |
| Surface.KeyPacks | test/vk_host/icosphere.h:49-53 | the 64-bit edge key tells undirected edges apart |
| Icosphere.Mesh.Subdivide | test/vk_host/icosphere.h:55-88 | one step: four triangles each, one new vertex per undirected edge, at its midpoint |
| Icosphere.Mesh.GetMid | test/vk_host/icosphere.h:60-75 | an edge gets one vertex, whichever way it comes first |
| Icosphere.BaseIsClosed | test/vk_host/icosphere.h:36-41 | the icosahedron is closed and has no twins |
| Icosphere.Generate | test/vk_host/icosphere.h:26-110 | after s steps a closed surface of 20 * 4^s triangles on 10 * 4^s + 2 vertices |
| AbiLayout.SlotsDetermine | src/codegen/emit/emit_trampolines.h:136-219 | two values of a type with equal slots are equal |
| AbiLayout.CountsAreSizes | src/codegen/emit/emit_trampolines.h:19-49 | the counts of a type are the numbers of slots its values take |
| AbiLayout.OneRegionSlots | src/codegen/emit/emit_trampolines.h:70-100 | in one region a type takes a slot for each of its doubles on top of typeFloatCount |
| AbiLayout.OneRegionExactIff | src/codegen/emit/emit_trampolines.h:51-68 | narrowing and widening leave a value alone exactly when they leave each of its doubles alone |
| AbiLayout.DoublesIffContains | src/frontend/sema/sema.cpp:1257-1270 | a type takes 64-bit slots exactly when it contains a double |
| AbiRegions.FlattenSplit | src/codegen/emit/emit_trampolines.h:135-172 | both regions hold the leaves in order from the offsets on and are unchanged elsewhere; the offsets move by the counts |
| AbiRegions.LoadSplit | src/codegen/emit/emit_trampolines.h:174-219 | the value of the type whose leaves stand at the offsets |
| AbiRegions.RoundTripSplit | src/codegen/emit/emit_trampolines.h:135-219 | flatten then load is the identity |
| AbiRegions.Flatten | src/codegen/emit/emit_trampolines.h:70-104 | one region holds the leaves, doubles narrowed |
| AbiRegions.Load | src/codegen/emit/emit_trampolines.h:106-133 | loads what stands there, doubles widened |
| AbiRegions.RoundTrip | src/codegen/emit/emit_trampolines.h:70-133 | the identity exactly when no double is rounded; the offset moves by typeFloatCount exactly when there is none |
| StageInterface.OffsetsAgreeIff | src/codegen/emit/emit_trampolines.h:329-332 | the two stages agree on a field's offset exactly when no double comes before it |
| StageInterface.LoadVaryings | src/codegen/emit/emit_trampolines.h:378-383 | each parameter is loaded at the sum of the counts before it |
| StageInterface.PassVaryings | src/codegen/emit/emit_trampolines.h:329-383 | every varying up to the first with a double arrives unchanged |

## Left out

- Floating-point rounding, NaN and fast-math: arithmetic is real, component operations of shaders are arbitrary total functions that both paths share.
- LLVM, `opt`, mem2reg and the IR builder's folding: the packetizer's target is a small vector language with registers, slots and structured loops.
- Component counts and types of packet values: a value is a tuple; the bails on a wrong number or type of components are not modelled, those on kinds, names, operand counts and swizzle letters are; the sampler of `texture` counts as an operand.
- `return`, user calls, arrays, increments, `%`, `&&` and `||` in packet mode: the packetizer bails on them, and so does the model.
- Packet-mode formulas of builtin functions, textures and images, samplers, push constants and storage buffers.
- Missing parts of a `for` in packet mode: emitStmt bails on a null statement; initialisers and increments are assignments here.
- `discard` in the scalar rasterizer path: `__frag_discard` is a host function; scalar shading in `Renderer.Fragment` is of shaders without it.
- Growing and shrinking of the depth buffer when the image size changes without clearing, and the clamp of the number of varyings.
- `vecTimesMat`, `transpose` and `determinant` of the language as such: they add nothing to the inverse.
- The zero determinant: the code divides by it; the inverse is stated for the others.
- Allocas, the values of statements, numeric promotion between the arms of `?:`, and error returns in the scalar generator; break and continue outside a loop and returns that do not fit the function's type are reported there, and excluded by `InLoopOnly` and `ReturnsFit` here.
- The copies of `out` parameters, in front of each return of a user function, and the stores of an entry point's outputs, behind its body.
- Source locations and messages in the parser, statements, declarations, panic-mode recovery, and the lexer.
- SPIR-V merge instructions and stage variables, recovered from names; type and constant caches.
- Booleans at the stage boundary: a 1-bit value cannot be bit-cast to a float slot, so the trampolines support none; the language has no vectors of doubles.
- PacketCompiler.PacketIsScalarPerLane: asks for definite assignment, which implies what the slots need (a read behind a loop or arm has its first assignment before it); the exact condition is stated for a single assignment.
- CompiledShading.DrawCompiled: how a fragment's varyings become shader inputs and an output becomes a colour are arbitrary functions; `StageInterface` models the trampolines' layout on its own.
- Icosphere.Generate: vertex ids are natural numbers; KeyPacks shows the packed key faithful for ids below 2^32, and normalisation is an arbitrary symmetric midpoint.
