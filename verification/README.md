# p40-native verification

A Dafny model of the parts of the p40-native repository whose correctness is hardest to see by reading:
the CUDA kernels that are meant to agree with their CPU controls, the router that keeps Qwen and Ollama off
the same GPUs, the evidence store and its two judges, the WGCAP capture format with its three readers, and
the guarded run protocol. `dafny verify dfyconfig.toml` checks the whole project.

Each module follows one component. Code that updates state is a class, or a method over arrays, proved against
a specification function; what the source promises is then proved of that specification.

| module | component |
|---|---|
| `CpuOrderKernel`, `CpuOrderLoops`, `CpuOrderMatvec`, `CpuOrderExact`, `CpuOrderSweep` | the exact-order Q8 kernel and its AVX2 control: evaluation trees, loops, matrices, what the trees add up to, and the sweep with its buffer cache |
| `Int32Lanes`, `W4A8Kernel`, `Dp4aGemv` | wrapping int32 arithmetic, byte lanes, the two DP4A kernels |
| `Sets`, `Grid`, `Rounding` | shared facts about finite sets, row-major indexing and rounding |
| `Quantization` | int8 quantization and its error bounds, over reals |
| `LeaseManager`, `LeaseRuns` | the router's lease manager, and all interleavings of threads, reaper and service |
| `SwarmStore`, `SwarmRuns`, `SwarmScoring`, `SwarmIngest`, `SwarmRaises` | evidence store, its invariants, ranking, ingestion, ingests that raise on the way |
| `WgcapFormat`, `T32Layout`, `WgcapReplay`, `SparseCorrection` | capture format, exact cover, streaming guard, replay |
| `QwenCanaryGuard`, `QwenCanaryRuns`, `QwenCanaryVerdict` | the guarded canary run, what every run keeps, and its loops and verdict in terms of the replies alone |
| `Watchdog`, `ExactTextEdit`, `EditedFile` | the telemetry window, the exact text edit, and the edit on a file |

## How the world enters the model

- Float operations of the exact-order kernels are an arbitrary record of functions (`Arith`), without a single
  law: two results are equal only when their evaluation trees are. The exactness of the divisibility guard is
  shown in the free term algebra, and what the trees compute for records whose sums are exact. Error bounds and the replay's correction are proved over `real`.
- CUDA calls may fail at any point (`ok := *`). Blocks and threads between two barriers run in an arbitrary order.
- HTTP, `nvidia-smi`, service control and telemetry answers are parameters: scripted replies, one per call, each
  able to end in an exception. In the canary's clean-up and in the router's reaper, exceptions the code catches
  (`OSError`, `RuntimeError`, `SubprocessError`) are kept apart from those it does not, which end the reaper's thread;
  in `begin` either kind means that no lease was granted.
- The router's lock makes `begin`, `end` and `reap_once` atomic, so a run is a sequence of those steps and of
  steps of the environment. Only the router starts Qwen. A probe of the service may answer anything, as a failing
  helper reads as a service that is down.
- Clocks are real numbers that advance at least as much as the code sleeps.

## Where the code does less than it is meant to

Each of these is a proved condition, with a concrete run where one is needed.

- The warp kernel and the AVX2 control evaluate the same tree if and only if the width is divisible by 32
  (`SameTreeIffWidthDivisible`); the upload guard asks exactly that.
- The shared-memory tree delivers every sum, and the kernel every row, if and only if the block size is a power of two
  (`TreeSumsIffPowerOfTwo`, `RowsRightIffPowerOfTwo`).
- The reaper spares an alias that holds a lease, but it unloads by backend and model name: on every run leased models
  survive if and only if no two Ollama aliases share them (`LeasedModelsSurviveIffDistinct`; `SharedModelTrace` is a run
  of four events that loses one).
- A step makes Qwen and an Ollama lease coexist exactly if it is a Qwen request that starts the service while an Ollama
  lease is active but not yet visible, or an Ollama request whose probe does not see a running Qwen (`ExclusionLostIff`;
  `CoResidencyTrace` and `MisreadProbeTrace` are runs of two events).
- A running Qwen that nobody holds is stranded, that is left running for good unless someone asks for Qwen or the service goes down by
  itself, if and only if it has no last-use time or the reaper's thread has ended (`StrandedIff`); every Ollama request
  whose probe sees it is then refused (`StrandedRun`). `StepStrandsIff` gives exactly the steps that lead there: among
  them a refused request, as after a health check that times out (`HealthTimeoutStrandsQwenIff`), and a reap that ends
  in an exception the code does not catch, such as a cut-off reply to an unload (`ReapRaisesIff`,
  `CutOffReplyStrandsQwen`). A router restarted beside a running Qwen starts that way (`RestartStrandsQwen`). Any other
  idle Qwen is asked to stop by each reap whose probe sees it and which no earlier model's clean-up cuts short
  (`UsedQwenIsAskedToStopIff`).
- Promoted and pruned are final exactly for branches without an open attempt (`TerminalIffNoOpenAttempt`,
  `TwoOpenAttemptsBreakPromotion`).
- After an ingest that raises on the way, promotion and ranking differ about its branch if and only if the branch was
  evaluating and no failed static record was committed (`MidwayRaisePartsIff`; `UntimedRaiseSplitsJudges` commits no
  evidence at all). Right then or on some clean run later they can differ if and only if the branch was evaluating or a
  failed static record was committed (`MidwayRaiseCanPartIff`, `MidwayRaiseSplitsJudges`).
- The replay's 96 slots suffice if and only if, up to the first record it refuses, at most 48 records fall in each split,
  a step word being read as a signed int (`SlotsSufficeIff`); 96 records that the manifest counts as 48 and 48 can
  overflow them (`NegativeStepOverflows`).
- The canary asks both GPUs back to their preflight limits unless closing an output handle raises in the
  clean-up or the first restore raises something uncaught (`BothRestoredIff`, `CloseFailureKeepsCap`). An uncaught
  exception lifts the cap and leaves the child running (`ChildLeftRunningIff`, `UnparsedReadingLiftsCap`).
  Limits are restored in whole watts (`RestoreIsExactIffWhole`).
- The watchdog's slope check fires if and only if its window of last eleven samples spans ten seconds and a hot sensor
  rose fast over it (`SlopeIff`, `RunsReportFirstSteepWindow`); with samples less than a second apart it never does
  (`CloseRunsNeverSlope`), and the polling loop's default period is 0.05 s.
- A count of one means a unique occurrence, in every text, exactly for texts that cannot overlap themselves
  (`CountMeansUniqueIff`).
- A file is read with every line end turned into a newline and written back without undoing that: an edit keeps all
  text outside the edit point if and only if the file holds no carriage return (`OutsideKeptIff`,
  `WindowsLineEndIsLost`), and the swapped edit restores the file if and only if neither file nor replacement holds one
  and the replacement's counted occurrence is the edit point (`SwapRestoresFileIff`). An edit can leave some file's bytes
  alone if and only if its replacement reads as the expected text, possibly with a newline the file goes on with
  (`FileCanStayIff`).

## Model

| member | source | states |
|---|---|---|
| CpuOrderLoops.VectorLoop | benchmarks/qwen_dn_sweep_control.cu:158-170 | the column loop leaves the four accumulators as their FMA chains over every whole block of 32 columns |
| CpuOrderLoops.CpuRowLoop | benchmarks/qwen_dn_sweep_control.cu:156-178 | one output row is the scaled AVX reduction tree followed by the scalar tail, in that association |
| CpuOrderMatvec.CpuRowRaw | benchmarks/qwen_dn_sweep_control.cu:155-177 | output `row` of the CPU's product comes from the x.size() weights from row * x.size() on and from scale `row` |
| CpuOrderMatvec.WarpRowRaw | benchmarks/qwen_cpuorder_cuda.cu:52-71 | so does the kernel's, from weights + row * width |
| CpuOrderExact.CpuRowIsDot | benchmarks/qwen_dn_sweep_control.cu:151-178 | with exact sums a CPU row is the dot product of all its columns, each once, times the scale |
| CpuOrderExact.WarpRowIsDot | benchmarks/qwen_cpuorder_cuda.cu:45-72 | so is the warp's, for every width, so the two differ in the order of rounding alone |
| CpuOrderExact.CpuMatvecIsDot | benchmarks/qwen_dn_sweep_control.cu:151-179 | in raw indices, every CPU output is the dot product with its own row of the matrix, times its own scale |
| CpuOrderExact.WarpMatvecIsDot | benchmarks/qwen_cpuorder_cuda.cu:49-72 | so is every output of the kernel |
| CpuOrderMatvec.QwenCpuQ8Matvec | benchmarks/qwen_dn_sweep_control.cu:151-179 | every row of the output is its CPU evaluation tree, whatever order the parallel rows run in |
| CpuOrderLoops.WarpBlock | benchmarks/qwen_cpuorder_cuda.cu:52-71 | a warp whose lanes run their serial streams and then shuffle in lockstep writes the warp's evaluation tree |
| CpuOrderMatvec.QwenCpuOrderQ8Matvec | benchmarks/qwen_cpuorder_cuda.cu:49-72 | a launch fills every row with its warp tree for any block order and leaves the rest of a larger buffer alone |
| CpuOrderKernel.AvxLaneIsWarpLane | benchmarks/qwen_cpuorder_cuda.cu:45-58 | element i of AVX accumulator j and warp lane 8j+i hold the same term after every block |
| CpuOrderKernel.ReductionsAgree | benchmarks/qwen_cpuorder_cuda.cu:59-68 | the shuffle reduction in lane 0 is the same tree as the AVX vector and scalar adds |
| CpuOrderKernel.UpperLanesNeverReachLaneZero | benchmarks/qwen_cpuorder_cuda.cu:60-68 | lane 0's total depends only on lanes 0 to 7; wrapped shuffle sources are harmless |
| CpuOrderKernel.WarpRowIsCpuRow | benchmarks/qwen_cpuorder_cuda.cu:45-72 | for every width divisible by 32 the warp row and the CPU row are the same term under every interpretation of fma, add and mul |
| CpuOrderKernel.SameTreeIffWidthDivisible | benchmarks/qwen_cpuorder_cuda.cu:86 | without laws for the operations the two rows are equal exactly when the width is divisible by 32 |
| CpuOrderMatvec.WarpMatvecIsCpuMatvec | benchmarks/qwen_cpuorder_cuda.cu:49-72 | a whole vector is the kernel's result exactly when it is the CPU's, for every row count |
| CpuOrderSweep.Context.Init | benchmarks/qwen_cpuorder_cuda.cu:76-81 | a second initialization keeps the device and succeeds only for the same one |
| CpuOrderSweep.Context.Reserve | benchmarks/qwen_cpuorder_cuda.cu:35-43 | success means room for the request; failure leaves neither buffer nor capacity; a large enough buffer is kept |
| CpuOrderSweep.Context.Upload | benchmarks/qwen_cpuorder_cuda.cu:83-107 | success means a tensor of the asked shape with a width divisible by 32: the new matrix, or the one uploaded before |
| CpuOrderSweep.Context.Matvec | benchmarks/qwen_cpuorder_cuda.cu:109-123 | whatever failed before, success means the result vector is the kernel's product of the tensor held |
| CpuOrderSweep.MakeOutInput | benchmarks/qwen_dn_sweep_control.cu:183-185 | the boundary vector is half the qkv prefix plus half of z |
| CpuOrderSweep.GpuProjection | benchmarks/qwen_dn_sweep_control.cu:197-204 | success leaves the CPU's evaluation trees in the gpu vector and never touches the matrix or the CPU's vector |
| CpuOrderSweep.DoneOnBothSidesIsExact | benchmarks/qwen_dn_sweep_control.cu:187-222 | a layer swept on both sides has equal qkv, z and out vectors, the boundary round trip included |
| CpuOrderSweep.SweepControl.CpuSweep | benchmarks/qwen_dn_sweep_control.cu:187-195 | every layer gets the CPU trees of its three projections |
| CpuOrderSweep.SweepControl.GpuSweep | benchmarks/qwen_dn_sweep_control.cu:213-222 | a sweep that returns true leaves every layer exact, on the first call and on every cached one, despite shared buffers and earlier failures |
| CpuOrderSweep.SweepControl.Run | benchmarks/qwen_dn_sweep_control.cu:290-339 | after CPU sweeps, a first GPU sweep and any number of cached ones, success means every layer is exact |
| Int32Lanes.Dp4aIsDot4 | benchmarks/qwen_w4a8_dp4a_control.cu:264-267 | the 4-way dot product of packed bytes adds the exact dot product modulo 2^32 |
| Int32Lanes.LanesPartition | benchmarks/qwen_w4a8_dp4a_control.cu:263 | a strided loop gives every item to exactly one lane, so the lane sums add up to the whole |
| Int32Lanes.HalvingKeepsSum | benchmarks/p40_bench.cu:57-60 | adding the upper half onto the lower half keeps the sum modulo 2^32 |
| W4A8Kernel.UnpackingMatchesSignedNibble | benchmarks/qwen_w4a8_dp4a_control.cu:216-222 | the four byte lanes unpacked from two bytes are the host's signed nibbles of the four columns, each in -8..7 |
| W4A8Kernel.LaneLoop | benchmarks/qwen_w4a8_dp4a_control.cu:257-268 | a lane's accumulator is the wrapped exact sum of the groups it owns |
| W4A8Kernel.ShuffleTree | benchmarks/qwen_w4a8_dp4a_control.cu:269-270 | the shuffle-down tree, level by level, leaves the wrapped sum of all lanes in lane 0 |
| W4A8Kernel.W4A8Row | benchmarks/qwen_w4a8_dp4a_control.cu:253-270 | one warp delivers the exact dot product modulo 2^32 for every packed row and all int8 activations |
| W4A8Kernel.W4A8Dp4aRows | benchmarks/qwen_w4a8_dp4a_control.cu:248-271 | every expert's every output row, and nothing else, gets its dot product, for any tile size |
| W4A8Kernel.CpuIntegerReference | benchmarks/qwen_w4a8_dp4a_control.cu:165-181 | the reference is the exact int64 dot product; it aborts only when some exact value does not fit int32 |
| W4A8Kernel.NibblesOfByte | benchmarks/qwen_w4a8_dp4a_control.cu:143-145 | a byte is its two columns' nibbles, the even one low, each lowered by 8 |
| W4A8Kernel.KernelOutputRaw | benchmarks/qwen_w4a8_dp4a_control.cu:249-270 | output expert * 512 + row of the kernel is, modulo 2^32, the sum over column c of input[expert * 2048 + c] times the nibble of byte (expert * 512 + row) * 1024 + c / 2 |
| W4A8Kernel.ReferenceOutputRaw | benchmarks/qwen_w4a8_dp4a_control.cu:168-181 | the reference's is that sum itself |
| W4A8Kernel.DotBound | benchmarks/qwen_w4a8_dp4a_control.cu:143-145 | a row's dot product is at most 8 * m * width in magnitude for activations up to m |
| W4A8Kernel.QuantizedRowsFitInt32 | benchmarks/qwen_w4a8_dp4a_control.cu:177 | for activations in -127..127 neither the row's dot product nor any lane's sum over any number of groups leaves int32 |
| W4A8Kernel.QuantizedTreesFitInt32 | benchmarks/qwen_w4a8_dp4a_control.cu:269 | nor does the exact sum of any of the 32 lanes at any of the five shuffle levels |
| W4A8Kernel.KernelMatchesReference | benchmarks/qwen_w4a8_dp4a_control.cu:165-181 | a kernel output equals a reference output exactly when every exact value fits int32 |
| W4A8Kernel.IntegerGate | benchmarks/qwen_w4a8_dp4a_control.cu:165-181 | for quantized activations the reference never aborts and the kernel equals it everywhere |
| Dp4aGemv.ThreadLoop | benchmarks/p40_bench.cu:48-53 | a thread's accumulator is the wrapped sum of exactly the column groups it visits |
| Dp4aGemv.TreeLevel | benchmarks/p40_bench.cu:57-60 | one level between barriers gives the same array for every order of the threads |
| Dp4aGemv.SharedTree | benchmarks/p40_bench.cu:54-60 | the in-place loop over strides is the tree of its levels |
| Dp4aGemv.TreeSums | benchmarks/p40_bench.cu:57-61 | for a power of two of live threads, partial[0] is the wrapped sum of them all |
| Dp4aGemv.TreeSumsIffPowerOfTwo | benchmarks/p40_bench.cu:57 | the tree delivers every sum exactly for power-of-two block sizes |
| Dp4aGemv.LostValueIsLost | benchmarks/p40_bench.cu:57-60 | for any other block size there is a thread whose value never reaches partial[0] |
| Dp4aGemv.RowBlock | benchmarks/p40_bench.cu:46-61 | one block of any size computes the tree over its threads' sums, and a power of two of threads the row's exact dot product modulo 2^32 |
| Dp4aGemv.RowsRightIffPowerOfTwo | benchmarks/p40_bench.cu:46-61 | a block size gets every int8 row right exactly when it is a power of two |
| Dp4aGemv.LosesRow | benchmarks/p40_bench.cu:57-61 | for any other, one column group per thread and a single one in weights and input give 0 instead of 1 |
| Dp4aGemv.Dp4aGemvKernel | benchmarks/p40_bench.cu:44-62 | every output row is its dot product modulo 2^32, for any column count divisible by four |
| Dp4aGemv.RowRaw | benchmarks/p40_bench.cu:44-61 | in raw indices, a row's value is the sum of weights[row * columns + c] * input[c] modulo 2^32, and the reference that sum itself |
| Dp4aGemv.Gate | benchmarks/p40_bench.cu:204-223 | the comparison with the int64 reference succeeds exactly when no row's dot product leaves int32 |
| Dp4aGemv.SmallRowsFitInt32 | benchmarks/p40_bench.cu:204-206 | it cannot for values up to m while m * m * columns is below 2^31 |
| Dp4aGemv.ProgramOperandsPass | benchmarks/p40_bench.cu:197-203 | the program's 2048 columns of values in -7..7 always pass |
| Rounding.RoundEven | remote/p40-canary-guard.py:151-152 | rounding is to within a half and ties go to the even integer |
| Quantization.CpuPeak | benchmarks/qwen_w4a8_dp4a_control.cu:153-154 | the host loop finds the row's largest magnitude |
| Quantization.GpuPeak | benchmarks/qwen_w4a8_dp4a_control.cu:224-237 | strided threads, warp shuffles and the second level find the row's largest magnitude |
| Quantization.PeakUnique | benchmarks/qwen_w4a8_dp4a_control.cu:153-155 | the peak is determined by the row, so the host and the kernel scale alike |
| Quantization.QuantizeCpu | benchmarks/qwen_w4a8_dp4a_control.cu:147-163 | codes lie in -127..127 without the clamp acting and every input is within half a scale of its code |
| Quantization.QuantizeRowGpu | benchmarks/qwen_w4a8_dp4a_control.cu:224-246 | the same, with the same codes, for the kernel |
| Quantization.FaithfulIff | benchmarks/qwen_w4a8_dp4a_control.cu:158-159 | what a faithful code is: -127..127, and the input within half a scale |
| Quantization.OutputError | benchmarks/qwen_w4a8_dp4a_control.cu:198-214 | an output from faithful codes differs from the float reference by at most 4 * width * input scale * weight scale |
| Quantization.KernelOutputError | benchmarks/qwen_w4a8_dp4a_control.cu:198-271 | end to end: the int32 the DP4A kernel delivers, dequantized, meets that bound |
| LeaseManager.LeaseManager.Begin | model_router/router.py:214-220 | a lease is counted exactly when the preparation did not raise |
| LeaseManager.LeaseManager.PrepareQwen | model_router/router.py:250-264 | a start is attempted exactly when the probe answers down, no Ollama backend raised or shows a resident model, every temperature is below the limit and at most 256 MiB are used; it is granted exactly when Qwen is then healthy, found up or started |
| LeaseManager.QwenOutcomeIff | model_router/router.py:250-277 | the same of the outcome that every run is made of |
| LeaseRuns.OllamaGrantedIff | model_router/router.py:279-281 | an Ollama request is granted exactly when the probe answers that Qwen is down, and Qwen then is down unless that was a misreading; a refused one changes nothing |
| LeaseManager.EndUndoesBegin | model_router/router.py:220-225 | an end gives back exactly what the begin took, leaving a last-use time |
| LeaseManager.EndedModelIsIdleIff | model_router/router.py:222-235 | the reaper may clean up after it, the idle time later, exactly when that was the last lease |
| LeaseManager.LeaseManager.ReapOnce | model_router/router.py:227-248 | visits every model up to the first unhandled exception, cleans up the idle ones with a last-use time, and forgets the time only when the clean-up returned |
| LeaseManager.CleanupIs | model_router/router.py:236-245 | what the clean-up of an idle model asks for and how it ends, for every answer |
| LeaseManager.ReapRaisesIff | model_router/router.py:243 | a reap is cut short exactly when the clean-up of some idle model raises something other than the three handled exceptions |
| LeaseManager.ReapActsOnIdleModelsOnly | model_router/router.py:231-243 | every stop or unload comes from an idle model without a lease |
| LeaseManager.ReapSparesLeasedAliases | model_router/router.py:232-243 | Qwen is never stopped under its own lease; every unload has an unleased alias behind it |
| LeaseManager.ReapForgetsIff | model_router/router.py:236-246 | a last-use time is gone after a reap exactly when there was none, or the reap reached the idle model and its clean-up returned |
| LeaseManager.ReapStopsQwenIff | model_router/router.py:231-243 | a reap asks Qwen to stop exactly when its model is idle, the probe finds it running and no earlier idle model's clean-up raised unhandled |
| LeaseManager.ReaperNeverStopsQwenIff | model_router/router.py:232 | no reap ever asks Qwen to stop exactly when it is leased or has no last-use time |
| LeaseRuns.LeasedModelsSurviveIffDistinct | model_router/router.py:241-242 | on every run leased backend models survive every reap exactly when no two Ollama aliases name the same one |
| LeaseRuns.SharedModelTrace | model_router/router.py:227-248 | otherwise begin, end, begin under the other alias and one reap unload a leased model |
| LeaseRuns.ActiveCountsLeases | model_router/router.py:214-225 | in every state of every interleaving the counter of an alias is its granted begins minus its ends |
| LeaseRuns.ClampAndReaperAreHarmless | model_router/router.py:224-248 | on every run max(0, ...) never changes a value and no reap stops Qwen under its lease or unloads for a leased alias |
| LeaseRuns.ExclusionLostIff | model_router/router.py:150-281 | one step loses exclusion exactly when a Qwen request starts the service while an Ollama lease is active, or the probe of an Ollama request misses a running Qwen |
| LeaseRuns.VisibleLeasesKeepExclusion | model_router/router.py:250-281 | on every run whose Ollama leases are visible to Qwen requests and whose probes miss no running Qwen, Qwen never runs beside an Ollama lease |
| LeaseRuns.CoResidencyTrace | model_router/router.py:214-264 | otherwise two steps, begin(ollama) and begin(qwen), reach co-residency in every configuration with both kinds |
| LeaseRuns.MisreadProbeTrace | model_router/router.py:150-155 | nor is visibility enough: begin(qwen) and a begin(ollama) whose probe fails reach it too |
| LeaseRuns.StrandedIff | model_router/router.py:227-321 | a running Qwen without a holder goes on running along every run that leaves it alone exactly when it has no last-use time or the reaper's thread has ended |
| LeaseRuns.StepStrandsIff | model_router/router.py:214-321 | from every state of every run, exactly which requests, ends and reaps bring that about |
| LeaseRuns.HealthTimeoutStrandsQwenIff | model_router/router.py:232-277 | from every state of every run, a Qwen request that leaves the service up and unhealthy strands it exactly when no lease is held, and no last-use time is kept or the reaper's thread has ended |
| LeaseRuns.CutOffReplyStrandsQwen | model_router/router.py:178-246 | a run that strands it: a lease of each kind is begun and ended, and the unload reply for the model configured before Qwen is cut off |
| LeaseRuns.UsedQwenIsAskedToStopIff | model_router/router.py:231-243 | with a last-use time and no holder, a reap after the idle time asks it to stop exactly when the probe sees it and no earlier clean-up cut the reap short |
| LeaseRuns.RestartStrandsQwen | model_router/router.py:211-212 | a router started beside a running Qwen is stranded from the first moment |
| LeaseRuns.StrandedQwenBlocksOllama | model_router/router.py:232-281 | from there each step keeps that state and refuses every Ollama request whose probe sees Qwen |
| LeaseRuns.StrandedRun | model_router/router.py:232-281 | so does every run, until Qwen is requested or goes down by itself |
| SwarmStore.SwarmStore.CreateBranch | swarm/store.py:128-145 | a branch is added exactly to an open task below its budget, with valid texts |
| SwarmStore.SwarmStore.CreateAttempt | swarm/store.py:153-167 | an attempt with the next ordinal is opened on a queued, running or evaluating branch, which becomes running |
| SwarmStore.SwarmStore.AppendEvidence | swarm/store.py:175-193 | one record is appended exactly to an open attempt with a 64-character digest, a listed kind, and integers that fit 64 bits, the duration not negative |
| SwarmStore.SwarmStore.FinishAttempt | swarm/store.py:201-211 | an open attempt is closed and its branch status overwritten whatever it was |
| SwarmStore.SwarmStore.Promote | swarm/store.py:220-232 | a branch is promoted exactly if it is evaluating and for both static and test some evidence row has that kind, exit code 0 and an attempt of this branch |
| SwarmStore.AcceptsIff | swarm/store.py:100-211 | exactly when a task, a branch, an attempt, evidence and the end of an attempt are taken, with the table's constraints |
| SwarmStore.PromoteAcceptsIff | swarm/store.py:220-227 | the same of the transition that every run is made of |
| SwarmStore.NextOrdinalUnique | swarm/store.py:157-159 | the query's answer, one above the largest ordinal or one, is determined by the rows |
| SwarmRuns.RunsKeepInvariant | swarm/store.py:100-232 | in every reachable state each promoted branch has an evidence row with exit code 0 of both required kinds, ordinals have no gap and no repeat, and tasks keep their budget |
| SwarmRuns.NumberedIsExactly | swarm/store.py:157-159 | the ordinals of a branch are exactly 1..n |
| SwarmRuns.EvidenceOnlyGrows | swarm/store.py:175-193 | no operation removes or changes evidence of a branch |
| SwarmRuns.EvidenceOfIs | swarm/store.py:175-193 | the evidence of an attempt is all of its rows, each once |
| SwarmRuns.ClosedAttemptsAreFrozen | swarm/store.py:180-210 | along every run a closed attempt keeps its status and its evidence |
| SwarmRuns.TerminalIffNoOpenAttempt | swarm/store.py:207-209 | a promoted or pruned status survives every operation exactly when the branch has no open attempt |
| SwarmRuns.TerminalUnderDiscipline | swarm/store.py:153-211 | with one open attempt at a time, promoted and pruned are final along every run |
| SwarmRuns.TwoOpenAttemptsBreakPromotion | swarm/store.py:207-232 | a run in which a branch is promoted on one attempt and pruned by another |
| SwarmScoring.BenchmarkGain | swarm/scoring.py:50-56 | the gain is the largest rounded, capped improvement of a passing benchmark, or zero |
| SwarmScoring.ScoreBranch | swarm/scoring.py:29-60 | decision and score follow from the passing and failing required kinds and the gain |
| SwarmScoring.ScoreIs | swarm/scoring.py:36-60 | decision and score in terms of the records: -100 for a failed static or test record, 100 or more with a passing one of each, else 25 for one and 0 for none |
| SwarmScoring.GainIs | swarm/scoring.py:48-60 | a promote-ready score is 100 plus the largest improvement of a passing benchmark, rounded and capped at 20 |
| SwarmScoring.ScoreBands | swarm/scoring.py:41-60 | the score bands of the decisions are disjoint: only passing static and test evidence reaches 100 |
| SwarmScoring.RankedReadyIsDecision | swarm/scoring.py:63-76 | the ranked decision is promote-ready exactly for an unpruned branch with passing and no failing required evidence |
| SwarmScoring.RankTask | swarm/scoring.py:63-76 | one entry per branch of the task with its own score, pruned branches as pruned at -100, by descending score and then by branch |
| SwarmScoring.ReadyBranchesComeFirst | swarm/scoring.py:76 | a promote-ready branch precedes every branch that is not |
| SwarmIngest.DerivePass | swarm/ingest.py:50-58 | the derived flag holds exactly for a failing baseline with both validations passing, and the checked profiles are those with a record |
| SwarmIngest.IngestCorpusAttempt | swarm/ingest.py:33-90 | the store calls are issued in order up to the first raise, and what they committed stays |
| SwarmIngest.IngestOpensIff | swarm/ingest.py:41-61 | an attempt is opened exactly for a known kind, a baseline, a passed flag equal to what the records say, and a branch that takes attempts; otherwise nothing changes |
| SwarmIngest.AppendedIs | swarm/ingest.py:62-89 | the records a completed ingest adds, in order and with their own exit codes |
| SwarmIngest.IngestEffect | swarm/ingest.py:61-90 | an ingest that returns adds one closed attempt, its evidence and the branch status, and changes nothing else |
| SwarmIngest.JudgesAgreeOnCleanRuns | swarm/ingest.py:45-90 | along every run without a mid-way raise, promote accepts an unpromoted branch exactly when it ranks promote-ready |
| SwarmIngest.ConsistentJudgesAgree | swarm/ingest.py:45-90 | status and evidence in step are enough for the two judges to agree |
| SwarmRaises.MidwayRaiseIff | swarm/ingest.py:61-90 | an ingest that opened its attempt raises exactly when an evidence call is refused, and leaves the branch running with the evidence before it |
| SwarmRaises.MidwayRaisePartsIff | swarm/ingest.py:61-90 | the judges then part on that branch exactly when it was evaluating and no failed static record was committed, and on no other branch |
| SwarmRaises.RaiseKeepsConsistentIff | swarm/ingest.py:61-90 | the store stays consistent exactly when the branch was not evaluating and no failed static record was committed |
| SwarmRaises.MidwayRaiseCanPartIff | swarm/ingest.py:61-90 | now or on some clean run later the judges part exactly when it was evaluating or such a record was committed |
| SwarmRaises.MidwayRaiseSplitsJudges | swarm/ingest.py:81-84 | an ingest that raises after failed static evidence, then a good one: promote accepts the branch, rank_task prunes it |
| SwarmRaises.UntimedRaiseSplitsJudges | swarm/ingest.py:61-64 | a raise before any evidence takes an evaluating branch from promote, not from rank_task |
| WgcapFormat.ParseCapture | scripts/wgcap.py:120-144 | the reader's outcome, error by error, is that of the layout |
| WgcapFormat.ReadHeaderIs | scripts/wgcap.py:97-117 | which headers are refused and why, in order, with the layout's record size |
| WgcapFormat.ParseIs | scripts/wgcap.py:120-130 | too large, a bad header or a wrong size, in that order |
| WgcapFormat.RecordFaultIs | scripts/wgcap.py:135-142 | what is wrong with one record, in order |
| WgcapFormat.ParsedRecord | scripts/wgcap.py:131-143 | record k of an accepted capture is read at 64 + k * record bytes, with zero reserved word, a finite weight and the layout's byte counts |
| WgcapFormat.HeaderFieldsAt | scripts/wgcap.py:97-105 | the little-endian word at which each header field lies |
| WgcapFormat.RecordFieldsAt | scripts/wgcap.py:133-134 | the same of the record fields |
| WgcapFormat.ParseEncode | scripts/wgcap.py:97-144 | for every valid geometry, parsing an encoded capture gives the same header fields, records and payloads |
| WgcapFormat.FieldsFillRecord | scripts/wgcap.py:85-94 | the thirteen field sizes and the record header add up to the record size |
| WgcapFormat.IterPayloadSlices | scripts/wgcap.py:147-165 | slices are consecutive and exactly fill the record; the cursor mismatch is unreachable |
| T32Layout.CoverSplitsEvenly | scripts/wgcap.py:174-177 | an exact cover has 96 records, 48 of them in the first two steps, in any order |
| T32Layout.ExactCoverIff | scripts/wgcap.py:174-180 | the layout check record by record: expected step, layer and rank, every combination once, bundle 8, device 0 or 1 |
| T32Layout.DeviceCountsAre | scripts/wgcap.py:184-186 | a device is listed exactly if it has records, with their number |
| T32Layout.BuildManifest | scripts/wgcap.py:183-197 | the manifest counts records, devices and both splits |
| T32Layout.CaptureSummary | remote/p40-t32-qwen-wgcap-gateup-guard.py:61-100 | the streaming guard accepts exactly the captures with its header, 96 faultless records and distinct expected routes |
| T32Layout.GuardHeaderIff | remote/p40-t32-qwen-wgcap-gateup-guard.py:62-77 | the guard's size, magic and fourteen header words |
| T32Layout.GuardImpliesReader | remote/p40-t32-qwen-wgcap-gateup-guard.py:61-100 | whatever the guard accepts, the reader and the layout check accept, with the same records, device counts and 48/48 split |
| T32Layout.GuardAcceptsIff | remote/p40-t32-qwen-wgcap-gateup-guard.py:61-100 | the guard accepts exactly what the reader and the layout check accept with the expected model, layer, step and schema words, zero reserved words and expert ids below 256 |
| WgcapReplay.SlicesMatchPointers | tools/t33_wgcap_replay.c:46 | at the fixed geometry the reader's slices start at the C tool's pointers |
| WgcapReplay.Dist.Add | tools/t33_wgcap_replay.c:33 | appends inside the 96 slots and adds the squared errors and squares of the two vectors |
| WgcapReplay.Pct | tools/t33_wgcap_replay.c:34 | a percentile is the least of the values that at least that share of them does not exceed |
| WgcapReplay.Replay | tools/t33_wgcap_replay.c:43-55 | for any records: how the loop ends, and what all 36 distributions hold then; a capture with the exact cover is replayed inside the 96 slots and leaves 96 or 48 values per split, so none is empty for the percentiles |
| WgcapReplay.SelectedIff | tools/t33_wgcap_replay.c:45 | on the unsigned words, a step or rank with its top bit set passes the selector, and such a step falls in the first split |
| WgcapReplay.SlotsSufficeIff | tools/t33_wgcap_replay.c:33-55 | no addition passes the 96 slots exactly when at most 48 of the records before the first refused one fall in each split, steps read as signed ints; for 96 accepted records, when they split 48 to 48 |
| WgcapReplay.NegativeStepOverflows | tools/t33_wgcap_replay.c:45 | 96 accepted records, 48 and 48 by their unsigned steps, overflow the first split |
| SparseCorrection.NibblesOfByte | tools/t33_wgcap_replay.c:22 | a packed byte is its two columns' two's complement nibbles, the even one low |
| SparseCorrection.WeightsAre | tools/t33_wgcap_replay.c:22-30 | column c of row r is that nibble of byte r * (cols / 2) + c / 2 |
| SparseCorrection.Proj | tools/t33_wgcap_replay.c:28-31 | every output is the scaled dot product with the row's nibbles |
| SparseCorrection.Corrected | tools/t33_wgcap_replay.c:35-37 | k residual channels turn the dequantized projection into that of the vector exact on the first k ranked channels |
| SparseCorrection.HybridAt | tools/t33_wgcap_replay.c:36 | that vector holds the input on the first k channels and the dequantized value elsewhere |
| SparseCorrection.FullBudgetIsExact | tools/t33_wgcap_replay.c:35-37 | with every channel the vector is the exact input |
| SparseCorrection.Rank | tools/t33_wgcap_replay.c:27 | indices in comparator order, every one of them |
| SparseCorrection.RankingIsPermutation | tools/t33_wgcap_replay.c:25-27 | a ranking lists every channel exactly once |
| SparseCorrection.RankingUnique | tools/t33_wgcap_replay.c:25-27 | the comparator is total, so any sort gives the same ranking |
| SparseCorrection.EffectKeepsTop | tools/t33_wgcap_replay.c:52-53 | the first 64 channels of the effect ranking are, as a set, the magnitude ranking's first 64 |
| QwenCanaryGuard.NoReasonMeansSafe | remote/p40-canary-guard.py:141-148 | no reason means every temperature below 65, every fan at 500 rpm or more and, at preflight, idle GPUs at 40 or below |
| QwenCanaryRuns.TerminateFacts | remote/p40-canary-guard.py:155-166 | a termination returns exactly if the child is gone at the poll, after TERM or after KILL, has then reaped it and reports the signals it took; one that raises reports nothing |
| QwenCanaryVerdict.HandledIs | remote/p40-qwen-canary-guard.py:146-148 | only a handled exception reaches the handler, which signals nobody before a child was started |
| QwenCanaryVerdict.UnsafeReasonIs | remote/p40-canary-guard.py:141-148 | the reason a sample gives, by what comes first |
| QwenCanaryGuard.Guard.WatchChild | remote/p40-qwen-canary-guard.py:124-133 | the polling loop ends by exit, deadline, unsafe sample, new critical event or exception, as its turns say |
| QwenCanaryGuard.Guard.AwaitCooldown | remote/p40-canary-guard.py:169-184 | the cooldown loop ends by unsafe sample, new event, a cool sample after 300 s, or 900 s |
| QwenCanaryGuard.Guard.Execute | remote/p40-qwen-canary-guard.py:101-158 | try, except, finally and verdict: result, power commands, child and handles for every script of replies |
| QwenCanaryRuns.OriginalsRemember | remote/p40-qwen-canary-guard.py:115 | the remembered limits are those of the last listed GPU with each target index, one per index |
| QwenCanaryRuns.WatchEnds | remote/p40-qwen-canary-guard.py:125-133 | the watch loop gives no reason exactly when it saw the child exit, and then every sample was safe |
| QwenCanaryVerdict.WatchEndsCleanIff | remote/p40-qwen-canary-guard.py:124-133 | it ends without a reason exactly when every turn before some exit poll saw a healthy reading in time and, if the events were due, read them and nothing new |
| QwenCanaryVerdict.WatchReadsWhenDue | remote/p40-qwen-canary-guard.py:130-132 | so the first turn, and each turn five seconds or more after the reading that followed the last look, read events that all were in the baseline, with the clock summed from the turns' delays |
| QwenCanaryVerdict.WatchEndsBecause | remote/p40-qwen-canary-guard.py:125-133 | for every script, which turn ends the loop and what its replies make of the run |
| QwenCanaryRuns.CoolDownEnds | remote/p40-canary-guard.py:169-184 | a cooldown without failure lasted 300 s, saw only safe samples and no new event, and ended at 40 or below |
| QwenCanaryVerdict.CoolDownEndsCleanIff | remote/p40-canary-guard.py:169-184 | it ends without failure exactly at the first check that is cool 300 s or more after the start, all checks up to it sound and before 900 s, and records that time |
| QwenCanaryVerdict.CoolDownEndsBecause | remote/p40-canary-guard.py:169-184 | for every script, which check ends it and with what |
| QwenCanaryRuns.LimitsOfRun | remote/p40-qwen-canary-guard.py:117-154 | the complete list of power commands of every run past its preflight |
| QwenCanaryRuns.BothRestoredIff | remote/p40-qwen-canary-guard.py:149-154 | both GPUs are asked back to their preflight limits exactly when no open handle's close raises and the first restore raises nothing uncaught |
| QwenCanaryRuns.IsRestoreIff | remote/p40-qwen-canary-guard.py:115-153 | asked back means to the limit of its last preflight row, rounded to whole watts |
| QwenCanaryRuns.RestoreIsExactIffWhole | remote/p40-canary-guard.py:151-152 | the command gives back the preflight limit itself exactly for whole watts |
| QwenCanaryRuns.PassIff | remote/p40-qwen-canary-guard.py:155-157 | pass means a preflighted run without reason or exception and two successful restores, and the converse |
| QwenCanaryVerdict.PassExactly | remote/p40-qwen-canary-guard.py:101-158 | pass, in terms of the replies alone: a ready preflight, caps and preparations that succeed, a watch loop and a cooldown that end as above with exit 0, output kept and both restores successful |
| QwenCanaryRuns.PassMeans | remote/p40-qwen-canary-guard.py:101-158 | pass implies exit 0, every recorded sample safe, no new critical event in the cooldown, five minutes of cooldown ending at 40 or below, caps and restores all successful |
| QwenCanaryRuns.ChildLeftRunningIff | remote/p40-qwen-canary-guard.py:146-158 | the child outlives the guard exactly when the exception was uncaught or its handler raised; a run that returns has reaped it |
| QwenCanaryRuns.RunIsBounded | remote/p40-qwen-canary-guard.py:124-144 | every run ends, with at most 1985 samples |
| QwenCanaryRuns.CloseFailureKeepsCap | remote/p40-qwen-canary-guard.py:150-153 | a run in which a failing close leaves both GPUs at 125 W |
| QwenCanaryRuns.UnparsedReadingLiftsCap | remote/p40-canary-guard.py:98-102 | a run in which an unparsable reading lifts the cap and leaves the child running |
| QwenCanaryRuns.QuietRunPasses | remote/p40-qwen-canary-guard.py:157 | the verdict can be reached |
| Watchdog.Watchdog.Check | scripts/guard.py:53-62 | the window keeps at most eleven samples, all below the limit and without faults, whatever is shown |
| Watchdog.CheckedIs | scripts/guard.py:53-62 | each verdict has its exact condition, in order, and the window is the last eleven samples without fault |
| Watchdog.PollTurnIs | scripts/guard.py:81-90 | one turn: exit code, check, timeout, in that order, or the next turn 0.05 s later |
| Watchdog.PollProcess | scripts/guard.py:81-89 | the polling loop ends at the first reason, and records every sample it was given |
| Watchdog.CloseRunsNeverSlope | scripts/guard.py:58-61 | a run whose consecutive samples are less than a second apart never reports the slope |
| Watchdog.SlopeIff | scripts/guard.py:59-61 | the slope is reported exactly for windows of two or more samples that span ten seconds and end on a hot sensor that rose faster than the limit |
| Watchdog.RunsReportFirstSteepWindow | scripts/guard.py:58-61 | on every run it is reported at the first sample whose window of last eleven is such, unless that sample is itself at fault, and at no other |
| Watchdog.ClearRunsAreSound | scripts/guard.py:81-89 | a run left to finish recorded only sound samples and saw exit 0 |
| ExactTextEdit.CountOneIff | swarm/edit.py:38-39 | the count is one exactly when nothing occurs after the end of the leftmost occurrence |
| ExactTextEdit.ReplacesLeftmost | swarm/edit.py:51 | exactly the leftmost occurrence is rewritten and all other text is kept |
| ExactTextEdit.CountMeansUniqueIff | swarm/edit.py:38-39 | a count of one means a unique occurrence in every text exactly when the text cannot overlap itself |
| ExactTextEdit.OverlapIsMiscounted | swarm/edit.py:38-39 | a text that overlaps itself has a source where two occurrences count as one |
| ExactTextEdit.SwapRestoresIff | swarm/edit.py:43-51 | on the text: replacing back restores it exactly when the replacement's leftmost occurrence is at the edit point |
| ExactTextEdit.Components | swarm/edit.py:22-24 | a path is cut at every slash |
| ExactTextEdit.Validate | swarm/edit.py:27-40 | an accepted edit applies to the text it was validated against |
| ExactTextEdit.ValidateAcceptsIff | swarm/edit.py:22-40 | exactly which proposals are accepted, and as what |
| EditedFile.ReadsAsItIsIff | swarm/edit.py:48 | a file reads as it is exactly when it holds no carriage return |
| EditedFile.File.Apply | swarm/edit.py:43-51 | an edit leaves the text as it was read with its one counted occurrence rewritten, or is refused with the file unchanged |
| EditedFile.OutsideKeptIff | swarm/edit.py:48-51 | all text outside the edit point is kept exactly when the file held no carriage return |
| EditedFile.WindowsLineEndIsLost | swarm/edit.py:48-51 | editing a line with a Windows line end turns that line end into a newline |
| EditedFile.SwapRestoresFileIff | swarm/edit.py:43-51 | the swapped edit is accepted and restores the file exactly when neither file nor replacement holds a carriage return and the replacement's counted occurrence is the edit point |
| EditedFile.EditsChangeTextRead | swarm/edit.py:34-35 | an applied edit always changes the text as it was read |
| EditedFile.FileCanStayIff | swarm/edit.py:34-51 | the file's bytes can stay as they were exactly when the replacement reads as the expected text, possibly before a newline |

## Left out

- IEEE rounding, infinities and NaN: exact-order claims hold for any interpretation of the operations, error bounds
  and the correction identity over reals; the kernel's product with an inverse and the host's quotient give equal
  codes only there.
- Contraction of the scalar tail's multiply and add by a compiler.
- The COLI_CUDA build of the sweep, timing, error summaries and result printing.
- Release of device memory (`p40_cpuorder_tensor_free`, `p40_cpuorder_shutdown`).
- CpuOrderSweep.Context.Matvec: host vectors are values, so aliasing between them is not modelled; after a failed call
  the contents of the output vector are arbitrary.
- The dequantization and W4A32 kernels, and the GPU's W4A8 output in float.
- LeaseRuns.VisibleLeasesKeepExclusion: assumes, as the whole module does, that only the router starts Qwen.
- HTTP proxying, authentication, configuration loading and the 180-second health loop, which enters as one answer.
- LeaseManager.ReapSparesLeasedAliases: speaks of aliases; models shared by two aliases are the subject of
  LeaseRuns.LeasedModelsSurviveIffDistinct. A backend is the server a URL resolves to, and a backend model the one its
  name resolves to there; resolving is not modelled.
- SQLite: the tables are maps and a sequence; UUIDs are counters, and the order by creation time and id is the
  sequence's. Nothing sets the task statuses running, complete and failed, so the modelled test for the last two always
  passes. Worktree paths, JSON columns and text checks beyond one boolean are left out.
- SwarmIngest.IngestCorpusAttempt: digests are represented by their lengths and metrics by the benchmark percentage;
  text that SQLite cannot encode is not modelled.
- File access, SHA-256 and paths of the capture tools; the engine's log line.
- WgcapReplay.Replay: the checks before the loop are not modelled, and a write past the slots ends the run; measured
  errors and the vectors they compare are arbitrary; the aggregate errors and tail counts printed from the distributions
  are not modelled.
- SparseCorrection.Rank: the library sort is an insertion sort; RankingUnique shows that this makes no difference.
- The proxy score of the replay (its derivative terms) and the effect values themselves: only their order matters to
  the budget.
- QwenCanaryGuard.Guard.Execute: artifacts checks, mkdir, open, spawn, close and output summaries are single replies;
  hashes, timestamps, tails and persistence are not modelled; an asynchronous interrupt is not modelled.
- The single-GPU run of remote/p40-canary-guard.py and the guards that only rebind constants of the modelled run.
- Watchdog.PollProcess: the host lock, process clean-up and power callback around the loop; the rate of rise is compared
  after multiplying out, which SteepIsRate shows to be the same.
- EditedFile.File.Apply: whether the target lies inside the worktree is one boolean; links, encodings and hosts whose
  own line end is not a newline are not modelled.
- ExactTextEdit.Validate: components `.` and empty ones, which the library drops, are kept, which changes no answer.
- SSH entry points, telemetry gateway, worktrees, patching, prompts, benchmarks' timing loops and the swarm HTTP API.
