# A verified model of the board engine's solver, clocks, receivers and text routines

The board crate resolves the nets of an electronic bench. This project models the parts of it that carry the
hard promises, as one Dafny program, and proves those promises:

- **The cluster solver.** Nets joined by passives form a cluster; the solver merges zero-ohm edges with a
  path-halving union-find, holds terminals as constants, turns sources into Norton equivalents, finds what a
  source reaches, stamps `G * V = I` over the rest, eliminates with partial pivoting, and, with
  piecewise-linear elements, runs a cold-started, ordered, bounded flip loop over their regions. `Circuit.dfy`
  says what the circuit *is*, with no matrix in it: the current leaving a supernode (`NetCurrent`), an
  operating point, the one operating point (`ThePoint`). `Solver.Solve` is the solver itself, step by step, and
  its contract says its answer is the one the circuit alone determines (`Regions.Solves`). What the answer
  promises is then proved of that: Kirchhoff's law, nonsingularity, the maximum principle, the floating
  characterisation, the flip loop's bound and self-consistency, independence of the order of the parts. `Answers`,
  `Kirchhoff` and `OhmsLaw` say it once more in volts, ohms and amps alone: what each element carries and why it is
  in its region, the current law over the published figures, and a bench's answers in closed form.
- **Three timed machines.** An assembly multiplexes its members' one-shot and periodic wakes onto one wake
  handler; a serial bridge clocks queued bytes onto a line through one de-duplicating arm slot; a decoder puts
  bytes together again from level changes. The engine is the set of its pending instants, one entry an instant,
  delivered earliest first, at or after the instant. All are proved over whole runs, the bridge over every
  interleaving of its flag reads, flag swaps and locked sections, the decoder over every burst, every clock
  within its tolerance and every pattern of reads, and the two together: what is transmitted is what a decoder
  that sees only the pin hears.
- **Counting and receiving.** Pulse trains in whole pulses with 64-bit saturation; a digital receiver's
  hysteresis, in a running square wave and over any sequence of deliveries.
- **Text.** The s-expression parser against the grammar it accepts, and on UTF-8 (The Unicode Standard,
  table 3-7); the netlist taken out of the tree; the natural order of identifiers, base64 (RFC 4648, section 4).

Volts, ohms and amps are exact reals, and a pivot is refused when it is zero; a non-finite figure is a separate
value that the source's guards recognise. Times and counts are integers with the source's 64-bit saturation
written out. Where the source changes state the model is a class or a method with loops; where it only
computes, it is functions.

Modules, from the bottom up: `Options`, `Words`; `Sums`, `Graph`, `UnionFind`, `Dense`; `Circuit`, `Stamping`,
`Prepare`, `Tables`, `Linear`, `Passive`, `Regions`, `Solver`, `Results`, `Singular`, `Transistor`, `Gains`,
`Latch`, `Order`, `Answers`, `Kirchhoff`, `OhmsLaw`; `Wakes`, `Asks`; `Uart`, `Decoder`, `DecoderRuns`, `Serial`,
`SerialRuns`, `Starvation`, `Link`, `Reception`; `Pulses`, `Receiver`; `Sexp`, `SexpText`, `SexpFaults`, `Utf8`, `Spaces`, `Scalars`,
`Netlist`; `Natural`; `Base64`.
`dafny verify dfyconfig.toml` checks them all.

## Where the code and its documentation disagree

- `regions` and `branch_currents` are documented as parallel to the elements handed over
  (`board/src/cluster.rs:335-341`). When elements are handed over but none has both ends in the cluster, the
  solver takes its linear path and both come back empty (`board/src/cluster.rs:750-761`). The model follows the
  code: `Results.ParallelOutputs` says exactly when they are parallel, and `Results.OutputsShort` is an input at
  which they are not.
- The module documentation calls every solved block nonsingular (`board/src/cluster.rs:25-27`). That holds
  without elements, and in every solve of every run with passive elements and at most one transistor, as long as
  every regulator's current is positive and the transistor's gain is above -1, or no further below it than the
  leakage makes up for (`Passive.PassiveDetermined`, `Transistor.OneTransistorRunSolved`). Both conditions are
  exact, figure by figure: the regulators and the gains that are safe wherever they are put among passive elements
  are these and no others (`Singular.RegulatorSafeExactlyWhen`, `Gains.GainSafeExactlyWhen`), by a failing run for
  each of the rest (`Singular.CancelledAnswer`, `Gains.TooLittleSingular`). With two transistors it fails at
  figures that are all positive: `Latch.LatchRunSingular` is a cross-coupled pair whose run switches one element
  after the other until, at its seventh solve, the block is singular. `Singular.SolvedExactlyWhen` says exactly
  when a solve finds voltages.
- The bridge promises that no wake is lost (`board/src/serial_levels.rs:116-124`). `transmit` reads the output
  flag before it takes the lock (`board/src/serial_levels.rs:286`) and `set_output_enabled` swaps the flag before
  it clears the queue under the lock (`board/src/serial_levels.rs:263-270`), so a transmit that found the output
  on can queue after the clear. Its kick then finds the output off, and once the output is back on no transmit
  kicks a line that is not idle: `Starvation.StarvedRun` is such a run from a new bridge, for any bytes. Exactly
  those transmits break the promise (`SerialRuns.AttendedExactlyWhen`); from any of them a run goes on to a
  starved transmitter (`Starvation.StrayStarves`); and an owner that never switches off while a transmit is
  between its flag read and its lock never has one (`SerialRuns.CarefulOwner`).
- The order of the parts does not matter to the answer, but for one thing: an element whose control node is
  outside the cluster reads the *first* finite terminal of that id. `Order.OrderDoesNotMatter` asks that such
  controls read the same terminal in both orders; `Order.ControlsAgreeExactlyWhen` says that every order meets
  this exactly when each such node's finite terminals declare one voltage; `Order.OutsideControlOrderMatters` is
  two orders that differ.

## Model

| member | source | states |
|---|---|---|
| UnionFind.Dsu.constructor | board/src/cluster.rs:1087-1091 | every index starts as its own representative |
| UnionFind.Dsu.Find | board/src/cluster.rs:1092-1098 | ends on every state unions and finds can reach, returns the representative of its index, and the halving of the path never changes the partition |
| UnionFind.Dsu.Union | board/src/cluster.rs:1099-1104 | the two components, and only they, become one, under the first one's representative |
| UnionFind.UnionPartitions | board/src/cluster.rs:1099-1104 | if equal representatives mean a chain of links before a union, they mean a chain of links with the new one after it |
| Prepare.IndexNodes | board/src/cluster.rs:474-477 | every member node, and no other, has an index: the first place it is listed at |
| Prepare.MergeZeroOhm | board/src/cluster.rs:482-491 | after the edge list two nodes have one root exactly when a chain of zero-ohm edges between members joins them |
| Prepare.ConductiveEdges | board/src/cluster.rs:497-509 | one edge, in order, for each finite positive resistor between two supernodes; every other value is an open circuit |
| Prepare.HoldTerminals | board/src/cluster.rs:519-546 | a supernode is a constant exactly when its finite terminals agree on one voltage, and fought exactly when two of them differ |
| Prepare.NortonSources | board/src/cluster.rs:555-571 | the Norton equivalents of the valid sources behind the impedance floor, then of the terminals of fought supernodes |
| Graph.Reach | board/src/cluster.rs:1056-1075 | the depth-first walk marks exactly what some walk from a seed leads to |
| Graph.MirrorFed | board/src/cluster.rs:633-648 | walking between supernodes is walking between nodes: a source feeds a supernode exactly when it feeds its nodes |
| Tables.ReachOver | board/src/cluster.rs:633-648 | a node's supernode is marked exactly when a path of zero-ohm edges, conducting resistors and the given branches joins the node to a valid source or terminal |
| Tables.CompactIndex | board/src/cluster.rs:651-658 | the matrix has one position for each reached supernode that is no constant, and for nothing else |
| Tables.PrepareTable | board/src/cluster.rs:474-658 | the tables the solve works on mean the circuit: supernodes, constants, fights, sources, elements and reach are the cluster's own |
| Stamping.StampConductance | board/src/cluster.rs:668-691 | stamping a conductance changes each row, at any voltages, by exactly the current that conductance takes out of the row's supernode, whichever ends are unknowns or constants |
| Stamping.StampGain | board/src/cluster.rs:859-874 | the controlled source of an active transistor adds exactly its current to the row of one end, with its base and emitter unknowns or constants |
| Stamping.StampElement | board/src/cluster.rs:841-875 | an element's stamp adds its own branch current to the rows of its two ends and changes no other row |
| Stamping.AssembleLinear | board/src/cluster.rs:692-721 | every row, at any voltages, is the current balance of its supernode over the edges, the sources and the injections |
| Stamping.StampElements | board/src/cluster.rs:841-875 | every row stays the current balance of its supernode once the elements' stamps are in it |
| Linear.BalanceIsNetCurrent | board/src/cluster.rs:497-571 | the balance of what was stamped is Kirchhoff's sum over the cluster's own resistors, sources, terminals, elements and injections |
| Linear.RowIsKirchhoff | board/src/cluster.rs:668-721 | a row of the assembled system is Kirchhoff's current law at its supernode, for all voltages |
| Linear.SolutionIsPoint | board/src/cluster.rs:692-745 | a solution of the matrix, read back over the nodes, is an operating point of the circuit |
| Linear.PointIsSolution | board/src/cluster.rs:692-745 | every operating point of the circuit solves the matrix |
| Linear.KernelUndetermined | board/src/cluster.rs:1107-1113 | a nonzero vector the matrix sends to zero is two voltages Kirchhoff's law cannot tell apart, and no single operating point |
| Linear.SolveOnce | board/src/cluster.rs:778-879 | one assembly and elimination finds the circuit's one operating point, or nothing, and then the law cannot tell two voltages apart |
| Dense.PivotRow | board/src/cluster.rs:1118-1120 | the row with the largest entry at or below the diagonal, the last of equals |
| Dense.SwapEquivalent | board/src/cluster.rs:1124-1125 | a row swap keeps every solution and every kernel vector, both ways |
| Dense.CombineEquivalent | board/src/cluster.rs:1130-1139 | subtracting a multiple of the pivot row keeps every solution and every kernel vector, both ways |
| Dense.EliminateBelow | board/src/cluster.rs:1127-1139 | clears the column below its pivot without gaining or losing a solution, working from that column on |
| Dense.BackSubstitute | board/src/cluster.rs:1142-1150 | the vector built from the last row up satisfies every row |
| Dense.SolveDense | board/src/cluster.rs:1114-1156 | some vector exactly when the matrix is nonsingular; it satisfies every row of the matrix handed in and is the only one that does; none means a nonzero kernel vector |
| Passive.Comparison | board/src/cluster.rs:20-27 | with positive conductances, voltages that draw no more current anywhere and are no higher at the constants are no higher at any reached node |
| Passive.PassiveDetermined | board/src/cluster.rs:628-658 | every reached unknown is tied to a source or terminal, so with positive conductances no two grounded voltages draw the same currents: the block is nonsingular |
| Passive.MaximumPrinciple | board/src/cluster.rs:548-571 | with plain conductances and no injected current every reached node lies between the least and the greatest voltage any valid source or terminal declares |
| Regions.FirstDisagreement | board/src/cluster.rs:964-967 | none exactly when every region is the wanted one, otherwise the lowest index at which they differ |
| Solver.ReadVoltages | board/src/cluster.rs:881-887 | the supernode voltages between solves are the constants and the operating point's |
| Solver.ProbeFed | board/src/cluster.rs:991-1012 | the structural probe marks exactly the supernodes a source or terminal feeds over resistors and stamps of more than leakage |
| Solver.ReadStates | board/src/cluster.rs:727-745 | every member node, duplicates included, gets its supernode's constant, its published voltage, or floats |
| Solver.ReadCurrents | board/src/cluster.rs:1018-1037 | each element's current at the last solve: none unsettled or unreached, zero where leakage alone feeds an end, its stamp's own otherwise |
| Solver.FlipLoop | board/src/cluster.rs:766-982 | ends within the bound at the first solve whose tests all agree, with the regions that many ordered flips from the cold start give, or at the bound unsettled |
| Solver.SolveLinear | board/src/cluster.rs:750-761 | without an element, the answer the circuit determines, in one solve |
| Solver.SolveElements | board/src/cluster.rs:763-1049 | with elements, the answer the circuit determines: states, regions, currents, convergence and counts |
| Solver.Solve | board/src/cluster.rs:459-1050 | the whole answer is a function of the circuit alone: of zero-ohm chains, of Kirchhoff's one operating point in each run of regions, and of what feeds what |
| Results.NoElementsCounted | board/src/cluster.rs:626-626 | the linear path is taken exactly when no element has both ends in the cluster |
| Results.LinearSolved | board/src/cluster.rs:660-757 | without elements the one solve always has exactly one operating point |
| Results.LinearStates | board/src/cluster.rs:722-760 | without elements a node floats exactly when no path of zero-ohm or finite positive resistors joins it to a valid source or finite terminal; any other is at its voltage in the one solution of Kirchhoff's law |
| Results.LinearMaximum | board/src/cluster.rs:660-757 | without elements or injections every published voltage lies between the least and the greatest of the valid sources and finite terminals |
| Results.LinearAgreement | board/src/cluster.rs:660-757 | a cluster whose sources and terminals all agree sits exactly at their voltage |
| OhmsLaw.Answers | board/src/cluster.rs:474-761 | a source behind an impedance, an injection, a resistor and a terminal, of any figures, non-finite and zero ones included: every answer's two states and its number of unknowns in closed form, in volts, ohms and amps |
| Results.SupernodeStates | board/src/cluster.rs:727-745 | nodes joined by zero-ohm edges share one state, elements or not |
| Results.TerminalHolds | board/src/cluster.rs:29-40 | a node whose supernode's terminals agree is exactly at their voltage, whatever the elements do and whether or not the run settles |
| Results.FlipLoopBounded | board/src/cluster.rs:763-982 | between one and 2N solves; settled exactly at the first whose tests agree; unsettled, every region is off and every current none |
| Results.FlipMovesOne | board/src/cluster.rs:964-980 | each flip moves the lowest-index disagreeing element to the region its test names, and no other |
| Results.ConvergedAgrees | board/src/cluster.rs:902-974 | settled, every element's region is the one its own test names at the voltages of that very answer |
| Answers.RegionByTest | board/src/cluster.rs:902-974 | settled, a channel is on exactly where its control is as far above `b` as asked, or as far below; a diode and a regulator exactly where the drop reaches the knee; a collector is off exactly without its control, and saturated or active by its current against the gain times its base diode's |
| Results.PublishedIsFed | board/src/cluster.rs:984-1012 | a voltage that is no constant is published exactly in a settled run, at a node fed from a source over more than leakage, where there is one operating point, and is that point's |
| Results.UnsettledFloats | board/src/cluster.rs:984-1050 | an unsettled run publishes the terminals' constants and nothing else |
| Answers.PublishedOver | board/src/cluster.rs:984-1012 | in a settled run a node that no terminal holds shows its voltage exactly where wires and elements switched to more than a gigaohm's leakage feed it, each curve's own figures deciding what that is |
| Results.CurrentIsStamps | board/src/cluster.rs:1018-1037 | a settled run reports, for an element, the current its last stamp carries at the circuit's own operating point where both ends are fed over more than leakage, zero where both are reached and one is not fed, and nothing where an end is unreached |
| Answers.CurrentByRegion | board/src/cluster.rs:787-862 | the current a settled answer reports for an element fed at both ends is its curve's own in its region, in volts and ohms: a floored resistance, a drop past the knee over the slope, the regulator's amps, the gain times the base diode's amps, a gigaohm's leakage; zero where leakage alone feeds an end, none where nothing does |
| Kirchhoff.CurrentLaw | board/src/cluster.rs:445-456 | at every published supernode that no terminal holds and whose elements hang between published nodes: what the published volts drive through the declared ohms, into sources and fought terminals, with the currents reported for the elements, is exactly what is injected |
| Results.FedIsReached | board/src/cluster.rs:984-1012 | what is fed over more than leakage is among what the solve reached |
| Results.ParallelOutputs | board/src/cluster.rs:335-341 | regions and currents are as many as the elements exactly when there are none or one of them has both ends in the cluster |
| Results.OutputsShort | board/src/cluster.rs:750-761 | a concrete element with an end outside the cluster whose answer has neither region nor current |
| Results.CurrentInLaw | board/src/cluster.rs:445-456 | a stamp's current read off the voltages is the current Kirchhoff's law counts for it, the controlled source of an active transistor included |
| Results.PassiveSolved | board/src/cluster.rs:20-27 | every solve of a run whose regions have positive conductances and no active transistor has exactly one operating point |
| Results.PassiveRunSolved | board/src/cluster.rs:20-27 | without transistors, regulators' currents positive, no solve of the whole run meets a singular matrix |
| Singular.NetCurrentAffine | board/src/cluster.rs:445-456 | Kirchhoff's sum is affine in the voltages, controlled sources included |
| Singular.SolvedExactlyWhen | board/src/cluster.rs:1107-1113 | every solve of every run finds voltages exactly when the law tells any two grounded voltages apart |
| Singular.CancelledAnswer | board/src/cluster.rs:791-793 | for every regulator of no positive current and every knee, the whole answer at a cluster where it cancels what is beside it: one solve, settled, the reached node floating |
| Singular.CancelledUndetermined | board/src/cluster.rs:791-793 | there the law cannot tell two voltages of the reached node apart |
| Singular.RegulatorSafeExactlyWhen | board/src/cluster.rs:20-27 | a regulator's figures leave every solve of every otherwise passive cluster nonsingular exactly when its current is positive |
| Transistor.CutBalance | board/src/cluster.rs:445-456 | summed over the supernodes behind a cut, the law leaves only what crosses the cut |
| Transistor.GainedDetermined | board/src/cluster.rs:859-874 | a controlled source that takes back less than its base's branch and its own conduct takes nothing from the law's power to tell voltages apart |
| Transistor.ActiveDetermined | board/src/cluster.rs:20-27 | a reached block with one active transistor of enough gain among positive conductances is nonsingular |
| Transistor.OneTransistorRunSolved | board/src/cluster.rs:20-27 | with at most one transistor, of enough gain, and regulators' currents positive, no solve of the whole run meets a singular matrix, whatever regions it goes through |
| Gains.TooLittleSingular | board/src/cluster.rs:859-874 | for every gain that is not enough, a bench whose run, at every answer, reaches the transistor's active region and a singular matrix at its fourth solve |
| Gains.GainSafeExactlyWhen | board/src/cluster.rs:20-27 | a transistor's gain, alone among passive elements, leaves every solve of every run nonsingular exactly when it is enough |
| Latch.LatchRunSingular | board/src/cluster.rs:20-27 | a concrete bench of two cross-coupled transistors, all figures positive: every answer's run meets a singular matrix at its seventh solve, both transistors active |
| Order.OrderDoesNotMatter | board/src/cluster.rs:464-473 | the same resistors, sources, injections and terminals in any order, merged under any root names, give one answer, elements included where outside controls read the same terminal |
| Order.OneAnswer | board/src/cluster.rs:464-473 | a cluster and its inputs have one answer: the solve is a function of them, whichever nodes the union-find makes roots |
| Order.ControlsAgreeExactlyWhen | board/src/cluster.rs:583-596 | every order of the terminals reads the same at every control exactly when each outside control's finite terminals declare one voltage |
| Order.AgreedOrderDoesNotMatter | board/src/cluster.rs:464-473 | where they do, or every control is inside, the answer is one in any order of the parts |
| Order.OutsideControlOrderMatters | board/src/cluster.rs:587-593 | a concrete cluster whose answer changes when two terminals of an outside control node are swapped |
| Wakes.Assembly.constructor | board/src/assembly.rs:85-94 | nothing asked for, nothing armed |
| Wakes.Assembly.OnWakeNs | board/src/assembly.rs:113-118 | a member's handler replaces its last one; a member with no slot changes nothing |
| Wakes.Assembly.ScheduleAtNs | board/src/assembly.rs:120-123 | a one-shot instant is kept and armed on the engine |
| Wakes.Assembly.ScheduleEveryNs | board/src/assembly.rs:125-141 | a period is anchored at the instant it is asked for and its first instant armed; a period of zero changes nothing |
| Wakes.Assembly.DrainOneshots | board/src/assembly.rs:427-433 | exactly the instants at or before now leave, and exactly their members are due |
| Wakes.Assembly.AdvancePeriods | board/src/assembly.rs:434-445 | every due period moves on and no other, its member is due, and its new instant, and no other, is to be armed |
| Wakes.Assembly.DueHandlers | board/src/assembly.rs:446-450 | the handlers of the due members that have one, once each, in member order |
| Wakes.Assembly.Dispatch | board/src/assembly.rs:421-458 | the whole new state of one dispatch, with whatever the called handlers ask for meanwhile |
| Wakes.Assembly.Wake | board/src/engine.rs:5770-5800 | the earliest of the component's entries leaves the wheel and the assembly is dispatched: one step of a run |
| Wakes.Assembly.Drop | board/src/assembly.rs:515-529 | a dropped assembly holds no handler and no instant |
| Wakes.DispatchExactly | board/src/assembly.rs:26-32 | a dispatch at now calls exactly the members with a handler and a request at or before now, each once, in member order, at that instant |
| Wakes.AlwaysArmed | board/src/assembly.rs:28-31 | over any run of schedules, handlers' own included, and dispatches, early or late, every pending one-shot and periodic instant is pending on the engine |
| Wakes.OneshotWaits | board/src/assembly.rs:120-123 | a one-shot request outlives every dispatch before its instant |
| Wakes.OneshotHanded | board/src/assembly.rs:427-457 | the first dispatch at or after a one-shot's instant calls its member's handler |
| Wakes.OneshotOnTime | board/src/assembly.rs:120-123 | on a punctual engine the dispatch that hands a one-shot over is at its own instant |
| Wakes.LateCoalesces | board/src/assembly.rs:35-37 | however many of its instants a dispatch comes after, a period is handed exactly one fire, and its next instant is after the dispatch and at most a period on, unless the clock saturates; a period not yet due is left alone |
| Wakes.PunctualRun | board/src/assembly.rs:35-37 | on a punctual engine the k-th fire of every period is at anchor + k periods, whatever is scheduled in between |
| Asks.AskedAtIsCalled | board/src/assembly.rs:120-123 | from the asking, made from outside or in a handler: the first dispatch at or after the instant asked for calls the asking member's handler, and on a punctual engine it is at that instant |
| Asks.HandlerIsLast | board/src/assembly.rs:113-118 | a member's handler is the one it last gave, through everything but another giving and the drop |
| Asks.AskedAtCallsTheHandler | board/src/assembly.rs:113-123 | so a one-shot calls the very handler given |
| Asks.AskedEveryIsCalled | board/src/assembly.rs:125-141 | from the asking of a period p at clock c: on a punctual engine the dispatch at c + q p has happened by the first one at or after it, for every q, and calls the asking member's handler |
| Asks.DroppedIsSilent | board/src/assembly.rs:515-529 | once dropped, an assembly holds no one-shot and no period, and no step of any run after it calls anyone |
| Uart.Encode | board/src/uart.rs:122-142 | a low start bit, the data bits in wire order, the stop bits, each for a bit period; a frame's whole duration |
| Decoder.UartDecoder.constructor | board/src/uart.rs:165-175 | an idle line, no frame in progress, nothing heard |
| Decoder.UartDecoder.Observe | board/src/uart.rs:184-213 | the whole new decoder after a level: a run counted into bits, a frame closed from the middle of its stop bit on, a frame begun |
| Decoder.UartDecoder.FrameDeadlineNs | board/src/uart.rs:215-224 | the first instant from the start bit on at which a poll closes the frame in progress |
| Decoder.UartDecoder.Poll | board/src/uart.rs:231-241 | a frame whose time is up is closed, and the oldest frame not yet read is taken |
| Decoder.UartDecoder.AbsorbUntil | board/src/uart.rs:255-274 | the level held so far as whole bits, to the nearest, no more than the frame still wants |
| Decoder.UartDecoder.Assemble | board/src/uart.rs:276-314 | the data bits each in its place, or a framing error when a stop bit is low |
| DecoderRuns.AssembledIs | board/src/uart.rs:276-314 | the bits a byte is sent as, least or most significant first, are assembled to that byte |
| DecoderRuns.FrameSpells | board/src/uart.rs:122-142 | on the line a frame is a low level, then levels that spell the byte in binary, high for one, in the framing's order, then high ones |
| DecoderRuns.LowStopRefused | board/src/uart.rs:293-313 | a frame is refused exactly when one of its stop bits is low, for every framing and every pattern of bits |
| DecoderRuns.SampledBetween | board/src/uart.rs:70-89 | with a clock within half a bit a frame, every edge of a frame comes before its stop bit is sampled, and the next frame's start bit not before |
| DecoderRuns.EdgeHeard | board/src/uart.rs:255-274 | whatever runs a frame's levels make, each edge leaves exactly the bits of the runs before it |
| DecoderRuns.AlwaysInStep | board/src/uart.rs:23-24 | for every burst, clock within tolerance, gaps between frames and pattern of reads: what was read and what waits are always the bytes sent, in order, up to the frame on the line |
| DecoderRuns.BurstHeard | board/src/uart.rs:329-405 | read once its last frame is due, the decoder has heard every byte of the burst, in order and whole |
| DecoderRuns.BreakRefused | board/src/uart.rs:293-313 | a line that falls and stays down is heard as one framing error and nothing more |
| Serial.SerialLevelBridge.constructor | board/src/serial_levels.rs:144-164 | an enabled bridge with nothing queued, in flight or armed, and a fresh decoder |
| Serial.SerialLevelBridge.Arm | board/src/serial_levels.rs:187-196 | only an exact repeat of the last asking is dropped; any other instant is put in the slot and armed |
| Serial.SerialLevelBridge.Idle | board/src/serial_levels.rs:246-253 | the line is at its idle level, or released while the output is off |
| Serial.SerialLevelBridge.SwapEnabled | board/src/serial_levels.rs:263-263 | the flag alone, before any lock, and what it held |
| Serial.SerialLevelBridge.ClearQueue | board/src/serial_levels.rs:266-271 | the locked section of a switch-off drops the queue and the frame in flight, whatever the flag is by then |
| Serial.SerialLevelBridge.SetOutputEnabled | board/src/serial_levels.rs:262-273 | with no other thread in between: switching off releases the line and drops the queue and the frame in flight; switching on parks the line; no change is no change |
| Serial.SerialLevelBridge.Enqueue | board/src/serial_levels.rs:289-298 | the locked section of a transmit, which reads no flag: as many bytes as fit are queued in order, the rest shed, and an idle line that took some wants a kick |
| Serial.SerialLevelBridge.Transmit | board/src/serial_levels.rs:285-303 | with no other thread in between: as many bytes as fit are queued in order and the rest counted as shed, all of them while off or shut down; an idle line that took some is kicked |
| Serial.SerialLevelBridge.TxIdle | board/src/serial_levels.rs:308-310 | true exactly with nothing queued, in flight or armed |
| Serial.SerialLevelBridge.TxRoom | board/src/serial_levels.rs:315-318 | how many bytes the queue still takes |
| Serial.SerialLevelBridge.Drain | board/src/serial_levels.rs:439-445 | every frame heard by now, in order, and nothing left of them |
| Serial.SerialLevelBridge.ReceiveSense | board/src/serial_levels.rs:331-348 | a sense with a level is decoded, what is heard by then is returned, and the deadline of the frame left open is asked for through the one slot |
| Serial.SerialLevelBridge.ServiceTx | board/src/serial_levels.rs:383-436 | the whole new transmitter after a wake: the due bit on the line, a new byte framed when the last is out, the next edge on the frame's own grid, the line parked when nothing is left |
| Serial.SerialLevelBridge.DriveBit | board/src/serial_levels.rs:401-434 | one bit of the frame in flight, or of the next byte's, onto the line, and the next edge a bit period after this one was due, not after it was driven |
| Serial.SerialLevelBridge.Clock | board/src/serial_levels.rs:388-436 | the transmitter's locked section of a service, which reads no flag |
| Serial.SerialLevelBridge.Service | board/src/serial_levels.rs:358-380 | frees the delivered slot, clocks the transmitter, returns what the decoder has heard and asks for the sooner of the two directions |
| SerialRuns.RoomIsTaken | board/src/serial_levels.rs:312-318 | no byte is shed of as many as the room allows |
| SerialRuns.TransmitTakes | board/src/serial_levels.rs:285-303 | a transmit takes the beginning of its bytes that 4096 leave room for, and nothing with the output off or shut down |
| SerialRuns.SwitchDoes | board/src/serial_levels.rs:262-273 | switching off drops everything queued and in flight and releases the pin, switching on parks it high and keeps the queue, switching to what it is already does nothing, and no wake asked for is taken back |
| SerialRuns.ClockedShows | board/src/serial_levels.rs:388-434 | what the clocking leaves on the pin: the last level of the stream where it drives, high on a line it parks, and what was there where nothing is due |
| SerialRuns.PinMoves | board/src/serial_levels.rs:246-273 | nothing else moves the pin but whoever parks it, at high or released |
| SerialRuns.PunctualDrains | board/src/serial_levels.rs:388-434 | clocked at its own edges a bridge sends every level of the frame in flight and of every byte queued, in order, one a wake, and is then quiet with the pin high |
| SerialRuns.ClockedStreams | board/src/serial_levels.rs:401-434 | clocking keeps levels driven, bits in flight and frames queued together the frames of the accepted bytes in order, and the queue within its bound |
| SerialRuns.ClockedOnGrid | board/src/serial_levels.rs:389-432 | bit k of a burst is due at anchor + k bit periods, however late its wake |
| SerialRuns.StepKeeps | board/src/serial_levels.rs:275-436 | every flag read, flag swap, locked section and schedule, of any thread, keeps the stream, the grid and an honest slot |
| SerialRuns.AlwaysKept | board/src/serial_levels.rs:275-436 | over every interleaving from a new bridge, whatever its callers do: no byte accepted since the queue was last cleared is lost, reordered or repeated; at most 4096 queued; every bit on its burst's grid; the slot never names an instant the engine will not deliver |
| SerialRuns.StepAttends | board/src/serial_levels.rs:116-124 | a step leaves a transmitter's work without a wake exactly when it is an admitted transmit queueing after a switch-off's clear, the output still off |
| SerialRuns.AttendedExactlyWhen | board/src/serial_levels.rs:116-124 | over every interleaving: no transmitter with work is ever left without a wake at or before its next edge, nor queued to while off, exactly when no such transmit happens |
| SerialRuns.CarefulOwner | board/src/serial_levels.rs:262-303 | an owner that switches off only with no transmit between its flag read and its lock never starves its transmitter, whatever else interleaves |
| SerialRuns.QuietHasSentAll | board/src/serial_levels.rs:305-310 | a line gone quiet has driven every accepted byte's frame, whole and in order |
| SerialRuns.NeverPastTheEdge | board/src/serial_levels.rs:391-394 | on a punctual engine no wake comes past the next bit's edge, although only the sooner of the two directions is armed |
| SerialRuns.DeadlineComes | board/src/serial_levels.rs:342-380 | a wake asked for at the receiver's deadline, by a sense or at the end of a service, stays on the engine until it is delivered, whatever the transmitter asks for beside it |
| SerialRuns.SectionsAreService | board/src/serial_levels.rs:358-380 | the sections of the interleaved machine run back to back are the bridge's own service |
| SerialRuns.SectionsAreTransmit | board/src/serial_levels.rs:285-303 | and its own transmit |
| SerialRuns.SectionsAreSwitch | board/src/serial_levels.rs:262-273 | and its own switching of the output |
| Starvation.StarvedStays | board/src/serial_levels.rs:285-303 | a starved transmitter stays starved through every step but a sense's arm and a switch-off: no transmit gets it going again |
| Starvation.StrayStarves | board/src/serial_levels.rs:262-303 | from any world, a stray transmit can be followed by steps that end with the output on, work queued and no wake coming |
| Starvation.StarvedRun | board/src/serial_levels.rs:262-303 | a whole run from a new bridge, for any two transmits that fit, that ends with both queued on an enabled line, nothing armed and no wake coming |
| Link.LinkHears | board/src/serial_levels.rs:285-434 | over any run of transmits, punctual wakes and reads, a decoder that sees nothing but the pin has heard, once the line is quiet, every byte the transmits handed over that there was room for, in order |
| Link.PinShowsStream | board/src/serial_levels.rs:401-434 | at every moment the pin is at the level the frames of those bytes ask of it, high before the first and after the last |
| Link.RoomTakesAll | board/src/serial_levels.rs:285-303 | what 4096 queued bytes leave room for is all taken |
| Reception.AllHandedOver | board/src/serial_levels.rs:331-380 | whatever senses, senses without a level and services a burst is received by, a service at or after the deadline of the frame on the line has handed over every byte up to it, in order and nothing else |
| Pulses.ClampedOnce | board/src/net.rs:56-68 | the count is the exact floored count clamped once, to the ceiling or to 64 bits, however many saturations on the way |
| Pulses.PulseCounted | board/src/net.rs:56-68 | the n-th pulse of a segment is counted from the instant its own n cycles have run, and not before; the count never passes the ceiling |
| Pulses.RebaseTrails | board/src/net.rs:85-97 | one re-base never leads and trails by at most a pulse from its anchor on; below the ceiling it trails exactly when a pulse straddled the instant |
| Pulses.ChainTrails | board/src/net.rs:85-97 | any chain of n re-bases never leads the original and trails it by at most n pulses at every instant from its anchor on, ceiling and saturation included |
| Pulses.ChainCanTrail | board/src/net.rs:85-97 | the bound is met: two re-bases can cost two pulses |
| Pulses.CompletesAtIsFirst | board/src/net.rs:70-83 | for every running finite train, its count past the ceiling or not: the first instant at or after its anchor at which the count is the ceiling, or the clock's last instant when there is none |
| Pulses.NeverCompletes | board/src/net.rs:70-76 | no completion exactly for an unbounded or held train; a held train's count never moves |
| Receiver.ProjectsTo | board/src/component.rs:288-313 | a projection reads a level exactly when the voltage forces it, or keeps the level last read |
| Receiver.SwingsHold | board/src/component.rs:288-313 | a level once forced stands through any swing of up to the hysteresis short of the other threshold, and from its own threshold, in an unknown dead band, through no longer one |
| Receiver.Levels | board/src/component.rs:432-446 | two cycles of the wave, each phase entered from the level the other left |
| Receiver.TwoCyclesSettle | board/src/component.rs:418-431 | from any last level, any thresholds, two cycles reach the pair every further cycle repeats |
| Receiver.SettlesTo | board/src/component.rs:418-431 | both phases settle to one level exactly when both keep it and it was last read or one of them forces it |
| Receiver.SettlesApart | board/src/component.rs:452-458 | they settle to two levels exactly when both are outside the dead band on opposite sides, whatever was read before |
| Receiver.RateWhen | board/src/component.rs:448-467 | a segment is a rate exactly when it runs and its phases lie outside the band on opposite sides, and the rate is the segment itself |
| Receiver.RateIsItsOwn | board/src/component.rs:455-458 | neither policy, hysteresis nor last level makes a wave a clock or stops it being one |
| Receiver.ReadsTo | board/src/component.rs:470-494 | any delivery, steady or periodic, reads a level exactly when all its voltages keep it and it was last read or one forces it |
| Receiver.ReadsWhatWasForced | board/src/component.rs:1830-1846 | after any deliveries, at whatever thresholds each, a level is read exactly when some delivery forced it and none from it on failed to keep it |
| Receiver.HighWasReached | board/src/component.rs:275-287 | at fixed thresholds a high read means a voltage at or above V_IH was seen and none at or below V_IL since |
| Receiver.LowWasReached | board/src/component.rs:275-287 | a low read means a voltage at or below V_IL was seen and none at or above V_IH since |
| Receiver.DigitalReceiver.constructor | board/src/component.rs:1825-1830 | a receiver that has read nothing |
| Receiver.DigitalReceiver.ReadSense | board/src/component.rs:1836-1845 | reads from the level last read and remembers the result, no level included; its memory is always what its whole history reads |
| Sexp.SkipWs | board/src/netlist.rs:255-272 | only advances, in bounds, to the first byte that is neither white space nor in a comment |
| Sexp.ParseQuoted | board/src/netlist.rs:310-337 | only advances, in bounds, over the atom up to its closing quote, an escaped byte taken as it is; an unclosed one is refused |
| Sexp.ParseBare | board/src/netlist.rs:339-349 | only advances, in bounds, to the next break |
| Sexp.ParseList | board/src/netlist.rs:274-300 | terminates on every byte string, only advances, stays in bounds, and reads the list the grammar's functions read |
| Sexp.ParseSexp | board/src/netlist.rs:243-247 | reads the first list of the input and looks no further |
| SexpText.GapSkipped | board/src/netlist.rs:249-272 | a legal gap is skipped whole and nothing after it |
| SexpText.ItemsRead | board/src/netlist.rs:281-300 | every legal document of a list, whatever its layout, is read as its tree, with whatever follows left over |
| SexpText.ItemsFound | board/src/netlist.rs:281-300 | whatever is read as a list is the text of some legal document with that tree |
| SexpText.ParsesExactly | board/src/netlist.rs:243-349 | on every byte string the parser reads a tree exactly when the string begins with some legal writing of it |
| SexpText.WritesOnce | board/src/netlist.rs:274-349 | no text is a writing of two trees |
| SexpText.PrintedWrites | board/src/netlist.rs:320-327 | the plain printing of a tree, quotes and backslashes escaped, is a legal writing of that tree |
| SexpText.ParserInvertsPrinter | board/src/netlist.rs:243-349 | parsing the printing of any list-rooted tree gives the tree back, whatever bytes its atoms hold |
| SexpFaults.ItemsMore | board/src/netlist.rs:281-300 | a text left open d lists deep is refused with fewer than d closing parentheses after it and read with d, whatever more of them is left over; what is read already is read the same |
| SexpFaults.RefusedExactly | board/src/netlist.rs:274-337 | each refusal is for its own reason: no opening parenthesis where a list should start; a text that some number of closing parentheses would complete; or one that ends in a quotation, which none would |
| Utf8.AtomsStayText | board/src/netlist.rs:302-349 | every atom read from well-formed UTF-8 is well-formed UTF-8, its escapes taken out: the decoding at the closing quote replaces nothing |
| Scalars.WellFormedExactly | board/src/netlist.rs:302-349 | what is meant by well-formed: some Unicode scalar values encoded one after the other (section 3 of RFC 3629) |
| Spaces.TrimTakesSpaces | board/src/netlist.rs:448-450 | trimming takes white space characters off both ends, all of them and nothing else |
| Scalars.SpacesAreWhite | board/src/netlist.rs:448-450 | a character is one trimming takes off exactly when its scalar value has Unicode's White_Space property |
| Netlist.ChildIsFirst | board/src/netlist.rs:204-211 | the child found is the first past the head with the name asked for, and none is found exactly when none has it |
| Netlist.ChildrenInOrder | board/src/netlist.rs:195-202 | the children found are all those past the head with the name asked for, in their order, and no others |
| Netlist.FirstPart | board/src/netlist.rs:429-447 | the first form that names a part number, and none exactly when none does |
| Netlist.PartOf | board/src/netlist.rs:429-450 | a part number, where there is one, is not empty and has no white space at its ends |
| Netlist.PropertyFirst | board/src/netlist.rs:429-450 | the first property that names a part number gives it whatever the fields say, and none where it is blank |
| Netlist.FieldOtherwise | board/src/netlist.rs:435-450 | with no such property it is the last atom of the first field that names one |
| Netlist.ParseNet | board/src/netlist.rs:471-508 | a net's declaration, or the first thing missing from it; no empty list is ever sliced |
| Netlist.Parse | board/src/netlist.rs:359-396 | the netlist an export declares, or the first thing wrong with it, for every input; no empty list is ever sliced |
| Netlist.IgnoredSection | board/src/netlist.rs:26-45 | a section that is not the version, the components or the nets declares nothing, wherever it stands |
| Netlist.NodeReadBack | board/src/netlist.rs:480-505 | a node is read back from its own form, its optional fields present or not |
| Netlist.NetReadBack | board/src/netlist.rs:471-508 | a net is read back from its own form, every node in order |
| Netlist.ComponentReadBack | board/src/netlist.rs:398-461 | a component is read back from its own form, newer or older, the not-placed mark and the part number included |
| Netlist.NetlistReadBack | board/src/netlist.rs:359-396 | every netlist of a supported version whose part numbers are trimmed is read back from its own export, newer or older |
| Netlist.ReadWriteRead | board/src/netlist.rs:359-396 | whatever was read, however it was written, is read again from its own export |
| Netlist.ReadExactlyWhen | board/src/netlist.rs:359-396 | an export is read exactly when its version is "E" and no component, net or node lacks what it must have; any other version is refused by its own name |
| Netlist.BareComponent | board/src/netlist.rs:398-461 | a component that names only itself has empty fields, the root sheet, no mark and no part number |
| Netlist.BareNet | board/src/netlist.rs:471-508 | a net that names only its code has no name and no nodes |
| Netlist.MarkSpellings | board/src/netlist.rs:422-427 | the not-placed mark is a property named dnp in any mix of cases |
| Netlist.PartSpellings | board/src/netlist.rs:463-469 | a property or field is a part number's exactly when its name is one of three, in any mix of cases |
| Natural.TrimmedIsValue | board/src/survey.rs:557-565 | comparing trimmed lengths and then trimmed texts of two digit runs is comparing the numbers they write, of any size |
| Natural.OrderEqual | board/src/survey.rs:541-583 | only identical strings compare equal |
| Natural.OrderReverses | board/src/survey.rs:541-583 | the order is antisymmetric |
| Natural.OrderTransitive | board/src/survey.rs:541-583 | the order is transitive across any mix of digit runs and characters |
| Natural.RunsByValue | board/src/survey.rs:541-543 | after any shared beginning, digit runs compare by the numbers they write, whatever follows, the shorter first of the same number, and only equal runs leave it to what follows |
| Natural.NumbersCounted | board/src/survey.rs:541-543 | decimal numbers in otherwise equal strings are in the order they are counted in, whatever their lengths |
| Natural.CharactersByCode | board/src/survey.rs:573-581 | after any shared beginning that does not end in a digit, two different characters not both digits compare by their codes, whatever follows |
| Natural.BeginningFirst | board/src/survey.rs:546-551 | a string comes before every longer one it begins |
| Natural.SharedPrefix | board/src/survey.rs:541-543 | a shared beginning that does not end in a digit changes nothing |
| Natural.NaturalCmp | board/src/survey.rs:544-583 | terminates on all strings and gives the order of their heads, digit runs by value and then length, other characters by character |
| Natural.SortByPin | board/src/survey.rs:537-537 | the same sites, strictly in pin order |
| Natural.PinSites | board/src/survey.rs:518-539 | one site for each pin named, from the first node to name it, strictly in pin order |
| Natural.OneOrder | board/src/survey.rs:518-539 | the same sites have one listing in pin order |
| Base64.Encode | cdp/src/base64.rs:7-23 | a whole number of quads, 4 * ceil(n / 3) characters, the sextets that carry the bits first, padding after them, and the bits the bytes' own followed by zeros |
| Base64.Decode | cdp/src/base64.rs:27-49 | the whole bytes of the bits the text's alphabet characters carry, what is short of a byte dropped |
| Base64.TableIs | cdp/src/base64.rs:3-41 | the encoder writes and the decoder reads the characters of table 1 of RFC 4648, each for its own six bits |
| Base64.CarriesMore | cdp/src/base64.rs:40-41 | a character of the alphabet adds its six bits and leaves the accumulator below 2^bits; any other changes nothing |
| Base64.CarriesByte | cdp/src/base64.rs:42-46 | a byte leaving the accumulator is the top eight bits, and what stays is below 2^bits |
| Base64.RoundTrips | cdp/src/base64.rs:7-49 | decoding an encoding gives the bytes back, for every byte string |
| Base64.ThereAndBack | cdp/src/base64.rs:7-49 | the two loops run one after the other return what they were given |
| Base64.InsertedIsSkipped | cdp/src/base64.rs:25-39 | inserting characters outside the alphabet anywhere changes no decoding |
| Base64.DecodesOnce | cdp/src/base64.rs:27-49 | a text has one decoding |

## Left out

- Dense.SolveDense: exact reals; the cut-off below which the source refuses a pivot (1e-30), rounding, and the
  final check for a non-finite solution are not modelled: a pivot is refused when it is zero.
- Dense.EliminateBelow: the rows are values replaced whole, where the source updates them in place; aliasing
  between rows is not modelled.
- Circuit.StampFigures: an element's curve parameters and thresholds are finite reals; a NaN or infinity among
  them, or in a resolved voltage, is not modelled.
- Solver.Solve: nodes' states are given in the order of the node list only; the lookup of one node's state
  and the diagnostics built from a solution are not modelled.
- Order.OrderDoesNotMatter: permuting the elements is not covered, because their order decides which flips first.
- Transistor.OneTransistorRunSolved: a condition for clusters of several transistors, beyond
  `Singular.SolvedExactlyWhen`, is not given; by `Latch.LatchRunSingular` there is none in the signs of their figures.
- Wakes.Assembly.Dispatch: handlers are represented by what they ask for; a handler's other effects, and a
  schedule from another thread landing between a dispatch's locked section and its re-arming, are not modelled.
- Wakes.Assembly.Wake: one component's entries only, where the engine delivers every component's.
- Wakes.PunctualRun: the engine is the set of one component's pending instants; its clock, its other components
  and its own periodic entries are not modelled.
- Serial.SerialLevelBridge.ServiceTx: the next edge is an unbounded integer, where the source adds 64-bit words.
- Serial.SerialLevelBridge.Clock: the pin is driven within the locked step, where the source drives it after
  dropping the lock; what voltage a high drives at, and re-driving a quiet line when it changes, are not modelled.
- Serial.SerialLevelBridge.ReceiveSense: how a sense projects to a level comes in as the level.
- Decoder.UartDecoder.Observe: instants are unbounded integers; beyond eight data bits, where the source's shifts
  of an eight-bit value overflow, the model carries on with zeros.
- Kirchhoff.CurrentLaw: a supernode with an element whose other end only leakage feeds is not covered: the answer
  reports zero for that element, where the law counts its leakage.
- Link.LinkHears: the output stays on, and wakes come no later than the edge (`SerialRuns.NeverPastTheEdge`).
- DecoderRuns.BurstHeard: noise and a sender's jitter within a frame are not modelled; its period is constant.
- Receiver.DigitalReceiver.ReadSense: how a pin's thresholds are resolved against its supply, and how a node's
  voltage is measured against the pin's reference, come in as the delivery's own.
- Sexp.ParseList: the byte position inside an error's message, and the depth of the call stack, are not modelled.
- Sexp.ParseQuoted: atoms are bytes; by `Utf8.AtomsStayText` decoding them changes nothing on any text the parser
  is given, which is UTF-8.
- Natural.SortByPin: an insertion sort stands for the library's stable sort, whose result it is by `Natural.OneOrder`.
- The limit and pair watches, the scripted source, an assembly's renaming of its members' pins, the name
  normalisations of a netlist: small checks that would add only easy members.
- The registry, board, project and report layers, the virtual clock's threads, locks and atomics, the
  host-facing plumbing and every parse of a floating-point figure: not modelled.
