# SinusGen — a verified model of the sine generator

`SinusGen(phasebits, valbits)` is an Amaranth circuit that turns an unsigned
phase of `phasebits` bits (its full range standing for `[0, 2π)`) into signed
`cos` and `sin` outputs of `valbits` bits. It stores one octant `[0, π/4]` of
cosine and sine in two read-only memories of `2^(phasebits-3) + 1` words. The
datapath works in four steps:

- It cuts the phase into an octant number (`top_phase`, the top three bits)
  and a sub-phase (`bot_phase`, the rest).
- It folds the sub-phase of every odd octant into the table range
  (`2^(phasebits-3) - bot_phase`).
- It reads both memories through synchronous ports.
- It swaps and negates the two words according to the octant. The octant is
  delayed one clock by `top_phase_delay1` so that it meets the word read for
  the same phase.

The project has two modules:

- `Bits` (`bits.dfy`) gives the integer meaning of the hardware signals:
  - powers of two;
  - bit slices `x[0:n]` and `x >> n`;
  - the unsigned truncation that an assignment to a narrower signal performs;
  - the two's-complement reading of a word as a signed value.
- `Sinusgen` (`sinusgen.dfy`) holds the rest:
  - the phase split, the octant reduction, the tables, the output combiner
    and the whole datapath, as functions;
  - lemmas about all of these;
  - the clocked circuit, as the class `SinusGen` with a `Tick` method.

These are the modelling choices:

- The two tables are parameters, the integer contents of the memories
  (`cosInit`, `sinInit`). A memory keeps the low `valbits` bits of each
  initial value (`MemoryInit`). A port's word, assigned to the signed record
  field, reads as its two's-complement value (`ReadValue`).
- Amaranth widens a signal when it negates it. Only the final assignment to
  the signed `valbits`-bit outputs wraps, and the model applies `WrapSigned`
  there. The lemmas show that when both tables lie in `[0, scale]`:
  - nothing wraps anywhere;
  - the outputs stay in `[-scale, scale]`;
  - negating the most negative value can never happen.
- The clocked state is the delay register and the data registers of the two
  read ports. The delay register starts at 0, the default reset of a plain
  `Signal`. The ports' data registers also start at 0, which is a chosen
  assumption (see "## Left out"). The phase input is unsigned, so the model's
  phase is a `nat` below `2^phasebits`.
- `nm.Memory(width=valbits, ...)` keeps the low `valbits` bits of each
  initial value; nothing is clamped, and the model follows the code.

The functions that model the source's expressions directly are these:
- `MirrorMux` is the multiplexer of design.py:72-73, and `OctantPhase` is its
  value truncated to `octant_phase`.
- `Address` is the read address a phase produces (design.py:47,69-73).
- `CombineCos` and `CombineSin` are the two eight-entry arrays indexed by
  `top_phase_delay1` (design.py:76-85 and 86-95).
- `PhaseOutputs` is the whole datapath for one phase, once the pipeline has
  delivered it (design.py:44-95).

## Model

| member | source | states |
|---|---|---|
| Bits.Truncate | modules/sinusgen/design.py:56-59 | assigning a value to an unsigned signal of `width` bits gives a value below `2^width` |
| Bits.SliceSum | modules/sinusgen/design.py:69 | the low `n` bits plus the shifted high bits times `2^n` rebuild the value |
| Bits.SliceUnique | modules/sinusgen/design.py:69 | a value splits into low bits below `2^n` and high bits in only one way |
| Bits.TruncateFits | modules/sinusgen/design.py:72-73 | a value the unsigned signal can hold is stored unchanged |
| Bits.TruncateNegative | modules/sinusgen/design.py:76-95 | a negative value no smaller than `-2^width` is stored as its two's-complement pattern `x + 2^width` |
| Bits.TruncatePeriodic | modules/sinusgen/design.py:21 | adding any multiple of `2^width` does not change the stored value |
| Bits.AsSigned | modules/sinusgen/design.py:44-48 | the signed reading of an unsigned word is in `[-2^(w-1), 2^(w-1))`, and is the word or the word minus `2^w`; words below `2^(w-1)` are unchanged |
| Bits.WrapSigned | modules/sinusgen/design.py:76-95 | assigning to a signed signal gives a value in `[-2^(w-1), 2^(w-1))` |
| Bits.WrapSignedInRange | modules/sinusgen/design.py:76-95 | assigning a representable value to a signed signal leaves it unchanged |
| Sinusgen.Scale | modules/sinusgen/design.py:37 | the scale is at least 1, below `2^(valbits-1)`, and one less than half of `2^valbits` |
| Sinusgen.Depth | modules/sinusgen/design.py:39 | the table depth is `2^(phasebits-3) + 1`, one entry per sub-phase plus the octant's end point |
| Sinusgen.OctantSpan | modules/sinusgen/design.py:56-58 | the phase range is eight octants of `2^(phasebits-3)` phases each |
| Sinusgen.JoinInRange | modules/sinusgen/design.py:69 | joining an octant below 8 and a sub-phase in range gives a phase below `2^phasebits` |
| Sinusgen.SplitPhase | modules/sinusgen/design.py:56-69 | the octant is below 8, the sub-phase below `2^(phasebits-3)`, and joining them gives back the phase |
| Sinusgen.SplitJoin | modules/sinusgen/design.py:69 | splitting a joined phase gives back the octant and sub-phase it was built from |
| Sinusgen.OctantPhase | modules/sinusgen/design.py:59-73 | the address is a valid table index; in an even octant it is the sub-phase; in an odd octant it is the sub-phase's complement to `2^(phasebits-3)`, so the mirror value never wraps in its `len(bot_phase)+1` bits |
| Sinusgen.MirrorSharesAddress | modules/sinusgen/design.py:72-73 | an even-octant and an odd-octant sub-phase read the same address exactly when they add up to `2^(phasebits-3)` |
| Sinusgen.SameParitySameAddress | modules/sinusgen/design.py:72-73 | the address depends on the octant only through its lowest bit |
| Sinusgen.MemoryInit | modules/sinusgen/design.py:40-43 | a memory keeps one word per initial value, each below `2^valbits` |
| Sinusgen.BuildLut | modules/sinusgen/design.py:38-45 | both memories have the table depth and all their words fit `valbits` bits |
| Sinusgen.ReadValue | modules/sinusgen/design.py:44-48 | the value of a port word in the signed record field is in the signed `valbits`-bit range |
| Sinusgen.StoredEntryReadsBack | modules/sinusgen/design.py:37-48 | an initial value in `[0, scale]` is stored unchanged and reads back through the port as itself |
| Sinusgen.CombinerIsOctantReflection | modules/sinusgen/design.py:76-95 | the eight-entry selection of both outputs equals an independent reflection: swap when bits 0 and 1 of the octant differ, negate cosine when bits 1 and 2 differ, negate sine when bit 2 is set |
| Sinusgen.CombinerPreservesMagnitude | modules/sinusgen/design.py:76-95 | every octant outputs the two magnitudes it is given, possibly swapped, so the squared radius is kept |
| Sinusgen.CombinerBounded | modules/sinusgen/design.py:76-95 | inputs in `[-m, m]` give outputs in `[-m, m]` |
| Sinusgen.CombinerHalfTurn | modules/sinusgen/design.py:76-95 | octant `k+4` negates both outputs of octant `k` |
| Sinusgen.CombinerQuarterTurn | modules/sinusgen/design.py:76-95 | octant `k+2` gives `(-sin, cos)` of octant `k` |
| Sinusgen.CombinerReflection | modules/sinusgen/design.py:76-95 | octant `7-k` gives the same cosine and the negated sine of octant `k` |
| Sinusgen.CombinerBoundaryReflection | modules/sinusgen/design.py:76-95 | at an octant boundary the pair `(c, 0)` or `(c, c)` in octant `k` gives the same cosine and the negated sine in octant `8-k` |
| Sinusgen.Outputs | modules/sinusgen/design.py:76-95 | the combined outputs lie in the signed `valbits`-bit range |
| Sinusgen.PhaseOutputsExact | modules/sinusgen/design.py:37-95 | with tables in `[0, scale]`, the output for a phase is exactly the octant's swap and sign flip of the table entries at the reduced address, and lies in `[-scale, scale]` |
| Sinusgen.PhaseOutputsRadius | modules/sinusgen/design.py:67-95 | the squared radius of the output equals that of the table entry pair it comes from |
| Sinusgen.MirroredPhaseSplit | modules/sinusgen/design.py:69 | when the sub-phase is not zero, phase `2^phasebits - phase` has octant `7 - top` and sub-phase `2^(phasebits-3) - bot` |
| Sinusgen.BoundaryAddress | modules/sinusgen/design.py:72-73 | the boundaries of octants `k` and `8-k` read the same table entry: address 0 for even `k`, the last address for odd `k` |
| Sinusgen.BoundaryMirroredPhaseSplit | modules/sinusgen/design.py:69 | a nonzero phase with sub-phase zero mirrors to octant `8 - top` with sub-phase zero |
| Sinusgen.MirroredSplitAddress | modules/sinusgen/design.py:72-73 | the mirrored octant and sub-phase read the same table address |
| Sinusgen.Reflection | modules/sinusgen/design.py:67-95 | when the sub-phase is not zero, phase `2^phasebits - phase` reads the same address and gives the same cosine and the negated sine |
| Sinusgen.IdealReflection | modules/sinusgen/design.py:72-95 | the mirror property on octant and sub-phase, before wrapping |
| Sinusgen.ReflectionAtBoundary | modules/sinusgen/design.py:67-95 | at a nonzero octant boundary the same mirror property holds when `sin[0] = 0` and the last entries of the two tables are equal |
| Sinusgen.IdealBoundaryReflection | modules/sinusgen/design.py:72-95 | the boundary mirror property on octants `k` and `8-k` at sub-phase zero |
| Sinusgen.HalfTurn | modules/sinusgen/design.py:67-95 | adding half a turn `2^(phasebits-1)` to the phase, modulo `2^phasebits`, negates both outputs |
| Sinusgen.QuarterTurn | modules/sinusgen/design.py:67-95 | adding a quarter turn `2^(phasebits-2)` to the phase, modulo `2^phasebits`, turns `(cos, sin)` into `(-sin, cos)` |
| Sinusgen.TurnAt | modules/sinusgen/design.py:67-95 | a phase whose octant is two or four on from another's, with the same sub-phase, gives that phase's outputs turned by a quarter or a half |
| Sinusgen.IdealTurn | modules/sinusgen/design.py:72-95 | moving two or four octants on, with the same sub-phase, rotates the ideal outputs by a quarter or a half turn |
| Sinusgen.AddOctantsSplit | modules/sinusgen/design.py:21-69 | adding `k` octants to the phase, modulo the phase range, adds `k` to the octant modulo 8 and keeps the sub-phase |
| Sinusgen.AddOctantsJoin | modules/sinusgen/design.py:21-69 | the same, stated on a joined octant and sub-phase |
| Sinusgen.PhasePeriodic | modules/sinusgen/design.py:15-21 | values driven onto the phase signal that differ by a multiple of `2^phasebits` give the same outputs |
| Sinusgen.AxisPhases | modules/sinusgen/design.py:67-95 | when `cos[0] = scale` and `sin[0] = 0`, phases `0`, a quarter, a half and three quarters of a turn give `(scale, 0)`, `(0, scale)`, `(-scale, 0)` and `(0, -scale)` |
| Sinusgen.AxisPhase | modules/sinusgen/design.py:72-95 | the phase at the start of an even octant reads table address 0 |
| Sinusgen.DefaultConfig | modules/sinusgen/design.py:20-39 | the default `SinusGen(8, 8)` has scale 127 and 33 table entries, and a quarter turn is phase 64 |
| Sinusgen.SinusGen.constructor | modules/sinusgen/design.py:20-45 | construction fixes the parameters and the memories; the delay register starts at its reset value 0, the port registers at the assumed 0, so both outputs are 0 |
| Sinusgen.SinusGen.Cos | modules/sinusgen/design.py:76-85 | the `cos` output in the current cycle lies in the signed `valbits`-bit range |
| Sinusgen.SinusGen.Sin | modules/sinusgen/design.py:86-95 | the `sin` output in the current cycle lies in the signed `valbits`-bit range |
| Sinusgen.SinusGen.Tick | modules/sinusgen/design.py:44-95 | one clock edge loads the delay register with the octant and the port registers with the words at the reduced address; afterwards the outputs are the datapath's value for that phase, whatever the earlier state |

## Left out

- Table contents (design.py:40-43): the memories' initial values come from
  `numpy` floating-point cosine and sine with rounding. They are parameters of
  the model, and floating point is not modelled.
- Table facts: the properties that depend on the table values take them as
  hypotheses:
  - entries in `[0, scale]`;
  - `cos[0] = scale` and `sin[0] = 0`;
  - equal last entries.
  The rounded `np.cos`/`np.sin` values are not computed.
- Unit circle: the near-unit-circle property (`cos² + sin² ≈ scale²`) is
  reduced to `PhaseOutputsRadius`, which says the output keeps the squared
  radius of the table pair it reads. The rounding tolerance of that pair is a
  floating-point fact and is not modelled.
- Sinusgen.ValidConfig: the model requires `phasebits >= 4` and
  `valbits >= 2`. The source states no bound. With fewer bits, `bot_phase` or
  the output's magnitude bits are empty and Amaranth's behaviour there is not
  modelled.
- Amaranth's elaboration machinery is not modelled:
  - `Module`, `Record`;
  - submodule registration;
  - the combinational and clock-domain scheduling.
  The read ports are taken as synchronous with one clock of latency, with the
  octant register matching them.
- Sinusgen.SinusGen.constructor: the initial value of the read ports' data
  registers is assumed to be 0. design.py:44 sets no reset for
  `mem.read_port()`, so that value is left to the library: a transparent
  port may start with the memory's first word instead, and the outputs
  before the first clock edge would then be `(cos[0], sin[0])`. After one
  `Tick` the state does not depend on this choice: its ensures fix the whole
  new state from the phase alone.
- The command-line entry point (design.py:100-124) is not modelled: it is
  argument parsing and RTLIL/Verilog file output, which is I/O. The
  simulation script modules/sinusgen/sim.py is not part of this model.
- Sinusgen.SinusGen.Tick: it takes the phase as a value below
  `2^phasebits`, which is what the unsigned input signal can carry. Wider
  integers are reduced with `Truncate` in the lemmas that add to a phase.
