/** The sine generator of modules/sinusgen/design.py: an unsigned phase is
    split into an octant and a sub-phase, the sub-phase is folded into the
    address range of a one-octant lookup table, the table is read through a
    synchronous port, and the value read is swapped and sign-flipped by the
    octant (delayed by one clock to meet the read) to give cosine and sine
    over the full circle. */
module Sinusgen {
  import opened Bits

  /** The construction parameters `phasebits` and `valbits`. */
  datatype Config = Config(phaseBits: nat, valBits: nat)

  /** Three phase bits select the octant and at least one is left for the
      sub-phase; the output keeps a sign bit and at least one magnitude bit. */
  predicate ValidConfig(cfg: Config)
  {
    cfg.phaseBits >= 4 && cfg.valBits >= 2
  }

  /** The width of `bot_phase`. */
  function BotWidth(cfg: Config): nat
    requires ValidConfig(cfg)
  {
    cfg.phaseBits - 3
  }

  /** The width of `octant_phase`, one bit wider than `bot_phase`. */
  function AddrWidth(cfg: Config): nat
    requires ValidConfig(cfg)
  {
    BotWidth(cfg) + 1
  }

  /** The largest table magnitude, `(1 << (valbits - 1)) - 1`. */
  function Scale(cfg: Config): (s: nat)
    requires ValidConfig(cfg)
    ensures 1 <= s < Pow2(cfg.valBits - 1)
    ensures s + 1 == Pow2(cfg.valBits) / 2
  {
    Pow2(cfg.valBits - 1) - 1
  }

  /** The depth of each table, `(1 << (len(octant_phase) - 1)) + 1`. */
  function Depth(cfg: Config): (d: nat)
    requires ValidConfig(cfg)
    ensures d == Pow2(BotWidth(cfg)) + 1
  {
    Pow2(AddrWidth(cfg) - 1) + 1
  }

  // ---------------------------------------------------------------------
  // Phase split: `Cat([bot_phase, top_phase]).eq(self.phase)`

  /** The octant (`top_phase`, three bits) and the sub-phase (`bot_phase`). */
  datatype Split = Split(top: nat, bot: nat)

  predicate SplitInRange(cfg: Config, s: Split)
    requires ValidConfig(cfg)
  {
    s.top < 8 && s.bot < Pow2(BotWidth(cfg))
  }

  /** The phase whose low bits are `bot` and whose top three bits are `top`. */
  function JoinPhase(cfg: Config, s: Split): nat
    requires ValidConfig(cfg)
  {
    s.bot + s.top * Pow2(BotWidth(cfg))
  }

  /** Slices in range concatenate to a phase in range. */
  lemma JoinInRange(cfg: Config, s: Split)
    requires ValidConfig(cfg) && SplitInRange(cfg, s)
    ensures JoinPhase(cfg, s) < Pow2(cfg.phaseBits)
  {
    OctantSpan(cfg);
    PlaceValue(s.bot, s.top, Pow2(BotWidth(cfg)));
  }

  /** The phase circle is eight octants of `2^BotWidth` phase steps each. */
  lemma OctantSpan(cfg: Config)
    requires ValidConfig(cfg)
    ensures Pow2(cfg.phaseBits) == 8 * Pow2(BotWidth(cfg))
  {
    Pow2Add(BotWidth(cfg), 3);
    assert Pow2(3) == 8;
  }

  lemma PlaceValue(b: int, t: int, p: int)
    requires 0 <= b < p && 0 <= t < 8
    ensures 0 <= b + t * p < 8 * p
  {
    MulMonotone(t, 7, p);
  }

  /** The two slices of the phase signal: `top_phase` holds bits
      `[BotWidth, BotWidth + 3)` and `bot_phase` bits `[0, BotWidth)`. */
  function SplitPhase(cfg: Config, phase: nat): (s: Split)
    requires ValidConfig(cfg) && phase < Pow2(cfg.phaseBits)
    ensures SplitInRange(cfg, s)
    ensures JoinPhase(cfg, s) == phase
  {
    PhaseSlices(cfg, phase);
    Split(Truncate(3, ShiftRight(BotWidth(cfg), phase)), Truncate(BotWidth(cfg), phase))
  }

  lemma PhaseSlices(cfg: Config, phase: nat)
    requires ValidConfig(cfg) && phase < Pow2(cfg.phaseBits)
    ensures var w, q := BotWidth(cfg), ShiftRight(BotWidth(cfg), phase);
      0 <= q < 8 && Truncate(3, q) == q && phase == Truncate(w, phase) + q * Pow2(w)
  {
    var w := BotWidth(cfg);
    var q := ShiftRight(w, phase);
    OctantSpan(cfg);
    SliceSum(w, phase);
    HighPartBound(phase, Truncate(w, phase), q, Pow2(w));
    assert Pow2(3) == 8;
    TruncateFits(3, q);
  }

  lemma HighPartBound(x: int, r: int, q: int, p: int)
    requires 0 <= r < p && 0 <= x < 8 * p && x == r + q * p
    ensures 0 <= q < 8
  {
    if q >= 8 {
      MulMonotone(8, q, p);
    } else if q < 0 {
      MulMonotone(q, -1, p);
    }
  }

  /** Splitting re-concatenated slices gives back the slices. */
  lemma SplitJoin(cfg: Config, s: Split)
    requires ValidConfig(cfg) && SplitInRange(cfg, s)
    ensures JoinPhase(cfg, s) < Pow2(cfg.phaseBits) && SplitPhase(cfg, JoinPhase(cfg, s)) == s
  {
    var phase := JoinPhase(cfg, s);
    JoinInRange(cfg, s);
    SliceUnique(BotWidth(cfg), phase, s.top, s.bot);
    assert Pow2(3) == 8;
    TruncateFits(3, s.top);
  }

  // ---------------------------------------------------------------------
  // Octant reduction: `octant_phase.eq(Mux(~top_phase[0], bot_phase,
  // (1 << len(bot_phase)) - bot_phase))`

  /** The value the multiplexer drives: the sub-phase in an even octant, its
      mirror image in an odd one. */
  function MirrorMux(cfg: Config, s: Split): int
    requires ValidConfig(cfg)
  {
    if s.top % 2 == 0 then s.bot else Pow2(BotWidth(cfg)) - s.bot
  }

  /** The table address `octant_phase`, the multiplexer value stored into a
      signal of `AddrWidth` bits. Nothing is lost in the store, and the
      address is always inside the table. */
  function OctantPhase(cfg: Config, s: Split): (a: nat)
    requires ValidConfig(cfg) && SplitInRange(cfg, s)
    ensures a <= Pow2(BotWidth(cfg)) && a < Depth(cfg)
    ensures s.top % 2 == 0 ==> a == s.bot
    ensures s.top % 2 == 1 ==> a + s.bot == Pow2(BotWidth(cfg))
  {
    assert Pow2(AddrWidth(cfg)) == 2 * Pow2(BotWidth(cfg));
    TruncateFits(AddrWidth(cfg), MirrorMux(cfg, s));
    Truncate(AddrWidth(cfg), MirrorMux(cfg, s))
  }

  /** The table address that a phase presents to the read ports. */
  function Address(cfg: Config, phase: nat): nat
    requires ValidConfig(cfg) && phase < Pow2(cfg.phaseBits)
  {
    OctantPhase(cfg, SplitPhase(cfg, phase))
  }

  /** Phases in an adjacent octant pair visit the same address when their
      sub-phases are mirror images, and only then. */
  lemma MirrorSharesAddress(cfg: Config, s: Split, t: Split)
    requires ValidConfig(cfg) && SplitInRange(cfg, s) && SplitInRange(cfg, t)
    requires s.top % 2 == 0 && t.top % 2 == 1
    ensures OctantPhase(cfg, s) == OctantPhase(cfg, t) <==> s.bot + t.bot == Pow2(BotWidth(cfg))
  {
  }

  // ---------------------------------------------------------------------
  // Lookup tables: `build_lut`

  /** The words held by the cosine and the sine memory. */
  datatype Lut = Lut(cosWords: seq<nat>, sinWords: seq<nat>)

  predicate LutValid(cfg: Config, lut: Lut)
    requires ValidConfig(cfg)
  {
    |lut.cosWords| == Depth(cfg) && |lut.sinWords| == Depth(cfg) &&
    (forall i :: 0 <= i < |lut.cosWords| ==> lut.cosWords[i] < Pow2(cfg.valBits)) &&
    (forall i :: 0 <= i < |lut.sinWords| ==> lut.sinWords[i] < Pow2(cfg.valBits))
  }

  /** The contents of a memory `valbits` wide initialised from `init`. */
  function MemoryInit(cfg: Config, init: seq<int>): (words: seq<nat>)
    requires ValidConfig(cfg)
    ensures |words| == |init|
    ensures forall i :: 0 <= i < |words| ==> words[i] < Pow2(cfg.valBits)
  {
    seq(|init|, i requires 0 <= i < |init| => Truncate(cfg.valBits, init[i]))
  }

  /** Both memories, from the integer initial values of the cosine and the
      sine table. */
  function BuildLut(cfg: Config, cosInit: seq<int>, sinInit: seq<int>): (lut: Lut)
    requires ValidConfig(cfg) && |cosInit| == Depth(cfg) && |sinInit| == Depth(cfg)
    ensures LutValid(cfg, lut)
  {
    Lut(MemoryInit(cfg, cosInit), MemoryInit(cfg, sinInit))
  }

  /** The value of the signed `valbits` record field driven by a read port. */
  function ReadValue(cfg: Config, word: nat): (v: int)
    requires ValidConfig(cfg) && word < Pow2(cfg.valBits)
    ensures -(Pow2(cfg.valBits - 1) as int) <= v < Pow2(cfg.valBits - 1)
  {
    WrapSigned(cfg.valBits, word)
  }

  /** Every entry lies in `[0, scale]`, as the first-octant cosine and sine
      rounded at that scale do. */
  predicate TableInRange(cfg: Config, init: seq<int>)
    requires ValidConfig(cfg)
  {
    |init| == Depth(cfg) && forall i :: 0 <= i < |init| ==> 0 <= init[i] <= Scale(cfg)
  }

  /** An entry in `[0, scale]` is stored and read back unchanged. */
  lemma StoredEntryReadsBack(cfg: Config, init: seq<int>, i: nat)
    requires ValidConfig(cfg) && TableInRange(cfg, init) && i < |init|
    ensures MemoryInit(cfg, init)[i] == init[i]
    ensures ReadValue(cfg, MemoryInit(cfg, init)[i]) == init[i]
  {
    Pow2Monotone(cfg.valBits - 1, cfg.valBits);
    TruncateFits(cfg.valBits, init[i]);
    WrapSignedInRange(cfg.valBits, init[i]);
  }

  // ---------------------------------------------------------------------
  // Output combiner: the two eight-entry arrays indexed by the delayed octant

  /** Entry `oct` of the array (cos_, sin_, -sin_, -cos_, -cos_, -sin_,
      sin_, cos_) that drives `self.cos`. */
  function CombineCos(oct: nat, c: int, s: int): int
    requires oct < 8
  {
    match oct
    case 0 => c
    case 1 => s
    case 2 => -s
    case 3 => -c
    case 4 => -c
    case 5 => -s
    case 6 => s
    case _ => c
  }

  /** Entry `oct` of the array (sin_, cos_, cos_, sin_, -sin_, -cos_,
      -cos_, -sin_) that drives `self.sin`. */
  function CombineSin(oct: nat, c: int, s: int): int
    requires oct < 8
  {
    match oct
    case 0 => s
    case 1 => c
    case 2 => c
    case 3 => s
    case 4 => -s
    case 5 => -c
    case 6 => -c
    case _ => -s
  }

  /** A reflection of the plane: optionally swap the two components, then
      optionally negate each. */
  datatype Transform = Transform(swap: bool, negCos: bool, negSin: bool)

  /** The reflection that takes the first octant onto octant `oct`, from the
      octant's three bits: the components swap when bits 0 and 1 differ, the
      cosine is negated when bits 1 and 2 differ, and the sine is negated in
      the lower half-plane (bit 2 set). */
  function OctantTransform(oct: nat): Transform
    requires oct < 8
  {
    var b0, b1, b2 := oct % 2 == 1, (oct / 2) % 2 == 1, oct / 4 == 1;
    Transform(b0 != b1, b1 != b2, b2)
  }

  function Negate(neg: bool, x: int): int
  {
    if neg then -x else x
  }

  function ApplyTransform(t: Transform, c: int, s: int): (int, int)
  {
    var (x, y) := if t.swap then (s, c) else (c, s);
    (Negate(t.negCos, x), Negate(t.negSin, y))
  }

  /** The output arrays implement, octant by octant, the swap and sign
      flips the octant's bits call for. */
  lemma CombinerIsOctantReflection(oct: nat, c: int, s: int)
    requires oct < 8
    ensures (CombineCos(oct, c, s), CombineSin(oct, c, s)) == ApplyTransform(OctantTransform(oct), c, s)
  {
    assert oct == 0 || oct == 1 || oct == 2 || oct == 3 || oct == 4 || oct == 5 || oct == 6 || oct == 7;
  }

  function Abs(x: int): nat
  {
    if x < 0 then -x else x
  }

  /** The combiner only permutes and negates: the two output magnitudes are
      the two input magnitudes, so the squared radius is kept. */
  lemma CombinerPreservesMagnitude(oct: nat, c: int, s: int)
    requires oct < 8
    ensures multiset{Abs(CombineCos(oct, c, s)), Abs(CombineSin(oct, c, s))} == multiset{Abs(c), Abs(s)}
    ensures CombineCos(oct, c, s) * CombineCos(oct, c, s) + CombineSin(oct, c, s) * CombineSin(oct, c, s)
         == c * c + s * s
  {
    var co, so := CombineCos(oct, c, s), CombineSin(oct, c, s);
    PermutesMagnitudes(oct, c, s);
    if Abs(co) == Abs(s) && Abs(so) == Abs(c) {
      assert multiset{Abs(s), Abs(c)} == multiset{Abs(c), Abs(s)};
    }
    AbsSquare(co);
    AbsSquare(so);
    AbsSquare(c);
    AbsSquare(s);
  }

  lemma PermutesMagnitudes(oct: nat, c: int, s: int)
    requires oct < 8
    ensures var co, so := CombineCos(oct, c, s), CombineSin(oct, c, s);
      (Abs(co) == Abs(c) && Abs(so) == Abs(s)) || (Abs(co) == Abs(s) && Abs(so) == Abs(c))
  {
  }

  lemma AbsSquare(x: int)
    ensures x * x == Abs(x) * Abs(x)
  {
  }

  /** Each output lies within the bound that holds both inputs. */
  lemma CombinerBounded(oct: nat, c: int, s: int, m: int)
    requires oct < 8 && -m <= c <= m && -m <= s <= m
    ensures -m <= CombineCos(oct, c, s) <= m && -m <= CombineSin(oct, c, s) <= m
  {
  }

  /** Octant `oct + 4` (mod 8) is octant `oct` turned by half a circle. */
  lemma CombinerHalfTurn(oct: nat, c: int, s: int)
    requires oct < 8
    ensures CombineCos((oct + 4) % 8, c, s) == -CombineCos(oct, c, s)
    ensures CombineSin((oct + 4) % 8, c, s) == -CombineSin(oct, c, s)
  {
  }

  /** Octant `oct + 2` (mod 8) is octant `oct` turned by a quarter circle:
      cos(x + pi/2) == -sin(x) and sin(x + pi/2) == cos(x). */
  lemma CombinerQuarterTurn(oct: nat, c: int, s: int)
    requires oct < 8
    ensures CombineCos((oct + 2) % 8, c, s) == -CombineSin(oct, c, s)
    ensures CombineSin((oct + 2) % 8, c, s) == CombineCos(oct, c, s)
  {
  }

  /** Octant `7 - oct` is octant `oct` mirrored in the horizontal axis. */
  lemma CombinerReflection(oct: nat, c: int, s: int)
    requires oct < 8
    ensures CombineCos(7 - oct, c, s) == CombineCos(oct, c, s)
    ensures CombineSin(7 - oct, c, s) == -CombineSin(oct, c, s)
  {
  }

  /** Octant `8 - oct` on its boundary is octant `oct` on its boundary
      mirrored in the horizontal axis, when the entry read there is that of
      angle 0 (sine zero) for an even octant and that of angle pi/4 (cosine
      equal to sine) for an odd one. */
  lemma CombinerBoundaryReflection(oct: nat, c: int, s: int)
    requires 1 <= oct < 8
    requires oct % 2 == 0 ==> s == 0
    requires oct % 2 == 1 ==> c == s
    ensures CombineCos(8 - oct, c, s) == CombineCos(oct, c, s)
    ensures CombineSin(8 - oct, c, s) == -CombineSin(oct, c, s)
  {
  }

  // ---------------------------------------------------------------------
  // The whole datapath

  /** One value of the (`cos`, `sin`) output pair. */
  datatype Sample = Sample(cos: int, sin: int)

  /** The combinational outputs `self.cos` and `self.sin`, from the delayed
      octant and the two words the read ports hold. */
  function Outputs(cfg: Config, delayed: nat, cosWord: nat, sinWord: nat): (o: Sample)
    requires ValidConfig(cfg) && delayed < 8
    requires cosWord < Pow2(cfg.valBits) && sinWord < Pow2(cfg.valBits)
    ensures -(Pow2(cfg.valBits - 1) as int) <= o.cos < Pow2(cfg.valBits - 1)
    ensures -(Pow2(cfg.valBits - 1) as int) <= o.sin < Pow2(cfg.valBits - 1)
  {
    var c, s := ReadValue(cfg, cosWord), ReadValue(cfg, sinWord);
    Sample(WrapSigned(cfg.valBits, CombineCos(delayed, c, s)),
           WrapSigned(cfg.valBits, CombineSin(delayed, c, s)))
  }

  /** The outputs once `phase` has passed the one-clock pipeline: the octant
      and the table words both come from that same phase. */
  function PhaseOutputs(cfg: Config, lut: Lut, phase: nat): Sample
    requires ValidConfig(cfg) && LutValid(cfg, lut) && phase < Pow2(cfg.phaseBits)
  {
    var a := Address(cfg, phase);
    Outputs(cfg, SplitPhase(cfg, phase).top, lut.cosWords[a], lut.sinWords[a])
  }

  /** Both tables in `[0, scale]`. */
  predicate TablesInRange(cfg: Config, cosInit: seq<int>, sinInit: seq<int>)
    requires ValidConfig(cfg)
  {
    TableInRange(cfg, cosInit) && TableInRange(cfg, sinInit)
  }

  /** What the datapath computes for the slices `s` when nothing wraps: the
      combiner applied to the table entries at the reduced address. */
  function IdealOutputs(cfg: Config, cosInit: seq<int>, sinInit: seq<int>, s: Split): Sample
    requires ValidConfig(cfg) && TablesInRange(cfg, cosInit, sinInit) && SplitInRange(cfg, s)
  {
    var a := OctantPhase(cfg, s);
    Sample(CombineCos(s.top, cosInit[a], sinInit[a]), CombineSin(s.top, cosInit[a], sinInit[a]))
  }

  /** With tables in `[0, scale]` nothing on the way wraps: the outputs are
      exactly the combiner applied to the table entries at the reduced
      address, and lie in `[-scale, scale]`, so no negation reaches the
      unrepresentable `-2^(valbits-1)`. */
  lemma PhaseOutputsExact(cfg: Config, cosInit: seq<int>, sinInit: seq<int>, phase: nat)
    requires ValidConfig(cfg) && TablesInRange(cfg, cosInit, sinInit) && phase < Pow2(cfg.phaseBits)
    ensures PhaseOutputs(cfg, BuildLut(cfg, cosInit, sinInit), phase)
         == IdealOutputs(cfg, cosInit, sinInit, SplitPhase(cfg, phase))
    ensures var o := PhaseOutputs(cfg, BuildLut(cfg, cosInit, sinInit), phase);
      -(Scale(cfg) as int) <= o.cos <= Scale(cfg) && -(Scale(cfg) as int) <= o.sin <= Scale(cfg)
  {
    var s, a := SplitPhase(cfg, phase), Address(cfg, phase);
    var m := Scale(cfg);
    StoredEntryReadsBack(cfg, cosInit, a);
    StoredEntryReadsBack(cfg, sinInit, a);
    var c, t := cosInit[a], sinInit[a];
    CombinerBounded(s.top, c, t, m);
    WrapSignedInRange(cfg.valBits, CombineCos(s.top, c, t));
    WrapSignedInRange(cfg.valBits, CombineSin(s.top, c, t));
  }

  /** The squared radius of every output is that of the table entry pair it
      comes from. */
  lemma PhaseOutputsRadius(cfg: Config, cosInit: seq<int>, sinInit: seq<int>, phase: nat)
    requires ValidConfig(cfg) && TablesInRange(cfg, cosInit, sinInit) && phase < Pow2(cfg.phaseBits)
    ensures var a, o := Address(cfg, phase), PhaseOutputs(cfg, BuildLut(cfg, cosInit, sinInit), phase);
      o.cos * o.cos + o.sin * o.sin == cosInit[a] * cosInit[a] + sinInit[a] * sinInit[a]
  {
    PhaseOutputsExact(cfg, cosInit, sinInit, phase);
    CombinerPreservesMagnitude(SplitPhase(cfg, phase).top, cosInit[Address(cfg, phase)], sinInit[Address(cfg, phase)]);
  }

  /** The phase `2^phasebits - phase`, the angle mirrored in the horizontal
      axis, splits into the complementary octant and the mirrored sub-phase. */
  lemma MirroredPhaseSplit(cfg: Config, phase: nat)
    requires ValidConfig(cfg) && 0 < phase < Pow2(cfg.phaseBits)
    requires SplitPhase(cfg, phase).bot != 0
    ensures var s, w := SplitPhase(cfg, phase), Pow2(BotWidth(cfg));
      SplitPhase(cfg, Pow2(cfg.phaseBits) - phase) == Split(7 - s.top, w - s.bot)
  {
    var s, w := SplitPhase(cfg, phase), Pow2(BotWidth(cfg));
    var m := Split(7 - s.top, w - s.bot);
    OctantSpan(cfg);
    MirrorArith(s.bot, s.top, w);
    assert JoinPhase(cfg, m) == Pow2(cfg.phaseBits) - phase;
    SplitJoin(cfg, m);
  }

  lemma MirrorArith(b: int, t: int, w: int)
    ensures (w - b) + (7 - t) * w == 8 * w - (b + t * w)
  {
  }

  /** Mirror symmetry: for a phase whose sub-phase is not zero, the phase
      `2^phasebits - phase` reads the same table address and gives the same
      cosine and the negated sine. */
  lemma Reflection(cfg: Config, cosInit: seq<int>, sinInit: seq<int>, phase: nat)
    requires ValidConfig(cfg) && TablesInRange(cfg, cosInit, sinInit)
    requires 0 < phase < Pow2(cfg.phaseBits) && SplitPhase(cfg, phase).bot != 0
    ensures Address(cfg, Pow2(cfg.phaseBits) - phase) == Address(cfg, phase)
    ensures var lut := BuildLut(cfg, cosInit, sinInit);
      var o, r := PhaseOutputs(cfg, lut, phase), PhaseOutputs(cfg, lut, Pow2(cfg.phaseBits) - phase);
      r == Sample(o.cos, -o.sin)
  {
    var q, lut := Pow2(cfg.phaseBits) - phase, BuildLut(cfg, cosInit, sinInit);
    var s := SplitPhase(cfg, phase);
    var m := Split(7 - s.top, Pow2(BotWidth(cfg)) - s.bot);
    MirroredPhaseSplit(cfg, phase);
    assert SplitPhase(cfg, q) == m;
    IdealReflection(cfg, cosInit, sinInit, s);
    var o := IdealOutputs(cfg, cosInit, sinInit, s);
    assert PhaseOutputs(cfg, lut, phase) == o by {
      PhaseOutputsExact(cfg, cosInit, sinInit, phase);
    }
    assert PhaseOutputs(cfg, lut, q) == IdealOutputs(cfg, cosInit, sinInit, m) by {
      PhaseOutputsExact(cfg, cosInit, sinInit, q);
    }
  }

  lemma IdealReflection(cfg: Config, cosInit: seq<int>, sinInit: seq<int>, s: Split)
    requires ValidConfig(cfg) && TablesInRange(cfg, cosInit, sinInit) && SplitInRange(cfg, s) && s.bot != 0
    ensures var m := Split(7 - s.top, Pow2(BotWidth(cfg)) - s.bot);
      SplitInRange(cfg, m) && OctantPhase(cfg, m) == OctantPhase(cfg, s) &&
      IdealOutputs(cfg, cosInit, sinInit, m)
        == Sample(IdealOutputs(cfg, cosInit, sinInit, s).cos, -IdealOutputs(cfg, cosInit, sinInit, s).sin)
  {
    var m := Split(7 - s.top, Pow2(BotWidth(cfg)) - s.bot);
    MirroredSplitAddress(cfg, s);
    var a := OctantPhase(cfg, s);
    CombinerReflection(s.top, cosInit[a], sinInit[a]);
  }

  /** The mirrored slices read the same table address. */
  lemma MirroredSplitAddress(cfg: Config, s: Split)
    requires ValidConfig(cfg) && SplitInRange(cfg, s) && s.bot != 0
    ensures var m := Split(7 - s.top, Pow2(BotWidth(cfg)) - s.bot);
      SplitInRange(cfg, m) && OctantPhase(cfg, m) == OctantPhase(cfg, s)
  {
    var w := Pow2(BotWidth(cfg));
    var m := Split(7 - s.top, w - s.bot);
    if s.top % 2 == 0 {
      assert m.top % 2 == 1;
      assert OctantPhase(cfg, s) == s.bot;
      assert OctantPhase(cfg, m) + m.bot == w;
    } else {
      assert m.top % 2 == 0;
      assert OctantPhase(cfg, m) == m.bot;
      assert OctantPhase(cfg, s) + s.bot == w;
    }
  }

  /** Mirror symmetry at the octant boundaries (sub-phase zero) as well,
      given the table endpoints the trigonometric contents have:
      `sin(0) == 0` and `cos(pi/4) == sin(pi/4)`. */
  lemma ReflectionAtBoundary(cfg: Config, cosInit: seq<int>, sinInit: seq<int>, phase: nat)
    requires ValidConfig(cfg) && TablesInRange(cfg, cosInit, sinInit)
    requires sinInit[0] == 0 && cosInit[Depth(cfg) - 1] == sinInit[Depth(cfg) - 1]
    requires 0 < phase < Pow2(cfg.phaseBits) && SplitPhase(cfg, phase).bot == 0
    ensures var lut := BuildLut(cfg, cosInit, sinInit);
      var o, r := PhaseOutputs(cfg, lut, phase), PhaseOutputs(cfg, lut, Pow2(cfg.phaseBits) - phase);
      r == Sample(o.cos, -o.sin)
  {
    var q, lut := Pow2(cfg.phaseBits) - phase, BuildLut(cfg, cosInit, sinInit);
    var s := SplitPhase(cfg, phase);
    var m := Split(8 - s.top, 0);
    assert 1 <= s.top && SplitPhase(cfg, q) == m by {
      BoundaryMirroredPhaseSplit(cfg, phase);
    }
    assert s == Split(s.top, 0);
    var o, r := IdealOutputs(cfg, cosInit, sinInit, s), IdealOutputs(cfg, cosInit, sinInit, m);
    assert r == Sample(o.cos, -o.sin) by {
      IdealBoundaryReflection(cfg, cosInit, sinInit, s.top);
    }
    assert PhaseOutputs(cfg, lut, phase) == o by {
      PhaseOutputsExact(cfg, cosInit, sinInit, phase);
    }
    assert PhaseOutputs(cfg, lut, q) == r by {
      PhaseOutputsExact(cfg, cosInit, sinInit, q);
    }
  }

  lemma IdealBoundaryReflection(cfg: Config, cosInit: seq<int>, sinInit: seq<int>, top: nat)
    requires ValidConfig(cfg) && TablesInRange(cfg, cosInit, sinInit) && 1 <= top < 8
    requires sinInit[0] == 0 && cosInit[Depth(cfg) - 1] == sinInit[Depth(cfg) - 1]
    ensures var s, m := Split(top, 0), Split(8 - top, 0);
      SplitInRange(cfg, s) && SplitInRange(cfg, m) &&
      IdealOutputs(cfg, cosInit, sinInit, m)
        == Sample(IdealOutputs(cfg, cosInit, sinInit, s).cos, -IdealOutputs(cfg, cosInit, sinInit, s).sin)
  {
    var s, m := Split(top, 0), Split(8 - top, 0);
    BoundaryAddress(cfg, top);
    var a := OctantPhase(cfg, s);
    var c, t := cosInit[a], sinInit[a];
    assert top % 2 == 0 ==> t == 0;
    assert top % 2 == 1 ==> c == t;
    assert IdealOutputs(cfg, cosInit, sinInit, s) == Sample(CombineCos(top, c, t), CombineSin(top, c, t));
    assert IdealOutputs(cfg, cosInit, sinInit, m) == Sample(CombineCos(8 - top, c, t), CombineSin(8 - top, c, t));
    CombinerBoundaryReflection(top, c, t);
  }

  /** Octant boundaries `top` and `8 - top` read the same end of the table. */
  lemma BoundaryAddress(cfg: Config, top: nat)
    requires ValidConfig(cfg) && 1 <= top < 8
    ensures var s, m := Split(top, 0), Split(8 - top, 0);
      SplitInRange(cfg, s) && SplitInRange(cfg, m) &&
      OctantPhase(cfg, m) == OctantPhase(cfg, s) &&
      OctantPhase(cfg, s) == if top % 2 == 0 then 0 else Depth(cfg) - 1
  {
    var s, m := Split(top, 0), Split(8 - top, 0);
    SameParitySameAddress(cfg, s, m);
  }

  /** A nonzero phase on an octant boundary, mirrored, lands on the boundary
      of octant `8 - top`. */
  lemma BoundaryMirroredPhaseSplit(cfg: Config, phase: nat)
    requires ValidConfig(cfg) && 0 < phase < Pow2(cfg.phaseBits)
    requires SplitPhase(cfg, phase).bot == 0
    ensures var s := SplitPhase(cfg, phase);
      1 <= s.top && SplitPhase(cfg, Pow2(cfg.phaseBits) - phase) == Split(8 - s.top, 0)
  {
    var s, w := SplitPhase(cfg, phase), Pow2(BotWidth(cfg));
    assert phase == s.top * w;
    assert s.top >= 1;
    var m := Split(8 - s.top, 0);
    assert JoinPhase(cfg, m) == Pow2(cfg.phaseBits) - phase by {
      OctantSpan(cfg);
      BoundaryArith(s.top, w);
    }
    SplitJoin(cfg, m);
  }

  lemma BoundaryArith(t: int, w: int)
    ensures 0 + (8 - t) * w == 8 * w - t * w
  {
  }

  /** Adding half a turn to the phase (with the phase signal's wrap-around)
      negates both outputs. */
  lemma HalfTurn(cfg: Config, cosInit: seq<int>, sinInit: seq<int>, phase: nat)
    requires ValidConfig(cfg) && TablesInRange(cfg, cosInit, sinInit) && phase < Pow2(cfg.phaseBits)
    ensures var lut := BuildLut(cfg, cosInit, sinInit);
      var o := PhaseOutputs(cfg, lut, phase);
      var r := PhaseOutputs(cfg, lut, Truncate(cfg.phaseBits, phase + Pow2(cfg.phaseBits - 1)));
      r == Sample(-o.cos, -o.sin)
  {
    HalfTurnSplit(cfg, phase);
    TurnAt(cfg, cosInit, sinInit, phase, Truncate(cfg.phaseBits, phase + Pow2(cfg.phaseBits - 1)), 4);
  }

  /** Adding a quarter turn to the phase maps (cos, sin) to (-sin, cos). */
  lemma QuarterTurn(cfg: Config, cosInit: seq<int>, sinInit: seq<int>, phase: nat)
    requires ValidConfig(cfg) && TablesInRange(cfg, cosInit, sinInit) && phase < Pow2(cfg.phaseBits)
    ensures var lut := BuildLut(cfg, cosInit, sinInit);
      var o := PhaseOutputs(cfg, lut, phase);
      var r := PhaseOutputs(cfg, lut, Truncate(cfg.phaseBits, phase + Pow2(cfg.phaseBits - 2)));
      r == Sample(-o.sin, o.cos)
  {
    QuarterTurnSplit(cfg, phase);
    TurnAt(cfg, cosInit, sinInit, phase, Truncate(cfg.phaseBits, phase + Pow2(cfg.phaseBits - 2)), 2);
  }

  /** A phase `q` whose octant is `k` (two or four) on from that of `phase`,
      with the same sub-phase, gives the outputs of `phase` turned by a
      quarter or a half. */
  lemma TurnAt(cfg: Config, cosInit: seq<int>, sinInit: seq<int>, phase: nat, q: nat, k: nat)
    requires ValidConfig(cfg) && TablesInRange(cfg, cosInit, sinInit)
    requires phase < Pow2(cfg.phaseBits) && q < Pow2(cfg.phaseBits) && (k == 2 || k == 4)
    requires SplitPhase(cfg, q) == Split((SplitPhase(cfg, phase).top + k) % 8, SplitPhase(cfg, phase).bot)
    ensures var lut := BuildLut(cfg, cosInit, sinInit);
      var o, r := PhaseOutputs(cfg, lut, phase), PhaseOutputs(cfg, lut, q);
      (k == 2 ==> r == Sample(-o.sin, o.cos)) && (k == 4 ==> r == Sample(-o.cos, -o.sin))
  {
    var s, lut := SplitPhase(cfg, phase), BuildLut(cfg, cosInit, sinInit);
    var m := Split((s.top + k) % 8, s.bot);
    var o := IdealOutputs(cfg, cosInit, sinInit, s);
    assert IdealOutputs(cfg, cosInit, sinInit, m)
        == if k == 2 then Sample(-o.sin, o.cos) else Sample(-o.cos, -o.sin) by {
      IdealTurn(cfg, cosInit, sinInit, s, k);
    }
    assert PhaseOutputs(cfg, lut, phase) == o by {
      PhaseOutputsExact(cfg, cosInit, sinInit, phase);
    }
    assert PhaseOutputs(cfg, lut, q) == IdealOutputs(cfg, cosInit, sinInit, m) by {
      PhaseOutputsExact(cfg, cosInit, sinInit, q);
    }
  }

  lemma HalfTurnSplit(cfg: Config, phase: nat)
    requires ValidConfig(cfg) && phase < Pow2(cfg.phaseBits)
    ensures var s, q := SplitPhase(cfg, phase), Truncate(cfg.phaseBits, phase + Pow2(cfg.phaseBits - 1));
      SplitPhase(cfg, q) == Split((s.top + 4) % 8, s.bot)
  {
    HalfTurnSpan(cfg);
    AddOctantsSplit(cfg, phase, 4, Pow2(cfg.phaseBits - 1));
  }

  lemma QuarterTurnSplit(cfg: Config, phase: nat)
    requires ValidConfig(cfg) && phase < Pow2(cfg.phaseBits)
    ensures var s, q := SplitPhase(cfg, phase), Truncate(cfg.phaseBits, phase + Pow2(cfg.phaseBits - 2));
      SplitPhase(cfg, q) == Split((s.top + 2) % 8, s.bot)
  {
    QuarterTurnSpan(cfg);
    AddOctantsSplit(cfg, phase, 2, Pow2(cfg.phaseBits - 2));
  }

  /** Half a turn is four octants. */
  lemma HalfTurnSpan(cfg: Config)
    requires ValidConfig(cfg)
    ensures Pow2(cfg.phaseBits - 1) == 4 * Pow2(BotWidth(cfg))
  {
    assert Pow2(2) == 4;
    Pow2Add(BotWidth(cfg), 2);
  }

  /** A quarter turn is two octants. */
  lemma QuarterTurnSpan(cfg: Config)
    requires ValidConfig(cfg)
    ensures Pow2(cfg.phaseBits - 2) == 2 * Pow2(BotWidth(cfg))
  {
    assert Pow2(1) == 2;
    Pow2Add(BotWidth(cfg), 1);
  }

  lemma IdealTurn(cfg: Config, cosInit: seq<int>, sinInit: seq<int>, s: Split, k: nat)
    requires ValidConfig(cfg) && TablesInRange(cfg, cosInit, sinInit) && SplitInRange(cfg, s)
    requires k == 2 || k == 4
    ensures var m := Split((s.top + k) % 8, s.bot);
      var o := IdealOutputs(cfg, cosInit, sinInit, s);
      SplitInRange(cfg, m) &&
      IdealOutputs(cfg, cosInit, sinInit, m) == if k == 2 then Sample(-o.sin, o.cos) else Sample(-o.cos, -o.sin)
  {
    var m := Split((s.top + k) % 8, s.bot);
    var a := OctantPhase(cfg, s);
    assert m.top % 2 == s.top % 2;
    SameParitySameAddress(cfg, s, m);
    if k == 2 {
      CombinerQuarterTurn(s.top, cosInit[a], sinInit[a]);
    } else {
      CombinerHalfTurn(s.top, cosInit[a], sinInit[a]);
    }
  }

  lemma SameParitySameAddress(cfg: Config, s: Split, t: Split)
    requires ValidConfig(cfg) && SplitInRange(cfg, s) && SplitInRange(cfg, t)
    requires s.bot == t.bot && s.top % 2 == t.top % 2
    ensures OctantPhase(cfg, s) == OctantPhase(cfg, t)
  {
  }

  /** Adding `k` octants to the phase, with wrap-around, moves the octant by
      `k` (mod 8) and keeps the sub-phase. */
  lemma AddOctantsSplit(cfg: Config, phase: nat, k: nat, d: int)
    requires ValidConfig(cfg) && phase < Pow2(cfg.phaseBits) && k < 8
    requires d == k * Pow2(BotWidth(cfg))
    ensures var s := SplitPhase(cfg, phase);
      SplitPhase(cfg, Truncate(cfg.phaseBits, phase + d)) == Split((s.top + k) % 8, s.bot)
  {
    var s := SplitPhase(cfg, phase);
    var m := Split((s.top + k) % 8, s.bot);
    assert Truncate(cfg.phaseBits, phase + d) == JoinPhase(cfg, m) by {
      AddOctantsJoin(cfg, s, k, phase + d);
    }
    assert SplitPhase(cfg, JoinPhase(cfg, m)) == m by {
      SplitJoin(cfg, m);
    }
  }

  lemma AddOctantsJoin(cfg: Config, s: Split, k: nat, x: int)
    requires ValidConfig(cfg) && SplitInRange(cfg, s) && k < 8
    requires x == JoinPhase(cfg, s) + k * Pow2(BotWidth(cfg))
    ensures Truncate(cfg.phaseBits, x) == JoinPhase(cfg, Split((s.top + k) % 8, s.bot))
  {
    var w, full := Pow2(BotWidth(cfg)), Pow2(cfg.phaseBits);
    OctantSpan(cfg);
    JoinInRange(cfg, Split((s.top + k) % 8, s.bot));
    var m := Split((s.top + k) % 8, s.bot);
    var y := JoinPhase(cfg, m);
    assert y < full;
    assert x == y || x == y + full by {
      assert JoinPhase(cfg, s) == s.bot + s.top * w;
      assert y == s.bot + m.top * w;
      ShiftArith(s.bot, s.top, k, w);
    }
    SliceUnique(cfg.phaseBits, x, if x == y then 0 else 1, y);
  }

  lemma ShiftArith(b: int, t: int, k: int, w: int)
    requires 0 <= t && 0 <= k
    ensures t + k < 8 ==> b + t * w + k * w == b + ((t + k) % 8) * w
    ensures 8 <= t + k < 16 ==> b + t * w + k * w == b + ((t + k) % 8) * w + 8 * w
  {
    if 8 <= t + k < 16 {
      assert (t + k) % 8 == t + k - 8;
      assert (t + k - 8) * w + 8 * w == (t + k) * w;
    }
  }

  /** The outputs repeat with period `2^phasebits`: a value driven onto the
      phase signal and that value plus any number of full turns give the
      same outputs. */
  lemma PhasePeriodic(cfg: Config, lut: Lut, x: int, k: int)
    requires ValidConfig(cfg) && LutValid(cfg, lut)
    ensures PhaseOutputs(cfg, lut, Truncate(cfg.phaseBits, x + k * Pow2(cfg.phaseBits)))
         == PhaseOutputs(cfg, lut, Truncate(cfg.phaseBits, x))
  {
    TruncatePeriodic(cfg.phaseBits, x, k);
  }

  /** The four axis phases 0, a quarter, a half and three quarters of a
      turn give (scale, 0), (0, scale), (-scale, 0) and (0, -scale) when the
      table starts with `cos(0) == scale` and `sin(0) == 0`. */
  lemma AxisPhases(cfg: Config, cosInit: seq<int>, sinInit: seq<int>)
    requires ValidConfig(cfg) && TablesInRange(cfg, cosInit, sinInit)
    requires cosInit[0] == Scale(cfg) && sinInit[0] == 0
    ensures var w, m, lut := Pow2(BotWidth(cfg)), Scale(cfg), BuildLut(cfg, cosInit, sinInit);
      6 * w < Pow2(cfg.phaseBits) &&
      PhaseOutputs(cfg, lut, 0) == Sample(m, 0) &&
      PhaseOutputs(cfg, lut, 2 * w) == Sample(0, m) &&
      PhaseOutputs(cfg, lut, 4 * w) == Sample(-(m as int), 0) &&
      PhaseOutputs(cfg, lut, 6 * w) == Sample(0, -(m as int))
  {
    var w, m, lut := Pow2(BotWidth(cfg)), Scale(cfg), BuildLut(cfg, cosInit, sinInit);
    Pow2Add(BotWidth(cfg), 3);
    assert Pow2(3) == 8;
    assert PhaseOutputs(cfg, lut, 0) == Sample(m, 0) by {
      AxisPhase(cfg, cosInit, sinInit, 0);
      assert 0 * w == 0;
    }
    assert PhaseOutputs(cfg, lut, 2 * w) == Sample(0, m) by {
      AxisPhase(cfg, cosInit, sinInit, 2);
    }
    assert PhaseOutputs(cfg, lut, 4 * w) == Sample(-(m as int), 0) by {
      AxisPhase(cfg, cosInit, sinInit, 4);
    }
    assert PhaseOutputs(cfg, lut, 6 * w) == Sample(0, -(m as int)) by {
      AxisPhase(cfg, cosInit, sinInit, 6);
    }
  }

  /** At the start of an even octant the datapath reads address 0. */
  lemma AxisPhase(cfg: Config, cosInit: seq<int>, sinInit: seq<int>, top: nat)
    requires ValidConfig(cfg) && TablesInRange(cfg, cosInit, sinInit)
    requires top < 8 && top % 2 == 0
    ensures var phase := top * Pow2(BotWidth(cfg));
      phase < Pow2(cfg.phaseBits) &&
      PhaseOutputs(cfg, BuildLut(cfg, cosInit, sinInit), phase)
        == Sample(CombineCos(top, cosInit[0], sinInit[0]), CombineSin(top, cosInit[0], sinInit[0]))
  {
    var s := Split(top, 0);
    var phase := JoinPhase(cfg, s);
    assert phase == top * Pow2(BotWidth(cfg));
    SplitJoin(cfg, s);
    assert OctantPhase(cfg, s) == 0;
    assert PhaseOutputs(cfg, BuildLut(cfg, cosInit, sinInit), phase) == IdealOutputs(cfg, cosInit, sinInit, s) by {
      PhaseOutputsExact(cfg, cosInit, sinInit, phase);
    }
  }

  /** The default generator, eight phase bits and eight value bits: the scale
      is 127, the table has 33 entries, and a quarter turn is phase 64. */
  lemma DefaultConfig()
    ensures var cfg := Config(8, 8);
      ValidConfig(cfg) && Scale(cfg) == 127 && Depth(cfg) == 33 && 2 * Pow2(BotWidth(cfg)) == 64
  {
    assert Pow2(5) == 32 && Pow2(7) == 128;
  }

  // ---------------------------------------------------------------------
  // The clocked circuit

  /** The elaborated module. Its only state is the delay register
      `top_phase_delay1` and the data registers of the two synchronous read
      ports; the memories are fixed at construction. */
  class SinusGen {
    const cfg: Config
    const lut: Lut
    var topPhaseDelay1: nat
    var cosData: nat
    var sinData: nat

    ghost predicate Valid()
      reads this
    {
      ValidConfig(cfg) && LutValid(cfg, lut) && topPhaseDelay1 < 8 &&
      cosData < Pow2(cfg.valBits) && sinData < Pow2(cfg.valBits)
    }

    /** `SinusGen(phasebits, valbits)` elaborated with the given table
        contents; every register starts at its reset value zero. */
    constructor (phaseBits: nat, valBits: nat, cosInit: seq<int>, sinInit: seq<int>)
      requires ValidConfig(Config(phaseBits, valBits))
      requires |cosInit| == Depth(Config(phaseBits, valBits)) && |sinInit| == Depth(Config(phaseBits, valBits))
      ensures Valid()
      ensures cfg == Config(phaseBits, valBits) && lut == BuildLut(cfg, cosInit, sinInit)
      ensures topPhaseDelay1 == 0 && cosData == 0 && sinData == 0
      ensures Cos() == 0 && Sin() == 0
    {
      cfg := Config(phaseBits, valBits);
      lut := BuildLut(Config(phaseBits, valBits), cosInit, sinInit);
      topPhaseDelay1, cosData, sinData := 0, 0, 0;
      new;
      WrapSignedInRange(cfg.valBits, 0);
    }

    /** The `cos` output in the current cycle. */
    function Cos(): (r: int)
      reads this
      requires Valid()
      ensures -(Pow2(cfg.valBits - 1) as int) <= r < Pow2(cfg.valBits - 1)
    {
      Outputs(cfg, topPhaseDelay1, cosData, sinData).cos
    }

    /** The `sin` output in the current cycle. */
    function Sin(): (r: int)
      reads this
      requires Valid()
      ensures -(Pow2(cfg.valBits - 1) as int) <= r < Pow2(cfg.valBits - 1)
    {
      Outputs(cfg, topPhaseDelay1, cosData, sinData).sin
    }

    /** One clock edge with `phase` on the input: the delay register takes
        the octant, the read ports take the words at the reduced address.
        Whatever the state was before, the outputs then belong to `phase`. */
    method Tick(phase: nat)
      requires Valid() && phase < Pow2(cfg.phaseBits)
      modifies this
      ensures Valid()
      ensures topPhaseDelay1 == SplitPhase(cfg, phase).top
      ensures cosData == lut.cosWords[Address(cfg, phase)]
      ensures sinData == lut.sinWords[Address(cfg, phase)]
      ensures Sample(Cos(), Sin()) == PhaseOutputs(cfg, lut, phase)
    {
      var s := SplitPhase(cfg, phase);
      var addr := OctantPhase(cfg, s);
      topPhaseDelay1, cosData, sinData := s.top, lut.cosWords[addr], lut.sinWords[addr];
    }
  }
}
