/** The nonlinear combination generator (class Geffe of implementation.py):
    three registers whose output bits index an 8-entry truth table, and the
    least-significant-bit-first loading of integer seeds into them. */
module Combiner {
  import opened ShiftRegister
  import opened Arithmetic

  function Pow2(i: nat): (p: nat)
    ensures p >= 1
  {
    if i == 0 then 1 else 2 * Pow2(i - 1)
  }

  /** Halving after dividing by d is dividing by 2d. */
  lemma DivTwice(k: int, d: int)
    requires d > 0
    ensures (k / d) / 2 == k / (2 * d)
  {
    var q, r := k / d, k % d;
    var q2, r2 := q / 2, q % 2;
    assert k == d * q + r;
    assert q == 2 * q2 + r2;
    assert k == (2 * d) * q2 + (d * r2 + r);
    DivUnique(k, 2 * d, q2, d * r2 + r);
  }

  /** The seed after `i` rounds of `k[s] = k[s] // 2`. Python's floor division
      by 2 agrees with Dafny's Euclidean division, negative seeds included. */
  function Shifted(k: int, i: nat): int
  {
    if i == 0 then k else Shifted(k, i - 1) / 2
  }

  /** The cells set_state appends for seed `k` in its first `i` rounds. */
  function SeedBits(k: int, i: nat): (bits: seq<Bit>)
    ensures |bits| == i
  {
    if i == 0 then [] else SeedBits(k, i - 1) + [Shifted(k, i - 1) % 2]
  }

  /** After i rounds the seed holds k / 2^i. */
  lemma {:induction false} ShiftedIsDivision(k: int, i: nat)
    ensures Shifted(k, i) == k / Pow2(i)
  {
    if i > 0 {
      ShiftedIsDivision(k, i - 1);
      DivTwice(k, Pow2(i - 1));
    }
  }

  /** Cell i of a loaded register is bit i of its seed, least significant first. */
  lemma {:induction false} SeedBitAt(k: int, n: nat, i: nat)
    requires i < n
    ensures SeedBits(k, n)[i] == (k / Pow2(i)) % 2
    decreases n
  {
    if i < n - 1 {
      SeedBitAt(k, n - 1, i);
    } else {
      ShiftedIsDivision(k, i);
    }
  }

  /** The integer a sequence of cells stands for, cell 0 least significant. */
  function FromBits(bits: seq<Bit>): int
  {
    if bits == [] then 0
    else FromBits(bits[..|bits| - 1]) + bits[|bits| - 1] * Pow2(|bits| - 1)
  }

  /** The cells loaded into a register and what set_state leaves in the
      caller's seed together give the seed back. */
  lemma {:induction false} SeedRoundTrip(k: int, n: nat)
    ensures FromBits(SeedBits(k, n)) + Pow2(n) * Shifted(k, n) == k
  {
    if n > 0 {
      SeedRoundTrip(k, n - 1);
      var s, p := Shifted(k, n - 1), Pow2(n - 1);
      var h, r := s / 2, s % 2;
      var bits := SeedBits(k, n);
      assert bits[..n - 1] == SeedBits(k, n - 1);
      assert FromBits(bits) == FromBits(SeedBits(k, n - 1)) + r * p;
      assert Pow2(n) * Shifted(k, n) == (2 * p) * h;
      ScaleSplit(p, h, r);
    }
  }

  /** p * (2h + r) splits into its two parts. */
  lemma ScaleSplit(p: int, h: int, r: int)
    ensures p * (2 * h + r) == (2 * p) * h + r * p
  {
  }

  /** A seed in [0, 2^n) is loaded exactly: its cells read back as the seed,
      and the caller's copy is left at 0. */
  lemma SeedInRange(k: int, n: nat)
    requires 0 <= k < Pow2(n)
    ensures Shifted(k, n) == 0
    ensures FromBits(SeedBits(k, n)) == k
  {
    ShiftedIsDivision(k, n);
    DivUnique(k, Pow2(n), 0, k);
    SeedRoundTrip(k, n);
  }

  /** Distinct candidate seeds below 2^n load distinct register states. */
  lemma SeedInjective(k1: int, k2: int, n: nat)
    requires 0 <= k1 < Pow2(n) && 0 <= k2 < Pow2(n)
    requires SeedBits(k1, n) == SeedBits(k2, n)
    ensures k1 == k2
  {
    SeedInRange(k1, n);
    SeedInRange(k2, n);
  }

  /** The truth-table index built by `f_input = (f_input << 1) | out` over
      the register outputs, register 0 most significant. */
  function TableIndex(outs: seq<Bit>): (idx: nat)
    ensures idx < Pow2(|outs|)
  {
    if outs == [] then 0
    else 2 * TableIndex(outs[..|outs| - 1]) + outs[|outs| - 1]
  }

  /** Three outputs index the table as `4*out0 + 2*out1 + out2`, within [0, 7]. */
  lemma TableIndexOfThree(o0: Bit, o1: Bit, o2: Bit)
    ensures TableIndex([o0, o1, o2]) == 4 * (o0 as int) + 2 * (o1 as int) + o2 as int < 8
  {
    assert [o0][..0] == [];
    assert TableIndex([o0]) == o0;
    assert [o0, o1][..1] == [o0];
    assert TableIndex([o0, o1]) == 2 * (o0 as int) + o1 as int;
    assert [o0, o1, o2][..2] == [o0, o1];
  }

  /** The three register states of a generator, register 0 first, each
      non-empty and with in-range taps. */
  predicate WellFormed(states: seq<seq<Bit>>, allTaps: seq<seq<int>>)
  {
    |states| == 3 && |allTaps| == 3
    && forall s :: 0 <= s < 3 ==> |states[s]| > 0 && InRange(allTaps[s], |states[s]|)
  }

  /** The keystream bit for the current register states. */
  function GeffeOutput(F: seq<int>, states: seq<seq<Bit>>): (out: int)
    requires |F| == 8 && |states| == 3
    requires forall s :: 0 <= s < 3 ==> |states[s]| > 0
    ensures out in F
    ensures out == F[4 * (states[0][0] as int) + 2 * (states[1][0] as int) + states[2][0] as int]
  {
    TableIndexOfThree(states[0][0], states[1][0], states[2][0]);
    F[TableIndex([states[0][0], states[1][0], states[2][0]])]
  }

  /** Every register clocked once. */
  function GeffeStep(states: seq<seq<Bit>>, allTaps: seq<seq<int>>): (next: seq<seq<Bit>>)
    requires WellFormed(states, allTaps)
    ensures WellFormed(next, allTaps)
    ensures forall s :: 0 <= s < 3 ==> |next[s]| == |states[s]|
  {
    [Step(states[0], allTaps[0]), Step(states[1], allTaps[1]), Step(states[2], allTaps[2])]
  }

  /** The first `len` keystream bits from the given register states. */
  function GeffeStream(F: seq<int>, allTaps: seq<seq<int>>, states: seq<seq<Bit>>, len: nat): (stream: seq<int>)
    requires |F| == 8 && WellFormed(states, allTaps)
    ensures |stream| == len
    decreases len
  {
    if len == 0 then []
    else [GeffeOutput(F, states)] + GeffeStream(F, allTaps, GeffeStep(states, allTaps), len - 1)
  }

  /** The register states after `len` clocks of the generator. */
  function GeffeStates(states: seq<seq<Bit>>, allTaps: seq<seq<int>>, len: nat): (after: seq<seq<Bit>>)
    requires WellFormed(states, allTaps)
    ensures WellFormed(after, allTaps)
    decreases len
  {
    if len == 0 then states else GeffeStates(GeffeStep(states, allTaps), allTaps, len - 1)
  }

  /** One more clock steps the states reached after `len` clocks. */
  lemma {:induction false} GeffeStatesStep(states: seq<seq<Bit>>, allTaps: seq<seq<int>>, len: nat)
    requires WellFormed(states, allTaps)
    ensures GeffeStates(states, allTaps, len + 1) == GeffeStep(GeffeStates(states, allTaps, len), allTaps)
    decreases len
  {
    if len > 0 {
      var next := GeffeStep(states, allTaps);
      GeffeStatesStep(next, allTaps, len - 1);
      assert GeffeStates(states, allTaps, len) == GeffeStates(next, allTaps, len - 1);
    }
  }

  /** A keystream of len > 0 bits is the current output followed by len - 1
      bits from the clocked states. */
  lemma GeffeStreamFirst(F: seq<int>, allTaps: seq<seq<int>>, states: seq<seq<Bit>>, len: nat)
    requires |F| == 8 && WellFormed(states, allTaps) && len > 0
    ensures GeffeStream(F, allTaps, states, len)
            == [GeffeOutput(F, states)] + GeffeStream(F, allTaps, GeffeStep(states, allTaps), len - 1)
  {
  }

  /** The keystream of `len` clocks is that of the first `a` clocks followed
      by that of the remaining `len - a` clocks from the states those `a`
      clocks reach. */
  lemma {:induction false} GeffeStreamSplit(F: seq<int>, allTaps: seq<seq<int>>, states: seq<seq<Bit>>, a: nat, len: nat)
    requires |F| == 8 && WellFormed(states, allTaps) && a <= len
    ensures GeffeStream(F, allTaps, states, len)
            == GeffeStream(F, allTaps, states, a) + GeffeStream(F, allTaps, GeffeStates(states, allTaps, a), len - a)
    decreases a
  {
    if a == 0 {
      assert GeffeStream(F, allTaps, states, a) == [];
      assert GeffeStates(states, allTaps, a) == states;
    } else {
      var next, a', len' := GeffeStep(states, allTaps), a - 1, len - 1;
      GeffeStreamSplit(F, allTaps, next, a', len');
      GeffeStreamSplitStep(F, allTaps, states, next, a, a', len, len');
    }
  }

  /** The inductive step of GeffeStreamSplit: a split of the keystream from
      the clocked states extends to one from the current states. */
  lemma GeffeStreamSplitStep(F: seq<int>, allTaps: seq<seq<int>>, states: seq<seq<Bit>>, next: seq<seq<Bit>>,
                             a: nat, a': nat, len: nat, len': nat)
    requires |F| == 8 && WellFormed(states, allTaps) && 0 < a <= len
    requires next == GeffeStep(states, allTaps) && a' == a - 1 && len' == len - 1
    requires GeffeStream(F, allTaps, next, len')
             == GeffeStream(F, allTaps, next, a') + GeffeStream(F, allTaps, GeffeStates(next, allTaps, a'), len' - a')
    ensures GeffeStream(F, allTaps, states, len)
            == GeffeStream(F, allTaps, states, a) + GeffeStream(F, allTaps, GeffeStates(states, allTaps, a), len - a)
  {
    assert GeffeStates(states, allTaps, a) == GeffeStates(next, allTaps, a');
    assert len' - a' == len - a;
    GeffeStreamFirst(F, allTaps, states, a);
    GeffeStreamFirst(F, allTaps, states, len);
    ConsSplit(GeffeOutput(F, states), GeffeStream(F, allTaps, states, len), GeffeStream(F, allTaps, next, len'),
              GeffeStream(F, allTaps, states, a), GeffeStream(F, allTaps, next, a'),
              GeffeStream(F, allTaps, GeffeStates(next, allTaps, a'), len' - a'));
  }

  /** A split of a tail extends to the sequence with one more element in front. */
  lemma ConsSplit(x: int, whole: seq<int>, tail: seq<int>, front: seq<int>, tailFront: seq<int>, rest: seq<int>)
    requires whole == [x] + tail && front == [x] + tailFront && tail == tailFront + rest
    ensures whole == front + rest
  {
    assert [x] + (tailFront + rest) == ([x] + tailFront) + rest;
  }

  /** Every keystream bit is one of the eight table entries. */
  lemma {:induction false} GeffeStreamInTable(F: seq<int>, allTaps: seq<seq<int>>, states: seq<seq<Bit>>, len: nat)
    requires |F| == 8 && WellFormed(states, allTaps)
    ensures forall j :: 0 <= j < len ==> GeffeStream(F, allTaps, states, len)[j] in F
    decreases len
  {
    if len > 0 {
      GeffeStreamInTable(F, allTaps, GeffeStep(states, allTaps), len - 1);
    }
  }

  /** A combination generator over three registers of one length n. The
      source's three-element list of registers is held as three fields. */
  class Geffe {
    const n: nat
    const l0: Lfsr
    const l1: Lfsr
    const l2: Lfsr
    const F: seq<int>

    ghost predicate Valid()
      reads this, l0, l1, l2
    {
      |F| == 8 && l0 != l1 && l0 != l2 && l1 != l2
      && l0.Valid() && l1.Valid() && l2.Valid()
      && l0.n == n && l1.n == n && l2.n == n
    }

    /** The register states, register 0 first. */
    ghost function States(): seq<seq<Bit>>
      reads this, l0, l1, l2
    {
      [l0.state, l1.state, l2.state]
    }

    /** The tap tuples, register 0 first. */
    function Taps(): seq<seq<int>>
    {
      [l0.taps, l1.taps, l2.taps]
    }

    /** Geffe.__init__: three tap sets and an 8-entry table; every register
        starts from n zero cells. */
    constructor (n: nat, allTaps: seq<seq<int>>, F: seq<int>)
      requires |allTaps| == 3 && |F| == 8
      requires forall s :: 0 <= s < 3 ==> ValidTaps(n, allTaps[s])
      ensures Valid()
      ensures this.n == n && this.F == F && Taps() == allTaps
      ensures fresh(l0) && fresh(l1) && fresh(l2)
      ensures States() == [seq(n, _ => 0), seq(n, _ => 0), seq(n, _ => 0)]
    {
      l0 := new Lfsr(n, allTaps[0]);
      l1 := new Lfsr(n, allTaps[1]);
      l2 := new Lfsr(n, allTaps[2]);
      this.n := n;
      this.F := F;
    }

    /** Geffe.set_state: loads register s with the low n bits of k[s], least
        significant first, and leaves k[s] // 2^n in the caller's list. */
    method SetState(k: array<int>)
      requires Valid()
      requires k.Length >= 3
      modifies l0, l1, l2, k
      ensures Valid()
      ensures States() == [SeedBits(old(k[0]), n), SeedBits(old(k[1]), n), SeedBits(old(k[2]), n)]
      ensures forall s :: 0 <= s < 3 ==> k[s] == Shifted(old(k[s]), n)
      ensures forall s :: 3 <= s < k.Length ==> k[s] == old(k[s])
    {
      ghost var k0 := k[..];
      var states: seq<seq<Bit>> := [[], [], []];
      for i := 0 to n
        modifies k
        invariant |states| == 3
        invariant forall s :: 0 <= s < 3 ==> states[s] == SeedBits(k0[s], i) && k[s] == Shifted(k0[s], i)
        invariant forall s :: 3 <= s < k.Length ==> k[s] == k0[s]
      {
        for s := 0 to 3
          modifies k
          invariant |states| == 3
          invariant forall t :: 0 <= t < s ==> states[t] == SeedBits(k0[t], i + 1) && k[t] == Shifted(k0[t], i + 1)
          invariant forall t :: s <= t < 3 ==> states[t] == SeedBits(k0[t], i) && k[t] == Shifted(k0[t], i)
          invariant forall t :: 3 <= t < k.Length ==> k[t] == k0[t]
        {
          states := states[s := states[s] + [k[s] % 2]];
          k[s] := k[s] / 2;
        }
      }
      // the loop over s in range(3), unrolled
      l0.Init(states[0]);
      l1.Init(states[1]);
      l2.Init(states[2]);
    }

    /** Geffe.clock: clocks registers 0, 1 and 2 once each and looks their
        outputs up in the table, register 0 as the most significant bit. */
    method Clock() returns (output: int)
      requires Valid()
      modifies l0, l1, l2
      ensures Valid()
      ensures States() == GeffeStep(old(States()), Taps())
      ensures output == GeffeOutput(F, old(States()))
    {
      // the loop over s in range(3), unrolled; `(f_input << 1) | out` is
      // 2 * f_input + out because out is 0 or 1
      var fInput: nat := 0;
      var out0 := l0.Clock();
      fInput := 2 * fInput + out0;
      var out1 := l1.Clock();
      fInput := 2 * fInput + out1;
      var out2 := l2.Clock();
      fInput := 2 * fInput + out2;
      TableIndexOfThree(out0, out1, out2);
      output := F[fInput];
    }
  }
}
