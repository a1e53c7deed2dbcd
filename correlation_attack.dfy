/** The correlation attack of implementation.py (get_correlation and
    find_key_L1): every seed of register 1 is tried against a fixed observed
    bit string, and the seeds whose keystream agrees with it in exactly 3/4
    of the positions survive. The observed bits are a parameter. */
module CorrelationAttack {
  import opened ShiftRegister
  import opened Combiner

  /** A combination generator's parameters: register length, the three tap
      tuples and the truth table. */
  datatype Generator = Generator(n: nat, taps: seq<seq<int>>, table: seq<int>)

  /** What the Geffe constructor asserts of its parameters. */
  predicate ValidGenerator(g: Generator)
  {
    |g.taps| == 3 && |g.table| == 8 && forall s :: 0 <= s < 3 ==> ValidTaps(g.n, g.taps[s])
  }

  /** The generator find_key_L1 builds. */
  const AttackGenerator: Generator :=
    Generator(16, [[0, 1, 4, 7], [0, 1, 7, 11], [0, 2, 3, 5]], [1, 0, 1, 0, 0, 0, 1, 1])

  /** The literal generator has three well-formed registers and an
      eight-entry table, so the attack may run with it. */
  lemma AttackGeneratorIsValid()
    ensures ValidGenerator(AttackGenerator)
  {
    assert ValidTaps(16, [0, 1, 4, 7]) && ValidTaps(16, [0, 1, 7, 11]) && ValidTaps(16, [0, 2, 3, 5]);
  }

  /** The candidate seeds of register 1: range(2**16). */
  const KeySpace: nat := 0x1_0000

  lemma KeySpaceIsAllSeeds()
    ensures Pow2(AttackGenerator.n) == KeySpace
  {
    assert Pow2(4) == 16;
    assert Pow2(8) == 16 * Pow2(4) by {
      assert Pow2(8) == 2 * 2 * 2 * 2 * Pow2(4);
    }
    assert Pow2(12) == 2 * 2 * 2 * 2 * Pow2(8);
    assert Pow2(16) == 2 * 2 * 2 * 2 * Pow2(12);
  }

  /** Number of positions where `stream` equals the observed bits. */
  function Agreement(observed: seq<int>, stream: seq<int>): (same: nat)
    requires |stream| <= |observed|
    ensures same <= |stream|
  {
    if stream == [] then 0
    else
      Agreement(observed, stream[..|stream| - 1])
      + (if observed[|stream| - 1] == stream[|stream| - 1] then 1 else 0)
  }

  /** The positions where `stream` equals the observed bits. */
  function MatchPositions(observed: seq<int>, stream: seq<int>): set<int>
    requires |stream| <= |observed|
  {
    set i | 0 <= i < |stream| && stream[i] == observed[i]
  }

  /** The agreement count is the number of matching positions. */
  lemma {:induction false} AgreementCountsMatches(observed: seq<int>, stream: seq<int>)
    requires |stream| <= |observed|
    ensures Agreement(observed, stream) == |MatchPositions(observed, stream)|
    decreases |stream|
  {
    if stream != [] {
      var last := |stream| - 1;
      var init := stream[..last];
      AgreementCountsMatches(observed, init);
      var before := MatchPositions(observed, init);
      assert last !in before;
      if observed[last] == stream[last] {
        assert MatchPositions(observed, stream) == before + {last};
      } else {
        assert MatchPositions(observed, stream) == before;
      }
    }
  }

  /** get_correlation: the agreement of `stream` with the observed bits as
      the fraction same / total, left unreduced. */
  method GetCorrelation(observed: seq<int>, stream: seq<int>) returns (same: nat, total: nat)
    requires 0 < |stream| <= |observed|
    ensures total == |stream|
    ensures same == Agreement(observed, stream)
  {
    same := 0;
    for i := 0 to |stream|
      invariant same == Agreement(observed, stream[..i])
    {
      assert stream[..i + 1][..i] == stream[..i];
      if observed[i] == stream[i] {
        same := same + 1;
      }
    }
    assert stream[..|stream|] == stream;
    total := |stream|;
  }

  /** Python's Fraction equality a/b == c/d, by cross-multiplication. */
  predicate FractionEquals(a: int, b: int, c: int, d: int)
    requires b > 0 && d > 0
  {
    a * d == c * b
  }

  /** The register states after set_state([0, c, 0]). */
  function CandidateStates(g: Generator, c: int): (states: seq<seq<Bit>>)
    requires ValidGenerator(g)
    ensures WellFormed(states, g.taps)
  {
    assert ValidTaps(g.n, g.taps[0]) && ValidTaps(g.n, g.taps[1]) && ValidTaps(g.n, g.taps[2]);
    [SeedBits(0, g.n), SeedBits(c, g.n), SeedBits(0, g.n)]
  }

  /** Candidate c survives when its first |observed| keystream bits agree
      with the observed bits in exactly 3/4 of the positions. */
  predicate Survives(g: Generator, observed: seq<int>, c: int)
    requires ValidGenerator(g) && |observed| > 0
  {
    var stream := GeffeStream(g.table, g.taps, CandidateStates(g, c), |observed|);
    FractionEquals(Agreement(observed, stream), |observed|, 3, 4)
  }

  /** The values below m that `keep` accepts, in increasing order. */
  function Kept(keep: int -> bool, m: nat): (r: seq<int>)
    ensures forall c :: c in r <==> 0 <= c < m && keep(c)
    ensures forall i, j :: 0 <= i < j < |r| ==> r[i] < r[j]
  {
    if m == 0 then []
    else
      var prev := Kept(keep, m - 1);
      assert forall i :: 0 <= i < |prev| ==> prev[i] in prev;
      prev + (if keep(m - 1) then [m - 1] else [])
  }

  /** The surviving candidates below m, in increasing order. */
  function Survivors(g: Generator, observed: seq<int>, m: nat): (r: seq<int>)
    requires ValidGenerator(g) && |observed| > 0
  {
    Kept(c => Survives(g, observed, c), m)
  }

  /** A value is among the survivors below m exactly when it is a
      candidate below m that survives. */
  lemma SurvivorsAre(g: Generator, observed: seq<int>, m: nat)
    requires ValidGenerator(g) && |observed| > 0
    ensures forall c :: c in Survivors(g, observed, m) <==> 0 <= c < m && Survives(g, observed, c)
  {
    var keep := c => Survives(g, observed, c);
    assert Survivors(g, observed, m) == Kept(keep, m);
    forall c
      ensures c in Survivors(g, observed, m) <==> 0 <= c < m && Survives(g, observed, c)
    {
      assert keep(c) == Survives(g, observed, c);
    }
  }

  /** One more candidate is kept exactly when it survives. */
  lemma SurvivorsStep(g: Generator, observed: seq<int>, c: nat)
    requires ValidGenerator(g) && |observed| > 0
    ensures Survivors(g, observed, c + 1)
            == Survivors(g, observed, c) + (if Survives(g, observed, c) then [c] else [])
  {
  }

  /** The next candidate is kept exactly when its agreement count is 3/4
      of the observed bits. */
  lemma SurvivorsByAgreement(g: Generator, observed: seq<int>, c: nat, same: int)
    requires ValidGenerator(g) && |observed| > 0
    requires same == Agreement(observed, GeffeStream(g.table, g.taps, CandidateStates(g, c), |observed|))
    ensures Survivors(g, observed, c + 1)
            == Survivors(g, observed, c) + (if FractionEquals(same, |observed|, 3, 4) then [c] else [])
  {
    SurvivorsStep(g, observed, c);
  }

  /** What find_key_L1 prints: one line per survivor, each showing the inner
      loop's index |observed| - 1 rather than the candidate. */
  function PrintedAsWritten(g: Generator, observed: seq<int>, m: nat): (printed: seq<int>)
    requires ValidGenerator(g) && |observed| > 0
    ensures |printed| == |Survivors(g, observed, m)|
    ensures forall j :: 0 <= j < |printed| ==> printed[j] == |observed| - 1
  {
    Repeat(|observed| - 1, |Survivors(g, observed, m)|)
  }

  /** `count` copies of `x`. */
  function Repeat(x: int, count: nat): (r: seq<int>)
    ensures |r| == count
    ensures forall j :: 0 <= j < count ==> r[j] == x
  {
    if count == 0 then [] else Repeat(x, count - 1) + [x]
  }

  /** A survivor other than |observed| - 1 never appears among the printed
      lines: the shadowed loop variable loses it. */
  lemma ShadowedPrintLosesCandidate(g: Generator, observed: seq<int>, m: nat, c: int)
    requires ValidGenerator(g) && |observed| > 0
    requires c in Survivors(g, observed, m) && c != |observed| - 1
    ensures Survives(g, observed, c)
    ensures c !in PrintedAsWritten(g, observed, m)
  {
  }

  /** Distinct candidates below 2^n start the generator from distinct states. */
  lemma CandidatesDistinct(g: Generator, c1: int, c2: int)
    requires ValidGenerator(g)
    requires 0 <= c1 < Pow2(g.n) && 0 <= c2 < Pow2(g.n) && c1 != c2
    ensures CandidateStates(g, c1) != CandidateStates(g, c2)
  {
    if CandidateStates(g, c1) == CandidateStates(g, c2) {
      assert CandidateStates(g, c1)[1] == CandidateStates(g, c2)[1];
      SeedInjective(c1, c2, g.n);
    }
  }

  /** One clock of the collecting loop, clock j of len: moving the output
      bit from the pending keystream to the collected prefix keeps their
      concatenation, and the clocked states are those j + 1 clocks reach. */
  lemma StreamAdvance(F: seq<int>, allTaps: seq<seq<int>>, init: seq<seq<Bit>>, before: seq<seq<Bit>>,
                      after: seq<seq<Bit>>, len: nat, j: nat, prefix: seq<int>, b: int)
    requires |F| == 8 && WellFormed(init, allTaps) && j < len
    requires before == GeffeStates(init, allTaps, j)
    requires after == GeffeStep(before, allTaps) && b == GeffeOutput(F, before)
    requires prefix + GeffeStream(F, allTaps, before, len - j) == GeffeStream(F, allTaps, init, len)
    ensures (prefix + [b]) + GeffeStream(F, allTaps, after, len - (j + 1)) == GeffeStream(F, allTaps, init, len)
    ensures after == GeffeStates(init, allTaps, j + 1)
  {
    var rest := GeffeStream(F, allTaps, after, len - (j + 1));
    GeffeStreamFirst(F, allTaps, before, len - j);
    assert len - j - 1 == len - (j + 1);
    assert (prefix + [b]) + rest == prefix + ([b] + rest);
    GeffeStatesStep(init, allTaps, j);
  }

  /** Clocks the generator `len` times, collecting the keystream: the inner
      loop of find_key_L1. `last` is the last index the loop bound. */
  method CollectStream(gef: Geffe, len: nat) returns (stream: seq<int>, last: int)
    requires gef.Valid()
    modifies gef.l0, gef.l1, gef.l2
    ensures gef.Valid()
    ensures stream == GeffeStream(gef.F, gef.Taps(), old(gef.States()), len)
    ensures gef.States() == GeffeStates(old(gef.States()), gef.Taps(), len)
    ensures len > 0 ==> last == len - 1
  {
    stream, last := [], -1;
    ghost var init, taps, F := gef.States(), gef.Taps(), gef.F;
    ghost var whole := GeffeStream(F, taps, init, len);
    for j := 0 to len
      invariant gef.Valid()
      invariant |stream| == j
      invariant gef.States() == GeffeStates(init, taps, j)
      invariant stream + GeffeStream(F, taps, GeffeStates(init, taps, j), len - j) == whole
      invariant j > 0 ==> last == j - 1
    {
      ghost var before := gef.States();
      var b := gef.Clock();
      StreamAdvance(F, taps, init, before, gef.States(), len, j, stream, b);
      stream := stream + [b];
      last := j;
    }
  }

  /** One trial of find_key_L1: set_state([0, candidate, 0]) on the shared
      generator, then |bits| clocks. `i` is what Python's loop variable holds
      afterwards: the inner loop rebinds it. */
  method Trial(gef: Geffe, ghost g: Generator, bits: seq<int>, candidate: int) returns (stream: seq<int>, i: int)
    requires ValidGenerator(g) && |bits| > 0
    requires gef.Valid() && gef.n == g.n && gef.F == g.table && gef.Taps() == g.taps
    modifies gef.l0, gef.l1, gef.l2
    ensures gef.Valid()
    ensures stream == GeffeStream(g.table, g.taps, CandidateStates(g, candidate), |bits|)
    ensures gef.States() == GeffeStates(CandidateStates(g, candidate), g.taps, |bits|)
    ensures i == |bits| - 1
  {
    i := candidate;
    var k := new int[3];
    k[0], k[1], k[2] := 0, i, 0;
    gef.SetState(k);
    assert gef.States() == CandidateStates(g, candidate);
    stream, i := CollectStream(gef, |bits|);
  }

  /** The body of find_key_L1's outer loop for one candidate: a trial, its
      correlation, and the print when it is exactly 3/4. */
  method Consider(gef: Geffe, ghost g: Generator, bits: seq<int>, candidate: nat,
                  printed: seq<int>, candidates: seq<int>)
    returns (printed': seq<int>, candidates': seq<int>)
    requires ValidGenerator(g) && |bits| > 0
    requires gef.Valid() && gef.n == g.n && gef.F == g.table && gef.Taps() == g.taps
    requires candidates == Survivors(g, bits, candidate)
    requires printed == Repeat(|bits| - 1, |candidates|)
    modifies gef.l0, gef.l1, gef.l2
    ensures gef.Valid()
    ensures gef.States() == GeffeStates(CandidateStates(g, candidate), g.taps, |bits|)
    ensures candidates' == Survivors(g, bits, candidate + 1)
    ensures printed' == Repeat(|bits| - 1, |candidates'|)
  {
    var stream, i := Trial(gef, g, bits, candidate);
    var same, total := GetCorrelation(bits, stream);
    SurvivorsByAgreement(g, bits, candidate, same);
    printed', candidates' := printed, candidates;
    if FractionEquals(same, total, 3, 4) {
      printed' := printed' + [i];
      candidates' := candidates' + [candidate];
    }
  }

  /** The search of find_key_L1 for any generator `g` and any number `m` of
      candidates. Each trial resets all three registers from a fresh
      [0, candidate, 0], clocks the generator |bits| times and keeps the
      candidate when the agreement is exactly 3/4. `printed` is what the
      source prints; `candidates` holds the surviving seeds themselves. */
  method Search(g: Generator, bits: seq<int>, m: nat) returns (printed: seq<int>, candidates: seq<int>)
    requires ValidGenerator(g) && |bits| > 0
    ensures candidates == Survivors(g, bits, m)
    ensures printed == PrintedAsWritten(g, bits, m)
  {
    var gef := new Geffe(g.n, g.taps, g.table);
    printed, candidates := [], [];
    for candidate := 0 to m
      invariant gef.Valid() && gef.n == g.n && gef.F == g.table && gef.Taps() == g.taps
      invariant fresh(gef.l0) && fresh(gef.l1) && fresh(gef.l2)
      invariant candidates == Survivors(g, bits, candidate)
      invariant printed == Repeat(|bits| - 1, |candidates|)
    {
      printed, candidates := Consider(gef, g, bits, candidate, printed, candidates);
    }
  }

  /** find_key_L1 with the observed bits as a parameter: the search over
      range(2**16) with the source's generator. */
  method FindKeyL1(bits: seq<int>) returns (printed: seq<int>, candidates: seq<int>)
    requires |bits| > 0
    ensures candidates == Survivors(AttackGenerator, bits, KeySpace)
    ensures printed == PrintedAsWritten(AttackGenerator, bits, KeySpace)
    ensures forall c :: c in candidates <==> 0 <= c < Pow2(AttackGenerator.n) && Survives(AttackGenerator, bits, c)
  {
    AttackGeneratorIsValid();
    printed, candidates := Search(AttackGenerator, bits, KeySpace);
    SurvivorsAre(AttackGenerator, bits, KeySpace);
    KeySpaceIsAllSeeds();
  }
}
