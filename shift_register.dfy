/** Linear-feedback shift registers (class LFSR of implementation.py), the
    XOR-of-ANDs filter function they evaluate, and the filter generator
    built from one register (class FilteredLFSR). */
module ShiftRegister {

  /** One register cell. The source keeps cells as the Python integers 0 and 1. */
  type Bit = b: int | 0 <= b <= 1

  /** Python's `^` on two cells. */
  function Xor(a: Bit, b: Bit): Bit
  {
    if a == b then 0 else 1
  }

  /** Python's `&` on two cells. */
  function And(a: Bit, b: Bit): Bit
  {
    if a == 1 && b == 1 then 1 else 0
  }

  /** Every position of `ps` names a cell of a register of length `n`. */
  predicate InRange(ps: seq<int>, n: nat)
  {
    forall i :: 0 <= i < |ps| ==> 0 <= ps[i] < n
  }

  /** What the LFSR constructor asserts of its taps: position 0 comes first
      and every tap lies in [0, n-1]. */
  predicate ValidTaps(n: nat, taps: seq<int>)
  {
    |taps| > 0 && taps[0] == 0 && InRange(taps, n)
  }

  /** The feedback bit: the XOR of the tapped cells, accumulated in tap order. */
  function Feedback(state: seq<Bit>, taps: seq<int>): Bit
    requires InRange(taps, |state|)
  {
    if taps == [] then 0
    else Xor(Feedback(state, taps[..|taps| - 1]), state[taps[|taps| - 1]])
  }

  /** Number of ones among the tapped cells (a tap listed twice counts twice). */
  function TappedOnes(state: seq<Bit>, taps: seq<int>): nat
    requires InRange(taps, |state|)
  {
    if taps == [] then 0 else state[taps[0]] + TappedOnes(state, taps[1..])
  }

  /** Appending a tap toggles the feedback by that tap's cell. */
  lemma {:induction false} FeedbackFront(state: seq<Bit>, taps: seq<int>)
    requires |taps| > 0 && InRange(taps, |state|)
    ensures Feedback(state, taps) == Xor(state[taps[0]], Feedback(state, taps[1..]))
    decreases |taps|
  {
    if |taps| > 1 {
      FeedbackFront(state, taps[..|taps| - 1]);
      assert taps[..|taps| - 1][1..] == taps[1..][..|taps| - 2];
      assert taps[..|taps| - 1][0] == taps[0];
    } else {
      assert taps[..0] == [] && taps[1..] == [];
    }
  }

  /** The feedback bit is the parity of the tapped cells, whatever their order. */
  lemma {:induction false} FeedbackIsParity(state: seq<Bit>, taps: seq<int>)
    requires InRange(taps, |state|)
    ensures Feedback(state, taps) == TappedOnes(state, taps) % 2
    decreases |taps|
  {
    if taps != [] {
      FeedbackFront(state, taps);
      FeedbackIsParity(state, taps[1..]);
    }
  }

  /** The tapped ones of a concatenation add up. */
  lemma {:induction false} TappedOnesConcat(state: seq<Bit>, a: seq<int>, b: seq<int>)
    requires InRange(a, |state|) && InRange(b, |state|)
    ensures InRange(a + b, |state|)
    ensures TappedOnes(state, a + b) == TappedOnes(state, a) + TappedOnes(state, b)
    decreases |a|
  {
    assert forall i :: 0 <= i < |a + b| ==> (a + b)[i] == if i < |a| then a[i] else b[i - |a|];
    if a == [] {
      assert a + b == b;
    } else {
      TappedOnesConcat(state, a[1..], b);
      assert (a + b)[1..] == a[1..] + b;
    }
  }

  /** Taking tap k out of the list takes its cell out of the count. */
  lemma TappedOnesRemove(state: seq<Bit>, taps: seq<int>, k: nat)
    requires InRange(taps, |state|) && k < |taps|
    ensures InRange(taps[..k] + taps[k + 1..], |state|)
    ensures TappedOnes(state, taps) == state[taps[k]] + TappedOnes(state, taps[..k] + taps[k + 1..])
  {
    var front, back := taps[..k], taps[k..];
    assert taps == front + back;
    assert back[1..] == taps[k + 1..];
    TappedOnesConcat(state, front, back);
    TappedOnesConcat(state, front, taps[k + 1..]);
  }

  /** The count of tapped ones does not depend on the order of the taps. */
  lemma {:induction false} TappedOnesOrderFree(state: seq<Bit>, t1: seq<int>, t2: seq<int>)
    requires InRange(t1, |state|) && InRange(t2, |state|)
    requires multiset(t1) == multiset(t2)
    ensures TappedOnes(state, t1) == TappedOnes(state, t2)
    decreases |t1|
  {
    if t1 == [] {
      assert |multiset(t2)| == 0;
    } else {
      var first := t1[0];
      assert first in multiset(t2);
      var k :| 0 <= k < |t2| && t2[k] == first;
      var rest1, rest2 := t1[1..], t2[..k] + t2[k + 1..];
      MultisetWithoutBoth(t1, t2, k);
      TappedOnesRemove(state, t2, k);
      TappedOnesOrderFree(state, rest1, rest2);
    }
  }

  /** The feedback bit does not depend on the order of the taps. */
  lemma FeedbackOrderFree(state: seq<Bit>, t1: seq<int>, t2: seq<int>)
    requires InRange(t1, |state|) && InRange(t2, |state|)
    requires multiset(t1) == multiset(t2)
    ensures Feedback(state, t1) == Feedback(state, t2)
  {
    FeedbackIsParity(state, t1);
    FeedbackIsParity(state, t2);
    TappedOnesOrderFree(state, t1, t2);
  }

  /** One clock of the register: drop cell 0, shift left, append the feedback. */
  function Step(state: seq<Bit>, taps: seq<int>): (next: seq<Bit>)
    requires |state| > 0 && InRange(taps, |state|)
    ensures |next| == |state|
    ensures next[..|state| - 1] == state[1..]
    ensures next[|state| - 1] == Feedback(state, taps)
  {
    state[1..] + [Feedback(state, taps)]
  }

  /** The bits `k` clocks emit, starting from `state`. */
  function Outputs(state: seq<Bit>, taps: seq<int>, k: nat): (out: seq<Bit>)
    requires |state| > 0 && InRange(taps, |state|)
    ensures |out| == k
    decreases k
  {
    if k == 0 then [] else [state[0]] + Outputs(Step(state, taps), taps, k - 1)
  }

  /** Because output precedes update, the first n clocks replay the initial
      state, cell 0 first. */
  lemma {:induction false} OutputsReplayState(state: seq<Bit>, taps: seq<int>, k: nat)
    requires |state| > 0 && InRange(taps, |state|)
    requires k <= |state|
    ensures Outputs(state, taps, k) == state[..k]
    decreases k
  {
    if k > 0 {
      var next := Step(state, taps);
      OutputsReplayState(next, taps, k - 1);
      assert next[..k - 1] == state[1..k];
    }
  }

  /** Positions of `eq`'s monomials all name cells of a length-`n` register. */
  predicate MonomialsInRange(eq: seq<seq<int>>, n: nat)
  {
    forall m :: 0 <= m < |eq| ==> InRange(eq[m], n)
  }

  /** AND of the indexed cells, starting from 1 as the source does. */
  function MonomialValue(state: seq<Bit>, monomial: seq<int>): Bit
    requires InRange(monomial, |state|)
  {
    if monomial == [] then 1
    else And(MonomialValue(state, monomial[..|monomial| - 1]), state[monomial[|monomial| - 1]])
  }

  /** XOR over the monomials, starting from 0 as the source does. */
  function FilterValue(state: seq<Bit>, eq: seq<seq<int>>): Bit
    requires MonomialsInRange(eq, |state|)
  {
    if eq == [] then 0
    else Xor(FilterValue(state, eq[..|eq| - 1]), MonomialValue(state, eq[|eq| - 1]))
  }

  /** A monomial is 1 exactly when every cell it names is 1; in particular the
      empty monomial is 1. */
  lemma {:induction false} MonomialAllOnes(state: seq<Bit>, monomial: seq<int>)
    requires InRange(monomial, |state|)
    ensures MonomialValue(state, monomial) == 1
            <==> forall i :: 0 <= i < |monomial| ==> state[monomial[i]] == 1
    decreases |monomial|
  {
    if monomial != [] {
      var init := monomial[..|monomial| - 1];
      MonomialAllOnes(state, init);
      assert forall i :: 0 <= i < |init| ==> init[i] == monomial[i];
    }
  }

  /** The order of positions inside a monomial does not matter. */
  lemma MonomialOrderFree(state: seq<Bit>, m1: seq<int>, m2: seq<int>)
    requires InRange(m1, |state|) && InRange(m2, |state|)
    requires multiset(m1) == multiset(m2)
    ensures MonomialValue(state, m1) == MonomialValue(state, m2)
  {
    MonomialAllOnes(state, m1);
    MonomialAllOnes(state, m2);
    forall i | 0 <= i < |m1| ensures m1[i] in m2 {
      assert m1[i] in multiset(m1);
    }
    forall i | 0 <= i < |m2| ensures m2[i] in m1 {
      assert m2[i] in multiset(m2);
    }
  }

  /** The filter of a concatenation is the XOR of the filters of its parts. */
  lemma {:induction false} FilterConcat(state: seq<Bit>, a: seq<seq<int>>, b: seq<seq<int>>)
    requires MonomialsInRange(a, |state|) && MonomialsInRange(b, |state|)
    ensures MonomialsInRange(a + b, |state|)
    ensures FilterValue(state, a + b) == Xor(FilterValue(state, a), FilterValue(state, b))
    decreases |b|
  {
    assert forall m :: 0 <= m < |a + b| ==> (a + b)[m] == if m < |a| then a[m] else b[m - |a|];
    if b == [] {
      assert a + b == a;
    } else {
      var b' := b[..|b| - 1];
      FilterConcat(state, a, b');
      assert (a + b)[..|a + b| - 1] == a + b';
    }
  }

  /** The filter of a sequence of monomials is the filter of the other
      monomials toggled by the removed one. */
  lemma FilterRemove(state: seq<Bit>, eq: seq<seq<int>>, k: nat)
    requires MonomialsInRange(eq, |state|) && k < |eq|
    ensures MonomialsInRange(eq[..k] + eq[k + 1..], |state|)
    ensures FilterValue(state, eq)
            == Xor(MonomialValue(state, eq[k]), FilterValue(state, eq[..k] + eq[k + 1..]))
  {
    var front, back, upTo := eq[..k], eq[k + 1..], eq[..k + 1];
    SlicesInRange(eq, |state|, k);
    assert eq == upTo + back;
    FilterConcat(state, upTo, back);
    assert upTo[..k] == front;
    FilterConcat(state, front, back);
  }

  /** The slices FilterRemove works on keep every position in range. */
  lemma SlicesInRange(eq: seq<seq<int>>, n: nat, k: nat)
    requires MonomialsInRange(eq, n) && k < |eq|
    ensures MonomialsInRange(eq[..k], n) && MonomialsInRange(eq[k + 1..], n)
    ensures MonomialsInRange(eq[..k + 1], n) && MonomialsInRange(eq[..k] + eq[k + 1..], n)
  {
    var rest := eq[..k] + eq[k + 1..];
    forall m | 0 <= m < |rest| ensures InRange(rest[m], n) {
      if m < k { assert rest[m] == eq[m]; } else { assert rest[m] == eq[m + 1]; }
    }
  }

  /** Taking element k out of a sequence takes one copy of it out of the multiset. */
  lemma MultisetWithout<T>(s: seq<T>, k: nat)
    requires k < |s|
    ensures multiset(s) == multiset(s[..k] + s[k + 1..]) + multiset{s[k]}
  {
    assert s == s[..k] + [s[k]] + s[k + 1..];
  }

  /** Two sequences with the same elements keep the same elements when the
      first of one and a matching element of the other are taken out. */
  lemma MultisetWithoutBoth<T>(s1: seq<T>, s2: seq<T>, k: nat)
    requires multiset(s1) == multiset(s2) && |s1| > 0 && k < |s2| && s2[k] == s1[0]
    ensures multiset(s1[1..]) == multiset(s2[..k] + s2[k + 1..])
  {
    var rest1, rest2 := s1[1..], s2[..k] + s2[k + 1..];
    assert s1 == [s1[0]] + rest1;
    MultisetWithout(s2, k);
    forall y ensures multiset(rest1)[y] == multiset(rest2)[y] {
      assert multiset(s1)[y] == multiset(s2)[y];
    }
    assert multiset(rest1) == multiset(rest2);
  }

  /** The filter does not depend on the order of the monomials. */
  lemma {:induction false} FilterOrderFree(state: seq<Bit>, eq1: seq<seq<int>>, eq2: seq<seq<int>>)
    requires MonomialsInRange(eq1, |state|) && MonomialsInRange(eq2, |state|)
    requires multiset(eq1) == multiset(eq2)
    ensures FilterValue(state, eq1) == FilterValue(state, eq2)
    decreases |eq1|
  {
    if eq1 == [] {
      assert |multiset(eq2)| == 0;
    } else {
      var last := eq1[|eq1| - 1];
      var init1 := eq1[..|eq1| - 1];
      MultisetWithout(eq1, |eq1| - 1);
      assert eq1[..|eq1| - 1] + eq1[|eq1|..] == init1;
      assert last in multiset(eq2);
      var k :| 0 <= k < |eq2| && eq2[k] == last;
      var rest2 := eq2[..k] + eq2[k + 1..];
      MultisetWithout(eq2, k);
      assert forall y :: multiset(init1)[y] == multiset(rest2)[y] by {
        forall y ensures multiset(init1)[y] == multiset(rest2)[y] {
          assert multiset(eq1)[y] == multiset(eq2)[y];
        }
      }
      assert multiset(init1) == multiset(rest2);
      FilterRemove(state, eq2, k);
      FilterOrderFree(state, init1, rest2);
    }
  }

  /** A linear-feedback shift register (class LFSR): a fixed tap tuple and a
      mutable n-cell state. */
  class Lfsr {
    const n: nat
    const taps: seq<int>
    var state: seq<Bit>

    ghost predicate Valid()
      reads this
    {
      ValidTaps(n, taps) && |state| == n
    }

    /** LFSR.__init__: checks the taps and starts from n zero cells. */
    constructor (n: nat, taps: seq<int>)
      requires ValidTaps(n, taps)
      ensures Valid()
      ensures this.n == n && this.taps == taps
      ensures state == seq(n, _ => 0)
    {
      this.n := n;
      this.taps := taps;
      state := seq(n, _ => 0);
    }

    /** LFSR.init: loads an explicit state of exactly n cells. */
    method Init(s: seq<Bit>)
      requires Valid()
      requires |s| == n
      modifies this
      ensures Valid()
      ensures state == s
    {
      state := s;
    }

    /** LFSR.clock: emits cell 0 of the old state, then shifts in the feedback. */
    method Clock() returns (output: Bit)
      requires Valid()
      modifies this
      ensures Valid()
      ensures output == old(state)[0]
      ensures state == Step(old(state), taps)
    {
      output := state[0];
      var newVal: Bit := 0;
      for t := 0 to |taps|
        invariant newVal == Feedback(state, taps[..t])
      {
        assert taps[..t + 1][..t] == taps[..t];
        newVal := Xor(newVal, state[taps[t]]);
      }
      assert taps[..|taps|] == taps;
      state := state[1..] + [newVal];
    }

    /** LFSR.filter: evaluates the XOR-of-ANDs `eq` on the current state,
        leaving the state as it is. */
    method Filter(eq: seq<seq<int>>) returns (output: Bit)
      requires Valid()
      requires MonomialsInRange(eq, n)
      ensures output == FilterValue(state, eq)
    {
      output := 0;
      for m := 0 to |eq|
        invariant output == FilterValue(state, eq[..m])
      {
        var monomial := eq[m];
        var value: Bit := 1;
        for v := 0 to |monomial|
          invariant value == MonomialValue(state, monomial[..v])
        {
          assert monomial[..v + 1][..v] == monomial[..v];
          value := And(value, state[monomial[v]]);
        }
        assert monomial[..|monomial|] == monomial;
        assert eq[..m + 1][..m] == eq[..m];
        output := Xor(output, value);
      }
      assert eq[..|eq|] == eq;
    }
  }

  /** A filter generator (class FilteredLFSR): one register and the
      monomials of its filter. */
  class FilteredLfsr {
    const reg: Lfsr
    const eq: seq<seq<int>>

    ghost predicate Valid()
      reads this, reg
    {
      reg.Valid()
    }

    /** FilteredLFSR.__init__, with the random initial cells passed in. */
    constructor (n: nat, taps: seq<int>, f: seq<seq<int>>, initial: seq<Bit>)
      requires ValidTaps(n, taps)
      requires |initial| == n
      ensures Valid() && fresh(reg)
      ensures reg.n == n && reg.taps == taps && reg.state == initial
      ensures eq == f
    {
      var r := new Lfsr(n, taps);
      r.Init(initial);
      reg := r;
      eq := f;
    }

    /** FilteredLFSR.clock: the filter of the state before the step, after
        which the register advances by exactly one clock. */
    method Clock() returns (output: Bit)
      requires Valid()
      requires MonomialsInRange(eq, reg.n)
      modifies reg
      ensures Valid()
      ensures output == FilterValue(old(reg.state), eq)
      ensures reg.state == Step(old(reg.state), reg.taps)
    {
      output := reg.Filter(eq);
      var _ := reg.Clock();
    }
  }
}
