/** The rotor-cipher known-plaintext attack of enigma_cryptanalysis.py.
    Four rotors share one alphabet; only rotor N turns. A letter is shifted
    by N's rotation (P), sent through N, shifted back (P^-I), and for the
    plaintext side also through the fixed composite Z = M^-1 L^-1 R L M.
    The attack tries each of the 26 starting rotations of N and keeps the
    first one under which the letter mapping between the two transformed
    texts is a function. */
module Enigma {
  import opened Arithmetic

  datatype Option<T> = None | Some(value: T)

  /** The 26 upper-case letters, in order. */
  const Alphabet: string := "ABCDEFGHIJKLMNOPQRSTUVWXYZ"

  const Letters: int := 26

  predicate IsUpper(c: char)
  {
    'A' <= c <= 'Z'
  }

  /** The letter with index i. */
  function Letter(i: int): (c: char)
    requires 0 <= i < Letters
    ensures IsUpper(c)
  {
    (i + 65) as char
  }

  /** char_to_index: the code point of the letter minus 65. The source takes
      the first character of a one-letter string; here it takes the
      character. */
  function CharToIndex(c: char): (i: int)
    ensures IsUpper(c) <==> 0 <= i < Letters
    ensures IsUpper(c) ==> Letter(i) == c
  {
    c as int - 65
  }

  /** i is one of the 26 letter indices, written out value by value so
      that asserting it makes a fact about every letter split into 26
      concrete cases. */
  predicate EnumeratedLetter(i: int)
  {
    i == 0 || i == 1 || i == 2 || i == 3 || i == 4 || i == 5 || i == 6 || i == 7 ||
      i == 8 || i == 9 || i == 10 || i == 11 || i == 12 || i == 13 || i == 14 || i == 15 ||
      i == 16 || i == 17 || i == 18 || i == 19 || i == 20 || i == 21 || i == 22 || i == 23 ||
      i == 24 || i == 25
  }

  /** ALPHABET holds the letters in index order. */
  lemma AlphabetInOrder()
    ensures |Alphabet| == Letters
    ensures forall i :: 0 <= i < Letters ==> Alphabet[i] == Letter(i)
  {
    forall i | 0 <= i < Letters
      ensures Alphabet[i] == Letter(i)
    {
      assert EnumeratedLetter(i);
    }
  }

  /** str.find: the first position of x in w, or -1 when x does not occur. */
  function FirstIndex(w: string, x: char): (i: int)
    ensures -1 <= i < |w|
    ensures i == -1 <==> x !in w
    ensures i >= 0 ==> w[i] == x && forall j :: 0 <= j < i ==> w[j] != x
  {
    if w == [] then -1
    else if w[0] == x then 0
    else
      var k := FirstIndex(w[1..], x);
      if k == -1 then -1 else k + 1
  }

  /** A wiring that is a permutation of the alphabet: 26 distinct upper-case
      letters, so every upper-case letter occurs. */
  predicate IsPermutation(w: string)
  {
    && |w| == Letters
    && (forall i :: 0 <= i < Letters ==> IsUpper(w[i]))
    && (forall i, j :: 0 <= i < j < Letters ==> w[i] != w[j])
    && (forall c :: IsUpper(c) ==> c in w)
  }

  /** Every entry of `w` is a letter, and `inv` sends it back to the letter
      at its position. */
  predicate Undoes(w: string, inv: string)
  {
    && |w| == Letters && |inv| == Letters
    && forall i :: 0 <= i < Letters ==> IsUpper(w[i]) && inv[CharToIndex(w[i])] == Letter(i)
  }

  /** `inv` undoes `w` on both sides: a certificate that both are
      permutations. */
  predicate Inverts(w: string, inv: string)
  {
    Undoes(w, inv) && Undoes(inv, w)
  }

  /** A wiring with a two-sided inverse is a permutation. */
  lemma InverseMakesPermutation(w: string, inv: string)
    requires Inverts(w, inv)
    ensures IsPermutation(w)
  {
    forall i, j | 0 <= i < j < Letters
      ensures w[i] != w[j]
    {
      assert inv[CharToIndex(w[i])] == Letter(i);
      assert inv[CharToIndex(w[j])] == Letter(j);
    }
    forall c | IsUpper(c)
      ensures c in w
    {
      var k := CharToIndex(c);
      assert w[CharToIndex(inv[k])] == c;
    }
  }

  /** The rotor wirings of enigma_cryptanalysis.py and the inverses of the
      first three. */
  const NWiring: string := "BDFHJLCPRTXVZNYEIWGAKMUSQO"
  const MWiring: string := "AJDKSIRUXBLHWTMCQGZNPYFVOE"
  const LWiring: string := "EKMFLGDQVZNTOWYHXUSPAIBRCJ"
  const RWiring: string := "YRUHQSLDPXNGOKMIEBFZCWVJAT"

  const NInverse: string := "TAGBPCSDQEUFVNZHYIXJWLRKOM"
  const MInverse: string := "AJPCZWRLFBDKOTYUQGENHXMIVS"
  const LInverse: string := "UWYGADFPVZBECKMTHXSLRINQOJ"

  /** NInverse undoes NWiring. */
  lemma NInverseUndoesN()
    ensures Undoes(NWiring, NInverse)
  {
    forall i | 0 <= i < Letters
      ensures IsUpper(NWiring[i]) && NInverse[CharToIndex(NWiring[i])] == Letter(i)
    {
      assert EnumeratedLetter(i);
    }
  }

  /** NWiring undoes NInverse. */
  lemma NWiringUndoesNInverse()
    ensures Undoes(NInverse, NWiring)
  {
    forall i | 0 <= i < Letters
      ensures IsUpper(NInverse[i]) && NWiring[CharToIndex(NInverse[i])] == Letter(i)
    {
      assert EnumeratedLetter(i);
    }
  }

  /** MInverse undoes MWiring. */
  lemma MInverseUndoesM()
    ensures Undoes(MWiring, MInverse)
  {
    forall i | 0 <= i < Letters
      ensures IsUpper(MWiring[i]) && MInverse[CharToIndex(MWiring[i])] == Letter(i)
    {
      assert EnumeratedLetter(i);
    }
  }

  /** MWiring undoes MInverse. */
  lemma MWiringUndoesMInverse()
    ensures Undoes(MInverse, MWiring)
  {
    forall i | 0 <= i < Letters
      ensures IsUpper(MInverse[i]) && MWiring[CharToIndex(MInverse[i])] == Letter(i)
    {
      assert EnumeratedLetter(i);
    }
  }

  /** LInverse undoes LWiring. */
  lemma LInverseUndoesL()
    ensures Undoes(LWiring, LInverse)
  {
    forall i | 0 <= i < Letters
      ensures IsUpper(LWiring[i]) && LInverse[CharToIndex(LWiring[i])] == Letter(i)
    {
      assert EnumeratedLetter(i);
    }
  }

  /** LWiring undoes LInverse. */
  lemma LWiringUndoesLInverse()
    ensures Undoes(LInverse, LWiring)
  {
    forall i | 0 <= i < Letters
      ensures IsUpper(LInverse[i]) && LWiring[CharToIndex(LInverse[i])] == Letter(i)
    {
      assert EnumeratedLetter(i);
    }
  }

  /** R is reflector B: its own inverse. */
  lemma RWiringIsInvolution()
    ensures Inverts(RWiring, RWiring)
  {
    forall i | 0 <= i < Letters
      ensures IsUpper(RWiring[i]) && RWiring[CharToIndex(RWiring[i])] == Letter(i)
    {
      assert EnumeratedLetter(i);
    }
  }

  /** Python's `%` by a positive modulus is Dafny's `%`; stepping a reduced
      value by one agrees with stepping the unreduced one. */
  lemma ModStep(a: int)
    ensures (a % Letters + 1) % Letters == (a + 1) % Letters
  {
    var q, m := a / Letters, a % Letters;
    if m + 1 < Letters {
      DivUnique(a + 1, Letters, q, m + 1);
      DivUnique(m + 1, Letters, 0, m + 1);
    } else {
      DivUnique(a + 1, Letters, q + 1, 0);
      DivUnique(m + 1, Letters, 1, 0);
    }
  }

  /** Shifting an index by r and back by r, in either order, returns it. */
  lemma ModShiftBack(k: int, r: int)
    requires 0 <= k < Letters
    ensures ((k + r) % Letters - r) % Letters == k
    ensures ((k - r) % Letters + r) % Letters == k
  {
    var q, m := (k + r) / Letters, (k + r) % Letters;
    DivUnique(m - r, Letters, -q, k);
    var q', m' := (k - r) / Letters, (k - r) % Letters;
    DivUnique(m' + r, Letters, -q', k);
  }

  /** A rotor: a wiring string and a rotation counter. */
  class Rotor {
    const wiring: string
    var rotation: int

    /** Rotor.__init__. */
    constructor(wiring: string, startingRotation: int)
      ensures this.wiring == wiring && rotation == startingRotation
    {
      this.wiring := wiring;
      rotation := startingRotation;
    }

    /** Rotor.rotate: one step forward, taken mod 26. */
    method Rotate()
      modifies this
      ensures rotation == (old(rotation) + 1) % Letters
      ensures 0 <= rotation < Letters
    {
      rotation := rotation + 1;
      rotation := rotation % Letters;
    }

    /** Rotor.set_rotation: any value, unreduced. */
    method SetRotation(val: int)
      modifies this
      ensures rotation == val
    {
      rotation := val;
    }

    /** Rotor.get: the wiring's letter at x's index. */
    function Get(x: char): (y: char)
      requires 0 <= CharToIndex(x) < |wiring|
      ensures y in wiring
    {
      wiring[CharToIndex(x)]
    }

    /** Rotor.get_reverse: the letter whose index is the first position of x
        in the wiring. When x is absent, find gives -1 and ALPHABET[-1] is
        the last letter. A wiring longer than the alphabet could make the
        index run past ALPHABET, so it is excluded. */
    function GetReverse(x: char): (y: char)
      requires |wiring| <= Letters
      ensures IsUpper(y)
      ensures x in wiring ==> CharToIndex(y) < |wiring| && Get(y) == x
      ensures x !in wiring ==> y == 'Z'
    {
      var i := FirstIndex(wiring, x);
      if i == -1 then Letter(Letters - 1) else Letter(i)
    }

    /** GetReverse reads its result out of ALPHABET, with Python's index -1
        picking the last letter. */
    lemma GetReverseReadsAlphabet(x: char)
      requires |wiring| <= Letters
      ensures var i := FirstIndex(wiring, x);
              GetReverse(x) == if i == -1 then Alphabet[|Alphabet| - 1] else Alphabet[i]
    {
      AlphabetInOrder();
    }

    /** For a permutation wiring, get_reverse undoes get ... */
    lemma GetReverseGet(x: char)
      requires IsPermutation(wiring) && IsUpper(x)
      ensures GetReverse(Get(x)) == x
    {
      var k := CharToIndex(x);
      var i := FirstIndex(wiring, wiring[k]);
      assert i <= k;
      assert i == k;
    }

    /** ... and get undoes get_reverse. */
    lemma GetGetReverse(x: char)
      requires IsPermutation(wiring) && IsUpper(x)
      ensures Get(GetReverse(x)) == x
    {
    }
  }

  /** applyP: the cyclic shift forward by the rotation r of rotor N. */
  function ApplyP(r: int, c: char): (y: char)
    ensures IsUpper(y)
  {
    Letter((CharToIndex(c) + r) % Letters)
  }

  /** applyPI: the cyclic shift backward by r. */
  function ApplyPI(r: int, c: char): (y: char)
    ensures IsUpper(y)
  {
    Letter((CharToIndex(c) - r) % Letters)
  }

  /** On letters the two shifts at the same rotation undo each other. */
  lemma ShiftRoundTrip(r: int, c: char)
    requires IsUpper(c)
    ensures ApplyPI(r, ApplyP(r, c)) == c
    ensures ApplyP(r, ApplyPI(r, c)) == c
  {
    ModShiftBack(CharToIndex(c), r);
  }

  /** Every letter of `a` at two positions is matched by the same letter of
      `b` at those positions: the letter mapping a -> b is a function. */
  predicate Consistent(a: string, b: string)
    requires |b| >= |a|
  {
    forall i, j :: 0 <= i < |a| && 0 <= j < |a| && a[i] == a[j] ==> b[i] == b[j]
  }

  /** check_contradictions: every pair of positions is compared, and the
      first pair with equal letters of `a` but different letters of `b`
      ends the check. `b` must be at least as long as `a`, or the
      comparison indexes past its end. */
  method CheckContradictions(a: string, b: string) returns (ok: bool)
    requires |b| >= |a|
    ensures ok <==> Consistent(a, b)
  {
    for i := 0 to |a|
      invariant forall i', j :: 0 <= i' < i && 0 <= j < |a| && a[i'] == a[j] ==> b[i'] == b[j]
    {
      for j := 0 to |a|
        invariant forall j' :: 0 <= j' < j && a[i] == a[j'] ==> b[i] == b[j']
      {
        if a[i] == a[j] && b[i] != b[j] {
          return false;
        }
      }
    }
    return true;
  }

  /** `f` sends each letter of `a` to the letter of `b` at its position. */
  predicate MapsLetters(f: map<char, char>, a: string, b: string)
    requires |b| >= |a|
  {
    forall i :: 0 <= i < |a| ==> a[i] in f && f[a[i]] == b[i]
  }

  /** Consistency is exactly the existence of a letter map sending each
      letter of `a` to the letter of `b` at the same position. */
  lemma ConsistentIffMapping(a: string, b: string)
    requires |b| >= |a|
    ensures Consistent(a, b) <==> exists f :: MapsLetters(f, a, b)
  {
    if Consistent(a, b) {
      var f := map c | c in a :: b[FirstIndex(a, c)];
      forall i | 0 <= i < |a|
        ensures a[i] in f && f[a[i]] == b[i]
      {
        var k := FirstIndex(a, a[i]);
        assert a[k] == a[i];
      }
      assert MapsLetters(f, a, b);
    }
  }

  /** The two transformations encrypt can apply: P^-I N P on the
      ciphertext, and Z after it on the plaintext. */
  datatype Stage = PINP | ZPINP

  /** The four rotors the script declares at module level. */
  class Machine {
    const N: Rotor
    const M: Rotor
    const L: Rotor
    const R: Rotor

    /** The wirings of enigma_cryptanalysis.py, each rotor at rotation 0. */
    constructor()
      ensures N.wiring == NWiring && M.wiring == MWiring
      ensures L.wiring == LWiring && R.wiring == RWiring
      ensures N.rotation == 0 && M.rotation == 0 && L.rotation == 0 && R.rotation == 0
      ensures fresh(N) && fresh(M) && fresh(L) && fresh(R)
      ensures Valid()
    {
      N := new Rotor(NWiring, 0);
      M := new Rotor(MWiring, 0);
      L := new Rotor(LWiring, 0);
      R := new Rotor(RWiring, 0);
      NInverseUndoesN();
      NWiringUndoesNInverse();
      InverseMakesPermutation(NWiring, NInverse);
      MInverseUndoesM();
      MWiringUndoesMInverse();
      InverseMakesPermutation(MWiring, MInverse);
      LInverseUndoesL();
      LWiringUndoesLInverse();
      InverseMakesPermutation(LWiring, LInverse);
      RWiringIsInvolution();
      InverseMakesPermutation(RWiring, RWiring);
    }

    /** What the transformations need to stay inside the wirings: four
        wirings of 26 characters, those of M and L letters. */
    predicate Wired()
    {
      && |N.wiring| == Letters && |M.wiring| == Letters
      && |L.wiring| == Letters && |R.wiring| == Letters
      && forall i :: 0 <= i < Letters ==> IsUpper(M.wiring[i]) && IsUpper(L.wiring[i])
    }

    /** What the round trips need of the wirings: all four are permutations
        and R is its own inverse, as the literal wirings are. */
    predicate Valid()
      ensures Valid() ==> Wired()
    {
      && IsPermutation(N.wiring) && IsPermutation(M.wiring)
      && IsPermutation(L.wiring) && IsPermutation(R.wiring)
      && Undoes(R.wiring, R.wiring)
    }

    /** applyPINP at N's rotation r: P, then rotor N, then P^-I. */
    function ApplyPINP(r: int, c: char): (y: char)
      requires Wired()
      ensures IsUpper(y)
    {
      ApplyPI(r, N.Get(ApplyP(r, c)))
    }

    /** applyZ: through M, L and R, then back through L and M reversed. */
    function ApplyZ(c: char): (y: char)
      requires Wired() && IsUpper(c)
      ensures IsUpper(y)
    {
      var e := R.Get(L.Get(M.Get(c)));
      M.GetReverse(L.GetReverse(e))
    }

    /** applyZPINP: Z after PINP. */
    function ApplyZPINP(r: int, c: char): (y: char)
      requires Wired()
      ensures IsUpper(y)
    {
      ApplyZ(ApplyPINP(r, c))
    }

    /** The transformation `stage` at N's rotation r. */
    function Apply(stage: Stage, r: int, c: char): char
      requires Wired()
    {
      match stage
      case PINP => ApplyPINP(r, c)
      case ZPINP => ApplyZPINP(r, c)
    }

    /** The reflector makes Z its own inverse on letters. */
    lemma ZIsInvolution(c: char)
      requires Valid() && IsUpper(c)
      ensures ApplyZ(ApplyZ(c)) == c
    {
      var m := M.Get(c);
      var l := L.Get(m);
      var e := R.Get(l);
      var l' := L.GetReverse(e);
      var z := M.GetReverse(l');
      M.GetReverseGet(c);
      L.GetReverseGet(m);
      assert R.Get(e) == l;
      M.GetGetReverse(l');
      L.GetGetReverse(e);
    }

    /** The inverse of PINP at rotation r: P, N reversed, P^-I. */
    function InversePINP(r: int, c: char): (y: char)
      requires Valid()
      ensures IsUpper(y)
    {
      ApplyPI(r, N.GetReverse(ApplyP(r, c)))
    }

    /** PINP undoes its inverse on letters ... */
    lemma PINPUndoesInverse(r: int, y: char)
      requires Valid() && IsUpper(y)
      ensures ApplyPINP(r, InversePINP(r, y)) == y
    {
      var g := N.GetReverse(ApplyP(r, y));
      ShiftRoundTrip(r, g);
      N.GetGetReverse(ApplyP(r, y));
      ShiftRoundTrip(r, y);
    }

    /** ... and the inverse undoes PINP. */
    lemma InverseUndoesPINP(r: int, x: char)
      requires Valid() && IsUpper(x)
      ensures InversePINP(r, ApplyPINP(r, x)) == x
    {
      var n := N.Get(ApplyP(r, x));
      ShiftRoundTrip(r, n);
      N.GetReverseGet(ApplyP(r, x));
      ShiftRoundTrip(r, x);
    }

    /** The rotor machine's cipher at N's rotation r: the signal passes N
        at rotation r, the fixed Z, then N backwards. This is the cipher
        the attack assumes produced its ciphertext. */
    function Cipher(r: int, p: char): (c: char)
      requires Valid()
      ensures IsUpper(c)
    {
      InversePINP(r, ApplyZ(ApplyPINP(r, p)))
    }

    /** The cipher is self-reciprocal: at the same rotation it decrypts its
        own output. */
    lemma CipherIsInvolution(r: int, p: char)
      requires Valid() && IsUpper(p)
      ensures Cipher(r, Cipher(r, p)) == p
    {
      var x := ApplyPINP(r, p);
      var z := ApplyZ(x);
      PINPUndoesInverse(r, z);
      ZIsInvolution(x);
      InverseUndoesPINP(r, p);
    }

    /** The transformation `stage` as a function of rotation and letter. */
    function Transform(stage: Stage): (int, char) --> char
    {
      (r, c) requires Wired() => Apply(stage, r, c)
    }

    /** What encrypt returns for `word` when N starts at rotation r0. */
    function Enciphered(stage: Stage, r0: int, word: string): (out: string)
      requires Wired()
      ensures |out| == |word|
    {
      Transcribed(Transform(stage), r0, word)
    }

    /** Letter j of the encryption is the transformation of word[j] at
        N's rotation after j + 1 turns. */
    lemma EncipheredAt(stage: Stage, r0: int, word: string, j: int)
      requires Wired() && 0 <= j < |word|
      ensures |Enciphered(stage, r0, word)| == |word|
      ensures Enciphered(stage, r0, word)[j] == Apply(stage, Advanced(r0, j + 1), word[j])
    {
      TranscribedAt(Transform(stage), r0, word, j);
    }

    /** encrypt: turns N once per letter, then transforms the letter at N's
        new rotation. Afterwards N has turned |word| times. */
    method Encrypt(word: string, func: (int, char) --> char) returns (result: string)
      requires forall r, c :: func.requires(r, c)
      modifies N
      ensures result == Transcribed(func, old(N.rotation), word)
      ensures N.rotation == Advanced(old(N.rotation), |word|)
    {
      ghost var r0 := N.rotation;
      result := "";
      for k := 0 to |word|
        invariant result == Transcribed(func, r0, word[..k])
        invariant N.rotation == Advanced(r0, k)
      {
        N.Rotate();
        TranscribedStep(func, r0, word, k);
        result := result + [func(N.rotation, word[k])];
      }
      assert word[..|word|] == word;
    }

    /** Starting rotation i passes: under it the letter mapping from the
        transformed plaintext to the transformed ciphertext is a function. */
    predicate Passes(plaintext: string, ciphertext: string, i: int)
      requires Wired() && |ciphertext| >= |plaintext|
    {
      Consistent(Enciphered(ZPINP, i, plaintext), Enciphered(PINP, i, ciphertext))
    }

    /** The result bathons_attack reports: the first starting rotation
        that passes, if any. */
    function Attack(plaintext: string, ciphertext: string): Option<int>
      requires Wired() && |ciphertext| >= |plaintext|
    {
      FirstAccepted(i => Passes(plaintext, ciphertext, i), 0)
    }

    /** A rotation the attack reports lies in [0, 26) and passes, and no
        earlier rotation passes. */
    lemma AttackIsFirstPassing(plaintext: string, ciphertext: string)
      requires Wired() && |ciphertext| >= |plaintext|
      ensures var r := Attack(plaintext, ciphertext);
              r.Some? ==> 0 <= r.value < Letters && Passes(plaintext, ciphertext, r.value)
      ensures var r := Attack(plaintext, ciphertext);
              r.Some? ==> forall i :: 0 <= i < r.value ==> !Passes(plaintext, ciphertext, i)
    {
      var accept := i => Passes(plaintext, ciphertext, i);
      var r := FirstAccepted(accept, 0);
      assert Attack(plaintext, ciphertext) == r;
      if r.Some? {
        assert accept(r.value);
        forall i | 0 <= i < r.value
          ensures !Passes(plaintext, ciphertext, i)
        {
          assert !accept(i);
        }
      }
    }

    /** The attack reports nothing only when no rotation in [0, 26) passes. */
    lemma AttackNoneWhenNonePasses(plaintext: string, ciphertext: string)
      requires Wired() && |ciphertext| >= |plaintext|
      ensures Attack(plaintext, ciphertext).None? ==> forall i :: 0 <= i < Letters ==> !Passes(plaintext, ciphertext, i)
    {
      var accept := i => Passes(plaintext, ciphertext, i);
      var r := FirstAccepted(accept, 0);
      assert Attack(plaintext, ciphertext) == r;
      if r.None? {
        forall i | 0 <= i < Letters
          ensures !Passes(plaintext, ciphertext, i)
        {
          assert !accept(i);
        }
      }
    }

    /** bathons_attack: for each starting rotation i of N in turn, N is set
        to i before each of the two encryptions, and the first i whose
        texts are consistent is the result. */
    method BathonsAttack(plaintext: string, ciphertext: string) returns (setting: Option<int>)
      requires Wired() && |ciphertext| >= |plaintext|
      modifies N
      ensures setting == Attack(plaintext, ciphertext)
      ensures N.rotation == Advanced(if setting.Some? then setting.value else Letters - 1, |ciphertext|)
    {
      ghost var accept := i => Passes(plaintext, ciphertext, i);
      for i := 0 to Letters
        invariant FirstAccepted(accept, i) == Attack(plaintext, ciphertext)
        invariant i > 0 ==> N.rotation == Advanced(i - 1, |ciphertext|)
      {
        N.SetRotation(i);
        var p := Encrypt(plaintext, Transform(ZPINP));
        N.SetRotation(i);
        var c := Encrypt(ciphertext, Transform(PINP));
        var ok := CheckContradictions(p, c);
        if ok {
          return Some(i);
        }
      }
      return None;
    }

    /** The ciphertext starts with the machine's encryption of the
        plaintext from starting rotation i0. */
    predicate EncryptsFrom(plaintext: string, ciphertext: string, i0: int)
      requires Valid()
    {
      && |ciphertext| >= |plaintext|
      && forall j :: 0 <= j < |plaintext| ==>
           ciphertext[j] == Cipher(Advanced(i0, j + 1), plaintext[j])
    }

    /** A cipher letter under PINP meets its plaintext letter under ZPINP:
        the two sides of the attack agree letter by letter. */
    lemma SidesAgree(r: int, p: char)
      requires Valid()
      ensures Apply(PINP, r, Cipher(r, p)) == Apply(ZPINP, r, p)
    {
      PINPUndoesInverse(r, ApplyZ(ApplyPINP(r, p)));
    }

    /** If the ciphertext is the machine's encryption of the plaintext from
        starting rotation i0, the transformed texts agree up to the
        plaintext's length, so i0 passes the check. */
    lemma TrueSettingPasses(plaintext: string, ciphertext: string, i0: int)
      requires Valid() && EncryptsFrom(plaintext, ciphertext, i0)
      ensures Passes(plaintext, ciphertext, i0)
    {
      var a := Enciphered(ZPINP, i0, plaintext);
      var b := Enciphered(PINP, i0, ciphertext);
      forall j | 0 <= j < |plaintext|
        ensures b[j] == a[j]
      {
        EncipheredAt(ZPINP, i0, plaintext, j);
        EncipheredAt(PINP, i0, ciphertext, j);
        SidesAgree(Advanced(i0, j + 1), plaintext[j]);
      }
    }

    /** So the attack never misses the true setting: it reports a setting,
        and never one later than i0. */
    lemma AttackFindsTrueSetting(plaintext: string, ciphertext: string, i0: int)
      requires Valid() && EncryptsFrom(plaintext, ciphertext, i0) && 0 <= i0 < Letters
      ensures Attack(plaintext, ciphertext).Some?
      ensures Attack(plaintext, ciphertext).value <= i0
    {
      TrueSettingPasses(plaintext, ciphertext, i0);
      var accept := i => Passes(plaintext, ciphertext, i);
      assert accept(i0);
      FirstAcceptedReaches(accept, 0, i0);
      assert Attack(plaintext, ciphertext) == FirstAccepted(accept, 0);
    }
  }

  /** The letters of `word` passed one by one through f, letter j at
      N's rotation after j + 1 turns from r0. */
  function Transcribed(f: (int, char) --> char, r0: int, word: string): (out: string)
    requires forall r, c :: f.requires(r, c)
    ensures |out| == |word|
  {
    if word == [] then []
    else Transcribed(f, r0, word[..|word| - 1]) + [f(Advanced(r0, |word|), word[|word| - 1])]
  }

  /** Transcribing one more letter appends its image. */
  lemma TranscribedStep(f: (int, char) --> char, r0: int, word: string, k: int)
    requires forall r, c :: f.requires(r, c)
    requires 0 <= k < |word|
    ensures Transcribed(f, r0, word[..k + 1])
            == Transcribed(f, r0, word[..k]) + [f(Advanced(r0, k + 1), word[k])]
  {
    assert word[..k + 1][..k] == word[..k];
  }

  /** Letter j of a transcription is the image of word[j] at N's rotation
      after j + 1 turns. */
  lemma {:induction false} TranscribedAt(f: (int, char) --> char, r0: int, word: string, j: int)
    requires forall r, c :: f.requires(r, c)
    requires 0 <= j < |word|
    ensures Transcribed(f, r0, word)[j] == f(Advanced(r0, j + 1), word[j])
    decreases |word|
  {
    var front := word[..|word| - 1];
    if j < |word| - 1 {
      TranscribedAt(f, r0, front, j);
      assert front[j] == word[j];
    }
  }

  /** N's rotation after `k` calls of Rotor.rotate from r0. */
  function Advanced(r0: int, k: nat): (r: int)
    ensures k > 0 ==> 0 <= r < Letters
  {
    if k == 0 then r0 else (Advanced(r0, k - 1) + 1) % Letters
  }

  /** Turning k > 0 times from r0 lands on (r0 + k) mod 26, whatever r0. */
  lemma {:induction false} AdvancedIsSum(r0: int, k: nat)
    ensures k > 0 ==> Advanced(r0, k) == (r0 + k) % Letters
  {
    if k > 1 {
      AdvancedIsSum(r0, k - 1);
      ModStep(r0 + k - 1);
    }
  }

  /** The first value from `from` up to 26 that `accept` accepts. */
  function FirstAccepted(accept: int -> bool, from: int): (r: Option<int>)
    requires 0 <= from <= Letters
    ensures r.Some? ==> from <= r.value < Letters && accept(r.value)
    ensures r.Some? ==> forall i :: from <= i < r.value ==> !accept(i)
    ensures r.None? ==> forall i :: from <= i < Letters ==> !accept(i)
    decreases Letters - from
  {
    if from == Letters then None
    else if accept(from) then Some(from)
    else FirstAccepted(accept, from + 1)
  }

  /** A value that `accept` accepts bounds the search from below it. */
  lemma FirstAcceptedReaches(accept: int -> bool, from: int, i: int)
    requires 0 <= from <= i < Letters && accept(i)
    ensures FirstAccepted(accept, from).Some? && FirstAccepted(accept, from).value <= i
  {
  }
}
