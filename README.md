# Stream-cipher generators, a correlation attack, a toy ARX cipher and a rotor-cipher attack, in Dafny

This project models two small cryptanalysis scripts and proves properties of the model.

`implementation.py` holds four pieces:

- **Linear-feedback shift registers (`LFSR`).** A register has a fixed tap tuple and an n-cell state. `clock` emits cell 0, shifts the state left and appends the XOR of the tapped cells. `filter` evaluates an XOR of ANDs of cells.
- **Two generators built from registers.** The combination generator `Geffe` has three registers and an 8-entry truth table. It loads integer seeds least significant bit first. The filter generator `FilteredLFSR` emits the filter of the current state, then steps.
- **A brute-force correlation attack.** `get_correlation` and `find_key_L1` try all 2^16 seeds of register 1. A seed survives when its keystream agrees with an observed bit string in exactly 3/4 of the positions.
- **A toy ARX block cipher (`ModifiedRC5`).** It runs 12 rounds over two 32-bit words. Each round is two half-rounds of XOR, rotate-left by 7 and XOR with a round key, each followed by a swap.

`enigma_cryptanalysis.py` holds a known-plaintext "contradiction" attack on a rotor cipher:

- There are four rotors N, M, L and R with fixed wirings, and only N turns.
- The plaintext goes through Z·P^-I·N·P and the ciphertext through P^-I·N·P, letter by letter, with N turning before each letter.
- A starting rotation of N passes when the letter mapping between the two results is a function. The attack reports the first rotation that passes.

Files and modules:

- `arithmetic.dfy` (`Arithmetic`): uniqueness of Euclidean division, shared by the seed loading and the letter shifts.
- `shift_register.dfy` (`ShiftRegister`): cells as `Bit` (the integers 0 and 1), the feedback and filter functions, and the classes `Lfsr` and `FilteredLfsr`.
- `combiner.dfy` (`Combiner`): seed loading, the truth-table index, the keystream as a function, and the class `Geffe`.
- `correlation_attack.dfy` (`CorrelationAttack`): agreement counting, the surviving candidates as a function, and the search as methods over a shared `Geffe`.
- `modified_rc5.dfy` (`Word32`, `ModifiedRc5`): 32-bit rotations on `bv32`, the cipher, and its inverse.
- `enigma.dfy` (`Enigma`): the alphabet, the classes `Rotor` and `Machine`, the contradiction check and the attack.

The Python objects whose fields change become classes whose methods have `modifies` clauses. Every method that loops or changes state is proved against a function:

- `Lfsr.Clock` is proved against `Step`.
- `Lfsr.Filter` is proved against `FilterValue`.
- `FilteredLfsr.Clock` is proved against `FilterValue` and `Step`.
- `Geffe.Clock` is proved against `GeffeStep` and `GeffeOutput`.
- `Geffe.SetState` is proved against `SeedBits` and `Shifted`.
- `GetCorrelation` is proved against `Agreement`.
- `CollectStream` is proved against `GeffeStream` and `GeffeStates`.
- `Search` and `FindKeyL1` are proved against `Survivors` and `PrintedAsWritten`.
- `ModifiedRc5.Encrypt` is proved against `Cipher`.
- `CheckContradictions` is proved against `Consistent`.
- `Machine.Encrypt` is proved against `Transcribed`.
- `Machine.BathonsAttack` is proved against `Attack`.

What the source promises is then proved about those functions. The module-level rotors of the rotor script are the four fields of a `Machine`.

## Model

| member | source | states |
|---|---|---|
| ShiftRegister.Feedback | implementation.py:23-25 | The feedback bit: XOR of the tapped cells in tuple order, starting from 0. Its meaning is stated by FeedbackIsParity and FeedbackOrderFree. |
| ShiftRegister.FeedbackFront | implementation.py:23-25 | The XOR accumulated over the taps in order equals the first tapped cell XOR the accumulation over the remaining taps. |
| ShiftRegister.FeedbackIsParity | implementation.py:23-25 | The feedback bit is the parity of the number of ones among the tapped cells, a repeated tap counting twice. |
| ShiftRegister.TappedOnesConcat | implementation.py:24-25 | The number of tapped ones over a concatenation of tap lists is the sum over the two parts. |
| ShiftRegister.TappedOnesOrderFree | implementation.py:24-25 | Two tap lists that are permutations of each other tap the same number of ones. |
| ShiftRegister.FeedbackOrderFree | implementation.py:23-25 | Two tap lists that are permutations of each other give the same feedback bit: the order of the taps does not matter. |
| ShiftRegister.Step | implementation.py:26 | A clocked state has the same length n, holds the old cells 1..n-1 in positions 0..n-2, and ends with the feedback bit. |
| ShiftRegister.Outputs | implementation.py:21-27 | The bits k clocks return, one per clock: exactly k of them. OutputsReplayState states their values. |
| ShiftRegister.OutputsReplayState | implementation.py:21-27 | Because the output is read before the update, the first k <= n outputs of a register are its initial cells 0..k-1. |
| ShiftRegister.MonomialValue | implementation.py:37-39 | The AND of the named cells, starting from 1. Its meaning is stated by MonomialAllOnes and MonomialOrderFree. |
| ShiftRegister.FilterValue | implementation.py:35-41 | The XOR over the monomials of their values, starting from 0. Its properties are stated by FilterConcat, FilterRemove and FilterOrderFree. |
| ShiftRegister.MonomialAllOnes | implementation.py:37-39 | A monomial evaluates to 1 exactly when every cell it names is 1, so the empty monomial is 1. |
| ShiftRegister.MonomialOrderFree | implementation.py:37-39 | Two monomials naming the same positions with the same multiplicities evaluate equally: the order inside a monomial does not matter. |
| ShiftRegister.FilterConcat | implementation.py:36-40 | The filter of a concatenation of monomial lists is the XOR of the filters of the two parts. |
| ShiftRegister.FilterRemove | implementation.py:36-40 | The filter equals the monomial at any position k XOR the filter of the list without position k. |
| ShiftRegister.FilterOrderFree | implementation.py:36-40 | Two monomial lists that are permutations of each other give the same filter value. |
| ShiftRegister.Lfsr.constructor | implementation.py:5-12 | Given tap 0 first and every tap in [0, n-1], the register holds n, the taps and n zero cells. |
| ShiftRegister.Lfsr.Init | implementation.py:14-16 | A state of exactly n cells replaces the register's state. |
| ShiftRegister.Lfsr.Clock | implementation.py:21-27 | Returns the old cell 0; the new state is the old state stepped once, so it keeps length n. |
| ShiftRegister.Lfsr.Filter | implementation.py:29-41 | Returns the XOR over the monomials of the AND of their cells; the register is not modified. |
| ShiftRegister.FilteredLfsr.constructor | implementation.py:87-90 | The generator holds a register with the given taps and initial cells, and the given monomials. |
| ShiftRegister.FilteredLfsr.Clock | implementation.py:92-95 | Returns the filter of the state before the step; the register then advances by exactly one clock. |
| Combiner.Shifted | implementation.py:61-64 | The caller's seed after i rounds of `k[s] = k[s] // 2`. ShiftedIsDivision states its value. |
| Combiner.SeedBits | implementation.py:61-63 | The cells appended in the first i rounds: exactly i of them. SeedBitAt states each cell. |
| Combiner.ShiftedIsDivision | implementation.py:61-64 | After i rounds of halving, the caller's seed holds k // 2^i, negative seeds included. |
| Combiner.SeedBitAt | implementation.py:61-63 | Cell i of a loaded register is bit i of its seed, (k // 2^i) % 2, least significant first. |
| Combiner.SeedRoundTrip | implementation.py:59-64 | The loaded cells read as a number, plus 2^n times what is left in the caller's seed, give the seed back. |
| Combiner.SeedInRange | implementation.py:59-67 | A seed in [0, 2^n) is loaded exactly: its cells read back as the seed, and the caller's seed is left at 0. |
| Combiner.SeedInjective | implementation.py:59-67 | Distinct seeds in [0, 2^n) load distinct register states. |
| Combiner.TableIndex | implementation.py:70-72 | The index built by shifting in one output bit at a time is below 2^(number of bits). |
| Combiner.TableIndexOfThree | implementation.py:70-73 | Three outputs give the index 4*out0 + 2*out1 + out2, which is below 8. |
| Combiner.GeffeOutput | implementation.py:69-73 | The keystream bit is an entry of the table, the one at 4*out0 + 2*out1 + out2 of the three cells 0. |
| Combiner.GeffeStep | implementation.py:71-72 | Clocking all three registers keeps each register's length and keeps the taps in range. |
| Combiner.GeffeStream | implementation.py:144-145 | len clocks of the generator give exactly len keystream bits. |
| Combiner.GeffeStates | implementation.py:144-145 | The register states after len clocks of the generator stay well formed under the same taps. |
| Combiner.GeffeStatesStep | implementation.py:144-145 | One more clock steps the states reached after len clocks. |
| Combiner.GeffeStreamFirst | implementation.py:69-73 | A keystream of len > 0 bits starts with the output of the current states, followed by the keystream of the once-clocked states. |
| Combiner.GeffeStreamSplit | implementation.py:144-145 | The first len keystream bits are the first a bits followed by the len - a bits produced from the states reached after a clocks. |
| Combiner.GeffeStreamInTable | implementation.py:69-73 | Every keystream bit is one of the eight table entries. |
| Combiner.Geffe.constructor | implementation.py:52-57 | Given three valid tap tuples and an 8-entry table, the generator holds three distinct registers of n zero cells. |
| Combiner.Geffe.SetState | implementation.py:59-67 | Register s holds the low n bits of k[s], least significant first; k[s] becomes k[s] // 2^n; the rest of k is unchanged. |
| Combiner.Geffe.Clock | implementation.py:69-73 | Each register is clocked exactly once, and the result is the table entry indexed by the three old cells 0. |
| CorrelationAttack.AttackGenerator | implementation.py:140 | The generator find_key_L1 builds: 16-cell registers with taps (0, 1, 4, 7), (0, 1, 7, 11), (0, 2, 3, 5) and table [1,0,1,0,0,0,1,1]. |
| CorrelationAttack.AttackGeneratorIsValid | implementation.py:140 | The literal generator has three tap tuples inside its 16 cells and an 8-entry table, so the attack runs with it. |
| CorrelationAttack.KeySpaceIsAllSeeds | implementation.py:140-141 | The 2^16 candidates are all the seeds of a 16-cell register. |
| CorrelationAttack.Agreement | implementation.py:133-136 | The agreement count lies between 0 and the stream's length. |
| CorrelationAttack.AgreementCountsMatches | implementation.py:132-137 | The agreement count is the number of positions where the stream equals the observed bits. |
| CorrelationAttack.GetCorrelation | implementation.py:132-137 | For a non-empty stream no longer than the observed bits, returns the agreement count and the stream length, as the unreduced pair `same`, `len(stream)`. |
| CorrelationAttack.CandidateStates | implementation.py:142 | set_state([0, c, 0]) leaves three well-formed register states. |
| CorrelationAttack.FractionEquals | implementation.py:146 | `Fraction(a, b) == Fraction(c, d)` for positive denominators, by cross-multiplication. Survives, SurvivorsByAgreement and Consider use it. |
| CorrelationAttack.Survives | implementation.py:142-146 | A candidate survives when the first len(bits) keystream bits from seed [0, c, 0] agree with the observed bits in exactly 3/4 of the positions. SurvivorsByAgreement states it as a count. |
| CorrelationAttack.Kept | implementation.py:141-147 | The values below m that are kept are exactly those accepted, in strictly increasing order. |
| CorrelationAttack.Survivors | implementation.py:141-146 | The candidates below m that find_key_L1 selects, in increasing order. SurvivorsAre and SurvivorsStep state its contents. |
| CorrelationAttack.SurvivorsAre | implementation.py:141-146 | A value is a survivor below m exactly when it lies in [0, m) and survives. |
| CorrelationAttack.SurvivorsStep | implementation.py:141-147 | Trying one more candidate appends it to the survivors exactly when it survives. |
| CorrelationAttack.SurvivorsByAgreement | implementation.py:146 | A candidate survives exactly when its agreement times 4 equals 3 times the stream length, which is Fraction(same, len) == Fraction(3, 4). |
| CorrelationAttack.PrintedAsWritten | implementation.py:141-147 | What `print(i)` shows as written: one line per survivor, each the inner loop's last index len(bits) - 1. |
| CorrelationAttack.ShadowedPrintLosesCandidate | implementation.py:141-147 | A surviving candidate other than len(bits) - 1 never appears among the printed values. |
| CorrelationAttack.CandidatesDistinct | implementation.py:141-142 | Distinct candidates below 2^n start the generator from distinct states. |
| CorrelationAttack.StreamAdvance | implementation.py:143-145 | Clock j of len: moving the clocked bit from the pending keystream to the collected stream keeps their concatenation, and the clocked states are those j + 1 clocks reach. |
| CorrelationAttack.CollectStream | implementation.py:143-145 | len clocks collect exactly the first len keystream bits of the generator's state and leave the registers in the states len clocks reach; the inner index ends at len - 1. |
| CorrelationAttack.Trial | implementation.py:142-145 | One trial re-seeds all three registers with [0, candidate, 0], returns that seed's first len(bits) keystream bits, and leaves the registers in the states len(bits) clocks from that seed reach. |
| CorrelationAttack.Consider | implementation.py:142-147 | One candidate is appended to the survivors exactly when it survives; the printed list grows with it; the registers end len(bits) clocks after seed [0, candidate, 0]. |
| CorrelationAttack.Search | implementation.py:139-148 | The candidates kept are exactly the survivors below m in increasing order; what is printed is len(bits) - 1 once per survivor. |
| CorrelationAttack.FindKeyL1 | implementation.py:139-148 | With the source's generator, the candidates kept are the survivors among all 2^16 seeds: a value is kept exactly when it is a seed in [0, 2^16) of register 1 that survives. The printed values are as the source prints them. |
| Word32.RotateLeft | implementation.py:104-108 | The 32-bit word shifted left by n, OR-ed with it shifted right by 32 - n, for n in [0, 32]. RotateLeftIsRotation states that it is a rotation. |
| Word32.RotateLeftIsRotationLow | implementation.py:104-108 | rotate_left by any n in [0, 16) is the cyclic left rotation of the 32-bit word. |
| Word32.RotateLeftIsRotationHigh | implementation.py:104-108 | rotate_left by any n in [16, 32] is the cyclic left rotation of the 32-bit word. |
| Word32.RotateLeftIsRotation | implementation.py:104-108 | rotate_left by any n in [0, 32] is the cyclic left rotation of the 32-bit word. |
| Word32.RotateLeftRight | implementation.py:104-108 | Rotating right by 7 undoes rotate_left by 7. |
| Word32.RotateRightLeft | implementation.py:104-108 | rotate_left by 7 undoes rotating right by 7. |
| ModifiedRc5.HalfRound | implementation.py:114-119 | One half-round and its swap; the same statements repeat under k[1] at lines 121-126. HalfRoundInverts states that it is invertible. |
| ModifiedRc5.Round | implementation.py:113-126 | One iteration of the loop: a half-round under k[0], then one under k[1]. DecryptEncrypt and EncryptDecrypt invert it. |
| ModifiedRc5.Encrypted | implementation.py:113-127 | The block after a given number of rounds. DecryptEncrypt and EncryptDecrypt state that it is invertible for every count. |
| ModifiedRc5.Cipher | implementation.py:110-127 | `encrypt`: 12 rounds. Encrypt is proved equal to it, and CipherIsBijection states that it is a permutation of blocks under a fixed key. |
| ModifiedRc5.HalfRoundInverts | implementation.py:114-119 | A half-round (XOR, rotate by 7, XOR with the key, swap) is undone by its inverse. |
| ModifiedRc5.InverseHalfRoundInverts | implementation.py:114-119 | The inverse half-round is undone by the half-round. |
| ModifiedRc5.DecryptEncrypt | implementation.py:113-127 | Running the inverse rounds in reverse order recovers every plaintext, for any number of rounds. |
| ModifiedRc5.EncryptDecrypt | implementation.py:113-127 | Every block is the encryption of its decryption, for any number of rounds. |
| ModifiedRc5.CipherIsBijection | implementation.py:110-127 | Under a fixed key, the 12-round cipher is a bijection on pairs of 32-bit words, with the decipher as its inverse on both sides. |
| ModifiedRc5.HalfRoundStep | implementation.py:114-119 | The statements of one half-round compute the half-round function. |
| ModifiedRc5.Encrypt | implementation.py:110-127 | The loop's 12 rounds, each a half-round under k0 then one under k1, compute `Cipher`, the 12-round function that CipherIsBijection shows to be a permutation. |
| Enigma.Letter | enigma_cryptanalysis.py:43 | chr(i + 65) for i in [0, 25] is an upper-case letter. |
| Enigma.CharToIndex | enigma_cryptanalysis.py:4-5 | A character is upper-case exactly when its index lies in [0, 25], and then the letter with that index is the character. |
| Enigma.AlphabetInOrder | enigma_cryptanalysis.py:2 | ALPHABET holds the 26 letters in index order. |
| Enigma.FirstIndex | enigma_cryptanalysis.py:31 | str.find returns -1 exactly when the character is absent, and otherwise its first position. |
| Enigma.InverseMakesPermutation | enigma_cryptanalysis.py:34-37 | A wiring with a two-sided inverse is a permutation of the alphabet. |
| Enigma.NInverseUndoesN | enigma_cryptanalysis.py:34 | N's wiring consists of letters, and the given inverse sends each back to its position. |
| Enigma.NWiringUndoesNInverse | enigma_cryptanalysis.py:34 | N's wiring undoes its inverse. |
| Enigma.MInverseUndoesM | enigma_cryptanalysis.py:35 | M's wiring consists of letters, and the given inverse sends each back to its position. |
| Enigma.MWiringUndoesMInverse | enigma_cryptanalysis.py:35 | M's wiring undoes its inverse. |
| Enigma.LInverseUndoesL | enigma_cryptanalysis.py:36 | L's wiring consists of letters, and the given inverse sends each back to its position. |
| Enigma.LWiringUndoesLInverse | enigma_cryptanalysis.py:36 | L's wiring undoes its inverse. |
| Enigma.RWiringIsInvolution | enigma_cryptanalysis.py:37 | R's wiring is its own inverse. |
| Enigma.ModStep | enigma_cryptanalysis.py:14-15 | Adding 1 to a value already reduced mod 26 and reducing gives the same result as reducing the unreduced sum. |
| Enigma.ModShiftBack | enigma_cryptanalysis.py:43-47 | Shifting an index by r and back by r, in either order, mod 26, returns the index. |
| Enigma.Rotor.constructor | enigma_cryptanalysis.py:9-11 | The rotor holds the given wiring and starting rotation. |
| Enigma.Rotor.Rotate | enigma_cryptanalysis.py:13-15 | The rotation becomes (rotation + 1) % 26, which lies in [0, 25]. |
| Enigma.Rotor.SetRotation | enigma_cryptanalysis.py:22-23 | The rotation becomes the given value, unreduced. |
| Enigma.Rotor.Get | enigma_cryptanalysis.py:25-27 | The result is a letter of the wiring. |
| Enigma.Rotor.GetReverse | enigma_cryptanalysis.py:30-32 | The result is a letter. When x occurs in the wiring, get of the result gives x back. When x is absent, the result is 'Z'. |
| Enigma.Rotor.GetReverseReadsAlphabet | enigma_cryptanalysis.py:30-32 | The result is ALPHABET at find's position, with -1 reading the last letter. |
| Enigma.Rotor.GetReverseGet | enigma_cryptanalysis.py:25-32 | For a permutation wiring, get_reverse undoes get on every letter. |
| Enigma.Rotor.GetGetReverse | enigma_cryptanalysis.py:25-32 | For a permutation wiring, get undoes get_reverse on every letter. |
| Enigma.ApplyP | enigma_cryptanalysis.py:42-43 | The forward shift by N's rotation gives an upper-case letter for any input character. |
| Enigma.ApplyPI | enigma_cryptanalysis.py:46-47 | The backward shift gives an upper-case letter for any input character. |
| Enigma.ShiftRoundTrip | enigma_cryptanalysis.py:42-47 | On letters, applyPI undoes applyP and applyP undoes applyPI at the same rotation. |
| Enigma.Consistent | enigma_cryptanalysis.py:70-77 | The reference meaning of the check: equal letters of a at two positions always face equal letters of b. ConsistentIffMapping characterises it as a letter map. |
| Enigma.CheckContradictions | enigma_cryptanalysis.py:70-77 | Returns true exactly when equal letters of a at any two positions face equal letters of b. |
| Enigma.ConsistentIffMapping | enigma_cryptanalysis.py:70-77 | The check passes exactly when some letter map sends each letter of a to the letter of b at the same position. |
| Enigma.Machine.constructor | enigma_cryptanalysis.py:34-37 | The four rotors hold the script's wirings at rotation 0, all four are permutations, and R is its own inverse. |
| Enigma.Machine.ApplyPINP | enigma_cryptanalysis.py:49-51 | P, N, then P^-I gives an upper-case letter, at the rotation it is given; no rotor turns. |
| Enigma.Machine.ApplyZ | enigma_cryptanalysis.py:53-55 | Through M, L and R and back through L and M reversed gives an upper-case letter; no rotor turns. |
| Enigma.Machine.ApplyZPINP | enigma_cryptanalysis.py:57-58 | Z after PINP gives an upper-case letter; no rotor turns. |
| Enigma.Machine.ZIsInvolution | enigma_cryptanalysis.py:53-55 | With permutation wirings and a self-inverse R, applying Z twice returns every letter. |
| Enigma.Machine.InversePINP | enigma_cryptanalysis.py:49-51 | P, N reversed, then P^-I gives an upper-case letter. |
| Enigma.Machine.PINPUndoesInverse | enigma_cryptanalysis.py:49-51 | applyPINP undoes the inverse of PINP on every letter. |
| Enigma.Machine.InverseUndoesPINP | enigma_cryptanalysis.py:49-51 | The inverse of PINP undoes applyPINP on every letter. |
| Enigma.Machine.Cipher | enigma_cryptanalysis.py:49-58 | The rotor cipher the attack assumes (PINP, then Z, then PINP reversed) gives an upper-case letter. |
| Enigma.Machine.CipherIsInvolution | enigma_cryptanalysis.py:49-58 | At a fixed rotation that cipher decrypts its own output. |
| Enigma.Machine.Enciphered | enigma_cryptanalysis.py:61-67 | What `encrypt` returns for one stage (ZPINP at line 83, PINP at line 86) from N's starting rotation: a string as long as the word. EncipheredAt states each letter. |
| Enigma.Machine.EncipheredAt | enigma_cryptanalysis.py:61-67 | encrypt keeps the word's length; letter j is the stage's transformation of word[j] at N's rotation after j + 1 turns. |
| Enigma.Machine.Encrypt | enigma_cryptanalysis.py:61-67 | Returns each letter passed through func at N's rotation after it turned; N ends |word| turns further on. |
| Enigma.Machine.Passes | enigma_cryptanalysis.py:82-88 | Starting rotation i passes when the plaintext through ZPINP and the ciphertext through PINP, both encrypted from i, pass the contradiction check. |
| Enigma.Machine.Attack | enigma_cryptanalysis.py:80-90 | The first starting rotation that passes the contradiction check, if any. AttackIsFirstPassing and AttackNoneWhenNonePasses state this. |
| Enigma.Machine.AttackIsFirstPassing | enigma_cryptanalysis.py:80-89 | A reported rotation lies in [0, 25] and passes, and no earlier rotation passes. |
| Enigma.Machine.AttackNoneWhenNonePasses | enigma_cryptanalysis.py:80-90 | Nothing is reported only when no rotation in [0, 25] passes. |
| Enigma.Machine.BathonsAttack | enigma_cryptanalysis.py:80-90 | Returns the first rotation in 0..25 that passes the check with both texts encrypted from it, or nothing; N ends where the last tried encryption left it. |
| Enigma.Machine.SidesAgree | enigma_cryptanalysis.py:83-88 | A cipher letter under PINP equals its plaintext letter under ZPINP at the same rotation. |
| Enigma.Machine.TrueSettingPasses | enigma_cryptanalysis.py:80-90 | If the ciphertext is the rotor cipher of the plaintext from starting rotation i0, then i0 passes the contradiction check. |
| Enigma.Machine.AttackFindsTrueSetting | enigma_cryptanalysis.py:80-90 | Then the attack reports a setting, and never one later than i0. |
| Enigma.Transcribed | enigma_cryptanalysis.py:61-67 | Transcribing a word letter by letter keeps its length. |
| Enigma.TranscribedStep | enigma_cryptanalysis.py:63-66 | One more letter of input appends its image at N's next rotation. |
| Enigma.TranscribedAt | enigma_cryptanalysis.py:61-67 | Letter j of the output is func of word[j] at N's rotation after j + 1 turns. |
| Enigma.Advanced | enigma_cryptanalysis.py:13-15 | After at least one turn, N's rotation lies in [0, 25]. |
| Enigma.AdvancedIsSum | enigma_cryptanalysis.py:13-15 | After k > 0 turns from r0, N's rotation is (r0 + k) % 26, whatever r0. |
| Enigma.FirstAccepted | enigma_cryptanalysis.py:81-90 | The result is the least value in [from, 26) that is accepted, or none when no value there is accepted. |
| Enigma.FirstAcceptedReaches | enigma_cryptanalysis.py:81-90 | Any accepted value in range bounds the search result from above. |

## Left out

- `LFSR.init_random` and the random initial state of `FilteredLFSR` (implementation.py:18-19, 89) are randomness. `FilteredLfsr`'s constructor takes the initial cells as a parameter instead.
- `print` calls, the `__str__` methods and message strings are output only (implementation.py:43-48, 75-79, 147; enigma_cryptanalysis.py:71, 75, 89-90).
  - The attack on the rotor cipher returns `Option<int>` in place of its two messages.
  - `FindKeyL1` returns the sequence of printed values; the `None` that `find_key_L1` returns is not modelled.
- The script lines and the literal observed bit string (implementation.py:129-130, 150; enigma_cryptanalysis.py:93) are left out. The observed bits are a parameter of `FindKeyL1`, and the concrete 2^16-trial result is not computed.
- Python's `Fraction` is modelled by cross-multiplication (`FractionEquals`, `same * 4 == 3 * len`). This is exact for a positive length.
- The commented-out stepping of the other rotors (enigma_cryptanalysis.py:16-20) is dead code.
- Python's negative indices are not modelled: monomial positions and `get`'s argument must index inside the sequence. The code raises IndexError beyond the end and wraps round for negative indices.
  - The code never checks the monomial positions; the model requires them in range.
  - Taps need no such restriction: the constructor asserts every tap lies in [0, n-1] (implementation.py:10).
- Taps are kept as a tuple and XORed in tuple order, as the code does. `FeedbackOrderFree` shows that the order does not matter, and `FeedbackIsParity` that a repeated tap counts twice.
- ShiftRegister.Lfsr.Init: takes cells already restricted to 0 and 1. The code does not check the cells' values; every caller passes bits.
- Combiner.Geffe: the source's list of three registers is held as three fields. The `range(3)` loop of `clock` (implementation.py:71-72) and the loop that initialises the registers in `set_state` (implementation.py:66-67) are unrolled. The inner `for s in range(3)` of `set_state` (implementation.py:62) stays a loop.
- ModifiedRc5: keys and words are `bv32`, so the constructor's and `encrypt`'s range assertions are the type. `rotate_left`'s masking by 0xffffffff is the `bv32` arithmetic.
- Word32.RotateLeftRight and Word32.RotateRightLeft: are stated for the cipher's rotation amount 7, not for every amount.
- Enigma.CharToIndex: takes a character rather than the first character of a string.
- Enigma.ApplyP, Enigma.ApplyPI and the `Machine` transformations take N's rotation as an argument, where the source reads the global `N.rotation`. In the same way, `Machine.Encrypt`'s `func` receives the rotation as its first argument.
- Enigma.Rotor.GetReverse: requires a wiring of at most 26 characters, or `ALPHABET[find(x)]` could index past the alphabet. Every rotor of the script has 26.
- Enigma.Machine.Cipher is the rotor cipher under which the attack is sound. The source never computes a ciphertext from a plaintext: its `encrypt` applies only one side's transformation (ZPINP or PINP). `Cipher` serves as the reference for `TrueSettingPasses`.
- Enigma.CheckContradictions: requires the second text to be at least as long as the first, as the code indexes `b` at every position of `a`.
- Combiner.Geffe.SetState: requires an array of at least three seeds, because the code indexes `k[0]`, `k[1]` and `k[2]` and raises IndexError on a shorter list. Its only caller passes `[0, i, 0]`.
- CorrelationAttack.GetCorrelation: requires a non-empty stream, because the code divides by its length. It also requires a stream no longer than the observed bits, because the code indexes them at every position.

## Findings

| source | as written | input that shows it | evidently intended | confidence | as-written member | corrected member |
|---|---|---|---|---|---|---|
| implementation.py:141-147 | the inner `for i in range(len(bits))` rebinds the outer candidate `i`, so `print(i)` prints len(bits) - 1 for every surviving candidate | any observed bit string of length L where a candidate c != L - 1 survives: c is never printed | report each surviving candidate | not executed | CorrelationAttack.ShadowedPrintLosesCandidate | CorrelationAttack.Search |
