# Enigma cipher engine, modelled in Dafny

This project models the cipher engine of `enigma.py`, a small Python
Enigma-style machine. The engine has four parts:

- **Rotor.** It holds a wiring table chosen by model name, a `Window`
  string (normally one letter), a `Pass` flag and a `Position`. It converts a letter on the way in
  (`entry_conversion`) and on the way back (`exit_conversion`), and can step
  its window on by one letter.
- **Reflector.** A fixed table chosen by model name that sends a letter back.
- **Plugboard.** A validated set of two-character swaps, applied to a
  character on its way in and on its way out.
- **EnigmaCircuit.** It ties these together:
  - `step_rotors` turns rotors in place by the flag of each rotor's left
    neighbour, then always turns the last rotor;
  - `Encryption` sends one character through the plugboard, the rotors from
    right to left, the reflector, the rotors from left to right (each rotor
    updating itself) and the plugboard again.

The model takes the code's own form:

- **Rotor** is a class whose `Window` and `Pass` fields are updated in place
  (`Rotors.Rotor`).
- **The circuit** is a class whose methods loop over its rotor objects as
  `step_rotors` and `Encryption` do (`Circuit.EnigmaCircuit`). Each method is
  proved against a specification function over the rotors' states
  (`StepRotorsOf`, `ForwardOf`, `BackwardOf`, `EncryptOf`).
- **Pure parts** are functions over values: the conversions, `reflect`,
  `passing` and the constructors' validation.
- **Errors.** Every Python exception the engine can raise becomes an `Error`
  value in a `Result`. Where an exception interrupts a loop after some rotors
  have already moved, the model keeps those moves, as Python does.

Files:

| file | contents |
|---|---|
| `outcomes.dfy` | `Option`, `Result` and the error kinds |
| `seqs.dfy` | Python `set(...)` of a sequence, and `len(set(s)) == len(s)` as "no duplicates" |
| `strings.dfy` | the contact alphabet, `str.index` as first-occurrence substring search, `upper().strip()` |
| `rotor.dfy` | `MODELS`, `WINDOWS`, permutation proofs of the tables, rotor states, conversions, the `Rotor` class |
| `reflector.dfy` | the four reflector tables, the constructor, `reflect` |
| `plugboard.dfy` | the `swaps` setter, the constructor, `passing` |
| `circuit.dfy` | `step_rotors` and `Encryption`, as specification functions and as methods of the `EnigmaCircuit` class |

Where the code differs from a historical Enigma machine, the model follows the
code:

- **The rightmost rotor turns two places per key, not one.** Every rotor built
  by the program has position 0, and at position 0 `exit_conversion` steps the
  rotor again. `Circuit.FreshMachineEffect` states this.
- **The return path uses the forward table.** It reads the wiring at the
  entering letter's position minus the window's, not the inverse wiring, so
  the machine is not reciprocal. No reciprocity property is stated.

In the model, `reflect` has no error branch inside `Encryption`: the forward
pass through at least one rotor always yields a single letter, so the lookup
in the reflector cannot fail there. `Circuit.RoundTrip` states this, and
`Encryption` asserts it instead of carrying an error result.

## Model

| member | source | states |
|---|---|---|
| `Strings.AlphabetIndexIsFind` | enigma.py:127-128 | looking a string up in the contact alphabet by direct computation gives exactly what first-occurrence substring search gives, for every string, found or not |
| `Strings.FindSpec` | enigma.py:128 | `str.index`: a found position is where the needle occurs and no earlier position holds it; not found means it occurs nowhere |
| `Strings.Find` | enigma.py:127-128 | `str.index` (also `x.index` at enigma.py:183): a found position is one where the needle occurs, and a needle occurring at the start is found there |
| `Strings.AlphabetIndex` | enigma.py:127-128 | a found index is below 26; a one-character string is found exactly when it is a letter; a letter is found at its place in the alphabet |
| `Strings.SpellsFromOccurs` | enigma.py:127-128 | a string spells consecutive letters from position `k` exactly when it occurs in the alphabet at `k` |
| `Strings.Normalize` | enigma.py:178 | `upper().strip()` is no longer than its input, holds no lower-case ASCII letter, and neither end is changed by upper-casing or is whitespace |
| `Strings.NormalizeIsStrippedUpper` | enigma.py:178 | `s.upper().strip()` is a contiguous piece of the upper-cased string; everything before and after it is whitespace, and the piece neither starts nor ends with whitespace; so, for example, `" a "` gives `"A"` and an all-blank string gives `""` |
| `Strings.NormalizeCanonical` | enigma.py:178 | a string of upper-case, non-blank characters is left as it is |
| `Strings.NormalizeLetter` | enigma.py:178 | a single letter is left as it is |
| `Seqs.DistinctCount` | enigma.py:197 | the set of a sequence is never larger than the sequence, and is as large exactly when nothing repeats |
| `Seqs.EnumerationLength` | enigma.py:175 | two listings of one set have the same length |
| `Rotors.WiringsArePermutations` | enigma.py:87-99 | every table of `MODELS` (ENTRY, I to VIII, BETA, GAMMA) is a permutation of A to Z |
| `Rotors.InitialState` | enigma.py:115-123 | construction fails exactly when the upper-cased, stripped model name is not a key of `MODELS`, with the model error; otherwise it stores that name, its table, the normalised window and the position, and `Pass` starts false |
| `Rotors.Rotor.constructor` | enigma.py:115-123 | a rotor object holds the state `InitialState` describes and is valid: its wiring is its model's table, which the conversions require |
| `Rotors.Rotor.New` | enigma.py:115-123 | `Rotor(...)` succeeds exactly when `InitialState` does, with a fresh object in that state, and otherwise raises the same error |
| `Rotors.Rotor.EntryConversion` | enigma.py:126-131 | on the rotor object, `entry_conversion` ignores `step` and fails exactly when the window or the character is not found in the contact string, as `str.index` finds it; otherwise, for a letter window and a letter, it reads the wiring at the character's index plus the window's, modulo 26 |
| `Rotors.Turned` | enigma.py:150 | turning a letter window `n` places gives a letter window whose alphabet position is the old one plus `n`, modulo 26 |
| `Rotors.Advance` | enigma.py:149-150 | stepping fails exactly when the window is not found in the contact string; a letter window moves on by one place, Z wrapping to A |
| `Rotors.TurnedTwice` | enigma.py:150 | turning `n` places and then `m` is turning `n + m` |
| `Rotors.Rotor.Step` | enigma.py:149-150 | `step` moves the window on by one letter, or reports failure and leaves it; the flag never changes |
| `Rotors.EntryOf` | enigma.py:126-131 | `entry_conversion` fails exactly when the window or the character is not in the contact string; otherwise it gives a letter, namely the wiring at the character's position plus the window's, modulo 26 |
| `Rotors.EntryInjective` | enigma.py:126-131 | for a fixed letter window, different letters enter as different letters |
| `Rotors.EntrySurjective` | enigma.py:126-131 | for a fixed letter window, every letter comes out of the entry conversion of some letter, so the conversion is a bijection on A to Z |
| `Rotors.ExitOutput` | enigma.py:133-137 | the letter `exit_conversion` returns is the wiring at the character's position minus the window's, taken modulo 26 with a non-negative remainder, read from the window before any update |
| `Rotors.ExitInjective` | enigma.py:134-137 | for a fixed letter window, different letters leave the return path as different letters |
| `Rotors.ExitSurjective` | enigma.py:134-137 | for a fixed letter window, every letter is the return-path output of some letter |
| `Rotors.ExitOf` | enigma.py:133-144 | at position 0 the rotor then steps and the flag is unchanged; at any other position the flag becomes "window is a notch of the model", or the call fails for a model with no notch table; a failure changes nothing |
| `Rotors.Rotor.ExitConversion` | enigma.py:133-144 | the method returns the output and leaves the rotor in the state that `ExitOf` gives |
| `Rotors.Rotor.CheckPassing` | enigma.py:146-147 | `check_passing` returns the rotor's `Pass` flag and changes nothing |
| `Reflectors.TablesAreReflections` | enigma.py:157-160 | each of the tables B, C, BT and CT pairs the 26 letters off: no letter maps to itself, and the letter it maps to maps back |
| `Reflectors.Table` | enigma.py:166 | the table `getattr` picks for a supported model name is a valid reflector table: 26 letters pairing each letter with a different one |
| `Reflectors.NewReflector` | enigma.py:162-166 | construction succeeds exactly when the raw name is B, C, BT or CT (compared before any normalisation), with that table; otherwise it raises the reflector error |
| `Reflectors.Reflect` | enigma.py:168-169 | `reflect` fails exactly when the character is not in the contact string, and otherwise gives a letter |
| `Reflectors.ReflectLetter` | enigma.py:168-169 | on a single letter, `reflect` reads the table at that letter's position |
| `Reflectors.ReflectInvolution` | enigma.py:157-169 | on a letter, reflecting gives a different letter, and reflecting that gives the first letter back |
| `Plugboards.JoinDistinct` | enigma.py:197-198 | for distinct two-character pairs, the joined string repeats no character exactly when no character occurs in two places among the pairs |
| `Plugboards.SetSwaps` | enigma.py:191-199 | the setter accepts exactly the pair sets that have at most 10 pairs, all of length 2, and no repeated character; the checks run in that order, and the first that fails names the error |
| `Plugboards.NewPlugboard` | enigma.py:174-199 | the constructor first merges equal arguments into a set; acceptance and the error raised depend on that set alone, not on the order it iterates in |
| `Plugboards.Join` | enigma.py:197 | `"".join(swaps)` of two-character pairs has exactly twice as many characters as there are pairs |
| `Plugboards.RepeatedPairAccepted` | enigma.py:174-199 | the same pair given twice is merged and accepted |
| `Plugboards.ReversedPairRejected` | enigma.py:197-198 | a pair together with its reverse is refused for a repeated character, whatever the iteration order |
| `Plugboards.Passing` | enigma.py:177-184 | with no pairs, `passing` returns the upper-cased, stripped input; with pairs, it returns that normalised input or a one-character string |
| `Plugboards.PassingOutcome` | enigma.py:177-184 | `passing` returns the normalised input or the `Partner` of it in some pair that holds it |
| `Plugboards.Partner` | enigma.py:183 | `x[x.index(c) - 1]` on a two-character pair is one character: the second when `c` is the first character (or empty, which `index` finds at 0), the first when `c` is the second and the two differ |
| `Plugboards.SwapIn` | enigma.py:181-184 | the loop over the pairs returns the input itself or the partner of `c` in some pair that holds `c` |
| `Plugboards.PassingHeld` | enigma.py:181-183 | with valid pairs, the one pair holding the normalised input decides the output |
| `Plugboards.PassingNotHeld` | enigma.py:181-184 | when no pair holds the normalised input, it comes back unchanged |
| `Plugboards.PassingSwapsPair` | enigma.py:181-183 | a letter of a pair comes out as the other letter of that pair, from either side |
| `Plugboards.PassingUnpaired` | enigma.py:184 | a character in no pair comes out unchanged after normalisation |
| `Plugboards.PassingOrderIndependent` | enigma.py:181-184 | with valid pairs, the output for a non-empty input is the same whatever order the pair set iterates in |
| `Plugboards.PassingInvolution` | enigma.py:177-184 | with canonical pairs, passing a single character twice gives back the normalised character |
| `Plugboards.PassingLetter` | enigma.py:177-184 | with letter pairs, a letter comes out as a letter |
| `Circuit.Cascade` | enigma.py:65-67 | the loop of `step_rotors` changes no rotor's model, wiring or position |
| `Circuit.CascadeSucceeds` | enigma.py:65-67 | with letter windows the loop never fails |
| `Circuit.CascadeWindow` | enigma.py:65-67 | the loop from `i` turns rotor `j` one place when `1 <= j <= i` and rotor `j - 1` has its flag set, and changes nothing else about any rotor |
| `Circuit.StepRotorsOf` | enigma.py:64-68 | `step_rotors` keeps the rotors' models, wirings and positions, and on an empty rotor list fails at `Rotors[-1]` |
| `Circuit.StepLast` | enigma.py:68 | the last rotor's step keeps every rotor's model, wiring and position |
| `Circuit.StepRotorsEffect` | enigma.py:64-68 | on letter windows `step_rotors` succeeds. Rotor `j` turns one place for its left neighbour's flag (for `j >= 1`), and the last rotor one place more. No flag, model, wiring or position changes, so rotor 0 moves only when it is the only rotor |
| `Circuit.NoFlagSteps` | enigma.py:65-68 | with no flag set, only the last rotor steps in `step_rotors` |
| `Circuit.ForwardOf` | enigma.py:73-74 | the forward pass over at least one rotor yields a single letter; on letter windows and a letter input it never fails |
| `Circuit.BackwardOf` | enigma.py:76-77 | the return pass keeps the rotors' models, wirings and positions and, over at least one rotor, yields a single letter |
| `Circuit.BackwardEffect` | enigma.py:76-77 | with letter windows at position 0, the return pass from rotor `j` turns every rotor from `j` on by one place, touches no other rotor, and turns a letter into a letter |
| `Circuit.RoundTrip` | enigma.py:73-77 | the forward pass, `reflect` and the return pass keep the rotors' models, wiring and positions; after a successful forward pass through at least one rotor `reflect` cannot fail, and a successful return pass yields a letter |
| `Circuit.RoundTripEffect` | enigma.py:73-77 | between the plugboard passes, with letter windows at position 0 and a valid reflector, a letter comes back as a letter and every window turns one place |
| `Circuit.EncryptOf` | enigma.py:70-79 | a key press changes no rotor's model, wiring or position |
| `Circuit.EncryptEffect` | enigma.py:70-79 | with letter windows at position 0, a valid reflector and a board of letter pairs, a letter comes out. Rotor `j` has turned its `step_rotors` amount plus one, and nothing else about any rotor has changed |
| `Circuit.FreshMachineEffect` | enigma.py:70-79 | with no flag set and all rotors at position 0, a key press turns the last rotor two places and every other rotor one, and all flags stay clear |
| `Circuit.FirstKeyExample` | enigma.py:70-79 | rotors I, II, III at A, A, A, reflector B and an empty board: the key A gives G and leaves the windows at B, B, C |
| `Circuit.EnigmaCircuit.constructor` | enigma.py:58-61 | the circuit holds the given rotors, reflector and plugboard |
| `Circuit.EnigmaCircuit.StepAt` | enigma.py:67 | stepping rotor `k` of the list changes that rotor's state alone, as `Advance` describes |
| `Circuit.EnigmaCircuit.CascadeRound` | enigma.py:66-67 | one round of the loop on the rotor objects fails exactly when rotor `i - 1`'s flag is set and rotor `i`'s window is not found; otherwise rotor `i` steps when the flag is set, every other rotor is left as it was, and the rest of the loop from `i - 1` gives what the loop from `i` gives |
| `Circuit.EnigmaCircuit.RunCascade` | enigma.py:65-67 | the loop over the rotor objects leaves them in the states, and with the outcome, of `Cascade` |
| `Circuit.EnigmaCircuit.StepLastRotor` | enigma.py:68 | stepping the last rotor object does what `StepLast` describes |
| `Circuit.EnigmaCircuit.StepRotors` | enigma.py:64-68 | `step_rotors` leaves the rotor objects in the states, and with the outcome, of `StepRotorsOf` |
| `Circuit.EnigmaCircuit.ForwardPass` | enigma.py:73-74 | the forward loop changes no rotor and returns what `ForwardOf` gives |
| `Circuit.EnigmaCircuit.ExitAt` | enigma.py:77 | the exit conversion of rotor `k` of the list changes that rotor's state alone, as `ExitOf` describes |
| `Circuit.EnigmaCircuit.BackwardPass` | enigma.py:76-77 | the return loop leaves the rotor objects in the states, and with the output, of `BackwardOf` |
| `Circuit.EnigmaCircuit.Encryption` | enigma.py:70-79 | `Encryption` leaves the rotor objects in the states, and returns the output, of `EncryptOf`; its effect on letters is the one `EncryptEffect` and `FreshMachineEffect` state |

## Left out

- `main` (keyboard events, printing) and `setup_enigma` (command-line parsing) are interactive input and output. They are outside the engine and not modelled.
- The `Cr_rotor`, `Cr_reflector` and `Cr_plugboard` wrappers only forward their arguments and are not modelled. `Cr_plugboard` passes its argument tuple as one argument, so the plugboard sees a nested tuple; the model covers `Plugboard(*swaps)` directly.
- `upper()` is modelled on ASCII letters only. Unicode case mapping, where one character can become several, is not modelled.
- Exception messages are not modelled: each exception is an `Error` kind naming its cause.
- A Python set's iteration order is chosen by the runtime. It is a parameter here (`order`), and the properties that matter are proved for every order.
- `Circuit.EnigmaCircuit.Encryption`, `StepRotors`, `BackwardPass`, `StepAt`, `ExitAt`, `CascadeRound`, `RunCascade` and `StepLastRotor` require distinct rotor objects. The same object listed twice would be stepped twice through aliasing, and that case is not modelled.
- `Rotors.Rotor.Step` reports a window outside the alphabet as `false`, not as an exception. Its callers turn this into the error result the exception would give.
- `Circuit.EnigmaCircuit.Encryption` requires only that pairs have two characters (`Paired`), not the whole validity the plugboard setter guarantees. It is stated for any such board.
- Encrypting twice does not give the input back: the return path reuses the forward table. No reciprocity property is stated. Historical double-stepping is not what the code does, and it is not modelled.
