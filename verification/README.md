# Single-tape Turing machine interpreter, in Dafny

This project models a small Java Turing machine interpreter together with
the one machine its driver loads.

The engine (`Turing`, `State`, `Transition`) works like this:

- It holds states registered in id order and a fixed tape of 100 `char` cells.
- `execute` copies the input onto the tape and pads it with blanks `'B'`.
- It then repeatedly looks up the transition for (current state, symbol under the head).
- It bounds-checks the move before writing, then writes, moves and switches state.
- It stops once the state id reaches the halting threshold and returns the whole tape.

The driver (`Main`) builds a nine-state machine: eight working states plus the
halting id 8, over the symbols `0`, `1`, `B` and `E`. It runs the machine on
the input wrapped as `E<input>E`. Its documentation promises that the machine
decides { 0^n 1^n | n >= 1 }: the answer `1` or `0` lands in cell 0 and every
other cell is blank.

## Layout

| file | module | models |
|---|---|---|
| `results.dfy` | `Results` | `Option` (for Java `null`) and `Result` (for a value or a thrown exception) |
| `java_int.dfy` | `JavaInt` | Java's 32-bit `int` and the wrap-around of the pointer addition |
| `transition.dfy` | `Transitions` | `Transition.java` |
| `state.dfy` | `States` | `State.java` |
| `turing.dfy` | `Turing` | `Turing.java`: construction, `addState`, `initTape`, the step loop of `execute` |
| `driver.dfy` | `Driver` | the transition table and input wrapping of `Main.java` |
| `decider.dfy` | `Decider` | proof that the loaded table decides { 0^n 1^n \| n >= 1 } |
| `samples.dfy` | `Samples` | the sample inputs listed in `Main.java` |

### Modelling choices

- Values, not objects. A `Transition` is an immutable datatype whose fields are the getters.
- A `State` is an id plus a `map<char, Transition>`.
- A machine is its state-array length (`slots`, the constructor argument minus one) plus the sequence of registered states.
- The registration counter `stateCount` is `|registered| + 1`.
- Errors are values of one datatype:
  - `ConfigError`, `CapacityError` and `InputTooLarge`.
  - `NoTransition(state, symbol)` and `TapeOverrun`.
  - `HeadOffTape`: the Java array-index failure when the head has moved to cell 100 and is read again.
  - `BadStateId`: the array-index failure for a negative state id.
- `execute` never needs to terminate, so the loop is `Run` with explicit fuel. Its outcome is `Finished(tape)`, `Aborted(error)` or `OutOfFuel`. `RunMonotone` shows that fuel only cuts the run short.
- Two details follow the code, not its prose description:
  - Halting: the loop stops when `currState >= stateCount - 1`. `stateCount` is the registration counter, not the constructor argument (`HaltingFollowsRegistrations`). Any id at or above the threshold halts.
  - Head range: the move check rejects only `newPointerPos > 100`, so the head may land on cell 100. Reading there in a non-halting state is the `HeadOffTape` error.
- The pointer addition is done in Java `int` arithmetic (`AddToPointer`). `AddToPointerWraps` proves that wrap-around never changes the outcome of the bounds check.
- The tape is re-initialised on every call. `FillTape` and `ExecuteLoop` mirror the source's loops over a tape that still holds the previous run's symbols, and prove the result equals the fresh-tape functions `InitTape` and `Execute`. So the stale contents never matter, and re-running an input gives the same answer.

## Model

| member | source | states |
|---|---|---|
| `JavaInt.AddToPointerWraps` | Turing.java:43-44 | the pointer sum computed with Java `int` wrap-around equals two's-complement reduction; it lies in [0, bound] exactly when the true sum does, and then equals it, so overflow never changes the bounds check |
| `Transitions.GettersReturnArguments` | Transition.java:17-40 | each of the four getters returns exactly the corresponding constructor argument, for any movement value (movement is not validated) |
| `Transitions.MovementConstants` | Transition.java:8-9 | `RIGHT` is +1 and `LEFT` is -1 |
| `States.NewState` | State.java:14-17 | a new state has the given id, an empty table, and answers `None` for every symbol |
| `States.AddTransition` | State.java:24-26 | afterwards `getTransition(t.oldSymbol)` returns `t`, every other symbol answers as before, the id is unchanged, and every entry still sits under its own read symbol |
| `States.GetTransition` | State.java:34-36 | returns `None` (Java `null`) exactly when nothing is registered for the symbol; a transition found under `c` reads `c` |
| `States.LastWriteWins` | State.java:25 | registering a second transition for the same symbol overwrites the first completely |
| `States.DistinctSymbolsCommute` | State.java:25 | registrations for different symbols do not interfere |
| `States.AddAllLookup` | State.java:24-26 | after a series of registrations each symbol answers with the last transition registered for it (or what it had before), and the id never changes |
| `Turing.NewMachine` | Turing.java:16-24 | construction fails with `ConfigError` iff the count is below 2; otherwise the state array has count - 1 slots and the registration counter is 1 |
| `Turing.AddState` | Turing.java:67-73 | succeeds iff `stateCount <= states.length`; on success the state is placed at index `stateCount - 1`, earlier states stay, and the counter goes up by one; otherwise `CapacityError` |
| `Turing.RegisterAllSpec` | Turing.java:67-73 | a series of registrations succeeds iff it fits in the free slots, and then appends the states in order; otherwise it fails with `CapacityError` |
| `Turing.CapacityIsCountMinusOne` | Turing.java:67-73 | a machine built for `count` states accepts exactly `count - 1` registrations and refuses the next |
| `Turing.HaltingFollowsRegistrations` | Turing.java:40 | after `k` registrations the loop halts at exactly the ids >= k, whatever count the machine was built for |
| `Turing.GuardIndexesRegistered` | Turing.java:40-41 | while the loop guard holds, a non-negative current id indexes a registered state |
| `Turing.InitTape` | Turing.java:81-97 | fails with `InputTooLarge` iff the input has at least 100 symbols; otherwise a 100-cell tape holding the input followed by blanks |
| `Turing.FillTape` | Turing.java:87-96 | the cell-by-cell overwrite of a used tape yields exactly the `InitTape` result, whatever the old tape held |
| `Turing.Step` | Turing.java:41-53 | a successful step keeps the tape at 100 cells and the head within [0, 100] |
| `Turing.StepSpec` | Turing.java:41-56 | a step succeeds only from a registered state with the head on the tape, and changes only the cell under the head (by the transition found), moving by the exact movement to its next state; otherwise the first failing check decides the error: negative id, head at 100, missing transition, or move outside [0, 100] |
| `Turing.Run` | Turing.java:40-59 | a run that halts returns the whole 100-cell tape |
| `Turing.Execute` | Turing.java:33-60 | an input of at least 100 symbols is refused with `InputTooLarge`; a halting run returns all 100 cells |
| `Turing.RunMonotone` | Turing.java:40-57 | once a fuel-bounded run has an answer, more fuel gives the same answer |
| `Turing.MissingTransitionAborts` | Turing.java:41-56 | a gap in the table for the current state and symbol ends the run with `NoTransition` naming both, and no tape |
| `Turing.OneStepHalt` | Turing.java:33-59 | if state 0 jumps straight to the halting threshold on the first symbol, the run ends after one step with the initial tape rewritten in that single cell |
| `Turing.ExecuteLoop` | Turing.java:33-60 | the source's loop over a previously used tape returns exactly what `Execute` describes, so the same input always gives the same result |
| `Turing.RunErrorsAreRunTime` | Turing.java:40-57 | a running loop only aborts with a run-time error (missing transition, overrun, head at 100, negative id) |
| `Turing.InputTooLargeIff` | Turing.java:82-86 | `execute` reports `InputTooLarge` iff the input has at least 100 symbols |
| `Turing.ReachHalts` | Turing.java:40-59 | a run that reaches a halting id after `k` steps answers with that tape for every fuel of at least `k` |
| `Driver.Wrap` | Main.java:151 | the input is placed between an `E` at the front and an `E` at the back |
| `Driver.BuildLoadsTable` | Main.java:42-127 | `new Turing(9)` and the eight `addState` calls succeed; the threshold is 8, state k is `s_k`, and any ninth registration fails with `CapacityError` |
| `Driver.TableIsDelta` | Main.java:58-115 | the states built by the `addTransition` calls answer every (state, symbol) pair as the transition function `Delta` does |
| `Driver.TableKeyed` | Main.java:58-115 | every table entry sits under the symbol it reads |
| `Driver.TableTotality` | Main.java:58-115 | `s0` has a transition only for `E`; `s1` to `s7` have one for each of `0`, `1`, `B`, `E` and nothing else |
| `Driver.DeltaTargets` | Main.java:58-115 | every move is one cell, every next state lies in 1..8, and only `s7` reading `E` leads to 8 |
| `Driver.TableTargets` | Main.java:58-115 | the same facts for the transitions the loaded machine actually finds |
| `Decider.InLanguageCells` | Main.java:3-4 | a string is in { 0^n 1^n \| n >= 1 } iff it has even length of at least 2, zeros in its first half and ones in its second |
| `Decider.StripLanguage` | Main.java:12-15 | removing a leading `0` and a trailing `1` from a member leaves a member or nothing, and conversely |
| `Decider.VerdictDecides` | Main.java:12-15 | on binary strings, repeatedly stripping a `0` and a `1` says yes exactly for members (and for the emptied tape after a round) |
| `Decider.SkipHeader` | Main.java:56-58 | state 0 steps over the leading `E` into state 1 |
| `Decider.ScanRight` | Main.java:70-75 | state 2 walks right over `0`/`1` to the first `B` or `E`, then back onto the last symbol in state 3, tape unchanged |
| `Decider.ScanLeft` | Main.java:85-91 | state 4 walks left over `0`/`1` to the first `B` or `E`, then forward into state 1, tape unchanged |
| `Decider.WipeAndScan` | Main.java:60-75 | a leading `0` is wiped and the head reaches the last symbol in state 3 |
| `Decider.RoundEndsEarly` | Main.java:62-68 | with nothing left the round accepts, unless it is the first (empty input); a leading `1` rejects |
| `Decider.RoundEndsLate` | Main.java:77-83 | a lone `0` or a trailing `0` rejects |
| `Decider.WipeBothEnds` | Main.java:60-80 | a `0 ... 1` string has both ends wiped, turning left in state 4 |
| `Decider.StripShape` | Main.java:60-80 | wiping both ends leaves the tape laid out for the next round |
| `Decider.ScanBack` | Main.java:85-91 | state 4 returns to the start of the shortened string in state 1 |
| `Decider.RoundStrips` | Main.java:60-91 | a round on `0 v 1` ends in state 1 at the start of `v`, laid out for the next round |
| `Decider.Round` | Main.java:60-91 | from state 1 the table reaches the accept state 5 or the reject state 6 exactly as the strip algorithm decides, within the `E` markers |
| `Decider.BackToStart` | Main.java:93-107 | states 5 and 6 walk left to cell 0 and overwrite the `E` with `1` or `0` |
| `Decider.Wipe` | Main.java:109-115 | state 7 blanks every cell through the trailing `E`, then enters the halting id 8 |
| `Decider.FinalTape` | Main.java:93-115 | marking cell 0 and wiping to the trailing marker gives exactly the answer tape |
| `Decider.Finish` | Main.java:93-115 | from state 5 or 6 the machine halts with the answer tape |
| `Decider.DecidesIn` | Main.java:56-115 | from the initial tape of a wrapped binary input the table reaches id 8 with the answer tape |
| `Decider.Decides` | Main.java:58-115 | any machine following the table decides the language with enough fuel |
| `Decider.TableDecides` | Main.java:6-7 | the loaded machine halts on every binary input that fits, with `1` in cell 0 for members of { 0^n 1^n \| n >= 1 } and `0` otherwise, and blanks everywhere else |
| `Samples.AcceptsZeroOne` | Main.java:131 | `01` is accepted |
| `Samples.AcceptsTenTen` | Main.java:133 | ten zeros then ten ones is accepted |
| `Samples.RejectedSamples` | Main.java:130-136 | there is a fuel from which each of `0000011`, `10`, `0`, `1` and the empty input (the language asks for n >= 1) ends with `0` in cell 0 and blanks elsewhere |
| `Samples.LongSamples` | Main.java:138-143 | from some fuel on, 48 zeros then 48 ones is accepted, while 49 zeros then 48 ones and 48 zeros then 49 ones (still fitting) are rejected; 49 of each is refused with `InputTooLarge` for every fuel |
| `Samples.WrappedInputBound` | Main.java:141-143 | the wrapped input is refused iff it leaves no cell for a trailing blank |
| `Samples.StraySymbol` | Main.java:137 | on `0002011111` a machine following the table aborts with `NoTransition(2, '2')` |
| `Samples.StraySymbolLoaded` | Main.java:137 | the same for the loaded machine |

## Left out

- Printing (`System.out.println`, and the commented-out debug print in the loop): this is I/O.
- The Java exception classes. Each failure is a value of the `Error` datatype instead.
- `HashMap` hashing internals: a Dafny `map` has the same lookup and overwrite behaviour.
- Lazy allocation of the tape array: it cannot be observed, because every cell is overwritten on each call.
- The null slots of the state array: they are never read, because the loop guard keeps the current id below the registration counter.
- `OutOfMemoryError` for huge constructor counts.
- Termination of `execute`: a run is bounded by explicit fuel. `OutOfFuel` only means the source would still be looping.
- Java `char` is a UTF-16 code unit, while Dafny `char` is a Unicode scalar value and is never a surrogate. A Java input with a character outside the Basic Multilingual Plane takes two tape cells, and it counts as 2 towards the `InputTooLarge` limit. No Dafny string matches such an input cell for cell. The table only uses ASCII.
- States are registered by value. Java's `addState` stores a reference to a mutable `State`, so an `addTransition` made after `addState` would change what `execute` finds. The model has no counterpart for that order of calls. Nor does it model a `null` argument to `addState`, `addTransition` or `execute`, each of which throws `NullPointerException` in Java. The driver cannot observe the difference, because all its `addTransition` calls (Main.java:58-115) come before its `addState` calls (Main.java:120-127).
- Decider.TableDecides: covers binary inputs only. Inputs with `B` inside the body have no specified result in the source. For other stray symbols only the sample `0002011111` is characterised.
- The doc-comment's mathematical transition function (states q0 to q5) differs from the implemented table, as the comment itself says. The model follows the implemented table.
