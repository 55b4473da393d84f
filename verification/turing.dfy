/** The interpreter (Turing.java): a machine owns the registered states and a
    fixed 100-cell tape, and `execute` runs the step loop until the current
    state id reaches the halting threshold. */
module Turing {
  import opened Results
  import opened JavaInt
  import opened States

  /** Fixed tape capacity and the blank the tape is padded with. */
  const TAPE_LEN: nat := 100
  const BLANK: char := 'B'

  /** Every way a call into the machine can be aborted. */
  datatype Error =
    | ConfigError                                       // constructed with fewer than 2 states
    | CapacityError                                     // more states registered than slots
    | InputTooLarge                                     // no room left for a trailing blank
    | NoTransition(state: int32, symbol: char)          // table gap for (state, symbol)
    | TapeOverrun(state: int32, head: int, move: int32) // the move would leave [0, TAPE_LEN]
    | HeadOffTape(state: int32)                         // reading cell TAPE_LEN, one past the end
    | BadStateId(state: int32)                          // a negative state id indexes no state

  /** `slots` is the length of the state array (the constructor argument
      minus one); `registered` holds the states added so far, in order, so
      state id `k` is `registered[k]`. */
  datatype Machine = Machine(slots: nat, registered: seq<State>)

  /** The source's registration counter `stateCount`: 1 on construction,
      bumped by each successful `addState`. */
  function StateCount(m: Machine): nat {
    |m.registered| + 1
  }

  /** Registered states always fit in the state array. */
  predicate Valid(m: Machine) {
    |m.registered| <= m.slots
  }

  /** The loop guard fails, so the run halts, once the current id reaches
      `stateCount - 1`; ids above that halt too. */
  predicate Halting(m: Machine, q: int) {
    q >= StateCount(m) - 1
  }

  /** `new Turing(count)`. */
  function NewMachine(count: int32): (r: Result<Machine, Error>)
    ensures r.Failure? <==> count < 2
    ensures r.Failure? ==> r.error == ConfigError
    ensures r.Success? ==> r.value.slots == count - 1 && StateCount(r.value) == 1 && Valid(r.value)
  {
    if count < 2 then Failure(ConfigError) else Success(Machine(count - 1, []))
  }

  /** `addState`: succeeds while a slot is free, putting the state at index
      `stateCount - 1`; otherwise the machine is left as it was and the call
      reports `CapacityError`. */
  function AddState(m: Machine, s: State): (r: Result<Machine, Error>)
    ensures r.Success? <==> StateCount(m) <= m.slots
    ensures r.Failure? ==> r.error == CapacityError
    ensures r.Success? ==> r.value.slots == m.slots && StateCount(r.value) == StateCount(m) + 1
    ensures r.Success? ==> r.value.registered[StateCount(m) - 1] == s
    ensures r.Success? ==> r.value.registered[..|m.registered|] == m.registered
    ensures Valid(m) && r.Success? ==> Valid(r.value)
  {
    if StateCount(m) <= m.slots then Success(m.(registered := m.registered + [s]))
    else Failure(CapacityError)
  }

  /** A series of `addState` calls, stopping at the first failure. */
  function RegisterAll(m: Machine, ss: seq<State>): Result<Machine, Error>
    decreases |ss|
  {
    if |ss| == 0 then Success(m)
    else
      var m' :- AddState(m, ss[0]);
      RegisterAll(m', ss[1..])
  }

  /** Registering `ss` succeeds exactly when all of it fits in the free slots;
      the k-th state registered then has id k - 1 counted from the states
      already present. */
  lemma {:induction false} RegisterAllSpec(m: Machine, ss: seq<State>)
    requires Valid(m)
    ensures RegisterAll(m, ss).Success? <==> |m.registered| + |ss| <= m.slots
    ensures RegisterAll(m, ss).Failure? ==> RegisterAll(m, ss).error == CapacityError
    ensures RegisterAll(m, ss).Success? ==>
              RegisterAll(m, ss).value == Machine(m.slots, m.registered + ss)
    decreases |ss|
  {
    if |ss| > 0 {
      if StateCount(m) <= m.slots {
        var m' := AddState(m, ss[0]).value;
        assert m'.registered == m.registered + [ss[0]];
        RegisterAllSpec(m', ss[1..]);
        assert m.registered + [ss[0]] + ss[1..] == m.registered + ss;
      }
    }
  }

  /** A machine built for `count` states takes exactly `count - 1`
      registrations; the next one fails. */
  lemma CapacityIsCountMinusOne(count: int32, ss: seq<State>, extra: State)
    requires count >= 2 && |ss| == count - 1
    ensures NewMachine(count) == Success(Machine(count - 1, []))
    ensures RegisterAll(Machine(count - 1, []), ss) == Success(Machine(count - 1, ss))
    ensures AddState(Machine(count - 1, ss), extra) == Failure(CapacityError)
  {
    RegisterAllSpec(Machine(count - 1, []), ss);
    assert [] + ss == ss;
  }

  /** The halting threshold is set by how many states were registered, not
      by the count the machine was built for: after `k` registrations the
      run halts at any id of at least `k`. */
  lemma HaltingFollowsRegistrations(count: int32, ss: seq<State>, q: int)
    requires count >= 2 && |ss| <= count - 1
    ensures NewMachine(count).Success? && RegisterAll(NewMachine(count).value, ss).Success?
    ensures Halting(RegisterAll(NewMachine(count).value, ss).value, q) <==> q >= |ss|
  {
    RegisterAllSpec(NewMachine(count).value, ss);
  }

  /** While the loop guard holds, a non-negative current id indexes a
      registered state. */
  lemma GuardIndexesRegistered(m: Machine, q: int)
    requires !Halting(m, q) && 0 <= q
    ensures q < |m.registered|
  {
  }

  /** The tape, head position and current state id of a run. */
  datatype Config = Config(tape: seq<char>, head: int, state: int32)

  /** Tape of full length; the head may sit on any cell or one past the end,
      which the bounds check of a move allows. */
  predicate WellFormed(c: Config) {
    |c.tape| == TAPE_LEN && 0 <= c.head <= TAPE_LEN
  }

  /** `initTape`: input too long for a trailing blank is refused; otherwise
      the input followed by blanks up to full length. */
  function InitTape(input: string): (r: Result<seq<char>, Error>)
    ensures r.Failure? <==> |input| >= TAPE_LEN
    ensures r.Failure? ==> r.error == InputTooLarge
    ensures r.Success? ==> |r.value| == TAPE_LEN && r.value[..|input|] == input
    ensures r.Success? ==> forall i :: |input| <= i < TAPE_LEN ==> r.value[i] == BLANK
  {
    if |input| >= TAPE_LEN then Failure(InputTooLarge)
    else Success(input + seq(TAPE_LEN - |input|, _ => BLANK))
  }

  /** `initTape` as the source writes it: overwrite a previously used tape
      cell by cell, first with the input, then with blanks. Whatever the old
      tape held, the result is the fresh tape `InitTape` describes. */
  method FillTape(stale: seq<char>, input: string) returns (r: Result<seq<char>, Error>)
    requires |stale| == TAPE_LEN
    ensures r == InitTape(input)
  {
    if |input| >= TAPE_LEN {
      return Failure(InputTooLarge);
    }
    var tape := stale;
    var p := 0;
    while p < |input|
      invariant 0 <= p <= |input| && |tape| == TAPE_LEN
      invariant tape[..p] == input[..p]
    {
      tape := tape[p := input[p]];
      p := p + 1;
    }
    while p < TAPE_LEN
      invariant |input| <= p <= TAPE_LEN && |tape| == TAPE_LEN
      invariant tape[..|input|] == input
      invariant forall i :: |input| <= i < p ==> tape[i] == BLANK
    {
      tape := tape[p := BLANK];
      p := p + 1;
    }
    ghost var want := InitTape(input).value;
    assert forall i :: 0 <= i < TAPE_LEN ==> tape[i] == want[i] by {
      forall i | 0 <= i < TAPE_LEN
        ensures tape[i] == want[i]
      {
        if i < |input| {
          assert tape[i] == tape[..|input|][i] && want[i] == want[..|input|][i];
        }
      }
    }
    assert tape == want;
    return Success(tape);
  }

  /** One iteration of the loop body of `execute`, taken only while the loop
      guard holds: look up the transition for (state, symbol under the head),
      compute the new head position in 32-bit arithmetic, check it against
      the tape before anything is written, then write, move and switch
      state. `StepSpec` states what the step does. */
  function Step(m: Machine, c: Config): (r: Result<Config, Error>)
    requires WellFormed(c) && !Halting(m, c.state)
    ensures r.Success? ==> WellFormed(r.value)
  {
    if c.state < 0 then Failure(BadStateId(c.state))
    else if c.head == TAPE_LEN then Failure(HeadOffTape(c.state))
    else
      match GetTransition(m.registered[c.state], c.tape[c.head])
      case None => Failure(NoTransition(c.state, c.tape[c.head]))
      case Some(t) =>
        var newHead := AddToPointer(c.head, t.movement);
        if newHead < 0 || newHead > TAPE_LEN then Failure(TapeOverrun(c.state, c.head, t.movement))
        else Success(Config(c.tape[c.head := t.newSymbol], newHead, t.nextState))
  }

  /** What a step does. It succeeds only from a registered state with the
      head on the tape, and then rewrites just the cell under the head by the
      transition found, moving by the exact (unwrapped) movement. Otherwise
      it fails with the error for the first check that fails: a negative
      state id, the head one past the end, a gap in the table, or a move that
      would leave `[0, TAPE_LEN]`. */
  lemma StepSpec(m: Machine, c: Config)
    requires WellFormed(c) && !Halting(m, c.state)
    ensures var r := Step(m, c);
            r.Success? ==> 0 <= c.state < |m.registered| && c.head < TAPE_LEN
    ensures var r := Step(m, c);
            r.Success? ==> forall i :: 0 <= i < TAPE_LEN && i != c.head ==> r.value.tape[i] == c.tape[i]
    ensures var r := Step(m, c);
            r.Success? ==>
              && GetTransition(m.registered[c.state], c.tape[c.head]).Some?
              && var t := GetTransition(m.registered[c.state], c.tape[c.head]).value;
              && r.value.tape[c.head] == t.newSymbol
              && r.value.head == c.head + t.movement
              && r.value.state == t.nextState
    ensures c.state < 0 ==> Step(m, c) == Failure(BadStateId(c.state))
    ensures 0 <= c.state && c.head == TAPE_LEN ==> Step(m, c) == Failure(HeadOffTape(c.state))
    ensures 0 <= c.state && c.head < TAPE_LEN && GetTransition(m.registered[c.state], c.tape[c.head]).None? ==>
              Step(m, c) == Failure(NoTransition(c.state, c.tape[c.head]))
    ensures 0 <= c.state && c.head < TAPE_LEN && GetTransition(m.registered[c.state], c.tape[c.head]).Some? ==>
              var t := GetTransition(m.registered[c.state], c.tape[c.head]).value;
              var r := Step(m, c);
              (r.Failure? <==> c.head + t.movement < 0 || c.head + t.movement > TAPE_LEN) &&
              (r.Failure? ==> r.error == TapeOverrun(c.state, c.head, t.movement))
  {
    if 0 <= c.state && c.head < TAPE_LEN && GetTransition(m.registered[c.state], c.tape[c.head]).Some? {
      var t := GetTransition(m.registered[c.state], c.tape[c.head]).value;
      AddToPointerWraps(c.head, t.movement, TAPE_LEN);
    }
  }

  /** How a fuel-bounded run ends: the final tape, an error, or the fuel ran
      out before the machine halted (the source would keep looping). */
  datatype Outcome = Finished(tape: seq<char>) | Aborted(error: Error) | OutOfFuel

  /** The loop of `execute`, for at most `fuel` iterations. */
  function Run(m: Machine, c: Config, fuel: nat): (r: Outcome)
    requires WellFormed(c)
    ensures r.Finished? ==> |r.tape| == TAPE_LEN
    decreases fuel
  {
    if Halting(m, c.state) then Finished(c.tape)
    else if fuel == 0 then OutOfFuel
    else
      match Step(m, c)
      case Failure(e) => Aborted(e)
      case Success(c') => Run(m, c', fuel - 1)
  }

  /** `execute`: initialise the tape, start in state 0 at cell 0, and run;
      on halting the whole tape is the answer. */
  function Execute(m: Machine, input: string, fuel: nat): (r: Outcome)
    ensures |input| >= TAPE_LEN ==> r == Aborted(InputTooLarge)
    ensures r.Finished? ==> |r.tape| == TAPE_LEN
  {
    match InitTape(input)
    case Failure(e) => Aborted(e)
    case Success(t) => Run(m, Config(t, 0, 0), fuel)
  }

  /** Fuel only bounds the run: once a run has an answer, more fuel gives the
      same answer. */
  lemma {:induction false} RunMonotone(m: Machine, c: Config, fuel: nat, more: nat)
    requires WellFormed(c)
    requires fuel <= more && !Run(m, c, fuel).OutOfFuel?
    ensures Run(m, c, more) == Run(m, c, fuel)
    decreases fuel
  {
    if !Halting(m, c.state) && Step(m, c).Success? {
      RunMonotone(m, Step(m, c).value, fuel - 1, more - 1);
    }
  }

  /** A gap in the table for the state and symbol at hand ends the run with
      `NoTransition` naming both, and no tape. */
  lemma MissingTransitionAborts(m: Machine, c: Config, fuel: nat)
    requires WellFormed(c) && !Halting(m, c.state) && fuel > 0
    requires 0 <= c.state && c.head < TAPE_LEN
    requires GetTransition(m.registered[c.state], c.tape[c.head]).None?
    ensures Run(m, c, fuel) == Aborted(NoTransition(c.state, c.tape[c.head]))
  {
  }

  /** A machine whose entry state jumps straight to the halting threshold on
      the first symbol halts after one step, returning the initial tape with
      just that one cell rewritten. */
  lemma OneStepHalt(m: Machine, input: string, fuel: nat)
    requires |input| < TAPE_LEN && |m.registered| >= 1 && fuel >= 1
    requires var first := InitTape(input).value[0];
             && GetTransition(m.registered[0], first).Some?
             && var t := GetTransition(m.registered[0], first).value;
             && 0 <= t.movement <= TAPE_LEN
             && Halting(m, t.nextState)
    ensures var tape := InitTape(input).value;
            var t := GetTransition(m.registered[0], tape[0]).value;
            Execute(m, input, fuel) == Finished(tape[0 := t.newSymbol])
  {
    var tape := InitTape(input).value;
    var c := Config(tape, 0, 0);
    var next := Step(m, c);
    assert next.Success?;
    assert Run(m, c, fuel) == Run(m, next.value, fuel - 1);
  }

  /** `execute` as the source writes it: a loop over a machine whose tape
      still holds the previous run's symbols. Every cell is reinitialised, so
      the answer is the same whatever the previous run left behind: running
      the same input twice gives the same result. */
  method ExecuteLoop(m: Machine, stale: seq<char>, input: string, fuel: nat) returns (out: Outcome)
    requires |stale| == TAPE_LEN
    ensures out == Execute(m, input, fuel)
  {
    var init := FillTape(stale, input);
    if init.Failure? {
      return Aborted(init.error);
    }
    var tape := init.value;
    var head := 0;
    var q: int32 := 0;
    var f := fuel;
    while !Halting(m, q) && f > 0
      invariant |tape| == TAPE_LEN && 0 <= head <= TAPE_LEN
      invariant Run(m, Config(tape, head, q), f) == Execute(m, input, fuel)
      decreases f
    {
      if q < 0 {
        return Aborted(BadStateId(q));
      }
      if head == TAPE_LEN {
        return Aborted(HeadOffTape(q));
      }
      var found := GetTransition(m.registered[q], tape[head]);
      if found.None? {
        return Aborted(NoTransition(q, tape[head]));
      }
      var t := found.value;
      var newPos := AddToPointer(head, t.movement);
      if newPos < 0 || newPos > TAPE_LEN {
        return Aborted(TapeOverrun(q, head, t.movement));
      }
      tape := tape[head := t.newSymbol];
      head := newPos;
      q := t.nextState;
      f := f - 1;
    }
    if Halting(m, q) {
      out := Finished(tape);
    } else {
      out := OutOfFuel;
    }
  }

  /** `c` reaches `c'` in exactly `k` successful steps, none of them taken
      from a halting state. */
  ghost predicate Reach(m: Machine, c: Config, k: nat, c': Config)
    decreases k
  {
    && WellFormed(c)
    && if k == 0 then c == c'
       else !Halting(m, c.state) && Step(m, c).Success? && Reach(m, Step(m, c).value, k - 1, c')
  }

  /** A run that passes through `c'` after `k` steps spends `k` units of fuel
      to get there and then behaves as a run from `c'`. */
  lemma {:induction false} ReachRun(m: Machine, c: Config, k: nat, c': Config, fuel: nat)
    requires Reach(m, c, k, c')
    ensures WellFormed(c') && Run(m, c, fuel + k) == Run(m, c', fuel)
    decreases k
  {
    if k > 0 {
      ReachRun(m, Step(m, c).value, k - 1, c', fuel);
    }
  }

  /** Consecutive stretches of a run join up. */
  lemma {:induction false} ReachTrans(m: Machine, c: Config, k1: nat, c': Config, k2: nat, c'': Config)
    requires Reach(m, c, k1, c') && Reach(m, c', k2, c'')
    ensures Reach(m, c, k1 + k2, c'')
    decreases k1
  {
    if k1 > 0 {
      ReachTrans(m, Step(m, c).value, k1 - 1, c', k2, c'');
    }
  }

  /** A single successful step. */
  lemma StepReach(m: Machine, c: Config, c': Config)
    requires WellFormed(c) && !Halting(m, c.state) && Step(m, c) == Success(c')
    ensures Reach(m, c, 1, c')
  {
    assert Reach(m, c', 0, c');
  }

  /** A run from the initial configuration that reaches a halting state in
      `k` steps answers with that state's tape for any fuel of at least `k`. */
  lemma ReachHalts(m: Machine, input: string, k: nat, c': Config)
    requires InitTape(input).Success?
    requires Reach(m, Config(InitTape(input).value, 0, 0), k, c') && Halting(m, c'.state)
    ensures forall f :: k <= f ==> Execute(m, input, f) == Finished(c'.tape)
  {
    forall f | k <= f
      ensures Execute(m, input, f) == Finished(c'.tape)
    {
      ReachRun(m, Config(InitTape(input).value, 0, 0), k, c', f - k);
    }
  }

  /** The errors a running loop can raise, as opposed to those of
      construction, registration and tape initialisation. */
  predicate RunTimeError(e: Error) {
    e.NoTransition? || e.TapeOverrun? || e.HeadOffTape? || e.BadStateId?
  }

  /** A run aborts only with a run-time error. */
  lemma {:induction false} RunErrorsAreRunTime(m: Machine, c: Config, fuel: nat)
    requires WellFormed(c)
    ensures Run(m, c, fuel).Aborted? ==> RunTimeError(Run(m, c, fuel).error)
    decreases fuel
  {
    if !Halting(m, c.state) && fuel > 0 && Step(m, c).Success? {
      RunErrorsAreRunTime(m, Step(m, c).value, fuel - 1);
    }
  }

  /** `execute` reports `InputTooLarge` exactly for inputs of at least
      `TAPE_LEN` symbols, before any step is taken. */
  lemma InputTooLargeIff(m: Machine, input: string, fuel: nat)
    ensures Execute(m, input, fuel) == Aborted(InputTooLarge) <==> |input| >= TAPE_LEN
  {
    if |input| < TAPE_LEN {
      RunErrorsAreRunTime(m, Config(InitTape(input).value, 0, 0), fuel);
    }
  }
}
