/** The configuration loaded by the driver (Main.java): eight working states
    over the symbols `0`, `1`, `B`, `E`, registered into a machine built for
    nine states, so that id 8 is the halting threshold. The input is wrapped
    in `E` markers before it is run. */
module Driver {
  import opened Results
  import opened Transitions
  import opened States
  import opened Turing

  /** Skips the leading `E`. */
  const S0: State :=
    AddTransition(NewState(0), Transition('E', 'E', RIGHT, 1))

  /** Start of a round: wipe a leading `0`; a leading `1` rejects, nothing
      left accepts, and the bare `E` of an empty input rejects. */
  const S1: State :=
    AddTransition(AddTransition(AddTransition(AddTransition(NewState(1),
      Transition('0', 'B', RIGHT, 2)),
      Transition('1', 'B', LEFT, 6)),
      Transition('B', 'B', LEFT, 5)),
      Transition('E', 'E', LEFT, 6))

  /** Scan right to the end of the remaining string. */
  const S2: State :=
    AddTransition(AddTransition(AddTransition(AddTransition(NewState(2),
      Transition('0', '0', RIGHT, 2)),
      Transition('1', '1', RIGHT, 2)),
      Transition('B', 'B', LEFT, 3)),
      Transition('E', 'E', LEFT, 3))

  /** At the last symbol: a `1` is wiped, anything else rejects. */
  const S3: State :=
    AddTransition(AddTransition(AddTransition(AddTransition(NewState(3),
      Transition('0', '0', LEFT, 6)),
      Transition('1', 'B', LEFT, 4)),
      Transition('B', 'B', LEFT, 6)),
      Transition('E', 'E', LEFT, 6))

  /** Scan left back to the start of the remaining string. */
  const S4: State :=
    AddTransition(AddTransition(AddTransition(AddTransition(NewState(4),
      Transition('0', '0', LEFT, 4)),
      Transition('1', '1', LEFT, 4)),
      Transition('B', 'B', RIGHT, 1)),
      Transition('E', 'E', RIGHT, 1))

  /** Accepting: run left to the leading `E` and overwrite it with `1`. */
  const S5: State :=
    AddTransition(AddTransition(AddTransition(AddTransition(NewState(5),
      Transition('0', '0', LEFT, 5)),
      Transition('1', '1', LEFT, 5)),
      Transition('B', 'B', LEFT, 5)),
      Transition('E', '1', RIGHT, 7))

  /** Rejecting: run left to the leading `E` and overwrite it with `0`. */
  const S6: State :=
    AddTransition(AddTransition(AddTransition(AddTransition(NewState(6),
      Transition('0', '0', LEFT, 6)),
      Transition('1', '1', LEFT, 6)),
      Transition('B', 'B', LEFT, 6)),
      Transition('E', '0', RIGHT, 7))

  /** Wiping: blank everything up to and including the trailing `E`, then
      halt. */
  const S7: State :=
    AddTransition(AddTransition(AddTransition(AddTransition(NewState(7),
      Transition('0', 'B', RIGHT, 7)),
      Transition('1', 'B', RIGHT, 7)),
      Transition('B', 'B', RIGHT, 7)),
      Transition('E', 'B', RIGHT, 8))

  /** The states in registration order. */
  const TABLE: seq<State> := [S0, S1, S2, S3, S4, S5, S6, S7]

  /** `new Turing(9)` followed by the eight `addState` calls. */
  function Build(): Result<Machine, Error> {
    var m := NewMachine(9);
    if m.Failure? then m else RegisterAll(m.value, TABLE)
  }

  /** The input as the driver hands it over: between two `E` markers. */
  function Wrap(s: string): (r: string)
    ensures |r| == |s| + 2 && r[0] == 'E' && r[|r| - 1] == 'E' && r[1..|r| - 1] == s
  {
    "E" + s + "E"
  }

  /** The machine `Build` produces: eight slots, all filled, in id order. */
  const LOADED: Machine := Machine(8, TABLE)

  /** Construction and registration all succeed; the halting threshold is
      state 8, and every registered state sits at the index of its own id. */
  lemma BuildLoadsTable()
    ensures Build() == Success(LOADED)
    ensures StateCount(LOADED) == 9 && Halting(LOADED, 8) && !Halting(LOADED, 7)
    ensures forall q :: 0 <= q < |LOADED.registered| ==> LOADED.registered[q].id == q
    ensures forall s :: AddState(LOADED, s) == Failure(CapacityError)
  {
    RegisterAllSpec(Machine(8, []), TABLE);
    assert [] + TABLE == TABLE;
  }

  /** The registered table read as a transition function: for each working
      state and symbol, the rule that `s0` to `s7` register. */
  function Delta(q: int, c: char): Option<Transition> {
    match q
    case 0 => if c == 'E' then Some(Transition('E', 'E', RIGHT, 1)) else None
    case 1 =>
      if c == '0' then Some(Transition('0', 'B', RIGHT, 2))
      else if c == '1' then Some(Transition('1', 'B', LEFT, 6))
      else if c == 'B' then Some(Transition('B', 'B', LEFT, 5))
      else if c == 'E' then Some(Transition('E', 'E', LEFT, 6))
      else None
    case 2 =>
      if c == '0' || c == '1' then Some(Transition(c, c, RIGHT, 2))
      else if c == 'B' || c == 'E' then Some(Transition(c, c, LEFT, 3))
      else None
    case 3 =>
      if c == '1' then Some(Transition('1', 'B', LEFT, 4))
      else if c == '0' || c == 'B' || c == 'E' then Some(Transition(c, c, LEFT, 6))
      else None
    case 4 =>
      if c == '0' || c == '1' then Some(Transition(c, c, LEFT, 4))
      else if c == 'B' || c == 'E' then Some(Transition(c, c, RIGHT, 1))
      else None
    case 5 =>
      if c == '0' || c == '1' || c == 'B' then Some(Transition(c, c, LEFT, 5))
      else if c == 'E' then Some(Transition('E', '1', RIGHT, 7))
      else None
    case 6 =>
      if c == '0' || c == '1' || c == 'B' then Some(Transition(c, c, LEFT, 6))
      else if c == 'E' then Some(Transition('E', '0', RIGHT, 7))
      else None
    case 7 =>
      if c == '0' || c == '1' || c == 'B' then Some(Transition(c, 'B', RIGHT, 7))
      else if c == 'E' then Some(Transition('E', 'B', RIGHT, 8))
      else None
    case _ => None
  }

  /** `m` has eight working states (so 8 halts) that follow `Delta`. */
  ghost predicate Implements(m: Machine) {
    && |m.registered| == 8
    && FollowsRow(m, 0) && FollowsRow(m, 1) && FollowsRow(m, 2) && FollowsRow(m, 3)
    && FollowsRow(m, 4) && FollowsRow(m, 5) && FollowsRow(m, 6) && FollowsRow(m, 7)
  }

  /** State `q` of `m` follows `Delta` on every symbol. */
  ghost predicate FollowsRow(m: Machine, q: nat)
    requires q < |m.registered|
  {
    forall c :: GetTransition(m.registered[q], c) == Delta(q, c)
  }

  /** The entry of a machine following `Delta` for any working state. */
  lemma RowAt(m: Machine, q: int, c: char)
    requires Implements(m) && 0 <= q < 8
    ensures GetTransition(m.registered[q], c) == Delta(q, c)
  {
    if q == 0 {
    } else if q == 1 {
    } else if q == 2 {
    } else if q == 3 {
    } else if q == 4 {
    } else if q == 5 {
    } else if q == 6 {
    } else {
    }
  }

  /** The machine the driver builds follows `Delta` on every state and
      symbol. */
  lemma TableIsDelta()
    ensures Implements(LOADED)
    ensures forall q, c :: 0 <= q < 8 ==> GetTransition(LOADED.registered[q], c) == Delta(q, c)
  {
    LowRowsAreDelta();
    HighRowsAreDelta();
  }

  /** `s0` to `s3` follow `Delta`. */
  lemma LowRowsAreDelta()
    ensures forall q, c :: 0 <= q < 4 ==> GetTransition(TABLE[q], c) == Delta(q, c)
  {
  }

  /** `s4` to `s7` follow `Delta`. */
  lemma HighRowsAreDelta()
    ensures forall q, c :: 4 <= q < 8 ==> GetTransition(TABLE[q], c) == Delta(q, c)
  {
  }

  /** Every entry of every state sits under its read symbol. */
  lemma TableKeyed()
    ensures forall q :: 0 <= q < |TABLE| ==> Keyed(TABLE[q])
  {
  }

  /** `s0` reacts only to `E`; `s1` to `s7` react to each of `0`, `1`, `B`,
      `E` and nothing else. */
  lemma TableTotality()
    ensures S0.transitions.Keys == {'E'}
    ensures forall q :: 1 <= q < |TABLE| ==> TABLE[q].transitions.Keys == {'0', '1', 'B', 'E'}
  {
    TableIsDelta();
    forall q | 0 <= q < |TABLE|
      ensures TABLE[q].transitions.Keys == (if q == 0 then {'E'} else {'0', '1', 'B', 'E'})
    {
      forall c
        ensures c in TABLE[q].transitions <==> Delta(q, c).Some?
      {
        assert GetTransition(LOADED.registered[q], c) == Delta(q, c);
      }
    }
  }

  /** Every move of the table is a unit step, every target lies in 1..8,
      and the only way into the halting id 8 is `s7` reading `E`. */
  lemma DeltaTargets()
    ensures forall q, c :: Delta(q, c).Some? ==>
              && Delta(q, c).value.movement in {LEFT, RIGHT}
              && 1 <= Delta(q, c).value.nextState <= 8
              && (Delta(q, c).value.nextState == 8 <==> q == 7 && c == 'E')
  {
  }

  /** The same of the loaded machine: whatever transition a working state
      finds moves one cell, and leads to id 8 only from `s7` on `E`. */
  lemma TableTargets()
    ensures forall q, c :: 0 <= q < |LOADED.registered| && GetTransition(LOADED.registered[q], c).Some? ==>
              && GetTransition(LOADED.registered[q], c).value.movement in {LEFT, RIGHT}
              && 1 <= GetTransition(LOADED.registered[q], c).value.nextState <= 8
              && (GetTransition(LOADED.registered[q], c).value.nextState == 8 <==> q == 7 && c == 'E')
  {
    TableIsDelta();
    DeltaTargets();
  }

}
