/** A state of the machine (State.java): an id and a deterministic table from
    the symbol under the head to the transition to take. */
module States {
  import opened Results
  import opened JavaInt
  import opened Transitions

  datatype State = State(id: int32, transitions: map<char, Transition>)

  /** Every entry sits under the symbol it reacts to. `AddTransition` is the
      only way the source fills the table, and it keeps this invariant. */
  ghost predicate Keyed(s: State) {
    forall c :: c in s.transitions ==> s.transitions[c].oldSymbol == c
  }

  /** `new State(id)`: no transitions yet. */
  function NewState(id: int32): (s: State)
    ensures s.id == id && Keyed(s)
    ensures forall c :: GetTransition(s, c) == None
  {
    State(id, map[])
  }

  /** `addTransition`: the transition becomes the answer for its read symbol,
      overwriting any earlier one; every other symbol and the id are left
      alone. */
  function AddTransition(s: State, t: Transition): (s': State)
    ensures s'.id == s.id
    ensures GetTransition(s', t.oldSymbol) == Some(t)
    ensures forall b :: b != t.oldSymbol ==> GetTransition(s', b) == GetTransition(s, b)
    ensures Keyed(s) ==> Keyed(s')
  {
    s.(transitions := s.transitions[t.oldSymbol := t])
  }

  /** `getTransition`: `None` (Java's `null`) when nothing is registered. A
      transition found under `c` in a keyed state reads `c`. */
  function GetTransition(s: State, c: char): (r: Option<Transition>)
    ensures r.None? <==> c !in s.transitions
    ensures Keyed(s) && r.Some? ==> r.value.oldSymbol == c
  {
    if c in s.transitions then Some(s.transitions[c]) else None
  }

  /** Registering twice for the same symbol: the second transition wins and
      the first leaves no trace. */
  lemma LastWriteWins(s: State, t1: Transition, t2: Transition)
    requires t1.oldSymbol == t2.oldSymbol
    ensures AddTransition(AddTransition(s, t1), t2) == AddTransition(s, t2)
  {
  }

  /** Transitions for different symbols do not interfere: their order of
      registration is irrelevant. */
  lemma DistinctSymbolsCommute(s: State, t1: Transition, t2: Transition)
    requires t1.oldSymbol != t2.oldSymbol
    ensures AddTransition(AddTransition(s, t1), t2) == AddTransition(AddTransition(s, t2), t1)
  {
  }

  /** A series of `addTransition` calls, in order. */
  function AddAll(s: State, ts: seq<Transition>): (s': State)
    decreases |ts|
  {
    if |ts| == 0 then s else AddAll(AddTransition(s, ts[0]), ts[1..])
  }

  /** Reference answer for a series of registrations: the last transition in
      `ts` that reads `c`, or `None`. */
  function LastFor(ts: seq<Transition>, c: char): Option<Transition>
    decreases |ts|
  {
    if |ts| == 0 then None
    else if ts[|ts| - 1].oldSymbol == c then Some(ts[|ts| - 1])
    else LastFor(ts[..|ts| - 1], c)
  }

  /** After registering `ts`, each symbol answers with the last transition of
      `ts` that reads it, or with what the state held before if none does;
      the id never changes. */
  lemma {:induction false} AddAllLookup(s: State, ts: seq<Transition>, c: char)
    ensures AddAll(s, ts).id == s.id
    ensures GetTransition(AddAll(s, ts), c) ==
              match LastFor(ts, c)
              case Some(t) => Some(t)
              case None => GetTransition(s, c)
    decreases |ts|
  {
    if |ts| > 0 {
      var n := |ts| - 1;
      var front := ts[..n];
      AddAllSnoc(s, front, ts[n]);
      assert front + [ts[n]] == ts;
      AddAllLookup(s, front, c);
    }
  }

  /** Registering one more transition at the end of a series. */
  lemma {:induction false} AddAllSnoc(s: State, ts: seq<Transition>, t: Transition)
    ensures AddAll(s, ts + [t]) == AddTransition(AddAll(s, ts), t)
    decreases |ts|
  {
    if |ts| == 0 {
      assert ts + [t] == [t];
    } else {
      assert (ts + [t])[1..] == ts[1..] + [t];
      AddAllSnoc(AddTransition(s, ts[0]), ts[1..], t);
    }
  }
}
