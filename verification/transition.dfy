/** A single rule of the machine (Transition.java): on reading `oldSymbol`,
    write `newSymbol`, move the head by `movement` cells and continue in state
    `nextState`. As a datatype value it is immutable, and its destructors are
    the four getters. */
module Transitions {
  import opened JavaInt

  /** Movement constants; any other `int` is accepted unvalidated as a
      "direction and distance". */
  const RIGHT: int32 := 1
  const LEFT: int32 := -1

  datatype Transition = Transition(oldSymbol: char, newSymbol: char, movement: int32, nextState: int32)

  /** Each getter hands back exactly what the constructor was given. */
  lemma GettersReturnArguments(o: char, n: char, mv: int32, next: int32)
    ensures Transition(o, n, mv, next).oldSymbol == o
    ensures Transition(o, n, mv, next).newSymbol == n
    ensures Transition(o, n, mv, next).movement == mv
    ensures Transition(o, n, mv, next).nextState == next
  {
  }

  /** The movement constants are unit steps in opposite directions. */
  lemma MovementConstants()
    ensures RIGHT == 1 && LEFT == -1 && LEFT == -RIGHT
  {
  }
}
