/** The sample inputs listed in the driver, run on the loaded table. */
module Samples {
  import opened Transitions
  import opened Turing
  import opened Driver
  import opened Decider

  /** `01` is accepted: `1` in cell 0, blanks elsewhere. */
  lemma AcceptsZeroOne() returns (fuel: nat)
    ensures forall f :: fuel <= f ==> Execute(LOADED, Wrap("01"), f) == Finished(Answer(true))
  {
    assert InLanguage("01") by {
      assert "01" == Rep('0', 1) + Rep('1', 1);
    }
    fuel := TableDecides("01");
  }

  /** `00000000001111111111` (ten of each) is accepted. */
  lemma AcceptsTenTen() returns (fuel: nat)
    ensures forall f :: fuel <= f ==>
              Execute(LOADED, Wrap(Rep('0', 10) + Rep('1', 10)), f) == Finished(Answer(true))
  {
    var w := Rep('0', 10) + Rep('1', 10);
    assert w[..10] == Rep('0', 10) && w[10..] == Rep('1', 10);
    fuel := TableDecides(w);
  }

  /** With at least `fuel` steps, the loaded machine rejects `w`: `0` in
      cell 0 and blanks everywhere else. */
  ghost predicate RejectedWithin(w: string, fuel: nat)
  {
    forall f :: fuel <= f ==> Execute(LOADED, Wrap(w), f) == Finished(Answer(false))
  }

  /** Rejection, once reached, survives more fuel. */
  lemma RejectedLater(w: string, a: nat, b: nat)
    requires RejectedWithin(w, a) && a <= b
    ensures RejectedWithin(w, b)
  {
  }

  /** A binary non-member that fits is rejected. */
  lemma Rejects(w: string) returns (fuel: nat)
    requires Binary(w) && |Wrap(w)| < TAPE_LEN && !InLanguage(w)
    ensures RejectedWithin(w, fuel)
  {
    fuel := TableDecides(w);
  }

  /** The short rejected samples: `0000011` (five zeros, two ones), `10`,
      `0`, `1`, and the empty input, which the language excludes since
      n >= 1 (`s1` meets the trailing `E` at once). */
  lemma RejectedSamples() returns (fuel: nat)
    ensures RejectedWithin("0000011", fuel) && RejectedWithin("10", fuel) && RejectedWithin("0", fuel)
            && RejectedWithin("1", fuel) && RejectedWithin("", fuel)
  {
    assert !InLanguage("10") by {
      assert "10"[0] != (Rep('0', 1) + Rep('1', 1))[0];
    }
    var f1 := Rejects("0000011");
    var f2 := Rejects("10");
    var f3 := Rejects("0");
    var f4 := Rejects("1");
    var f5 := Rejects("");
    fuel := f1 + f2 + f3 + f4 + f5;
    RejectedLater("0000011", f1, fuel);
    RejectedLater("10", f2, fuel);
    RejectedLater("0", f3, fuel);
    RejectedLater("1", f4, fuel);
    RejectedLater("", f5, fuel);
  }

  /** The longest samples: 48 zeros then 48 ones fit (wrapped, 98 cells) and
      are accepted; 49 zeros then 48 ones, and 48 zeros then 49 ones, still
      fit (99 cells) and are rejected; 49 of each no longer leave room for a
      trailing blank and are refused before any step. */
  lemma LongSamples() returns (fuel: nat)
    ensures forall f :: fuel <= f ==>
              Execute(LOADED, Wrap(Rep('0', 48) + Rep('1', 48)), f) == Finished(Answer(true))
    ensures RejectedWithin(Rep('0', 49) + Rep('1', 48), fuel)
    ensures RejectedWithin(Rep('0', 48) + Rep('1', 49), fuel)
    ensures forall f :: Execute(LOADED, Wrap(Rep('0', 49) + Rep('1', 49)), f) == Aborted(InputTooLarge)
  {
    var w := Rep('0', 48) + Rep('1', 48);
    assert w[..48] == Rep('0', 48) && w[48..] == Rep('1', 48);
    var f1 := TableDecides(w);
    var f2 := Rejects(Rep('0', 49) + Rep('1', 48));
    var f3 := Rejects(Rep('0', 48) + Rep('1', 49));
    fuel := f1 + f2 + f3;
    RejectedLater(Rep('0', 49) + Rep('1', 48), f2, fuel);
    RejectedLater(Rep('0', 48) + Rep('1', 49), f3, fuel);
  }

  /** On binary input, the loaded machine refuses with `InputTooLarge`
      exactly when the wrapped input leaves no cell for a trailing blank. */
  lemma WrappedInputBound(w: string, f: nat)
    ensures Execute(LOADED, Wrap(w), f) == Aborted(InputTooLarge) <==> |w| + 2 >= TAPE_LEN
  {
    InputTooLargeIff(LOADED, Wrap(w), f);
  }

  /** `0002011111` holds a symbol outside the alphabet: state 2, scanning
      right, finds no transition for `2` and the run aborts naming both. */
  lemma StraySymbol(m: Machine) returns (fuel: nat)
    requires Implements(m)
    ensures forall f :: fuel <= f ==> Execute(m, Wrap("0002011111"), f) == Aborted(NoTransition(2, '2'))
  {
    var w := "0002011111";
    assert Binary(w[..3]);
    var t0 := InitTape(Wrap(w)).value;
    assert t0[..|Wrap(w)|] == Wrap(w);
    assert t0[0] == 'E' && t0[1] == '0' && t0[2] == '0' && t0[3] == '0' && t0[4] == '2' by {
      assert forall k :: 0 <= k < 5 ==> t0[k] == t0[..|Wrap(w)|][k];
    }
    SkipHeader(m, t0);
    var t1 := t0[1 := 'B'];
    Move(m, Config(t0, 1, 1), 'B', RIGHT, 2);
    ReachTrans(m, Config(t0, 0, 0), 1, Config(t0, 1, 1), 1, Config(t1, 2, 2));
    Move(m, Config(t1, 2, 2), '0', RIGHT, 2);
    assert t1[2 := '0'] == t1;
    ReachTrans(m, Config(t0, 0, 0), 2, Config(t1, 2, 2), 1, Config(t1, 3, 2));
    Move(m, Config(t1, 3, 2), '0', RIGHT, 2);
    assert t1[3 := '0'] == t1;
    ReachTrans(m, Config(t0, 0, 0), 3, Config(t1, 3, 2), 1, Config(t1, 4, 2));
    fuel := 5;
    forall f | fuel <= f
      ensures Execute(m, Wrap(w), f) == Aborted(NoTransition(2, '2'))
    {
      ReachRun(m, Config(t0, 0, 0), 4, Config(t1, 4, 2), f - 4);
      MissingTransitionAborts(m, Config(t1, 4, 2), f - 4);
    }
  }

  /** The same on the loaded machine. */
  lemma StraySymbolLoaded() returns (fuel: nat)
    ensures forall f :: fuel <= f ==> Execute(LOADED, Wrap("0002011111"), f) == Aborted(NoTransition(2, '2'))
  {
    TableIsDelta();
    fuel := StraySymbol(LOADED);
  }
}
