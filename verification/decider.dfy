/** What the loaded table computes. The driver's documentation promises that
    the machine decides { 0^n 1^n | n >= 1 }: on an input over `0`/`1` it halts
    with `1` (yes) or `0` (no) in cell 0 and blanks everywhere else. This
    module proves that promise for every input that fits on the tape. */
module Decider {
  import opened Results
  import opened JavaInt
  import opened Transitions
  import opened Turing
  import opened Driver

  /** `n` copies of `c`. */
  function Rep(c: char, n: nat): (r: string)
    ensures |r| == n && forall k :: 0 <= k < n ==> r[k] == c
  {
    seq(n, _ => c)
  }

  /** Strings over the input alphabet `0`, `1`. */
  predicate Binary(w: string) {
    forall k :: 0 <= k < |w| ==> w[k] == '0' || w[k] == '1'
  }

  /** The language { 0^n 1^n | n >= 1 }. */
  predicate InLanguage(w: string) {
    |w| >= 2 && w == Rep('0', |w| / 2) + Rep('1', |w| / 2)
  }

  /** The tape the driver's doc-comment promises: the verdict in cell 0,
      blanks in the other 99 cells. */
  function Answer(yes: bool): (r: seq<char>)
    ensures |r| == TAPE_LEN && r[0] == (if yes then '1' else '0')
    ensures forall k :: 1 <= k < TAPE_LEN ==> r[k] == BLANK
  {
    [if yes then '1' else '0'] + Rep(BLANK, TAPE_LEN - 1)
  }

  // ---------------------------------------------------------------------
  // The algorithm the table implements, and why it decides the language.
  // ---------------------------------------------------------------------

  /** One round strips a leading `0` and a trailing `1`; a round that finds
      anything else rejects. When nothing is left, the verdict is yes unless
      no round has happened yet (`first`): the empty input is rejected. */
  function Verdict(u: string, first: bool): bool
    decreases |u|
  {
    if |u| == 0 then !first
    else if u[0] != '0' || |u| == 1 || u[|u| - 1] != '1' then false
    else Verdict(u[1..|u| - 1], false)
  }

  /** Membership read cell by cell: an even length of at least two, zeros in
      the first half, ones in the second. */
  lemma InLanguageCells(w: string)
    ensures InLanguage(w) <==>
              |w| >= 2 && |w| % 2 == 0 &&
              forall k :: 0 <= k < |w| ==> w[k] == (if k < |w| / 2 then '0' else '1')
  {
    var n := |w| / 2;
    if |w| >= 2 && |w| % 2 == 0 &&
       forall k :: 0 <= k < |w| ==> w[k] == (if k < n then '0' else '1') {
      assert w == Rep('0', n) + Rep('1', n);
    }
    if InLanguage(w) {
      forall k | 0 <= k < |w|
        ensures w[k] == (if k < n then '0' else '1')
      {
        if k < n {
          assert w[k] == Rep('0', n)[k];
        } else {
          assert w[k] == Rep('1', n)[k - n];
        }
      }
    }
  }

  /** Stripping the outer `0` and `1` off a member leaves a member or
      nothing, and putting them back around a member or nothing gives a
      member. */
  lemma StripLanguage(u: string)
    requires |u| >= 2
    ensures InLanguage(u) <==>
              u[0] == '0' && u[|u| - 1] == '1' &&
              (|u| == 2 || InLanguage(u[1..|u| - 1]))
  {
    var v := u[1..|u| - 1];
    InLanguageCells(u);
    InLanguageCells(v);
    var n := |u| / 2;
    if InLanguage(u) && |u| > 2 {
      assert u[0] == '0' && u[|u| - 1] == '1';
      forall k | 0 <= k < |v|
        ensures v[k] == (if k < |v| / 2 then '0' else '1')
      {
        assert v[k] == u[k + 1];
      }
    }
    if u[0] == '0' && u[|u| - 1] == '1' && |u| > 2 && InLanguage(v) {
      forall k | 0 <= k < |u|
        ensures u[k] == (if k < n then '0' else '1')
      {
        if 0 < k < |u| - 1 {
          assert u[k] == v[k - 1];
        }
      }
    }
  }

  /** The rounds decide the language: on a binary string the verdict is yes
      exactly for members, plus the emptied tape after at least one round. */
  lemma {:induction false} VerdictDecides(u: string, first: bool)
    requires Binary(u)
    ensures Verdict(u, first) <==> InLanguage(u) || (|u| == 0 && !first)
    decreases |u|
  {
    if |u| == 1 {
      InLanguageCells(u);
    } else if |u| >= 2 {
      StripLanguage(u);
      var v := u[1..|u| - 1];
      assert Binary(v) by {
        forall k | 0 <= k < |v|
          ensures v[k] == '0' || v[k] == '1'
        {
          assert v[k] == u[k + 1];
        }
      }
      VerdictDecides(v, false);
    }
  }

  // ---------------------------------------------------------------------
  // The table carries the algorithm out on the tape.
  // ---------------------------------------------------------------------

  /** One step of a machine following `Delta` by the entry for the symbol under
      the head. */
  lemma Move(m: Machine, c: Config, write: char, mv: int32, next: int32)
    requires Implements(m)
    requires WellFormed(c) && 0 <= c.state < 8 && c.head < TAPE_LEN
    requires Delta(c.state, c.tape[c.head]) == Some(Transition(c.tape[c.head], write, mv, next))
    requires 0 <= c.head + mv <= TAPE_LEN
    ensures Reach(m, c, 1, Config(c.tape[c.head := write], c.head + mv, next))
  {
    RowAt(m, c.state, c.tape[c.head]);
    StepReach(m, c, Config(c.tape[c.head := write], c.head + mv, next));
  }

  /** State 2 walks right over `0`s and `1`s to the first `B` or `E`, then
      steps back onto the last symbol in state 3, leaving the tape as it was. */
  lemma {:induction false} ScanRight(m: Machine, t: seq<char>, h: int, e: int)
    requires Implements(m)
    requires |t| == TAPE_LEN && 1 <= h <= e < TAPE_LEN
    requires forall k :: h <= k < e ==> t[k] == '0' || t[k] == '1'
    requires t[e] == 'B' || t[e] == 'E'
    ensures Reach(m, Config(t, h, 2), e - h + 1, Config(t, e - 1, 3))
    decreases e - h
  {
    var c := Config(t, h, 2);
    if h == e {
      Move(m, c, t[h], LEFT, 3);
      assert t[h := t[h]] == t;
    } else {
      Move(m, c, t[h], RIGHT, 2);
      assert t[h := t[h]] == t;
      ScanRight(m, t, h + 1, e);
      ReachTrans(m, c, 1, Config(t, h + 1, 2), e - h, Config(t, e - 1, 3));
    }
  }

  /** State 4 walks left over `0`s and `1`s to the first `B` or `E`, then
      steps back right in state 1, leaving the tape as it was. */
  lemma {:induction false} ScanLeft(m: Machine, t: seq<char>, h: int, b: int)
    requires Implements(m)
    requires |t| == TAPE_LEN && 0 <= b <= h < TAPE_LEN - 1
    requires forall k :: b < k <= h ==> t[k] == '0' || t[k] == '1'
    requires t[b] == 'B' || t[b] == 'E'
    ensures Reach(m, Config(t, h, 4), h - b + 1, Config(t, b + 1, 1))
    decreases h - b
  {
    var c := Config(t, h, 4);
    if h == b {
      Move(m, c, t[h], RIGHT, 1);
      assert t[h := t[h]] == t;
    } else {
      Move(m, c, t[h], LEFT, 4);
      assert t[h := t[h]] == t;
      ScanLeft(m, t, h - 1, b);
      ReachTrans(m, c, 1, Config(t, h - 1, 4), h - b, Config(t, b + 1, 1));
    }
  }

  /** The symbol state 5 (yes) or state 6 (no) writes over the leading `E`. */
  function Mark(q: int): char {
    if q == 5 then '1' else '0'
  }

  /** States 5 and 6 walk left to the `E` in cell 0, overwrite it with the
      verdict and hand over to state 7 at cell 1. */
  lemma {:induction false} BackToStart(m: Machine, t: seq<char>, h: int, q: int32)
    requires Implements(m)
    requires |t| == TAPE_LEN && 0 <= h < TAPE_LEN && (q == 5 || q == 6)
    requires t[0] == 'E'
    requires forall k :: 1 <= k <= h ==> t[k] == '0' || t[k] == '1' || t[k] == 'B'
    ensures Reach(m, Config(t, h, q), h + 1, Config(t[0 := Mark(q)], 1, 7))
    decreases h
  {
    var c := Config(t, h, q);
    if h == 0 {
      Move(m, c, Mark(q), RIGHT, 7);
    } else {
      Move(m, c, t[h], LEFT, q);
      assert t[h := t[h]] == t;
      BackToStart(m, t, h - 1, q);
      ReachTrans(m, c, 1, Config(t, h - 1, q), h, Config(t[0 := Mark(q)], 1, 7));
    }
  }

  /** `t` with cells `lo` to `hi` (inclusive) blanked. */
  function Blanked(t: seq<char>, lo: int, hi: int): (r: seq<char>)
    ensures |r| == |t|
    ensures forall k :: 0 <= k < |t| ==> r[k] == (if lo <= k <= hi then BLANK else t[k])
  {
    seq(|t|, k requires 0 <= k < |t| => if lo <= k <= hi then BLANK else t[k])
  }

  /** State 7 blanks every cell up to and including the trailing `E`, then
      moves past it into the halting id 8. */
  lemma {:induction false} Wipe(m: Machine, t: seq<char>, h: int, p: int)
    requires Implements(m)
    requires |t| == TAPE_LEN && 1 <= h <= p < TAPE_LEN
    requires forall k :: h <= k < p ==> t[k] == '0' || t[k] == '1' || t[k] == 'B'
    requires t[p] == 'E'
    ensures Reach(m, Config(t, h, 7), p - h + 1, Config(Blanked(t, h, p), p + 1, 8))
    decreases p - h
  {
    var c := Config(t, h, 7);
    var t' := t[h := BLANK];
    if h == p {
      Move(m, c, BLANK, RIGHT, 8);
      assert t' == Blanked(t, h, p);
    } else {
      Move(m, c, BLANK, RIGHT, 7);
      Wipe(m, t', h + 1, p);
      assert Blanked(t', h + 1, p) == Blanked(t, h, p);
      ReachTrans(m, c, 1, Config(t', h + 1, 7), p - h, Config(Blanked(t, h, p), p + 1, 8));
    }
  }

  /** Tape layout at the start of a round: `E`, blanks, the remaining string
      `u` from cell `i`, blanks, the trailing `E` in cell `p`, blanks. */
  ghost predicate Shape(t: seq<char>, i: int, u: string, p: int) {
    && |t| == TAPE_LEN && 1 <= i && i + |u| <= p < TAPE_LEN - 1
    && Binary(u)
    && t[0] == 'E'
    && (forall k :: 1 <= k < i ==> t[k] == 'B')
    && (forall k :: 0 <= k < |u| ==> t[i + k] == u[k])
    && (forall k :: i + |u| <= k < p ==> t[k] == 'B')
    && t[p] == 'E'
    && (forall k :: p < k < TAPE_LEN ==> t[k] == 'B')
  }

  /** Tape layout once the verdict is known: `E`, working symbols, the
      trailing `E` in cell `p`, blanks. */
  ghost predicate Framed(t: seq<char>, p: int) {
    && |t| == TAPE_LEN && 1 <= p < TAPE_LEN - 1
    && t[0] == 'E'
    && (forall k :: 1 <= k < p ==> t[k] == '0' || t[k] == '1' || t[k] == 'B')
    && t[p] == 'E'
    && (forall k :: p < k < TAPE_LEN ==> t[k] == 'B')
  }

  /** First half of a round on a remaining string starting with `0`: wipe
      that `0` and walk right to the last symbol, in state 3. */
  lemma WipeAndScan(m: Machine, t: seq<char>, i: int, u: string, p: int)
    requires Implements(m)
    requires Shape(t, i, u, p) && |u| >= 1 && u[0] == '0'
    ensures Reach(m, Config(t, i, 1), 1 + |u|, Config(t[i := 'B'], i + |u| - 1, 3))
  {
    var c := Config(t, i, 1);
    var t1 := t[i := 'B'];
    var e := i + |u|;
    assert t[i] == u[0];
    Move(m, c, 'B', RIGHT, 2);
    forall j | i + 1 <= j < e
      ensures t1[j] == '0' || t1[j] == '1'
    {
      assert t1[j] == t[i + (j - i)] == u[j - i];
    }
    ScanRight(m, t1, i + 1, e);
    ReachTrans(m, c, 1, Config(t1, i + 1, 2), e - i, Config(t1, e - 1, 3));
  }

  /** Rounds that end with a verdict at once: nothing left, or a leading
      `1`. */
  lemma RoundEndsEarly(m: Machine, t: seq<char>, i: int, u: string, p: int)
    returns (t': seq<char>, q: int32)
    requires Implements(m)
    requires Shape(t, i, u, p) && (|u| == 0 || u[0] == '1')
    ensures Reach(m, Config(t, i, 1), 1, Config(t', i - 1, q))
    ensures q == (if Verdict(u, i + |u| == p) then 5 else 6)
    ensures Framed(t', p)
  {
    var c := Config(t, i, 1);
    ShapeIsFramed(t, i, u, p);
    if |u| == 0 {
      if i == p {
        Move(m, c, 'E', LEFT, 6);
        assert t[i := 'E'] == t;
        return t, 6;
      } else {
        Move(m, c, 'B', LEFT, 5);
        assert t[i := 'B'] == t;
        return t, 5;
      }
    }
    assert t[i] == u[0];
    Move(m, c, 'B', LEFT, 6);
    FramedWrite(t, p, i, 'B');
    return t[i := 'B'], 6;
  }

  /** Rounds that reject after the first scan: a lone `0`, or a string
      ending in `0`. */
  lemma RoundEndsLate(m: Machine, t: seq<char>, i: int, u: string, p: int)
    returns (k: nat, t': seq<char>, h: int)
    requires Implements(m)
    requires Shape(t, i, u, p) && |u| >= 1 && u[0] == '0' && (|u| == 1 || u[|u| - 1] == '0')
    ensures Reach(m, Config(t, i, 1), k, Config(t', h, 6))
    ensures !Verdict(u, i + |u| == p)
    ensures Framed(t', p) && 0 <= h < p
  {
    var c := Config(t, i, 1);
    var t1 := t[i := 'B'];
    var e := i + |u|;
    WipeAndScan(m, t, i, u, p);
    ShapeIsFramed(t, i, u, p);
    FramedWrite(t, p, i, 'B');
    var c3 := Config(t1, e - 1, 3);
    if |u| == 1 {
      Move(m, c3, 'B', LEFT, 6);
      assert t1[i := 'B'] == t1;
      ReachTrans(m, c, 1 + |u|, c3, 1, Config(t1, i - 1, 6));
      return 2 + |u|, t1, i - 1;
    }
    assert t1[e - 1] == t[i + (|u| - 1)] == u[|u| - 1];
    Move(m, c3, '0', LEFT, 6);
    assert t1[e - 1 := '0'] == t1;
    ReachTrans(m, c, 1 + |u|, c3, 1, Config(t1, e - 2, 6));
    return 2 + |u|, t1, e - 2;
  }

  /** Wiping both ends of the remaining string leaves the shape of the next
      round. */
  lemma StripShape(t: seq<char>, i: int, u: string, p: int)
    requires Shape(t, i, u, p) && |u| >= 2
    ensures Shape(t[i := 'B'][i + |u| - 1 := 'B'], i + 1, u[1..|u| - 1], p)
  {
    var t2 := t[i := 'B'][i + |u| - 1 := 'B'];
    var v := u[1..|u| - 1];
    forall j | 0 <= j < |v|
      ensures t2[i + 1 + j] == v[j]
    {
      assert v[j] == u[j + 1] && t[i + (1 + j)] == u[j + 1];
    }
    forall j | 0 <= j < |v|
      ensures v[j] == '0' || v[j] == '1'
    {
      assert v[j] == u[j + 1];
    }
  }

  /** First three quarters of a stripping round: wipe the leading `0`, walk
      right, wipe the trailing `1` and turn left in state 4. */
  lemma WipeBothEnds(m: Machine, t: seq<char>, i: int, u: string, p: int)
    requires Implements(m)
    requires Shape(t, i, u, p) && |u| >= 2 && u[0] == '0' && u[|u| - 1] == '1'
    ensures Reach(m, Config(t, i, 1), 2 + |u|, Config(t[i := 'B'][i + |u| - 1 := 'B'], i + |u| - 2, 4))
  {
    var c := Config(t, i, 1);
    var t1 := t[i := 'B'];
    var e := i + |u|;
    WipeAndScan(m, t, i, u, p);
    var c3 := Config(t1, e - 1, 3);
    assert t1[e - 1] == t[i + (|u| - 1)] == u[|u| - 1];
    Move(m, c3, 'B', LEFT, 4);
    ReachTrans(m, c, 1 + |u|, c3, 1, Config(t1[e - 1 := 'B'], e - 2, 4));
  }

  /** Last quarter of a stripping round: from the end of the shortened
      string, state 4 walks back to its start and hands over to state 1. */
  lemma ScanBack(m: Machine, t: seq<char>, i: int, v: string, p: int)
    requires Implements(m)
    requires Shape(t, i + 1, v, p) && 1 <= i
    ensures Reach(m, Config(t, i + |v|, 4), |v| + 1, Config(t, i + 1, 1))
  {
    forall j | i < j <= i + |v|
      ensures t[j] == '0' || t[j] == '1'
    {
      assert t[i + 1 + (j - i - 1)] == v[j - i - 1];
    }
    ScanLeft(m, t, i + |v|, i);
  }

  /** A full round on a remaining string `0 v 1`: both ends are wiped and
      the head is back in state 1 at the start of `v`. */
  lemma RoundStrips(m: Machine, t: seq<char>, i: int, u: string, p: int)
    returns (k: nat, t2: seq<char>)
    requires Implements(m)
    requires Shape(t, i, u, p) && |u| >= 2 && u[0] == '0' && u[|u| - 1] == '1'
    ensures Reach(m, Config(t, i, 1), k, Config(t2, i + 1, 1))
    ensures Shape(t2, i + 1, u[1..|u| - 1], p)
  {
    t2 := t[i := 'B'][i + |u| - 1 := 'B'];
    WipeBothEnds(m, t, i, u, p);
    StripShape(t, i, u, p);
    ScanBack(m, t2, i, u[1..|u| - 1], p);
    ReachTrans(m, Config(t, i, 1), 2 + |u|, Config(t2, i + |u| - 2, 4), |u| - 1, Config(t2, i + 1, 1));
    k := 1 + 2 * |u|;
  }

  /** The rounds from state 1 at the start of the remaining string `u`: the
      table reaches state 5 (yes) or 6 (no) exactly as `Verdict` says, with
      the tape still framed by the two `E` markers. The round is the first
      one exactly when `u` still reaches the trailing `E`. */
  lemma {:induction false} Round(m: Machine, t: seq<char>, i: int, u: string, p: int)
    returns (k: nat, t': seq<char>, h: int, q: int32)
    requires Implements(m)
    requires Shape(t, i, u, p)
    ensures Reach(m, Config(t, i, 1), k, Config(t', h, q))
    ensures q == (if Verdict(u, i + |u| == p) then 5 else 6)
    ensures Framed(t', p) && 0 <= h < p
    decreases |u|
  {
    if |u| == 0 || u[0] == '1' {
      t', q := RoundEndsEarly(m, t, i, u, p);
      return 1, t', i - 1, q;
    }
    if |u| == 1 || u[|u| - 1] == '0' {
      k, t', h := RoundEndsLate(m, t, i, u, p);
      return k, t', h, 6;
    }
    assert u[|u| - 1] == '1' by {
      assert u[|u| - 1] == '0' || u[|u| - 1] == '1';
    }
    var k1, t2 := RoundStrips(m, t, i, u, p);
    var k2;
    k2, t', h, q := Round(m, t2, i + 1, u[1..|u| - 1], p);
    ReachTrans(m, Config(t, i, 1), k1, Config(t2, i + 1, 1), k2, Config(t', h, q));
    k := k1 + k2;
  }

  /** A tape at the start of a round is framed. */
  lemma ShapeIsFramed(t: seq<char>, i: int, u: string, p: int)
    requires Shape(t, i, u, p)
    ensures Framed(t, p)
  {
    forall k | 1 <= k < p
      ensures t[k] == '0' || t[k] == '1' || t[k] == 'B'
    {
      if i <= k < i + |u| {
        assert t[i + (k - i)] == u[k - i];
      }
    }
  }

  /** Writing a working symbol between the markers keeps the frame. */
  lemma FramedWrite(t: seq<char>, p: int, j: int, x: char)
    requires Framed(t, p) && 1 <= j < p && (x == '0' || x == '1' || x == 'B')
    ensures Framed(t[j := x], p)
  {
  }

  /** The freshly initialised tape of a wrapped binary input is in the shape
      of a first round. */
  lemma InitialShape(w: string)
    requires Binary(w) && |Wrap(w)| < TAPE_LEN
    ensures InitTape(Wrap(w)).Success?
    ensures Shape(InitTape(Wrap(w)).value, 1, w, |w| + 1)
  {
    var t0 := InitTape(Wrap(w)).value;
    var ww := Wrap(w);
    assert t0[..|ww|] == ww;
    forall j | 0 <= j < |w|
      ensures t0[1 + j] == w[j]
    {
      assert t0[1 + j] == t0[..|ww|][1 + j] == ww[1 + j];
      assert ww[1 + j] == ww[1..|ww| - 1][j];
    }
    assert t0[0] == t0[..|ww|][0];
    assert t0[|w| + 1] == t0[..|ww|][|w| + 1];
  }

  /** Marking cell 0 and wiping up to the trailing marker leaves exactly the
      promised answer tape. */
  lemma FinalTape(t: seq<char>, q: int32, p: int)
    requires Framed(t, p) && (q == 5 || q == 6)
    ensures Blanked(t[0 := Mark(q)], 1, p) == Answer(q == 5)
  {
    var r := Blanked(t[0 := Mark(q)], 1, p);
    var a := Answer(q == 5);
    assert forall k :: 0 <= k < TAPE_LEN ==> r[k] == a[k];
  }

  /** From the verdict state (5 or 6) on a framed tape, the machine marks
      cell 0, wipes the rest and halts with the answer tape. */
  lemma Finish(m: Machine, t: seq<char>, h: int, q: int32, p: int) returns (k: nat)
    requires Implements(m)
    requires Framed(t, p) && 0 <= h < p && (q == 5 || q == 6)
    ensures Reach(m, Config(t, h, q), k, Config(Answer(q == 5), p + 1, 8))
  {
    BackToStart(m, t, h, q);
    var t2 := t[0 := Mark(q)];
    Wipe(m, t2, 1, p);
    FinalTape(t, q, p);
    ReachTrans(m, Config(t, h, q), h + 1, Config(t2, 1, 7), p, Config(Answer(q == 5), p + 1, 8));
    k := h + 1 + p;
  }

  /** State 0 steps over the leading `E` into state 1. */
  lemma SkipHeader(m: Machine, t: seq<char>)
    requires Implements(m)
    requires |t| == TAPE_LEN && t[0] == 'E'
    ensures Reach(m, Config(t, 0, 0), 1, Config(t, 1, 1))
  {
    Move(m, Config(t, 0, 0), 'E', RIGHT, 1);
    assert t[0 := 'E'] == t;
  }

  /** From the initial configuration of a wrapped binary input, the machine
      reaches the halting id 8 with the answer tape. */
  lemma DecidesIn(m: Machine, w: string) returns (k: nat)
    requires Implements(m)
    requires Binary(w) && |Wrap(w)| < TAPE_LEN
    ensures InitTape(Wrap(w)).Success?
    ensures Reach(m, Config(InitTape(Wrap(w)).value, 0, 0), k, Config(Answer(InLanguage(w)), |w| + 2, 8))
  {
    InitialShape(w);
    var t0 := InitTape(Wrap(w)).value;
    var p := |w| + 1;
    var c0 := Config(t0, 0, 0);
    SkipHeader(m, t0);
    var k1, t1, h, q := Round(m, t0, 1, w, p);
    ReachTrans(m, c0, 1, Config(t0, 1, 1), k1, Config(t1, h, q));
    var k2 := Finish(m, t1, h, q, p);
    VerdictDecides(w, true);
    ReachTrans(m, c0, 1 + k1, Config(t1, h, q), k2, Config(Answer(InLanguage(w)), p + 1, 8));
    k := 1 + k1 + k2;
  }

  /** Any machine following `Delta` decides { 0^n 1^n | n >= 1 } on wrapped
      binary inputs that fit on the tape, given enough fuel. */
  lemma Decides(m: Machine, w: string) returns (fuel: nat)
    requires Implements(m)
    requires Binary(w) && |Wrap(w)| < TAPE_LEN
    ensures forall f :: fuel <= f ==> Execute(m, Wrap(w), f) == Finished(Answer(InLanguage(w)))
  {
    fuel := DecidesIn(m, w);
    ReachHalts(m, Wrap(w), fuel, Config(Answer(InLanguage(w)), |w| + 2, 8));
  }

  /** The driver's promise, for every binary input whose wrapped form fits on
      the tape: given enough fuel, the loaded machine halts with `1` in cell 0
      if the input is in { 0^n 1^n | n >= 1 } and `0` otherwise, and blanks in
      every other cell. No error is possible on such inputs. */
  lemma TableDecides(w: string) returns (fuel: nat)
    requires Binary(w) && |Wrap(w)| < TAPE_LEN
    ensures forall f :: fuel <= f ==> Execute(LOADED, Wrap(w), f) == Finished(Answer(InLanguage(w)))
  {
    TableIsDelta();
    fuel := Decides(LOADED, w);
  }
}
