/**
 The word comparator of matrice.in. On the tape #u#v## with u and v words of the
 same length it leaves a single symbol: 0 when u is the larger number, else 1.
 */
module Comparator {
  import opened TuringMachine

  /** The rows of matrice.in, in file order. Halting rows move with H. */
  function Matrix(): seq<seq<Entry>> {
    [
      [Entry(8, '#', 'R'), Entry(1, '#', 'R'), Entry(-1, 'x', 'x')],   // 0  erase the next bit of u
      [Entry(1, '0', 'R'), Entry(1, '1', 'R'), Entry(2, '#', 'R')],    // 1  it was 1: pass the rest of u
      [Entry(3, '0', 'R'), Entry(10, '#', 'R'), Entry(2, '#', 'R')],   // 2  it was 1: meet the bit of v
      [Entry(4, '#', 'R'), Entry(4, '#', 'R'), Entry(15, '#', 'H')],   // 3  decided
      [Entry(4, '#', 'R'), Entry(4, '#', 'R'), Entry(5, '#', 'L')],    // 4  erase the rest of v
      [Entry(6, '0', 'L'), Entry(6, '1', 'L'), Entry(5, '#', 'L')],    // 5  back to the answer
      [Entry(7, '#', 'L'), Entry(7, '#', 'L'), Entry(6, '#', 'L')],    // 6  back to u
      [Entry(7, '#', 'L'), Entry(7, '#', 'L'), Entry(15, '#', 'H')],   // 7  erase the rest of u
      [Entry(8, '0', 'R'), Entry(8, '1', 'R'), Entry(9, '#', 'R')],    // 8  it was 0: pass the rest of u
      [Entry(10, '#', 'R'), Entry(3, '1', 'R'), Entry(9, '#', 'R')],   // 9  it was 0: meet the bit of v
      [Entry(11, '0', 'L'), Entry(11, '1', 'L'), Entry(14, '#', 'L')], // 10 equal bits
      [Entry(11, '0', 'L'), Entry(11, '1', 'L'), Entry(12, '#', 'L')], // 11 more bits: go back
      [Entry(13, '0', 'L'), Entry(13, '1', 'L'), Entry(12, '#', 'L')], // 12 pass the erased part of v
      [Entry(13, '0', 'L'), Entry(13, '1', 'L'), Entry(0, '#', 'R')],  // 13 pass the rest of u
      [Entry(-1, 'x', 'x'), Entry(-1, 'x', 'x'), Entry(16, '1', 'H')]  // 14 the words are equal
    ]
  }

  function Program(): (m: Machine)
    ensures WellFormed(m) && m.states == 17 && m.finals == 2 && m.table == Matrix()
  {
    Machine(Matrix(), 17, 2)
  }

  predicate IsWord(w: string) {
    forall i :: 0 <= i < |w| ==> w[i] == '0' || w[i] == '1'
  }

  /** The input tape of the exercise. */
  function InputTape(u: string, v: string): seq<char> {
    ['#'] + u + ['#'] + v + ['#', '#']
  }

  // -------------------------------------------------- pictures of the tape

  /** Still written: u from a up to a', and v from b up to b'. */
  function Picture(u: string, v: string, a: nat, a': nat, b: nat, b': nat): (t: seq<char>)
    requires |u| == |v|
    ensures |t| == 2 * |u| + 4
  {
    var n := |u|;
    seq(2 * n + 4, i requires 0 <= i < 2 * n + 4 =>
      if 1 <= i <= n && a <= i - 1 < a' then u[i - 1]
      else if n + 2 <= i < 2 * n + 2 && b <= i - n - 2 < b' then v[i - n - 2]
      else '#')
  }

  lemma PictureOfInput(u: string, v: string)
    requires |u| == |v|
    ensures InputTape(u, v) == Picture(u, v, 0, |u|, 0, |u|)
  {
  }

  // ------------------------------------------------------------- one move

  /** What row q does on symbol c. */
  function At(q: int, c: char): Entry
    requires 0 <= q < 15
  {
    Matrix()[q][Index(c)]
  }

  lemma OneMove(t: seq<char>, p: int, q: int)
    requires 0 <= q < 15 && 0 <= p < |t| && At(q, t[p]).next != -1
    ensures var e := At(q, t[p]);
            Run(Program(), Running(t, p, q), 1) ==
              if e.next >= 15 then Halted(t[p := e.write]) else Running(t[p := e.write], Moved(p, e.move), e.next)
  {
    hide Matrix, Moved, Index;
    var m, c := Program(), Running(t, p, q);
    StepKeepsRow(m, c);
    assert Run(m, Step(m, c), 0) == Step(m, c);
  }

  lemma Then(c: Config, a: nat, d: Config, b: nat, e: Config)
    requires c.Running? ==> 0 <= c.state < 15
    requires d.Running? ==> 0 <= d.state < 15
    requires Run(Program(), c, a) == d && Run(Program(), d, b) == e
    ensures Run(Program(), c, a + b) == e
  {
    RunSplit(Program(), c, a, b);
  }

  /** Moving right over l cells without leaving state q, turning t into t'. */
  lemma {:induction false} SweepRight(t: seq<char>, t': seq<char>, p: nat, q: int, l: nat)
    requires 0 <= q < 15 && p + l <= |t| == |t'|
    requires forall i :: p <= i < p + l ==> At(q, t[i]) == Entry(q, t'[i], 'R')
    requires forall i :: 0 <= i < |t| && !(p <= i < p + l) ==> t'[i] == t[i]
    ensures Run(Program(), Running(t, p, q), l) == Running(t', p + l, q)
    decreases l
  {
    hide Matrix, Index;
    if l == 0 {
      assert t == t';
    } else {
      var t1 := t[p := t'[p]];
      OneMove(t, p, q);
      SweepRight(t1, t', p + 1, q, l - 1);
      Then(Running(t, p, q), 1, Running(t1, p + 1, q), l - 1, Running(t', p + l, q));
    }
  }

  /** Moving left over the l cells that end at p. */
  lemma {:induction false} SweepLeft(t: seq<char>, t': seq<char>, p: int, q: int, l: nat)
    requires 0 <= q < 15 && l <= p + 1 <= |t| == |t'|
    requires forall i :: p - l < i <= p ==> At(q, t[i]) == Entry(q, t'[i], 'L')
    requires forall i :: 0 <= i < |t| && !(p - l < i <= p) ==> t'[i] == t[i]
    ensures Run(Program(), Running(t, p, q), l) == Running(t', p - l, q)
    decreases l
  {
    hide Matrix, Index;
    if l == 0 {
      assert t == t';
    } else {
      var t1 := t[p := t'[p]];
      OneMove(t, p, q);
      SweepLeft(t1, t', p - 1, q, l - 1);
      Then(Running(t, p, q), 1, Running(t1, p - 1, q), l - 1, Running(t', p - l, q));
    }
  }

  // ------------------------------------------------ the phases of one round

  /** Row q leaves c alone and stays in q, moving d. */
  predicate Keeps(q: int, c: char, d: char)
    requires 0 <= q < 15
  {
    At(q, c) == Entry(q, c, d)
  }

  /** Row q erases c and stays in q, moving d. */
  predicate Erases(q: int, c: char, d: char)
    requires 0 <= q < 15
  {
    At(q, c) == Entry(q, '#', d)
  }

  lemma SelfLoops()
    ensures Keeps(1, '0', 'R') && Keeps(1, '1', 'R') && Keeps(8, '0', 'R') && Keeps(8, '1', 'R')
    ensures Keeps(2, '#', 'R') && Keeps(9, '#', 'R')
    ensures Keeps(12, '#', 'L') && Keeps(13, '0', 'L') && Keeps(13, '1', 'L')
    ensures Keeps(5, '#', 'L') && Keeps(6, '#', 'L')
    ensures Erases(4, '0', 'R') && Erases(4, '1', 'R') && Erases(7, '0', 'L') && Erases(7, '1', 'L')
  {
  }

  /** The state that carries bit x to v: pass u, then look for the bit of v. */
  function Carry(x: char): int { if x == '1' then 1 else 8 }

  function Meet(x: char): int { if x == '1' then 2 else 9 }

  lemma Turns(x: char, y: char)
    requires x == '0' || x == '1'
    requires y == '0' || y == '1'
    ensures At(0, x) == Entry(Carry(x), '#', 'R')
    ensures At(Carry(x), '#') == Entry(Meet(x), '#', 'R')
    ensures At(Meet(x), y) == if x == y then Entry(10, '#', 'R') else Entry(3, y, 'R')
    ensures At(10, y) == Entry(11, y, 'L') && At(10, '#') == Entry(14, '#', 'L')
    ensures At(11, '#') == Entry(12, '#', 'L') && At(12, x) == Entry(13, x, 'L')
    ensures At(13, '#') == Entry(0, '#', 'R') && At(14, '#') == Entry(16, '1', 'H')
    ensures At(3, y) == Entry(4, '#', 'R') && At(3, '#') == Entry(15, '#', 'H')
    ensures At(4, '#') == Entry(5, '#', 'L') && At(5, y) == Entry(6, y, 'L')
    ensures At(6, x) == Entry(7, '#', 'L') && At(7, '#') == Entry(15, '#', 'H')
  {
  }

  /** Before round k the first k bits of both words are gone. */
  function Round(u: string, v: string, k: nat): Config
    requires |u| == |v|
  {
    Running(Picture(u, v, k, |u|, k, |u|), k + 1, 0)
  }

  /** After the two k-th bits met. */
  function Met(u: string, v: string, k: nat): Config
    requires |u| == |v| && k < |u|
  {
    if u[k] == v[k] then Running(Picture(u, v, k + 1, |u|, k + 1, |u|), |u| + 3 + k, 10)
    else Running(Picture(u, v, k + 1, |u|, k, |u|), |u| + 3 + k, 3)
  }

  lemma PassU(u: string, v: string, k: nat)
    requires |u| == |v| && k < |u| && IsWord(u) && IsWord(v)
    ensures Run(Program(), Round(u, v, k), |u| - k) ==
            Running(Picture(u, v, k + 1, |u|, k, |u|), |u| + 1, Carry(u[k]))
  {
    hide Run, Step, Program, At;
    var n, x := |u|, u[k];
    var t0, t1 := Picture(u, v, k, n, k, n), Picture(u, v, k + 1, n, k, n);
    Turns(x, x);
    SelfLoops();
    OneMove(t0, k + 1, 0);
    assert t0[k + 1 := '#'] == t1;
    SweepRight(t1, t1, k + 2, Carry(x), n - k - 1);
    Then(Round(u, v, k), 1, Running(t1, k + 2, Carry(x)), n - k - 1, Running(t1, n + 1, Carry(x)));
  }

  lemma MeetV(u: string, v: string, k: nat)
    requires |u| == |v| && k < |u| && IsWord(u) && IsWord(v)
    ensures Run(Program(), Running(Picture(u, v, k + 1, |u|, k, |u|), |u| + 1, Carry(u[k])), k + 2) == Met(u, v, k)
  {
    hide Run, Step, Program, At;
    var n, x, y := |u|, u[k], v[k];
    var t1 := Picture(u, v, k + 1, n, k, n);
    var c := Running(t1, n + 1, Carry(x));
    Turns(x, y);
    SelfLoops();
    OneMove(t1, n + 1, Carry(x));
    assert t1[n + 1 := '#'] == t1;
    SweepRight(t1, t1, n + 2, Meet(x), k);
    Then(c, 1, Running(t1, n + 2, Meet(x)), k, Running(t1, n + 2 + k, Meet(x)));
    OneMove(t1, n + 2 + k, Meet(x));
    assert t1[n + 2 + k := y] == t1;
    assert t1[n + 2 + k := '#'] == Picture(u, v, k + 1, n, k + 1, n);
    Then(c, k + 1, Running(t1, n + 2 + k, Meet(x)), 1, Met(u, v, k));
  }

  lemma Outward(u: string, v: string, k: nat)
    requires |u| == |v| && k < |u| && IsWord(u) && IsWord(v)
    ensures Run(Program(), Round(u, v, k), |u| + 2) == Met(u, v, k)
  {
    hide Run, Step, Program, At, Picture;
    PassU(u, v, k);
    MeetV(u, v, k);
    var carrying := Running(Picture(u, v, k + 1, |u|, k, |u|), |u| + 1, Carry(u[k]));
    Then(Round(u, v, k), |u| - k, carrying, k + 2, Met(u, v, k));
  }

  /** Equal bits with more to come: walk back over v, then over u. */
  lemma BackOverV(u: string, v: string, k: nat)
    requires |u| == |v| && k + 1 < |u| && IsWord(u) && IsWord(v)
    ensures var t := Picture(u, v, k + 1, |u|, k + 1, |u|);
            Run(Program(), Running(t, |u| + 3 + k, 10), k + 3) == Running(t, |u|, 12)
  {
    hide Run, Step, Program, At;
    var n, x, y := |u|, u[k + 1], v[k + 1];
    var t := Picture(u, v, k + 1, n, k + 1, n);
    var c := Running(t, n + 3 + k, 10);
    Turns(x, y);
    SelfLoops();
    OneMove(t, n + 3 + k, 10);
    assert t[n + 3 + k := y] == t;
    OneMove(t, n + 2 + k, 11);
    assert t[n + 2 + k := '#'] == t;
    Then(c, 1, Running(t, n + 2 + k, 11), 1, Running(t, n + 1 + k, 12));
    SweepLeft(t, t, n + 1 + k, 12, k + 1);
    Then(c, 2, Running(t, n + 1 + k, 12), k + 1, Running(t, n, 12));
  }

  lemma BackOverU(u: string, v: string, k: nat)
    requires |u| == |v| && k + 1 < |u| && IsWord(u) && IsWord(v)
    ensures Run(Program(), Running(Picture(u, v, k + 1, |u|, k + 1, |u|), |u|, 12), |u| - k) == Round(u, v, k + 1)
  {
    hide Run, Step, Program, At;
    var n, x := |u|, u[|u| - 1];
    var t := Picture(u, v, k + 1, n, k + 1, n);
    var c := Running(t, n, 12);
    Turns(x, x);
    SelfLoops();
    OneMove(t, n, 12);
    assert t[n := x] == t;
    SweepLeft(t, t, n - 1, 13, n - k - 2);
    Then(c, 1, Running(t, n - 1, 13), n - k - 2, Running(t, k + 1, 13));
    OneMove(t, k + 1, 13);
    assert t[k + 1 := '#'] == t;
    Then(c, n - k - 1, Running(t, k + 1, 13), 1, Round(u, v, k + 1));
  }

  /** A whole round on equal bits takes 2n + 5 moves and leaves the next round. */
  lemma EqualRound(u: string, v: string, k: nat)
    requires |u| == |v| && k + 1 < |u| && IsWord(u) && IsWord(v) && u[k] == v[k]
    ensures Run(Program(), Round(u, v, k), 2 * |u| + 5) == Round(u, v, k + 1)
  {
    hide Run, Step, Program, At, Picture;
    var n := |u|;
    var t := Picture(u, v, k + 1, n, k + 1, n);
    Outward(u, v, k);
    BackOverV(u, v, k);
    BackOverU(u, v, k);
    Then(Round(u, v, k), n + 2, Met(u, v, k), k + 3, Running(t, n, 12));
    Then(Round(u, v, k), n + k + 5, Running(t, n, 12), n - k, Round(u, v, k + 1));
  }

  /** All blank but for one symbol. */
  function OneSymbol(n: nat, p: nat, c: char): seq<char> {
    seq(2 * n + 4, i requires 0 <= i < 2 * n + 4 => if i == p then c else '#')
  }

  // The last bits: one move or two, and the machine stops.

  lemma EqualEnd(u: string, v: string)
    requires |u| == |v| > 0 && IsWord(u) && IsWord(v) && u[|u| - 1] == v[|u| - 1]
    ensures Run(Program(), Met(u, v, |u| - 1), 2) == Halted(OneSymbol(|u|, 2 * |u| + 1, '1'))
  {
    hide Run, Step, Program, At;
    var n := |u|;
    var t := Picture(u, v, n, n, n, n);
    Turns('0', '0');
    OneMove(t, 2 * n + 2, 10);
    assert t[2 * n + 2 := '#'] == t;
    OneMove(t, 2 * n + 1, 14);
    assert t[2 * n + 1 := '1'] == OneSymbol(n, 2 * n + 1, '1');
    Then(Met(u, v, n - 1), 1, Running(t, 2 * n + 1, 14), 1, Halted(OneSymbol(n, 2 * n + 1, '1')));
  }

  lemma LastBitEnd(u: string, v: string)
    requires |u| == |v| > 0 && IsWord(u) && IsWord(v) && u[|u| - 1] != v[|u| - 1]
    ensures Run(Program(), Met(u, v, |u| - 1), 1) == Halted(OneSymbol(|u|, 2 * |u| + 1, v[|u| - 1]))
  {
    hide Run, Step, Program, At;
    var n := |u|;
    var t := Picture(u, v, n, n, n - 1, n);
    Turns('0', '0');
    OneMove(t, 2 * n + 2, 3);
    assert t[2 * n + 2 := '#'] == OneSymbol(n, 2 * n + 1, v[n - 1]);
  }

  // Different bits earlier: erase the rest of v, come back over the answer, erase the rest of u.

  /** Decided with bits left: erase the rest of v and stand on its last cell. */
  lemma EraseV(u: string, v: string, k: nat)
    requires |u| == |v| && k + 1 < |u| && IsWord(u) && IsWord(v) && u[k] != v[k]
    ensures Run(Program(), Met(u, v, k), |u| - k) ==
            Running(Picture(u, v, k + 1, |u|, k, k + 1), 2 * |u| + 1, 5)
  {
    hide *;
    var n, y := |u|, v[k + 1];
    var c := Met(u, v, k);
    var t0 := Picture(u, v, k + 1, n, k, n);
    var t1 := t0[n + 3 + k := '#'];
    var t2 := Picture(u, v, k + 1, n, k, k + 1);
    EraseVPictures(u, v, k);
    Turns(y, y);
    OneMove(t0, n + 3 + k, 3);
    SweepRight(t1, t2, n + 4 + k, 4, n - k - 2);
    Then(c, 1, Running(t1, n + 4 + k, 4), n - k - 2, Running(t2, 2 * n + 2, 4));
    OneMove(t2, 2 * n + 2, 4);
    Then(c, n - k - 1, Running(t2, 2 * n + 2, 4), 1, Running(t2, 2 * n + 1, 5));
  }

  lemma EraseVPictures(u: string, v: string, k: nat)
    requires |u| == |v| && k + 1 < |u| && IsWord(u) && IsWord(v) && u[k] != v[k]
    ensures var n := |u|;
            var t0, t2 := Picture(u, v, k + 1, n, k, n), Picture(u, v, k + 1, n, k, k + 1);
            var t1 := t0[n + 3 + k := '#'];
            && Met(u, v, k) == Running(t0, n + 3 + k, 3)
            && (v[k + 1] == '0' || v[k + 1] == '1')
            && t0[n + 3 + k] == v[k + 1] && t2[2 * n + 2] == '#' && t2[2 * n + 2 := '#'] == t2
            && (forall i :: n + 4 + k <= i < 2 * n + 2 ==> At(4, t1[i]) == Entry(4, t2[i], 'R'))
            && (forall i :: 0 <= i < |t1| && !(n + 4 + k <= i < 2 * n + 2) ==> t2[i] == t1[i])
            && Moved(n + 3 + k, 'R') == n + 4 + k && Moved(2 * n + 2, 'L') == 2 * n + 1
  {
    hide At;
    SelfLoops();
  }

  /** Walk left over the answer to the last cell of u. */
  lemma BackOverAnswer(u: string, v: string, k: nat)
    requires |u| == |v| && k + 1 < |u| && IsWord(u) && IsWord(v)
    ensures var t := Picture(u, v, k + 1, |u|, k, k + 1);
            Run(Program(), Running(t, 2 * |u| + 1, 5), |u| + 1) == Running(t, |u|, 6)
  {
    hide Run, Step, Program, At;
    var n, y := |u|, v[k];
    var t := Picture(u, v, k + 1, n, k, k + 1);
    var c := Running(t, 2 * n + 1, 5);
    Turns(y, y);
    SelfLoops();
    SweepLeft(t, t, 2 * n + 1, 5, n - k - 1);
    OneMove(t, n + 2 + k, 5);
    assert t[n + 2 + k := y] == t;
    Then(c, n - k - 1, Running(t, n + 2 + k, 5), 1, Running(t, n + 1 + k, 6));
    SweepLeft(t, t, n + 1 + k, 6, k + 1);
    Then(c, n - k, Running(t, n + 1 + k, 6), k + 1, Running(t, n, 6));
  }

  lemma EraseU(u: string, v: string, k: nat)
    requires |u| == |v| && k + 1 < |u| && IsWord(u) && IsWord(v)
    ensures Run(Program(), Running(Picture(u, v, k + 1, |u|, k, k + 1), |u|, 6), |u| - k) ==
            Halted(OneSymbol(|u|, |u| + 2 + k, v[k]))
  {
    hide *;
    var n, x := |u|, u[|u| - 1];
    var t0 := Picture(u, v, k + 1, n, k, k + 1);
    var t1 := t0[n := '#'];
    var t2 := OneSymbol(n, n + 2 + k, v[k]);
    var c := Running(t0, n, 6);
    EraseUPictures(u, v, k);
    Turns(x, x);
    OneMove(t0, n, 6);
    SweepLeft(t1, t2, n - 1, 7, n - k - 2);
    Then(c, 1, Running(t1, n - 1, 7), n - k - 2, Running(t2, k + 1, 7));
    OneMove(t2, k + 1, 7);
    Then(c, n - k - 1, Running(t2, k + 1, 7), 1, Halted(t2));
  }

  lemma EraseUPictures(u: string, v: string, k: nat)
    requires |u| == |v| && k + 1 < |u| && IsWord(u) && IsWord(v)
    ensures var n := |u|;
            var t0, t2 := Picture(u, v, k + 1, n, k, k + 1), OneSymbol(n, n + 2 + k, v[k]);
            var t1 := t0[n := '#'];
            && (u[n - 1] == '0' || u[n - 1] == '1') && |t2| == |t1|
            && t0[n] == u[n - 1] && t2[k + 1] == '#' && t2[k + 1 := '#'] == t2
            && (forall i :: k + 1 < i <= n - 1 ==> At(7, t1[i]) == Entry(7, t2[i], 'L'))
            && (forall i :: 0 <= i < |t1| && !(k + 1 < i <= n - 1) ==> t2[i] == t1[i])
            && Moved(n, 'L') == n - 1
  {
    hide At;
    SelfLoops();
  }

  lemma DecidedEnd(u: string, v: string, k: nat)
    requires |u| == |v| && k + 1 < |u| && IsWord(u) && IsWord(v) && u[k] != v[k]
    ensures Run(Program(), Met(u, v, k), 3 * |u| + 1 - 2 * k) == Halted(OneSymbol(|u|, |u| + 2 + k, v[k]))
  {
    hide Run, Step, Program, At, Picture, OneSymbol;
    var n := |u|;
    var t := Picture(u, v, k + 1, n, k, k + 1);
    EraseV(u, v, k);
    BackOverAnswer(u, v, k);
    EraseU(u, v, k);
    Then(Met(u, v, k), n - k, Running(t, 2 * n + 1, 5), n + 1, Running(t, n, 6));
    Then(Met(u, v, k), 2 * n + 1 - k, Running(t, n, 6), n - k, Halted(OneSymbol(n, n + 2 + k, v[k])));
  }

  // ---------------------------------------------------- the machine compares

  function Bit(c: char): nat { if c == '1' then 1 else 0 }

  function Pow2(n: nat): (r: nat)
    ensures r >= 1
  {
    if n == 0 then 1 else 2 * Pow2(n - 1)
  }

  /** The number a word denotes, most significant bit first. */
  function Value(w: string): nat {
    if w == [] then 0 else Bit(w[0]) * Pow2(|w| - 1) + Value(w[1..])
  }

  lemma {:induction false} ValueBound(w: string)
    ensures Value(w) < Pow2(|w|)
  {
    if w == [] {
    } else {
      ValueBound(w[1..]);
    }
  }

  /** Length of the longest common prefix. */
  function Agree(u: string, v: string): (k: nat)
    requires |u| == |v|
    ensures k <= |u|
    ensures forall i :: 0 <= i < k ==> u[i] == v[i]
    ensures k < |u| ==> u[k] != v[k]
  {
    if u == [] || u[0] != v[0] then 0 else 1 + Agree(u[1..], v[1..])
  }

  lemma {:induction false} FirstDifferenceDecides(u: string, v: string)
    requires |u| == |v| && IsWord(u) && IsWord(v)
    ensures Value(u) > Value(v) <==> Agree(u, v) < |u| && u[Agree(u, v)] == '1'
  {
    if u == [] {
    } else {
      if u[0] != v[0] {
        ValueBound(u[1..]);
        ValueBound(v[1..]);
      } else {
        FirstDifferenceDecides(u[1..], v[1..]);
      }
    }
  }

  lemma {:induction false} Rounds(u: string, v: string, k: nat)
    requires |u| == |v| && k < |u| && IsWord(u) && IsWord(v)
    requires forall i :: 0 <= i < k ==> u[i] == v[i]
    ensures Run(Program(), Start(InputTape(u, v)), k * (2 * |u| + 5)) == Round(u, v, k)
    decreases k
  {
    hide Run, Step, Program, Picture;
    if k == 0 {
      PictureOfInput(u, v);
      NoMoves(Start(InputTape(u, v)));
    } else {
      Rounds(u, v, k - 1);
      EqualRound(u, v, k - 1);
      Then(Start(InputTape(u, v)), (k - 1) * (2 * |u| + 5), Round(u, v, k - 1), 2 * |u| + 5, Round(u, v, k));
      assert (k - 1) * (2 * |u| + 5) + (2 * |u| + 5) == k * (2 * |u| + 5);
    }
  }

  lemma NoMoves(c: Config)
    requires c.Running? ==> 0 <= c.state < 15
    ensures Run(Program(), c, 0) == c
  {
  }

  /** How many moves the whole comparison takes. */
  function Moves(u: string, v: string): (k: nat)
    requires |u| == |v| > 0
  {
    var n, a := |u|, Agree(u, v);
    if a == n then (n - 1) * (2 * n + 5) + n + 4
    else if a == n - 1 then a * (2 * n + 5) + n + 3
    else a * (2 * n + 5) + 4 * n + 3 - 2 * a
  }

  lemma MovesAreQuadratic(u: string, v: string)
    requires |u| == |v| > 0
    ensures Moves(u, v) <= 2 * |u| * |u| + 5 * |u|
  {
    var n, a := |u|, Agree(u, v);
    RoundsAreQuadratic(n, if a < n then a else n - 1);
  }

  lemma RoundsAreQuadratic(n: nat, k: nat)
    requires k < n
    ensures k * (2 * n + 5) <= 2 * n * n + n - 3 + 2 * k
  {
    assert k * (2 * n + 5) == k * (2 * n + 3) + 2 * k;
    LaterRounds(k, n - 1, 2 * n + 3);
    assert (n - 1) * (2 * n + 3) == 2 * n * n + n - 3;
  }

  lemma LaterRounds(j: nat, k: nat, m: nat)
    requires j <= k
    ensures j * m <= k * m
  {
    assert (k - j) * m >= 0;
  }

  /** Where the answer is left: on the deciding bit of v, or on its last bit. */
  function AnswerCell(u: string, v: string): (p: nat)
    requires |u| == |v| > 0
    ensures |u| + 2 <= p <= 2 * |u| + 1
  {
    |u| + 2 + if Agree(u, v) < |u| then Agree(u, v) else |u| - 1
  }

  function Answer(u: string, v: string): char {
    if Value(u) > Value(v) then '0' else '1'
  }

  /** Total correctness on every pair of equal-length non-empty words. */
  lemma Compares(u: string, v: string)
    requires |u| == |v| > 0 && IsWord(u) && IsWord(v)
    ensures Run(Program(), Start(InputTape(u, v)), Moves(u, v)) ==
            Halted(OneSymbol(|u|, AnswerCell(u, v), Answer(u, v)))
  {
    hide *;
    var n, a := |u|, Agree(u, v);
    var k := if a < n then a else n - 1;
    var c := Start(InputTape(u, v));
    var before := k * (2 * n + 5) + n + 2;
    Decision(u, v);
    UpToMeeting(u, v, k);
    MovesAfterMeeting(u, v);
    var end := Halted(OneSymbol(n, AnswerCell(u, v), Answer(u, v)));
    if a == n {
      EqualEnd(u, v);
      Then(c, before, Met(u, v, k), 2, end);
    } else if a == n - 1 {
      LastBitEnd(u, v);
      Then(c, before, Met(u, v, k), 1, end);
    } else {
      DecidedEnd(u, v, k);
      Then(c, before, Met(u, v, k), 3 * n + 1 - 2 * k, end);
    }
  }

  lemma UpToMeeting(u: string, v: string, k: nat)
    requires |u| == |v| && k < |u| && IsWord(u) && IsWord(v)
    requires forall i :: 0 <= i < k ==> u[i] == v[i]
    ensures Start(InputTape(u, v)).Running? && Start(InputTape(u, v)).state == 0
    ensures Met(u, v, k).Running? && 0 <= Met(u, v, k).state < 15
    ensures Run(Program(), Start(InputTape(u, v)), k * (2 * |u| + 5) + |u| + 2) == Met(u, v, k)
  {
    hide Run, Step, Program, Picture, InputTape;
    Rounds(u, v, k);
    Outward(u, v, k);
    Then(Start(InputTape(u, v)), k * (2 * |u| + 5), Round(u, v, k), |u| + 2, Met(u, v, k));
  }

  lemma MovesAfterMeeting(u: string, v: string)
    requires |u| == |v| > 0
    ensures var n, a := |u|, Agree(u, v);
            var k := if a < n then a else n - 1;
            Moves(u, v) == k * (2 * n + 5) + n + 2 + if a == n then 2 else if a == n - 1 then 1 else 3 * n + 1 - 2 * k
  {
  }

  /** Where the words first differ decides the answer and the cell it is left on. */
  lemma Decision(u: string, v: string)
    requires |u| == |v| > 0 && IsWord(u) && IsWord(v)
    ensures var n, a := |u|, Agree(u, v);
            && a <= n
            && (a == n ==> u[n - 1] == v[n - 1])
            && (a < n ==> u[a] != v[a])
            && (forall i :: 0 <= i < a ==> u[i] == v[i])
            && AnswerCell(u, v) == (if a < n - 1 then n + 2 + a else 2 * n + 1)
            && Answer(u, v) == if a < n then v[a] else '1'
  {
    hide Value, Agree;
    FirstDifferenceDecides(u, v);
  }

  /** The interpreter on the comparator's input: it never answers "Eroare!". */
  method CompareWords(u: string, v: string, banda: array<char>) returns (ok: bool)
    requires |u| == |v| > 0 && IsWord(u) && IsWord(v)
    requires banda[..] == InputTape(u, v)
    modifies banda
    ensures ok
    ensures banda[..] == OneSymbol(|u|, AnswerCell(u, v), Answer(u, v))
  {
    Compares(u, v);
    ok := Turing(Program(), banda, Moves(u, v));
  }

  /** The entries the comparison of equal-length words never uses: the only undefined ones are among them. */
  lemma OtherTurns(q: int, c: char)
    requires 0 <= q < 15 && (c == '0' || c == '1' || c == '#')
    ensures At(q, c).next == -1 <==> (q == 0 && c == '#') || (q == 14 && c != '#')
    ensures q == 11 && c != '#' ==> At(q, c) == Entry(11, c, 'L')
  {
  }

  /** On two empty words the machine meets an undefined entry at once. */
  lemma EmptyWordsFail()
    ensures InputTape("", "") == "####"
    ensures Fails(Program(), Start("####"))
    ensures Run(Program(), Start("####"), 1) == Undefined
  {
    assert Run(Program(), Step(Program(), Start("####")), 0) == Step(Program(), Start("####"));
  }

  /** There the interpreter answers "Eroare!". */
  method CompareEmptyWords(banda: array<char>) returns (ok: bool)
    requires banda[..] == "####"
    modifies banda
    ensures !ok
  {
    hide *;
    EmptyWordsFail();
    ProgramIsWellFormed();
    OnlyBlanks(banda[..]);
    ok := Turing(Program(), banda, 1);
  }

  lemma ProgramIsWellFormed()
    ensures WellFormed(Program())
  {
  }

  lemma OnlyBlanks(tape: seq<char>)
    requires tape == "####"
    ensures OnAlphabet(tape)
  {
  }
}
