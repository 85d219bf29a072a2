/**
 The table-driven Turing machine of turing.c: a transition matrix with three
 columns (for '0', '1' and '#'), a tape that is rewritten in place, and a
 cursor that starts at the second cell.
 */
module TuringMachine {

  /** One cell of the matrix: next state (-1 when undefined), symbol written, move. */
  datatype Entry = Entry(next: int, write: char, move: char)

  /** states is s, finals is sf: the last sf states are final and have no row. */
  datatype Machine = Machine(table: seq<seq<Entry>>, states: nat, finals: nat)

  datatype Config =
    | Running(tape: seq<char>, cursor: int, state: int)
    | Halted(result: seq<char>)
    | Undefined  // the machine answers "Eroare!"
    | OffTape    // the C program would read outside the tape

  const ALPHABET: set<char> := {'0', '1', '#'}

  function Index(c: char): nat {
    if c == '0' then 0 else if c == '1' then 1 else 2
  }

  predicate OnAlphabet(tape: seq<char>) {
    forall i :: 0 <= i < |tape| ==> tape[i] in ALPHABET
  }

  /** What the input file must supply for the C program to stay inside its matrix. */
  predicate WellFormed(m: Machine) {
    && m.finals < m.states
    && |m.table| == m.states - m.finals
    && forall q :: 0 <= q < |m.table| ==>
         |m.table[q]| == 3 &&
         forall i :: 0 <= i < 3 ==>
           -1 <= m.table[q][i].next < m.states &&
           (m.table[q][i].next != -1 ==> m.table[q][i].write in ALPHABET)
  }

  function Moved(cursor: int, move: char): int {
    if move == 'R' then cursor + 1 else if move == 'L' then cursor - 1 else cursor
  }

  predicate IsRow(m: Machine, q: int) {
    0 <= q < m.states - m.finals
  }

  /** One turn of the interpreter's loop. */
  function Step(m: Machine, c: Config): Config
    requires WellFormed(m)
    requires c.Running? ==> IsRow(m, c.state)
  {
    if !c.Running? then c
    else if !(0 <= c.cursor < |c.tape|) then OffTape
    else
      var e := m.table[c.state][Index(c.tape[c.cursor])];
      if e.next == -1 then Undefined
      else
        var tape := c.tape[c.cursor := e.write];
        if e.next >= m.states - m.finals then Halted(tape)
        else Running(tape, Moved(c.cursor, e.move), e.next)
  }

  lemma StepKeepsRow(m: Machine, c: Config)
    requires WellFormed(m)
    requires c.Running? ==> IsRow(m, c.state)
    ensures Step(m, c).Running? ==> IsRow(m, Step(m, c).state)
  {
  }

  function Run(m: Machine, c: Config, k: nat): Config
    requires WellFormed(m)
    requires c.Running? ==> IsRow(m, c.state)
    decreases k
  {
    if k == 0 then c
    else
      StepKeepsRow(m, c);
      Run(m, Step(m, c), k - 1)
  }

  function Start(tape: seq<char>): Config {
    Running(tape, 1, 0)
  }

  lemma {:induction false} RunStops(m: Machine, c: Config, k: nat)
    requires WellFormed(m) && !c.Running?
    ensures Run(m, c, k) == c
    decreases k
  {
    if k == 0 {
    } else {
      RunStops(m, c, k - 1);
    }
  }

  lemma {:induction false} RunKeepsRow(m: Machine, c: Config, k: nat)
    requires WellFormed(m)
    requires c.Running? ==> IsRow(m, c.state)
    ensures Run(m, c, k).Running? ==> IsRow(m, Run(m, c, k).state)
    decreases k
  {
    if k == 0 {
    } else {
      StepKeepsRow(m, c);
      RunKeepsRow(m, Step(m, c), k - 1);
    }
  }

  lemma {:induction false} RunSplit(m: Machine, c: Config, a: nat, b: nat)
    requires WellFormed(m)
    requires c.Running? ==> IsRow(m, c.state)
    ensures Run(m, c, a).Running? ==> IsRow(m, Run(m, c, a).state)
    ensures Run(m, c, a + b) == Run(m, Run(m, c, a), b)
    decreases a
  {
    RunKeepsRow(m, c, a);
    if a == 0 {
    } else {
      StepKeepsRow(m, c);
      RunSplit(m, Step(m, c), a - 1, b);
    }
  }

  // ------------------------------------------------------ how a run can end

  /** Column of the matrix for a symbol: '0', '1', and everything else with '#'. */
  function Column(c: char): nat {
    match c
    case '0' => 0
    case '1' => 1
    case _ => 2
  }

  /** The machine is about to use row `state` for the symbol under the cursor. */
  predicate Reading(m: Machine, c: Config)
    requires WellFormed(m)
  {
    c.Running? && 0 <= c.cursor < |c.tape| && 0 <= c.state < |m.table|
  }

  /** The entry it finds there. */
  function Found(m: Machine, c: Config): Entry
    requires WellFormed(m) && Reading(m, c)
  {
    m.table[c.state][Column(c.tape[c.cursor])]
  }

  /** The entry is -1. */
  predicate Fails(m: Machine, c: Config)
    requires WellFormed(m)
  {
    Reading(m, c) && Found(m, c).next == -1
  }

  /** The entry leads to one of the last `finals` states and its symbol is written: t is left. */
  predicate Stops(m: Machine, c: Config, t: seq<char>)
    requires WellFormed(m)
  {
    Reading(m, c) && Found(m, c).next >= m.states - m.finals && t == c.tape[c.cursor := Found(m, c).write]
  }

  lemma StepEnds(m: Machine, c: Config, t: seq<char>)
    requires WellFormed(m) && c.Running? && IsRow(m, c.state)
    ensures Step(m, c) == Undefined <==> Fails(m, c)
    ensures Step(m, c) == Halted(t) <==> Stops(m, c, t)
  {
  }

  /** A run of k turns meets the error, or stops with t, exactly when one of its turns does. */
  lemma {:induction false} RunEnds(m: Machine, c: Config, k: nat, t: seq<char>)
    requires WellFormed(m) && c.Running? && IsRow(m, c.state)
    ensures Run(m, c, k) == Undefined <==> exists i :: 0 <= i < k && Fails(m, Run(m, c, i))
    ensures Run(m, c, k) == Halted(t) <==> exists i :: 0 <= i < k && Stops(m, Run(m, c, i), t)
    decreases k
  {
    hide Step, Fails, Stops;
    if k == 0 {
    } else {
      RunEnds(m, c, k - 1, t);
      LastTurn(m, c, k, t);
    }
  }

  /** What the last of k turns adds. */
  lemma LastTurn(m: Machine, c: Config, k: nat, t: seq<char>)
    requires WellFormed(m) && c.Running? && IsRow(m, c.state) && k > 0
    ensures var d := Run(m, c, k - 1);
            && (Run(m, c, k) == Undefined <==> d == Undefined || Fails(m, d))
            && (Run(m, c, k) == Halted(t) <==> d == Halted(t) || Stops(m, d, t))
  {
    hide Step, Fails, Stops;
    var d := Run(m, c, k - 1);
    RunSplit(m, c, k - 1, 1);
    RunKeepsRow(m, c, k - 1);
    assert Run(m, d, 1) == Step(m, d) by {
      StepKeepsRow(m, d);
      assert Run(m, Step(m, d), 0) == Step(m, d);
    }
    if d.Running? {
      StepEnds(m, d, t);
    } else {
      EndedStays(m, d, t);
    }
  }

  lemma EndedStays(m: Machine, c: Config, t: seq<char>)
    requires WellFormed(m) && !c.Running?
    ensures Step(m, c) == c && !Fails(m, c) && !Stops(m, c, t)
  {
  }

  /**
   The interpreter. It answers true with the tape rewritten in place, or false
   for the "Eroare!" string. The loop of the program has no bound of its own:
   fuel is any number of turns within which this machine stops on this tape.
   */
  method Turing(m: Machine, banda: array<char>, ghost fuel: nat) returns (ok: bool)
    requires WellFormed(m)
    requires OnAlphabet(banda[..])
    requires Run(m, Start(banda[..]), fuel).Halted? || Run(m, Start(banda[..]), fuel).Undefined?
    modifies banda
    ensures ok ==> Run(m, Start(old(banda[..])), fuel) == Halted(banda[..])
    ensures !ok ==> Run(m, Start(old(banda[..])), fuel) == Undefined
    ensures !ok <==> exists i :: 0 <= i < fuel && Fails(m, Run(m, Start(old(banda[..])), i))
    ensures ok <==> exists i :: 0 <= i < fuel && Stops(m, Run(m, Start(old(banda[..])), i), banda[..])
  {
    hide Fails, Stops;
    var cursor, state := 1, 0;
    ghost var start, left := Start(banda[..]), fuel;
    ghost var answer := Run(m, Start(banda[..]), fuel);
    while true
      invariant OnAlphabet(banda[..])
      invariant IsRow(m, state)
      invariant Run(m, Running(banda[..], cursor, state), left) == answer
      decreases left
    {
      ghost var before := Running(banda[..], cursor, state);
      StepKeepsRow(m, before);
      assert left > 0;
      ghost var after := Step(m, before);
      if !after.Running? {
        RunStops(m, after, left - 1);
      }
      var index := if banda[cursor] == '0' then 0 else if banda[cursor] == '1' then 1 else 2;
      var writeChar, moveDir := m.table[state][index].write, m.table[state][index].move;
      state := m.table[state][index].next;
      if state == -1 {
        RunEnds(m, start, fuel, banda[..]);
        return false;
      }
      banda[cursor] := writeChar;
      assert banda[..] == before.tape[cursor := writeChar];
      for i := m.states - m.finals to m.states
        invariant state < m.states - m.finals || i <= state
      {
        if state == i {
          RunEnds(m, start, fuel, banda[..]);
          return true;
        }
      }
      if moveDir == 'R' {
        cursor := cursor + 1;
      } else if moveDir == 'L' {
        cursor := cursor - 1;
      }
      left := left - 1;
    }
  }
}
