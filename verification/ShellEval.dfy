/**
 parse_command of cmd.c on the parsed tree, and why the tree means the same as
 reading the line once from left to right.
 */
module ShellEval {
  import opened Wrappers
  import opened ShellGrammar

  /**
   What the processes do: the status of a unit (a simple command, a pipeline or a
   parallel group, each of which runs in its own processes) after the given units
   have run.
   */
  type World = (seq<Tree>, Tree) -> int

  /** The units run so far, in order, and the status (None where the C variable is never assigned). */
  datatype Outcome = Outcome(ran: seq<Tree>, status: Option<int>)

  predicate IsUnit(t: Tree) {
    t.Leaf? || t.op == PIPE || t.op == PARALLEL
  }

  function RunUnit(w: World, ran: seq<Tree>, t: Tree): Outcome {
    Outcome(ran + [t], Some(w(ran, t)))
  }

  /** parse_command. The status of `a ; b` is never assigned. */
  function Eval(w: World, ran: seq<Tree>, t: Tree): Outcome
    decreases t
  {
    if IsUnit(t) then RunUnit(w, ran, t)
    else
      var o := Eval(w, ran, t.cmd1);
      if t.op == SEQUENTIAL then Outcome(Eval(w, o.ran, t.cmd2).ran, None)
      else if t.op == CONDITIONAL_NZERO then (if o.status != Some(0) then Eval(w, o.ran, t.cmd2) else o)
      else (if o.status == Some(0) then Eval(w, o.ran, t.cmd2) else o)
  }

  // -------------------------------------------------- one left-to-right scan

  /** A line as units joined by `;`, `&&` and `||`. */
  datatype Joined = Joined(op: Operator, unit: Tree)

  /** One pass over the line, carrying the last status (section 2.9.3 of the POSIX.1-2017 Shell Command Language). */
  function Scan(w: World, ran: seq<Tree>, status: int, rest: seq<Joined>): (o: (seq<Tree>, int))
    decreases |rest|
  {
    if rest == [] then (ran, status)
    else
      var u := rest[0].unit;
      var runs := match rest[0].op
                  case CONDITIONAL_ZERO => status == 0
                  case CONDITIONAL_NZERO => status != 0
                  case _ => true;
      if runs then Scan(w, ran + [u], w(ran, u), rest[1..]) else Scan(w, ran, status, rest[1..])
  }

  /** Collect pipelines: the unit that starts with `unit`, and the rest of the line. */
  function Units(unit: Tree, rest: seq<Item>): (r: (Tree, seq<Joined>))
    decreases |rest|
  {
    if rest == [] then (unit, [])
    else if rest[0].op == PIPE then Units(Node(PIPE, unit, Leaf(rest[0].cmd)), rest[1..])
    else
      var r := Units(Leaf(rest[0].cmd), rest[1..]);
      (unit, [Joined(rest[0].op, r.0)] + r.1)
  }

  /** Run the line from left to right. */
  function ScanLine(w: World, ran: seq<Tree>, first: Simple, rest: seq<Item>): (seq<Tree>, int) {
    var (u, more) := Units(Leaf(first), rest);
    Scan(w, ran + [u], w(ran, u), more)
  }

  predicate NoParallel(rest: seq<Item>) {
    forall i :: 0 <= i < |rest| ==> rest[i].op != PARALLEL
  }

  predicate NoSequential(rest: seq<Item>) {
    forall i :: 0 <= i < |rest| ==> rest[i].op != SEQUENTIAL
  }

  // ------------------------------------------------------------ compositions

  lemma {:induction false} ScanAppend(w: World, ran: seq<Tree>, status: int, a: seq<Joined>, b: seq<Joined>)
    ensures var (r, s) := Scan(w, ran, status, a); Scan(w, ran, status, a + b) == Scan(w, r, s, b)
    decreases |a|
  {
    if a == [] {
      assert a + b == b;
    } else {
      assert (a + b)[1..] == a[1..] + b;
      var u := a[0].unit;
      ScanAppend(w, ran + [u], w(ran, u), a[1..], b);
      ScanAppend(w, ran, status, a[1..], b);
    }
  }

  /** A weaker operator ends the last unit before it. */
  lemma {:induction false} UnitsSplit(unit: Tree, a: seq<Item>, op: Operator, cmd: Simple, b: seq<Item>)
    requires op != PIPE
    ensures var (u, left) := Units(unit, a);
            var (v, right) := Units(Leaf(cmd), b);
            Units(unit, a + [Item(op, cmd)] + b) == (u, left + [Joined(op, v)] + right)
    decreases |a|
  {
    var all := a + [Item(op, cmd)] + b;
    if a == [] {
      assert all[1..] == b;
      assert [] + [Joined(op, Units(Leaf(cmd), b).0)] + Units(Leaf(cmd), b).1
          == [Joined(op, Units(Leaf(cmd), b).0)] + Units(Leaf(cmd), b).1;
    } else {
      assert all[1..] == a[1..] + [Item(op, cmd)] + b;
      if a[0].op == PIPE {
        UnitsSplit(Node(PIPE, unit, Leaf(a[0].cmd)), a[1..], op, cmd, b);
      } else {
        UnitsSplit(Leaf(a[0].cmd), a[1..], op, cmd, b);
        var (u, left) := Units(Leaf(a[0].cmd), a[1..]);
        var (v, right) := Units(Leaf(cmd), b);
        var j := [Joined(a[0].op, u)];
        assert j + (left + [Joined(op, v)] + right) == j + left + [Joined(op, v)] + right;
      }
    }
  }

  /** A pipeline is one unit: the tree itself. */
  lemma {:induction false} PipelineIsOneUnit(t: Tree)
    requires Grouped(t) && (t.Leaf? || t.op == PIPE)
    ensures Units(Leaf(First(t)), Rest(t)) == (t, [])
    decreases t
  {
    if t.Leaf? {
    } else {
      assert t.cmd2.Leaf?;
      assert Rest(t) == Rest(t.cmd1) + [Item(PIPE, First(t.cmd2))];
      PipelineIsOneUnit(t.cmd1);
      OperatorsBelow(t.cmd1, 3);
      UnitsSnocPipe(Leaf(First(t)), Rest(t.cmd1), First(t.cmd2));
    }
  }

  lemma {:induction false} UnitsSnocPipe(unit: Tree, a: seq<Item>, cmd: Simple)
    requires AllAtLeast(a, 3)
    ensures Units(unit, a).1 == []
    ensures Units(unit, a + [Item(PIPE, cmd)]) == (Node(PIPE, Units(unit, a).0, Leaf(cmd)), [])
    decreases |a|
  {
    if a == [] {
      assert (a + [Item(PIPE, cmd)])[1..] == [];
    } else {
      assert a[0].op == PIPE;
      assert (a + [Item(PIPE, cmd)])[1..] == a[1..] + [Item(PIPE, cmd)];
      UnitsSnocPipe(Node(PIPE, unit, Leaf(a[0].cmd)), a[1..], cmd);
    }
  }

  // ---------------------------------------------------------------- meaning

  /** On a properly grouped tree, parse_command does what the scan does. */
  lemma {:induction false} EvalIsScan(w: World, ran: seq<Tree>, t: Tree)
    requires Grouped(t) && NoParallel(Rest(t))
    ensures var o, s := Eval(w, ran, t), ScanLine(w, ran, First(t), Rest(t));
            o.ran == s.0 && (NoSequential(Rest(t)) ==> o.status == Some(s.1))
    decreases t
  {
    if t.Leaf? || t.op == PIPE {
      PipelineIsOneUnit(t);
    } else {
      RootIsLastWeakest(t);
      var l, r := t.cmd1, t.cmd2;
      assert Rest(t)[|Rest(l)|].op == t.op;
      PartOf(t);
      EvalIsScan(w, ran, l);
      var o := Eval(w, ran, l);
      EvalIsScan(w, o.ran, r);
      UnitsSplit(Leaf(First(l)), Rest(l), t.op, First(r), Rest(r));
      var (u, left) := Units(Leaf(First(l)), Rest(l));
      var (v, right) := Units(Leaf(First(r)), Rest(r));
      ScanAppend(w, ran + [u], w(ran, u), left, [Joined(t.op, v)] + right);
      assert left + [Joined(t.op, v)] + right == left + ([Joined(t.op, v)] + right);
      if t.op != SEQUENTIAL {
        PipelineIsOneUnit(r);
      }
    }
  }

  lemma PartOf(t: Tree)
    requires Grouped(t) && t.Node? && t.op != PARALLEL && NoParallel(Rest(t))
    ensures NoParallel(Rest(t.cmd1)) && NoParallel(Rest(t.cmd2))
    ensures NoSequential(Rest(t)) ==> NoSequential(Rest(t.cmd1)) && NoSequential(Rest(t.cmd2)) && t.op != SEQUENTIAL
    ensures t.op == CONDITIONAL_ZERO || t.op == CONDITIONAL_NZERO ==>
              NoSequential(Rest(t.cmd1)) && (t.cmd2.Leaf? || t.cmd2.op == PIPE)
  {
    PartsOfLine(Rest(t.cmd1), Item(t.op, First(t.cmd2)), Rest(t.cmd2));
    if t.op != SEQUENTIAL {
      OperatorsBelow(t.cmd1, Strength(t.op));
    }
  }

  lemma PartsOfLine(a: seq<Item>, item: Item, b: seq<Item>)
    ensures NoParallel(a + [item] + b) ==> NoParallel(a) && NoParallel(b)
    ensures NoSequential(a + [item] + b) ==> NoSequential(a) && NoSequential(b) && item.op != SEQUENTIAL
  {
    var all := a + [item] + b;
    assert all[|a|] == item;
    assert forall i :: 0 <= i < |a| ==> a[i] == all[i];
    assert forall i :: 0 <= i < |b| ==> b[i] == all[|a| + 1 + i];
  }

  /** Parsing a line and running the tree is running the line from left to right. */
  lemma ParsedLineMeansScan(w: World, ran: seq<Tree>, first: Simple, rest: seq<Item>)
    requires NoParallel(rest)
    ensures var o, s := Eval(w, ran, Parse(first, rest)), ScanLine(w, ran, first, rest);
            o.ran == s.0 && (NoSequential(rest) ==> o.status == Some(s.1))
  {
    ParseIsCorrect(first, rest);
    EvalIsScan(w, ran, Parse(first, rest));
  }

  // ------------------------------------------------------------ lines with `&`

  /** Where the piece before the first `;` ends. */
  function PieceEnd(rest: seq<Item>): (k: nat)
    ensures k <= |rest|
    ensures forall i :: 0 <= i < k ==> rest[i].op != SEQUENTIAL
    ensures k < |rest| ==> rest[k].op == SEQUENTIAL
  {
    if rest == [] || rest[0].op == SEQUENTIAL then 0 else 1 + PieceEnd(rest[1..])
  }

  /** A piece without `;`: one unit when it holds `&`, else a line to scan. */
  function ScanPiece(w: World, ran: seq<Tree>, first: Simple, piece: seq<Item>): (seq<Tree>, int) {
    if NoParallel(piece) then ScanLine(w, ran, first, piece)
    else (ran + [Parse(first, piece)], w(ran, Parse(first, piece)))
  }

  /** The pieces between the `;` of a line, one after the other. */
  function ScanPieces(w: World, ran: seq<Tree>, first: Simple, rest: seq<Item>): (seq<Tree>, int)
    decreases |rest|
  {
    var k := PieceEnd(rest);
    var o := ScanPiece(w, ran, first, rest[..k]);
    if k == |rest| then o else ScanPieces(w, o.0, rest[k].cmd, rest[k + 1..])
  }

  lemma {:induction false} PieceEndIs(rest: seq<Item>, k: nat)
    requires k <= |rest| && (k < |rest| ==> rest[k].op == SEQUENTIAL)
    requires forall i :: 0 <= i < k ==> rest[i].op != SEQUENTIAL
    ensures PieceEnd(rest) == k
  {
    if k == 0 {
    } else {
      assert rest[0].op != SEQUENTIAL;
      PieceEndIs(rest[1..], k - 1);
    }
  }

  lemma {:induction false} PiecesSplit(
      w: World, ran: seq<Tree>, first: Simple, a: seq<Item>, cmd: Simple, b: seq<Item>)
    ensures ScanPieces(w, ran, first, a + [Item(SEQUENTIAL, cmd)] + b) ==
            ScanPieces(w, ScanPieces(w, ran, first, a).0, cmd, b)
    decreases |a|
  {
    var all, k := a + [Item(SEQUENTIAL, cmd)] + b, PieceEnd(a);
    PieceEndIs(all, k);
    assert all[..k] == a[..k];
    if k == |a| {
      assert all[k + 1..] == b;
    } else {
      var o := ScanPiece(w, ran, first, a[..k]);
      assert all[k + 1..] == a[k + 1..] + [Item(SEQUENTIAL, cmd)] + b;
      PiecesSplit(w, o.0, a[k].cmd, a[k + 1..], cmd, b);
    }
  }

  /** A grouped tree without `;` that holds `&` has it at the root. */
  lemma ParallelAtRoot(t: Tree)
    requires Grouped(t) && NoSequential(Rest(t)) && !NoParallel(Rest(t))
    ensures t.Node? && t.op == PARALLEL
  {
    if t.Node? {
      RootIsLastWeakest(t);
      assert Rest(t)[|Rest(t.cmd1)|].op == t.op;
    }
  }

  lemma OnePiece(w: World, ran: seq<Tree>, first: Simple, rest: seq<Item>)
    requires NoSequential(rest)
    ensures ScanPieces(w, ran, first, rest) == ScanPiece(w, ran, first, rest)
  {
    PieceEndIs(rest, |rest|);
    assert rest[..|rest|] == rest;
  }

  /** On every properly grouped tree, parse_command does what the scan of the pieces does. */
  lemma {:induction false} EvalIsPieces(w: World, ran: seq<Tree>, t: Tree)
    requires Grouped(t)
    ensures var o, s := Eval(w, ran, t), ScanPieces(w, ran, First(t), Rest(t));
            o.ran == s.0 && (NoSequential(Rest(t)) ==> o.status == Some(s.1))
    decreases t
  {
    if NoSequential(Rest(t)) {
      OnePiece(w, ran, First(t), Rest(t));
      if NoParallel(Rest(t)) {
        EvalIsScan(w, ran, t);
      } else {
        ParallelAtRoot(t);
        ParseOfPrinted(t);
      }
    } else {
      SequentialAtRoot(t);
      var o := Eval(w, ran, t.cmd1);
      EvalIsPieces(w, ran, t.cmd1);
      EvalIsPieces(w, o.ran, t.cmd2);
      PiecesSplit(w, ran, First(t), Rest(t.cmd1), First(t.cmd2), Rest(t.cmd2));
    }
  }

  lemma SequentialAtRoot(t: Tree)
    requires Grouped(t) && !NoSequential(Rest(t))
    ensures t.Node? && t.op == SEQUENTIAL
  {
    if t.Node? {
      RootIsLastWeakest(t);
      assert Rest(t)[|Rest(t.cmd1)|].op == t.op;
    }
  }

  /** Parsing any line and running the tree is scanning its pieces from left to right. */
  lemma ParsedLineMeansPieces(w: World, ran: seq<Tree>, first: Simple, rest: seq<Item>)
    ensures var o, s := Eval(w, ran, Parse(first, rest)), ScanPieces(w, ran, first, rest);
            o.ran == s.0 && (NoSequential(rest) ==> o.status == Some(s.1))
  {
    hide *;
    ParseIsCorrect(first, rest);
    EvalIsPieces(w, ran, Parse(first, rest));
  }
}
