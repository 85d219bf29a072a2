/**
 The command grammar of parser.y. The grammar is ambiguous; the %left lines give
 the operators their binding strength and make them group to the left.
 */
module ShellGrammar {

  datatype Simple = Simple(verb: string, params: seq<string>)

  datatype Operator = SEQUENTIAL | PARALLEL | CONDITIONAL_ZERO | CONDITIONAL_NZERO | PIPE

  /** Binding strength: the order of the %left lines. */
  function Strength(op: Operator): (s: nat)
    ensures s <= 3
  {
    match op
    case SEQUENTIAL => 0
    case PARALLEL => 1
    case CONDITIONAL_ZERO => 2
    case CONDITIONAL_NZERO => 2
    case PIPE => 3
  }

  datatype Tree = Leaf(scmd: Simple) | Node(op: Operator, cmd1: Tree, cmd2: Tree)

  /** An operator and the simple command that follows it. */
  datatype Item = Item(op: Operator, cmd: Simple)

  // ----------------------------------------------------------------- printing

  function First(t: Tree): Simple {
    match t
    case Leaf(s) => s
    case Node(_, l, _) => First(l)
  }

  function Rest(t: Tree): seq<Item> {
    match t
    case Leaf(_) => []
    case Node(op, l, r) => Rest(l) + [Item(op, First(r))] + Rest(r)
  }

  /** How tightly the root binds; leaves bind tightest. */
  function Root(t: Tree): (s: nat)
    ensures s <= 4
  {
    if t.Leaf? then 4 else Strength(t.op)
  }

  /** Left children bind at least as tightly as their parent, right children more tightly. */
  predicate Grouped(t: Tree) {
    match t
    case Leaf(_) => true
    case Node(op, l, r) => Grouped(l) && Grouped(r) && Root(l) >= Strength(op) && Root(r) > Strength(op)
  }

  // ------------------------------------------------------------------ parsing

  /** A command on the parser's stack with the operator that follows it. */
  datatype Pending = Pending(left: Tree, op: Operator)

  /** Reduce while the operator on the stack binds at least as tightly as the next one (s). */
  function Reduce(stack: seq<Pending>, top: Tree, s: nat): (r: (seq<Pending>, Tree))
    ensures |r.0| <= |stack|
    decreases |stack|
  {
    if stack == [] || Strength(stack[|stack| - 1].op) < s then (stack, top)
    else
      var p := stack[|stack| - 1];
      Reduce(stack[..|stack| - 1], Node(p.op, p.left, top), s)
  }

  function ParseFrom(stack: seq<Pending>, top: Tree, rest: seq<Item>): Tree
    decreases |rest|
  {
    if rest == [] then Reduce(stack, top, 0).1
    else
      var (stack', top') := Reduce(stack, top, Strength(rest[0].op));
      ParseFrom(stack' + [Pending(top', rest[0].op)], Leaf(rest[0].cmd), rest[1..])
  }

  /** command: a simple command, or commands joined by operators. */
  function Parse(first: Simple, rest: seq<Item>): Tree {
    ParseFrom([], Leaf(first), rest)
  }

  // ------------------------------------------------- what the stack stands for

  function StackFirst(stack: seq<Pending>, top: Tree): Simple {
    if stack == [] then First(top) else First(stack[0].left)
  }

  function StackRest(stack: seq<Pending>, top: Tree): seq<Item>
    decreases |stack|
  {
    if stack == [] then Rest(top)
    else
      var p := stack[|stack| - 1];
      StackRest(stack[..|stack| - 1], p.left) + [Item(p.op, First(top))] + Rest(top)
  }

  /** Strengths grow along the stack, and every command on it groups below its operator. */
  predicate StackOk(stack: seq<Pending>, top: Tree)
    decreases |stack|
  {
    Grouped(top) &&
    (stack == [] ||
     var p := stack[|stack| - 1];
     && Root(top) > Strength(p.op)
     && Root(p.left) >= Strength(p.op)
     && StackOk(stack[..|stack| - 1], p.left)
     && (|stack| >= 2 ==> Strength(stack[|stack| - 2].op) < Strength(p.op)))
  }

  lemma {:induction false} ReduceOk(stack: seq<Pending>, top: Tree, s: nat)
    requires StackOk(stack, top)
    ensures var (stack', top') := Reduce(stack, top, s);
            && StackOk(stack', top')
            && (Root(top) >= s ==> Root(top') >= s)
            && (stack' != [] ==> Strength(stack'[|stack'| - 1].op) < s)
            && StackFirst(stack', top') == StackFirst(stack, top)
            && StackRest(stack', top') == StackRest(stack, top)
    decreases |stack|
  {
    if stack != [] && Strength(stack[|stack| - 1].op) >= s {
      var p, below := stack[|stack| - 1], stack[..|stack| - 1];
      var t := Node(p.op, p.left, top);
      assert StackOk(below, t);
      assert StackRest(below, t) == StackRest(stack, top) by {
        RestBelow(below, p, top);
      }
      ReduceOk(below, t, s);
    }
  }

  lemma RestBelow(below: seq<Pending>, p: Pending, top: Tree)
    ensures StackRest(below, Node(p.op, p.left, top)) == StackRest(below, p.left) + [Item(p.op, First(top))] + Rest(top)
  {
  }

  lemma {:induction false} ParseFromOk(stack: seq<Pending>, top: Tree, rest: seq<Item>)
    requires StackOk(stack, top) && top.Leaf?
    ensures var t := ParseFrom(stack, top, rest);
            Grouped(t) && First(t) == StackFirst(stack, top) && Rest(t) == StackRest(stack, top) + rest
    decreases |rest|
  {
    if rest == [] {
      ReduceOk(stack, top, 0);
      assert StackRest(stack, top) + [] == StackRest(stack, top);
    } else {
      var op, next := rest[0].op, Leaf(rest[0].cmd);
      ReduceOk(stack, top, Strength(op));
      var (stack', top') := Reduce(stack, top, Strength(op));
      var pushed := stack' + [Pending(top', op)];
      ShiftOk(stack', top', op, next);
      ParseFromOk(pushed, next, rest[1..]);
      assert rest == [rest[0]] + rest[1..];
      assert StackRest(pushed, next) + rest[1..] == StackRest(stack, top) + rest;
    }
  }

  /** Shifting an operator and the command after it. */
  lemma ShiftOk(stack: seq<Pending>, top: Tree, op: Operator, next: Tree)
    requires StackOk(stack, top) && next.Leaf? && Root(top) >= Strength(op)
    requires stack != [] ==> Strength(stack[|stack| - 1].op) < Strength(op)
    ensures var pushed := stack + [Pending(top, op)];
            && StackOk(pushed, next)
            && StackFirst(pushed, next) == StackFirst(stack, top)
            && StackRest(pushed, next) == StackRest(stack, top) + [Item(op, First(next))]
  {
    var pushed := stack + [Pending(top, op)];
    assert pushed[..|pushed| - 1] == stack;
    assert StackRest(pushed, next) == StackRest(stack, top) + [Item(op, First(next))] + [];
  }

  /** The parse prints back to the line, grouped as the %left lines demand. */
  lemma ParseIsCorrect(first: Simple, rest: seq<Item>)
    ensures var t := Parse(first, rest); First(t) == first && Rest(t) == rest && Grouped(t)
  {
    ParseFromOk([], Leaf(first), rest);
    assert [] + rest == rest;
  }

  // --------------------------------------------------------------- uniqueness

  predicate AllAtLeast(rest: seq<Item>, s: nat) {
    forall i :: 0 <= i < |rest| ==> Strength(rest[i].op) >= s
  }

  lemma {:induction false} OperatorsBelow(t: Tree, s: nat)
    requires Grouped(t) && Root(t) >= s
    ensures AllAtLeast(Rest(t), s)
    decreases t
  {
    if t.Leaf? {
    } else {
      OperatorsBelow(t.cmd1, s);
      OperatorsBelow(t.cmd2, s);
    }
  }

  /** The root is the last of the weakest operators. */
  predicate LastWeakest(rest: seq<Item>, k: nat) {
    && k < |rest|
    && AllAtLeast(rest, Strength(rest[k].op))
    && forall i :: k < i < |rest| ==> Strength(rest[i].op) > Strength(rest[k].op)
  }

  lemma RootIsLastWeakest(t: Tree)
    requires Grouped(t) && t.Node?
    ensures LastWeakest(Rest(t), |Rest(t.cmd1)|)
    ensures Rest(t)[|Rest(t.cmd1)|] == Item(t.op, First(t.cmd2))
    ensures Rest(t)[..|Rest(t.cmd1)|] == Rest(t.cmd1) && Rest(t)[|Rest(t.cmd1)| + 1..] == Rest(t.cmd2)
  {
    OperatorsBelow(t.cmd1, Strength(t.op));
    OperatorsBelow(t.cmd2, Strength(t.op) + 1);
  }

  lemma LastWeakestIsUnique(rest: seq<Item>, j: nat, k: nat)
    requires LastWeakest(rest, j) && LastWeakest(rest, k)
    ensures j == k
  {
  }

  /** There is only one properly grouped tree for a line. */
  lemma {:induction false} GroupedIsUnique(t: Tree, u: Tree)
    requires Grouped(t) && Grouped(u) && First(t) == First(u) && Rest(t) == Rest(u)
    ensures t == u
    decreases t
  {
    if t.Leaf? {
      assert |Rest(u)| == 0;
    } else {
      assert |Rest(t)| > 0;
      RootIsLastWeakest(t);
      RootIsLastWeakest(u);
      LastWeakestIsUnique(Rest(t), |Rest(t.cmd1)|, |Rest(u.cmd1)|);
      GroupedIsUnique(t.cmd1, u.cmd1);
      GroupedIsUnique(t.cmd2, u.cmd2);
    }
  }

  /** Hence the parse is the only tree that prints as the line and is grouped properly. */
  lemma ParseIsTheOnlyTree(first: Simple, rest: seq<Item>, t: Tree)
    ensures t == Parse(first, rest) <==> First(t) == first && Rest(t) == rest && Grouped(t)
  {
    ParseIsCorrect(first, rest);
    if First(t) == first && Rest(t) == rest && Grouped(t) {
      GroupedIsUnique(t, Parse(first, rest));
    }
  }

  /** Printing and parsing undo each other. */
  lemma ParseOfPrinted(t: Tree)
    ensures Parse(First(t), Rest(t)) == t <==> Grouped(t)
  {
    ParseIsTheOnlyTree(First(t), Rest(t), t);
  }

  // ----------------------------------------------- the grouping, by operators

  predicate Has(rest: seq<Item>, op: Operator) {
    exists i :: 0 <= i < |rest| && rest[i].op == op
  }

  predicate HasConditional(rest: seq<Item>) {
    Has(rest, CONDITIONAL_ZERO) || Has(rest, CONDITIONAL_NZERO)
  }

  /**
   `|` joins a command or pipeline with one command, `&&` and `||` join a list of these
   with a pipeline, `&` such a list of lists with one list, and `;` lines with a line
   that has no `;`.
   */
  predicate GroupedByOperators(t: Tree) {
    match t
    case Leaf(_) => true
    case Node(op, l, r) =>
      && GroupedByOperators(l) && GroupedByOperators(r)
      && match op
         case PIPE => (l.Leaf? || l.op == PIPE) && r.Leaf?
         case CONDITIONAL_ZERO =>
           && !Has(Rest(l), SEQUENTIAL) && !Has(Rest(l), PARALLEL)
           && (r.Leaf? || r.op == PIPE)
         case CONDITIONAL_NZERO =>
           && !Has(Rest(l), SEQUENTIAL) && !Has(Rest(l), PARALLEL)
           && (r.Leaf? || r.op == PIPE)
         case PARALLEL =>
           && !Has(Rest(l), SEQUENTIAL)
           && !Has(Rest(r), SEQUENTIAL) && !Has(Rest(r), PARALLEL)
         case SEQUENTIAL => !Has(Rest(r), SEQUENTIAL)
  }

  /** Which operators a strength stands for. */
  lemma AtLeastIs(rest: seq<Item>)
    ensures AllAtLeast(rest, 1) <==> !Has(rest, SEQUENTIAL)
    ensures AllAtLeast(rest, 2) <==> !Has(rest, SEQUENTIAL) && !Has(rest, PARALLEL)
    ensures AllAtLeast(rest, 3) <==> !Has(rest, SEQUENTIAL) && !Has(rest, PARALLEL) && !HasConditional(rest)
  {
  }

  /** A tree's operators are all of strength s exactly when its root is. */
  lemma RootDecides(t: Tree, s: nat)
    requires Grouped(t) && s <= 4
    ensures Root(t) >= s <==> t.Leaf? || AllAtLeast(Rest(t), s)
  {
    if t.Node? && Root(t) >= s {
      OperatorsBelow(t, s);
    } else if t.Node? {
      assert Rest(t)[|Rest(t.cmd1)|] == Item(t.op, First(t.cmd2));
    }
  }

  /** The binding strengths group exactly so. */
  lemma {:induction false} GroupedExactly(t: Tree)
    ensures Grouped(t) <==> GroupedByOperators(t)
    decreases t
  {
    if t.Leaf? {
    } else {
      GroupedExactly(t.cmd1);
      GroupedExactly(t.cmd2);
      if Grouped(t.cmd1) && Grouped(t.cmd2) {
        ChildrenExactly(t.op, t.cmd1, t.cmd2);
      }
    }
  }

  lemma ChildrenExactly(op: Operator, l: Tree, r: Tree)
    requires Grouped(l) && Grouped(r)
    ensures Grouped(Node(op, l, r)) ==
            match op
            case PIPE => (l.Leaf? || l.op == PIPE) && r.Leaf?
            case CONDITIONAL_ZERO =>
              && !Has(Rest(l), SEQUENTIAL) && !Has(Rest(l), PARALLEL)
              && (r.Leaf? || r.op == PIPE)
            case CONDITIONAL_NZERO =>
              && !Has(Rest(l), SEQUENTIAL) && !Has(Rest(l), PARALLEL)
              && (r.Leaf? || r.op == PIPE)
            case PARALLEL =>
              && !Has(Rest(l), SEQUENTIAL)
              && !Has(Rest(r), SEQUENTIAL) && !Has(Rest(r), PARALLEL)
            case SEQUENTIAL => !Has(Rest(r), SEQUENTIAL)
  {
    hide Has, AllAtLeast;
    AtLeastIs(Rest(l));
    AtLeastIs(Rest(r));
    RootDecides(l, 1);
    RootDecides(l, 2);
    RootDecides(r, 1);
    RootDecides(r, 2);
    NoneInLeaf(l);
    NoneInLeaf(r);
  }

  lemma NoneInLeaf(t: Tree)
    ensures t.Leaf? ==> forall op :: !Has(Rest(t), op)
  {
  }

  /** The parse is the only tree of the line that is grouped so. */
  lemma ParseByOperators(first: Simple, rest: seq<Item>, t: Tree)
    ensures t == Parse(first, rest) <==> First(t) == first && Rest(t) == rest && GroupedByOperators(t)
  {
    hide *;
    ParseIsTheOnlyTree(first, rest, t);
    GroupedExactly(t);
  }

  /** The last place of an operator for which p holds, with none behind it. */
  predicate LastPlace(rest: seq<Item>, k: nat, ops: set<Operator>) {
    k < |rest| && rest[k].op in ops && forall i :: k < i < |rest| ==> rest[i].op !in ops
  }

  /**
   A line is cut at its last `;`; without one, at its last `&`; without these, at its
   last `&&` or `||`; else at its last `|`.
   */
  lemma ParseCutsAt(first: Simple, rest: seq<Item>)
    requires rest != []
    ensures var t := Parse(first, rest);
            && t.Node?
            && LastPlace(rest, |Rest(t.cmd1)|,
                 if Has(rest, SEQUENTIAL) then {SEQUENTIAL}
                 else if Has(rest, PARALLEL) then {PARALLEL}
                 else if HasConditional(rest) then {CONDITIONAL_ZERO, CONDITIONAL_NZERO}
                 else {PIPE})
            && rest[|Rest(t.cmd1)|].op == t.op
            && t.cmd1 == Parse(first, rest[..|Rest(t.cmd1)|])
            && t.cmd2 == Parse(rest[|Rest(t.cmd1)|].cmd, rest[|Rest(t.cmd1)| + 1..])
  {
    var t := Parse(first, rest);
    ParseIsCorrect(first, rest);
    RootIsLastWeakest(t);
    ParseOfPrinted(t.cmd1);
    ParseOfPrinted(t.cmd2);
    assert rest[|Rest(t.cmd1)|].op == t.op;
    hide Parse, Grouped, Rest;
    LastWeakestIs(rest, |Rest(t.cmd1)|);
  }

  lemma LastWeakestIs(rest: seq<Item>, k: nat)
    requires LastWeakest(rest, k)
    ensures LastPlace(rest, k,
              if Has(rest, SEQUENTIAL) then {SEQUENTIAL}
              else if Has(rest, PARALLEL) then {PARALLEL}
              else if HasConditional(rest) then {CONDITIONAL_ZERO, CONDITIONAL_NZERO}
              else {PIPE})
  {
  }
}
