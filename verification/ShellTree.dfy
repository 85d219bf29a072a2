/**
 The command tree on the heap: nodes linked down by cmd1 and cmd2 and up by up,
 built by the semantic actions of parser.y.
 */
module ShellTree {
  import opened ShellGrammar

  datatype Op = OP_NONE | OP(operator: Operator)

  class SimpleCommand {
    const words: Simple
    var up: Command?

    constructor (words: Simple)
      ensures this.words == words && up == null
    {
      this.words := words;
      up := null;
    }
  }

  class Command {
    var up: Command?
    var cmd1: Command?
    var cmd2: Command?
    var op: Op
    var scmd: SimpleCommand?
    /** This node and everything below it. */
    ghost var Repr: set<object>

    /** The node stands for t, and below it every up link points to the one parent. */
    ghost predicate Holds(t: Tree)
      reads this, Repr
      decreases t
    {
      && this in Repr
      && match t
         case Leaf(s) =>
           op == OP_NONE && cmd1 == null && cmd2 == null &&
           scmd != null && scmd in Repr && scmd.words == s && scmd.up == this
         case Node(o, l, r) =>
           op == OP(o) && scmd == null &&
           cmd1 != null && cmd2 != null && cmd1 in Repr && cmd2 in Repr &&
           cmd1.Repr <= Repr && cmd2.Repr <= Repr && this !in cmd1.Repr && this !in cmd2.Repr &&
           cmd1.Repr !! cmd2.Repr &&
           cmd1.up == this && cmd2.up == this &&
           cmd1.Holds(l) && cmd2.Holds(r)
    }

    /** new_command */
    constructor Simple(s: SimpleCommand)
      modifies s
      ensures Holds(Leaf(s.words)) && up == null && Repr == {this, s}
    {
      up, cmd1, cmd2 := null, null, null;
      op := OP_NONE;
      scmd := s;
      Repr := {this, s};
      new;
      s.up := this;
    }

    /** bind_commands: two trees that nobody owns yet become the children of a new node. */
    constructor Bind(c1: Command, c2: Command, o: Operator, ghost l: Tree, ghost r: Tree)
      requires c1.Holds(l) && c2.Holds(r) && c1.Repr !! c2.Repr
      requires c1.up == null && c2.up == null
      modifies c1`up, c2`up
      ensures Holds(Node(o, l, r)) && up == null && Repr == {this} + old(c1.Repr) + old(c2.Repr)
    {
      hide *;
      HoldsSelf(c1, l);
      HoldsSelf(c2, r);
      up := null;
      cmd1, cmd2 := c1, c2;
      op := OP(o);
      scmd := null;
      Repr := {this} + c1.Repr + c2.Repr;
      new;
      c1.SetUp(this, l);
      c2.SetUp(this, r);
      NodeHolds(o, l, r);
    }

    lemma NodeHolds(o: Operator, l: Tree, r: Tree)
      requires op == OP(o) && scmd == null && cmd1 != null && cmd2 != null
      requires Repr == {this} + cmd1.Repr + cmd2.Repr && this !in cmd1.Repr && this !in cmd2.Repr
      requires cmd1.Repr !! cmd2.Repr && cmd1.Holds(l) && cmd2.Holds(r) && cmd1.up == this && cmd2.up == this
      ensures Holds(Node(o, l, r))
    {
    }

    /** The up link is no part of what a node stands for. */
    method SetUp(parent: Command, ghost t: Tree)
      requires Holds(t)
      modifies this`up
      ensures Holds(t) && up == parent
    {
      up := parent;
    }
  }

  /** A command waiting on the parser's stack, with the operator after it. */
  datatype Slot = Slot(command: Command, op: Operator)

  /** A tree nobody owns yet, living inside owned. */
  ghost predicate Loose(c: Command, t: Tree, owned: set<object>)
    reads owned
  {
    c in owned && c.Repr <= owned && c.Holds(t) && c.up == null
  }

  /** The heap stack stands for the stack of trees; no two commands on it share a node. */
  ghost predicate StackHolds(slots: seq<Slot>, top: Command, stack: seq<Pending>, t: Tree, owned: set<object>)
    reads owned
  {
    && Loose(top, t, owned)
    && |slots| == |stack|
    && (forall i :: 0 <= i < |slots| ==>
          slots[i].op == stack[i].op && Loose(slots[i].command, stack[i].left, owned) &&
          slots[i].command.Repr !! top.Repr)
    && (forall i, j :: 0 <= i < j < |slots| ==> slots[i].command.Repr !! slots[j].command.Repr)
  }

  lemma Pop(slots: seq<Slot>, top: Command, stack: seq<Pending>, t: Tree, owned: set<object>)
    requires StackHolds(slots, top, stack, t, owned) && slots != []
    ensures |slots| == |stack|
    ensures var p, below := slots[|slots| - 1], stack[..|stack| - 1];
            && p.op == stack[|stack| - 1].op
            && Loose(top, t, owned) && Loose(p.command, stack[|stack| - 1].left, owned) && p.command.Repr !! top.Repr
            && Apart(slots[..|slots| - 1], below, p.command.Repr + top.Repr, owned)
  {
  }

  /** Commands that share no node with each other nor with used. */
  ghost predicate Apart(slots: seq<Slot>, stack: seq<Pending>, used: set<object>, owned: set<object>)
    reads owned
  {
    && |slots| == |stack|
    && (forall i :: 0 <= i < |slots| ==>
          slots[i].op == stack[i].op && Loose(slots[i].command, stack[i].left, owned) && slots[i].command.Repr !! used)
    && (forall i, j :: 0 <= i < j < |slots| ==> slots[i].command.Repr !! slots[j].command.Repr)
  }

  lemma Push(slots: seq<Slot>, stack: seq<Pending>, c: Command, t: Tree, owned: set<object>)
    requires Apart(slots, stack, c.Repr, owned) && Loose(c, t, owned)
    ensures StackHolds(slots, c, stack, t, owned)
  {
  }

  /** Join the top two commands: the rest of the stack is not touched. */
  method Join(left: Command, op: Operator, right: Command, slots: seq<Slot>,
              ghost l: Tree, ghost r: Tree, ghost stack: seq<Pending>, ghost owned: set<object>)
    returns (c: Command)
    requires Loose(left, l, owned) && Loose(right, r, owned) && left.Repr !! right.Repr
    requires Apart(slots, stack, left.Repr + right.Repr, owned)
    modifies left`up, right`up
    ensures fresh(c) && Loose(c, Node(op, l, r), owned + {c}) && Apart(slots, stack, c.Repr, owned + {c})
  {
    c := new Command.Bind(left, right, op, l, r);
    assert left in left.Repr && right in right.Repr;
    forall i | 0 <= i < |slots| ensures Loose(slots[i].command, stack[i].left, owned + {c}) {
      assert old(Loose(slots[i].command, stack[i].left, owned));
      assert left !in slots[i].command.Repr && right !in slots[i].command.Repr;
    }
  }

  lemma ReduceStep(stack: seq<Pending>, top: Tree, s: nat)
    ensures stack == [] || Strength(stack[|stack| - 1].op) < s ==> Reduce(stack, top, s) == (stack, top)
    ensures stack != [] && Strength(stack[|stack| - 1].op) >= s ==>
              var p := stack[|stack| - 1];
              Reduce(stack, top, s) == Reduce(stack[..|stack| - 1], Node(p.op, p.left, top), s)
  {
  }

  lemma SizeOfStack(slots: seq<Slot>, top: Command, stack: seq<Pending>, t: Tree, owned: set<object>)
    requires StackHolds(slots, top, stack, t, owned)
    ensures |slots| == |stack| && top in owned
    ensures slots != [] ==> slots[|slots| - 1].op == stack[|stack| - 1].op
  {
  }

  lemma LooseFacts(c: Command, t: Tree, owned: set<object>)
    requires Loose(c, t, owned)
    ensures c in owned && c.Repr <= owned && c.Holds(t) && c.up == null
  {
  }

  /** Reductions of the rule `command OP command` as long as the stack's operator binds at least as tightly as s. */
  method ReduceStack(slots: seq<Slot>, top: Command, s: nat,
                     ghost stack: seq<Pending>, ghost t: Tree, ghost owned: set<object>)
    returns (slots': seq<Slot>, top': Command, ghost owned': set<object>)
    requires StackHolds(slots, top, stack, t, owned)
    modifies owned
    ensures owned <= owned' && fresh(owned' - owned)
    ensures var (stack', t') := Reduce(stack, t, s); StackHolds(slots', top', stack', t', owned')
  {
    hide *;
    slots', top', owned' := slots, top, owned;
    ghost var stack', t' := stack, t;
    SizeOfStack(slots, top, stack, t, owned);
    while |slots'| > 0 && Strength(slots'[|slots'| - 1].op) >= s
      invariant StackHolds(slots', top', stack', t', owned')
      invariant |slots'| == |stack'| && (|slots'| > 0 ==> slots'[|slots'| - 1].op == stack'[|stack'| - 1].op)
      invariant Reduce(stack', t', s) == Reduce(stack, t, s)
      invariant owned <= owned' && fresh(owned' - owned)
      decreases |slots'|
    {
      Pop(slots', top', stack', t', owned');
      ReduceStep(stack', t', s);
      ghost var q := stack'[|stack'| - 1];
      var p, below := slots'[|slots'| - 1], slots'[..|slots'| - 1];
      LooseFacts(p.command, q.left, owned');
      LooseFacts(top', t', owned');
      var c := Join(p.command, p.op, top', below, q.left, t', stack'[..|stack'| - 1], owned');
      slots', top' := below, c;
      stack', t' := stack'[..|stack'| - 1], Node(q.op, q.left, t');
      owned' := owned' + {c};
      Push(slots', stack', c, t', owned');
      SizeOfStack(slots', top', stack', t', owned');
    }
    ReduceStep(stack', t', s);
  }

  /** command: simple_command, for a command that is not linked anywhere yet. */
  method NewCommand(s: Simple) returns (c: Command)
    ensures fresh(c) && fresh(c.Repr) && c.Holds(Leaf(s)) && c.up == null
  {
    var simple := new SimpleCommand(s);
    c := new Command.Simple(simple);
  }

  /** The top command goes on the stack with the operator read, and a new command follows. */
  lemma Shift(slots: seq<Slot>, top: Command, stack: seq<Pending>, t: Tree, owned: set<object>,
              op: Operator, next: Command, s: Simple)
    requires StackHolds(slots, top, stack, t, owned)
    requires next.Repr !! owned && next in next.Repr && next.Holds(Leaf(s)) && next.up == null
    ensures StackHolds(slots + [Slot(top, op)], next, stack + [Pending(t, op)], Leaf(s), owned + next.Repr)
  {
    var more, pend, all := slots + [Slot(top, op)], stack + [Pending(t, op)], owned + next.Repr;
    forall i | 0 <= i < |more|
      ensures more[i].op == pend[i].op && Loose(more[i].command, pend[i].left, all) && more[i].command.Repr !! next.Repr
    {
      if i < |slots| {
        assert Loose(slots[i].command, stack[i].left, owned);
      }
    }
  }

  lemma OnlyTop(top: Command, t: Tree)
    requires top in top.Repr && top.Holds(t) && top.up == null
    ensures StackHolds([], top, [], t, top.Repr)
  {
  }

  lemma ParseStep(stack: seq<Pending>, t: Tree, rest: seq<Item>)
    ensures rest == [] ==> ParseFrom(stack, t, rest) == Reduce(stack, t, 0).1
    ensures rest != [] ==>
              var (stack', t') := Reduce(stack, t, Strength(rest[0].op));
              ParseFrom(stack, t, rest) == ParseFrom(stack' + [Pending(t', rest[0].op)], Leaf(rest[0].cmd), rest[1..])
  {
  }

  lemma HoldsSelf(c: Command, t: Tree)
    requires c.Holds(t)
    ensures c in c.Repr
  {
  }

  lemma TopFacts(slots: seq<Slot>, top: Command, stack: seq<Pending>, t: Tree, owned: set<object>)
    requires StackHolds(slots, top, stack, t, owned)
    ensures top in owned && top.Repr <= owned && top.Holds(t) && top.up == null
  {
  }

  /** The parser's run over one line: shifts and reductions with their actions. */
  method ParseLine(first: Simple, rest: seq<Item>) returns (root: Command)
    ensures root.Holds(Parse(first, rest)) && root.up == null && fresh(root.Repr)
  {
    hide *;
    var slots: seq<Slot> := [];
    ghost var stack: seq<Pending>, t := [], Leaf(first);
    root := NewCommand(first);
    HoldsSelf(root, t);
    OnlyTop(root, t);
    ParseStart(first, rest);
    ghost var owned := root.Repr;
    assert rest[0..] == rest;
    for i := 0 to |rest|
      invariant StackHolds(slots, root, stack, t, owned) && fresh(owned)
      invariant ParseFrom(stack, t, rest[i..]) == Parse(first, rest)
    {
      ParseStep(stack, t, rest[i..]);
      var op := rest[i].op;
      assert rest[i..][0] == rest[i] && rest[i..][1..] == rest[i + 1..];
      ghost var (stack', t') := Reduce(stack, t, Strength(op));
      slots, root, owned := ReduceStack(slots, root, Strength(op), stack, t, owned);
      var next := NewCommand(rest[i].cmd);
      HoldsSelf(next, Leaf(rest[i].cmd));
      Shift(slots, root, stack', t', owned, op, next, rest[i].cmd);
      slots := slots + [Slot(root, op)];
      stack, t := stack' + [Pending(t', op)], Leaf(rest[i].cmd);
      owned := owned + next.Repr;
      root := next;
    }
    ParseStep(stack, t, []);
    assert rest[|rest|..] == [];
    ghost var r := Reduce(stack, t, 0);
    slots, root, owned := ReduceStack(slots, root, 0, stack, t, owned);
    TopFacts(slots, root, r.0, r.1, owned);
  }

  lemma ParseStart(first: Simple, rest: seq<Item>)
    ensures Parse(first, rest) == ParseFrom([], Leaf(first), rest)
  {
  }
}
