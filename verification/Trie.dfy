/**
 The trie itself: nodes linked through arrays of 68 children, updated in place.
 Every call is proved to do to the index what TrieModel says.
 */
module Trie {
  import opened Wrappers
  import opened Alphabet
  import opened TrieModel

  const ALPHABET_SIZE: nat := 68

  class TrieNode {
    const letter: char
    var count: nat
    var text: Option<string>
    const children: array<TrieNode?>
    var fullWord: bool
    /** The path from the root. */
    ghost const path: Key

    constructor (letter: char, ghost path: Key)
      ensures this.letter == letter && this.path == path
      ensures count == 0 && text == None && !fullWord
      ensures fresh(children) && children.Length == ALPHABET_SIZE
      ensures forall c :: 0 <= c < ALPHABET_SIZE ==> children[c] == null
    {
      this.letter, this.path := letter, path;
      count, text, fullWord := 0, None, false;
      children := new TrieNode?[ALPHABET_SIZE](_ => null);
    }

    ghost function Content(): Data
      reads this
    {
      Data(count, text, fullWord)
    }
  }

  type Children = array<TrieNode?>

  /**
   The tree as a whole: every node by its path, which node each array of children
   belongs to, a bound on the paths, and what the nodes store.
   */
  datatype View = View(nodes: map<Key, TrieNode>, home: map<Children, Key>, depth: nat, model: Index)

  /** Each node is at its own path, below its parent, and has its own array of children. */
  ghost predicate NodesOk(v: View) {
    && [] in v.nodes
    && forall p :: p in v.nodes ==>
         && v.nodes[p].path == p && |p| <= v.depth
         && v.nodes[p].children.Length == ALPHABET_SIZE
         && v.nodes[p].children in v.home && v.home[v.nodes[p].children] == p
         && (p != [] ==> p[..|p| - 1] in v.nodes && p[|p| - 1] < ALPHABET_SIZE)
  }

  ghost predicate Owned(v: View, repr: set<object>) {
    && (forall p :: p in v.nodes ==> v.nodes[p] in repr && v.nodes[p].children in repr)
    && forall a :: a in v.home ==> a in repr
  }

  /** The child of the node at p for code c is the node one step further. */
  ghost predicate LinkOk(nodes: map<Key, TrieNode>, p: Key, c: nat)
    requires p in nodes
    reads nodes[p].children
  {
    && c < nodes[p].children.Length
    && nodes[p].children[c] == if p + [c] in nodes then nodes[p + [c]] else null
  }

  ghost predicate LinksOk(nodes: map<Key, TrieNode>)
    reads set p | p in nodes :: nodes[p].children
  {
    forall p: Key, c: nat :: p in nodes && c < ALPHABET_SIZE ==> LinkOk(nodes, p, c)
  }

  ghost predicate ContentOk(nodes: map<Key, TrieNode>, model: Index)
    reads set p | p in nodes :: nodes[p]
  {
    model.Keys == nodes.Keys && forall p :: p in nodes ==> nodes[p].Content() == model[p]
  }

  lemma NodeFacts(v: View, p: Key)
    requires NodesOk(v) && p in v.nodes
    ensures [] in v.nodes && v.nodes[p].path == p && |p| <= v.depth
    ensures v.nodes[p].children.Length == ALPHABET_SIZE
    ensures v.nodes[p].children in v.home && v.home[v.nodes[p].children] == p
  {
  }

  lemma LinkFacts(nodes: map<Key, TrieNode>, p: Key, c: nat)
    requires LinksOk(nodes) && p in nodes && c < ALPHABET_SIZE
    ensures LinkOk(nodes, p, c) && c < nodes[p].children.Length
    ensures nodes[p].children[c] == if p + [c] in nodes then nodes[p + [c]] else null
  {
  }

  lemma ContentFacts(nodes: map<Key, TrieNode>, model: Index, p: Key)
    requires ContentOk(nodes, model)
    ensures p in nodes <==> p in model
    ensures p in nodes ==> model[p] == Data(nodes[p].count, nodes[p].text, nodes[p].fullWord)
  {
  }

  lemma OwnedFacts(v: View, repr: set<object>, p: Key)
    requires Owned(v, repr) && p in v.nodes
    ensures v.nodes[p] in repr && v.nodes[p].children in repr
  {
  }

  /** Without a node for a prefix there is none for the whole key. */
  lemma {:induction false} NoPrefixNoKey(v: View, k: Key, i: nat)
    requires NodesOk(v) && i <= |k| && k[..i] !in v.nodes
    ensures k !in v.nodes
    decreases |k| - i
  {
    if i < |k| {
      assert k[..i + 1][..i] == k[..i];
      NoPrefixNoKey(v, k, i + 1);
    } else {
      assert k[..i] == k;
    }
  }

  // ---------------------------------------------------------- a new node

  /** v with a node added below p. */
  ghost function Grown(v: View, p: Key, c: nat, child: TrieNode): View {
    View(v.nodes[p + [c] := child], v.home[child.children := p + [c]],
         if |p| + 1 > v.depth then |p| + 1 else v.depth, v.model[p + [c] := EMPTY])
  }

  lemma NodesGrow(v: View, p: Key, c: nat, child: TrieNode)
    requires NodesOk(v) && p in v.nodes && p + [c] !in v.nodes && c < ALPHABET_SIZE
    requires child.path == p + [c] && child.children !in v.home && child.children.Length == ALPHABET_SIZE
    ensures NodesOk(Grown(v, p, c, child))
  {
    assert (p + [c])[..|p|] == p;
  }

  /** Store a new child: the links of all other places stay. */
  method SetChild(node: TrieNode, c: nat, child: TrieNode, ghost v: View, ghost p: Key)
    requires NodesOk(v) && LinksOk(v.nodes) && p in v.nodes && v.nodes[p] == node && c < ALPHABET_SIZE
    requires p + [c] !in v.nodes && child.children.Length == ALPHABET_SIZE && child.children !in v.home
    requires forall d :: 0 <= d < ALPHABET_SIZE ==> child.children[d] == null
    modifies node.children
    ensures LinksOk(v.nodes[p + [c] := child])
  {
    NodeFacts(v, p);
    node.children[c] := child;
    forall q: Key, d: nat | q in v.nodes && d < ALPHABET_SIZE && !(q == p && d == c) ensures LinkOk(v.nodes, q, d) {
      NodeFacts(v, q);
      assert old(LinkOk(v.nodes, q, d));
    }
    LinksGrow(v, p, c, child);
  }

  lemma SameStep(q: Key, d: nat, p: Key, c: nat)
    ensures q + [d] == p + [c] <==> q == p && d == c
  {
    assert (q + [d])[..|q|] == q && (p + [c])[..|p|] == p && (q + [d])[|q|] == d && (p + [c])[|p|] == c;
  }

  lemma LinksGrow(v: View, p: Key, c: nat, child: TrieNode)
    requires NodesOk(v) && p in v.nodes && p + [c] !in v.nodes && c < ALPHABET_SIZE
    requires c < v.nodes[p].children.Length && v.nodes[p].children[c] == child
    requires forall q: Key, d: nat :: q in v.nodes && d < ALPHABET_SIZE && !(q == p && d == c) ==> LinkOk(v.nodes, q, d)
    requires child.children.Length == ALPHABET_SIZE && forall d :: 0 <= d < ALPHABET_SIZE ==> child.children[d] == null
    ensures LinksOk(v.nodes[p + [c] := child])
  {
    var more := v.nodes[p + [c] := child];
    forall q: Key, d: nat | q in more && d < ALPHABET_SIZE ensures LinkOk(more, q, d) {
      if q == p + [c] {
        assert (q + [d])[..|q + [d]| - 1] == q;
        assert q + [d] != p + [c];
      } else if !(q == p && d == c) {
        assert LinkOk(v.nodes, q, d);
        SameStep(q, d, p, c);
      }
    }
  }

  /** java.util.ArrayList<String>, as far as it is used here. */
  class StringList {
    var items: seq<string>

    constructor ()
      ensures items == []
    {
      items := [];
    }
  }

  class TrieFunctions {
    var root: TrieNode
    var nrElements: nat

    ghost var view: View
    ghost var Repr: set<object>

    ghost predicate Tree()
      reads this, Repr
    {
      && this in Repr
      && NodesOk(view)
      && root == view.nodes[[]]
      && Owned(view, Repr)
      && LinksOk(view.nodes)
      && ContentOk(view.nodes, view.model)
    }

    ghost predicate Valid()
      reads this, Repr
    {
      Tree() && Consistent(view.model) && nrElements == 0
    }

    lemma Open()
      requires Tree()
      ensures this in Repr && NodesOk(view) && [] in view.nodes && root == view.nodes[[]]
      ensures Owned(view, Repr) && LinksOk(view.nodes) && ContentOk(view.nodes, view.model)
    {
    }

    lemma Close()
      requires this in Repr && NodesOk(view) && [] in view.nodes && root == view.nodes[[]]
      requires Owned(view, Repr) && LinksOk(view.nodes) && ContentOk(view.nodes, view.model)
      ensures Tree()
    {
    }

    constructor ()
      ensures Valid() && fresh(Repr) && view.model == Initial()
    {
      hide *;
      root := new TrieNode('\0', []);
      nrElements := 0;
      new;
      root.text := Some("");
      view := View(map[[] := root], map[root.children := []], 0, Initial());
      Repr := {this, root, root.children};
      Single(view, root, Repr);
      Close();
      MakeValid();
    }

    lemma MakeValid()
      requires Tree() && Consistent(view.model) && nrElements == 0
      ensures Valid()
    {
    }

    /** A new node below p for the code c. */
    method NewChild(ghost p: Key, node: TrieNode, c: nat, letter: char) returns (child: TrieNode)
      requires Tree() && p in view.nodes && view.nodes[p] == node && c < ALPHABET_SIZE && p + [c] !in view.nodes
      modifies Repr
      ensures Tree() && Repr == old(Repr) + {child, child.children} && fresh(child) && fresh(child.children)
      ensures view == Grown(old(view), p, c, child) && nrElements == old(nrElements)
    {
      hide *;
      Open();
      OwnedFacts(view, Repr, p);
      ghost var v := view;
      child := Hang(node, c, letter, v, p, Repr);
      GrownFacts(v, p, c, child);
      OwnedGrows(v, Repr, p, c, child);
      view, Repr := Grown(v, p, c, child), Repr + {child, child.children};
      Close();
    }

    // ------------------------------------------------------------- the calls

    /** One step down the path of k: the next node, created if need be. */
    method StepDown(ghost k: Key, ghost i: nat, node: TrieNode, c: nat, letter: char, ghost m: Index)
      returns (next: TrieNode)
      requires Tree() && i < |k| && c == k[i] < ALPHABET_SIZE
      requires k[..i] in view.nodes && view.nodes[k[..i]] == node && view.model == WithPath(m, k, i)
      modifies Repr
      ensures Tree() && fresh(Repr - old(Repr)) && nrElements == old(nrElements)
      ensures k[..i + 1] in view.nodes && view.nodes[k[..i + 1]] == next && view.model == WithPath(m, k, i + 1)
    {
      hide *;
      Open();
      NodeFacts(view, k[..i]);
      LinkFacts(view.nodes, k[..i], c);
      ContentFacts(view.nodes, view.model, k[..i + 1]);
      PathStep(m, k, i);
      if node.children[c] == null {
        ghost var v := view;
        next := NewChild(k[..i], node, c, letter);
        GrownFacts(v, k[..i], c, next);
      } else {
        next := node.children[c];
      }
    }

    /** add */
    method Add(e: Element)
      requires Valid() && InAlphabet(e.s)
      modifies Repr
      ensures Valid() && fresh(Repr - old(Repr))
      ensures view.model == AddTo(old(view).model, ElementKey(e), e.s)
    {
      hide *;
      ValidFacts();
      Open();
      ghost var m, k := view.model, ElementKey(e);
      var arrayLetters := e.ToCharArray();
      PathStart(m, k);
      LettersAreKey(e);
      var currentNode := root;
      for i := 0 to |arrayLetters|
        invariant Tree() && fresh(Repr - old(Repr)) && nrElements == 0
        invariant |arrayLetters| == |k|
        invariant k[..i] in view.nodes && view.nodes[k[..i]] == currentNode
        invariant view.model == WithPath(m, k, i)
      {
        LetterCode(e, i);
        var index := Encode(arrayLetters[i]) - 1;
        currentNode := StepDown(k, i, currentNode, index, arrayLetters[i], m);
      }
      assert k[..|k|] == k;
      Deposit(currentNode, e.s, m, k);
      AddConsistent(m, k, e.s);
      MakeValid();
    }

    /** The end of add: the node counts one word more and keeps the smaller text. */
    method Deposit(node: TrieNode, s: string, ghost m: Index, ghost k: Key)
      requires Tree() && k in view.nodes && view.nodes[k] == node && view.model == WithPath(m, k, |k|)
      modifies Repr
      ensures Tree() && Repr == old(Repr) && view.model == AddTo(m, k, s) && nrElements == old(nrElements)
    {
      hide *;
      Open();
      ContentFacts(view.nodes, view.model, k);
      OwnedFacts(view, Repr, k);
      AddedIs(m, k, s);
      var text := Some(if node.text.None? then s else LexicographicalOrder(node.text.value, s));
      SetNode(node, node.count + 1, text, true, k);
    }

    /** Write the fields of one node. */
    method SetNode(node: TrieNode, count: nat, text: Option<string>, fullWord: bool, ghost k: Key)
      requires Tree() && k in view.nodes && view.nodes[k] == node
      modifies Repr
      ensures Tree() && Repr == old(Repr) && nrElements == old(nrElements)
      ensures view == old(view).(model := old(view).model[k := Data(count, text, fullWord)])
    {
      hide *;
      Open();
      OwnedFacts(view, Repr, k);
      SetContent(node, count, text, fullWord, view, k);
      ghost var v := view.(model := view.model[k := Data(count, text, fullWord)]);
      ModelOnly(view, v, Repr);
      view := v;
      Close();
    }

    /** One letter further down a path. */
    lemma NextOnPath(k: Key, i: nat)
      requires Tree() && i < |k| && k[..i] in view.nodes && k[i] < ALPHABET_SIZE
      ensures view.nodes[k[..i]].children.Length == ALPHABET_SIZE
      ensures view.nodes[k[..i]].children[k[i]] ==
              if k[..i + 1] in view.nodes then view.nodes[k[..i + 1]] else null
    {
      hide *;
      Open();
      NodeFacts(view, k[..i]);
      LinkFacts(view.nodes, k[..i], k[i]);
      PathStep(view.model, k, i);
    }

    /** search: the node at the end of the element's path, or null. */
    method Search(e: Element) returns (node: TrieNode?)
      requires Tree() && InAlphabet(e.s)
      ensures node == if ElementKey(e) in view.nodes then view.nodes[ElementKey(e)] else null
    {
      hide *;
      Open();
      ghost var k := ElementKey(e);
      var arrayLetters := e.ToCharArray();
      LettersAreKey(e);
      PathStart(view.model, k);
      node := root;
      for i := 0 to |arrayLetters|
        invariant |arrayLetters| == |k|
        invariant node == if k[..i] in view.nodes then view.nodes[k[..i]] else null
      {
        if node == null {
          NoPrefixNoKey(view, k, i);
          return null;
        }
        LetterCode(e, i);
        NextOnPath(k, i);
        var index := Encode(arrayLetters[i]) - 1;
        node := node.children[index];
      }
      assert k[..|k|] == k;
    }

    /** count */
    method Count(e: Element) returns (n: nat)
      requires Valid() && InAlphabet(e.s)
      ensures n == Lookup(view.model, ElementKey(e)).count
    {
      hide *;
      ValidFacts();
      Open();
      ContentFacts(view.nodes, view.model, ElementKey(e));
      LookupCases(view.model, ElementKey(e));
      var node := Search(e);
      if node != null {
        return node.count;
      }
      return 0;
    }

    /** remove */
    method Remove(e: Element)
      requires Valid() && InAlphabet(e.s)
      modifies Repr
      ensures Valid() && fresh(Repr - old(Repr))
      ensures view.model == RemoveFrom(old(view).model, ElementKey(e))
    {
      hide *;
      ValidFacts();
      Open();
      ghost var k := ElementKey(e);
      ContentFacts(view.nodes, view.model, k);
      RemovedIs(view.model, k);
      RemoveConsistent(view.model, k);
      var node := Search(e);
      if node != null {
        var count := if node.count > 0 then node.count - 1 else node.count;
        if count == 0 {
          SetNode(node, count, Some(TILDE), false, k);
        } else {
          SetNode(node, count, node.text, node.fullWord, k);
        }
      }
      MakeValid();
    }

    /** wordsWithSamePrefix: pre-order over the node at p and everything below. */
    method WordsWithSamePrefix(node: TrieNode?, list: StringList, ghost p: Key)
      returns (r: StringList?, ghost keys: seq<Key>)
      requires Tree() && Consistent(view.model) && list !in Repr
      requires node == if p in view.nodes then view.nodes[p] else null
      modifies this`nrElements, list
      ensures Tree()
      ensures r == if node == null then null else list
      ensures node == null ==> keys == []
      ensures Listing(view.model, p, keys) && Stored(view.model, keys)
      ensures list.items == old(list.items) + Texts(view.model, keys)
      ensures nrElements == old(nrElements) + |keys|
      decreases if node == null then 0 else view.depth + 1 - |p|, 1
    {
      hide *;
      Open();
      if node == null {
        NothingBelow(view, p);
        NoTexts(view.model);
        keys := [];
        Associate(list.items, [], []);
        return null, keys;
      }
      NodeFacts(view, p);
      keys := Visit(node, list, p);
      var c := 0;
      while c < node.children.Length
        invariant 0 <= c <= node.children.Length == ALPHABET_SIZE
        invariant Tree()
        invariant ListingUpTo(view.model, p, c, keys) && Stored(view.model, keys)
        invariant list.items == old(list.items) + Texts(view.model, keys)
        invariant nrElements == old(nrElements) + |keys|
      {
        ghost var more := ListChild(node, list, p, c);
        NextChild(view.model, p, c, keys, more);
        TextsJoin(view.model, keys, more);
        Associate(old(list.items), Texts(view.model, keys), Texts(view.model, more));
        keys := keys + more;
        c := c + 1;
      }
      Open();
      CodesBelow(view);
      AllChildren(view.model, p, ALPHABET_SIZE, keys);
      return list, keys;
    }

    /** Everything below one child. */
    method ListChild(node: TrieNode, list: StringList, ghost p: Key, c: nat) returns (ghost more: seq<Key>)
      requires Tree() && Consistent(view.model) && list !in Repr
      requires p in view.nodes && node == view.nodes[p] && c < ALPHABET_SIZE == node.children.Length
      modifies this`nrElements, list
      ensures Tree()
      ensures Listing(view.model, p + [c], more) && Stored(view.model, more)
      ensures list.items == old(list.items) + Texts(view.model, more)
      ensures nrElements == old(nrElements) + |more|
      decreases view.depth + 1 - |p|, 0
    {
      hide *;
      Open();
      LinkFacts(view.nodes, p, c);
      DepthFacts(view, p, c);
      var sub;
      sub, more := WordsWithSamePrefix(node.children[c], list, p + [c]);
    }

    /** The node's own word goes on the list if the node is live. */
    method Visit(node: TrieNode, list: StringList, ghost p: Key) returns (ghost keys: seq<Key>)
      requires Tree() && Consistent(view.model) && list !in Repr
      requires p in view.nodes && node == view.nodes[p]
      modifies this`nrElements, list
      ensures Tree()
      ensures ListingUpTo(view.model, p, 0, keys) && Stored(view.model, keys)
      ensures list.items == old(list.items) + Texts(view.model, keys)
      ensures nrElements == old(nrElements) + |keys|
    {
      hide *;
      Open();
      ContentFacts(view.nodes, view.model, p);
      LiveText(view.model, p);
      OwnKey(view.model, p);
      NoTexts(view.model);
      assert list.items + [] == list.items;
      keys := [];
      if node.text != None && node.fullWord {
        if node.count > 0 {
          list.items := list.items + [node.text.value];
          nrElements := nrElements + 1;
          keys := [p];
        }
      }
      Close();
    }

    /** getSortedElements: one text for each live key that extends the prefix's, in key order. */
    method GetSortedElements(prefix: Element) returns (trie: array<Element>, ghost keys: seq<Key>)
      requires Valid() && InAlphabet(prefix.s)
      modifies this`nrElements
      ensures Valid() && fresh(trie)
      ensures Listing(view.model, ElementKey(prefix), keys) && Stored(view.model, keys)
      ensures trie.Length == |keys|
      ensures forall i :: 0 <= i < |keys| ==> trie[i] == Trie1(Texts(view.model, keys)[i])
    {
      hide *;
      ValidFacts();
      var currentNode := Search(prefix);
      var trieElement := new StringList();
      assert trieElement !in Repr;
      var words;
      words, keys := WordsWithSamePrefix(currentNode, trieElement, ElementKey(prefix));
      Associate(Texts(view.model, keys), [], []);
      trie := Wrap(words, nrElements, trieElement.items);
      nrElements := 0;
      Open();
      Close();
      MakeValid();
    }

    /** An array of n elements, filled from the list if there is one. */
    static method Wrap(words: StringList?, n: nat, ghost items: seq<string>) returns (trie: array<Element>)
      requires n == |items| && (words == null ==> n == 0) && (words != null ==> words.items == items)
      ensures fresh(trie) && trie.Length == n
      ensures forall i :: 0 <= i < n ==> trie[i] == Trie1(items[i])
    {
      trie := new Element[n](_ => Trie1(""));
      if n > 0 && words != null {
        for i := 0 to |words.items|
          invariant words.items == items
          invariant forall j :: 0 <= j < i ==> trie[j] == Trie1(items[j])
        {
          trie[i] := Trie1(words.items[i]);
        }
      }
    }

    lemma ValidFacts()
      requires Valid()
      ensures Tree() && Consistent(view.model) && nrElements == 0
    {
    }
  }

  /** Allocate the child and link it in. */
  method Hang(node: TrieNode, c: nat, letter: char, ghost v: View, ghost p: Key, ghost repr: set<object>)
    returns (child: TrieNode)
    requires NodesOk(v) && LinksOk(v.nodes) && ContentOk(v.nodes, v.model) && Owned(v, repr)
    requires p in v.nodes && v.nodes[p] == node && c < ALPHABET_SIZE && p + [c] !in v.nodes
    modifies node.children
    ensures fresh(child) && fresh(child.children)
    ensures var g := Grown(v, p, c, child); NodesOk(g) && LinksOk(g.nodes) && ContentOk(g.nodes, g.model)
  {
    hide *;
    child := new TrieNode(letter, p + [c]);
    HomeIsOld(v, repr, child.children);
    SetChild(node, c, child, v, p);
    ContentGrows(v.nodes, v.model, p + [c], child);
    NodesGrow(v, p, c, child);
    GrownFacts(v, p, c, child);
  }

  lemma Single(v: View, root: TrieNode, repr: set<object>)
    requires v == View(map[[] := root], map[root.children := []], 0, Initial())
    requires root.path == [] && root.children.Length == ALPHABET_SIZE
    requires forall c :: 0 <= c < ALPHABET_SIZE ==> root.children[c] == null
    requires root.count == 0 && root.text == Some("") && !root.fullWord
    requires root in repr && root.children in repr
    ensures NodesOk(v) && Owned(v, repr) && LinksOk(v.nodes) && ContentOk(v.nodes, v.model)
    ensures [] in v.nodes && v.nodes[[]] == root && v.model == Initial() && Consistent(v.model)
  {
    forall p: Key, c: nat | p in v.nodes && c < ALPHABET_SIZE ensures LinkOk(v.nodes, p, c) {
      assert |p + [c]| == 1;
    }
  }

  lemma HomeIsOld(v: View, repr: set<object>, a: Children)
    requires Owned(v, repr)
    ensures a !in repr ==> a !in v.home
  {
  }

  lemma GrownFacts(v: View, p: Key, c: nat, child: TrieNode)
    ensures var g := Grown(v, p, c, child);
            && g.nodes == v.nodes[p + [c] := child] && g.model == v.model[p + [c] := EMPTY]
            && ([] in v.nodes && p + [c] !in v.nodes ==> [] in g.nodes && g.nodes[[]] == v.nodes[[]])
  {
  }

  lemma OwnedGrows(v: View, repr: set<object>, p: Key, c: nat, child: TrieNode)
    requires Owned(v, repr)
    ensures Owned(Grown(v, p, c, child), repr + {child, child.children})
  {
  }

  lemma ContentGrows(nodes: map<Key, TrieNode>, model: Index, k: Key, child: TrieNode)
    requires ContentOk(nodes, model) && child.count == 0 && child.text == None && !child.fullWord
    ensures ContentOk(nodes[k := child], model[k := EMPTY])
  {
  }

  lemma PathStep(m: Index, k: Key, i: nat)
    requires i < |k|
    ensures k[..i] + [k[i]] == k[..i + 1]
    ensures WithPath(m, k, i + 1) ==
            if k[..i + 1] in WithPath(m, k, i) then WithPath(m, k, i) else WithPath(m, k, i)[k[..i + 1] := EMPTY]
  {
  }

  lemma PathStart(m: Index, k: Key)
    ensures WithPath(m, k, 0) == m && k[..0] == []
  {
  }

  lemma LettersAreKey(e: Element)
    requires InAlphabet(e.s)
    ensures |e.ToCharArray()| == |ElementKey(e)|
  {
  }

  lemma LetterCode(e: Element, i: nat)
    requires InAlphabet(e.s) && i < |ElementKey(e)|
    ensures |e.ToCharArray()| == |ElementKey(e)|
    ensures Encode(e.ToCharArray()[i]) >= 1 && Encode(e.ToCharArray()[i]) - 1 == ElementKey(e)[i] < ALPHABET_SIZE
  {
    NormalFormInAlphabet(e);
  }

  lemma AddedIs(m: Index, k: Key, s: string)
    ensures var w := WithPath(m, k, |k|);
            var d := Lookup(w, k);
            && Lookup(m, k) == d
            && (k in w ==> d == w[k])
            && AddTo(m, k, s) ==
               w[k := Data(d.count + 1, Some(if d.text.None? then s else LexicographicalOrder(d.text.value, s)), true)]
  {
  }

  lemma AddConsistent(m: Index, k: Key, s: string)
    requires Consistent(m)
    ensures Consistent(AddTo(m, k, s))
  {
    var r := AddTo(m, k, s);
    forall q | q in r ensures (r[q].fullWord <==> r[q].count > 0) && (r[q].count > 0 ==> r[q].text.Some?) {
      if q != k {
        assert r[q] == Lookup(WithPath(m, k, |k|), q) == Lookup(m, q);
      }
    }
  }

  /** Write the fields of one node. */
  method SetContent(node: TrieNode, count: nat, text: Option<string>, fullWord: bool, ghost v: View, ghost k: Key)
    requires NodesOk(v) && k in v.nodes && v.nodes[k] == node && ContentOk(v.nodes, v.model)
    modifies node
    ensures ContentOk(v.nodes, v.model[k := Data(count, text, fullWord)])
  {
    node.text := text;
    node.count := count;
    node.fullWord := fullWord;
    forall p | p in v.nodes && p != k ensures v.nodes[p] != node {
      assert v.nodes[p].path == p;
    }
  }

  lemma ModelOnly(v: View, w: View, repr: set<object>)
    requires w == v.(model := w.model)
    ensures Owned(v, repr) ==> Owned(w, repr)
    ensures NodesOk(v) ==> NodesOk(w)
  {
  }

  lemma LookupCases(m: Index, k: Key)
    ensures Lookup(m, k) == if k in m then m[k] else Data(0, None, false)
  {
  }

  lemma RemovedIs(m: Index, k: Key)
    requires Consistent(m)
    ensures RemoveFrom(m, k) ==
            if k !in m then m
            else if m[k].count > 1 then m[k := Data(m[k].count - 1, m[k].text, m[k].fullWord)]
            else m[k := Data(0, Some(TILDE), false)]
  {
  }

  lemma RemoveConsistent(m: Index, k: Key)
    requires Consistent(m)
    ensures Consistent(RemoveFrom(m, k))
  {
  }

  // ---------------------------------------------------------------- listings

  lemma Associate(a: seq<string>, b: seq<string>, c: seq<string>)
    ensures a + b + c == a + (b + c)
    ensures a + [] == a == [] + a
  {
  }

  lemma NothingBelow(v: View, p: Key)
    requires NodesOk(v) && ContentOk(v.nodes, v.model) && p !in v.nodes
    ensures Listing(v.model, p, [])
  {
    forall k: Key | p <= k ensures k !in v.model {
      assert k[..|p|] == p;
      NoPrefixNoKey(v, k, |p|);
    }
  }

  lemma NoTexts(m: Index)
    ensures Stored(m, []) && Texts(m, []) == []
  {
  }

  lemma LiveText(m: Index, p: Key)
    requires Consistent(m) && p in m
    ensures Live(m, p) <==> m[p].count > 0
    ensures m[p].count > 0 ==> m[p].text.Some? && m[p].fullWord
    ensures m[p].count > 0 ==> Stored(m, [p]) && Texts(m, [p]) == [m[p].text.value]
  {
  }

  lemma DepthFacts(v: View, p: Key, c: nat)
    requires NodesOk(v) && p in v.nodes
    ensures |p| <= v.depth && |p + [c]| == |p| + 1
  {
  }

  lemma TextsJoin(m: Index, keys: seq<Key>, more: seq<Key>)
    requires Stored(m, keys) && Stored(m, more)
    ensures Stored(m, keys + more) && Texts(m, keys + more) == Texts(m, keys) + Texts(m, more)
  {
  }

  lemma CodesBelow(v: View)
    requires NodesOk(v) && ContentOk(v.nodes, v.model)
    ensures forall k, i :: k in v.model && 0 <= i < |k| ==> k[i] < ALPHABET_SIZE
  {
    forall k, i | k in v.model && 0 <= i < |k| ensures k[i] < ALPHABET_SIZE {
      CodeBelow(v, k, i);
    }
  }

  lemma {:induction false} CodeBelow(v: View, k: Key, i: nat)
    requires NodesOk(v) && k in v.nodes && i < |k|
    ensures k[i] < ALPHABET_SIZE
    decreases |k|
  {
    if i < |k| - 1 {
      CodeBelow(v, k[..|k| - 1], i);
    }
  }
}
