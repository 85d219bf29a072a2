/**
 What the trie of TrieFunctions.java means: keys, their order, and the index it
 maintains from keys to (count, representative).
 */
module Alphabet {

  /** The alphabet of Codifications.java in ASCII order; 0 stands for a foreign character. */
  function Encode(c: char): nat {
    if c == '!' then 1
    else if c == '(' then 2
    else if c == ')' then 3
    else if c == '-' then 4
    else if '0' <= c <= '9' then 5 + (c as nat - '0' as nat)
    else if c == '?' then 15
    else if 'A' <= c <= 'Z' then 16 + (c as nat - 'A' as nat)
    else if c == '_' then 42
    else if 'a' <= c <= 'z' then 43 + (c as nat - 'a' as nat)
    else 0
  }

  predicate InAlphabet(s: string) {
    forall i :: 0 <= i < |s| ==> Encode(s[i]) > 0
  }

  /** The code respects the order of characters. */
  lemma EncodeKeepsOrder(c: char, d: char)
    requires Encode(c) > 0 && Encode(d) > 0
    ensures Encode(c) <= 68 && (c < d <==> Encode(c) < Encode(d)) && (c == d <==> Encode(c) == Encode(d))
  {
  }

  const DIGITS := "0123456789"
  const CAPITALS := "ABCDEFGHIJKLMNOPQRSTUVWXYZ"
  const SMALLS := "abcdefghijklmnopqrstuvwxyz"
  /** The alphabet itself. */
  const LETTERS := "!()-" + DIGITS + "?" + CAPITALS + "_" + SMALLS

  lemma DigitsRun()
    ensures |DIGITS| == 10 && forall i :: 0 <= i < 10 ==> DIGITS[i] as int == '0' as int + i
  {
  }

  lemma CapitalsRun()
    ensures |CAPITALS| == 26 && forall i :: 0 <= i < 26 ==> CAPITALS[i] as int == 'A' as int + i
  {
  }

  lemma SmallsRun()
    ensures |SMALLS| == 26 && forall i :: 0 <= i < 26 ==> SMALLS[i] as int == 'a' as int + i
  {
  }

  /** Where each part of the alphabet stands. */
  lemma LettersAt(i: nat)
    requires i < |LETTERS|
    ensures |LETTERS| == 68
    ensures LETTERS[i] ==
            if i < 4 then "!()-"[i]
            else if i < 14 then ('0' as int + i - 4) as char
            else if i == 14 then '?'
            else if i < 41 then ('A' as int + i - 15) as char
            else if i == 41 then '_'
            else ('a' as int + i - 42) as char
  {
    hide DIGITS, CAPITALS, SMALLS;
    DigitsRun();
    CapitalsRun();
    SmallsRun();
  }

  /** A character's code is its place in the alphabet, counted from 1; any other character has code 0. */
  lemma EncodeIsPlace(c: char)
    ensures |LETTERS| == 68
    ensures Encode(c) > 0 <==> c in LETTERS
    ensures Encode(c) > 0 ==> Encode(c) <= 68 && LETTERS[Encode(c) - 1] == c
  {
    LettersCount();
    hide LETTERS, DIGITS, CAPITALS, SMALLS;
    if Encode(c) > 0 {
      LettersAt(Encode(c) - 1);
      assert LETTERS[Encode(c) - 1] == c;
    }
    if c in LETTERS {
      var i :| 0 <= i < |LETTERS| && LETTERS[i] == c;
      LettersAt(i);
    }
  }

  lemma LettersCount()
    ensures |LETTERS| == 68
  {
    hide DIGITS, CAPITALS, SMALLS;
    DigitsRun();
    CapitalsRun();
    SmallsRun();
  }

  /** Every number up to 68 is the code of a character. */
  lemma EncodeReachesAll(k: nat) returns (c: char)
    requires 1 <= k <= 68
    ensures Encode(c) == k
  {
    c := if k == 1 then '!'
         else if k == 2 then '('
         else if k == 3 then ')'
         else if k == 4 then '-'
         else if k < 15 then ('0' as nat + k - 5) as char
         else if k == 15 then '?'
         else if k < 42 then ('A' as nat + k - 16) as char
         else if k == 42 then '_'
         else ('a' as nat + k - 43) as char;
  }
}

module TrieModel {
  import opened Wrappers
  import opened Alphabet

  // --------------------------------------------------------------- elements

  /** The two kinds of word the trie stores, each with its own normal form. */
  datatype Element = Trie1(s: string) | Trie2(s: string) {
    function ToCharArray(): string {
      match this
      case Trie1(s) => ToLowerCase(s)
      case Trie2(s) => Strip(s)
    }
  }

  /** toLowerCase on ASCII. */
  function ToLowerCase(s: string): (r: string)
    ensures |r| == |s|
    ensures forall i :: 0 <= i < |s| ==> r[i] == LowerChar(s[i])
  {
    seq(|s|, i requires 0 <= i < |s| => LowerChar(s[i]))
  }

  function LowerChar(c: char): char {
    if 'A' <= c <= 'Z' then (c as int + 32) as char else c
  }

  /** Drops the characters - _ ( ). */
  function Strip(s: string): string {
    if s == [] then []
    else if s[0] in "-_()" then Strip(s[1..])
    else [s[0]] + Strip(s[1..])
  }

  // What the normal forms are, read off the words themselves.

  /** r is s with the capital letters A to Z made small. */
  predicate Lowered(s: string, r: string) {
    |r| == |s| && forall i :: 0 <= i < |s| ==> r[i] == if 'A' <= s[i] <= 'Z' then (s[i] as int + 32) as char else s[i]
  }

  /** at lists, in order, the places where s holds none of the characters - _ ( ). */
  predicate KeptPlaces(s: string, at: seq<nat>) {
    && (forall i, j :: 0 <= i < j < |at| ==> at[i] < at[j])
    && (forall j :: 0 <= j < |at| ==> at[j] < |s|)
    && (forall i: nat :: i < |s| ==> (i in at <==> s[i] != '-' && s[i] != '_' && s[i] != '(' && s[i] != ')'))
  }

  /** r reads s at the given places. */
  predicate ReadsAt(s: string, at: seq<nat>, r: string) {
    |r| == |at| && forall j :: 0 <= j < |at| ==> at[j] < |s| && r[j] == s[at[j]]
  }

  /** r is the normal form of e. */
  ghost predicate IsNormalForm(e: Element, r: string) {
    match e
    case Trie1(s) => Lowered(s, r)
    case Trie2(s) => exists at :: KeptPlaces(s, at) && ReadsAt(s, at, r)
  }

  /** The places one further on, behind a first place or not. */
  function Shifted(at: seq<nat>): (r: seq<nat>)
    ensures |r| == |at| && forall j :: 0 <= j < |at| ==> r[j] == at[j] + 1
  {
    seq(|at|, j requires 0 <= j < |at| => at[j] + 1)
  }

  lemma ShiftedHas(at: seq<nat>, i: nat)
    ensures i + 1 in Shifted(at) <==> i in at
    ensures 0 !in Shifted(at)
  {
    if i in at {
      var j :| 0 <= j < |at| && at[j] == i;
      assert Shifted(at)[j] == i + 1;
    }
  }

  /** The places kept behind a first character, one further on. */
  lemma KeptBehind(s: string, rest: seq<nat>)
    requires s != [] && KeptPlaces(s[1..], rest)
    ensures KeptPlaces(s, if s[0] != '-' && s[0] != '_' && s[0] != '(' && s[0] != ')' then [0] + Shifted(rest)
                          else Shifted(rest))
  {
    hide Shifted;
    var at := Shifted(rest);
    var all := [0] + at;
    assert forall j :: 0 <= j < |at| ==> all[j + 1] == at[j];
    forall i: nat | i < |s|
      ensures i in at <==> i > 0 && s[i] != '-' && s[i] != '_' && s[i] != '(' && s[i] != ')'
      ensures i in all <==> i == 0 || i in at
    {
      ShiftedHas(rest, if i > 0 then i - 1 else 0);
      assert i > 0 ==> s[i] == s[1..][i - 1];
      assert all[0] == 0;
    }
  }

  lemma ReadsBehind(s: string, rest: seq<nat>, r: string)
    requires s != [] && ReadsAt(s[1..], rest, r)
    ensures ReadsAt(s, Shifted(rest), r) && ReadsAt(s, [0] + Shifted(rest), [s[0]] + r)
  {
  }

  lemma {:induction false} StripKeeps(s: string) returns (at: seq<nat>)
    ensures KeptPlaces(s, at) && ReadsAt(s, at, Strip(s))
    decreases |s|
  {
    hide KeptPlaces, ReadsAt, Shifted;
    if s == [] {
      at := [];
      NothingKept();
    } else {
      var rest := StripKeeps(s[1..]);
      KeptBehind(s, rest);
      ReadsBehind(s, rest, Strip(s[1..]));
      var kept := s[0] != '-' && s[0] != '_' && s[0] != '(' && s[0] != ')';
      at := if kept then [0] + Shifted(rest) else Shifted(rest);
    }
  }

  lemma NothingKept()
    ensures KeptPlaces([], []) && ReadsAt([], [], [])
  {
  }

  /** The places are determined. */
  lemma {:induction false} KeptPlacesAreUnique(s: string, a: seq<nat>, b: seq<nat>, n: nat)
    requires KeptPlaces(s, a) && KeptPlaces(s, b) && n <= |a| && n <= |b|
    ensures a[..n] == b[..n]
    ensures n == |a| ==> n == |b|
    decreases n
  {
    if n == 0 {
    } else {
      KeptPlacesAreUnique(s, a, b, n - 1);
      SamePlace(s, a, b, n - 1);
      assert a[..n] == a[..n - 1] + [a[n - 1]] && b[..n] == b[..n - 1] + [b[n - 1]];
    }
    assert forall j :: 0 <= j < n ==> a[j] == a[..n][j] == b[..n][j] == b[j];
    if n < |b| {
      assert b[n] in b && b[n] in a;
      var j :| 0 <= j < |a| && a[j] == b[n];
      assert j >= n;
    }
  }

  lemma SamePlace(s: string, a: seq<nat>, b: seq<nat>, n: nat)
    requires KeptPlaces(s, a) && KeptPlaces(s, b) && n < |a| && n < |b| && a[..n] == b[..n]
    ensures a[n] == b[n]
  {
    NotBelow(s, a, b, n);
    NotBelow(s, b, a, n);
  }

  lemma NotBelow(s: string, a: seq<nat>, b: seq<nat>, n: nat)
    requires KeptPlaces(s, a) && KeptPlaces(s, b) && n < |a| && n < |b| && a[..n] == b[..n]
    ensures a[n] >= b[n]
  {
    assert forall i :: 0 <= i < n ==> a[i] == a[..n][i] == b[..n][i] == b[i];
    assert a[n] in a && a[n] in b;
    var j :| 0 <= j < |b| && b[j] == a[n];
    assert j >= n;
  }

  /** ToCharArray is the one normal form. */
  lemma NormalFormExactly(e: Element, r: string)
    ensures IsNormalForm(e, r) <==> r == e.ToCharArray()
  {
    match e
    case Trie1(s) =>
      if Lowered(s, r) {
        assert r == ToLowerCase(s);
      }
    case Trie2(s) =>
      var at := StripKeeps(s);
      if IsNormalForm(e, r) {
        var other :| KeptPlaces(s, other) && ReadsAt(s, other, r);
        var n := Min(|at|, |other|);
        KeptPlacesAreUnique(s, at, other, n);
        KeptPlacesAreUnique(s, other, at, n);
        assert at[..n] == at && other[..n] == other;
        assert r == Strip(s);
      }
  }

  /** Two elements share a node if and only if their normal forms agree. */
  lemma SameKeyExactly(e: Element, f: Element, r: string, q: string)
    requires InAlphabet(e.s) && InAlphabet(f.s) && IsNormalForm(e, r) && IsNormalForm(f, q)
    ensures ElementKey(e) == ElementKey(f) <==> r == q
  {
    hide IsNormalForm;
    NormalFormExactly(e, r);
    NormalFormExactly(f, q);
    NormalFormInAlphabet(e);
    NormalFormInAlphabet(f);
    if ElementKey(e) == ElementKey(f) {
      forall i | 0 <= i < |r| ensures r[i] == q[i] {
        assert KeyOf(r)[i] == KeyOf(q)[i];
        EncodeKeepsOrder(r[i], q[i]);
      }
    }
  }

  type Key = seq<nat>

  /** The path of a word: code minus one at each step. */
  function KeyOf(w: string): (k: Key)
    requires InAlphabet(w)
    ensures |k| == |w| && forall i :: 0 <= i < |k| ==> k[i] == Encode(w[i]) - 1 && k[i] < 68
  {
    seq(|w|, i requires 0 <= i < |w| => EncodeKeepsOrder(w[i], w[i]); Encode(w[i]) - 1)
  }

  lemma {:induction false} NormalFormInAlphabet(e: Element)
    requires InAlphabet(e.s)
    ensures InAlphabet(e.ToCharArray())
    decreases |e.s|
  {
    match e
    case Trie1(s) =>
    case Trie2(s) =>
      if s != [] {
        NormalFormInAlphabet(Trie2(s[1..]));
        assert Strip(s[1..]) == Trie2(s[1..]).ToCharArray();
      }
  }

  function ElementKey(e: Element): Key
    requires InAlphabet(e.s)
  {
    NormalFormInAlphabet(e);
    KeyOf(e.ToCharArray())
  }

  // ------------------------------------------------------------------ orders

  /** Lexicographic order; a proper prefix comes first. */
  predicate Before(a: seq<nat>, b: seq<nat>) {
    b != [] && (a == [] || a[0] < b[0] || (a[0] == b[0] && Before(a[1..], b[1..])))
  }

  lemma {:induction false} BeforeTrans(a: seq<nat>, b: seq<nat>, c: seq<nat>)
    requires Before(a, b) && Before(b, c)
    ensures Before(a, c)
    decreases |a|
  {
    if a != [] && a[0] == b[0] == c[0] {
      BeforeTrans(a[1..], b[1..], c[1..]);
    }
  }

  lemma {:induction false} BeforeIsTotal(a: seq<nat>, b: seq<nat>)
    ensures Before(a, b) || a == b || Before(b, a)
    ensures !(Before(a, b) && Before(b, a)) && !Before(a, a)
    decreases |a|
  {
    if a == [] {
    } else {
      BeforeIsTotal(a[1..], if b == [] then b else b[1..]);
      if b != [] && a[0] == b[0] {
        assert a == [a[0]] + a[1..] && b == [b[0]] + b[1..];
      }
    }
    BeforeIrreflexive(a);
  }

  lemma {:induction false} BeforeIrreflexive(a: seq<nat>)
    ensures !Before(a, a)
  {
    if a == [] {
    } else {
      BeforeIrreflexive(a[1..]);
    }
  }

  /** A common prefix does not matter. */
  lemma {:induction false} BeforeAfterPrefix(p: seq<nat>, a: seq<nat>, b: seq<nat>)
    ensures Before(p + a, p + b) <==> Before(a, b)
    decreases |p|
  {
    if p == [] {
      assert p + a == a && p + b == b;
    } else {
      assert (p + a)[1..] == p[1..] + a && (p + b)[1..] == p[1..] + b;
      BeforeAfterPrefix(p[1..], a, b);
    }
  }

  function Codes(s: string): (k: seq<nat>)
    ensures |k| == |s| && forall i :: 0 <= i < |s| ==> k[i] == s[i] as nat
  {
    seq(|s|, i requires 0 <= i < |s| => s[i] as nat)
  }

  /** The order of String.compareTo. */
  predicate Less(a: string, b: string) {
    Before(Codes(a), Codes(b))
  }

  /** Because the code keeps the order of characters, paths compare as words do. */
  lemma {:induction false} KeyOrderIsWordOrder(a: string, b: string)
    requires InAlphabet(a) && InAlphabet(b)
    ensures Before(KeyOf(a), KeyOf(b)) <==> Less(a, b)
    decreases |a|
  {
    if a == [] || b == [] {
    } else {
      EncodeKeepsOrder(a[0], b[0]);
      KeyOrderIsWordOrder(a[1..], b[1..]);
      assert KeyOf(a)[1..] == KeyOf(a[1..]) && KeyOf(b)[1..] == KeyOf(b[1..]);
      assert Codes(a)[1..] == Codes(a[1..]) && Codes(b)[1..] == Codes(b[1..]);
    }
  }

  lemma CodesAreFaithful(a: string, b: string)
    ensures Codes(a) == Codes(b) <==> a == b
  {
    if Codes(a) == Codes(b) {
      assert forall i :: 0 <= i < |a| ==> Codes(a)[i] == Codes(b)[i];
    }
  }

  /** lexicographicalOrder */
  function LexicographicalOrder(oldS: string, newS: string): string {
    if Less(oldS, newS) then oldS
    else if Less(newS, oldS) then newS
    else oldS
  }

  lemma LessIsTotal(a: string, b: string)
    ensures Less(a, b) || a == b || Less(b, a)
    ensures !(Less(a, b) && Less(b, a))
  {
    CodesAreFaithful(a, b);
    BeforeIsTotal(Codes(a), Codes(b));
  }

  /** The smaller of the two, whichever was there first. */
  lemma LexicographicalOrderIsLeast(a: string, b: string)
    ensures var r := LexicographicalOrder(a, b);
            (r == a || r == b) && !Less(a, r) && !Less(b, r) && r == LexicographicalOrder(b, a)
  {
    LessIsTotal(a, b);
    BeforeIrreflexive(Codes(a));
    BeforeIrreflexive(Codes(b));
  }

  // ------------------------------------------------------------- the index

  /** What one node stores. */
  datatype Data = Data(count: nat, text: Option<string>, fullWord: bool)

  const EMPTY := Data(0, None, false)
  const TILDE := "~"

  /** Every node of the trie by its path. */
  type Index = map<Key, Data>

  function Lookup(m: Index, k: Key): Data {
    if k in m then m[k] else EMPTY
  }

  function Initial(): Index {
    map[[] := Data(0, Some(""), false)]
  }

  /** m with nodes on the first i steps of the path to k. */
  function WithPath(m: Index, k: Key, i: nat): (r: Index)
    requires i <= |k|
    ensures forall j :: 1 <= j <= i ==> k[..j] in r
    ensures forall q :: q in m ==> q in r
    ensures forall q :: Lookup(r, q) == Lookup(m, q)
    decreases i
  {
    if i == 0 then m
    else
      var r := WithPath(m, k, i - 1);
      if k[..i] in r then r else r[k[..i] := EMPTY]
  }

  function Added(d: Data, s: string): Data {
    Data(d.count + 1, Some(if d.text.None? then s else LexicographicalOrder(d.text.value, s)), true)
  }

  function Removed(d: Data): Data {
    if d.count > 1 then d.(count := d.count - 1) else Data(0, Some(TILDE), false)
  }

  function AddTo(m: Index, k: Key, s: string): Index {
    WithPath(m, k, |k|)[k := Added(Lookup(m, k), s)]
  }

  function RemoveFrom(m: Index, k: Key): Index {
    if k in m then m[k := Removed(m[k])] else m
  }

  /** fullWord marks exactly the counted nodes, and those have a text. */
  predicate Consistent(m: Index) {
    forall k :: k in m ==> (m[k].fullWord <==> m[k].count > 0) && (m[k].count > 0 ==> m[k].text.Some?)
  }

  // -------------------------------------------------------------------- runs

  datatype Op = Add(e: Element) | Remove(e: Element)

  predicate Words(ops: seq<Op>) {
    forall i :: 0 <= i < |ops| ==> InAlphabet(ops[i].e.s)
  }

  function Apply(m: Index, op: Op): Index
    requires InAlphabet(op.e.s)
  {
    match op
    case Add(e) => AddTo(m, ElementKey(e), e.s)
    case Remove(e) => RemoveFrom(m, ElementKey(e))
  }

  function Run(ops: seq<Op>): Index
    requires Words(ops)
    decreases |ops|
  {
    if ops == [] then Initial()
    else Apply(Run(ops[..|ops| - 1]), ops[|ops| - 1])
  }

  /** Additions minus effective removals of key k. */
  function CountOf(ops: seq<Op>, k: Key): nat
    requires Words(ops)
    decreases |ops|
  {
    if ops == [] then 0
    else
      var c, last := CountOf(ops[..|ops| - 1], k), ops[|ops| - 1];
      if ElementKey(last.e) != k then c
      else if last.Add? then c + 1
      else if c > 0 then c - 1
      else 0
  }

  /** The original words added under key k since its count was last 0. */
  function Since(ops: seq<Op>, k: Key): seq<string>
    requires Words(ops)
    decreases |ops|
  {
    if ops == [] then []
    else
      var before, last := ops[..|ops| - 1], ops[|ops| - 1];
      if ElementKey(last.e) != k then Since(before, k)
      else if last.Add? then Since(before, k) + [last.e.s]
      else if CountOf(ops, k) == 0 then []
      else Since(before, k)
  }

  predicate IsLeast(w: string, ws: seq<string>) {
    w in ws && forall i :: 0 <= i < |ws| ==> !Less(ws[i], w)
  }

  /** The node's text, given the words added since the count was last 0. */
  predicate TextOk(d: Data, ws: seq<string>) {
    if d.count > 0 then d.text.Some? && IsLeast(d.text.value, ws)
    else ws == [] && (d.text == None || d.text == Some(TILDE))
  }

  lemma TildeIsLast(s: string)
    requires InAlphabet(s)
    ensures Less(s, TILDE)
  {
    assert Codes(TILDE)[0] == '~' as nat;
    if s != "" {
      assert Encode(s[0]) > 0;
      assert Codes(s)[0] == s[0] as nat < '~' as nat;
    }
  }

  lemma LeastOfMore(w: string, ws: seq<string>, s: string)
    requires IsLeast(w, ws)
    ensures IsLeast(LexicographicalOrder(w, s), ws + [s])
  {
    var r := LexicographicalOrder(w, s);
    var all := ws + [s];
    assert all[|ws|] == s;
    var k :| 0 <= k < |ws| && ws[k] == w;
    assert all[k] == w;
    forall i | 0 <= i < |all| ensures !Less(all[i], r) {
      BeforeIsTotal(Codes(w), Codes(s));
      if i < |ws| {
        assert !Less(ws[i], w);
        BeforeIsTotal(Codes(ws[i]), Codes(w));
        if Less(s, w) && Less(ws[i], s) {
          BeforeTrans(Codes(ws[i]), Codes(s), Codes(w));
        }
      } else {
        BeforeIsTotal(Codes(s), Codes(s));
      }
    }
  }

  lemma AddedOk(d: Data, ws: seq<string>, s: string)
    requires TextOk(d, ws) && InAlphabet(s)
    ensures TextOk(Added(d, s), ws + [s])
  {
    if d.count > 0 {
      LeastOfMore(d.text.value, ws, s);
    } else {
      TildeIsLast(s);
      BeforeIsTotal(Codes(s), Codes(TILDE));
      BeforeIsTotal(Codes(s), Codes(s));
      assert (ws + [s])[0] == s;
    }
  }

  // -------------------------------------------------- the index after any run

  lemma Latest(ops: seq<Op>, k: Key)
    requires Words(ops) && ops != []
    ensures var before, last := ops[..|ops| - 1], ops[|ops| - 1];
            && Words(before)
            && Lookup(Run(ops), k) ==
               (var d := Lookup(Run(before), k);
                if ElementKey(last.e) != k then d
                else if last.Add? then Added(d, last.e.s)
                else if k in Run(before) then Removed(d) else d)
  {
    var before, last := ops[..|ops| - 1], ops[|ops| - 1];
    var q := ElementKey(last.e);
    assert Run(ops) == Apply(Run(before), last);
    if last.Add? {
      assert Lookup(AddTo(Run(before), q, last.e.s), k) ==
             if k == q then Added(Lookup(Run(before), q), last.e.s) else Lookup(WithPath(Run(before), q, |q|), k);
    }
  }

  /** The trie agrees with the history: exact counts and marks, for every key. */
  lemma {:induction false} CountsAreExact(ops: seq<Op>, k: Key)
    requires Words(ops)
    ensures var d := Lookup(Run(ops), k);
            d.count == CountOf(ops, k) && (d.fullWord <==> d.count > 0)
    decreases |ops|
  {
    hide Lookup, Run, Apply, ElementKey;
    if ops == [] {
      InitialFacts(k);
    } else {
      CountsAreExact(ops[..|ops| - 1], k);
      Latest(ops, k);
      AbsentIsEmpty(Run(ops[..|ops| - 1]), k);
    }
  }

  lemma InitialFacts(k: Key)
    ensures Run([]) == Initial()
    ensures Lookup(Run([]), k) == if k == [] then Data(0, Some(""), false) else EMPTY
  {
  }

  lemma AbsentIsEmpty(m: Index, k: Key)
    ensures k !in m ==> Lookup(m, k) == EMPTY
  {
  }

  /** For every key but the empty one, the text is the least word added since the count was last 0. */
  lemma {:induction false} TextIsLeast(ops: seq<Op>, k: Key)
    requires Words(ops) && k != []
    ensures TextOk(Lookup(Run(ops), k), Since(ops, k))
    decreases |ops|
  {
    hide Lookup, Run, Apply, ElementKey, IsLeast;
    if ops == [] {
      InitialFacts(k);
    } else {
      var before, last := ops[..|ops| - 1], ops[|ops| - 1];
      var d := Lookup(Run(before), k);
      TextIsLeast(before, k);
      CountsAreExact(before, k);
      CountsAreExact(ops, k);
      Latest(ops, k);
      AbsentIsEmpty(Run(before), k);
      if ElementKey(last.e) == k && last.Add? {
        AddedOk(d, Since(before, k), last.e.s);
      }
    }
  }

  // ------------------------------------------------------ the empty key

  /** Some removal of the empty key has left its count at 0. */
  predicate RootReset(ops: seq<Op>)
    requires Words(ops)
    decreases |ops|
  {
    ops != [] &&
    (RootReset(ops[..|ops| - 1]) ||
     (ops[|ops| - 1].Remove? && ElementKey(ops[|ops| - 1].e) == [] && CountOf(ops, []) == 0))
  }

  /** The root starts with the text "", which nothing replaces until the root is reset. */
  lemma {:induction false} RootText(ops: seq<Op>)
    requires Words(ops)
    ensures var d := Lookup(Run(ops), []);
            if RootReset(ops) then TextOk(d, Since(ops, []))
            else d.text == Some("") && (d.count == 0 ==> Since(ops, []) == []) && |Since(ops, [])| >= d.count
    decreases |ops|
  {
    hide Lookup, Run, Apply, ElementKey, IsLeast;
    if ops == [] {
      InitialFacts([]);
    } else {
      var before, last := ops[..|ops| - 1], ops[|ops| - 1];
      RootText(before);
      CountsAreExact(before, []);
      CountsAreExact(ops, []);
      Latest(ops, []);
      RootIsThere(before);
      if ElementKey(last.e) == [] && last.Add? {
        if RootReset(before) {
          AddedOk(Lookup(Run(before), []), Since(before, []), last.e.s);
        } else {
          EmptyIsFirst(last.e.s);
        }
      }
    }
  }

  lemma EmptyIsFirst(s: string)
    ensures LexicographicalOrder("", s) == ""
  {
    BeforeIsTotal(Codes(""), Codes(s));
    if !Less("", s) {
      assert Codes(s) == [];
    }
  }

  lemma {:induction false} RootIsThere(ops: seq<Op>)
    requires Words(ops)
    ensures [] in Run(ops)
    decreases |ops|
  {
    if ops == [] {
    } else {
      RootIsThere(ops[..|ops| - 1]);
    }
  }

  /** Exactly when the empty key's text is the least word: the root was reset, or the least word is "". */
  lemma RootTextIsLeast(ops: seq<Op>)
    requires Words(ops) && CountOf(ops, []) > 0
    ensures var d := Lookup(Run(ops), []);
            d.text.Some? && (IsLeast(d.text.value, Since(ops, [])) <==> RootReset(ops) || "" in Since(ops, []))
  {
    RootText(ops);
    CountsAreExact(ops, []);
    forall s: string ensures !Less(s, "") {
      assert Codes("") == [];
    }
    hide Lookup, Run, Apply, ElementKey, Since, CountOf, RootReset, Less;
  }

  /** Such a run: add the word "-", whose Trie2 key is empty. The text stays "". */
  lemma RootTextCanBeWrong()
    ensures var ops := [Add(Trie2("-"))];
            && Words(ops) && CountOf(ops, []) == 1
            && Lookup(Run(ops), []).text == Some("") && !IsLeast("", Since(ops, []))
  {
    var ops := [Add(Trie2("-"))];
    assert Strip("-") == Strip([]);
    assert Trie2("-").ToCharArray() == [];
    assert ElementKey(Trie2("-")) == [];
    assert ops[..0] == [];
    assert Since(ops, []) == Since([], []) + ["-"];
    RootText(ops);
  }

  // ---------------------------------------------------------------- listings

  predicate Live(m: Index, k: Key) {
    k in m && m[k].count > 0
  }

  predicate Increasing(keys: seq<Key>) {
    forall i, j :: 0 <= i < j < |keys| ==> Before(keys[i], keys[j])
  }

  /** keys are the live keys that extend p, each once, in increasing order. */
  ghost predicate Listing(m: Index, p: Key, keys: seq<Key>) {
    Increasing(keys) && forall k: Key :: k in keys <==> Live(m, k) && p <= k
  }

  /** As far as the children below code c are concerned. */
  ghost predicate ListingUpTo(m: Index, p: Key, c: nat, keys: seq<Key>) {
    Increasing(keys) && forall k: Key :: k in keys <==> Live(m, k) && p <= k && (k == p || k[|p|] < c)
  }

  /** All keys have a text. */
  predicate Stored(m: Index, keys: seq<Key>) {
    forall i :: 0 <= i < |keys| ==> keys[i] in m && m[keys[i]].text.Some?
  }

  /** The texts stored at the keys. */
  function Texts(m: Index, keys: seq<Key>): (r: seq<string>)
    requires Stored(m, keys)
    ensures |r| == |keys| && forall i :: 0 <= i < |keys| ==> r[i] == m[keys[i]].text.value
  {
    seq(|keys|, i requires 0 <= i < |keys| => m[keys[i]].text.value)
  }

  /** Everything below child c comes after p and after everything below smaller children. */
  lemma ChildrenInOrder(p: Key, c: nat, a: Key, b: Key)
    requires p <= a && p + [c] <= b && (a == p || a[|p|] < c)
    ensures Before(a, b)
  {
    var a', b' := a[|p|..], b[|p|..];
    assert a == p + a' && b == p + b';
    assert b'[0] == b[|p|] == (p + [c])[|p|] == c;
    if a != p {
      assert a'[0] == a[|p|];
    }
    BeforeAfterPrefix(p, a', b');
  }

  lemma JoinIncreasing(keys: seq<Key>, more: seq<Key>)
    requires Increasing(keys) && Increasing(more)
    requires forall a, b :: a in keys && b in more ==> Before(a, b)
    ensures Increasing(keys + more)
  {
    var all := keys + more;
    forall i, j | 0 <= i < j < |all| ensures Before(all[i], all[j]) {
      if i < |keys| <= j {
        assert keys[i] in keys && more[j - |keys|] in more;
      }
    }
  }

  lemma ExtendsChild(p: Key, c: nat, k: Key)
    ensures p + [c] <= k <==> p <= k && k != p && k[|p|] == c
  {
    if p <= k && k != p {
      assert |k| > |p|;
      if k[|p|] == c {
        assert k[..|p| + 1] == p + [c];
      }
    }
    if p + [c] <= k {
      assert k[|p|] == (p + [c])[|p|];
      assert k[..|p|] == (p + [c])[..|p|] == p;
    }
  }

  /** One more child listed. */
  lemma NextChild(m: Index, p: Key, c: nat, keys: seq<Key>, more: seq<Key>)
    requires ListingUpTo(m, p, c, keys) && Listing(m, p + [c], more)
    ensures ListingUpTo(m, p, c + 1, keys + more)
  {
    forall a, b | a in keys && b in more ensures Before(a, b) {
      ChildrenInOrder(p, c, a, b);
    }
    JoinIncreasing(keys, more);
    forall k: Key ensures k in keys + more <==> Live(m, k) && p <= k && (k == p || k[|p|] < c + 1) {
      ExtendsChild(p, c, k);
    }
  }

  /** The node itself, before any child. */
  lemma OwnKey(m: Index, p: Key)
    ensures ListingUpTo(m, p, 0, if Live(m, p) then [p] else [])
  {
    var keys := if Live(m, p) then [p] else [];
    assert Increasing(keys);
    forall k: Key ensures k in keys <==> Live(m, k) && p <= k && (k == p || k[|p|] < 0) {
      if p <= k && k != p {
        ProperExtension(p, k);
      }
    }
  }

  lemma ProperExtension(p: Key, k: Key)
    requires p <= k && k != p
    ensures |k| > |p|
  {
  }

  /** All children listed. */
  lemma AllChildren(m: Index, p: Key, c: nat, keys: seq<Key>)
    requires ListingUpTo(m, p, c, keys)
    requires forall k, i :: k in m && 0 <= i < |k| ==> k[i] < c
    ensures Listing(m, p, keys)
  {
  }

  lemma FirstIsApart(keys: seq<Key>)
    requires Increasing(keys) && keys != []
    ensures Increasing(keys[1..])
    ensures forall k :: k in keys[1..] <==> k in keys && k != keys[0]
    ensures forall k :: k in keys ==> k == keys[0] || Before(keys[0], k)
  {
    hide Before;
    assert keys == [keys[0]] + keys[1..];
    forall k | k in keys[1..] ensures k != keys[0] {
      var i :| 0 <= i < |keys[1..]| && keys[1..][i] == k;
      assert Before(keys[0], keys[i + 1]);
      BeforeIrreflexive(k);
    }
  }

  lemma {:induction false} SameKeys(a: seq<Key>, b: seq<Key>)
    requires Increasing(a) && Increasing(b) && forall k :: k in a <==> k in b
    ensures a == b
    decreases |a|
  {
    hide Increasing, Before;
    if a == [] {
      assert forall j :: 0 <= j < |b| ==> b[j] in b;
    } else {
      assert a[0] in a && a[0] in b;
      FirstIsApart(a);
      FirstIsApart(b);
      assert b[0] in b && b[0] in a;
      BeforeIsTotal(a[0], b[0]);
      SameKeys(a[1..], b[1..]);
      assert a == [a[0]] + a[1..] && b == [b[0]] + b[1..];
    }
  }

  /** There is only one listing, so the method's answer is determined. */
  lemma ListingIsUnique(m: Index, p: Key, a: seq<Key>, b: seq<Key>)
    requires Listing(m, p, a) && Listing(m, p, b)
    ensures a == b
  {
    hide Increasing, Live;
    SameKeys(a, b);
  }

  /**
   A listing read against the history: exactly the keys below p that were added more
   often than removed, each with the least word added since its count was last 0.
   */
  lemma ListingOfRun(ops: seq<Op>, p: Key, keys: seq<Key>)
    requires Words(ops) && Listing(Run(ops), p, keys)
    ensures Increasing(keys) && Stored(Run(ops), keys)
    ensures forall k :: k in keys <==> CountOf(ops, k) > 0 && p <= k
    ensures forall i :: 0 <= i < |keys| && keys[i] != [] ==>
              IsLeast(Texts(Run(ops), keys)[i], Since(ops, keys[i]))
  {
    hide Increasing, IsLeast, Words;
    var m := Run(ops);
    forall k: Key ensures Live(m, k) <==> CountOf(ops, k) > 0 {
      LiveCounts(ops, k);
    }
    forall i | 0 <= i < |keys|
      ensures keys[i] in m && m[keys[i]].text.Some?
      ensures keys[i] != [] ==> IsLeast(m[keys[i]].text.value, Since(ops, keys[i]))
    {
      assert keys[i] in keys;
      LiveCounts(ops, keys[i]);
    }
  }

  lemma LiveCounts(ops: seq<Op>, k: Key)
    requires Words(ops)
    ensures Live(Run(ops), k) <==> CountOf(ops, k) > 0
    ensures Live(Run(ops), k) ==> Run(ops)[k].text.Some?
    ensures Live(Run(ops), k) && k != [] ==> IsLeast(Run(ops)[k].text.value, Since(ops, k))
  {
    hide IsLeast, Words, Run, Since, CountOf;
    CountsAreExact(ops, k);
    AbsentIsEmpty(Run(ops), k);
    if k != [] {
      TextIsLeast(ops, k);
    } else if CountOf(ops, k) > 0 {
      RootTextIsLeast(ops);
    }
  }
}
