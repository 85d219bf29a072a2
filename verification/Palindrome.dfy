/**
 Fewest adjacent exchanges that turn a string into a palindrome, by the greedy
 loop of p1.py: pair the first letter with its last occurrence, or send a
 letter without a partner to the middle.
 */
module Palindrome {

  // ---------------------------------------------------------------- vocabulary

  /** Position of the last occurrence of c before position k, or -1. */
  function LastBefore(s: string, c: char, k: nat): (x: int)
    requires k <= |s|
    ensures -1 <= x < k
    ensures x >= 0 ==> s[x] == c
    ensures forall i :: x < i < k ==> s[i] != c
  {
    if k == 0 then -1
    else if s[k - 1] == c then k - 1
    else LastBefore(s, c, k - 1)
  }

  /** Position of the last occurrence of c, or -1. */
  function RFind(s: string, c: char): (x: int)
    ensures -1 <= x < |s|
    ensures x >= 0 ==> s[x] == c
    ensures forall i :: x < i < |s| ==> s[i] != c
  {
    LastBefore(s, c, |s|)
  }

  function Drop(s: string, i: nat): string
    requires i < |s|
  {
    s[..i] + s[i + 1..]
  }

  function Swap(s: string, i: nat): string
    requires i + 1 < |s|
  {
    s[i := s[i + 1]][i + 1 := s[i]]
  }

  ghost predicate IsPalindrome(s: string) {
    forall i :: 0 <= i < |s| ==> s[i] == s[|s| - 1 - i]
  }

  /** t can be obtained from s by exactly n exchanges of neighbours. */
  ghost predicate Reach(s: string, t: string, n: nat)
    decreases n
  {
    if n == 0 then s == t
    else exists i: nat :: i + 1 < |s| && Reach(Swap(s, i), t, n - 1)
  }

  /** The letters that occur an odd number of times. */
  ghost function OddLetters(m: multiset<char>): set<char> {
    set c | c in m && m[c] % 2 == 1
  }

  // ------------------------------------------------- what the loop accumulates

  function Cost(s: string): nat {
    if s == [] then 0
    else
      var x := RFind(s, s[0]);
      if x != 0 then |s| - 1 - x + Cost(Drop(s[1..], x - 1))
      else |s| / 2 + Cost(s[1..])
  }

  function Lone(s: string): nat {
    if s == [] then 0
    else
      var x := RFind(s, s[0]);
      if x != 0 then Lone(Drop(s[1..], x - 1))
      else 1 + Lone(s[1..])
  }

  /** One round of the loop. */
  lemma LoopStep(s: string)
    ensures s == [] ==> Cost(s) == 0 && Lone(s) == 0
    ensures s != [] ==>
              var x := RFind(s, s[0]);
              if x != 0 then
                && x > 0
                && |Drop(s[1..], x - 1)| == |s| - 2
                && Cost(s) == |s| - 1 - x + Cost(Drop(s[1..], x - 1))
                && Lone(s) == Lone(Drop(s[1..], x - 1))
              else
                && Cost(s) == |s| / 2 + Cost(s[1..])
                && Lone(s) == 1 + Lone(s[1..])
  {
  }

  // ---------------------------------------------- an exchange moves Cost by <= 1

  lemma RFindUnique(s: string, c: char, x: int)
    requires -1 <= x < |s|
    requires x >= 0 ==> s[x] == c
    requires forall i :: x < i < |s| ==> s[i] != c
    ensures RFind(s, c) == x
  {
    var y := RFind(s, c);
    if x >= 0 { assert s[x] == c; }
    if y >= 0 { assert s[y] == c; }
  }

  lemma CostCons(c: char, w: string)
    ensures var p := RFind(w, c);
            Cost([c] + w) == if p >= 0 then |w| - 1 - p + Cost(Drop(w, p)) else (|w| + 1) / 2 + Cost(w)
  {
    hide *;
    var s := [c] + w;
    var p := RFind(w, c);
    assert s[1..] == w;
    RFindUnique(s, c, p + 1);
    LoopStep(s);
  }

  lemma RFindAfterDrop(u: string, d: char, p: nat)
    requires p < |u| && u[p] != d
    ensures var q := RFind(u, d);
            RFind(Drop(u, p), d) == if q > p then q - 1 else q
  {
    var q := RFind(u, d);
    RFindUnique(Drop(u, p), d, if q > p then q - 1 else q);
  }

  lemma DropSecond(d: char, u: string, p: nat)
    requires p < |u|
    ensures Drop([d] + u, p + 1) == [d] + Drop(u, p)
    ensures |Drop(u, p)| == |u| - 1
  {
  }

  lemma RFindCons(d: char, u: string, c: char)
    requires c != d
    ensures RFind([d] + u, c) == var p := RFind(u, c); if p >= 0 then p + 1 else -1
  {
    var p := RFind(u, c);
    RFindUnique([d] + u, c, if p >= 0 then p + 1 else -1);
  }

  lemma DropsCommute(u: string, p: nat, q: nat)
    requires p < |u| && q < |u| && p != q
    ensures Drop(Drop(u, p), if q > p then q - 1 else q) == Drop(Drop(u, q), if p > q then p - 1 else p)
  {
  }

  /** Two different leading letters, the first without a partner. */
  lemma PeelLone(c: char, d: char, u: string)
    requires c != d && RFind(u, c) < 0
    ensures var q := RFind(u, d);
            Cost([c, d] + u) == (|u| + 2) / 2 +
              if q >= 0 then |u| - 1 - q + Cost(Drop(u, q)) else (|u| + 1) / 2 + Cost(u)
  {
    hide *;
    assert [c, d] + u == [c] + ([d] + u);
    CostCons(c, [d] + u);
    RFindCons(d, u, c);
    CostCons(d, u);
  }

  /** Two different leading letters, the first with a partner at p. */
  lemma PeelPaired(c: char, d: char, u: string)
    requires c != d && RFind(u, c) >= 0
    ensures var p, q := RFind(u, c), RFind(u, d);
            var q' := if q > p then q - 1 else q;
            Cost([c, d] + u) == |u| - 1 - p +
              if q >= 0 then |u| - 2 - q' + Cost(Drop(Drop(u, p), q')) else |u| / 2 + Cost(Drop(u, p))
  {
    hide *;
    assert [c, d] + u == [c] + ([d] + u);
    CostCons(c, [d] + u);
    RFindCons(d, u, c);
    var p := RFind(u, c);
    DropSecond(d, u, p);
    CostCons(d, Drop(u, p));
    RFindAfterDrop(u, d, p);
  }

  lemma HeadSwap(c: char, d: char, u: string)
    requires c != d
    ensures -1 <= Cost([c, d] + u) - Cost([d, c] + u) <= 1
  {
    hide *;
    var p, q := RFind(u, c), RFind(u, d);
    if p >= 0 { PeelPaired(c, d, u); } else { PeelLone(c, d, u); }
    if q >= 0 { PeelPaired(d, c, u); } else { PeelLone(d, c, u); }
    if p >= 0 && q >= 0 {
      DropsCommute(u, p, q);
    }
  }

  // Where the exchange happens, relative to the pair that is taken out.

  lemma SwapParts(s: string, i: nat)
    requires 1 <= i && i + 1 < |s|
    ensures |Swap(s, i)| == |s| && Swap(s, i)[0] == s[0]
    ensures Swap(s, i)[1..] == Swap(s[1..], i - 1)
    ensures s[i] == s[i + 1] ==> Swap(s, i) == s
  {
  }

  lemma SwapLength(w: string, i: nat)
    requires i + 1 < |w|
    ensures |Swap(w, i)| == |w|
  {
  }

  lemma SwapAtPartner(w: string, x: nat)
    requires x + 1 < |w|
    ensures Drop(Swap(w, x), x + 1) == Drop(w, x)
    ensures Drop(Swap(w, x), x) == Drop(w, x + 1)
  {
  }

  lemma SwapAwayFromPartner(w: string, x: nat, i: nat)
    requires x < |w| && i + 1 < |w| && i != x && i + 1 != x
    ensures var j := if i < x then i else i - 1;
            j + 1 < |w| - 1 && Drop(Swap(w, i), x) == Swap(Drop(w, x), j)
  {
  }

  /** How an exchange that keeps the first letter moves that letter's last occurrence. */
  lemma SwapMovesPartner(w: string, c: char, i: nat)
    requires i + 1 < |w| && w[i] != w[i + 1]
    ensures var x := RFind(w, c);
            RFind(Swap(w, i), c) == if x == i then x + 1 else if x == i + 1 then x - 1 else x
  {
    var x := RFind(w, c);
    RFindUnique(Swap(w, i), c, if x == i then x + 1 else if x == i + 1 then x - 1 else x);
  }

  /** The heart of the lower bound: the greedy count is 1-Lipschitz. */
  lemma {:induction false} OneSwap(s: string, i: nat)
    requires i + 1 < |s|
    ensures -1 <= Cost(Swap(s, i)) - Cost(s) <= 1
    decreases |s|, 0
  {
    hide RFind, Cost, Drop;
    var c := s[0];
    if i == 0 {
      var d, u := s[1], s[2..];
      assert s == [c, d] + u && Swap(s, 0) == [d, c] + u;
      if c != d {
        HeadSwap(c, d, u);
      }
    } else if s[i] == s[i + 1] {
      SwapParts(s, i);
    } else {
      hide Swap;
      var w := s[1..];
      SwapParts(s, i);
      assert s == [c] + w && Swap(s, i) == [c] + Swap(w, i - 1);
      TailSwap(c, w, i - 1);
    }
  }

  lemma {:induction false} TailSwap(c: char, w: string, i: nat)
    requires i + 1 < |w| && w[i] != w[i + 1]
    ensures -1 <= Cost([c] + Swap(w, i)) - Cost([c] + w) <= 1
    decreases |w|, 1
  {
    hide RFind, Cost, Drop, Swap;
    var x := RFind(w, c);
    SwapLength(w, i);
    CostCons(c, w);
    CostCons(c, Swap(w, i));
    SwapMovesPartner(w, c, i);
    if x < 0 {
      OneSwap(w, i);
    } else if x == i || x == i + 1 {
      SwapAtPartner(w, i);
    } else {
      SwapAwayFromPartner(w, x, i);
      assert |Drop(w, x)| == |w| - 1 by { DropSecond(c, w, x); }
      OneSwap(Drop(w, x), if i < x then i else i - 1);
    }
  }

  lemma {:induction false} PalindromeIsFree(p: string)
    requires IsPalindrome(p)
    ensures Cost(p) == 0 && Lone(p) <= 1
    decreases |p|
  {
    if p == [] {
    } else {
      assert p[0] == p[|p| - 1];
      RFindUnique(p, p[0], |p| - 1);
      if |p| > 1 {
        var w := Drop(p[1..], |p| - 2);
        assert w == p[1..|p| - 1];
        forall i | 0 <= i < |w| ensures w[i] == w[|w| - 1 - i] {
          assert p[i + 1] == p[|p| - 1 - (i + 1)];
        }
        PalindromeIsFree(w);
      }
    }
  }

  lemma {:induction false} NoFewer(s: string, p: string, n: nat)
    requires IsPalindrome(p) && Reach(s, p, n)
    ensures Cost(s) <= n
    decreases n
  {
    if n == 0 {
      PalindromeIsFree(p);
    } else {
      var i: nat :| i + 1 < |s| && Reach(Swap(s, i), p, n - 1);
      NoFewer(Swap(s, i), p, n - 1);
      OneSwap(s, i);
    }
  }

  // --------------------------------------------------- the count is attained

  lemma {:induction false} ReachTrans(s: string, t: string, u: string, m: nat, n: nat)
    requires Reach(s, t, m) && Reach(t, u, n)
    ensures Reach(s, u, m + n)
    decreases m
  {
    if m == 0 {
    } else {
      var i: nat :| i + 1 < |s| && Reach(Swap(s, i), t, m - 1);
      ReachTrans(Swap(s, i), t, u, m - 1, n);
    }
  }

  /** Exchanges inside a string are exchanges inside any larger string. */
  lemma {:induction false} ReachInside(s: string, t: string, n: nat, a: string, b: string)
    requires Reach(s, t, n)
    ensures Reach(a + s + b, a + t + b, n)
    decreases n
  {
    if n == 0 {
    } else {
      var i: nat :| i + 1 < |s| && Reach(Swap(s, i), t, n - 1);
      ReachInside(Swap(s, i), t, n - 1, a, b);
      assert Swap(a + s + b, |a| + i) == a + Swap(s, i) + b;
    }
  }

  /** A letter passes over b in |b| exchanges. */
  lemma {:induction false} Slide(a: string, c: char, b: string, d: string)
    ensures Reach(a + [c] + b + d, a + b + [c] + d, |b|)
    decreases |b|
  {
    var s := a + [c] + b + d;
    if b == [] {
      assert s == a + b + [c] + d;
    } else {
      var a' := a + [b[0]];
      Slide(a', c, b[1..], d);
      assert Swap(s, |a|) == a' + [c] + b[1..] + d;
      assert a' + b[1..] + [c] + d == a + b + [c] + d;
    }
  }

  lemma {:induction false} ReachKeepsLetters(s: string, t: string, n: nat)
    requires Reach(s, t, n)
    ensures multiset(s) == multiset(t) && |s| == |t|
    decreases n
  {
    if n == 0 {
    } else {
      var i: nat :| i + 1 < |s| && Reach(Swap(s, i), t, n - 1);
      ReachKeepsLetters(Swap(s, i), t, n - 1);
    }
  }

  lemma {:induction false} NoLoneIsEven(s: string)
    requires Lone(s) == 0
    ensures |s| % 2 == 0
    decreases |s|
  {
    hide *;
    LoopStep(s);
    if s == [] {
    } else {
      NoLoneIsEven(Drop(s[1..], RFind(s, s[0]) - 1));
    }
  }

  lemma WrapPalindrome(c: char, p: string)
    requires IsPalindrome(p)
    ensures IsPalindrome([c] + p + [c])
  {
    var q := [c] + p + [c];
    forall i | 0 <= i < |q| ensures q[i] == q[|q| - 1 - i] {
      if 0 < i < |q| - 1 {
        assert p[i - 1] == p[|p| - 1 - (i - 1)];
      }
    }
  }

  lemma FillMiddle(c: char, p: string)
    requires IsPalindrome(p) && |p| % 2 == 0
    ensures IsPalindrome(p[..|p| / 2] + [c] + p[|p| / 2..])
  {
    var h := |p| / 2;
    var q := p[..h] + [c] + p[h..];
    forall i | 0 <= i < |q| ensures q[i] == q[|q| - 1 - i] {
      if i < h {
        assert p[i] == p[|p| - 1 - i];
      } else if i > h {
        assert p[i - 1] == p[|p| - 1 - (i - 1)];
      }
    }
  }

  /** The partner goes to the end of the string. */
  lemma PartnerToEnd(s: string, x: nat)
    requires 0 < x < |s| && s[x] == s[0]
    ensures Reach(s, [s[0]] + Drop(s[1..], x - 1) + [s[0]], |s| - 1 - x)
  {
    hide Reach, Cost, Lone;
    var c, a, b := s[0], s[1..x], s[x + 1..];
    Slide([c] + a, c, b, []);
    AroundPartner(s, x);
  }

  lemma AroundPartner(s: string, x: nat)
    requires 0 < x < |s| && s[x] == s[0]
    ensures var c, a, b := s[0], s[1..x], s[x + 1..];
            && [c] + a + [c] + b + [] == s
            && [c] + a + b + [c] + [] == [c] + Drop(s[1..], x - 1) + [c]
            && |b| == |s| - 1 - x
  {
    assert Drop(s[1..], x - 1) == s[1..x] + s[x + 1..];
  }

  /** A letter without a partner goes to the middle of the palindrome behind it. */
  lemma LoneToMiddle(c: char, p: string)
    ensures var h := |p| / 2; Reach([c] + p + [], p[..h] + [c] + p[h..], h)
  {
    hide *;
    var h := |p| / 2;
    Slide([], c, p[..h], p[h..]);
    assert [] + [c] + p[..h] + p[h..] == [c] + p + [];
    assert [] + p[..h] + [c] + p[h..] == p[..h] + [c] + p[h..];
  }

  lemma {:induction false} Attained(s: string) returns (p: string)
    requires Lone(s) <= 1
    ensures IsPalindrome(p) && Reach(s, p, Cost(s))
    decreases |s|
  {
    hide Reach, Lone, Cost, RFind, Drop, IsPalindrome;
    LoopStep(s);
    if s == [] {
      PalindromeBase();
      return s;
    }
    var c, x := s[0], RFind(s, s[0]);
    if x != 0 {
      var w := Drop(s[1..], x - 1);
      var q := Attained(w);
      p := [c] + q + [c];
      WrapPalindrome(c, q);
      PartnerToEnd(s, x);
      ReachInside(w, q, Cost(w), [c], [c]);
      ReachTrans(s, [c] + w + [c], p, |s| - 1 - x, Cost(w));
    } else {
      var w := s[1..];
      NoLoneIsEven(w);
      var q := Attained(w);
      ReachKeepsLetters(w, q, Cost(w));
      p := q[..|q| / 2] + [c] + q[|q| / 2..];
      FillMiddle(c, q);
      ReachInside(w, q, Cost(w), [c], []);
      assert [c] + w + [] == s;
      LoneToMiddle(c, q);
      ReachTrans(s, [c] + q + [], p, Cost(w), |q| / 2);
    }
  }

  lemma PalindromeBase()
    ensures IsPalindrome([]) && Reach([], [], 0)
  {
  }

  // ----------------------------------------------- when no palindrome exists

  lemma NoOddLetters(m: multiset<char>)
    requires m == multiset{}
    ensures OddLetters(m) == {}
  {
  }

  lemma OddLettersPair(m: multiset<char>, c: char)
    ensures OddLetters(m + multiset{c, c}) == OddLetters(m)
  {
    forall d ensures d in OddLetters(m + multiset{c, c}) <==> d in OddLetters(m) {
      assert (m + multiset{c, c})[d] == m[d] + if d == c then 2 else 0;
    }
  }

  lemma OddLettersNew(m: multiset<char>, c: char)
    requires c !in m
    ensures |OddLetters(m + multiset{c})| == |OddLetters(m)| + 1
  {
    forall d ensures d in OddLetters(m + multiset{c}) <==> d in OddLetters(m) + {c} {
      assert (m + multiset{c})[d] == m[d] + if d == c then 1 else 0;
    }
    assert OddLetters(m + multiset{c}) == OddLetters(m) + {c};
  }

  lemma TakeOutPair(s: string, x: nat)
    requires 0 < x < |s| && s[x] == s[0]
    ensures multiset(s) == multiset(Drop(s[1..], x - 1)) + multiset{s[0], s[0]}
  {
    assert s == [s[0]] + s[1..x] + [s[x]] + s[x + 1..];
    assert Drop(s[1..], x - 1) == s[1..x] + s[x + 1..];
  }

  lemma {:induction false} LoneCountsOddLetters(s: string)
    ensures Lone(s) == |OddLetters(multiset(s))|
    decreases |s|
  {
    hide RFind, OddLetters, Drop, Lone;
    LoopStep(s);
    if s == [] {
      NoOddLetters(multiset(s));
    } else {
      var c, x := s[0], RFind(s, s[0]);
      if x != 0 {
        var w := Drop(s[1..], x - 1);
        TakeOutPair(s, x);
        LoneCountsOddLetters(w);
        OddLettersPair(multiset(w), c);
      } else {
        LoneCountsOddLetters(s[1..]);
        assert s == [c] + s[1..];
        assert multiset(s) == multiset(s[1..]) + multiset{c};
        assert forall i :: 0 <= i < |s| - 1 ==> s[1..][i] == s[i + 1] != c;
        OddLettersNew(multiset(s[1..]), c);
      }
    }
  }

  ghost predicate HasPalindrome(s: string) {
    exists p :: IsPalindrome(p) && multiset(p) == multiset(s)
  }

  lemma PalindromeExists(s: string)
    ensures HasPalindrome(s) <==> Lone(s) <= 1
    ensures HasPalindrome(s) <==> |OddLetters(multiset(s))| <= 1
  {
    LoneCountsOddLetters(s);
    if Lone(s) <= 1 {
      var p := Attained(s);
      ReachKeepsLetters(s, p, Cost(s));
    }
    if HasPalindrome(s) {
      var p :| IsPalindrome(p) && multiset(p) == multiset(s);
      PalindromeIsFree(p);
      LoneCountsOddLetters(p);
    }
  }

  // ------------------------------------------------------------- the program

  /** n is the least number of neighbour exchanges from s to some palindrome. */
  ghost predicate IsFewestSwitches(s: string, n: nat) {
    && (exists p :: IsPalindrome(p) && Reach(s, p, n))
    && forall p, k: nat :: IsPalindrome(p) && Reach(s, p, k) ==> n <= k
  }

  lemma CostIsFewest(s: string)
    requires Lone(s) <= 1
    ensures IsFewestSwitches(s, Cost(s))
  {
    var p := Attained(s);
    forall p, k: nat | IsPalindrome(p) && Reach(s, p, k) ensures Cost(s) <= k {
      NoFewer(s, p, k);
    }
  }

  method MinNumberOfSwitches(s: string) returns (r: int)
    ensures r == -1 <==> !HasPalindrome(s)
    ensures r != -1 ==> r >= 0 && IsFewestSwitches(s, r)
  {
    hide Cost, Lone, RFind, HasPalindrome, IsFewestSwitches;
    var sir, nrSwitches, nrDistinctVars := s, 0, 0;
    PalindromeExists(s);
    while |sir| != 0
      invariant nrSwitches >= 0
      invariant nrSwitches + Cost(sir) == Cost(s)
      invariant nrDistinctVars + Lone(sir) == Lone(s)
      invariant 0 <= nrDistinctVars <= 1
      decreases |sir|
    {
      LoopStep(sir);
      var x := RFind(sir, sir[0]);
      if x != 0 {
        nrSwitches := nrSwitches + |sir| - 1 - x;
        ghost var next := Drop(sir[1..], x - 1);
        sir := sir[..0] + sir[1..];
        sir := sir[..x - 1] + sir[x..];
        assert sir == next;
      } else {
        nrDistinctVars := nrDistinctVars + 1;
        nrSwitches := nrSwitches + |sir| / 2;
        ghost var next := sir[1..];
        sir := sir[..0] + sir[1..];
        assert sir == next;
        if nrDistinctVars > 1 {
          return -1;
        }
      }
    }
    LoopStep(sir);
    CostIsFewest(s);
    return nrSwitches;
  }
}
