/**
 p2.py: the fewest adjustments that make a message agree, at every position, with
 some version. An edit-distance table in which a match takes the diagonal at once.
 */
module Adjustments {
  import opened Wrappers

  type Symbol = string

  // ------------------------------------------------------- single adjustments

  /** b arises from a by inserting one symbol at i. */
  predicate Inserted(a: seq<Symbol>, b: seq<Symbol>, i: nat) {
    |b| == |a| + 1 && i <= |a| && b[..i] == a[..i] && b[i + 1..] == a[i..]
  }

  /** b arises from a by replacing the symbol at i. */
  predicate Replaced(a: seq<Symbol>, b: seq<Symbol>, i: nat) {
    |b| == |a| && i < |a| && b[..i] == a[..i] && b[i + 1..] == a[i + 1..]
  }

  /** One adjustment: insert, delete or replace one symbol. */
  ghost predicate Adjusted(a: seq<Symbol>, b: seq<Symbol>) {
    exists i: nat :: Inserted(a, b, i) || Inserted(b, a, i) || Replaced(a, b, i)
  }

  /** b can be reached from a by exactly k adjustments. */
  ghost predicate Reaches(a: seq<Symbol>, b: seq<Symbol>, k: nat)
    decreases k
  {
    if k == 0 then a == b
    else exists c :: Adjusted(a, c) && Reaches(c, b, k - 1)
  }

  // --------------------------------------------------------- edit distance

  /** Levenshtein distance. */
  function Distance(a: seq<Symbol>, b: seq<Symbol>): (d: nat)
    decreases |a| + |b|
  {
    if a == [] then |b|
    else if b == [] then |a|
    else
      var p, q := a[..|a| - 1], b[..|b| - 1];
      Min(Distance(p, q) + if a[|a| - 1] == b[|b| - 1] then 0 else 1,
          1 + Min(Distance(p, b), Distance(a, q)))
  }

  lemma DistanceStep(p: seq<Symbol>, x: Symbol, q: seq<Symbol>, y: Symbol)
    ensures Distance(p + [x], q + [y]) ==
            Min(Distance(p, q) + if x == y then 0 else 1, 1 + Min(Distance(p, q + [y]), Distance(p + [x], q)))
  {
    assert (p + [x])[..|p|] == p && (q + [y])[..|q|] == q;
  }

  lemma DistanceEnds(a: seq<Symbol>)
    ensures Distance([], a) == |a| && Distance(a, []) == |a|
  {
  }

  lemma Split(a: seq<Symbol>)
    requires a != []
    ensures a == a[..|a| - 1] + [a[|a| - 1]] && |a[..|a| - 1]| == |a| - 1
  {
  }

  lemma AppendCosts(a: seq<Symbol>, b: seq<Symbol>, x: Symbol)
    ensures Distance(a, b + [x]) <= Distance(a, b) + 1 && Distance(a + [x], b) <= Distance(a, b) + 1
  {
    hide Distance;
    DistanceEnds(b);
    DistanceEnds(b + [x]);
    DistanceEnds(a);
    DistanceEnds(a + [x]);
    if a != [] {
      Split(a);
      DistanceStep(a[..|a| - 1], a[|a| - 1], b, x);
    }
    if b != [] {
      Split(b);
      DistanceStep(a, x, b[..|b| - 1], b[|b| - 1]);
    }
  }

  /** One more symbol at the end changes the distance by at most 1. */
  lemma {:induction false} LastSymbol(a: seq<Symbol>, x: Symbol, b: seq<Symbol>)
    ensures -1 <= Distance(a + [x], b) - Distance(a, b) <= 1
    decreases |b|
  {
    hide Distance;
    AppendCosts(a, b, x);
    if b == [] {
      DistanceEnds(a);
      DistanceEnds(a + [x]);
    } else {
      var q, y := b[..|b| - 1], b[|b| - 1];
      Split(b);
      DistanceStep(a, x, q, y);
      AppendCosts(a, q, y);
      LastSymbol(a, x, q);
    }
  }

  lemma Close(p: seq<Symbol>, p': seq<Symbol>, z: Symbol, b: seq<Symbol>)
    requires b != []
    requires -1 <= Distance(p', b[..|b| - 1]) - Distance(p, b[..|b| - 1]) <= 1
    requires -1 <= Distance(p', b) - Distance(p, b) <= 1
    requires -1 <= Distance(p' + [z], b[..|b| - 1]) - Distance(p + [z], b[..|b| - 1]) <= 1
    ensures -1 <= Distance(p' + [z], b) - Distance(p + [z], b) <= 1
  {
    hide Distance;
    Split(b);
    DistanceStep(p, z, b[..|b| - 1], b[|b| - 1]);
    DistanceStep(p', z, b[..|b| - 1], b[|b| - 1]);
  }

  lemma InsertedBefore(a: seq<Symbol>, b: seq<Symbol>, i: nat)
    requires Inserted(a, b, i) && i < |a|
    ensures Inserted(a[..|a| - 1], b[..|b| - 1], i) && a[|a| - 1] == b[|b| - 1]
  {
    assert b[i + 1..][|a| - 1 - i] == a[i..][|a| - 1 - i];
    assert b[..|b| - 1][i + 1..] == b[i + 1..][..|a| - 1 - i];
    assert a[..|a| - 1][i..] == a[i..][..|a| - 1 - i];
    assert b[..|b| - 1][..i] == b[..i] && a[..|a| - 1][..i] == a[..i];
  }

  lemma {:induction false} InsertionCosts(a: seq<Symbol>, a': seq<Symbol>, i: nat, b: seq<Symbol>)
    requires Inserted(a, a', i)
    ensures -1 <= Distance(a', b) - Distance(a, b) <= 1
    decreases |a| + |b|
  {
    hide Distance;
    if i == |a| {
      assert a' == a + [a'[|a|]];
      LastSymbol(a, a'[|a|], b);
    } else if b == [] {
      DistanceEnds(a);
      DistanceEnds(a');
    } else {
      InsertedBefore(a, a', i);
      Split(a);
      Split(a');
      var p, p', q := a[..|a| - 1], a'[..|a'| - 1], b[..|b| - 1];
      InsertionCosts(p, p', i, q);
      InsertionCosts(p, p', i, b);
      InsertionCosts(a, a', i, q);
      Close(p, p', a[|a| - 1], b);
    }
  }

  lemma ReplacedBefore(a: seq<Symbol>, b: seq<Symbol>, i: nat)
    requires Replaced(a, b, i) && i < |a| - 1
    ensures Replaced(a[..|a| - 1], b[..|b| - 1], i) && a[|a| - 1] == b[|b| - 1]
  {
    assert b[i + 1..][|a| - 2 - i] == a[i + 1..][|a| - 2 - i];
    assert b[..|b| - 1][i + 1..] == b[i + 1..][..|a| - 2 - i];
    assert a[..|a| - 1][i + 1..] == a[i + 1..][..|a| - 2 - i];
    assert b[..|b| - 1][..i] == b[..i] && a[..|a| - 1][..i] == a[..i];
  }

  /** Another last symbol changes the distance by at most 1. */
  lemma {:induction false} OtherLast(p: seq<Symbol>, x: Symbol, x': Symbol, b: seq<Symbol>)
    ensures -1 <= Distance(p + [x'], b) - Distance(p + [x], b) <= 1
    decreases |b|
  {
    hide Distance;
    if b == [] {
      DistanceEnds(p + [x]);
      DistanceEnds(p + [x']);
    } else {
      var q, y := b[..|b| - 1], b[|b| - 1];
      Split(b);
      DistanceStep(p, x, q, y);
      DistanceStep(p, x', q, y);
      OtherLast(p, x, x', q);
    }
  }

  lemma {:induction false} ReplacementCosts(a: seq<Symbol>, a': seq<Symbol>, i: nat, b: seq<Symbol>)
    requires Replaced(a, a', i)
    ensures -1 <= Distance(a', b) - Distance(a, b) <= 1
    decreases |a| + |b|
  {
    hide Distance;
    if i == |a| - 1 {
      assert a == a[..i] + [a[i]] && a' == a[..i] + [a'[i]];
      OtherLast(a[..i], a[i], a'[i], b);
    } else if b == [] {
      DistanceEnds(a);
      DistanceEnds(a');
    } else {
      ReplacedBefore(a, a', i);
      Split(a);
      Split(a');
      var p, p', q := a[..|a| - 1], a'[..|a'| - 1], b[..|b| - 1];
      ReplacementCosts(p, p', i, q);
      ReplacementCosts(p, p', i, b);
      ReplacementCosts(a, a', i, q);
      Close(p, p', a[|a| - 1], b);
    }
  }

  lemma {:induction false} ZeroToSelf(a: seq<Symbol>)
    ensures Distance(a, a) == 0
  {
    if a == [] {
    } else {
      Split(a);
      ZeroToSelf(a[..|a| - 1]);
      DistanceStep(a[..|a| - 1], a[|a| - 1], a[..|a| - 1], a[|a| - 1]);
    }
  }

  /** No sequence of adjustments is shorter than the distance. */
  lemma {:induction false} DistanceIsLeast(a: seq<Symbol>, b: seq<Symbol>, k: nat)
    requires Reaches(a, b, k)
    ensures Distance(a, b) <= k
    decreases k
  {
    hide Distance, Inserted, Replaced;
    if k == 0 {
      ZeroToSelf(a);
    } else {
      var c :| Adjusted(a, c) && Reaches(c, b, k - 1);
      DistanceIsLeast(c, b, k - 1);
      var i: nat :| Inserted(a, c, i) || Inserted(c, a, i) || Replaced(a, c, i);
      if Inserted(a, c, i) {
        InsertionCosts(a, c, i, b);
      } else if Inserted(c, a, i) {
        InsertionCosts(c, a, i, b);
      } else {
        ReplacementCosts(a, c, i, b);
      }
    }
  }

  // ------------------------------------------------- the distance is attained

  lemma {:induction false} ReachesTrans(a: seq<Symbol>, b: seq<Symbol>, c: seq<Symbol>, j: nat, k: nat)
    requires Reaches(a, b, j) && Reaches(b, c, k)
    ensures Reaches(a, c, j + k)
    decreases j
  {
    hide Adjusted;
    if j == 0 {
    } else {
      var d :| Adjusted(a, d) && Reaches(d, b, j - 1);
      ReachesTrans(d, b, c, j - 1, k);
    }
  }

  lemma AdjustedBehind(a: seq<Symbol>, b: seq<Symbol>, x: Symbol)
    requires Adjusted(a, b)
    ensures Adjusted(a + [x], b + [x])
  {
    var i: nat :| Inserted(a, b, i) || Inserted(b, a, i) || Replaced(a, b, i);
    var a', b' := a + [x], b + [x];
    if Inserted(a, b, i) {
      assert b'[..i] == b[..i] && b'[i + 1..] == b[i + 1..] + [x] && a'[..i] == a[..i] && a'[i..] == a[i..] + [x];
      assert Inserted(a', b', i);
    } else if Inserted(b, a, i) {
      assert a'[..i] == a[..i] && a'[i + 1..] == a[i + 1..] + [x];
      assert b'[..i] == b[..i] && b'[i..] == b[i..] + [x];
      assert Inserted(b', a', i);
    } else {
      assert a'[..i] == a[..i] && a'[i + 1..] == a[i + 1..] + [x];
      assert b'[..i] == b[..i] && b'[i + 1..] == b[i + 1..] + [x];
      assert Replaced(a', b', i);
    }
  }

  lemma {:induction false} ReachesBehind(a: seq<Symbol>, b: seq<Symbol>, k: nat, x: Symbol)
    requires Reaches(a, b, k)
    ensures Reaches(a + [x], b + [x], k)
    decreases k
  {
    hide Adjusted;
    if k == 0 {
    } else {
      var c :| Adjusted(a, c) && Reaches(c, b, k - 1);
      AdjustedBehind(a, c, x);
      ReachesBehind(c, b, k - 1, x);
    }
  }

  lemma AppendIsAdjustment(a: seq<Symbol>, x: Symbol, y: Symbol)
    ensures Adjusted(a, a + [x]) && Adjusted(a + [x], a) && Adjusted(a + [x], a + [y])
  {
    assert Inserted(a, a + [x], |a|);
    assert Replaced(a + [x], a + [y], |a|);
  }

  lemma OneStep(a: seq<Symbol>, b: seq<Symbol>)
    requires Adjusted(a, b)
    ensures Reaches(a, b, 1)
  {
    assert Reaches(b, b, 0);
  }

  lemma DropLast(p: seq<Symbol>, x: Symbol, b: seq<Symbol>, k: nat)
    requires Reaches(p, b, k)
    ensures Reaches(p + [x], b, 1 + k)
  {
    hide Adjusted;
    AppendIsAdjustment(p, x, x);
    OneStep(p + [x], p);
    ReachesTrans(p + [x], p, b, 1, k);
  }

  lemma AppendLast(a: seq<Symbol>, q: seq<Symbol>, y: Symbol, k: nat)
    requires Reaches(a, q, k)
    ensures Reaches(a, q + [y], k + 1)
  {
    hide Adjusted, Reaches;
    AppendIsAdjustment(q, y, y);
    OneStep(q, q + [y]);
    ReachesTrans(a, q, q + [y], k, 1);
  }

  lemma ReplaceLast(p: seq<Symbol>, x: Symbol, q: seq<Symbol>, y: Symbol, k: nat)
    requires Reaches(p, q, k)
    ensures Reaches(p + [x], q + [y], k + if x == y then 0 else 1)
  {
    hide Adjusted, Reaches;
    ReachesBehind(p, q, k, y);
    if x != y {
      AppendIsAdjustment(p, x, y);
      OneStep(p + [x], p + [y]);
      ReachesTrans(p + [x], p + [y], q + [y], 1, k);
    }
  }

  /** That many adjustments are enough. */
  lemma {:induction false} DistanceIsReached(a: seq<Symbol>, b: seq<Symbol>)
    ensures Reaches(a, b, Distance(a, b))
    decreases |a| + |b|
  {
    hide Distance, Adjusted;
    if a == [] && b == [] {
      DistanceEnds(a);
    } else if a == [] {
      var q, y := b[..|b| - 1], b[|b| - 1];
      Split(b);
      DistanceEnds(b);
      DistanceEnds(q);
      DistanceIsReached(a, q);
      AppendLast(a, q, y, Distance(a, q));
    } else if b == [] {
      var p, x := a[..|a| - 1], a[|a| - 1];
      Split(a);
      DistanceEnds(a);
      DistanceEnds(p);
      DistanceIsReached(p, b);
      DropLast(p, x, b, Distance(p, b));
    } else {
      var p, x, q, y := a[..|a| - 1], a[|a| - 1], b[..|b| - 1], b[|b| - 1];
      Split(a);
      Split(b);
      DistanceStep(p, x, q, y);
      DistanceIsReached(p, b);
      DistanceIsReached(a, q);
      DistanceIsReached(p, q);
      if Distance(a, b) == 1 + Distance(p, b) {
        DropLast(p, x, b, Distance(p, b));
      } else if Distance(a, b) == 1 + Distance(a, q) {
        AppendLast(a, q, y, Distance(a, q));
      } else {
        ReplaceLast(p, x, q, y, Distance(p, q));
      }
    }
  }

  // --------------------------------------------------------------- the table

  /** Some version has s at position j. */
  predicate Similar(versions: seq<seq<Symbol>>, s: Symbol, j: nat)
    requires forall k :: 0 <= k < |versions| ==> j < |versions[k]|
  {
    exists k :: 0 <= k < |versions| && versions[k][j] == s
  }

  /** The versions give at least n symbols each. */
  predicate LongEnough(versions: seq<seq<Symbol>>, n: nat) {
    forall k :: 0 <= k < |versions| ==> n <= |versions[k]|
  }

  /** The cell dp[i][j]. */
  function Cell(mesaj: seq<Symbol>, versions: seq<seq<Symbol>>, i: nat, j: nat): nat
    requires i <= |mesaj| && LongEnough(versions, j)
    decreases i + j
  {
    if i == 0 then j
    else if j == 0 then i
    else if Similar(versions, mesaj[i - 1], j - 1) then Cell(mesaj, versions, i - 1, j - 1)
    else 1 + Min(Cell(mesaj, versions, i, j - 1),
                 Min(Cell(mesaj, versions, i - 1, j), Cell(mesaj, versions, i - 1, j - 1)))
  }

  lemma CellStep(mesaj: seq<Symbol>, versions: seq<seq<Symbol>>, i: nat, j: nat)
    requires i <= |mesaj| && LongEnough(versions, j)
    ensures i == 0 ==> Cell(mesaj, versions, i, j) == j
    ensures j == 0 ==> Cell(mesaj, versions, i, j) == i
    ensures i > 0 && j > 0 ==>
              Cell(mesaj, versions, i, j) ==
              if Similar(versions, mesaj[i - 1], j - 1) then Cell(mesaj, versions, i - 1, j - 1)
              else 1 + Min(Cell(mesaj, versions, i, j - 1),
                           Min(Cell(mesaj, versions, i - 1, j), Cell(mesaj, versions, i - 1, j - 1)))
  {
  }

  /** Neighbouring cells differ by at most 1: that is why a match may take the diagonal without a minimum. */
  lemma {:induction false} Neighbours(mesaj: seq<Symbol>, versions: seq<seq<Symbol>>, i: nat, j: nat)
    requires i <= |mesaj| && LongEnough(versions, j)
    ensures i > 0 ==> -1 <= Cell(mesaj, versions, i, j) - Cell(mesaj, versions, i - 1, j) <= 1
    ensures j > 0 ==> -1 <= Cell(mesaj, versions, i, j) - Cell(mesaj, versions, i, j - 1) <= 1
    decreases i + j
  {
    hide Cell, Similar;
    CellStep(mesaj, versions, i, j);
    if i == 0 {
    } else {
      CellStep(mesaj, versions, i - 1, j);
      Neighbours(mesaj, versions, i - 1, j);
    }
    if j > 0 {
      CellStep(mesaj, versions, i, j - 1);
      Neighbours(mesaj, versions, i, j - 1);
    }
  }

  /** w takes its j-th symbol from some version's j-th. */
  predicate Allowed(versions: seq<seq<Symbol>>, w: seq<Symbol>)
    requires LongEnough(versions, |w|)
  {
    forall j :: 0 <= j < |w| ==> Similar(versions, w[j], j)
  }

  lemma {:induction false} CellIsLowerBound(
      mesaj: seq<Symbol>, versions: seq<seq<Symbol>>, w: seq<Symbol>, i: nat, j: nat)
    requires i <= |mesaj| && j <= |w| && LongEnough(versions, |w|) && Allowed(versions, w)
    ensures Cell(mesaj, versions, i, j) <= Distance(mesaj[..i], w[..j])
    decreases i + j
  {
    hide Cell, Distance, Similar;
    CellStep(mesaj, versions, i, j);
    DistanceEnds(mesaj[..i]);
    DistanceEnds(w[..j]);
    if i == 0 || j == 0 {
    } else {
      CellIsLowerBound(mesaj, versions, w, i - 1, j - 1);
      CellIsLowerBound(mesaj, versions, w, i - 1, j);
      CellIsLowerBound(mesaj, versions, w, i, j - 1);
      Neighbours(mesaj, versions, i - 1, j);
      Neighbours(mesaj, versions, i, j - 1);
      assert mesaj[..i] == mesaj[..i - 1] + [mesaj[i - 1]] && w[..j] == w[..j - 1] + [w[j - 1]];
      DistanceStep(mesaj[..i - 1], mesaj[i - 1], w[..j - 1], w[j - 1]);
      assert Similar(versions, w[j - 1], j - 1);
    }
  }

  /** Some allowed sequence is that close to the message. */
  lemma {:induction false} CellIsAttained(
      mesaj: seq<Symbol>, versions: seq<seq<Symbol>>, i: nat, j: nat)
    returns (w: seq<Symbol>)
    requires i <= |mesaj| && LongEnough(versions, j) && (j == 0 || versions != [])
    ensures |w| == j && Allowed(versions, w)
    ensures Distance(mesaj[..i], w) <= Cell(mesaj, versions, i, j)
    decreases i + j
  {
    hide Cell, Distance, Similar;
    CellStep(mesaj, versions, i, j);
    if j == 0 {
      w := [];
      DistanceEnds(mesaj[..i]);
    } else if i == 0 {
      var v := CellIsAttained(mesaj, versions, 0, j - 1);
      w := v + [versions[0][j - 1]];
      FromVersion(versions, 0, j - 1);
      DistanceEnds(w);
      assert mesaj[..0] == [];
    } else {
      var c, x := Cell(mesaj, versions, i, j), mesaj[i - 1];
      assert mesaj[..i] == mesaj[..i - 1] + [x];
      FromVersion(versions, 0, j - 1);
      if Similar(versions, x, j - 1) {
        var v := CellIsAttained(mesaj, versions, i - 1, j - 1);
        w := v + [x];
        DistanceStep(mesaj[..i - 1], x, v, x);
      } else if c == 1 + Cell(mesaj, versions, i, j - 1) {
        var v := CellIsAttained(mesaj, versions, i, j - 1);
        w := v + [versions[0][j - 1]];
        AppendCosts(mesaj[..i], v, versions[0][j - 1]);
      } else if c == 1 + Cell(mesaj, versions, i - 1, j) {
        w := CellIsAttained(mesaj, versions, i - 1, j);
        AppendCosts(mesaj[..i - 1], w, x);
      } else {
        var v := CellIsAttained(mesaj, versions, i - 1, j - 1);
        w := v + [versions[0][j - 1]];
        DistanceStep(mesaj[..i - 1], x, v, versions[0][j - 1]);
      }
    }
  }

  lemma FromVersion(versions: seq<seq<Symbol>>, k: nat, j: nat)
    requires k < |versions| && LongEnough(versions, j + 1)
    ensures Similar(versions, versions[k][j], j)
  {
  }

  /** d is the least number of adjustments from the message to a sequence the versions allow. */
  ghost predicate IsFewestAdjustments(mesaj: seq<Symbol>, versions: seq<seq<Symbol>>, n: nat, d: nat)
    requires LongEnough(versions, n)
  {
    && (exists w :: |w| == n && Allowed(versions, w) && Reaches(mesaj, w, d))
    && forall w, k: nat :: |w| == n && Allowed(versions, w) && Reaches(mesaj, w, k) ==> d <= k
  }

  lemma CellIsFewest(mesaj: seq<Symbol>, versions: seq<seq<Symbol>>, n: nat)
    requires LongEnough(versions, n) && (n == 0 || versions != [])
    ensures IsFewestAdjustments(mesaj, versions, n, Cell(mesaj, versions, |mesaj|, n))
  {
    hide Cell, Distance, Allowed, Reaches;
    var d := Cell(mesaj, versions, |mesaj|, n);
    assert mesaj[..|mesaj|] == mesaj;
    forall w, k: nat | |w| == n && Allowed(versions, w) && Reaches(mesaj, w, k) ensures d <= k {
      DistanceIsLeast(mesaj, w, k);
      CellIsLowerBound(mesaj, versions, w, |mesaj|, n);
      assert w[..n] == w;
    }
    var w := CellIsAttained(mesaj, versions, |mesaj|, n);
    DistanceIsReached(mesaj, w);
    CellIsLowerBound(mesaj, versions, w, |mesaj|, n);
    assert w[..n] == w;
  }

  /**
   minimum_adjustments: m symbols of the message, n positions, the first nr_var
   versions.
   */
  method MinimumAdjustments(mesaj: seq<Symbol>, versions: seq<seq<Symbol>>, m: nat, n: nat, nrVar: nat) returns (r: nat)
    requires m <= |mesaj| && nrVar <= |versions| && LongEnough(versions[..nrVar], n)
    ensures r == Cell(mesaj[..m], versions[..nrVar], m, n)
    ensures n == 0 || nrVar > 0 ==> IsFewestAdjustments(mesaj[..m], versions[..nrVar], n, r)
  {
    hide Cell, IsFewestAdjustments;
    ghost var a, v := mesaj[..m], versions[..nrVar];
    var dp := new nat[m + 1, n + 1];
    for i := 0 to m + 1
      invariant forall p, q :: 0 <= p < i && 0 <= q <= n ==> dp[p, q] == Cell(a, v, p, q)
    {
      for j := 0 to n + 1
        invariant forall p, q :: 0 <= p < i && 0 <= q <= n ==> dp[p, q] == Cell(a, v, p, q)
        invariant forall q :: 0 <= q < j ==> dp[i, q] == Cell(a, v, i, q)
      {
        CellStep(a, v, i, j);
        if i == 0 {
          dp[i, j] := j;
        } else if j == 0 {
          dp[i, j] := i;
        } else {
          var foundSimilar := FindSimilar(versions, nrVar, mesaj[i - 1], j - 1);
          if foundSimilar {
            dp[i, j] := dp[i - 1, j - 1];
          } else {
            dp[i, j] := 1 + Min(dp[i, j - 1], Min(dp[i - 1, j], dp[i - 1, j - 1]));
          }
        }
      }
    }
    if n == 0 || nrVar > 0 {
      CellIsFewest(a, v, n);
    }
    return dp[m, n];
  }

  /** The search through the versions. */
  method FindSimilar(versions: seq<seq<Symbol>>, nrVar: nat, s: Symbol, j: nat) returns (found: bool)
    requires nrVar <= |versions| && LongEnough(versions[..nrVar], j + 1)
    ensures found <==> Similar(versions[..nrVar], s, j)
  {
    found := false;
    for k := 0 to nrVar
      invariant !found && forall l :: 0 <= l < k ==> versions[l][j] != s
    {
      assert versions[..nrVar][k] == versions[k];
      if s == versions[k][j] {
        found := true;
        break;
      }
    }
  }
}
