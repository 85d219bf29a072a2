/**
 p3.py: linking the pins of a row so that every 0 is linked with a 1. A stack
 matches each symbol with the nearest open unlike one; the links do not cross and
 their total horizontal length is the least possible.
 */
module Wiring {
  import opened Wrappers

  /** A link between two positions of the row, counted from 0. */
  datatype Link = Link(left: nat, right: nat)

  function Weight(c: char): int {
    if c == '1' then 1 else if c == '0' then -1 else 0
  }

  /** Ones minus zeros among the first k symbols. */
  function Balance(row: string, k: nat): int
    requires k <= |row|
  {
    if k == 0 then 0 else Balance(row, k - 1) + Weight(row[k - 1])
  }

  /** The imbalances of the first k + 1 prefixes added up. */
  function Area(row: string, k: nat): nat
    requires k <= |row|
  {
    if k == 0 then 0 else Area(row, k - 1) + Abs(Balance(row, k))
  }

  function Length(links: seq<Link>): int {
    if links == [] then 0
    else
      var l := links[|links| - 1];
      Length(links[..|links| - 1]) + l.right - l.left
  }

  function Ends(links: seq<Link>): set<nat> {
    if links == [] then {}
    else
      var l := links[|links| - 1];
      Ends(links[..|links| - 1]) + {l.left, l.right}
  }

  /** Links join unlike symbols of the row, and no position is used twice. */
  predicate Linked(row: string, links: seq<Link>) {
    links == [] ||
    var l, before := links[|links| - 1], links[..|links| - 1];
    && l.left < l.right < |row|
    && Weight(row[l.left]) != 0 && Weight(row[l.left]) + Weight(row[l.right]) == 0
    && l.left !in Ends(before) && l.right !in Ends(before)
    && Linked(row, before)
  }

  /** Every 0 and every 1 has its link. */
  predicate Perfect(row: string, links: seq<Link>) {
    Linked(row, links) && forall i :: 0 <= i < |row| ==> (i in Ends(links) <==> Weight(row[i]) != 0)
  }

  // ------------------------------------------------ no matching is shorter

  /** Ones minus zeros among the first k symbols, counting only the positions in ends. */
  function BalanceOf(row: string, ends: set<nat>, k: nat): int
    requires k <= |row|
  {
    if k == 0 then 0 else BalanceOf(row, ends, k - 1) + if k - 1 in ends then Weight(row[k - 1]) else 0
  }

  function Before(row: string, i: nat, k: nat): int
    requires i < |row|
  {
    if i < k then Weight(row[i]) else 0
  }

  lemma {:induction false} OneMoreEnd(row: string, ends: set<nat>, i: nat, k: nat)
    requires i < |row| && k <= |row| && i !in ends
    ensures BalanceOf(row, ends + {i}, k) == BalanceOf(row, ends, k) + Before(row, i, k)
    decreases k
  {
    if k == 0 {
    } else {
      OneMoreEnd(row, ends, i, k - 1);
    }
  }

  /** Links over the gap before position k. */
  function Over(links: seq<Link>, k: nat): nat {
    if links == [] then 0
    else
      var l := links[|links| - 1];
      Over(links[..|links| - 1], k) + if l.left < k <= l.right then 1 else 0
  }

  lemma {:induction false} NoEnds(row: string, k: nat)
    requires k <= |row|
    ensures BalanceOf(row, {}, k) == 0
    decreases k
  {
    if k == 0 {
    } else {
      NoEnds(row, k - 1);
    }
  }

  /** At every gap there are at least as many links as the imbalance asks for. */
  lemma {:induction false} EnoughOver(row: string, links: seq<Link>, k: nat)
    requires Linked(row, links) && k <= |row|
    ensures Abs(BalanceOf(row, Ends(links), k)) <= Over(links, k)
    decreases |links|
  {
    if links == [] {
      NoEnds(row, k);
    } else {
      var l, before := links[|links| - 1], links[..|links| - 1];
      EnoughOver(row, before, k);
      OneMoreEnd(row, Ends(before), l.left, k);
      OneMoreEnd(row, Ends(before) + {l.left}, l.right, k);
      assert Ends(before) + {l.left} + {l.right} == Ends(links);
    }
  }

  lemma {:induction false} PerfectBalance(row: string, links: seq<Link>, k: nat)
    requires Perfect(row, links) && k <= |row|
    ensures BalanceOf(row, Ends(links), k) == Balance(row, k)
    decreases k
  {
    hide Linked, Ends;
    if k == 0 {
    } else {
      PerfectBalance(row, links, k - 1);
    }
  }

  /** The links over the gaps 1..k added up. */
  function OverAll(links: seq<Link>, k: nat): nat {
    if k == 0 then 0 else OverAll(links, k - 1) + Over(links, k)
  }

  /** How many of the gaps 1..k one link spans. */
  function Span(l: Link, k: nat): int {
    if k <= l.left then 0 else if k <= l.right then k - l.left else l.right - l.left
  }

  lemma {:induction false} OverAllSplit(links: seq<Link>, k: nat)
    requires links != [] && links[|links| - 1].left < links[|links| - 1].right
    ensures OverAll(links, k) == OverAll(links[..|links| - 1], k) + Span(links[|links| - 1], k)
    decreases k
  {
    if k == 0 {
    } else {
      OverAllSplit(links, k - 1);
    }
  }

  lemma {:induction false} NoLinks(k: nat)
    ensures OverAll([], k) == 0
  {
    if k == 0 {
    } else {
      NoLinks(k - 1);
    }
  }

  lemma {:induction false} LengthIsOverAll(row: string, links: seq<Link>)
    requires Linked(row, links)
    ensures Length(links) == OverAll(links, |row|)
    decreases |links|
  {
    if links == [] {
      NoLinks(|row|);
    } else {
      LengthIsOverAll(row, links[..|links| - 1]);
      OverAllSplit(links, |row|);
    }
  }

  lemma {:induction false} AreaIsLess(row: string, links: seq<Link>, k: nat)
    requires Perfect(row, links) && k <= |row|
    ensures Area(row, k) <= OverAll(links, k)
    decreases k
  {
    hide Perfect;
    if k == 0 {
    } else {
      AreaIsLess(row, links, k - 1);
      PerfectIsLinked(row, links);
      EnoughOver(row, links, k);
      PerfectBalance(row, links, k);
    }
  }

  lemma PerfectIsLinked(row: string, links: seq<Link>)
    requires Perfect(row, links)
    ensures Linked(row, links)
  {
  }

  /** Lower bound: the imbalances must be paid for. */
  lemma NoShorterMatching(row: string, links: seq<Link>)
    requires Perfect(row, links)
    ensures Length(links) >= Area(row, |row|)
  {
    AreaIsLess(row, links, |row|);
    LengthIsOverAll(row, links);
  }

  // ----------------------------------------------- no matching has more links

  /** How often c occurs among the first k symbols. */
  function Count(row: string, c: char, k: nat): (n: nat)
    requires k <= |row|
  {
    if k == 0 then 0 else Count(row, c, k - 1) + if row[k - 1] == c then 1 else 0
  }

  /** The same, counting only the positions in ends. */
  function CountIn(row: string, c: char, ends: set<nat>, k: nat): (n: nat)
    requires k <= |row|
  {
    if k == 0 then 0 else CountIn(row, c, ends, k - 1) + if k - 1 in ends && row[k - 1] == c then 1 else 0
  }

  /** Counting the positions in ends misses nothing exactly when ends has every c. */
  lemma {:induction false} CountInIsLess(row: string, c: char, ends: set<nat>, k: nat)
    requires k <= |row|
    ensures CountIn(row, c, ends, k) <= Count(row, c, k)
    ensures (forall i :: 0 <= i < k && row[i] == c ==> i in ends) ==> CountIn(row, c, ends, k) == Count(row, c, k)
    decreases k
  {
    if k == 0 {
    } else {
      CountInIsLess(row, c, ends, k - 1);
    }
  }

  lemma {:induction false} CountOneMore(row: string, c: char, ends: set<nat>, i: nat, k: nat)
    requires i < |row| && k <= |row| && i !in ends
    ensures CountIn(row, c, ends + {i}, k) == CountIn(row, c, ends, k) + if i < k && row[i] == c then 1 else 0
    decreases k
  {
    if k == 0 {
    } else {
      CountOneMore(row, c, ends, i, k - 1);
    }
  }

  lemma {:induction false} CountNone(row: string, c: char, k: nat)
    requires k <= |row|
    ensures CountIn(row, c, {}, k) == 0
    decreases k
  {
    if k == 0 {
    } else {
      CountNone(row, c, k - 1);
    }
  }

  /** Every link uses one 0 and one 1. */
  lemma {:induction false} LinksAreCounted(row: string, links: seq<Link>, c: char)
    requires Linked(row, links) && Weight(c) != 0
    ensures CountIn(row, c, Ends(links), |row|) == |links|
    decreases |links|
  {
    if links == [] {
      CountNone(row, c, |row|);
    } else {
      var l, before := links[|links| - 1], links[..|links| - 1];
      LinksAreCounted(row, before, c);
      CountOneMore(row, c, Ends(before), l.left, |row|);
      CountOneMore(row, c, Ends(before) + {l.left}, l.right, |row|);
      assert Ends(before) + {l.left} + {l.right} == Ends(links);
    }
  }

  /** Upper bound: no matching has more links than the row has of either symbol. */
  lemma NoLargerMatching(row: string, links: seq<Link>)
    requires Linked(row, links)
    ensures |links| <= Min(Count(row, '0', |row|), Count(row, '1', |row|))
  {
    hide Linked, Ends;
    LinksAreCounted(row, links, '0');
    LinksAreCounted(row, links, '1');
    CountInIsLess(row, '0', Ends(links), |row|);
    CountInIsLess(row, '1', Ends(links), |row|);
  }

  // --------------------------------------------------------- the stack matching

  predicate NonCrossing(links: seq<Link>) {
    forall i, j :: 0 <= i < |links| && 0 <= j < |links| ==>
      !(links[i].left < links[j].left < links[i].right < links[j].right)
  }

  /** The open positions' distances from i added up. */
  function OpenLength(stack: seq<nat>, i: nat): int {
    if stack == [] then 0 else OpenLength(stack[..|stack| - 1], i) + i - stack[|stack| - 1]
  }

  predicate Increasing(stack: seq<nat>, i: nat) {
    && (forall a, b :: 0 <= a < b < |stack| ==> stack[a] < stack[b])
    && forall a :: 0 <= a < |stack| ==> stack[a] < i
  }

  /** The open positions all hold c, and every other 0 or 1 seen so far is linked. */
  predicate Accounted(row: string, i: nat, stack: seq<nat>, c: char, links: seq<Link>) {
    && i <= |row|
    && Increasing(stack, i)
    && (forall a :: 0 <= a < |stack| ==> row[stack[a]] == c && stack[a] !in Ends(links))
    && Linked(row, links)
    && (forall j :: 0 <= j < i ==> (j in Ends(links) || j in stack <==> Weight(row[j]) != 0))
    && (forall j :: j in Ends(links) ==> j < i)
  }

  /** The open positions are the imbalance, and all lengths so far add up to the area. */
  predicate Measured(row: string, i: nat, stack: seq<nat>, c: char, links: seq<Link>) {
    && i <= |row|
    && Balance(row, i) == Weight(c) * |stack|
    && Length(links) + OpenLength(stack, i) == Area(row, i)
  }

  /** No link crosses another or covers an open position. */
  predicate Planar(i: nat, stack: seq<nat>, links: seq<Link>) {
    && Increasing(stack, i)
    && NonCrossing(links)
    && (forall a, b :: 0 <= a < |stack| && 0 <= b < |links| ==> !(links[b].left < stack[a] < links[b].right))
    && (forall b :: 0 <= b < |links| ==> links[b].left < i && links[b].right < i)
  }

  predicate Matched(row: string, i: nat, stack: seq<nat>, c: char, links: seq<Link>) {
    Weight(c) != 0 && Accounted(row, i, stack, c, links) && Measured(row, i, stack, c, links) && Planar(i, stack, links)
  }

  lemma {:induction false} OpenLater(stack: seq<nat>, i: nat)
    ensures OpenLength(stack, i + 1) == OpenLength(stack, i) + |stack|
    decreases |stack|
  {
    if stack == [] {
    } else {
      OpenLater(stack[..|stack| - 1], i);
    }
  }

  lemma OpenTop(stack: seq<nat>, x: nat, i: nat)
    ensures OpenLength(stack + [x], i) == OpenLength(stack, i) + i - x
  {
    assert (stack + [x])[..|stack|] == stack;
  }

  lemma LengthTop(links: seq<Link>, l: Link)
    ensures Length(links + [l]) == Length(links) + l.right - l.left
    ensures Ends(links + [l]) == Ends(links) + {l.left, l.right}
  {
    assert (links + [l])[..|links|] == links;
  }

  lemma SumsNext(row: string, i: nat)
    requires i < |row|
    ensures Balance(row, i + 1) == Balance(row, i) + Weight(row[i])
    ensures Area(row, i + 1) == Area(row, i) + Abs(Balance(row, i + 1))
  {
  }

  // A symbol like the open ones waits.

  lemma PushAccounted(row: string, i: nat, stack: seq<nat>, c: char, links: seq<Link>)
    requires Accounted(row, i, stack, c, links) && i < |row| && row[i] == c && Weight(c) != 0
    ensures Accounted(row, i + 1, stack + [i], c, links)
  {
    hide Linked, Ends, Weight;
    assert i !in Ends(links);
    forall j | 0 <= j < i + 1 ensures j in Ends(links) || j in stack + [i] <==> Weight(row[j]) != 0 {
      assert j < i ==> (j in stack + [i] <==> j in stack);
    }
  }

  lemma Push(row: string, i: nat, stack: seq<nat>, c: char, links: seq<Link>)
    requires Matched(row, i, stack, c, links) && i < |row| && row[i] == c
    ensures Matched(row, i + 1, stack + [i], c, links)
  {
    hide Accounted, Length, Ends, OpenLength, Balance, Area;
    PushAccounted(row, i, stack, c, links);
    OpenTop(stack, i, i);
    OpenLater(stack + [i], i);
    SumsNext(row, i);
  }

  // An unlike symbol is linked with the last open one.

  lemma PopAccounted(row: string, i: nat, stack: seq<nat>, c: char, links: seq<Link>)
    requires Accounted(row, i, stack, c, links) && i < |row| && stack != [] && Weight(c) != 0
    requires Weight(row[i]) + Weight(c) == 0
    ensures Accounted(row, i + 1, stack[..|stack| - 1], c, links + [Link(stack[|stack| - 1], i)])
  {
    hide Weight, Length;
    var rest, x := stack[..|stack| - 1], stack[|stack| - 1];
    var more := links + [Link(x, i)];
    LengthTop(links, Link(x, i));
    assert more[..|links|] == links;
    forall j | 0 <= j < i + 1 ensures j in Ends(more) || j in rest <==> Weight(row[j]) != 0 {
      assert stack == rest + [x];
      assert j in stack <==> j in rest || j == x;
    }
    forall a | 0 <= a < |rest| ensures row[rest[a]] == c && rest[a] !in Ends(more) {
      assert rest[a] == stack[a] < x;
    }
  }

  lemma PopPlanar(i: nat, stack: seq<nat>, links: seq<Link>)
    requires Planar(i, stack, links) && stack != []
    ensures Planar(i + 1, stack[..|stack| - 1], links + [Link(stack[|stack| - 1], i)])
  {
    var x := stack[|stack| - 1];
    var more := links + [Link(x, i)];
    forall a, b | 0 <= a < |more| && 0 <= b < |more|
      ensures !(more[a].left < more[b].left < more[a].right < more[b].right)
    {
      assert a < |links| && b == |links| ==> !(links[a].left < stack[|stack| - 1] < links[a].right);
    }
  }

  lemma Pop(row: string, i: nat, stack: seq<nat>, c: char, links: seq<Link>)
    requires Matched(row, i, stack, c, links) && i < |row| && stack != [] && Weight(row[i]) + Weight(c) == 0
    ensures Matched(row, i + 1, stack[..|stack| - 1], c, links + [Link(stack[|stack| - 1], i)])
  {
    hide Accounted, Planar, Length, Ends, OpenLength, Balance, Area;
    var rest, x := stack[..|stack| - 1], stack[|stack| - 1];
    assert stack == rest + [x];
    PopAccounted(row, i, stack, c, links);
    PopPlanar(i, stack, links);
    OpenTop(rest, x, i);
    OpenLater(rest, i);
    LengthTop(links, Link(x, i));
    SumsNext(row, i);
  }

  // Other characters are passed over.

  lemma Skip(row: string, i: nat, stack: seq<nat>, c: char, links: seq<Link>)
    requires Matched(row, i, stack, c, links) && i < |row| && Weight(row[i]) == 0
    ensures Matched(row, i + 1, stack, c, links)
  {
    hide Linked, Length, Ends, OpenLength, Balance, Area;
    OpenLater(stack, i);
    SumsNext(row, i);
  }

  /** With nothing open it does not matter which symbol would be open. */
  lemma NothingOpen(row: string, i: nat, c: char, d: char, links: seq<Link>)
    requires Matched(row, i, [], c, links) && Weight(d) != 0
    ensures Matched(row, i, [], d, links)
  {
  }

  lemma NothingYet(row: string, c: char)
    requires Weight(c) != 0
    ensures Matched(row, 0, [], c, [])
  {
  }

  lemma NoneOpenAtEnd(row: string, stack: seq<nat>, c: char, links: seq<Link>)
    requires Matched(row, |row|, stack, c, links)
    ensures stack == [] <==> Balance(row, |row|) == 0
    ensures stack == [] ==> Perfect(row, links) && NonCrossing(links) && Length(links) == Area(row, |row|)
  {
    hide Linked, Ends, Length, Balance, Area;
  }

  /** The links as the program prints them, counted from 1. */
  datatype Pin = Pin(first: nat, second: nat)

  function Links(pins: seq<Pin>): (links: seq<Link>)
    requires forall i :: 0 <= i < |pins| ==> pins[i].first > 0 && pins[i].second > 0
    ensures |links| == |pins|
    ensures forall i :: 0 <= i < |pins| ==> links[i] == Link(pins[i].first - 1, pins[i].second - 1)
  {
    seq(|pins|, i requires 0 <= i < |pins| => Link(pins[i].first - 1, pins[i].second - 1))
  }

  function SumOf(xs: seq<int>): int {
    if xs == [] then 0 else SumOf(xs[..|xs| - 1]) + xs[|xs| - 1]
  }

  lemma SumTop(xs: seq<int>, x: int)
    ensures SumOf(xs + [x]) == SumOf(xs) + x
  {
    assert (xs + [x])[..|xs|] == xs;
  }

  /** The bookkeeping of heights: h for a new link, and the highest link so far with its ends. */
  datatype Heights = Heights(h: int, top: int, left: int, right: int)

  function NextHeight(s: Heights, x: int, i: int): Heights {
    var h := if x < s.left && i > s.right then s.top + 1 else s.h + 1;
    if h >= s.top then Heights(h, h, x, i) else s.(h := h)
  }

  // What the heights are, read off the links: one above the highest link so far when the
  // new one goes round it, one above the previous link when nothing was opened since, else 1.

  /** The last of the greatest among the first k heights, -1 when there is none. */
  function Highest(heights: seq<int>, k: nat): (r: int)
    requires k <= |heights|
    ensures -1 <= r < k && (k > 0 ==> r >= 0)
    ensures r >= 0 ==> forall j :: 0 <= j < k ==> heights[j] <= heights[r]
    ensures r >= 0 ==> forall j :: r < j < k ==> heights[j] < heights[r]
  {
    if k == 0 then -1
    else
      var r := Highest(heights, k - 1);
      if r < 0 || heights[k - 1] >= heights[r] then k - 1 else r
  }

  predicate NothingOpened(row: string, a: nat, b: nat) {
    forall j :: a < j < b && j < |row| ==> Weight(row[j]) == 0
  }

  /** The height link k is put on top of. */
  function Below(row: string, links: seq<Link>, heights: seq<int>, k: nat): int
    requires k < |links| && k <= |heights|
  {
    var r := Highest(heights, k);
    if r >= 0 && links[k].left < links[r].left && links[k].right > links[r].right then heights[r]
    else if k > 0 && NothingOpened(row, links[k - 1].right, links[k].right) then heights[k - 1]
    else 0
  }

  predicate HeightsFollow(row: string, links: seq<Link>, heights: seq<int>) {
    |heights| == |links| && forall k :: 0 <= k < |links| ==> heights[k] == 1 + Below(row, links, heights, k)
  }

  /** The loop's bookkeeping before symbol i. */
  predicate Booked(row: string, i: nat, links: seq<Link>, heights: seq<int>, s: Heights) {
    && i <= |row| && HeightsFollow(row, links, heights)
    && (forall k :: 0 <= k < |links| ==> links[k].right < i)
    && (forall k :: 0 <= k < |heights| ==> heights[k] >= 1)
    && var n, r := |links|, Highest(heights, |heights|);
       && (if r < 0 then s.top == 0 && s.left == 0
           else s.top == heights[r] && s.left == links[r].left && s.right == links[r].right)
       && s.h == if n > 0 && NothingOpened(row, links[n - 1].right, i) then heights[n - 1] else 0
  }

  lemma NothingBooked(row: string, s: Heights)
    requires s == Heights(0, 0, 0, 1000)
    ensures Booked(row, 0, [], [], s)
  {
  }

  lemma BookPush(row: string, i: nat, links: seq<Link>, heights: seq<int>, s: Heights)
    requires Booked(row, i, links, heights, s) && i < |row| && Weight(row[i]) != 0
    ensures Booked(row, i + 1, links, heights, s.(h := 0))
  {
    hide HeightsFollow, Highest;
    var n := |links|;
    if n > 0 {
      assert links[n - 1].right < i < i + 1;
    }
  }

  lemma BookSkip(row: string, i: nat, links: seq<Link>, heights: seq<int>, s: Heights)
    requires Booked(row, i, links, heights, s) && i < |row| && Weight(row[i]) == 0
    ensures Booked(row, i + 1, links, heights, s)
  {
    hide HeightsFollow, Highest;
  }

  lemma {:induction false} HighestBefore(heights: seq<int>, h: int, k: nat)
    requires k <= |heights|
    ensures Highest(heights + [h], k) == Highest(heights, k)
    decreases k
  {
    if k == 0 {
    } else {
      HighestBefore(heights, h, k - 1);
    }
  }

  lemma BelowBefore(row: string, links: seq<Link>, heights: seq<int>, l: Link, h: int, k: nat)
    requires |heights| == |links| && k <= |links|
    ensures Below(row, links + [l], heights + [h], k) ==
            if k < |links| then Below(row, links, heights, k) else Below(row, links + [l], heights, k)
  {
    hide Highest;
    HighestBefore(heights, h, k);
  }

  lemma BookPop(row: string, i: nat, links: seq<Link>, heights: seq<int>, s: Heights, x: nat)
    requires Booked(row, i, links, heights, s) && i < |row| && x < i
    ensures var r := NextHeight(s, x, i);
            Booked(row, i + 1, links + [Link(x, i)], heights + [r.h], r)
  {
    hide HeightsFollow, Below, Highest, NothingOpened;
    var r, n := NextHeight(s, x, i), |links|;
    var more, l := heights + [r.h], Link(x, i);
    assert |heights| == n by { BookedSizes(row, i, links, heights, s); }
    NextIsBelow(row, i, links, heights, s, x);
    FollowMore(row, links, heights, l, r.h);
    HighestMore(heights, r.h);
    NothingSince(row, i);
    assert forall j :: 0 <= j < n ==> (links + [l])[j] == links[j] && more[j] == heights[j];
  }

  lemma BookedSizes(row: string, i: nat, links: seq<Link>, heights: seq<int>, s: Heights)
    requires Booked(row, i, links, heights, s)
    ensures |heights| == |links|
  {
  }

  lemma HighestMore(heights: seq<int>, h: int)
    ensures var r := Highest(heights, |heights|);
            Highest(heights + [h], |heights| + 1) == if r < 0 || h >= heights[r] then |heights| else r
  {
    HighestBefore(heights, h, |heights|);
  }

  lemma NothingSince(row: string, i: nat)
    ensures NothingOpened(row, i, i + 1)
  {
  }

  lemma NextIsBelow(row: string, i: nat, links: seq<Link>, heights: seq<int>, s: Heights, x: nat)
    requires Booked(row, i, links, heights, s) && i < |row| && x < i
    ensures NextHeight(s, x, i).h == 1 + Below(row, links + [Link(x, i)], heights, |links|)
  {
    hide HeightsFollow, Highest, NothingOpened;
    var more, n := links + [Link(x, i)], |links|;
    BookedSizes(row, i, links, heights, s);
    assert more[n] == Link(x, i);
    assert forall j :: 0 <= j < n ==> more[j] == links[j];
  }

  lemma FollowMore(row: string, links: seq<Link>, heights: seq<int>, l: Link, h: int)
    requires HeightsFollow(row, links, heights) && h == 1 + Below(row, links + [l], heights, |links|)
    ensures HeightsFollow(row, links + [l], heights + [h])
  {
    hide Below;
    forall k | 0 <= k <= |links|
      ensures (heights + [h])[k] == 1 + Below(row, links + [l], heights + [h], k)
    {
      BelowBefore(row, links, heights, l, h, k);
    }
  }

  /**
   minimum_length. heights lists the height given to each link; the returned
   number adds twice these to the horizontal length.
   */
  method MinimumLength(cablaj: string) returns (total: int, pins: seq<Pin>, ghost heights: seq<int>)
    ensures forall i :: 0 <= i < |pins| ==> pins[i].first > 0 && pins[i].second > 0
    ensures NonCrossing(Links(pins)) && Linked(cablaj, Links(pins))
    ensures |pins| == Min(Count(cablaj, '0', |cablaj|), Count(cablaj, '1', |cablaj|))
    ensures forall links :: Linked(cablaj, links) ==> |links| <= |pins|
    ensures Perfect(cablaj, Links(pins)) <==> Balance(cablaj, |cablaj|) == 0
    ensures Balance(cablaj, |cablaj|) == 0 ==> Length(Links(pins)) == Area(cablaj, |cablaj|)
    ensures Balance(cablaj, |cablaj|) == 0 ==>
              forall links :: Perfect(cablaj, links) ==> Length(Links(pins)) <= Length(links)
    ensures |heights| == |pins| && total == Length(Links(pins)) + 2 * SumOf(heights)
    ensures forall i :: 0 <= i < |heights| ==> heights[i] >= 1
    ensures HeightsFollow(cablaj, Links(pins), heights)
  {
    hide Matched, Links, SumOf, Length, Area, Booked, HeightsFollow, NextHeight;
    var oneList: seq<nat>, zeroList: seq<nat> := [], [];
    total, pins, heights := 0, [], [];
    var s := Heights(0, 0, 0, 1000);
    NothingYet(cablaj, '1');
    LinksNone(pins);
    NothingBooked(cablaj, s);
    for i := 0 to |cablaj|
      invariant forall j :: 0 <= j < |pins| ==> pins[j].first > 0 && pins[j].second > 0
      invariant oneList == [] || zeroList == []
      invariant zeroList == [] ==> Matched(cablaj, i, oneList, '1', Links(pins))
      invariant zeroList != [] ==> Matched(cablaj, i, zeroList, '0', Links(pins))
      invariant |heights| == |pins| && total == Length(Links(pins)) + 2 * SumOf(heights)
      invariant Booked(cablaj, i, Links(pins), heights, s)
    {
      if cablaj[i] == '1' {
        if zeroList == [] {
          BookPush(cablaj, i, Links(pins), heights, s);
          s := s.(h := 0);
          Push(cablaj, i, oneList, '1', Links(pins));
          oneList := oneList + [i];
        } else {
          var x := zeroList[|zeroList| - 1];
          StackBelow(cablaj, i, zeroList, '0', Links(pins));
          Pop(cablaj, i, zeroList, '0', Links(pins));
          zeroList := zeroList[..|zeroList| - 1];
          BookPop(cablaj, i, Links(pins), heights, s, x);
          s := NextHeight(s, x, i);
          AddPin(pins, heights, x, i, s.h);
          total := total + (i - x) + 2 * s.h;
          pins, heights := pins + [Pin(x + 1, i + 1)], heights + [s.h];
          if zeroList == [] {
            NothingOpen(cablaj, i + 1, '0', '1', Links(pins));
          }
        }
      } else if cablaj[i] == '0' {
        if oneList == [] {
          BookPush(cablaj, i, Links(pins), heights, s);
          s := s.(h := 0);
          if zeroList == [] {
            NothingOpen(cablaj, i, '1', '0', Links(pins));
          }
          Push(cablaj, i, zeroList, '0', Links(pins));
          zeroList := zeroList + [i];
        } else {
          var x := oneList[|oneList| - 1];
          StackBelow(cablaj, i, oneList, '1', Links(pins));
          Pop(cablaj, i, oneList, '1', Links(pins));
          oneList := oneList[..|oneList| - 1];
          BookPop(cablaj, i, Links(pins), heights, s, x);
          s := NextHeight(s, x, i);
          AddPin(pins, heights, x, i, s.h);
          total := total + (i - x) + 2 * s.h;
          pins, heights := pins + [Pin(x + 1, i + 1)], heights + [s.h];
        }
      } else if zeroList == [] {
        BookSkip(cablaj, i, Links(pins), heights, s);
        Skip(cablaj, i, oneList, '1', Links(pins));
      } else {
        BookSkip(cablaj, i, Links(pins), heights, s);
        Skip(cablaj, i, zeroList, '0', Links(pins));
      }
    }
    ghost var open, symbol := if zeroList == [] then oneList else zeroList, if zeroList == [] then '1' else '0';
    Optimal(cablaj, open, symbol, Links(pins));
    Largest(cablaj, open, symbol, Links(pins));
    BookedFollows(cablaj, |cablaj|, Links(pins), heights, s);
  }

  lemma BookedFollows(row: string, i: nat, links: seq<Link>, heights: seq<int>, s: Heights)
    requires Booked(row, i, links, heights, s)
    ensures HeightsFollow(row, links, heights) && forall k :: 0 <= k < |heights| ==> heights[k] >= 1
  {
  }

  lemma LinksNone(pins: seq<Pin>)
    requires pins == []
    ensures Links(pins) == [] && Length([]) == 0 && SumOf([]) == 0
  {
  }

  lemma StackBelow(row: string, i: nat, stack: seq<nat>, c: char, links: seq<Link>)
    requires Matched(row, i, stack, c, links) && stack != []
    ensures stack[|stack| - 1] < i
  {
  }

  lemma AddPin(pins: seq<Pin>, heights: seq<int>, x: nat, i: nat, h: int)
    requires forall j :: 0 <= j < |pins| ==> pins[j].first > 0 && pins[j].second > 0
    ensures Links(pins + [Pin(x + 1, i + 1)]) == Links(pins) + [Link(x, i)]
    ensures Length(Links(pins) + [Link(x, i)]) == Length(Links(pins)) + i - x
    ensures SumOf(heights + [h]) == SumOf(heights) + h
  {
    hide Length;
    LengthTop(Links(pins), Link(x, i));
    SumTop(heights, h);
  }

  lemma Optimal(row: string, stack: seq<nat>, c: char, links: seq<Link>)
    requires Matched(row, |row|, stack, c, links)
    ensures NonCrossing(links) && Linked(row, links)
    ensures Perfect(row, links) <==> Balance(row, |row|) == 0
    ensures Balance(row, |row|) == 0 ==> Length(links) == Area(row, |row|)
    ensures Balance(row, |row|) == 0 ==> forall other :: Perfect(row, other) ==> Length(links) <= Length(other)
  {
    hide Length, Area, Ends, Linked;
    NoneOpenAtEnd(row, stack, c, links);
    if stack != [] {
      assert stack[0] < |row| && stack[0] !in Ends(links);
    }
    forall other | Perfect(row, other) ensures Area(row, |row|) <= Length(other) {
      NoShorterMatching(row, other);
    }
  }

  /** With only one symbol left open, the rarer symbol is used up. */
  lemma Largest(row: string, stack: seq<nat>, c: char, links: seq<Link>)
    requires Matched(row, |row|, stack, c, links)
    ensures |links| == Min(Count(row, '0', |row|), Count(row, '1', |row|))
    ensures forall other :: Linked(row, other) ==> |other| <= |links|
  {
    hide Linked, Ends, Measured, Planar, Count, CountIn;
    var d := if c == '1' then '0' else '1';
    forall i | 0 <= i < |row| && row[i] == d ensures i in Ends(links) {
    }
    LinksAreCounted(row, links, d);
    CountInIsLess(row, d, Ends(links), |row|);
    NoLargerMatching(row, links);
    forall other | Linked(row, other) ensures |other| <= |links| {
      NoLargerMatching(row, other);
    }
  }
}
