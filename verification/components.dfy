/**
 `count_connected_components`: the filled cells split into groups of cells
 joined by horizontal and vertical steps through filled cells. The grid is
 scanned row by row; each filled cell not yet visited seeds a depth-first
 flood fill driven by an explicit stack.
 */
module Components {
  import opened Grid

  /** The four neighbours in the order the flood fill pushes them: right, left, down, up. */
  function Neighbours(c: Coord): seq<Coord> {
    [(c.0, c.1 + 1), (c.0, c.1 - 1), (c.0 + 1, c.1), (c.0 - 1, c.1)]
  }

  /** `b` is one horizontal or vertical step away from `a`. */
  predicate Adjacent(a: Coord, b: Coord) {
    || (a.0 == b.0 && (b.1 == a.1 + 1 || b.1 == a.1 - 1))
    || (a.1 == b.1 && (b.0 == a.0 + 1 || b.0 == a.0 - 1))
  }

  /** A walk through filled cells, one step at a time. */
  ghost predicate IsPath(g: WordGrid, p: seq<Coord>) {
    && |p| > 0
    && (forall i :: 0 <= i < |p| ==> g.Filled(p[i]))
    && (forall i :: 1 <= i < |p| ==> Adjacent(p[i - 1], p[i]))
  }

  /** `a` and `b` belong to the same group of connected filled cells. */
  ghost predicate Linked(g: WordGrid, a: Coord, b: Coord) {
    exists p :: IsPath(g, p) && p[0] == a && p[|p| - 1] == b
  }

  /** No filled neighbour of a member of `s` lies outside `s`. */
  ghost predicate Closed(g: WordGrid, s: set<Coord>) {
    forall a, b :: a in s && Adjacent(a, b) && g.Filled(b) ==> b in s
  }

  /** No cell is listed twice. */
  predicate Distinct(cs: seq<Coord>) {
    forall i, j :: 0 <= i < j < |cs| ==> cs[i] != cs[j]
  }

  /** Row-major order: `a` is scanned before `b`. */
  predicate Before(a: Coord, b: Coord) {
    a.0 < b.0 || (a.0 == b.0 && a.1 < b.1)
  }

  // ---------------------------------------------------------------------
  // Connectivity is an equivalence on the filled cells.

  lemma LinkedRefl(g: WordGrid, a: Coord)
    requires g.Filled(a)
    ensures Linked(g, a, a)
  {
    assert IsPath(g, [a]);
  }

  lemma LinkedStep(g: WordGrid, a: Coord, b: Coord, c: Coord)
    requires Linked(g, a, b) && Adjacent(b, c) && g.Filled(c)
    ensures Linked(g, a, c)
  {
    var p :| IsPath(g, p) && p[0] == a && p[|p| - 1] == b;
    var q := p + [c];
    assert forall i :: 0 <= i < |p| ==> q[i] == p[i];
    assert IsPath(g, q);
  }

  lemma LinkedSym(g: WordGrid, a: Coord, b: Coord)
    requires Linked(g, a, b)
    ensures Linked(g, b, a)
  {
    var p :| IsPath(g, p) && p[0] == a && p[|p| - 1] == b;
    var q := seq(|p|, i requires 0 <= i < |p| => p[|p| - 1 - i]);
    forall i | 1 <= i < |q|
      ensures Adjacent(q[i - 1], q[i])
    {
      assert Adjacent(p[|p| - 1 - i], p[|p| - i]);
    }
    assert IsPath(g, q);
  }

  lemma LinkedTrans(g: WordGrid, a: Coord, b: Coord, c: Coord)
    requires Linked(g, a, b) && Linked(g, b, c)
    ensures Linked(g, a, c)
  {
    var p :| IsPath(g, p) && p[0] == a && p[|p| - 1] == b;
    var q :| IsPath(g, q) && q[0] == b && q[|q| - 1] == c;
    var r := p + q[1..];
    forall i | 1 <= i < |r|
      ensures Adjacent(r[i - 1], r[i])
    {
      if i < |p| {
        assert r[i - 1] == p[i - 1] && r[i] == p[i];
      } else {
        assert r[i] == q[i - |p| + 1];
        assert r[i - 1] == q[i - |p|];
      }
    }
    assert IsPath(g, r);
    assert r[|r| - 1] == c;
  }

  /** A path that starts in a closed set never leaves it. */
  lemma {:induction false} PathStaysInside(g: WordGrid, s: set<Coord>, p: seq<Coord>)
    requires Closed(g, s) && IsPath(g, p) && p[0] in s
    ensures forall i :: 0 <= i < |p| ==> p[i] in s
    decreases |p|
  {
    if |p| > 1 {
      var q := p[..|p| - 1];
      assert IsPath(g, q);
      PathStaysInside(g, s, q);
      assert forall i :: 0 <= i < |q| ==> p[i] == q[i];
      assert Adjacent(p[|p| - 2], p[|p| - 1]);
    }
  }

  /** A closed set holds everything linked to any of its members. */
  lemma ClosedHoldsLinked(g: WordGrid, s: set<Coord>, a: Coord, b: Coord)
    requires Closed(g, s) && a in s && Linked(g, a, b)
    ensures b in s
  {
    var p :| IsPath(g, p) && p[0] == a && p[|p| - 1] == b;
    PathStaysInside(g, s, p);
  }

  // ---------------------------------------------------------------------
  // The flood fill.

  /** `[c]` when `c` is in range, not yet visited and filled; `[]` otherwise. */
  function Fresh(g: WordGrid, visited: set<Coord>, c: Coord): (r: seq<Coord>)
    requires g.Wf()
    ensures forall b :: b in r <==> b == c && g.Filled(c) && c !in visited
  {
    if 0 <= c.0 < g.n && 0 <= c.1 < g.m && c !in visited && g.cells[c.0][c.1] != "" then [c] else []
  }

  /** The cells pushed after visiting `x`: its unvisited filled neighbours, right, left, down, up. */
  function FreshNeighbours(g: WordGrid, visited: set<Coord>, x: Coord): (r: seq<Coord>)
    requires g.Wf()
    ensures forall b :: b in r <==> Adjacent(x, b) && g.Filled(b) && b !in visited
  {
    var ns := Neighbours(x);
    Fresh(g, visited, ns[0]) + Fresh(g, visited, ns[1]) + Fresh(g, visited, ns[2]) + Fresh(g, visited, ns[3])
  }

  /** The members of `visited` are those of `visited0` and of `comp`, which share none. */
  ghost predicate SplitVisited(visited0: set<Coord>, visited: set<Coord>, comp: seq<Coord>) {
    && (forall c :: c in visited <==> c in visited0 || c in comp)
    && (forall i :: 0 <= i < |comp| ==> comp[i] !in visited0)
    && Distinct(comp)
    && |visited| == |visited0| + |comp|
  }

  /** What holds at the top of every pass of the flood fill's `while stack` loop. */
  ghost predicate FloodInv(g: WordGrid, visited0: set<Coord>, seed: Coord,
                           visited: set<Coord>, comp: seq<Coord>, stack: seq<Coord>) {
    && seed !in visited0
    && visited0 <= visited <= FilledSet(g)
    && SplitVisited(visited0, visited, comp)
    && (forall i :: 0 <= i < |stack| ==> g.Filled(stack[i]) && Linked(g, seed, stack[i]))
    && (forall c :: c in comp ==> Linked(g, seed, c))
    && (forall a, b :: a in comp && Adjacent(a, b) && g.Filled(b) ==> b in visited || b in stack)
    && ((|comp| == 0 && stack == [seed]) || (|comp| > 0 && comp[0] == seed))
  }

  /**
   The flood fill started at `seed` (one pass of the `while stack` loop):
   `comp` lists, in the order they are popped, exactly the cells linked to
   the seed, and `visited` gains exactly those cells.
   */
  method Flood(g: WordGrid, visited0: set<Coord>, seed: Coord) returns (comp: seq<Coord>, visited: set<Coord>)
    requires g.Wf()
    requires g.Filled(seed) && seed !in visited0
    requires visited0 <= FilledSet(g) && Closed(g, visited0)
    ensures |comp| > 0 && comp[0] == seed
    ensures SplitVisited(visited0, visited, comp)
    ensures forall c :: c in comp <==> Linked(g, seed, c)
    ensures visited <= FilledSet(g) && Closed(g, visited)
  {
    comp := [];
    visited := visited0;
    var stack := [seed];
    LinkedRefl(g, seed);
    while |stack| > 0
      invariant FloodInv(g, visited0, seed, visited, comp, stack)
      decreases FilledSet(g) - visited, |stack|
    {
      var x := stack[|stack| - 1];
      if x in visited {
        FloodSkip(g, visited0, seed, visited, comp, stack);
        stack := stack[..|stack| - 1];
      } else {
        FloodVisitStep(g, visited0, seed, visited, comp, stack);
        var pushed := FreshNeighbours(g, visited + {x}, x);
        visited := visited + {x};
        comp := comp + [x];
        stack := stack[..|stack| - 1] + pushed;
      }
    }
    FloodClosed(g, visited0, visited, comp, seed);
  }

  /** Popping a cell that is already visited changes nothing else. */
  lemma FloodSkip(g: WordGrid, visited0: set<Coord>, seed: Coord,
                  visited: set<Coord>, comp: seq<Coord>, stack: seq<Coord>)
    requires FloodInv(g, visited0, seed, visited, comp, stack)
    requires |stack| > 0 && stack[|stack| - 1] in visited
    ensures FloodInv(g, visited0, seed, visited, comp, stack[..|stack| - 1])
  {
    var x := stack[|stack| - 1];
    var rest := stack[..|stack| - 1];
    assert forall b :: b in stack <==> b in rest || b == x;
  }

  /** Popping an unvisited cell: it joins the component and its fresh neighbours are pushed. */
  lemma FloodVisitStep(g: WordGrid, visited0: set<Coord>, seed: Coord,
                       visited: set<Coord>, comp: seq<Coord>, stack: seq<Coord>)
    requires g.Wf()
    requires FloodInv(g, visited0, seed, visited, comp, stack)
    requires |stack| > 0 && stack[|stack| - 1] !in visited
    ensures var x := stack[|stack| - 1];
      && x in FilledSet(g) - visited
      && FloodInv(g, visited0, seed, visited + {x}, comp + [x],
                  stack[..|stack| - 1] + FreshNeighbours(g, visited + {x}, x))
  {
    var x := stack[|stack| - 1];
    var rest := stack[..|stack| - 1];
    var pushed := FreshNeighbours(g, visited + {x}, x);
    FilledSetIsFilled(g, x);
    FloodVisit(g, visited0, visited, comp, x);
    PushedLinked(g, seed, x, rest, pushed);
    FrontierStep(g, visited, comp, stack, x, pushed);
  }

  /** The stack after the push still holds only filled cells linked to the seed. */
  lemma PushedLinked(g: WordGrid, seed: Coord, x: Coord, rest: seq<Coord>, pushed: seq<Coord>)
    requires Linked(g, seed, x)
    requires forall i :: 0 <= i < |rest| ==> g.Filled(rest[i]) && Linked(g, seed, rest[i])
    requires forall b :: b in pushed ==> Adjacent(x, b) && g.Filled(b)
    ensures forall i :: 0 <= i < |rest + pushed| ==>
      g.Filled((rest + pushed)[i]) && Linked(g, seed, (rest + pushed)[i])
  {
    var s := rest + pushed;
    forall i | 0 <= i < |s|
      ensures g.Filled(s[i]) && Linked(g, seed, s[i])
    {
      if i < |rest| {
        assert s[i] == rest[i];
      } else {
        assert s[i] == pushed[i - |rest|];
        assert pushed[i - |rest|] in pushed;
        LinkedStep(g, seed, x, s[i]);
      }
    }
  }

  /** Every filled neighbour of the component is still visited or waiting on the stack. */
  lemma FrontierStep(g: WordGrid, visited: set<Coord>, comp: seq<Coord>, stack: seq<Coord>,
                     x: Coord, pushed: seq<Coord>)
    requires |stack| > 0 && x == stack[|stack| - 1]
    requires forall a, b :: a in comp && Adjacent(a, b) && g.Filled(b) ==> b in visited || b in stack
    requires forall b :: b in pushed <==> Adjacent(x, b) && g.Filled(b) && b !in visited + {x}
    ensures forall a, b :: a in comp + [x] && Adjacent(a, b) && g.Filled(b) ==>
      b in visited + {x} || b in stack[..|stack| - 1] + pushed
  {
    var rest := stack[..|stack| - 1];
    assert forall b :: b in stack <==> b in rest || b == x by {
      assert stack == rest + [x];
    }
  }

  /** Visiting a fresh filled cell keeps the visited set split between `visited0` and `comp`. */
  lemma FloodVisit(g: WordGrid, visited0: set<Coord>, visited: set<Coord>, comp: seq<Coord>, x: Coord)
    requires SplitVisited(visited0, visited, comp) && x !in visited
    ensures SplitVisited(visited0, visited + {x}, comp + [x])
  {
    var comp' := comp + [x];
    assert forall i :: 0 <= i < |comp| ==> comp'[i] == comp[i];
    assert forall c :: c in comp' <==> c in comp || c == x;
  }

  /** With the stack empty the visited set is closed and `comp` is the seed's whole group. */
  lemma FloodClosed(g: WordGrid, visited0: set<Coord>, visited: set<Coord>, comp: seq<Coord>, seed: Coord)
    requires seed !in visited0 && Closed(g, visited0)
    requires SplitVisited(visited0, visited, comp)
    requires |comp| > 0 && comp[0] == seed
    requires forall c :: c in comp ==> Linked(g, seed, c)
    requires forall a, b :: a in comp && Adjacent(a, b) && g.Filled(b) ==> b in visited
    ensures Closed(g, visited)
    ensures forall c :: c in comp <==> Linked(g, seed, c)
  {
    forall c | Linked(g, seed, c)
      ensures c in comp
    {
      ClosedHoldsLinked(g, visited, seed, c);
      if c in visited0 {
        LinkedSym(g, seed, c);
        ClosedHoldsLinked(g, visited0, c, seed);
        assert false;
      }
    }
  }

  // ---------------------------------------------------------------------
  // The row-by-row scan.

  /** The cells a sequence lists. */
  function Elems(cs: seq<Coord>): set<Coord> {
    set c | c in cs
  }

  /** Every cell listed in some component. */
  function Members(comps: seq<seq<Coord>>): set<Coord> {
    if |comps| == 0 then {} else Members(comps[..|comps| - 1]) + Elems(comps[|comps| - 1])
  }

  lemma {:induction false} MembersSpec(comps: seq<seq<Coord>>)
    ensures forall c :: c in Members(comps) <==> exists k :: 0 <= k < |comps| && c in comps[k]
  {
    if |comps| > 0 {
      var front := comps[..|comps| - 1];
      MembersSpec(front);
      assert forall k :: 0 <= k < |front| ==> front[k] == comps[k];
    }
  }

  /** `[len(c) for c in components]`. */
  function Lengths(comps: seq<seq<Coord>>): (sizes: seq<nat>)
    ensures |sizes| == |comps|
    ensures forall k :: 0 <= k < |comps| ==> sizes[k] == |comps[k]|
  {
    seq(|comps|, k requires 0 <= k < |comps| => |comps[k]|)
  }

  function Sum(xs: seq<nat>): nat {
    if |xs| == 0 then 0 else Sum(xs[..|xs| - 1]) + xs[|xs| - 1]
  }

  /**
   A component as the scan produces it: its cells listed once each, exactly
   the cells linked to its first cell, and that first cell (the seed) the
   earliest of them in row-major order.
   */
  ghost predicate IsGroup(g: WordGrid, cs: seq<Coord>) {
    && |cs| > 0
    && Distinct(cs)
    && (forall c :: c in cs <==> Linked(g, cs[0], c))
    && (forall c :: c in cs && c != cs[0] ==> Before(cs[0], c))
  }

  /** No cell belongs to two components. */
  ghost predicate Disjoint(comps: seq<seq<Coord>>) {
    forall k, l, c :: 0 <= k < l < |comps| && c in comps[l] ==> c !in comps[k]
  }

  /** Every pair of filled cells is connected. */
  ghost predicate AllLinked(g: WordGrid) {
    forall a, b :: g.Filled(a) && g.Filled(b) ==> Linked(g, a, b)
  }

  /** The seeds appear in row-major order. */
  predicate SeedsOrdered(comps: seq<seq<Coord>>) {
    forall k, l :: 0 <= k < l < |comps| && |comps[k]| > 0 && |comps[l]| > 0 ==> Before(comps[k][0], comps[l][0])
  }

  /** What the components found so far satisfy, wherever the scan is. */
  ghost predicate Built(g: WordGrid, comps: seq<seq<Coord>>, visited: set<Coord>) {
    && visited <= FilledSet(g) && Closed(g, visited)
    && visited == Members(comps)
    && |visited| == Sum(Lengths(comps))
    && (forall k :: 0 <= k < |comps| ==> IsGroup(g, comps[k]))
    && SeedsOrdered(comps)
    && Disjoint(comps)
  }

  /** Every seed so far comes before the cell `cur`. */
  predicate SeedsBefore(comps: seq<seq<Coord>>, cur: Coord) {
    forall k :: 0 <= k < |comps| && |comps[k]| > 0 ==> Before(comps[k][0], cur)
  }

  /** Every filled cell before `cur` has been visited. */
  ghost predicate DoneBefore(g: WordGrid, visited: set<Coord>, cur: Coord) {
    forall c :: g.Filled(c) && Before(c, cur) ==> c in visited
  }

  /**
   `count_connected_components`: the components, seeds in row-major order,
   and their sizes. The components partition the filled cells, each one is
   a whole group of connected cells, and there is at most one component
   exactly when all filled cells are connected.
   */
  method CountConnectedComponents(g: WordGrid) returns (comps: seq<seq<Coord>>, sizes: seq<nat>)
    requires g.Wf() && g.n > 0
    ensures sizes == Lengths(comps)
    ensures forall k :: 0 <= k < |comps| ==> IsGroup(g, comps[k])
    ensures SeedsOrdered(comps)
    ensures Disjoint(comps)
    ensures Members(comps) == FilledSet(g)
    ensures Sum(sizes) == |FilledSet(g)|
    ensures |comps| <= 1 <==> AllLinked(g)
  {
    comps := [];
    var visited: set<Coord> := {};
    var i := 0;
    while i < g.n
      invariant 0 <= i <= g.n
      invariant Built(g, comps, visited)
      invariant SeedsBefore(comps, (i, 0)) && DoneBefore(g, visited, (i, 0))
    {
      comps, visited := ScanRow(g, comps, visited, i);
      NextRow(g, comps, visited, i);
      i := i + 1;
    }
    sizes := Lengths(comps);
    ScanDone(g, comps, visited);
    OneGroupIffAllLinked(g, comps);
  }

  /** The inner loop `for j in range(m)` over row `i`. */
  method ScanRow(g: WordGrid, comps0: seq<seq<Coord>>, visited0: set<Coord>, i: nat)
    returns (comps: seq<seq<Coord>>, visited: set<Coord>)
    requires g.Wf() && i < g.n
    requires Built(g, comps0, visited0)
    requires SeedsBefore(comps0, (i, 0)) && DoneBefore(g, visited0, (i, 0))
    ensures Built(g, comps, visited)
    ensures SeedsBefore(comps, (i, g.m)) && DoneBefore(g, visited, (i, g.m))
  {
    comps, visited := comps0, visited0;
    var j := 0;
    while j < g.m
      invariant 0 <= j <= g.m
      invariant Built(g, comps, visited)
      invariant SeedsBefore(comps, (i, j)) && DoneBefore(g, visited, (i, j))
    {
      comps, visited := VisitCell(g, comps, visited, (i, j));
      j := j + 1;
    }
  }

  /**
   One step of the scan: a filled cell not yet visited seeds a new
   component, flooded from it; any other cell is passed over.
   */
  method VisitCell(g: WordGrid, comps0: seq<seq<Coord>>, visited0: set<Coord>, cur: Coord)
    returns (comps: seq<seq<Coord>>, visited: set<Coord>)
    requires g.Wf() && g.InBounds(cur)
    requires Built(g, comps0, visited0)
    requires SeedsBefore(comps0, cur) && DoneBefore(g, visited0, cur)
    ensures Built(g, comps, visited)
    ensures SeedsBefore(comps, (cur.0, cur.1 + 1)) && DoneBefore(g, visited, (cur.0, cur.1 + 1))
    ensures |comps0| <= |comps| <= |comps0| + 1
    ensures |comps| == |comps0| + 1 <==> g.Filled(cur) && cur !in visited0
  {
    if cur !in visited0 && g.cells[cur.0][cur.1] != "" {
      var comp, visited' := Flood(g, visited0, cur);
      NewGroup(g, visited0, cur, comp, visited');
      BuiltAdd(g, comps0, visited0, comp, visited');
      SeedsPast(comps0, cur, comp);
      DonePast(g, visited0, cur, visited');
      comps, visited := comps0 + [comp], visited';
    } else {
      SeedsPast(comps0, cur, []);
      DonePast(g, visited0, cur, visited0);
      comps, visited := comps0, visited0;
    }
  }

  /** Moving the cursor one cell on, past a seed placed at `cur` (or past no new seed). */
  lemma SeedsPast(comps: seq<seq<Coord>>, cur: Coord, comp: seq<Coord>)
    requires SeedsBefore(comps, cur)
    requires |comp| > 0 ==> comp[0] == cur
    ensures SeedsBefore(comps, (cur.0, cur.1 + 1))
    ensures |comp| > 0 ==> SeedsBefore(comps + [comp], (cur.0, cur.1 + 1))
  {
    var comps' := comps + [comp];
    forall k | 0 <= k < |comps'| && |comps'[k]| > 0
      ensures Before(comps'[k][0], (cur.0, cur.1 + 1))
    {
      if k < |comps| {
        assert comps'[k] == comps[k];
      }
    }
  }

  /** Moving the cursor past `cur` once `cur` is visited or empty. */
  lemma DonePast(g: WordGrid, visited: set<Coord>, cur: Coord, visited': set<Coord>)
    requires DoneBefore(g, visited, cur) && visited <= visited'
    requires cur in visited' || !g.Filled(cur)
    ensures DoneBefore(g, visited', (cur.0, cur.1 + 1))
  {
    forall c | g.Filled(c) && Before(c, (cur.0, cur.1 + 1))
      ensures c in visited'
    {
      if c != cur {
        assert Before(c, cur);
      }
    }
  }

  /** The component flooded from the first unvisited filled cell is a group with that seed. */
  lemma NewGroup(g: WordGrid, visited: set<Coord>, cur: Coord, comp: seq<Coord>, visited': set<Coord>)
    requires g.Wf() && DoneBefore(g, visited, cur)
    requires |comp| > 0 && comp[0] == cur
    requires SplitVisited(visited, visited', comp)
    requires visited' <= FilledSet(g)
    requires forall c :: c in comp <==> Linked(g, cur, c)
    ensures IsGroup(g, comp)
  {
    forall c | c in comp && c != cur
      ensures Before(cur, c)
    {
      assert c in visited';
      FilledSetIsFilled(g, c);
    }
  }

  /** Adding a fresh group keeps what the components found so far satisfy. */
  lemma BuiltAdd(g: WordGrid, comps: seq<seq<Coord>>, visited: set<Coord>, comp: seq<Coord>, visited': set<Coord>)
    requires Built(g, comps, visited) && IsGroup(g, comp) && SeedsBefore(comps, comp[0])
    requires SplitVisited(visited, visited', comp)
    requires visited' <= FilledSet(g) && Closed(g, visited')
    ensures Built(g, comps + [comp], visited')
  {
    MembersAdd(comps, visited, comp, visited');
    GroupsAdd(g, comps, comp);
    OrderedAdd(comps, comp);
    DisjointAdd(comps, visited, comp);
  }

  lemma MembersAdd(comps: seq<seq<Coord>>, visited: set<Coord>, comp: seq<Coord>, visited': set<Coord>)
    requires visited == Members(comps) && |visited| == Sum(Lengths(comps))
    requires SplitVisited(visited, visited', comp)
    ensures visited' == Members(comps + [comp]) && |visited'| == Sum(Lengths(comps + [comp]))
  {
    var comps' := comps + [comp];
    assert comps'[..|comps|] == comps;
    assert Lengths(comps')[..|comps|] == Lengths(comps);
  }

  lemma GroupsAdd(g: WordGrid, comps: seq<seq<Coord>>, comp: seq<Coord>)
    requires forall k :: 0 <= k < |comps| ==> IsGroup(g, comps[k])
    requires IsGroup(g, comp)
    ensures forall k :: 0 <= k < |comps + [comp]| ==> IsGroup(g, (comps + [comp])[k])
  {
    assert forall k :: 0 <= k < |comps| ==> (comps + [comp])[k] == comps[k];
  }

  lemma OrderedAdd(comps: seq<seq<Coord>>, comp: seq<Coord>)
    requires SeedsOrdered(comps) && |comp| > 0 && SeedsBefore(comps, comp[0])
    ensures SeedsOrdered(comps + [comp])
  {
    var comps' := comps + [comp];
    forall k, l | 0 <= k < l < |comps'| && |comps'[k]| > 0 && |comps'[l]| > 0
      ensures Before(comps'[k][0], comps'[l][0])
    {
      assert comps'[k] == comps[k];
      if l < |comps| {
        assert comps'[l] == comps[l];
      }
    }
  }

  lemma DisjointAdd(comps: seq<seq<Coord>>, visited: set<Coord>, comp: seq<Coord>)
    requires Disjoint(comps) && visited == Members(comps)
    requires forall i :: 0 <= i < |comp| ==> comp[i] !in visited
    ensures Disjoint(comps + [comp])
  {
    var comps' := comps + [comp];
    MembersSpec(comps);
    forall k, l, c | 0 <= k < l < |comps'| && c in comps'[l]
      ensures c !in comps'[k]
    {
      assert comps'[k] == comps[k];
      if l < |comps| {
        assert comps'[l] == comps[l];
      } else {
        assert c in comp;
      }
    }
  }

  /** At the end of row `i` the scan continues at the start of row `i + 1`. */
  lemma NextRow(g: WordGrid, comps: seq<seq<Coord>>, visited: set<Coord>, i: int)
    requires g.Wf()
    requires SeedsBefore(comps, (i, g.m)) && DoneBefore(g, visited, (i, g.m))
    ensures SeedsBefore(comps, (i + 1, 0)) && DoneBefore(g, visited, (i + 1, 0))
  {
  }

  /** After the last row every filled cell has been visited. */
  lemma ScanDone(g: WordGrid, comps: seq<seq<Coord>>, visited: set<Coord>)
    requires g.Wf()
    requires Built(g, comps, visited) && DoneBefore(g, visited, (g.n, 0))
    ensures Members(comps) == FilledSet(g) && Sum(Lengths(comps)) == |FilledSet(g)|
  {
    forall c | c in FilledSet(g)
      ensures c in visited
    {
      FilledSetIsFilled(g, c);
    }
  }

  /** There is at most one component exactly when every two filled cells are connected. */
  lemma OneGroupIffAllLinked(g: WordGrid, comps: seq<seq<Coord>>)
    requires forall k :: 0 <= k < |comps| ==> IsGroup(g, comps[k])
    requires Disjoint(comps)
    requires Members(comps) == FilledSet(g)
    ensures |comps| <= 1 <==> AllLinked(g)
  {
    if |comps| == 0 {
      forall a | g.Filled(a)
        ensures false
      {
        FilledSetIsFilled(g, a);
      }
    } else if |comps| == 1 {
      var s := comps[0][0];
      MembersSpec(comps);
      forall a, b | g.Filled(a) && g.Filled(b)
        ensures Linked(g, a, b)
      {
        FilledSetIsFilled(g, a);
        FilledSetIsFilled(g, b);
        LinkedSym(g, s, a);
        LinkedTrans(g, a, s, b);
      }
    } else {
      var s0, s1 := comps[0][0], comps[1][0];
      MembersSpec(comps);
      assert s0 in Members(comps) && s1 in Members(comps);
      FilledSetIsFilled(g, s0);
      FilledSetIsFilled(g, s1);
      assert !Linked(g, s0, s1);
    }
  }
}
