/**
 Reference counting with trial deletion, on values.  A state is the gc list (newest first) and the
 reference count and child slots of every listed object.  Objects are known by their address, which
 may be used again for a new object once the old one is released.
 */
module RcModel {
  import opened Addresses
  import opened Seqs

  const MAX_RC_CHILDREN := 4

  datatype Node = Node(count: nat, kids: seq<Addr>)

  type Graph = map<Addr, Node>

  datatype State = State(list: seq<Addr>, obj: Graph)

  ghost predicate WellFormed(s: State) {
    Distinct(s.list) && s.obj.Keys == Elems(s.list)
  }

  /** Every child of a listed object is listed. */
  ghost predicate Closed(s: State) {
    forall p, c :: p in s.obj && c in s.obj[p].kids ==> c in s.obj
  }

  // ----- The graph -----

  ghost predicate ReachIn(g: Graph, from: set<Addr>, x: Addr, n: nat)
    decreases n
  {
    if n == 0 then x in from
    else exists p :: p in g && x in g[p].kids && ReachIn(g, from, p, n - 1)
  }

  /** `x` is reachable along child slots from a member of `from`. */
  ghost predicate Reach(g: Graph, from: set<Addr>, x: Addr) {
    exists n: nat :: ReachIn(g, from, x, n)
  }

  /** Number of child slots of objects in `list` that hold `x`, with multiplicity. */
  ghost function InDegree(list: seq<Addr>, g: Graph, x: Addr): nat {
    if list == [] then 0
    else (if list[0] in g then multiset(g[list[0]].kids)[x] else 0) + InDegree(list[1..], g, x)
  }

  /** The objects holding more references than child slots account for. */
  ghost function Roots(s: State): set<Addr> {
    set x | x in s.obj && s.obj[x].count > InDegree(s.list, s.obj, x)
  }

  ghost predicate Alive(s: State, x: Addr) {
    Reach(s.obj, Roots(s), x)
  }

  ghost function Garbage(s: State): set<Addr> {
    set x | x in s.obj && !Alive(s, x)
  }

  lemma ReachRoot(g: Graph, from: set<Addr>, x: Addr)
    requires x in from
    ensures Reach(g, from, x)
  {
    assert ReachIn(g, from, x, 0);
  }

  lemma ReachStep(g: Graph, from: set<Addr>, p: Addr, x: Addr)
    requires Reach(g, from, p) && p in g && x in g[p].kids
    ensures Reach(g, from, x)
  {
    var n: nat :| ReachIn(g, from, p, n);
    assert ReachIn(g, from, x, n + 1);
  }

  lemma {:induction false} ReachInWithin(g: Graph, from: set<Addr>, x: Addr, n: nat, c: set<Addr>)
    requires ReachIn(g, from, x, n) && from <= c
    requires forall p, y :: p in c && p in g && y in g[p].kids ==> y in c
    ensures x in c
    decreases n
  {
    if n > 0 {
      var p :| p in g && x in g[p].kids && ReachIn(g, from, p, n - 1);
      ReachInWithin(g, from, p, n - 1, c);
    }
  }

  /** Reachability is the least set that holds `from` and is closed under children. */
  lemma ReachWithin(g: Graph, from: set<Addr>, x: Addr, c: set<Addr>)
    requires Reach(g, from, x) && from <= c
    requires forall p, y :: p in c && p in g && y in g[p].kids ==> y in c
    ensures x in c
  {
    var n: nat :| ReachIn(g, from, x, n);
    ReachInWithin(g, from, x, n, c);
  }

  // ----- Operations -----

  ghost function New(s: State, x: Addr): State {
    State([x] + s.list, s.obj[x := Node(1, [])])
  }

  ghost function SetCount(s: State, x: Addr, n: nat): State {
    if x in s.obj then s.(obj := s.obj[x := s.obj[x].(count := n)]) else s
  }

  ghost function Clone(s: State, x: Addr): State {
    if x in s.obj then SetCount(s, x, s.obj[x].count + 1) else s
  }

  /** The state left when the objects in `dead` are unregistered and freed. */
  ghost function Discard(s: State, dead: set<Addr>): State {
    State(Minus(s.list, dead), s.obj - dead)
  }

  ghost function Drop(s: State, x: Addr): State {
    if x !in s.obj || s.obj[x].count == 0 then s
    else if s.obj[x].count == 1 then Discard(s, {x})
    else SetCount(s, x, s.obj[x].count - 1)
  }

  /** A parent whose slots are full silently keeps its children as they are. */
  ghost function RegisterChild(s: State, p: Addr, c: Addr): State {
    if p in s.obj && |s.obj[p].kids| < MAX_RC_CHILDREN
    then s.(obj := s.obj[p := s.obj[p].(kids := s.obj[p].kids + [c])])
    else s
  }

  /** What a collection must leave: exactly the objects reachable from a root. */
  ghost function Collect(s: State): State {
    Discard(s, Garbage(s))
  }

  lemma DiscardWellFormed(s: State, dead: set<Addr>)
    requires WellFormed(s)
    ensures WellFormed(Discard(s, dead))
  {
    MinusElems(s.list, dead);
    MinusDistinct(s.list, dead);
  }

  /** The count of an object does not matter once the object goes. */
  lemma DiscardCount(s: State, x: Addr, n: nat)
    ensures Discard(SetCount(s, x, n), {x}) == Discard(s, {x})
  {
    assert SetCount(s, x, n).obj - {x} == s.obj - {x};
  }

  lemma NewWellFormed(s: State, x: Addr)
    requires WellFormed(s) && x !in s.obj
    ensures WellFormed(New(s, x))
  {
    assert ([x] + s.list)[1..] == s.list;
  }

  // ----- Counting child slots -----

  /** Only the slots of the listed objects matter. */
  lemma {:induction false} InDegreeSame(list: seq<Addr>, g: Graph, g': Graph, x: Addr)
    requires forall y :: y in Elems(list) ==> y in g && y in g' && g[y].kids == g'[y].kids
    ensures InDegree(list, g, x) == InDegree(list, g', x)
  {
    if list != [] {
      var y := list[0];
      assert y in Elems(list);
      InDegreeSame(list[1..], g, g', x);
    }
  }

  lemma {:induction false} InDegreeAppend(list: seq<Addr>, y: Addr, g: Graph, x: Addr)
    requires y in g
    ensures InDegree(list + [y], g, x) == InDegree(list, g, x) + multiset(g[y].kids)[x]
  {
    if list == [] {
      assert list + [y] == [y];
    } else {
      assert (list + [y])[1..] == list[1..] + [y];
      InDegreeAppend(list[1..], y, g, x);
    }
  }

  lemma {:induction false} InDegreeZero(list: seq<Addr>, g: Graph, x: Addr)
    requires forall y :: y in Elems(list) && y in g ==> x !in g[y].kids
    ensures InDegree(list, g, x) == 0
  {
    if list != [] {
      var y := list[0];
      assert y in Elems(list);
      InDegreeZero(list[1..], g, x);
    }
  }

  lemma {:induction false} InDegreePositive(list: seq<Addr>, g: Graph, p: Addr, x: Addr)
    requires p in Elems(list) && p in g && x in g[p].kids
    ensures InDegree(list, g, x) > 0
  {
    if list[0] == p {
      assert x in multiset(g[p].kids);
    } else {
      InDegreePositive(list[1..], g, p, x);
    }
  }

  lemma {:induction false} InDegreeMinus(list: seq<Addr>, g: Graph, dead: set<Addr>, x: Addr)
    ensures InDegree(Minus(list, dead), g - dead, x) <= InDegree(list, g, x)
  {
    if list != [] {
      InDegreeMinus(list[1..], g, dead, x);
      assert list[0] !in dead ==> Minus(list, dead)[1..] == Minus(list[1..], dead);
    }
  }

  /** When no dead object has `x` as a child, no slot that holds `x` is lost. */
  lemma {:induction false} InDegreeMinusExact(list: seq<Addr>, g: Graph, dead: set<Addr>, x: Addr)
    requires forall p :: p in Elems(list) && p in dead && p in g ==> x !in g[p].kids
    ensures InDegree(Minus(list, dead), g - dead, x) == InDegree(list, g, x)
  {
    if list != [] {
      var y := list[0];
      assert y in Elems(list);
      InDegreeMinusExact(list[1..], g, dead, x);
      assert list[0] !in dead ==> Minus(list, dead)[1..] == Minus(list[1..], dead);
    }
  }

  /** A dead object that had `x` as a child takes at least one slot with it. */
  lemma {:induction false} InDegreeMinusStrict(list: seq<Addr>, g: Graph, dead: set<Addr>, p: Addr, x: Addr)
    requires p in Elems(list) && p in dead && p in g && x in g[p].kids
    ensures InDegree(Minus(list, dead), g - dead, x) < InDegree(list, g, x)
  {
    assert list[0] !in dead ==> Minus(list, dead)[1..] == Minus(list[1..], dead);
    if list[0] == p {
      InDegreeMinus(list[1..], g, dead, x);
    } else {
      InDegreeMinusStrict(list[1..], g, dead, p, x);
    }
  }

  /** The part of a graph that goes with `dead`. */
  ghost function Part(g: Graph, dead: set<Addr>): Graph {
    map y | y in g && y in dead :: g[y]
  }

  /** The slots that hold `x` are those that stay and those that go. */
  lemma {:induction false} InDegreeSplit(list: seq<Addr>, g: Graph, dead: set<Addr>, x: Addr)
    ensures InDegree(list, g, x) == InDegree(Minus(list, dead), g - dead, x) + InDegree(list, Part(g, dead), x)
  {
    if list != [] {
      InDegreeSplit(list[1..], g, dead, x);
      assert list[0] !in dead ==> Minus(list, dead)[1..] == Minus(list[1..], dead);
    }
  }

  lemma {:induction false} InDegreeAdd(list: seq<Addr>, g: Graph, p: Addr, c: Addr, x: Addr)
    requires Distinct(list) && Elems(list) <= g.Keys && p in Elems(list)
    ensures InDegree(list, g[p := g[p].(kids := g[p].kids + [c])], x) == InDegree(list, g, x) + if x == c then 1 else 0
  {
    var g' := g[p := g[p].(kids := g[p].kids + [c])];
    if list[0] == p {
      InDegreeSame(list[1..], g, g', x);
      assert multiset(g[p].kids + [c]) == multiset(g[p].kids) + multiset{c};
    } else {
      InDegreeAdd(list[1..], g, p, c, x);
    }
  }

  // ----- What a collection leaves -----

  /** A second collection frees nothing: removing garbage never makes more garbage. */
  lemma CollectTwice(s: State)
    requires WellFormed(s) && Closed(s)
    ensures Collect(Collect(s)) == Collect(s)
  {
    var s' := Collect(s);
    forall x | x in s'.obj ensures Alive(s', x) {
      AliveStays(s, x);
    }
    assert Garbage(s') == {};
    MinusNone(s'.list, {});
  }

  lemma RootsStay(s: State)
    ensures Roots(s) <= Roots(Collect(s))
  {
    forall y | y in Roots(s) ensures y in Roots(Collect(s)) {
      ReachRoot(s.obj, Roots(s), y);
      InDegreeMinus(s.list, s.obj, Garbage(s), y);
    }
  }

  lemma AliveStays(s: State, x: Addr)
    requires Closed(s) && Alive(s, x)
    ensures Alive(Collect(s), x)
  {
    var s' := Collect(s);
    var stay := set y | y in s.obj && Alive(s, y) && Alive(s', y);
    RootsStay(s);
    forall y | y in Roots(s) ensures y in stay {
      ReachRoot(s.obj, Roots(s), y);
      ReachRoot(s'.obj, Roots(s'), y);
    }
    forall p, y | p in stay && p in s.obj && y in s.obj[p].kids ensures y in stay {
      ReachStep(s.obj, Roots(s), p, y);
      ReachStep(s'.obj, Roots(s'), p, y);
    }
    ReachWithin(s.obj, Roots(s), x, stay);
  }
}
