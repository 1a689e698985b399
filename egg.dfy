/**
 * The e-graph of the `apyds_egg` package: a union-find over class ids with
 * path compression, e-nodes (an operation over child classes), and an
 * e-graph that hash-conses its nodes and restores congruence by rebuilding
 * after merges.
 *
 * Python dictionaries and sets become Dafny maps and sets; the iteration
 * order of a set is left open, each loop picking any element it has not
 * visited yet.
 */
module Egg {
  import opened Strings

  /** `EClassId` is an `int` subclass; the ids the graph hands out are 0, 1, 2, ... */
  type EClassId = nat

  /** An operation (`"()"` for lists, the name itself for items and variables) over child classes. */
  datatype ENode = ENode(op: string, children: seq<EClassId>)

  /** `canonicalize(find)`: the same operation over the representatives of the children. */
  function Canonicalize(n: ENode, find: EClassId -> EClassId): (r: ENode)
    ensures r.op == n.op && |r.children| == |n.children|
    ensures forall i | 0 <= i < |n.children| :: r.children[i] == find(n.children[i])
  {
    ENode(n.op, seq(|n.children|, i requires 0 <= i < |n.children| => find(n.children[i])))
  }

  /** With an idempotent `find`, a canonical node is its own canonical form. */
  lemma CanonicalizeIdempotent(n: ENode, find: EClassId -> EClassId)
    requires forall c :: find(find(c)) == find(c)
    ensures Canonicalize(Canonicalize(n, find), find) == Canonicalize(n, find)
  {
    var once := Canonicalize(n, find);
    var twice := Canonicalize(once, find);
    assert forall i | 0 <= i < |n.children| :: twice.children[i] == find(find(n.children[i]));
    assert twice.children == once.children;
  }

  /** Canonicalising with two functions that agree on the children gives the same node. */
  lemma CanonicalizeAgrees(n: ENode, f: EClassId -> EClassId, g: EClassId -> EClassId)
    requires forall i | 0 <= i < |n.children| :: f(n.children[i]) == g(n.children[i])
    ensures Canonicalize(n, f) == Canonicalize(n, g)
  {
    assert Canonicalize(n, f).children == Canonicalize(n, g).children;
  }

  /** `repr`: the operation for a leaf, `(op c1 ... cn)` otherwise. */
  function Repr(n: ENode): string {
    if n.children == [] then n.op
    else "(" + n.op + " " + Join(ChildTexts(n.children), " ") + ")"
  }

  function ChildTexts(children: seq<EClassId>): (r: seq<string>)
    ensures |r| == |children|
    ensures forall i | 0 <= i < |children| :: r[i] == NatToString(children[i])
  {
    seq(|children|, i requires 0 <= i < |children| => NatToString(children[i]))
  }

  /** A leaf prints as its operation; any other node prints parenthesised, starting with its operation. */
  lemma ReprShape(n: ENode)
    ensures n.children == [] ==> Repr(n) == n.op
    ensures n.children != [] ==>
              |Repr(n)| >= |n.op| + 3 && Repr(n)[0] == '(' && Repr(n)[|Repr(n)| - 1] == ')'
              && Repr(n)[1..|n.op| + 1] == n.op && Repr(n)[|n.op| + 1] == ' '
  {
    if n.children != [] {
      var body := Join(ChildTexts(n.children), " ");
      assert Repr(n) == "(" + n.op + " " + body + ")";
    }
  }

  /** The printed forms `x` and `(+ 0 1)`. */
  lemma ReprExamples()
    ensures Repr(ENode("x", [])) == "x"
    ensures Repr(ENode("+", [0, 1])) == "(+ 0 1)"
  {
    var texts := ChildTexts([0, 1]);
    assert texts == ["0", "1"];
    assert Join(texts, " ") == "0" + " " + Join(["1"], " ");
  }

  /**
   * The union-find's shape: every parent is registered, the distance falls
   * strictly along every parent link, so every chain ends at a root (an id
   * that is its own parent), and `root` names the end of each id's chain.
   */
  ghost predicate Forest(parent: map<EClassId, EClassId>, root: map<EClassId, EClassId>, dist: map<EClassId, nat>) {
    parent.Keys == root.Keys && root.Keys == dist.Keys
    && parent.Values <= parent.Keys && root.Values <= parent.Keys
    && (forall x | x in parent :: (parent[x] == x) == (dist[x] == 0))
    && (forall x | x in parent && parent[x] == x :: root[x] == x)
    && (forall x {:trigger dist[parent[x]]} | x in parent && parent[x] != x :: dist[parent[x]] < dist[x])
    && (forall x {:trigger root[parent[x]]} | x in parent :: root[parent[x]] == root[x])
    && (forall x {:trigger parent[root[x]]} | x in parent :: parent[root[x]] == root[x])
  }

  /**
   * The recursion of `find` on a registered id: the root of its chain, and
   * the parent map with every link on the chain re-pointed at that root.
   * Links further from the root than `x` are untouched.
   */
  method FindIn(parent: map<EClassId, EClassId>, ghost root: map<EClassId, EClassId>, ghost dist: map<EClassId, nat>, x: EClassId)
    returns (r: EClassId, parent': map<EClassId, EClassId>, ghost dist': map<EClassId, nat>)
    requires Forest(parent, root, dist) && x in parent
    ensures Forest(parent', root, dist')
    ensures r == root[x] && parent'.Keys == parent.Keys && parent'[x] == r
    ensures forall y | y in parent :: parent'[y] == root[y] || parent'[y] == parent[y]
    ensures forall y | y in parent && dist[y] > dist[x] :: parent'[y] == parent[y] && dist'[y] == dist[y]
    decreases dist[x]
  {
    if parent[x] == x {
      return x, parent, dist;
    }
    var p, pm, pd := FindIn(parent, root, dist, parent[x]);
    RepointKeepsForest(pm, root, pd, x);
    r, parent', dist' := p, pm[x := p], pd[x := 1];
  }

  /** Registering an unseen id as its own root keeps the forest shape. */
  lemma RegisterKeepsForest(parent: map<EClassId, EClassId>, root: map<EClassId, EClassId>, dist: map<EClassId, nat>,
                            x: EClassId)
    requires Forest(parent, root, dist) && x !in parent
    ensures Forest(parent[x := x], root[x := x], dist[x := 0])
  {
    var p, rt := parent[x := x], root[x := x];
    forall y | y in p
      ensures p[y] in p.Keys
    {
      if y != x {
        assert parent[y] in parent.Values;
      }
    }
    ValuesWithin(p, p.Keys);
    forall y | y in rt
      ensures rt[y] in p.Keys
    {
      if y != x {
        assert root[y] in root.Values;
      }
    }
    ValuesWithin(rt, p.Keys);
  }

  /** Re-pointing a link at a registered id keeps every parent registered. */
  lemma RepointKeepsKeys(parent: map<EClassId, EClassId>, x: EClassId, to: EClassId)
    requires parent.Values <= parent.Keys && x in parent && to in parent
    ensures parent[x := to].Values <= parent.Keys
  {
    var p := parent[x := to];
    forall y | y in p
      ensures p[y] in parent.Keys
    {
      if y != x {
        assert parent[y] in parent.Values;
      }
    }
    ValuesWithin(p, parent.Keys);
  }

  /** Re-pointing a non-root at its root, at distance one, keeps the distance falling along every link. */
  lemma RepointKeepsDistances(parent: map<EClassId, EClassId>, root: map<EClassId, EClassId>, dist: map<EClassId, nat>,
                              x: EClassId)
    requires Forest(parent, root, dist) && x in parent && parent[x] != x
    ensures var p, d := parent[x := root[x]], dist[x := 1];
      (forall y | y in p :: (p[y] == y) == (d[y] == 0))
      && (forall y {:trigger d[p[y]]} | y in p && p[y] != y :: p[y] in d && d[p[y]] < d[y])
  {
    var p, d := parent[x := root[x]], dist[x := 1];
    assert root[x] != x;
    forall y | y in p && p[y] != y
      ensures p[y] in d && d[p[y]] < d[y]
    {
      if y != x {
        assert dist[parent[y]] < dist[y];
      }
    }
  }

  /** Re-pointing a non-root at its root keeps every label the end of its chain. */
  lemma RepointKeepsRoots(parent: map<EClassId, EClassId>, root: map<EClassId, EClassId>, dist: map<EClassId, nat>,
                          x: EClassId)
    requires Forest(parent, root, dist) && x in parent && parent[x] != x
    ensures var p := parent[x := root[x]];
      (forall y {:trigger root[p[y]]} | y in p :: p[y] in root && root[p[y]] == root[y])
      && (forall y {:trigger p[root[y]]} | y in p :: root[y] in p && p[root[y]] == root[y])
  {
    var p := parent[x := root[x]];
    assert root[x] != x;
    forall y | y in p
      ensures root[y] in p && p[root[y]] == root[y]
    {
      assert parent[root[y]] == root[y];
    }
  }

  /** Re-pointing a non-root straight at its root keeps the forest shape. */
  lemma RepointKeepsForest(parent: map<EClassId, EClassId>, root: map<EClassId, EClassId>, dist: map<EClassId, nat>,
                           x: EClassId)
    requires Forest(parent, root, dist) && x in parent && parent[x] != x
    ensures Forest(parent[x := root[x]], root, dist[x := 1])
  {
    RepointKeepsKeys(parent, x, root[x]);
    RepointKeepsDistances(parent, root, dist, x);
    RepointKeepsRoots(parent, root, dist, x);
  }

  /** `root` with the class of `from` relabelled `to`. */
  ghost function Relabel(root: map<EClassId, EClassId>, from: EClassId, to: EClassId): map<EClassId, EClassId> {
    map y | y in root :: if root[y] == from then to else root[y]
  }

  /** `dist` one further from the root for every member of the class of `rb`. */
  ghost function Deepen(dist: map<EClassId, nat>, root: map<EClassId, EClassId>, rb: EClassId): map<EClassId, nat> {
    map y | y in dist :: if y in root && root[y] == rb then dist[y] + 1 else dist[y]
  }

  /** A map whose every value lies in `s` has its values in `s`. */
  lemma ValuesWithin(m: map<EClassId, EClassId>, s: set<EClassId>)
    requires forall x {:trigger m[x]} | x in m :: m[x] in s
    ensures m.Values <= s
  {
    forall v | v in m.Values
      ensures v in s
    {
      var x :| x in m && m[x] == v;
    }
  }

  /** The precondition of linking: `ra` and `rb` are distinct roots of the forest. */
  ghost predicate Linkable(parent: map<EClassId, EClassId>, root: map<EClassId, EClassId>, dist: map<EClassId, nat>,
                          ra: EClassId, rb: EClassId)
  {
    Forest(parent, root, dist) && ra in parent && rb in parent && parent[ra] == ra && parent[rb] == rb && ra != rb
  }

  /** Linking keeps the registered ids, and every parent stays registered. */
  lemma LinkKeepsKeys(parent: map<EClassId, EClassId>, root: map<EClassId, EClassId>, dist: map<EClassId, nat>,
                      ra: EClassId, rb: EClassId)
    requires Linkable(parent, root, dist, ra, rb)
    ensures var p, rt, d := parent[rb := ra], Relabel(root, rb, ra), Deepen(dist, root, rb);
      p.Keys == rt.Keys && rt.Keys == d.Keys && p.Values <= p.Keys
  {
    var p := parent[rb := ra];
    forall x | x in p
      ensures p[x] in p.Keys
    {
      assert parent[x] in parent.Values;
    }
    ValuesWithin(p, p.Keys);
  }

  /** After linking, every label is a registered id. */
  lemma LinkKeepsLabels(parent: map<EClassId, EClassId>, root: map<EClassId, EClassId>, dist: map<EClassId, nat>,
                        ra: EClassId, rb: EClassId)
    requires Linkable(parent, root, dist, ra, rb)
    ensures Relabel(root, rb, ra).Values <= parent.Keys
  {
    var rt := Relabel(root, rb, ra);
    forall x | x in rt
      ensures rt[x] in parent.Keys
    {
      assert root[x] in root.Values;
    }
    ValuesWithin(rt, parent.Keys);
  }

  /** After linking, the distance still falls along every link and is zero exactly at the roots. */
  lemma LinkKeepsDistances(parent: map<EClassId, EClassId>, root: map<EClassId, EClassId>, dist: map<EClassId, nat>,
                           ra: EClassId, rb: EClassId)
    requires Linkable(parent, root, dist, ra, rb)
    ensures var p, d := parent[rb := ra], Deepen(dist, root, rb);
      (forall x | x in p :: (p[x] == x) == (d[x] == 0))
      && (forall x {:trigger d[p[x]]} | x in p && p[x] != x :: p[x] in d && d[p[x]] < d[x])
  {
    assert root[ra] == ra && root[rb] == rb;
    var p, d := parent[rb := ra], Deepen(dist, root, rb);
    forall x | x in p && p[x] != x
      ensures p[x] in d && d[p[x]] < d[x]
    {
      if x != rb {
        assert root[parent[x]] == root[x];
      }
    }
  }

  /** After linking, every root is still its own label, and links stay within a class. */
  lemma LinkKeepsClasses(parent: map<EClassId, EClassId>, root: map<EClassId, EClassId>, dist: map<EClassId, nat>,
                         ra: EClassId, rb: EClassId)
    requires Linkable(parent, root, dist, ra, rb)
    ensures var p, rt := parent[rb := ra], Relabel(root, rb, ra);
      (forall x | x in p && p[x] == x :: x in rt && rt[x] == x)
      && (forall x {:trigger rt[p[x]]} | x in p :: p[x] in rt && x in rt && rt[p[x]] == rt[x])
  {
    assert root[ra] == ra && root[rb] == rb;
    var p, rt := parent[rb := ra], Relabel(root, rb, ra);
    forall x | x in p
      ensures p[x] in rt && x in rt && rt[p[x]] == rt[x]
    {
      if x != rb {
        assert root[parent[x]] == root[x];
      }
    }
  }

  /** After linking, every label is a root. */
  lemma LinkKeepsRoots(parent: map<EClassId, EClassId>, root: map<EClassId, EClassId>, dist: map<EClassId, nat>,
                       ra: EClassId, rb: EClassId)
    requires Linkable(parent, root, dist, ra, rb)
    ensures var p, rt := parent[rb := ra], Relabel(root, rb, ra);
      forall x {:trigger p[rt[x]]} | x in p :: x in rt && rt[x] in p && p[rt[x]] == rt[x]
  {
    var p, rt := parent[rb := ra], Relabel(root, rb, ra);
    forall x | x in p
      ensures x in rt && rt[x] in p && p[rt[x]] == rt[x]
    {
      assert parent[root[x]] == root[x];
    }
  }

  /** Linking root `rb` under root `ra` keeps the forest shape, with `rb`'s class relabelled. */
  lemma LinkKeepsForest(parent: map<EClassId, EClassId>, root: map<EClassId, EClassId>, dist: map<EClassId, nat>,
                        ra: EClassId, rb: EClassId)
    requires Linkable(parent, root, dist, ra, rb)
    ensures Forest(parent[rb := ra], Relabel(root, rb, ra), Deepen(dist, root, rb))
  {
    LinkKeepsKeys(parent, root, dist, ra, rb);
    LinkKeepsLabels(parent, root, dist, ra, rb);
    LinkKeepsDistances(parent, root, dist, ra, rb);
    LinkKeepsClasses(parent, root, dist, ra, rb);
    LinkKeepsRoots(parent, root, dist, ra, rb);
  }

  /** The representative of `x` under the labels `root`: its label if registered, itself otherwise. */
  ghost function RepIn(root: map<EClassId, EClassId>, x: EClassId): EClassId {
    if x in root then root[x] else x
  }

  /** Labelling an id with its own representative changes no representative. */
  lemma LabelKeepsReps(root: map<EClassId, EClassId>, x: EClassId)
    ensures forall y :: RepIn(root[x := RepIn(root, x)], y) == RepIn(root, y)
  {
  }

  /**
   * After relabelling the registered class of `rb` as `ra`, the representative of
   * every id is `ra` if it was `rb`, and unchanged otherwise.
   */
  lemma RelabelReps(root: map<EClassId, EClassId>, rb: EClassId, ra: EClassId)
    requires rb in root && root[rb] == rb
    ensures forall y :: RepIn(Relabel(root, rb, ra), y) == if RepIn(root, y) == rb then ra else RepIn(root, y)
  {
  }

  /**
   * `find` on the dictionary: an unseen id is registered as its own parent;
   * then the chain is followed to the root and compressed. No
   * representative changes.
   */
  method FindOrRegister(parent: map<EClassId, EClassId>, ghost root: map<EClassId, EClassId>, ghost dist: map<EClassId, nat>,
                        x: EClassId)
    returns (r: EClassId, parent': map<EClassId, EClassId>, ghost root': map<EClassId, EClassId>, ghost dist': map<EClassId, nat>)
    requires Forest(parent, root, dist)
    ensures Forest(parent', root', dist')
    ensures r == RepIn(root, x) && root' == root[x := r]
    ensures parent'.Keys == parent.Keys + {x} && parent'[x] == r
    ensures x !in parent ==> r == x
    ensures forall y | y in parent' :: parent'[y] == root'[y] || (y in parent && parent'[y] == parent[y])
    ensures forall y :: RepIn(root', y) == RepIn(root, y)
  {
    LabelKeepsReps(root, x);
    parent', root', dist' := parent, root, dist;
    if x !in parent {
      RegisterKeepsForest(parent, root, dist, x);
      parent', root', dist' := parent[x := x], root[x := x], dist[x := 0];
    }
    r, parent', dist' := FindIn(parent', root', dist', x);
  }

  /**
   * `union` on the dictionary: both representatives are found, and if they
   * differ the second root is linked under the first. Only the class of `b`
   * changes representative, to that of `a`.
   */
  method UnionIn(parent: map<EClassId, EClassId>, ghost root: map<EClassId, EClassId>, ghost dist: map<EClassId, nat>,
                 a: EClassId, b: EClassId)
    returns (r: EClassId, parent': map<EClassId, EClassId>, ghost root': map<EClassId, EClassId>, ghost dist': map<EClassId, nat>)
    requires Forest(parent, root, dist)
    ensures Forest(parent', root', dist')
    ensures r == RepIn(root, a) && RepIn(root', a) == r && RepIn(root', b) == r
    ensures parent'.Keys == parent.Keys + {a, b}
    ensures forall y :: RepIn(root', y) == if RepIn(root, y) == RepIn(root, b) then r else RepIn(root, y)
    ensures RepIn(root, a) != RepIn(root, b) ==> parent'[RepIn(root, b)] == r
  {
    var ra, p1, r1, d1 := FindOrRegister(parent, root, dist, a);
    var rb, p2, r2, d2 := FindOrRegister(p1, r1, d1, b);
    assert p2.Keys == parent.Keys + {a, b} by {
      assert p2.Keys == (parent.Keys + {a}) + {b};
    }
    assert RepIn(r2, a) == ra && RepIn(r2, b) == rb;
    assert r2[a] == ra && r2[b] == rb;
    assert p2[ra] == ra && p2[rb] == rb;
    assert r2[ra] == ra && r2[rb] == rb;
    r, parent', root', dist' := ra, p2, r2, d2;
    if ra != rb {
      parent', root', dist' := Link(p2, r2, d2, ra, rb);
    }
  }

  /** `parent[rb] = ra` for two distinct roots: the class of `rb` joins that of `ra`. */
  method Link(parent: map<EClassId, EClassId>, ghost root: map<EClassId, EClassId>, ghost dist: map<EClassId, nat>,
              ra: EClassId, rb: EClassId)
    returns (parent': map<EClassId, EClassId>, ghost root': map<EClassId, EClassId>, ghost dist': map<EClassId, nat>)
    requires Forest(parent, root, dist) && ra in parent && rb in parent && ra != rb
    requires root[ra] == ra && root[rb] == rb
    ensures Forest(parent', root', dist')
    ensures parent'.Keys == parent.Keys && parent'[rb] == ra
    ensures forall y :: RepIn(root', y) == if RepIn(root, y) == rb then ra else RepIn(root, y)
  {
    assert parent[ra] == ra && parent[rb] == rb;
    LinkKeepsForest(parent, root, dist, ra, rb);
    RelabelReps(root, rb, ra);
    assert parent[rb := ra].Keys == parent.Keys;
    parent', root', dist' := parent[rb := ra], Relabel(root, rb, ra), Deepen(dist, root, rb);
  }

  /**
   * The union-find of the e-graph. `parent` is the Python dictionary; the
   * ghost maps are the chain ends and distances of `Forest`.
   */
  class UnionFind {
    var parent: map<EClassId, EClassId>
    ghost var root: map<EClassId, EClassId>
    ghost var dist: map<EClassId, nat>

    ghost predicate Valid()
      reads this
    {
      Forest(parent, root, dist)
    }

    /** The representative `find` returns: the root of a registered id, an unseen id itself. */
    ghost function Rep(x: EClassId): EClassId
      reads this
    {
      RepIn(root, x)
    }

    constructor ()
      ensures Valid() && parent == map[]
    {
      parent, root, dist := map[], map[], map[];
    }

    /** `find`, as `FindOrRegister` on the dictionary. */
    method Find(x: EClassId) returns (r: EClassId)
      requires Valid()
      modifies this
      ensures Valid()
      ensures parent.Keys == old(parent).Keys + {x}
      ensures r == old(Rep(x)) && parent[x] == r
      ensures forall y :: Rep(y) == old(Rep(y))
    {
      r, parent, root, dist := FindOrRegister(parent, root, dist, x);
    }

    /** `union`, as `UnionIn` on the dictionary. */
    method Union(a: EClassId, b: EClassId) returns (r: EClassId)
      requires Valid()
      modifies this
      ensures Valid()
      ensures r == old(Rep(a)) && Rep(a) == r && Rep(b) == r
      ensures parent.Keys == old(parent).Keys + {a, b}
      ensures forall y :: Rep(y) == if old(Rep(y)) == old(Rep(b)) then r else old(Rep(y))
    {
      r, parent, root, dist := UnionIn(parent, root, dist, a, b);
    }
  }

  /** The representative function of the labels `root`, as the `find` argument of `canonicalize`. */
  ghost function RepFn(root: map<EClassId, EClassId>): EClassId -> EClassId {
    y => RepIn(root, y)
  }

  /** `root1` only merges classes of `root0`: the representative of an id is that of its old representative. */
  ghost predicate Refines(root0: map<EClassId, EClassId>, root1: map<EClassId, EClassId>) {
    forall x :: RepIn(root1, RepIn(root0, x)) == RepIn(root1, x)
  }

  /** In a forest, the representative of a representative is itself. */
  lemma RepIdempotent(parent: map<EClassId, EClassId>, root: map<EClassId, EClassId>, dist: map<EClassId, nat>)
    requires Forest(parent, root, dist)
    ensures forall x :: RepIn(root, RepIn(root, x)) == RepIn(root, x)
  {
    forall x | x in root
      ensures root[x] in root && root[root[x]] == root[x]
    {
      assert parent[root[x]] == root[x];
    }
  }

  /** Merging further after merging is merging. */
  lemma RefinesTrans(r0: map<EClassId, EClassId>, r1: map<EClassId, EClassId>, r2: map<EClassId, EClassId>)
    requires Refines(r0, r1) && Refines(r1, r2)
    ensures Refines(r0, r2)
  {
    forall x
      ensures RepIn(r2, RepIn(r0, x)) == RepIn(r2, x)
    {
      assert RepIn(r2, RepIn(r1, RepIn(r0, x))) == RepIn(r2, RepIn(r0, x));
      assert RepIn(r2, RepIn(r1, x)) == RepIn(r2, x);
    }
  }

  /** Two ids in one class stay in one class. */
  lemma RefinesKeepsSame(r0: map<EClassId, EClassId>, r1: map<EClassId, EClassId>, x: EClassId, y: EClassId)
    requires Refines(r0, r1) && RepIn(r0, x) == RepIn(r0, y)
    ensures RepIn(r1, x) == RepIn(r1, y)
  {
    assert RepIn(r1, RepIn(r0, x)) == RepIn(r1, x);
    assert RepIn(r1, RepIn(r0, y)) == RepIn(r1, y);
  }

  /** Canonicalising under a coarser partition forgets an earlier canonicalisation. */
  lemma CanonicalizeRefines(n: ENode, r0: map<EClassId, EClassId>, r1: map<EClassId, EClassId>)
    requires Refines(r0, r1)
    ensures Canonicalize(Canonicalize(n, RepFn(r0)), RepFn(r1)) == Canonicalize(n, RepFn(r1))
  {
    var twice, once := Canonicalize(Canonicalize(n, RepFn(r0)), RepFn(r1)), Canonicalize(n, RepFn(r1));
    forall i | 0 <= i < |n.children|
      ensures twice.children[i] == once.children[i]
    {
      assert RepIn(r1, RepIn(r0, n.children[i])) == RepIn(r1, n.children[i]);
    }
    assert twice.children == once.children;
  }

  /** Labels with the same representatives as a forest's refine it. */
  lemma SameRepsRefine(parent: map<EClassId, EClassId>, root: map<EClassId, EClassId>, dist: map<EClassId, nat>,
                       root': map<EClassId, EClassId>)
    requires Forest(parent, root, dist)
    requires forall y :: RepIn(root', y) == RepIn(root, y)
    ensures Refines(root, root')
  {
    RepIdempotent(parent, root, dist);
  }

  /** Relabelling the class of the root `rb` as `ra` only merges classes. */
  lemma RelabelRefines(parent: map<EClassId, EClassId>, root: map<EClassId, EClassId>, dist: map<EClassId, nat>,
                       root': map<EClassId, EClassId>, rb: EClassId, ra: EClassId)
    requires Forest(parent, root, dist)
    requires forall y :: RepIn(root', y) == if RepIn(root, y) == rb then ra else RepIn(root, y)
    ensures Refines(root, root')
  {
    RepIdempotent(parent, root, dist);
    forall x
      ensures RepIn(root', RepIn(root, x)) == RepIn(root', x)
    {
      assert RepIn(root, RepIn(root, x)) == RepIn(root, x);
    }
  }

  /** `self.uf.parent[eid] = eid` on an id that is its own representative keeps the forest and every representative. */
  lemma RegisterRoot(parent: map<EClassId, EClassId>, root: map<EClassId, EClassId>, dist: map<EClassId, nat>, x: EClassId)
    requires Forest(parent, root, dist) && RepIn(root, x) == x
    ensures Forest(parent[x := x], root[x := x], dist[x := 0])
    ensures forall y :: RepIn(root[x := x], y) == RepIn(root, y)
  {
    if x in parent {
      assert parent[root[x]] == root[x];
      assert parent[x := x] == parent && root[x := x] == root && dist[x := 0] == dist;
    } else {
      RegisterKeepsForest(parent, root, dist, x);
    }
  }

  /** A parent record of a class: the e-node that has the class as a child, and the node's class. */
  type ParentEntry = (ENode, EClassId)

  /** `order` lists the set `s`, each element once: `list(s)` in one of its possible orders. */
  predicate Enumerates<T>(order: seq<T>, s: set<T>) {
    (forall i, j | 0 <= i < j < |order| :: order[i] != order[j])
    && (forall i | 0 <= i < |order| :: order[i] in s)
    && (forall x | x in s :: x in order)
  }

  /** `list(s)`: the elements of a set in an order the model leaves open. */
  method ListOf<T>(s: set<T>) returns (order: seq<T>)
    ensures Enumerates(order, s) && |order| == |s|
  {
    order := [];
    var left := s;
    while left != {}
      invariant left <= s
      invariant forall i, j | 0 <= i < j < |order| :: order[i] != order[j]
      invariant forall i | 0 <= i < |order| :: order[i] in s && order[i] !in left
      invariant forall x | x in s :: x in order || x in left
      invariant |order| + |left| == |s|
      decreases left
    {
      var x :| x in left;
      order, left := order + [x], left - {x};
    }
  }

  /**
   * The ids of the graph under the labels `root`: ids from `next` up are
   * their own classes (not handed out yet, so nothing was merged into
   * them), ids below `next` have representatives below `next`, and `classes`
   * is keyed by exactly the representatives of the ids below `next`.
   */
  ghost predicate IdsInv(root: map<EClassId, EClassId>, next: nat, classes: map<EClassId, set<ENode>>) {
    (forall y: EClassId :: y >= next ==> RepIn(root, y) == y)
    && (forall y: EClassId :: y < next ==> RepIn(root, y) < next)
    && (forall x: EClassId :: x in classes <==> x < next && RepIn(root, x) == x)
  }

  /** The hash-cons and the parent records name only ids handed out. */
  ghost predicate RecordsInv(next: nat, parents: map<EClassId, set<ParentEntry>>, hashcons: map<ENode, EClassId>) {
    (forall n | n in hashcons :: hashcons[n] < next)
    && (forall c, p | c in parents && p in parents[c] :: p.1 < next)
  }

  /** The invariant depends on the labels only through the representatives. */
  lemma IdsInvSameReps(root: map<EClassId, EClassId>, root': map<EClassId, EClassId>, next: nat,
                       classes: map<EClassId, set<ENode>>)
    requires IdsInv(root, next, classes)
    requires forall y :: RepIn(root', y) == RepIn(root, y)
    ensures IdsInv(root', next, classes)
  {
  }

  /** Handing out `next` as a new singleton class. */
  lemma IdsInvAllocate(root: map<EClassId, EClassId>, next: nat, classes: map<EClassId, set<ENode>>, nodes: set<ENode>)
    requires IdsInv(root, next, classes)
    ensures IdsInv(root, next + 1, classes[next := nodes])
  {
  }

  /** Merging the class of the root `rb` into that of the root `ra`, and dropping `rb` from `classes`. */
  lemma IdsInvMerge(root: map<EClassId, EClassId>, root': map<EClassId, EClassId>, next: nat,
                    classes: map<EClassId, set<ENode>>, ra: EClassId, rb: EClassId, nodes: set<ENode>)
    requires IdsInv(root, next, classes) && ra in classes && rb in classes && ra != rb
    requires forall y :: RepIn(root', y) == if RepIn(root, y) == rb then ra else RepIn(root, y)
    ensures IdsInv(root', next, classes[ra := nodes] - {rb})
    ensures |classes[ra := nodes] - {rb}| == |classes| - 1
  {
    var c' := classes[ra := nodes] - {rb};
    assert c'.Keys == classes.Keys - {rb};
    assert RepIn(root, ra) == ra && RepIn(root, rb) == rb;
    forall x: EClassId
      ensures x in c' <==> x < next && RepIn(root', x) == x
    {
      if RepIn(root, x) == rb {
        assert RepIn(root', x) == ra;
      }
    }
    forall y: EClassId | y < next
      ensures RepIn(root', y) < next
    {
    }
  }

  /** Recording one more parent whose class was handed out. */
  lemma RecordsInvParent(next: nat, parents: map<EClassId, set<ParentEntry>>, hashcons: map<ENode, EClassId>,
                         c: EClassId, more: set<ParentEntry>)
    requires RecordsInv(next, parents, hashcons)
    requires forall p | p in more :: p.1 < next
    ensures RecordsInv(next, parents[c := more], hashcons)
  {
  }

  /** One more hash-cons entry for an id handed out. */
  lemma RecordsInvHashcons(next: nat, parents: map<EClassId, set<ParentEntry>>, hashcons: map<ENode, EClassId>,
                           n: ENode, e: EClassId)
    requires RecordsInv(next, parents, hashcons) && e < next
    ensures RecordsInv(next, parents, hashcons[n := e])
  {
  }

  /** Dropping a key of the parent records or of the hash-cons, or handing out one more id. */
  lemma RecordsInvShrink(next: nat, parents: map<EClassId, set<ParentEntry>>, hashcons: map<ENode, EClassId>,
                         c: EClassId, n: ENode)
    requires RecordsInv(next, parents, hashcons)
    ensures RecordsInv(next, parents - {c}, hashcons)
    ensures RecordsInv(next, parents, hashcons - {n})
    ensures RecordsInv(next + 1, parents, hashcons)
  {
  }

  /**
   * The e-graph: the union-find, the next fresh id, the nodes of each class
   * (keyed by the class representatives), the parent records of each class
   * (a `defaultdict(set)`), the hash-cons from canonical node to class, and
   * the worklist of classes whose parents need repair.
   */
  class EGraph {
    const uf: UnionFind
    var nextId: nat
    var classes: map<EClassId, set<ENode>>
    var parents: map<EClassId, set<ParentEntry>>
    var hashcons: map<ENode, EClassId>
    var worklist: set<EClassId>

    ghost predicate Valid()
      reads this, uf
    {
      uf.Valid() && IdsInv(uf.root, nextId, classes) && RecordsInv(nextId, parents, hashcons)
    }

    /** `self.parents[c]` on the `defaultdict`: the empty set for a class with no record. */
    function ParentsOf(c: EClassId): set<ParentEntry>
      reads this
    {
      if c in parents then parents[c] else {}
    }

    constructor ()
      ensures Valid() && fresh(uf)
      ensures nextId == 0 && classes == map[] && parents == map[] && hashcons == map[] && worklist == {}
    {
      uf := new UnionFind();
      nextId, classes, parents, hashcons, worklist := 0, map[], map[], map[], {};
    }

    /** `_fresh_id`: the next id, and the counter moved past it. */
    method FreshId() returns (eid: EClassId)
      modifies this`nextId
      ensures eid == old(nextId) && nextId == old(nextId) + 1
    {
      eid := nextId;
      nextId := nextId + 1;
    }

    /** `find`: the representative, through the union-find; no representative changes. */
    method Find(x: EClassId) returns (r: EClassId)
      requires Valid()
      modifies uf
      ensures Valid()
      ensures r == old(uf.Rep(x)) && uf.Rep(r) == r
      ensures x < nextId ==> r in classes
      ensures forall y :: uf.Rep(y) == old(uf.Rep(y))
    {
      ghost var root0 := uf.root;
      r := uf.Find(x);
      forall y
        ensures RepIn(uf.root, y) == RepIn(root0, y)
      {
        assert uf.Rep(y) == old(uf.Rep(y));
      }
      IdsInvSameReps(root0, uf.root, nextId, classes);
      RepIdempotent(uf.parent, uf.root, uf.dist);
    }

    /** `enode.canonicalize(self.find)`: one `find` per child, in order. */
    method CanonicalizeNode(n: ENode) returns (c: ENode)
      requires Valid()
      modifies uf
      ensures Valid()
      ensures c == Canonicalize(n, RepFn(old(uf.root)))
      ensures forall y :: uf.Rep(y) == old(uf.Rep(y))
    {
      var cs: seq<EClassId> := [];
      for i := 0 to |n.children|
        invariant Valid()
        invariant |cs| == i && forall j | 0 <= j < i :: cs[j] == old(uf.Rep(n.children[j]))
        invariant forall y :: uf.Rep(y) == old(uf.Rep(y))
      {
        var f := Find(n.children[i]);
        cs := cs + [f];
      }
      c := ENode(n.op, cs);
      assert cs == Canonicalize(n, RepFn(old(uf.root))).children;
    }

    /**
     * `add`: the canonical form of the node is looked up in the hash-cons; a
     * known node gives the representative of its class, a new one a fresh
     * singleton class, recorded in the hash-cons and as a parent of each of
     * its children.
     */
    method Add(enode: ENode) returns (r: EClassId)
      requires Valid()
      modifies this, uf
      ensures Valid()
      ensures r in classes
      ensures forall y :: uf.Rep(y) == old(uf.Rep(y))
      ensures worklist == old(worklist)
      ensures var canon := Canonicalize(enode, RepFn(old(uf.root)));
        if canon in old(hashcons) then
          r == old(uf.Rep(hashcons[canon])) && nextId == old(nextId)
          && classes == old(classes) && hashcons == old(hashcons) && parents == old(parents)
        else
          r == old(nextId) && nextId == old(nextId) + 1
          && classes == old(classes)[r := {canon}] && hashcons == old(hashcons)[canon := r]
          && forall c :: ParentsOf(c) == old(ParentsOf(c)) + if c in canon.children then {(canon, r)} else {}
    {
      var canon := CanonicalizeNode(enode);
      if canon in hashcons {
        r := Find(hashcons[canon]);
        return;
      }
      r := AddNew(canon);
      RecordParent(canon, r);
    }

    /** The new class of `add`, for a canonical node the hash-cons does not hold. */
    method AddNew(canon: ENode) returns (eid: EClassId)
      requires Valid() && canon !in hashcons
      modifies this, uf
      ensures Valid()
      ensures eid == old(nextId) && nextId == old(nextId) + 1 && eid in classes
      ensures forall y :: uf.Rep(y) == old(uf.Rep(y))
      ensures worklist == old(worklist)
      ensures classes == old(classes)[eid := {canon}] && hashcons == old(hashcons)[canon := eid]
      ensures parents == old(parents)
    {
      assert uf.Rep(nextId) == nextId;
      ghost var root0 := uf.root;
      eid := FreshId();
      // self.uf.parent[eid] = eid
      RegisterRoot(uf.parent, uf.root, uf.dist, eid);
      uf.parent, uf.root, uf.dist := uf.parent[eid := eid], uf.root[eid := eid], uf.dist[eid := 0];
      forall y
        ensures uf.Rep(y) == old(uf.Rep(y))
      {
        assert RepIn(uf.root, y) == RepIn(root0, y);
      }
      IdsInvSameReps(root0, uf.root, eid, classes);
      IdsInvAllocate(uf.root, eid, classes, {canon});
      RecordsInvShrink(eid, parents, hashcons, 0, canon);
      classes := classes[eid := {canon}];
      RecordsInvHashcons(nextId, parents, hashcons, canon, eid);
      hashcons := hashcons[canon := eid];
    }

    /** `for c in enode.children: self.parents[c].add((enode, eid))`. */
    method RecordParent(enode: ENode, eid: EClassId)
      requires RecordsInv(nextId, parents, hashcons) && eid < nextId
      modifies this`parents
      ensures RecordsInv(nextId, parents, hashcons)
      ensures forall c :: ParentsOf(c) == old(ParentsOf(c)) + if c in enode.children then {(enode, eid)} else {}
    {
      for i := 0 to |enode.children|
        invariant RecordsInv(nextId, parents, hashcons)
        invariant forall c :: ParentsOf(c) == old(ParentsOf(c)) + if c in enode.children[..i] then {(enode, eid)} else {}
      {
        var c := enode.children[i];
        RecordsInvParent(nextId, parents, hashcons, c, ParentsOf(c) + {(enode, eid)});
        parents := parents[c := ParentsOf(c) + {(enode, eid)}];
        assert enode.children[..i + 1] == enode.children[..i] + [c];
      }
      assert enode.children[..|enode.children|] == enode.children;
    }

    /**
     * `merge`: nothing changes when both ids have one representative;
     * otherwise the class of `b` joins that of `a`, its nodes and parent
     * records move to the surviving representative, and that representative
     * goes on the worklist.
     */
    method Merge(a: EClassId, b: EClassId) returns (r: EClassId)
      requires Valid() && (a == b || (a < nextId && b < nextId))
      modifies this, uf
      ensures Valid()
      ensures r == old(uf.Rep(a)) && uf.Rep(a) == r && uf.Rep(b) == r
      ensures forall y :: uf.Rep(y) == if old(uf.Rep(y)) == old(uf.Rep(b)) then r else old(uf.Rep(y))
      ensures Refines(old(uf.root), uf.root)
      ensures nextId == old(nextId) && hashcons == old(hashcons)
      ensures old(uf.Rep(a)) == old(uf.Rep(b)) ==>
                classes == old(classes) && parents == old(parents) && worklist == old(worklist)
      ensures old(uf.Rep(a)) != old(uf.Rep(b)) ==>
                var rb := old(uf.Rep(b));
                classes == old(classes)[r := old(classes)[r] + old(classes)[rb]] - {rb}
                && parents == old(parents)[r := old(ParentsOf(r)) + old(ParentsOf(rb))] - {rb}
                && worklist == old(worklist) + {r}
                && |classes| == old(|classes|) - 1
    {
      ghost var parent0, root0, dist0 := uf.parent, uf.root, uf.dist;
      var ra := Find(a);
      var rb := Find(b);
      forall y
        ensures RepIn(uf.root, y) == RepIn(root0, y)
      {
        assert uf.Rep(y) == old(uf.Rep(y));
      }
      if ra == rb {
        SameRepsRefine(parent0, root0, dist0, uf.root);
        return ra;
      }
      ghost var root1 := uf.root;
      SameRepsRefine(parent0, root0, dist0, root1);
      r := MergeRoots(ra, rb);
      RefinesTrans(root0, root1, uf.root);
    }

    /** `merge` of two distinct representatives: the union, then the bookkeeping of `Absorb`. */
    method MergeRoots(ra: EClassId, rb: EClassId) returns (r: EClassId)
      requires Valid() && ra in classes && rb in classes && ra != rb
      modifies this, uf
      ensures Valid() && r == ra
      ensures forall y :: RepIn(uf.root, y) == if RepIn(old(uf.root), y) == rb then r else RepIn(old(uf.root), y)
      ensures Refines(old(uf.root), uf.root)
      ensures nextId == old(nextId) && hashcons == old(hashcons)
      ensures classes == old(classes)[r := old(classes)[r] + old(classes)[rb]] - {rb}
      ensures parents == old(parents)[r := old(ParentsOf(r)) + old(ParentsOf(rb))] - {rb}
      ensures worklist == old(worklist) + {r}
      ensures |classes| == old(|classes|) - 1
    {
      ghost var parent1, root1, dist1 := uf.parent, uf.root, uf.dist;
      r := uf.Union(ra, rb);
      forall y
        ensures RepIn(uf.root, y) == if RepIn(root1, y) == rb then r else RepIn(root1, y)
      {
        assert uf.Rep(y) == if old(uf.Rep(y)) == old(uf.Rep(rb)) then r else old(uf.Rep(y));
      }
      RelabelRefines(parent1, root1, dist1, uf.root, rb, r);
      IdsInvMerge(root1, uf.root, nextId, classes, r, rb, classes[r] + classes[rb]);
      Absorb(r, rb);
    }

    /** The bookkeeping of `merge` after the union: the class `rb` is folded into `r`, which goes on the worklist. */
    method Absorb(r: EClassId, rb: EClassId)
      requires RecordsInv(nextId, parents, hashcons) && r in classes && rb in classes && r != rb
      modifies this`classes, this`parents, this`worklist
      ensures RecordsInv(nextId, parents, hashcons)
      ensures classes == old(classes)[r := old(classes)[r] + old(classes)[rb]] - {rb}
      ensures parents == old(parents)[r := old(ParentsOf(r)) + old(ParentsOf(rb))] - {rb}
      ensures worklist == old(worklist) + {r}
    {
      classes := classes[r := classes[r] + classes[rb]];
      classes := classes - {rb};
      RecordsInvParent(nextId, parents, hashcons, r, ParentsOf(r) + ParentsOf(rb));
      parents := parents[r := ParentsOf(r) + ParentsOf(rb)];
      RecordsInvShrink(nextId, parents, hashcons, rb, ENode("", []));
      parents := parents - {rb};
      worklist := worklist + {r};
    }

    /** The nodes of the parent records of `c`. */
    function RecordedNodes(c: EClassId): set<ENode>
      reads this
    {
      set p | p in ParentsOf(c) :: p.0
    }

    /** `{self.find(e) for e in ws}`. */
    method FindAll(ws: set<EClassId>) returns (todo: set<EClassId>)
      requires Valid()
      modifies uf
      ensures Valid()
      ensures todo == set w | w in ws :: old(uf.Rep(w))
      ensures forall y :: uf.Rep(y) == old(uf.Rep(y))
      ensures Refines(old(uf.root), uf.root)
    {
      ghost var parent0, root0, dist0 := uf.parent, uf.root, uf.dist;
      todo := {};
      var left := ws;
      while left != {}
        invariant Valid() && left <= ws
        invariant todo == set w | w in ws - left :: old(uf.Rep(w))
        invariant forall y :: uf.Rep(y) == old(uf.Rep(y))
        decreases left
      {
        var w :| w in left;
        var r := Find(w);
        todo, left := todo + {r}, left - {w};
      }
      forall y
        ensures RepIn(uf.root, y) == RepIn(root0, y)
      {
        assert uf.Rep(y) == old(uf.Rep(y));
      }
      SameRepsRefine(parent0, root0, dist0, uf.root);
    }

    /**
     * One record of the repair loop: its canonical form and the
     * representative of its class, as `pnode.canonicalize(self.find)` and
     * `self.find(peclass)` give them. No representative changes.
     */
    method CanonicalRecord(p: ParentEntry) returns (canon: ENode, pe: EClassId)
      requires Valid() && p.1 < nextId
      modifies uf
      ensures Valid() && classes == old(classes) && worklist == old(worklist) && hashcons == old(hashcons)
      ensures canon == Canonicalize(p.0, RepFn(old(uf.root)))
      ensures pe == old(uf.Rep(p.1)) && pe < nextId && uf.Rep(pe) == pe
      ensures Refines(old(uf.root), uf.root)
      ensures forall y :: RepIn(uf.root, y) == RepIn(old(uf.root), y)
    {
      ghost var parent0, root0, dist0 := uf.parent, uf.root, uf.dist;
      canon := CanonicalizeNode(p.0);
      pe := Find(p.1);
      forall y
        ensures RepIn(uf.root, y) == RepIn(root0, y)
      {
        assert uf.Rep(y) == old(uf.Rep(y));
      }
      SameRepsRefine(parent0, root0, dist0, uf.root);
    }

    /**
     * `repair(eclass)`, with the hash-cons removals of every record done
     * before the first re-insertion. `order` is the order in which
     * `list(self.parents[eclass])` lists the records; `canons` are their
     * canonical forms as the loop computes them. Afterwards every record's
     * canonical node is in the hash-cons and names the record's class (so
     * records with one canonical form are in one class), and the records of
     * `eclass` are exactly the canonical nodes, each with the class the
     * hash-cons gives it.
     */
    method Repair(eclass: EClassId, order: seq<ParentEntry>) returns (ghost canons: seq<ENode>)
      requires Valid() && Enumerates(order, ParentsOf(eclass))
      modifies this, uf
      ensures Valid() && nextId == old(nextId)
      ensures Refines(old(uf.root), uf.root)
      ensures |classes| <= old(|classes|) && (|classes| == old(|classes|) ==> worklist == old(worklist))
      ensures |canons| == |order|
      ensures forall i | 0 <= i < |order| ::
                Canonicalize(canons[i], RepFn(uf.root)) == Canonicalize(order[i].0, RepFn(uf.root))
      ensures forall i | 0 <= i < |order| ::
                canons[i] in hashcons && uf.Rep(hashcons[canons[i]]) == uf.Rep(order[i].1)
      ensures forall i, j | 0 <= i < |order| && 0 <= j < |order| && canons[i] == canons[j] ::
                uf.Rep(order[i].1) == uf.Rep(order[j].1)
      ensures forall p | p in ParentsOf(eclass) :: p.0 in canons && p.0 in hashcons && hashcons[p.0] == p.1
      ensures forall i | 0 <= i < |order| :: canons[i] in RecordedNodes(eclass)
    {
      RecordsAllocated(eclass, order);
      Unlist(order);
      var newParents;
      newParents, canons := RepairPass(order);
      RepairDoneHashcons(order, canons, newParents, uf.root, hashcons);
      SetRecords(eclass, newParents);
    }

    /** The second pass of `Repair`: each record re-entered under its canonical node, or its class merged. */
    method RepairPass(order: seq<ParentEntry>) returns (newParents: map<ENode, EClassId>, ghost canons: seq<ENode>)
      requires Valid() && forall j | 0 <= j < |order| :: order[j].1 < nextId
      modifies this, uf
      ensures Valid() && nextId == old(nextId)
      ensures Refines(old(uf.root), uf.root)
      ensures |classes| <= old(|classes|) && (|classes| == old(|classes|) ==> worklist == old(worklist))
      ensures |canons| == |order| && forall k | k in newParents :: k in canons
      ensures Recorded(newParents) && RepairDone(order, canons, newParents, uf.root, |order|)
    {
      ghost var root0 := uf.root;
      SameRepsRefine(uf.parent, uf.root, uf.dist, uf.root);
      newParents := map[];
      canons := [];
      for i := 0 to |order|
        invariant Valid() && nextId == old(nextId)
        invariant Refines(root0, uf.root)
        invariant |classes| <= old(|classes|) && (|classes| == old(|classes|) ==> worklist == old(worklist))
        invariant |canons| == i
        invariant forall k | k in newParents :: k in canons
        invariant Recorded(newParents)
        invariant RepairDone(order, canons, newParents, uf.root, i)
      {
        ghost var rootBefore, np0, canons0 := uf.root, newParents, canons;
        var canon;
        canon, newParents := RepairRecord(order[i], newParents);
        RefinesTrans(root0, rootBefore, uf.root);
        RepairDoneRefines(order, canons, np0, newParents, rootBefore, uf.root, i);
        canons := canons + [canon];
        assert canons[..i] == canons0;
        RepairDoneStep(order, canons, newParents, uf.root, i);
      }
    }

    /**
     * `repair(eclass)` as written: each record's node leaves the hash-cons in
     * the same turn that re-inserts canonical nodes. When the node of a later
     * record is the canonical form of an earlier one, the later turn removes
     * the entry the earlier turn made, and nothing puts it back: the node
     * stays among the records of `eclass` but the hash-cons no longer holds it.
     */
    method RepairAsWritten(eclass: EClassId, order: seq<ParentEntry>) returns (ghost canons: seq<ENode>)
      requires Valid() && Enumerates(order, ParentsOf(eclass))
      modifies this, uf
      ensures Valid() && nextId == old(nextId)
      ensures Refines(old(uf.root), uf.root)
      ensures |classes| <= old(|classes|) && (|classes| == old(|classes|) ==> worklist == old(worklist))
      ensures |canons| == |order|
      ensures |order| > 0 ==> canons[0] == Canonicalize(order[0].0, RepFn(old(uf.root)))
      ensures forall i | 0 <= i < |order| :: canons[i] in RecordedNodes(eclass)
      ensures forall i, j | 0 <= i < j < |order| && order[j].0 == canons[i] :: canons[i] !in hashcons
      ensures forall i | 0 <= i < |order| ::
                Canonicalize(canons[i], RepFn(uf.root)) == Canonicalize(order[i].0, RepFn(uf.root))
      ensures forall i, j | 0 <= i < |order| && 0 <= j < |order| && canons[i] == canons[j] ::
                uf.Rep(order[i].1) == uf.Rep(order[j].1)
    {
      RecordsAllocated(eclass, order);
      ghost var first := if |order| > 0 then Canonicalize(order[0].0, RepFn(uf.root)) else ENode("", []);
      var newParents;
      newParents, canons := RepairTurns(order, first);
      assert Unlisted(order, canons, hashcons, |order|) && Covers(newParents, canons);
      SetRecords(eclass, newParents);
    }

    /** The loop of `repair` as written, over the records in the order `order`. */
    method RepairTurns(order: seq<ParentEntry>, ghost first: ENode)
      returns (newParents: map<ENode, EClassId>, ghost canons: seq<ENode>)
      requires Valid() && forall j | 0 <= j < |order| :: order[j].1 < nextId
      requires |order| > 0 ==> first == Canonicalize(order[0].0, RepFn(uf.root))
      modifies this, uf
      ensures Valid() && nextId == old(nextId)
      ensures Refines(old(uf.root), uf.root)
      ensures |classes| <= old(|classes|) && (|classes| == old(|classes|) ==> worklist == old(worklist))
      ensures AsWritten(order, canons, newParents, hashcons, nextId, first, |order|)
      ensures RepairDone(order, canons, newParents, uf.root, |order|)
    {
      ghost var root0 := uf.root;
      SameRepsRefine(uf.parent, uf.root, uf.dist, uf.root);
      newParents := map[];
      canons := [];
      for i := 0 to |order|
        invariant Valid() && nextId == old(nextId)
        invariant Refines(root0, uf.root)
        invariant |classes| <= old(|classes|) && (|classes| == old(|classes|) ==> worklist == old(worklist))
        invariant i == 0 ==> uf.root == root0
        invariant AsWritten(order, canons, newParents, hashcons, nextId, first, i)
        invariant RepairDone(order, canons, newParents, uf.root, i)
      {
        ghost var h0, rootBefore, np0 := hashcons, uf.root, newParents;
        var canon;
        canon, newParents := RepairTurn(order[i], newParents);
        RefinesTrans(root0, rootBefore, uf.root);
        AsWrittenStep(order, canons, canon, np0, newParents, h0, hashcons, nextId, first, i);
        RepairDoneTurn(order, canons, canon, np0, newParents, rootBefore, uf.root, i);
        canons := canons + [canon];
      }
    }

    /** `self.parents[eclass] = {(p, c) for p, c in new_parents.items()}`. */
    method SetRecords(eclass: EClassId, newParents: map<ENode, EClassId>)
      requires Valid() && forall k | k in newParents :: newParents[k] < nextId
      modifies this`parents
      ensures Valid() && hashcons == old(hashcons) && classes == old(classes) && worklist == old(worklist)
      ensures parents == old(parents)[eclass := set k | k in newParents :: (k, newParents[k])]
      ensures RecordedNodes(eclass) == newParents.Keys
    {
      RecordsInvParent(nextId, parents, hashcons, eclass, set k | k in newParents :: (k, newParents[k]));
      parents := parents[eclass := set k | k in newParents :: (k, newParents[k])];
      forall k | k in newParents
        ensures k in RecordedNodes(eclass)
      {
        assert (k, newParents[k]) in ParentsOf(eclass);
      }
    }

    /**
     * One turn of the repair loop as written: the record's node leaves the
     * hash-cons, then the record is repaired. A node already listed in
     * `newParents` is never put back.
     */
    method RepairTurn(p: ParentEntry, newParents: map<ENode, EClassId>)
      returns (canon: ENode, newParents': map<ENode, EClassId>)
      requires Valid() && p.1 < nextId && forall k | k in newParents :: newParents[k] < nextId
      modifies this, uf
      ensures Valid() && nextId == old(nextId) && forall k | k in newParents' :: newParents'[k] < nextId
      ensures Refines(old(uf.root), uf.root)
      ensures |classes| <= old(|classes|) && (|classes| == old(|classes|) ==> worklist == old(worklist))
      ensures newParents'.Keys == newParents.Keys + {canon}
      ensures canon == Canonicalize(p.0, RepFn(old(uf.root)))
      ensures forall k | k in newParents && k in hashcons :: k in old(hashcons) && k != p.0
      ensures forall k | k in newParents :: newParents'[k] == newParents[k]
      ensures Canonicalize(canon, RepFn(uf.root)) == Canonicalize(p.0, RepFn(uf.root))
      ensures RepIn(uf.root, p.1) == RepIn(uf.root, newParents'[canon])
    {
      Pop(p.0);
      ghost var popped := hashcons;
      canon, newParents' := RepairRecord(p, newParents);
      assert forall k | k in newParents && k in hashcons :: k in popped;
    }

    /**
     * `rebuild`: while the worklist is not empty, its representatives are
     * taken and the worklist cleared, and each of them is repaired, in the
     * order the set yields them. Every round either merges classes or leaves
     * the worklist empty, so the loop ends.
     */
    method Rebuild()
      requires Valid()
      modifies this, uf
      ensures Valid() && worklist == {} && nextId == old(nextId)
      ensures Refines(old(uf.root), uf.root) && |classes| <= old(|classes|)
    {
      ghost var root0 := uf.root;
      SameRepsRefine(uf.parent, uf.root, uf.dist, uf.root);
      while worklist != {}
        invariant Valid() && nextId == old(nextId) && Refines(root0, uf.root) && |classes| <= old(|classes|)
        decreases |classes|, |worklist|
      {
        ghost var rootRound := uf.root;
        RebuildRound();
        RefinesTrans(root0, rootRound, uf.root);
      }
    }

    /**
     * One round of `rebuild`: the representatives of the worklist, the
     * worklist cleared, and each of them repaired. Either classes were merged
     * or the worklist stays empty.
     */
    method RebuildRound()
      requires Valid()
      modifies this, uf
      ensures Valid() && nextId == old(nextId) && Refines(old(uf.root), uf.root)
      ensures |classes| <= old(|classes|) && (|classes| == old(|classes|) ==> worklist == {})
    {
      var todo := FindAll(worklist);
      ghost var rootFound := uf.root;
      ClearWorklist();
      RepairAll(todo);
      RefinesTrans(old(uf.root), rootFound, uf.root);
    }

    /** `self.worklist.clear()`. */
    method ClearWorklist()
      requires Valid()
      modifies this`worklist
      ensures Valid() && worklist == {} && classes == old(classes) && uf.root == old(uf.root)
    {
      worklist := {};
    }

    /** `for eclass in todo: self.repair(eclass)`, in the order the set yields the classes. */
    method RepairAll(todo: set<EClassId>)
      requires Valid()
      modifies this, uf
      ensures Valid() && nextId == old(nextId) && Refines(old(uf.root), uf.root)
      ensures |classes| <= old(|classes|) && (|classes| == old(|classes|) ==> worklist == old(worklist))
    {
      ghost var root0 := uf.root;
      SameRepsRefine(uf.parent, uf.root, uf.dist, uf.root);
      var left := todo;
      while left != {}
        invariant Valid() && nextId == old(nextId) && Refines(root0, uf.root)
        invariant |classes| <= old(|classes|) && (|classes| == old(|classes|) ==> worklist == old(worklist))
        decreases left
      {
        var eclass :| eclass in left;
        var order := ListOf(ParentsOf(eclass));
        ghost var rootTurn := uf.root;
        ghost var canons := RepairAsWritten(eclass, order);
        RefinesTrans(root0, rootTurn, uf.root);
        left := left - {eclass};
      }
    }

    /** `self.hashcons[n] = e`, for an id handed out. */
    method Enter(n: ENode, e: EClassId)
      requires Valid() && e < nextId
      modifies this`hashcons
      ensures Valid() && hashcons == old(hashcons)[n := e]
      ensures classes == old(classes) && worklist == old(worklist) && uf.root == old(uf.root)
    {
      RecordsInvHashcons(nextId, parents, hashcons, n, e);
      hashcons := hashcons[n := e];
    }

    /** `self.hashcons.pop(n, None)`. */
    method Pop(n: ENode)
      requires Valid()
      modifies this`hashcons
      ensures Valid() && hashcons == old(hashcons) - {n}
      ensures classes == old(classes) && worklist == old(worklist) && uf.root == old(uf.root)
    {
      RecordsInvShrink(nextId, parents, hashcons, 0, n);
      hashcons := hashcons - {n};
    }

    /** `self.hashcons.pop(pnode, None)` for every record listed. */
    method Unlist(order: seq<ParentEntry>)
      requires Valid()
      modifies this`hashcons
      ensures Valid() && classes == old(classes) && worklist == old(worklist) && uf.root == old(uf.root)
      ensures hashcons == old(hashcons) - set i | 0 <= i < |order| :: order[i].0
    {
      for i := 0 to |order|
        invariant Valid() && classes == old(classes) && worklist == old(worklist) && uf.root == old(uf.root)
        invariant hashcons == old(hashcons) - set j | 0 <= j < i :: order[j].0
      {
        Pop(order[i].0);
      }
    }

    /** The hash-cons holds every entry of `newParents`, and these name ids handed out. */
    ghost predicate Recorded(newParents: map<ENode, EClassId>)
      reads this
    {
      forall k | k in newParents :: k in hashcons && hashcons[k] == newParents[k] && newParents[k] < nextId
    }

    /**
     * One turn of the repair loop: the record's canonical node either joins
     * `newParents` (and the hash-cons) with the record's class, or its class
     * is merged with the one already listed for that node.
     */
    method RepairRecord(p: ParentEntry, newParents: map<ENode, EClassId>)
      returns (canon: ENode, newParents': map<ENode, EClassId>)
      requires Valid() && p.1 < nextId && forall k | k in newParents :: newParents[k] < nextId
      modifies this, uf
      ensures Valid() && nextId == old(nextId) && forall k | k in newParents' :: newParents'[k] < nextId
      ensures old(Recorded(newParents)) ==> Recorded(newParents')
      ensures Refines(old(uf.root), uf.root)
      ensures |classes| <= old(|classes|) && (|classes| == old(|classes|) ==> worklist == old(worklist))
      ensures newParents'.Keys == newParents.Keys + {canon}
      ensures forall k | k in newParents :: newParents'[k] == newParents[k]
      ensures forall k | k in newParents :: k in hashcons <==> k in old(hashcons)
      ensures canon == Canonicalize(p.0, RepFn(old(uf.root)))
      ensures Canonicalize(canon, RepFn(uf.root)) == Canonicalize(p.0, RepFn(uf.root))
      ensures RepIn(uf.root, p.1) == RepIn(uf.root, newParents'[canon])
    {
      ghost var root0 := uf.root;
      var pe;
      canon, pe := CanonicalRecord(p);
      ghost var root1 := uf.root;
      assert RepIn(root1, pe) == RepIn(root1, p.1);
      if canon in newParents {
        newParents' := newParents;
        MergeRecord(pe, newParents[canon]);
      } else {
        newParents' := FileNew(canon, pe, newParents);
      }
      RefinesTrans(root0, root1, uf.root);
      RefinesKeepsSame(root1, uf.root, pe, p.1);
      CanonicalizeRefines(p.0, root0, uf.root);
    }

    /** A canonical node not listed yet: listed, and hash-consed, with `pe`. */
    method FileNew(canon: ENode, pe: EClassId, newParents: map<ENode, EClassId>)
      returns (newParents': map<ENode, EClassId>)
      requires Valid() && pe < nextId && canon !in newParents
      modifies this`hashcons
      ensures Valid() && newParents' == newParents[canon := pe] && hashcons == old(hashcons)[canon := pe]
      ensures classes == old(classes) && worklist == old(worklist) && uf.root == old(uf.root)
      ensures old(Recorded(newParents)) ==> Recorded(newParents')
    {
      newParents' := newParents[canon := pe];
      Enter(canon, pe);
    }

    /** `self.merge(peclass, new_parents[canon])`, with only what the repair loop needs of it. */
    method MergeRecord(a: EClassId, b: EClassId)
      requires Valid() && a < nextId && b < nextId
      modifies this, uf
      ensures Valid() && nextId == old(nextId) && hashcons == old(hashcons)
      ensures Refines(old(uf.root), uf.root) && RepIn(uf.root, a) == RepIn(uf.root, b)
      ensures |classes| <= old(|classes|) && (|classes| == old(|classes|) ==> worklist == old(worklist))
    {
      var _ := Merge(a, b);
    }

    /** Every record of `eclass` names a class handed out. */
    lemma RecordsAllocated(eclass: EClassId, order: seq<ParentEntry>)
      requires Valid() && Enumerates(order, ParentsOf(eclass))
      ensures forall j | 0 <= j < |order| :: order[j].1 < nextId
    {
      forall j | 0 <= j < |order|
        ensures order[j].1 < nextId
      {
        assert order[j] in ParentsOf(eclass);
      }
    }
  }

  /**
   * The first `i` records are repaired under the labels `root`: each one's
   * canonical form is a key of `newParents` whose class is the record's
   * class, and canonicalises like the record's node.
   */
  ghost predicate RepairDone(order: seq<ParentEntry>, canons: seq<ENode>, newParents: map<ENode, EClassId>,
                             root: map<EClassId, EClassId>, i: nat)
  {
    i <= |order| && i <= |canons|
    && (forall j | 0 <= j < i :: canons[j] in newParents)
    && (forall j | 0 <= j < i :: RepIn(root, order[j].1) == RepIn(root, newParents[canons[j]]))
    && (forall j | 0 <= j < i :: Canonicalize(canons[j], RepFn(root)) == Canonicalize(order[j].0, RepFn(root)))
  }

  /** Merging more classes, or listing more nodes, keeps the repaired records repaired. */
  lemma RepairDoneRefines(order: seq<ParentEntry>, canons: seq<ENode>,
                          np0: map<ENode, EClassId>, np1: map<ENode, EClassId>,
                          r0: map<EClassId, EClassId>, r1: map<EClassId, EClassId>, i: nat)
    requires RepairDone(order, canons, np0, r0, i) && Refines(r0, r1)
    requires forall k | k in np0 :: k in np1 && np1[k] == np0[k]
    ensures RepairDone(order, canons, np1, r1, i)
  {
    forall j | 0 <= j < i
      ensures RepIn(r1, order[j].1) == RepIn(r1, np1[canons[j]])
      ensures Canonicalize(canons[j], RepFn(r1)) == Canonicalize(order[j].0, RepFn(r1))
    {
      RefinesKeepsSame(r0, r1, order[j].1, np0[canons[j]]);
      CanonicalizeRefines(canons[j], r0, r1);
      CanonicalizeRefines(order[j].0, r0, r1);
    }
  }

  /**
   * Once every record is repaired and the hash-cons holds `newParents`, each
   * record's canonical node names the record's class in the hash-cons, and
   * records with one canonical node are in one class.
   */
  lemma RepairDoneHashcons(order: seq<ParentEntry>, canons: seq<ENode>, newParents: map<ENode, EClassId>,
                           root: map<EClassId, EClassId>, hashcons: map<ENode, EClassId>)
    requires RepairDone(order, canons, newParents, root, |order|)
    requires forall k | k in newParents :: k in hashcons && hashcons[k] == newParents[k]
    ensures forall i | 0 <= i < |order| ::
              canons[i] in hashcons && RepIn(root, hashcons[canons[i]]) == RepIn(root, order[i].1)
    ensures forall i, j | 0 <= i < |order| && 0 <= j < |order| && canons[i] == canons[j] ::
              RepIn(root, order[i].1) == RepIn(root, order[j].1)
  {
  }

  /**
   * In the repair loop as written, after `i` turns: the canonical node of a
   * record is missing from the hash-cons once a later record's node equals it.
   */
  ghost predicate Unlisted(order: seq<ParentEntry>, canons: seq<ENode>, hashcons: map<ENode, EClassId>, i: nat) {
    i <= |order| && i <= |canons|
    && forall a, j | 0 <= a < j < i && order[j].0 == canons[a] :: canons[a] !in hashcons
  }

  /** One more turn: the pop of the record's node, and no earlier canonical node re-inserted. */
  lemma UnlistedStep(order: seq<ParentEntry>, canons: seq<ENode>, canon: ENode, newParents: map<ENode, EClassId>,
                     h0: map<ENode, EClassId>, h1: map<ENode, EClassId>, i: nat)
    requires i < |order| && |canons| == i && Unlisted(order, canons, h0, i) && Covers(newParents, canons)
    requires forall k | k in newParents && k in h1 :: k in h0 && k != order[i].0
    ensures Unlisted(order, canons + [canon], h1, i + 1)
  {
    forall a, j | 0 <= a < j < i + 1 && order[j].0 == (canons + [canon])[a]
      ensures (canons + [canon])[a] !in h1
    {
      assert canons[a] in newParents;
    }
  }

  /**
   * The state of the repair loop as written after `i` turns: a canonical
   * node per turn, each listed in `newParents` with an id handed out, the
   * first one as given, and every canonical node that a later record's node
   * equals gone from the hash-cons.
   */
  ghost predicate AsWritten(order: seq<ParentEntry>, canons: seq<ENode>, newParents: map<ENode, EClassId>,
                            hashcons: map<ENode, EClassId>, next: nat, first: ENode, i: nat)
  {
    |canons| == i <= |order| && Covers(newParents, canons)
    && (forall k | k in newParents :: newParents[k] < next)
    && (i > 0 ==> canons[0] == first)
    && Unlisted(order, canons, hashcons, i)
  }

  /** One turn of the repair loop as written keeps its state. */
  lemma AsWrittenStep(order: seq<ParentEntry>, canons: seq<ENode>, canon: ENode,
                      np0: map<ENode, EClassId>, np1: map<ENode, EClassId>,
                      h0: map<ENode, EClassId>, h1: map<ENode, EClassId>, next: nat, first: ENode, i: nat)
    requires AsWritten(order, canons, np0, h0, next, first, i) && i < |order|
    requires np1.Keys == np0.Keys + {canon} && forall k | k in np1 :: np1[k] < next
    requires i == 0 ==> canon == first
    requires forall k | k in np0 && k in h1 :: k in h0 && k != order[i].0
    ensures AsWritten(order, canons + [canon], np1, h1, next, first, i + 1)
  {
    UnlistedStep(order, canons, canon, np0, h0, h1, i);
    CoversStep(np0, np1, canons, canon);
  }

  /** Every canonical node computed so far is a key of `newParents`. */
  ghost predicate Covers(newParents: map<ENode, EClassId>, canons: seq<ENode>) {
    forall j | 0 <= j < |canons| :: canons[j] in newParents
  }

  /** A turn that lists its canonical node keeps every earlier one listed. */
  lemma CoversStep(np0: map<ENode, EClassId>, np1: map<ENode, EClassId>, canons: seq<ENode>, canon: ENode)
    requires Covers(np0, canons) && np1.Keys == np0.Keys + {canon}
    ensures Covers(np1, canons + [canon])
  {
  }

  /** One turn of a repair loop: the earlier records stay repaired, and record `i` is repaired by `canon`. */
  lemma RepairDoneTurn(order: seq<ParentEntry>, canons: seq<ENode>, canon: ENode,
                       np0: map<ENode, EClassId>, np1: map<ENode, EClassId>,
                       r0: map<EClassId, EClassId>, r1: map<EClassId, EClassId>, i: nat)
    requires |canons| == i < |order|
    requires RepairDone(order, canons, np0, r0, i) && Refines(r0, r1)
    requires forall k | k in np0 :: k in np1 && np1[k] == np0[k]
    requires canon in np1 && RepIn(r1, order[i].1) == RepIn(r1, np1[canon])
    requires Canonicalize(canon, RepFn(r1)) == Canonicalize(order[i].0, RepFn(r1))
    ensures RepairDone(order, canons + [canon], np1, r1, i + 1)
  {
    RepairDoneRefines(order, canons, np0, np1, r0, r1, i);
    assert (canons + [canon])[..i] == canons;
    RepairDoneStep(order, canons + [canon], np1, r1, i);
  }

  /** The record `i`, once its canonical form is a key of the right class, is repaired too. */
  lemma RepairDoneStep(order: seq<ParentEntry>, canons: seq<ENode>, newParents: map<ENode, EClassId>,
                       root: map<EClassId, EClassId>, i: nat)
    requires i < |order| && |canons| == i + 1
    requires RepairDone(order, canons[..i], newParents, root, i)
    requires canons[i] in newParents && RepIn(root, order[i].1) == RepIn(root, newParents[canons[i]])
    requires Canonicalize(canons[i], RepFn(root)) == Canonicalize(order[i].0, RepFn(root))
    ensures RepairDone(order, canons, newParents, root, i + 1)
  {
  }

  /**
   * `add` of a node new to a graph in which no classes were merged: the node
   * is its own canonical form and gets the next id.
   */
  method AddFresh(g: EGraph, n: ENode) returns (r: EClassId)
    requires g.Valid() && (forall y :: g.uf.Rep(y) == y) && n !in g.hashcons
    modifies g, g.uf
    ensures g.Valid() && (forall y :: g.uf.Rep(y) == y)
    ensures r == old(g.nextId) && g.nextId == r + 1 && g.hashcons == old(g.hashcons)[n := r]
    ensures g.ParentsOf(1) == old(g.ParentsOf(1)) + if 1 in n.children then {(n, r)} else {}
    ensures g.ParentsOf(2) == old(g.ParentsOf(2)) + if 2 in n.children then {(n, r)} else {}
  {
    var canon := Canonicalize(n, RepFn(g.uf.root));
    forall i | 0 <= i < |n.children|
      ensures canon.children[i] == n.children[i]
    {
      assert g.uf.Rep(n.children[i]) == n.children[i];
    }
    assert canon == n;
    r := g.Add(n);
  }

  /** `x`, `a` and `b` added to an empty graph: the ids 0, 1 and 2, with no parent records. */
  method LeafGraph() returns (g: EGraph)
    ensures fresh(g) && fresh(g.uf) && g.Valid() && g.nextId == 3
    ensures (forall y :: g.uf.Rep(y) == y) && g.ParentsOf(1) == {} && g.ParentsOf(2) == {}
    ensures g.hashcons.Keys == {ENode("x", []), ENode("a", []), ENode("b", [])}
  {
    g := new EGraph();
    var x := AddFresh(g, ENode("x", []));
    var a := AddFresh(g, ENode("a", []));
    var b := AddFresh(g, ENode("b", []));
  }

  /** The leaves and `a + x`, with id 3. */
  method LeafSumGraph() returns (g: EGraph)
    ensures fresh(g) && fresh(g.uf) && g.Valid() && g.nextId == 4
    ensures (forall y :: g.uf.Rep(y) == y) && g.ParentsOf(1) == {(ENode("+", [1, 0]), 3)} && g.ParentsOf(2) == {}
    ensures g.hashcons.Keys == {ENode("x", []), ENode("a", []), ENode("b", []), ENode("+", [1, 0])}
  {
    g := LeafGraph();
    var ax := AddFresh(g, ENode("+", [1, 0]));
  }

  /**
   * The graph of the congruence test: `x`, `a`, `b`, `a + x` and `b + x`
   * added to an empty graph get the ids 0 to 4, each its own class, and the
   * two sums are the parent records of `a` and of `b`.
   */
  method CongruenceGraph() returns (g: EGraph)
    ensures fresh(g) && fresh(g.uf) && g.Valid() && g.nextId == 5
    ensures g.uf.Rep(0) == 0 && g.uf.Rep(1) == 1 && g.uf.Rep(2) == 2
    ensures g.ParentsOf(1) == {(ENode("+", [1, 0]), 3)} && g.ParentsOf(2) == {(ENode("+", [2, 0]), 4)}
  {
    g := LeafSumGraph();
    var sa, sb := ENode("+", [1, 0]), ENode("+", [2, 0]);
    assert sb != sa by { assert sb.children[0] != sa.children[0]; }
    var bx := AddFresh(g, sb);
  }

  /**
   * `merge(a, b)` in the congruence graph: `b` joins the class of `a`, which
   * now holds both sums as parent records, and `b + x` canonicalises to
   * `a + x`.
   */
  method MergedGraph() returns (g: EGraph)
    ensures fresh(g) && fresh(g.uf) && g.Valid()
    ensures g.ParentsOf(1) == {(ENode("+", [1, 0]), 3), (ENode("+", [2, 0]), 4)}
    ensures RepIn(g.uf.root, 2) == 1 && RepIn(g.uf.root, 0) == 0
  {
    g := CongruenceGraph();
    var r := g.Merge(1, 2);
    assert g.uf.Rep(2) == 1 && g.uf.Rep(0) == 0;
  }

  /** With `b` in the class of `a`, `b + x` canonicalises to `a + x`. */
  lemma SumsCongruent(root: map<EClassId, EClassId>)
    requires RepIn(root, 2) == 1 && RepIn(root, 0) == 0
    ensures Canonicalize(ENode("+", [2, 0]), RepFn(root)) == ENode("+", [1, 0])
  {
    assert Canonicalize(ENode("+", [2, 0]), RepFn(root)).children == [1, 0];
  }

  /**
   * The lost hash-cons entry: after `merge(a, b)` in the congruence graph,
   * repairing class 1 with its records listed as `(b + x, 4)` then
   * `(a + x, 3)` canonicalises `b + x` to `a + x`, enters it in the hash-cons,
   * and then pops it again as the node of the second record. `a + x` stays a
   * parent record of class 1 that the hash-cons does not hold, which
   * `Repair` rules out.
   */
  method RepairLosesHashconsEntry() returns (g: EGraph, lost: ENode)
    ensures g.Valid() && lost == ENode("+", [1, 0])
    ensures lost in g.RecordedNodes(1) && lost !in g.hashcons
  {
    g := MergedGraph();
    SumsCongruent(g.uf.root);
    var sa, sb := ENode("+", [1, 0]), ENode("+", [2, 0]);
    assert sb != sa by { assert sb.children[0] != sa.children[0]; }
    var order := [(sb, 4), (sa, 3)];
    ghost var canons := g.RepairAsWritten(1, order);
    lost := sa;
    assert order[1].0 == canons[0];
  }
}
