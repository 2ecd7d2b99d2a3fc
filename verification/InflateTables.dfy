/** The two-level decoding tables of the inflater: a 1024-entry lookup on the next ten bits, and
    an overflow tree for longer codes.  Tables are built in place one symbol at a time and decode
    exactly the canonical code of the lengths they were built from. */
module InflateTables {
  import opened Bits
  import opened Canonical

  const FAST_BITS: nat := 10
  const FAST_SIZE: nat := 1024

  /** Ghost record of the overflow tree: the code prefix each allocated node stands for, and the
      order in which it was allocated. */
  type Nodes = map<seq<bool>, nat>

  /** The name of the `k`-th node in the tables, and where it keeps its child for bit `b`. */
  function Id(k: nat): int { -2 * k - 1 }

  function Slot(k: nat, b: bool): nat { 2 * k + BitVal(b) }

  /** Lookup entry of a code of at most ten bits: length and symbol packed together. */
  function Packed(lens: seq<nat>, s: nat): nat
    requires s < |lens|
  {
    512 * lens[s] + s
  }

  ghost predicate Internal(lens: seq<nat>, p: seq<bool>) {
    exists s :: 0 <= s < |lens| && |p| < lens[s] && p <= Code(lens, s)
  }

  // The parts of the table invariant, one table cell at a time.

  ghost predicate NodeOk(lens: seq<nat>, nodes: Nodes, p: seq<bool>)
    requires p in nodes
  {
    && FAST_BITS <= |p|
    && Internal(lens, p)
    && (|p| > FAST_BITS ==> p[..|p| - 1] in nodes)
    && nodes[p] < |nodes|
  }

  ghost predicate RootOk(lookup: seq<int>, nodes: Nodes, p: seq<bool>)
    requires |lookup| == FAST_SIZE && p in nodes
  {
    |p| == FAST_BITS && FromBits(p) < FAST_SIZE ==> lookup[FromBits(p)] == Id(nodes[p])
  }

  ghost predicate ShortOk(lens: seq<nat>, s: nat, lookup: seq<int>, i: nat)
    requires s < |lens| && i < |lookup|
  {
    0 < lens[s] <= FAST_BITS && Code(lens, s) <= ToBits(i, FAST_BITS) ==> lookup[i] == Packed(lens, s)
  }

  ghost predicate EntryOk(lens: seq<nat>, done: nat, lookup: seq<int>, nodes: Nodes, i: nat)
    requires i < |lookup|
  {
    && (lookup[i] < 0 ==> ToBits(i, FAST_BITS) in nodes)
    && (lookup[i] > 0 ==>
      exists s :: 0 <= s < done && Begins(lens, s, ToBits(i, FAST_BITS)) && lookup[i] == Packed(lens, s))
  }

  /** A slot holds the node for its prefix, a finished leaf, or nothing. */
  ghost predicate ChildOk(lens: seq<nat>, done: nat, tree: seq<int>, nodes: Nodes, p: seq<bool>, b: bool)
    requires p in nodes
  {
    && Slot(nodes[p], b) < |tree|
    && (p + [b] in nodes ==> tree[Slot(nodes[p], b)] == Id(nodes[p + [b]]))
    && (p + [b] !in nodes ==> LeafOk(lens, done, p + [b], tree[Slot(nodes[p], b)]))
  }

  ghost predicate LeafOk(lens: seq<nat>, done: nat, q: seq<bool>, v: int) {
    v == 0 || (0 < v < done && v < |lens| && Code(lens, v) == q)
  }

  ghost predicate LongOk(lens: seq<nat>, s: nat, tree: seq<int>, nodes: Nodes)
    requires s < |lens| && lens[s] > FAST_BITS
  {
    var c := Code(lens, s);
    && PathIn(c, nodes, |c| - 1)
    && Slot(nodes[c[..|c| - 1]], c[|c| - 1]) < |tree|
    && tree[Slot(nodes[c[..|c| - 1]], c[|c| - 1])] == s
  }

  /** Every prefix of `c` of ten to `d` bits is a node. */
  ghost predicate PathIn(c: seq<bool>, nodes: Nodes, d: nat) {
    && FAST_BITS <= d < |c|
    && c[..d] in nodes
    && forall e {:trigger c[..e]} :: FAST_BITS <= e <= d ==> c[..e] in nodes
  }

  ghost predicate NodesOk(lens: seq<nat>, nodes: Nodes) {
    && (forall p {:trigger NodeOk(lens, nodes, p)} :: p in nodes ==> NodeOk(lens, nodes, p))
    && (forall p, q {:trigger nodes[p], nodes[q]} :: p in nodes && q in nodes && nodes[p] == nodes[q] ==> p == q)
  }

  ghost predicate LookupOk(lens: seq<nat>, done: nat, lookup: seq<int>, nodes: Nodes) {
    && |lookup| == FAST_SIZE
    && done <= |lens|
    && (forall s, i {:trigger ShortOk(lens, s, lookup, i)} ::
          0 <= s < done && 0 <= i < FAST_SIZE ==> ShortOk(lens, s, lookup, i))
    && (forall i {:trigger EntryOk(lens, done, lookup, nodes, i)} ::
          0 <= i < FAST_SIZE ==> EntryOk(lens, done, lookup, nodes, i))
    && (forall p {:trigger RootOk(lookup, nodes, p)} :: p in nodes ==> RootOk(lookup, nodes, p))
  }

  ghost predicate TreeOk(lens: seq<nat>, done: nat, tree: seq<int>, nodes: Nodes) {
    && 2 * |nodes| <= |tree|
    && (forall p, b {:trigger ChildOk(lens, done, tree, nodes, p, b)} ::
          p in nodes ==> ChildOk(lens, done, tree, nodes, p, b))
    && (forall i :: 2 * |nodes| <= i < |tree| ==> tree[i] == 0)
  }

  ghost predicate LeavesOk(lens: seq<nat>, done: nat, tree: seq<int>, nodes: Nodes) {
    && done <= |lens|
    && forall s {:trigger LongOk(lens, s, tree, nodes)} ::
      0 <= s < done && lens[s] > FAST_BITS ==> LongOk(lens, s, tree, nodes)
  }

  /** The tables hold the codes of the first `done` symbols. */
  ghost predicate TablesOk(lens: seq<nat>, done: nat, lookup: seq<int>, tree: seq<int>, nodes: Nodes) {
    && NodesOk(lens, nodes)
    && LookupOk(lens, done, lookup, nodes)
    && TreeOk(lens, done, tree, nodes)
    && LeavesOk(lens, done, tree, nodes)
  }

  // ---- the overflow tree never outgrows its array ----

  /** `c` is the rightmost code below the left child of `p`. */
  ghost predicate LeftmostTail(p: seq<bool>, c: seq<bool>) {
    && |p| < |c| && p <= c && !c[|p|]
    && forall i :: |p| < i < |c| ==> c[i]
  }

  lemma LeftmostTailInjective(p: seq<bool>, q: seq<bool>, c: seq<bool>)
    requires LeftmostTail(p, c) && LeftmostTail(q, c)
    ensures p == q
  {
  }

  function Ones(n: nat): (s: seq<bool>)
    ensures |s| == n && forall i :: 0 <= i < n ==> s[i]
  {
    seq(n, _ => true)
  }

  lemma InternalNotBegun(lens: seq<nat>, p: seq<bool>, s: nat)
    requires Kraft(lens) && Internal(lens, p) && s < |lens| && lens[s] > 0
    ensures !(Code(lens, s) <= p)
  {
    var t :| 0 <= t < |lens| && |p| < lens[t] && p <= Code(lens, t);
    if Code(lens, s) <= p {
      PrefixFree(lens, s, t);
    }
  }

  lemma TailSymbol(lens: seq<nat>, p: seq<bool>) returns (s: nat)
    requires Complete(lens) && Internal(lens, p)
    ensures s < |lens| && LeftmostTail(p, Code(lens, s))
  {
    var w := p + [false] + Ones(15);
    s := CompleteDecodes(lens, w);
    var c := Code(lens, s);
    if |c| <= |p| {
      assert c == w[..|c|] == p[..|c|];
      InternalNotBegun(lens, p, s);
      assert false;
    }
    assert c == w[..|c|];
    assert w[..|p|] == p && c[..|p|] == p;
  }

  lemma {:induction false} InjectionBound(f: map<seq<bool>, nat>, n: nat)
    requires forall p :: p in f ==> f[p] < n
    requires forall p, q :: p in f && q in f && f[p] == f[q] ==> p == q
    ensures |f| <= n
    decreases n
  {
    if n == 0 {
      assert f.Keys == {};
    } else if p :| p in f && f[p] == n - 1 {
      var g := f - {p};
      assert g.Keys == f.Keys - {p};
      assert |g.Keys| == |f.Keys| - 1;
      InjectionBound(g, n - 1);
    } else {
      InjectionBound(f, n - 1);
    }
  }

  ghost function TailMap(lens: seq<nat>, ps: set<seq<bool>>): (f: map<seq<bool>, nat>)
    requires Complete(lens) && forall p :: p in ps ==> Internal(lens, p)
    ensures f.Keys == ps
    ensures forall p :: p in ps ==> f[p] < |lens| && LeftmostTail(p, Code(lens, f[p]))
  {
    map p | p in ps :: (var s := TailSymbolOf(lens, p); s)
  }

  ghost function TailSymbolOf(lens: seq<nat>, p: seq<bool>): (s: nat)
    requires Complete(lens) && Internal(lens, p)
    ensures s < |lens| && LeftmostTail(p, Code(lens, s))
  {
    assert exists s: nat :: s < |lens| && LeftmostTail(p, Code(lens, s)) by {
      var s := TailSymbol(lens, p);
    }
    var s: nat :| s < |lens| && LeftmostTail(p, Code(lens, s));
    s
  }

  /** A complete code has fewer branching prefixes than symbols. */
  lemma CompleteNodeBound(lens: seq<nat>, ps: set<seq<bool>>)
    requires Complete(lens) && forall p :: p in ps ==> Internal(lens, p)
    ensures |ps| <= |lens|
  {
    var f := TailMap(lens, ps);
    forall p, q | p in f && q in f && f[p] == f[q]
      ensures p == q
    {
      LeftmostTailInjective(p, q, Code(lens, f[p]));
    }
    InjectionBound(f, |lens|);
    assert |f| == |f.Keys|;
  }

  lemma SingleNodeBound(lens: seq<nat>, ps: set<seq<bool>>)
    requires ValidLengths(lens) && Single(lens)
    requires forall p :: p in ps ==> FAST_BITS <= |p| && Internal(lens, p)
    ensures |ps| <= 5
  {
    var f := map p | p in ps :: (|p| - FAST_BITS) as nat;
    forall p | p in ps
      ensures FAST_BITS <= |p| < 15
    {
      assert Internal(lens, p);
    }
    forall p, q | p in f && q in f && f[p] == f[q]
      ensures p == q
    {
      var s :| 0 <= s < |lens| && |p| < lens[s] && p <= Code(lens, s);
      var t :| 0 <= t < |lens| && |q| < lens[t] && q <= Code(lens, t);
      assert s == t;
    }
    InjectionBound(f, 5);
    assert f.Keys == ps;
    assert |f| == |f.Keys|;
  }

  /** The two kinds of length list the builder accepts. */
  ghost predicate Accepted(lens: seq<nat>) {
    Kraft(lens) && (Complete(lens) || Single(lens))
  }

  lemma NodeBound(lens: seq<nat>, ps: set<seq<bool>>, cap: nat)
    requires Accepted(lens) && |lens| <= cap && 5 <= cap
    requires forall p :: p in ps ==> FAST_BITS <= |p| && Internal(lens, p)
    ensures |ps| <= cap
  {
    if Complete(lens) {
      CompleteNodeBound(lens, ps);
    } else {
      SingleNodeBound(lens, ps);
    }
  }

  // ---- one construction step at a time ----

  lemma EmptyTables(lens: seq<nat>, lookup: seq<int>, tree: seq<int>)
    requires |lookup| == FAST_SIZE
    requires forall i :: 0 <= i < |lookup| ==> lookup[i] == 0
    requires forall i :: 0 <= i < |tree| ==> tree[i] == 0
    ensures TablesOk(lens, 0, lookup, tree, map[])
  {
  }

  lemma EntryGrows(lens: seq<nat>, s: nat, lookup: seq<int>, nodes: Nodes, nodes': Nodes, i: nat)
    requires i < |lookup| && EntryOk(lens, s, lookup, nodes, i) && nodes.Keys <= nodes'.Keys
    ensures EntryOk(lens, s, lookup, nodes', i) && EntryOk(lens, s + 1, lookup, nodes', i)
  {
  }

  lemma LookupGrows(lens: seq<nat>, s: nat, lookup: seq<int>, nodes: Nodes)
    requires LookupOk(lens, s, lookup, nodes) && s < |lens| && (lens[s] == 0 || lens[s] > FAST_BITS)
    ensures LookupOk(lens, s + 1, lookup, nodes)
  {
    var done := s + 1;
    forall i | 0 <= i < FAST_SIZE
      ensures EntryOk(lens, done, lookup, nodes, i)
    {
      EntryGrows(lens, s, lookup, nodes, nodes, i);
    }
  }

  lemma TreeGrows(lens: seq<nat>, s: nat, tree: seq<int>, nodes: Nodes)
    requires TreeOk(lens, s, tree, nodes)
    ensures TreeOk(lens, s + 1, tree, nodes)
  {
    var done := s + 1;
    forall p, b | p in nodes
      ensures ChildOk(lens, done, tree, nodes, p, b)
    {
      assert ChildOk(lens, s, tree, nodes, p, b);
    }
  }

  /** An unused symbol adds nothing. */
  lemma AddUnused(lens: seq<nat>, s: nat, lookup: seq<int>, tree: seq<int>, nodes: Nodes)
    requires TablesOk(lens, s, lookup, tree, nodes) && s < |lens| && lens[s] == 0
    ensures TablesOk(lens, s + 1, lookup, tree, nodes)
  {
    LookupGrows(lens, s, lookup, nodes);
    TreeGrows(lens, s, tree, nodes);
  }

  /** Lookup entry `i` belongs to the code `c`. */
  ghost predicate Hit(c: seq<bool>, i: nat) {
    c <= ToBits(i, FAST_BITS)
  }

  /** A short code takes every lookup entry it begins. */
  lemma AddShort(lens: seq<nat>, s: nat, lookup: seq<int>, lookup': seq<int>, tree: seq<int>, nodes: Nodes)
    requires Kraft(lens) && TablesOk(lens, s, lookup, tree, nodes)
    requires s < |lens| && 0 < lens[s] <= FAST_BITS
    requires |lookup'| == FAST_SIZE
    requires forall i :: 0 <= i < FAST_SIZE ==>
      lookup'[i] == if Hit(Code(lens, s), i) then Packed(lens, s) else lookup[i]
    ensures TablesOk(lens, s + 1, lookup', tree, nodes)
  {
    forall t, i | 0 <= t < s + 1 && 0 <= i < FAST_SIZE
      ensures ShortOk(lens, t, lookup', i)
    {
      if t < s {
        assert ShortOk(lens, t, lookup, i);
        if 0 < lens[t] && Code(lens, t) <= ToBits(i, FAST_BITS) && Code(lens, s) <= ToBits(i, FAST_BITS) {
          BeginsUnique(lens, s, t, ToBits(i, FAST_BITS));
        }
      }
    }
    var done := s + 1;
    forall i | 0 <= i < FAST_SIZE
      ensures EntryOk(lens, done, lookup', nodes, i)
    {
      assert EntryOk(lens, s, lookup, nodes, i);
      assert Code(lens, s) <= ToBits(i, FAST_BITS) ==> Begins(lens, s, ToBits(i, FAST_BITS));
    }
    forall p | p in nodes
      ensures RootOk(lookup', nodes, p)
    {
      assert RootOk(lookup, nodes, p);
      assert NodeOk(lens, nodes, p);
      ToFromBits(p);
      InternalNotBegun(lens, p, s);
    }
    TreeGrows(lens, s, tree, nodes);
  }

  /** The symbol's path is allocated down to depth `d`, and `cur` is the node there. */
  ghost predicate PathOk(lens: seq<nat>, s: nat, d: nat, cur: int, nodes: Nodes) {
    && s < |lens|
    && PathIn(Code(lens, s), nodes, d)
    && cur == Id(nodes[Code(lens, s)[..d]])
  }

  /** The ghost record after one more allocation. */
  ghost function Grown(nodes: Nodes, p: seq<bool>): Nodes { nodes[p := |nodes|] }

  lemma GrownSize(nodes: Nodes, p: seq<bool>)
    requires p !in nodes
    ensures |Grown(nodes, p)| == |nodes| + 1
  {
    assert Grown(nodes, p).Keys == nodes.Keys + {p};
  }

  lemma GrownOk(lens: seq<nat>, nodes: Nodes, p: seq<bool>)
    requires NodesOk(lens, nodes) && p !in nodes && FAST_BITS <= |p| && Internal(lens, p)
    requires |p| > FAST_BITS ==> p[..|p| - 1] in nodes
    ensures NodesOk(lens, Grown(nodes, p)) && |Grown(nodes, p)| == |nodes| + 1
  {
    GrownSize(nodes, p);
    var nodes' := Grown(nodes, p);
    forall q | q in nodes'
      ensures NodeOk(lens, nodes', q)
      ensures q != p ==> nodes'[q] < |nodes|
    {
      if q != p { assert NodeOk(lens, nodes, q); }
    }
  }

  lemma GrownFits(lens: seq<nat>, nodes: Nodes, cap: nat)
    requires Accepted(lens) && |lens| <= cap && 5 <= cap && NodesOk(lens, nodes)
    ensures |nodes| <= cap
  {
    forall p | p in nodes.Keys
      ensures FAST_BITS <= |p| && Internal(lens, p)
    {
      assert NodeOk(lens, nodes, p);
    }
    NodeBound(lens, nodes.Keys, cap);
    assert |nodes| == |nodes.Keys|;
  }

  /** Allocating a root at an empty lookup entry. */
  lemma RootLookupOk(lens: seq<nat>, s: nat, lookup: seq<int>, nodes: Nodes, p: seq<bool>)
    requires Kraft(lens) && LookupOk(lens, s, lookup, nodes)
    requires |p| == FAST_BITS && p !in nodes && Internal(lens, p) && FromBits(p) < FAST_SIZE
    ensures LookupOk(lens, s, lookup[FromBits(p) := Id(|nodes|)], Grown(nodes, p))
  {
    var nodes', lookup' := Grown(nodes, p), lookup[FromBits(p) := Id(|nodes|)];
    ToFromBits(p);
    forall t, i | 0 <= t < s && 0 <= i < FAST_SIZE
      ensures ShortOk(lens, t, lookup', i)
    {
      assert ShortOk(lens, t, lookup, i);
      if i == FromBits(p) && lens[t] > 0 { InternalNotBegun(lens, p, t); }
    }
    forall i | 0 <= i < FAST_SIZE
      ensures EntryOk(lens, s, lookup', nodes', i)
    {
      assert EntryOk(lens, s, lookup, nodes, i);
    }
    forall q | q in nodes'
      ensures RootOk(lookup', nodes', q)
    {
      if q != p {
        assert RootOk(lookup, nodes, q);
        if |q| == FAST_BITS && FromBits(q) == FromBits(p) { FromBitsInjective(p, q); }
      }
    }
  }

  lemma RootTreeOk(lens: seq<nat>, s: nat, tree: seq<int>, nodes: Nodes, p: seq<bool>)
    requires NodesOk(lens, nodes) && TreeOk(lens, s, tree, nodes)
    requires p !in nodes && |p| == FAST_BITS && 2 * |nodes| + 2 <= |tree|
    ensures TreeOk(lens, s, tree, Grown(nodes, p))
  {
    var nodes' := Grown(nodes, p);
    GrownSize(nodes, p);
    forall q, b | q in nodes'
      ensures ChildOk(lens, s, tree, nodes', q, b)
    {
      if q == p {
        NoOrphan(lens, nodes, p, b);
      } else {
        assert NodeOk(lens, nodes, q);
        assert ChildOk(lens, s, tree, nodes, q, b);
        assert q + [b] != p;
      }
    }
  }

  /** A prefix that is not a node has no node below it. */
  lemma NoOrphan(lens: seq<nat>, nodes: Nodes, p: seq<bool>, b: bool)
    requires NodesOk(lens, nodes) && p !in nodes && FAST_BITS <= |p|
    ensures p + [b] !in nodes && p + [b] !in Grown(nodes, p)
  {
    var q := p + [b];
    assert |q| == |p| + 1 && q[..|q| - 1] == p;
    assert q in nodes ==> NodeOk(lens, nodes, q);
  }

  lemma LongKeptByGrowth(lens: seq<nat>, t: nat, tree: seq<int>, nodes: Nodes, p: seq<bool>)
    requires t < |lens| && lens[t] > FAST_BITS && LongOk(lens, t, tree, nodes) && p !in nodes
    ensures LongOk(lens, t, tree, Grown(nodes, p))
  {
    var c := Code(lens, t);
    assert PathIn(c, Grown(nodes, p), |c| - 1);
  }

  lemma AddRoot(lens: seq<nat>, s: nat, lookup: seq<int>, tree: seq<int>, nodes: Nodes, cap: nat)
    requires Accepted(lens) && |lens| <= cap && 5 <= cap && |tree| == 2 * cap
    requires TablesOk(lens, s, lookup, tree, nodes)
    requires s < |lens| && lens[s] > FAST_BITS
    requires FromBits(Code(lens, s)[..FAST_BITS]) < FAST_SIZE
    requires lookup[FromBits(Code(lens, s)[..FAST_BITS])] == 0
    ensures var p := Code(lens, s)[..FAST_BITS];
            && TablesOk(lens, s, lookup[FromBits(p) := Id(|nodes|)], tree, Grown(nodes, p))
            && |Grown(nodes, p)| == |nodes| + 1
            && PathOk(lens, s, FAST_BITS, Id(|nodes|), Grown(nodes, p))
  {
    var p := Code(lens, s)[..FAST_BITS];
    assert p in nodes ==> RootOk(lookup, nodes, p);
    GrownOk(lens, nodes, p);
    GrownFits(lens, Grown(nodes, p), cap);
    RootLookupOk(lens, s, lookup, nodes, p);
    RootTreeOk(lens, s, tree, nodes, p);
    forall t | 0 <= t < s && lens[t] > FAST_BITS
      ensures LongOk(lens, t, tree, Grown(nodes, p))
    {
      LongKeptByGrowth(lens, t, tree, nodes, p);
    }
  }

  /** Writing a new node into an empty slot. */
  lemma NodeTreeOk(lens: seq<nat>, s: nat, tree: seq<int>, nodes: Nodes, p: seq<bool>, b: bool)
    requires NodesOk(lens, nodes) && TreeOk(lens, s, tree, nodes)
    requires p in nodes && p + [b] !in nodes && 2 * |nodes| + 2 <= |tree|
    ensures Slot(nodes[p], b) < 2 * |nodes|
    ensures TreeOk(lens, s, tree[Slot(nodes[p], b) := Id(|nodes|)], Grown(nodes, p + [b]))
  {
    var q := p + [b];
    var nodes' := Grown(nodes, q);
    GrownSize(nodes, q);
    assert NodeOk(lens, nodes, p);
    var tree' := tree[Slot(nodes[p], b) := Id(|nodes|)];
    forall r, a | r in nodes'
      ensures ChildOk(lens, s, tree', nodes', r, a)
    {
      if r == q {
        NoOrphan(lens, nodes, q, a);
      } else {
        assert NodeOk(lens, nodes, r);
        assert ChildOk(lens, s, tree, nodes, r, a);
        ChildDistinct(nodes, p, b, r, a);
      }
    }
  }

  /** Different children live in different slots. */
  lemma ChildDistinct(nodes: Nodes, p: seq<bool>, b: bool, r: seq<bool>, a: bool)
    requires p in nodes && r in nodes
    requires nodes[p] == nodes[r] ==> p == r
    ensures Slot(nodes[r], a) == Slot(nodes[p], b) <==> p + [b] == r + [a]
  {
    if p + [b] == r + [a] {
      assert (p + [b])[..|p|] == p && (r + [a])[..|r|] == r;
      assert (p + [b])[|p|] == b && (r + [a])[|r|] == a;
    }
  }

  /** Finished leaves survive writing a slot that belongs to another code. */
  lemma LongKept(lens: seq<nat>, t: nat, s: nat, tree: seq<int>, v: int, nodes: Nodes, p: seq<bool>, b: bool)
    requires Kraft(lens) && NodesOk(lens, nodes)
    requires t < |lens| && lens[t] > FAST_BITS && LongOk(lens, t, tree, nodes)
    requires p in nodes && Slot(nodes[p], b) < |tree|
    requires t != s && s < |lens| && lens[s] > 0 && p + [b] <= Code(lens, s)
    ensures LongOk(lens, t, tree[Slot(nodes[p], b) := v], nodes)
  {
    var c := Code(lens, t);
    var h, e := c[..|c| - 1], c[|c| - 1];
    assert c == h + [e];
    ChildDistinct(nodes, p, b, h, e);
    if c == p + [b] { PrefixFree(lens, t, s); }
  }

  lemma AddNode(lens: seq<nat>, s: nat, d: nat, cur: int, lookup: seq<int>, tree: seq<int>, nodes: Nodes, cap: nat)
    requires Accepted(lens) && |lens| <= cap && 5 <= cap && |tree| == 2 * cap
    requires TablesOk(lens, s, lookup, tree, nodes)
    requires PathOk(lens, s, d, cur, nodes) && d + 1 < lens[s]
    requires var k := nodes[Code(lens, s)[..d]];
             Slot(k, Code(lens, s)[d]) < |tree| && tree[Slot(k, Code(lens, s)[d])] == 0
    ensures var k := nodes[Code(lens, s)[..d]];
            var q := Code(lens, s)[..d + 1];
            && TablesOk(lens, s, lookup, tree[Slot(k, Code(lens, s)[d]) := Id(|nodes|)], Grown(nodes, q))
            && |Grown(nodes, q)| == |nodes| + 1
            && PathOk(lens, s, d + 1, Id(|nodes|), Grown(nodes, q))
  {
    var c := Code(lens, s);
    var p, q, b := c[..d], c[..d + 1], c[d];
    assert q == p + [b] && q[..|q| - 1] == p;
    assert ChildOk(lens, s, tree, nodes, p, b);
    GrownOk(lens, nodes, q);
    GrownFits(lens, Grown(nodes, q), cap);
    NodeTreeOk(lens, s, tree, nodes, p, b);
    var tree' := tree[Slot(nodes[p], b) := Id(|nodes|)];
    forall t | 0 <= t < s && lens[t] > FAST_BITS
      ensures LongOk(lens, t, tree', Grown(nodes, q))
    {
      LongKept(lens, t, s, tree, Id(|nodes|), nodes, p, b);
      LongKeptByGrowth(lens, t, tree', nodes, q);
    }
    NodeLookupOk(lens, s, lookup, nodes, q);
  }

  lemma NodeLookupOk(lens: seq<nat>, s: nat, lookup: seq<int>, nodes: Nodes, q: seq<bool>)
    requires LookupOk(lens, s, lookup, nodes) && q !in nodes && |q| > FAST_BITS
    ensures LookupOk(lens, s, lookup, Grown(nodes, q))
  {
    var nodes' := Grown(nodes, q);
    forall i | 0 <= i < FAST_SIZE
      ensures EntryOk(lens, s, lookup, nodes', i)
    {
      EntryGrows(lens, s, lookup, nodes, nodes', i);
    }
    forall r | r in nodes'
      ensures RootOk(lookup, nodes', r)
    {
      if r != q { assert RootOk(lookup, nodes, r); }
    }
  }

  lemma LeafTreeOk(lens: seq<nat>, s: nat, tree: seq<int>, nodes: Nodes, p: seq<bool>, b: bool)
    requires NodesOk(lens, nodes) && TreeOk(lens, s, tree, nodes)
    requires s < |lens| && p in nodes && p + [b] !in nodes && Code(lens, s) == p + [b]
    ensures Slot(nodes[p], b) < 2 * |nodes|
    ensures TreeOk(lens, s + 1, tree[Slot(nodes[p], b) := s], nodes)
  {
    assert NodeOk(lens, nodes, p);
    assert ChildOk(lens, s, tree, nodes, p, b);
    var tree' := tree[Slot(nodes[p], b) := s];
    var done := s + 1;
    forall r, a | r in nodes
      ensures ChildOk(lens, done, tree', nodes, r, a)
    {
      assert ChildOk(lens, s, tree, nodes, r, a);
      ChildDistinct(nodes, p, b, r, a);
    }
  }

  lemma AddLeaf(lens: seq<nat>, s: nat, cur: int, lookup: seq<int>, tree: seq<int>, nodes: Nodes)
    requires Kraft(lens) && TablesOk(lens, s, lookup, tree, nodes)
    requires s < |lens| && lens[s] > FAST_BITS && PathOk(lens, s, lens[s] - 1, cur, nodes)
    ensures var c := Code(lens, s);
            var k := nodes[c[..|c| - 1]];
            && Slot(k, c[|c| - 1]) < |tree|
            && TablesOk(lens, s + 1, lookup, tree[Slot(k, c[|c| - 1]) := s], nodes)
  {
    var c := Code(lens, s);
    var p, b := c[..|c| - 1], c[|c| - 1];
    assert c == p + [b];
    if c in nodes {
      assert NodeOk(lens, nodes, c);
      InternalNotBegun(lens, c, s);
    }
    LookupGrows(lens, s, lookup, nodes);
    LeafTreeOk(lens, s, tree, nodes, p, b);
    var tree' := tree[Slot(nodes[p], b) := s];
    forall t | 0 <= t < s && lens[t] > FAST_BITS
      ensures LongOk(lens, t, tree', nodes)
    {
      LongKept(lens, t, s, tree, s, nodes, p, b);
    }
    assert LongOk(lens, s, tree', nodes);
  }

  // ---- building the tables in place ----

  lemma PrefixIsRemainder(c: seq<bool>, w: seq<bool>, i: nat)
    requires |c| <= |w| && i == FromBits(w)
    ensures c <= w <==> i % Pow2(|c|) == FromBits(c)
  {
    var h := w[..|c|];
    assert i % Pow2(|c|) == FromBits(h) by { FromBitsSplit(w, |c|); }
    if FromBits(h) == FromBits(c) { FromBitsInjective(h, c); }
    assert c <= w ==> c == h;
  }

  lemma IndexBits(i: nat)
    requires i < FAST_SIZE
    ensures FromBits(ToBits(i, FAST_BITS)) == i
  {
    assert i < Pow2(FAST_BITS) by { Pow2Values(); }
    FromToBits(i, FAST_BITS);
  }

  lemma HitIsCongruent(c: seq<bool>, i: nat)
    requires |c| <= FAST_BITS && i < FAST_SIZE
    ensures Hit(c, i) <==> i % Pow2(|c|) == FromBits(c)
  {
    IndexBits(i);
    PrefixIsRemainder(c, ToBits(i, FAST_BITS), i);
  }

  lemma FirstHit(c: seq<bool>)
    requires |c| <= FAST_BITS
    ensures FromBits(c) < Pow2(|c|) <= FAST_SIZE
    ensures Hit(c, FromBits(c))
    ensures forall i :: 0 <= i < FromBits(c) ==> !Hit(c, i)
  {
    var r, p := FromBits(c), Pow2(|c|);
    FromBitsBound(c);
    Pow2Mono(|c|, FAST_BITS);
    Pow2Values();
    forall i | 0 <= i <= r
      ensures Hit(c, i) <==> i == r
    {
      HitIsCongruent(c, i);
      DivUnique(i, p, 0, i);
    }
  }

  lemma NextHit(c: seq<bool>, at: nat)
    requires |c| <= FAST_BITS && at < FAST_SIZE && Hit(c, at)
    ensures Pow2(|c|) > 0
    ensures at + Pow2(|c|) < FAST_SIZE ==> Hit(c, at + Pow2(|c|))
    ensures forall i :: at < i < at + Pow2(|c|) && i < FAST_SIZE ==> !Hit(c, i)
  {
    var next := at + Pow2(|c|);
    if next < FAST_SIZE { SameHit(c, at, next); }
    forall i | at < i < next && i < FAST_SIZE
      ensures !Hit(c, i)
    {
      SameHit(c, at, i);
    }
  }

  lemma SameHit(c: seq<bool>, at: nat, i: nat)
    requires |c| <= FAST_BITS && at < i < FAST_SIZE && Hit(c, at) && i <= at + Pow2(|c|)
    ensures Hit(c, i) <==> i == at + Pow2(|c|)
  {
    NextCongruent(at, Pow2(|c|));
    HitIsCongruent(c, at);
    HitIsCongruent(c, i);
  }

  lemma NextCongruent(at: nat, step: nat)
    requires step > 0
    ensures (at + step) % step == at % step
    ensures forall i :: at < i < at + step ==> i % step != at % step
  {
    var q, r := at / step, at % step;
    DivUnique(at + step, step, q + 1, r);
    forall i | at < i < at + step
      ensures i % step != r
    {
      if i % step == r {
        NoMultipleBetween(i - at, i / step - q, step);
      }
    }
  }

  lemma NoMultipleBetween(d: int, k: int, step: int)
    requires d == step * k && step > 0
    ensures d <= 0 || d >= step
  {
    if k <= 0 {
      MulMono(k, 0, step);
    } else {
      MulMono(1, k, step);
    }
  }

  method CountLengths(lens: seq<nat>) returns (totalSyms: array<nat>)
    requires ValidLengths(lens)
    ensures fresh(totalSyms) && totalSyms.Length == 16
    ensures forall l {:trigger totalSyms[l]} :: 0 <= l < 16 ==> totalSyms[l] == Count(lens, l)
  {
    totalSyms := new nat[16](_ => 0);
    for i := 0 to |lens|
      invariant forall l {:trigger totalSyms[l]} :: 0 <= l < 16 ==> totalSyms[l] == Count(lens[..i], l)
    {
      assert lens[..i + 1][..i] == lens[..i];
      totalSyms[lens[i]] := totalSyms[lens[i]] + 1;
    }
    assert lens[..|lens|] == lens;
  }

  /** The first code of every length, and whether the lengths make a usable code. */
  method FirstCodes(lens: seq<nat>) returns (ok: bool, nextCode: array<nat>)
    requires ValidLengths(lens)
    ensures fresh(nextCode) && nextCode.Length == 17
    ensures forall l {:trigger nextCode[l]} :: 0 <= l < 17 ==> nextCode[l] == NextCode(lens, l)
    ensures ok <==> Complete(lens) || Single(lens)
  {
    var totalSyms := CountLengths(lens);
    nextCode := new nat[17](_ => 0);
    var used, total := 0, 0;
    var i := 1;
    while i <= 15
      invariant 1 <= i <= 16
      invariant total == NextCode(lens, i) && used == Used(lens, i - 1)
      invariant forall l {:trigger nextCode[l]} :: 0 <= l <= i ==> nextCode[l] == NextCode(lens, l)
      invariant forall l {:trigger totalSyms[l]} :: 0 <= l < 16 ==> totalSyms[l] == Count(lens, l)
    {
      used := used + totalSyms[i];
      total := (total + totalSyms[i]) * 2;
      nextCode[i + 1] := total;
      i := i + 1;
    }
    SingleIsUsed(lens);
    ok := !(65536 != total && used > 1);
  }

  method ReverseCode(lens: seq<nat>, s: nat, code: nat) returns (rev: nat)
    requires Kraft(lens) && s < |lens| && lens[s] > 0 && code == CodeValue(lens, s)
    ensures rev == FromBits(Code(lens, s)) < Pow2(lens[s])
  {
    ghost var c := Code(lens, s);
    CodeValueFits(lens, s);
    rev := 0;
    var cur, l := code, lens[s];
    assert c[..l] == c;
    while l > 0
      invariant l <= lens[s]
      invariant cur == FromMsb(c[..l]) && rev == FromBits(c[l..])
    {
      assert c[..l][..l - 1] == c[..l - 1];
      assert c[l - 1..][1..] == c[l..];
      rev := rev * 2 + cur % 2;
      l, cur := l - 1, cur / 2;
    }
    assert c[0..] == c;
    FromBitsBound(c);
  }

  method FillShort(lens: seq<nat>, s: nat, rev: nat, lookup: array<int>)
    requires lookup.Length == FAST_SIZE && s < |lens| && 0 < lens[s] <= FAST_BITS
    requires rev == FromBits(Code(lens, s)) < Pow2(lens[s])
    modifies lookup
    ensures forall i :: 0 <= i < FAST_SIZE ==>
      lookup[i] == if Hit(Code(lens, s), i) then Packed(lens, s) else old(lookup[i])
  {
    ghost var c := Code(lens, s);
    var at := rev;
    FirstHit(c);
    while at < FAST_SIZE
      invariant at < FAST_SIZE ==> Hit(c, at)
      invariant forall i :: 0 <= i < FAST_SIZE ==>
        lookup[i] == if i < at && Hit(c, i) then Packed(lens, s) else old(lookup[i])
      decreases FAST_SIZE - at
    {
      lookup[at] := Packed(lens, s);
      NextHit(c, at);
      at := at + Pow2(lens[s]);
    }
  }

  lemma RootFound(lens: seq<nat>, s: nat, lookup: seq<int>, nodes: Nodes)
    requires Kraft(lens) && LookupOk(lens, s, lookup, nodes)
    requires s < |lens| && lens[s] > FAST_BITS && FromBits(Code(lens, s)[..FAST_BITS]) < FAST_SIZE
    requires lookup[FromBits(Code(lens, s)[..FAST_BITS])] != 0
    ensures PathOk(lens, s, FAST_BITS, lookup[FromBits(Code(lens, s)[..FAST_BITS])], nodes)
  {
    var p := Code(lens, s)[..FAST_BITS];
    var i := FromBits(p);
    ToFromBits(p);
    assert EntryOk(lens, s, lookup, nodes, i);
    if lookup[i] > 0 {
      var t :| 0 <= t < s && Begins(lens, t, p);
      PrefixFree(lens, t, s);
    }
    assert p in nodes ==> RootOk(lookup, nodes, p);
  }

  lemma ChildFound(lens: seq<nat>, s: nat, d: nat, cur: int, tree: seq<int>, nodes: Nodes)
    requires Kraft(lens) && TreeOk(lens, s, tree, nodes)
    requires PathOk(lens, s, d, cur, nodes) && d + 1 < lens[s]
    ensures Slot(nodes[Code(lens, s)[..d]], Code(lens, s)[d]) < |tree|
    ensures var v := tree[Slot(nodes[Code(lens, s)[..d]], Code(lens, s)[d])];
            v != 0 ==> PathOk(lens, s, d + 1, v, nodes)
  {
    var c := Code(lens, s);
    var p, q := c[..d], c[..d + 1];
    assert q == p + [c[d]];
    assert ChildOk(lens, s, tree, nodes, p, c[d]);
    var v := tree[Slot(nodes[p], c[d])];
    if q !in nodes && v != 0 {
      PrefixFree(lens, v, s);
    }
  }

  /** What remains of the reversed code once the bits above depth `d` have been shifted out. */
  lemma NextPathBit(c: seq<bool>, d: nat, rev: nat)
    requires 0 < d < |c| && rev == FromBits(c[d - 1..])
    ensures rev / 2 == FromBits(c[d..]) && rev / 2 % 2 == BitVal(c[d])
  {
    assert c[d - 1..][1..] == c[d..];
    FromBitsHead(c[d - 1..]);
    FromBitsHead(c[d..]);
  }

  /** Shortens the notation of the loop in `InsertLong`. */
  ghost predicate Threading(lens: seq<nat>, s: nat, d: nat, cur: int, next: int, rev: nat,
                            lookup: seq<int>, tree: seq<int>, nodes: Nodes)
  {
    && TablesOk(lens, s, lookup, tree, nodes)
    && next == Id(|nodes|)
    && PathOk(lens, s, d, cur, nodes)
    && d > 0 && rev == FromBits(Code(lens, s)[d - 1..])
  }

  /** Threads the path of a long code through the tree, allocating the nodes it lacks. */
  method InsertLong(lens: seq<nat>, s: nat, rev0: nat, lookup: array<int>, tree: array<int>, treeNext0: int, cap: nat,
                    ghost nodes0: Nodes)
    returns (treeNext: int, ghost nodes: Nodes)
    requires Accepted(lens) && |lens| <= cap && 5 <= cap && tree.Length == 2 * cap && lookup != tree
    requires TablesOk(lens, s, lookup[..], tree[..], nodes0) && treeNext0 == Id(|nodes0|)
    requires s < |lens| && lens[s] > FAST_BITS && rev0 == FromBits(Code(lens, s))
    modifies lookup, tree
    ensures TablesOk(lens, s + 1, lookup[..], tree[..], nodes) && treeNext == Id(|nodes|)
  {
    ghost var c := Code(lens, s);
    var treeCur;
    treeCur, treeNext, nodes := InsertRoot(lens, s, rev0, lookup, tree, treeNext0, cap, nodes0);
    assert rev0 / 512 == FromBits(c[9..]) by {
      FromBitsSplit(c, 9);
      Pow2Values();
    }
    var rev: nat := rev0 / 512;
    var j := lens[s];
    ghost var d := FAST_BITS;
    while j > FAST_BITS + 1
      invariant FAST_BITS + 1 <= j <= lens[s] && d == FAST_BITS + (lens[s] - j)
      invariant Threading(lens, s, d, treeCur, treeNext, rev, lookup[..], tree[..], nodes)
    {
      treeCur, treeNext, rev, nodes := InsertStep(lens, s, d, treeCur, treeNext, rev, lookup, tree, cap, nodes);
      j := j - 1;
      d := d + 1;
    }
    NextPathBit(c, d, rev);
    AddLeaf(lens, s, treeCur, lookup[..], tree[..], nodes);
    rev := rev / 2;
    treeCur := treeCur - rev % 2;
    ghost var tree0 := tree[..];
    tree[-treeCur - 1] := s;
    assert tree[..] == tree0[Slot(nodes[c[..d]], c[d]) := s];
  }

  method InsertRoot(lens: seq<nat>, s: nat, rev: nat, lookup: array<int>, tree: array<int>, treeNext0: int, cap: nat,
                    ghost nodes0: Nodes)
    returns (treeCur: int, treeNext: int, ghost nodes: Nodes)
    requires Accepted(lens) && |lens| <= cap && 5 <= cap && tree.Length == 2 * cap && lookup != tree
    requires TablesOk(lens, s, lookup[..], tree[..], nodes0) && treeNext0 == Id(|nodes0|)
    requires s < |lens| && lens[s] > FAST_BITS && rev == FromBits(Code(lens, s))
    modifies lookup
    ensures TablesOk(lens, s, lookup[..], tree[..], nodes) && treeNext == Id(|nodes|)
    ensures PathOk(lens, s, FAST_BITS, treeCur, nodes)
  {
    nodes, treeNext := nodes0, treeNext0;
    ghost var p := Code(lens, s)[..FAST_BITS];
    assert rev % FAST_SIZE == FromBits(p) by {
      FromBitsSplit(Code(lens, s), FAST_BITS);
      Pow2Values();
    }
    var i := rev % FAST_SIZE;
    treeCur := lookup[i];
    if treeCur == 0 {
      AddRoot(lens, s, lookup[..], tree[..], nodes, cap);
      ghost var lookup0 := lookup[..];
      lookup[i] := treeNext;
      assert lookup[..] == lookup0[i := treeNext];
      treeCur := treeNext;
      treeNext := treeNext - 2;
      nodes := Grown(nodes, p);
    } else {
      RootFound(lens, s, lookup[..], nodes);
    }
  }

  method InsertStep(lens: seq<nat>, s: nat, ghost d: nat, treeCur0: int, treeNext0: int, rev0: nat,
                    lookup: array<int>, tree: array<int>, cap: nat, ghost nodes0: Nodes)
    returns (treeCur: int, treeNext: int, rev: nat, ghost nodes: Nodes)
    requires Accepted(lens) && |lens| <= cap && 5 <= cap && tree.Length == 2 * cap && lookup != tree
    requires Threading(lens, s, d, treeCur0, treeNext0, rev0, lookup[..], tree[..], nodes0)
    requires d + 1 < lens[s]
    modifies tree
    ensures Threading(lens, s, d + 1, treeCur, treeNext, rev, lookup[..], tree[..], nodes)
  {
    ghost var c := Code(lens, s);
    nodes, treeNext := nodes0, treeNext0;
    NextPathBit(c, d, rev0);
    ChildFound(lens, s, d, treeCur0, tree[..], nodes);
    rev := rev0 / 2;
    treeCur := treeCur0 - rev % 2;
    if tree[-treeCur - 1] == 0 {
      AddNode(lens, s, d, treeCur0, lookup[..], tree[..], nodes, cap);
      ghost var tree0 := tree[..];
      tree[-treeCur - 1] := treeNext;
      assert tree[..] == tree0[Slot(nodes[c[..d]], c[d]) := treeNext];
      nodes := Grown(nodes, c[..d + 1]);
      treeCur := treeNext;
      treeNext := treeNext - 2;
    } else {
      treeCur := tree[-treeCur - 1];
    }
  }

  /** The next code to hand out, for each length, once `s` symbols have theirs. */
  ghost predicate HandedOut(lens: seq<nat>, s: nat, nextCode: seq<nat>) {
    && s <= |lens|
    && |nextCode| == 17
    && forall l {:trigger nextCode[l]} :: 1 <= l < 16 ==> nextCode[l] == NextCode(lens, l) + Count(lens[..s], l)
  }

  lemma CodesStep(lens: seq<nat>, s: nat, nextCode: seq<nat>)
    requires s < |lens| && ValidLengths(lens) && HandedOut(lens, s, nextCode)
    ensures HandedOut(lens, s + 1, nextCode[lens[s] := nextCode[lens[s]] + 1])
    ensures lens[s] > 0 ==> nextCode[lens[s]] == CodeValue(lens, s)
    ensures lens[s] == 0 ==> HandedOut(lens, s + 1, nextCode)
  {
    assert lens[..s + 1][..s] == lens[..s];
  }

  method AddSymbol(lens: seq<nat>, s: nat, nextCode: array<nat>, lookup: array<int>, tree: array<int>,
                   treeNext0: int, cap: nat, ghost nodes0: Nodes)
    returns (treeNext: int, ghost nodes: Nodes)
    requires Accepted(lens) && |lens| <= cap && 5 <= cap && tree.Length == 2 * cap && lookup != tree
    requires s < |lens| && lens[s] > 0 && HandedOut(lens, s, nextCode[..])
    requires TablesOk(lens, s, lookup[..], tree[..], nodes0) && treeNext0 == Id(|nodes0|)
    modifies nextCode, lookup, tree
    ensures HandedOut(lens, s + 1, nextCode[..])
    ensures TablesOk(lens, s + 1, lookup[..], tree[..], nodes) && treeNext == Id(|nodes|)
  {
    treeNext, nodes := treeNext0, nodes0;
    ghost var codes0 := nextCode[..];
    CodesStep(lens, s, codes0);
    var rev := ReverseCode(lens, s, nextCode[lens[s]]);
    nextCode[lens[s]] := nextCode[lens[s]] + 1;
    assert nextCode[..] == codes0[lens[s] := codes0[lens[s]] + 1];
    if lens[s] <= FAST_BITS {
      ghost var lookup0 := lookup[..];
      FillShort(lens, s, rev, lookup);
      AddShort(lens, s, lookup0, lookup[..], tree[..], nodes);
    } else {
      treeNext, nodes := InsertLong(lens, s, rev, lookup, tree, treeNext, cap, nodes);
    }
  }

  /** Builds both tables, or reports that the lengths do not form a code. */
  method Build(lens: seq<nat>, cap: nat)
    returns (ok: bool, lookup: seq<int>, tree: seq<int>, ghost nodes: Nodes)
    requires ValidLengths(lens) && |lens| <= cap && 5 <= cap
    ensures ok <==> Complete(lens) || Single(lens)
    ensures ok ==> Accepted(lens) && TablesOk(lens, |lens|, lookup, tree, nodes) && |tree| == 2 * cap
  {
    nodes := map[];
    var pLookUp, pTree := new int[FAST_SIZE](_ => 0), new int[2 * cap](_ => 0);
    var nextCode;
    ok, nextCode := FirstCodes(lens);
    if !ok { return false, pLookUp[..], pTree[..], nodes; }
    if Single(lens) { SingleIsKraft(lens); }
    EmptyTables(lens, pLookUp[..], pTree[..]);
    var treeNext := -1;
    for s := 0 to |lens|
      invariant pLookUp != pTree
      invariant fresh(pLookUp) && fresh(pTree) && fresh(nextCode)
      invariant HandedOut(lens, s, nextCode[..])
      invariant TablesOk(lens, s, pLookUp[..], pTree[..], nodes) && treeNext == Id(|nodes|)
    {
      if lens[s] == 0 {
        AddUnused(lens, s, pLookUp[..], pTree[..], nodes);
        CodesStep(lens, s, nextCode[..]);
      } else {
        treeNext, nodes := AddSymbol(lens, s, nextCode, pLookUp, pTree, treeNext, cap, nodes);
      }
    }
    lookup, tree := pLookUp[..], pTree[..];
  }

  // ---- decoding with the finished tables ----

  ghost predicate Ready(lens: seq<nat>, lookup: seq<int>, tree: seq<int>, nodes: Nodes) {
    |lens| <= 288 && Accepted(lens) && TablesOk(lens, |lens|, lookup, tree, nodes)
  }

  /** The ten bits a lookup sees: bits missing from the buffer read as zero. */
  ghost function Window(buf: seq<bool>): (z: seq<bool>)
    ensures |z| == FAST_BITS
  {
    (buf + Zeros(FAST_BITS))[..FAST_BITS]
  }

  lemma WindowIndex(buf: seq<bool>)
    ensures FromBits(buf) % FAST_SIZE == FromBits(Window(buf))
    ensures ToBits(FromBits(Window(buf)), FAST_BITS) == Window(buf)
  {
    FromBitsPadded(buf, FAST_BITS);
    FromBitsSplit(buf + Zeros(FAST_BITS), FAST_BITS);
    ToFromBits(Window(buf));
    Pow2Values();
  }

  lemma PrefixOfWindow(c: seq<bool>, buf: seq<bool>)
    requires |c| <= FAST_BITS && |c| <= |buf|
    ensures c <= Window(buf) <==> c <= buf
  {
    var z := Window(buf);
    assert z[..|c|] == buf[..|c|];
    if c <= z { assert c == z[..|c|]; }
    if c <= buf { assert c == buf[..|c|]; }
  }

  lemma PackedParts(lens: seq<nat>, s: nat)
    requires s < |lens| <= 512
    ensures Packed(lens, s) / 512 == lens[s] && Packed(lens, s) % 512 == s
  {
  }

  lemma ShortFound(lens: seq<nat>, lookup: seq<int>, tree: seq<int>, nodes: Nodes, s: nat, buf: seq<bool>)
    requires Ready(lens, lookup, tree, nodes) && Begins(lens, s, buf) && lens[s] <= FAST_BITS
    ensures lookup[FromBits(buf) % FAST_SIZE] == Packed(lens, s)
  {
    WindowIndex(buf);
    PrefixOfWindow(Code(lens, s), buf);
    assert ShortOk(lens, s, lookup, FromBits(buf) % FAST_SIZE);
  }

  lemma LongFound(lens: seq<nat>, lookup: seq<int>, tree: seq<int>, nodes: Nodes, s: nat, buf: seq<bool>)
    requires Ready(lens, lookup, tree, nodes) && s < |lens| && lens[s] > FAST_BITS
    requires |buf| >= FAST_BITS && buf[..FAST_BITS] <= Code(lens, s)
    ensures PathOk(lens, s, FAST_BITS, lookup[FromBits(buf) % FAST_SIZE], nodes)
    ensures lookup[FromBits(buf) % FAST_SIZE] < 0
  {
    var c := Code(lens, s);
    var z := Window(buf);
    assert z == buf[..FAST_BITS] == c[..FAST_BITS];
    RootEntry(lens, lookup, tree, nodes, s, z);
    WindowIndex(buf);
  }

  lemma RootEntry(lens: seq<nat>, lookup: seq<int>, tree: seq<int>, nodes: Nodes, s: nat, z: seq<bool>)
    requires Ready(lens, lookup, tree, nodes) && s < |lens| && lens[s] > FAST_BITS
    requires z == Code(lens, s)[..FAST_BITS]
    ensures FromBits(z) < FAST_SIZE && lookup[FromBits(z)] < 0
    ensures PathOk(lens, s, FAST_BITS, lookup[FromBits(z)], nodes)
  {
    FromBitsBound(z);
    Pow2Values();
    assert LongOk(lens, s, tree, nodes);
    assert z in nodes;
    assert RootOk(lookup, nodes, z);
  }

  /** One step down the tree, steered by the code's next bit. */
  lemma WalkStep(lens: seq<nat>, lookup: seq<int>, tree: seq<int>, nodes: Nodes, s: nat, d: nat, cur: int)
    requires Ready(lens, lookup, tree, nodes) && PathOk(lens, s, d, cur, nodes)
    ensures var i := -cur - 1 + BitVal(Code(lens, s)[d]);
            && 0 <= i < |tree|
            && (d + 1 < lens[s] ==> PathOk(lens, s, d + 1, tree[i], nodes) && tree[i] < 0)
            && (d + 1 == lens[s] ==> tree[i] == s)
  {
    var c := Code(lens, s);
    assert LongOk(lens, s, tree, nodes);
    assert ChildOk(lens, |lens|, tree, nodes, c[..d], c[d]);
    if d + 1 < lens[s] {
      assert c[..d + 1] == c[..d] + [c[d]];
      assert c[..d + 1] in nodes;
      assert PathIn(c, nodes, d + 1);
    }
  }

  /** The symbol whose code starts the bit buffer, with the code's exact length.  The value comes
      back as the tables hold it: short codes still carry their length above bit 8. */
  method LookUp(lookup: seq<int>, tree: seq<int>, bitBuf: nat,
                ghost lens: seq<nat>, ghost nodes: Nodes, ghost buf: seq<bool>, ghost s: nat)
    returns (temp: int, codeLen: nat)
    requires Ready(lens, lookup, tree, nodes) && bitBuf == FromBits(buf) && Begins(lens, s, buf)
    ensures codeLen == lens[s]
    ensures temp == if lens[s] <= FAST_BITS then Packed(lens, s) else s
    ensures temp >= 0 && temp % 512 == s
  {
    ghost var c := Code(lens, s);
    temp := lookup[bitBuf % FAST_SIZE];
    if lens[s] <= FAST_BITS {
      ShortFound(lens, lookup, tree, nodes, s, buf);
      PackedParts(lens, s);
    } else {
      assert buf[..FAST_BITS] == c[..FAST_BITS];
      LongFound(lens, lookup, tree, nodes, s, buf);
    }
    if temp >= 0 {
      codeLen := temp / 512;
    } else {
      codeLen := FAST_BITS;
      while temp < 0
        invariant temp < 0 ==> PathOk(lens, s, codeLen, temp, nodes)
        invariant temp >= 0 ==> codeLen == lens[s] && temp == s
        decreases lens[s] - codeLen
      {
        BitAt(buf, codeLen);
        assert buf[codeLen] == c[codeLen];
        WalkStep(lens, lookup, tree, nodes, s, codeLen, temp);
        temp := tree[-temp - 1 + bitBuf / Pow2(codeLen) % 2];
        codeLen := codeLen + 1;
      }
    }
  }

  /** The pending bits do not contradict the code of `s`. */
  ghost predicate Compatible(lens: seq<nat>, s: nat, buf: seq<bool>) {
    s < |lens| && lens[s] > 0 && (Code(lens, s) <= buf || buf <= Code(lens, s))
  }

  /** A short code found through the zero padding is not mistaken for the pending one. */
  lemma NoFalseShort(lens: seq<nat>, lookup: seq<int>, tree: seq<int>, nodes: Nodes, s: nat, buf: seq<bool>)
    requires Ready(lens, lookup, tree, nodes) && Compatible(lens, s, buf)
    requires var v := lookup[FromBits(buf) % FAST_SIZE]; v > 0 && v / 512 <= |buf|
    ensures lens[s] <= |buf|
  {
    var z := Window(buf);
    WindowIndex(buf);
    var t := ShortEntry(lens, lookup, tree, nodes, z, FromBits(z));
    PrefixOfWindow(Code(lens, t), buf);
    CompatibleUnique(lens, t, s, buf);
  }

  lemma ShortEntry(lens: seq<nat>, lookup: seq<int>, tree: seq<int>, nodes: Nodes, z: seq<bool>, i: nat) returns (t: nat)
    requires Ready(lens, lookup, tree, nodes) && i < FAST_SIZE && ToBits(i, FAST_BITS) == z && lookup[i] > 0
    ensures Begins(lens, t, z) && lookup[i] / 512 == lens[t]
  {
    assert EntryOk(lens, |lens|, lookup, nodes, i);
    t :| 0 <= t < |lens| && Begins(lens, t, z) && lookup[i] == Packed(lens, t);
    PackedParts(lens, t);
  }

  lemma CompatibleUnique(lens: seq<nat>, t: nat, s: nat, buf: seq<bool>)
    requires Kraft(lens) && Begins(lens, t, buf) && Compatible(lens, s, buf)
    ensures t == s
  {
    if Code(lens, s) <= buf {
      BeginsUnique(lens, s, t, buf);
    } else {
      assert Code(lens, t) == buf[..lens[t]] == Code(lens, s)[..lens[t]];
      PrefixFree(lens, t, s);
    }
  }

  lemma TreeMeansLong(lens: seq<nat>, lookup: seq<int>, tree: seq<int>, nodes: Nodes, s: nat, buf: seq<bool>)
    requires Ready(lens, lookup, tree, nodes) && Compatible(lens, s, buf) && |buf| > FAST_BITS
    requires lookup[FromBits(buf) % FAST_SIZE] < 0
    ensures lens[s] > FAST_BITS
    ensures PathOk(lens, s, FAST_BITS, lookup[FromBits(buf) % FAST_SIZE], nodes)
  {
    if lens[s] <= FAST_BITS {
      ShortFound(lens, lookup, tree, nodes, s, buf);
    } else {
      assert buf[..FAST_BITS] == Code(lens, s)[..FAST_BITS];
      LongFound(lens, lookup, tree, nodes, s, buf);
    }
  }

  /** Whether the buffered bits already hold the whole code of the pending symbol. */
  method HaveSymbol(lookup: seq<int>, tree: seq<int>, bitBuf: nat, numBits: nat,
                    ghost lens: seq<nat>, ghost nodes: Nodes, ghost buf: seq<bool>, ghost s: nat)
    returns (have: bool)
    requires Ready(lens, lookup, tree, nodes) && bitBuf == FromBits(buf) && numBits == |buf|
    requires Compatible(lens, s, buf)
    ensures have <==> lens[s] <= numBits
  {
    ghost var c := Code(lens, s);
    var temp := lookup[bitBuf % FAST_SIZE];
    if lens[s] <= numBits && lens[s] <= FAST_BITS {
      ShortFound(lens, lookup, tree, nodes, s, buf);
      PackedParts(lens, s);
    } else if lens[s] <= numBits {
      assert buf[..FAST_BITS] == c[..FAST_BITS];
      LongFound(lens, lookup, tree, nodes, s, buf);
    }
    if temp >= 0 {
      var codeLen := temp / 512;
      have := codeLen != 0 && numBits >= codeLen;
      if have { NoFalseShort(lens, lookup, tree, nodes, s, buf); }
    } else if numBits > FAST_BITS {
      TreeMeansLong(lens, lookup, tree, nodes, s, buf);
      var codeLen: nat := FAST_BITS;
      while temp < 0 && numBits >= codeLen + 1
        invariant FAST_BITS <= codeLen <= numBits
        invariant temp < 0 ==> PathOk(lens, s, codeLen, temp, nodes)
        invariant temp >= 0 ==> codeLen == lens[s]
        decreases lens[s] - codeLen
      {
        BitAt(buf, codeLen);
        assert buf[codeLen] == c[codeLen];
        WalkStep(lens, lookup, tree, nodes, s, codeLen, temp);
        temp := tree[-temp - 1 + bitBuf / Pow2(codeLen) % 2];
        codeLen := codeLen + 1;
      }
      have := temp >= 0;
    } else {
      have := false;
    }
  }

  /** With a complete code no 15 pending bits are undecodable, and only one decoding exists. */
  lemma CompleteTablesDecode(lens: seq<nat>, buf: seq<bool>)
    requires Complete(lens) && |buf| >= 15
    ensures exists s :: Begins(lens, s, buf)
    ensures forall s, t :: Begins(lens, s, buf) && Begins(lens, t, buf) ==> s == t
  {
    var s := CompleteDecodes(lens, buf);
    forall s, t | Begins(lens, s, buf) && Begins(lens, t, buf)
      ensures s == t
    {
      BeginsUnique(lens, s, t, buf);
    }
  }
}
