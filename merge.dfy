/**
 * Merging two lists (mergeLists) and merging a list with same-type sibling
 * lists (autoMergeSiblingLists).
 *
 * mergeLists recurses into the nested lists held by the two boundary items.
 * Its proof carries a ghost level numbering of the tree (`depth`, one more
 * than the parent's level for every attached node): the recursion goes two
 * levels down, which bounds it, and every level it touches is disjoint from
 * the levels its callers still rely on.
 */
module ListMerge {
  import opened Seqs
  import opened Tree
  import opened ListValues

  /** Every attached node sits one level below its parent. */
  ghost predicate Layered(parent: map<Key, Key>, depth: map<Key, nat>)
  {
    forall k {:trigger k in parent} :: k in parent ==> k in depth && parent[k] in depth && depth[k] == depth[parent[k]] + 1
  }

  /** The nodes at level `level` or deeper. */
  ghost function Below(node: map<Key, Node>, depth: map<Key, nat>, level: nat): set<Key>
    requires node.Keys <= depth.Keys
  {
    set k | k in node && depth[k] >= level
  }

  /** The last child of `l1` and the first child of `l2` both hold only a
      nested list: mergeLists first merges those nested lists. */
  predicate NestedBoundary(node: map<Key, Node>, children: map<Key, seq<Key>>, l1: Key, l2: Key)
  {
    && l1 in children && l2 in children && children[l1] != [] && children[l2] != []
    && IsNestedItem(node, children, children[l1][|children[l1]| - 1])
    && IsNestedItem(node, children, children[l2][0])
  }

  /** The children of `l2` that end up appended to `l1`: all of them, or all
      but the first when that one's nested list was merged into `l1`'s. */
  function MergedTail(node: map<Key, Node>, children: map<Key, seq<Key>>, l1: Key, l2: Key): seq<Key>
    requires l2 in children
  {
    if NestedBoundary(node, children, l1, l2) then children[l2][1..] else children[l2]
  }

  /** The nested lists merged one level down. */
  function InnerLists(node: map<Key, Node>, children: map<Key, seq<Key>>, l1: Key, l2: Key): (Key, Key)
    requires NestedBoundary(node, children, l1, l2)
  {
    (children[children[l1][|children[l1]| - 1]][0], children[children[l2][0]][0])
  }

  /** Children lists of nodes down to `level`, other than `ex`, are as in `c0`. */
  ghost predicate ChildrenKept(c0: map<Key, seq<Key>>, c: map<Key, seq<Key>>, depth: map<Key, nat>, level: nat, ex: set<Key>)
  {
    forall k {:trigger k in c0} :: k in c0 && k in depth && depth[k] <= level && k !in ex ==> k in c && c[k] == c0[k]
  }

  /** Parent links of nodes down to `level`, other than `ex`, are as in `p0`. */
  ghost predicate ParentsKept(p0: map<Key, Key>, p: map<Key, Key>, depth: map<Key, nat>, level: nat, ex: set<Key>)
  {
    && (forall k {:trigger k in p0} :: k in p0 && k in depth && depth[k] <= level && k !in ex ==> k in p && p[k] == p0[k])
    && (forall k {:trigger k in p} :: k in p && k in depth && depth[k] <= level && k !in ex ==> k in p0)
  }

  /** Nodes down to `level` are as in `n0`. */
  ghost predicate NodesKept(n0: map<Key, Node>, n: map<Key, Node>, depth: map<Key, nat>, level: nat)
  {
    forall k {:trigger k in n0} :: k in n0 && k in depth && depth[k] <= level ==> k in n && n[k] == n0[k]
  }

  /** The nodes one merge level may give new children: the two lists, the
      parent of `l2` and the first child of `l2`. */
  function Affected(parent: map<Key, Key>, children: map<Key, seq<Key>>, l1: Key, l2: Key): set<Key>
  {
    {l1, l2} + (if l2 in parent then {parent[l2]} else {}) + (if l2 in children && children[l2] != [] then {children[l2][0]} else {})
  }

  /** The state `(n, p, c)` after mergeLists(l1, l2) on `(n0, p0, c0)`. */
  ghost predicate Merged(n0: map<Key, Node>, p0: map<Key, Key>, c0: map<Key, seq<Key>>,
                         n: map<Key, Node>, p: map<Key, Key>, c: map<Key, seq<Key>>,
                         depth: map<Key, nat>, l1: Key, l2: Key)
    requires l1 in c0 && l2 in c0 && l1 in depth
  {
    && SameShape(n0, n) && Linked(p, c)
    // l1 holds its old children followed by the merged tail of l2
    && l1 in c && c[l1] == c0[l1] + MergedTail(n0, c0, l1, l2)
    && (forall k :: k in MergedTail(n0, c0, l1, l2) ==> k in p && p[k] == l1)
    // l2 is emptied and detached; a merged boundary item is detached too
    && l2 in c && c[l2] == [] && l2 !in p
    && (l2 in p0 ==> p0[l2] in c0 && p0[l2] in c && c[p0[l2]] == Without(c0[p0[l2]], l2))
    && (NestedBoundary(n0, c0, l1, l2) ==> c0[l2][0] !in p)
    // one level down, the nested lists were merged the same way
    && (NestedBoundary(n0, c0, l1, l2) ==>
          var (m1, m2) := InnerLists(n0, c0, l1, l2);
          m1 in c0 && m2 in c0 && m1 in c && c[m1] == c0[m1] + MergedTail(n0, c0, m1, m2) && m2 !in p)
    // the values of l1's items are refreshed when something was appended
    && (MergedTail(n0, c0, l1, l2) != [] ==> OrdinalsCurrent(n, p, c, l1))
    // nothing else changes down to the level of l1's items
    && ChildrenKept(c0, c, depth, depth[l1] + 1, Affected(p0, c0, l1, l2))
    && ParentsKept(p0, p, depth, depth[l1] + 1, {l2} + (set x | x in c0[l2]))
    && NodesKept(n0, n, depth, depth[l1])
  }

  /** The keys mergeLists(l1, l2) may touch: the two lists, the parent of
      `l2`, the items of both, and, when the boundary items hold nested
      lists, the keys the merge of those nested lists may touch. */
  ghost function Chain(n0: map<Key, Node>, p0: map<Key, Key>, c0: map<Key, seq<Key>>, depth: map<Key, nat>,
                       l1: Key, l2: Key): set<Key>
    requires Start(n0, p0, c0, depth, l1, l2)
    decreases Below(n0, depth, depth[l1])
  {
    var here := {l1, l2} + (if l2 in p0 then {p0[l2]} else {}) + (set x | x in c0[l1]) + (set x | x in c0[l2]);
    if NestedBoundary(n0, c0, l1, l2) then
      var a, b := c0[l1][|c0[l1]| - 1], c0[l2][0];
      NestedLevels(n0, p0, c0, depth, l1, l2, a, b, c0[a][0], c0[b][0]);
      BelowShrinks(n0, depth, depth[l1], depth[c0[a][0]], l1);
      here + Chain(n0, p0, c0, depth, c0[a][0], c0[b][0])
    else here
  }

  /** The nodes two levels down are fewer: `l1` is left out. */
  lemma BelowShrinks(n0: map<Key, Node>, depth: map<Key, nat>, lo: nat, hi: nat, l1: Key)
    requires n0.Keys <= depth.Keys && l1 in n0 && depth[l1] == lo && lo < hi
    ensures Below(n0, depth, hi) < Below(n0, depth, lo)
  {
    assert l1 in Below(n0, depth, lo) && l1 !in Below(n0, depth, hi);
  }

  /** Every key outside `s` keeps its node, its children and its parent. */
  ghost predicate Untouched(n0: map<Key, Node>, p0: map<Key, Key>, c0: map<Key, seq<Key>>,
                            n: map<Key, Node>, p: map<Key, Key>, c: map<Key, seq<Key>>, s: set<Key>)
  {
    && (forall k {:trigger k in n0} :: k in n0 && k !in s ==> k in n && n[k] == n0[k])
    && (forall k {:trigger k in c0} :: k in c0 && k !in s ==> k in c && c[k] == c0[k])
    && (forall k {:trigger k in p0} :: k in p0 && k !in s ==> k in p && p[k] == p0[k])
    && (forall k {:trigger k in p} :: k in p && k !in s ==> k in p0)
  }

  /** Two steps that each keep clear of `s` keep clear of `s` together. */
  lemma UntouchedTrans(n0: map<Key, Node>, p0: map<Key, Key>, c0: map<Key, seq<Key>>,
                       n1: map<Key, Node>, p1: map<Key, Key>, c1: map<Key, seq<Key>>,
                       n2: map<Key, Node>, p2: map<Key, Key>, c2: map<Key, seq<Key>>,
                       s1: set<Key>, s2: set<Key>, s: set<Key>)
    requires Untouched(n0, p0, c0, n1, p1, c1, s1) && Untouched(n1, p1, c1, n2, p2, c2, s2)
    requires s1 <= s && s2 <= s
    ensures Untouched(n0, p0, c0, n2, p2, c2, s)
  {
  }

  /** Detaching `k` touches only `k` and its parent. */
  lemma RemoveUntouched(n: map<Key, Node>, p: map<Key, Key>, c: map<Key, seq<Key>>, k: Key)
    ensures Untouched(n, p, c, n, p - {k}, Unlinked(p, c, k), {k} + (if k in p then {p[k]} else {}))
  {
  }

  /** The state once the boundary lists (if any) are merged and the boundary
      item of `l2` is detached: what is left to do is appending. */
  ghost predicate ReadyToAppend(n0: map<Key, Node>, p0: map<Key, Key>, c0: map<Key, seq<Key>>,
                                n: map<Key, Node>, p: map<Key, Key>, c: map<Key, seq<Key>>,
                                depth: map<Key, nat>, l1: Key, l2: Key)
    requires l1 in c0 && l2 in c0 && l1 in depth
  {
    && SameShape(n0, n) && Linked(p, c)
    && l1 in c && l2 in c && c[l1] == c0[l1] && c[l2] == MergedTail(n0, c0, l1, l2)
    && (NestedBoundary(n0, c0, l1, l2) ==> c0[l2][0] !in p)
    && (NestedBoundary(n0, c0, l1, l2) ==>
          var (m1, m2) := InnerLists(n0, c0, l1, l2);
          m1 in c0 && m2 in c0 && m1 in c && c[m1] == c0[m1] + MergedTail(n0, c0, m1, m2) && m2 !in p)
    && ChildrenKept(c0, c, depth, depth[l1] + 1, if NestedBoundary(n0, c0, l1, l2) then {l2, c0[l2][0]} else {})
    && ParentsKept(p0, p, depth, depth[l1] + 1, if NestedBoundary(n0, c0, l1, l2) then {c0[l2][0]} else {})
    && NodesKept(n0, n, depth, depth[l1] + 1)
  }

  /** Counting ordinals only looks at the counted keys and their children. */
  lemma {:induction false} CountFrame(node: map<Key, Node>, c1: map<Key, seq<Key>>, c2: map<Key, seq<Key>>, s: seq<Key>)
    requires forall k :: k in s ==> (k in c1 <==> k in c2) && (k in c1 ==> c1[k] == c2[k])
    ensures CountOrdinals(node, c1, s) == CountOrdinals(node, c2, s)
    decreases |s|
  {
    if s != [] {
      var s' := s[..|s| - 1];
      assert forall k :: k in s' ==> k in s;
      CountFrame(node, c1, c2, s');
      assert TakesOrdinal(node, c1, s[|s| - 1]) == TakesOrdinal(node, c2, s[|s| - 1]);
    }
  }

  /** Detaching a node that is neither `l` nor a child of `l`, and whose
      parent is neither, leaves the ordinals of `l`'s items as they were. */
  lemma OrdinalsAfterRemove(n: map<Key, Node>, p: map<Key, Key>, c: map<Key, seq<Key>>, l: Key, x: Key)
    requires Linked(p, c) && l in c && x != l && x !in c[l] && (x in p ==> p[x] != l && p[x] !in c[l])
    requires OrdinalsCurrent(n, p, c, l)
    ensures Linked(p - {x}, Unlinked(p, c, x))
    ensures OrdinalsCurrent(n, p - {x}, Unlinked(p, c, x), l)
  {
    var p', c' := p - {x}, Unlinked(p, c, x);
    UnlinkKeepsLinks(p, c, x, p', c');
    assert c'[l] == c[l];
    forall y | y in c'[l] && y in n && n[y].ListItem?
      ensures ItemValue(n, p', c', y) == Ok(n[y].value)
    {
      var s := c[l];
      assert y in p && p[y] == l && y != x;
      CountFrame(n, c, c', s[..IndexOf(s, y)]);
    }
  }

  /** The appending step of mergeLists: `l2`'s children move, in order, to
      the end of `l1`, whose items then get their values refreshed; nothing
      happens when `l2` is empty. */
  method AppendTail(d: Doc, l1: Key, l2: Key, ghost depth: map<Key, nat>)
    requires d.Valid() && d.IsList(l1) && l2 in d.node && l1 != l2
    requires Layered(d.parent, depth) && l1 in depth && l2 in depth && depth[l1] == depth[l2]
    modifies d
    ensures d.Valid() && d.next == old(d.next) && Layered(d.parent, depth) && SameShape(old(d.node), d.node)
    ensures d.children == old(d.children)[l2 := []][l1 := old(d.children[l1]) + old(d.children[l2])]
    ensures d.parent == Moved(old(d.parent), old(d.children[l2]), l1)
    ensures forall k :: k in old(d.node) && k !in d.children[l1] ==> d.node[k] == old(d.node[k])
    ensures old(d.children[l2]) != [] ==> OrdinalsCurrent(d.node, d.parent, d.children, l1)
  {
    var toMerge := d.children[l2];
    if toMerge == [] {
      assert Moved(d.parent, toMerge, l1) == d.parent;
      assert d.children[l1] + toMerge == d.children[l1];
      assert d.children[l2 := []][l1 := d.children[l1]] == d.children;
      return;
    }
    forall j | 0 <= j < |toMerge| ensures toMerge[j] != l1 {
      assert toMerge[j] in d.parent && d.parent[toMerge[j]] == l2;
    }
    ghost var p0 := d.parent;
    d.MoveChildren(l2, 0, l1);
    assert d.children[l1] == old(d.children[l1]) + toMerge;
    forall k | k in d.parent ensures k in depth && d.parent[k] in depth && depth[k] == depth[d.parent[k]] + 1 {
      MovedAt(p0, toMerge, l1, k);
    }
    ghost var n1 := d.node;
    ghost var targets := d.children[l1];
    assert d.Children(l1) == targets;
    var r := UpdateChildrenListItemValue(d, l1, None);
    forall c | c in d.children[l1] ensures ItemValue(n1, d.parent, d.children, c).Ok? {
      assert d.parent[c] == l1;
    }
    assert r.Ok?;
    forall c | c in d.children[l1] && c in d.node && d.node[c].ListItem?
      ensures ItemValue(d.node, d.parent, d.children, c) == Ok(d.node[c].value)
    {
      assert c in targets && c in n1 && n1[c].ListItem?;
      assert Refreshed(n1, d.node, d.parent, d.children, c);
      ValueSameShape(n1, d.node, d.parent, d.children, c);
    }
  }

  /** The old tree the merge starts from. */
  ghost predicate Start(n0: map<Key, Node>, p0: map<Key, Key>, c0: map<Key, seq<Key>>, depth: map<Key, nat>, l1: Key, l2: Key)
  {
    && Linked(p0, c0) && Layered(p0, depth) && n0.Keys == c0.Keys && n0.Keys <= depth.Keys
    && l1 in n0 && l2 in n0 && n0[l1].List? && n0[l2].List? && l1 != l2 && depth[l1] == depth[l2]
  }

  /** The state before the append, the append itself, and the state after it. */
  ghost predicate AppendSteps(n0: map<Key, Node>, p0: map<Key, Key>, c0: map<Key, seq<Key>>,
                              nB: map<Key, Node>, pB: map<Key, Key>, cB: map<Key, seq<Key>>,
                              nC: map<Key, Node>, pC: map<Key, Key>, cC: map<Key, seq<Key>>,
                              depth: map<Key, nat>, l1: Key, l2: Key)
  {
    && Start(n0, p0, c0, depth, l1, l2)
    && ReadyToAppend(n0, p0, c0, nB, pB, cB, depth, l1, l2) && Layered(pB, depth)
    && cC == cB[l2 := []][l1 := cB[l1] + cB[l2]] && pC == Moved(pB, cB[l2], l1)
    && Linked(pC, cC) && Layered(pC, depth)
    && SameShape(nB, nC) && (forall k :: k in nB && k !in cC[l1] ==> nC[k] == nB[k])
    && (cB[l2] != [] ==> OrdinalsCurrent(nC, pC, cC, l1))
  }

  /** Where `l2`'s old children stand once appended. */
  lemma AppendFacts(n0: map<Key, Node>, p0: map<Key, Key>, c0: map<Key, seq<Key>>,
                    nB: map<Key, Node>, pB: map<Key, Key>, cB: map<Key, seq<Key>>,
                    nC: map<Key, Node>, pC: map<Key, Key>, cC: map<Key, seq<Key>>,
                    depth: map<Key, nat>, l1: Key, l2: Key)
    requires AppendSteps(n0, p0, c0, nB, pB, cB, nC, pC, cC, depth, l1, l2)
    ensures forall k :: k in cB[l2] ==> k in pB && pB[k] == l2 && k != l2 && k in depth && depth[k] == depth[l1] + 1
    ensures forall k :: k in cC[l1] ==> k in pC && pC[k] == l1 && k in depth && depth[k] == depth[l1] + 1
  {
    forall k | k in cB[l2] ensures k in pB && pB[k] == l2 && k != l2 && k in depth && depth[k] == depth[l1] + 1 { }
  }

  /** Where `l2` stands once appended: under its old parent, one level up. */
  lemma ParentFacts(n0: map<Key, Node>, p0: map<Key, Key>, c0: map<Key, seq<Key>>,
                    nB: map<Key, Node>, pB: map<Key, Key>, cB: map<Key, seq<Key>>,
                    nC: map<Key, Node>, pC: map<Key, Key>, cC: map<Key, seq<Key>>,
                    depth: map<Key, nat>, l1: Key, l2: Key)
    requires Start(n0, p0, c0, depth, l1, l2) && ReadyToAppend(n0, p0, c0, nB, pB, cB, depth, l1, l2)
    requires cC == cB[l2 := []][l1 := cB[l1] + cB[l2]] && pC == Moved(pB, cB[l2], l1)
    requires forall k :: k in cB[l2] ==> k in pB && pB[k] == l2 && k != l2 && k in depth && depth[k] == depth[l1] + 1
    ensures l2 in pC <==> l2 in p0
    ensures l2 in p0 ==> p0[l2] in depth && depth[p0[l2]] + 1 == depth[l1] && pC[l2] == p0[l2] && p0[l2] in c0
  {
    assert l2 !in cB[l2];
    if l2 in p0 {
      assert l2 in pB && pB[l2] == p0[l2];
    }
  }

  /** The old parent of `l2` still has its old children once appended. */
  lemma GrandparentFacts(n0: map<Key, Node>, p0: map<Key, Key>, c0: map<Key, seq<Key>>,
                    nB: map<Key, Node>, pB: map<Key, Key>, cB: map<Key, seq<Key>>,
                    nC: map<Key, Node>, pC: map<Key, Key>, cC: map<Key, seq<Key>>,
                    depth: map<Key, nat>, l1: Key, l2: Key)
    requires Start(n0, p0, c0, depth, l1, l2) && ReadyToAppend(n0, p0, c0, nB, pB, cB, depth, l1, l2)
    requires cC == cB[l2 := []][l1 := cB[l1] + cB[l2]] && pC == Moved(pB, cB[l2], l1)
    requires forall k :: k in cB[l2] ==> k in pB && pB[k] == l2 && k != l2 && k in depth && depth[k] == depth[l1] + 1
    requires l2 in p0 ==> p0[l2] in depth && depth[p0[l2]] + 1 == depth[l1] && pC[l2] == p0[l2] && p0[l2] in c0
    ensures l2 in p0 ==> p0[l2] in cB && cB[p0[l2]] == c0[p0[l2]] && cC[p0[l2]] == c0[p0[l2]]
  {
    if l2 in p0 {
      var g := p0[l2];
      assert g != l1 && g != l2;
      if NestedBoundary(n0, c0, l1, l2) {
        assert c0[l2][0] in c0[l2];
        assert depth[c0[l2][0]] == depth[l1] + 1;
      }
    }
  }

  /** Detaching `l2` after the append only shortens its old parent's list. */
  lemma DetachFacts(n0: map<Key, Node>, p0: map<Key, Key>, c0: map<Key, seq<Key>>,
                    nB: map<Key, Node>, pB: map<Key, Key>, cB: map<Key, seq<Key>>,
                    nC: map<Key, Node>, pC: map<Key, Key>, cC: map<Key, seq<Key>>,
                    depth: map<Key, nat>, l1: Key, l2: Key)
    requires Start(n0, p0, c0, depth, l1, l2) && ReadyToAppend(n0, p0, c0, nB, pB, cB, depth, l1, l2)
    requires cC == cB[l2 := []][l1 := cB[l1] + cB[l2]] && pC == Moved(pB, cB[l2], l1)
    requires forall k :: k in cB[l2] ==> k in pB && pB[k] == l2 && k != l2 && k in depth && depth[k] == depth[l1] + 1
    requires l2 in pC <==> l2 in p0
    requires l2 in p0 ==> p0[l2] in depth && depth[p0[l2]] + 1 == depth[l1] && pC[l2] == p0[l2] && p0[l2] in c0
    requires l2 in p0 ==> p0[l2] in cB && cB[p0[l2]] == c0[p0[l2]] && cC[p0[l2]] == c0[p0[l2]]
    ensures Unlinked(pC, cC, l2) == if l2 in p0 then cC[p0[l2] := Without(c0[p0[l2]], l2)] else cC
  {
  }

  /** Appending and then detaching `l2` completes the merge. */
  lemma RestMerged(n0: map<Key, Node>, p0: map<Key, Key>, c0: map<Key, seq<Key>>,
                   nB: map<Key, Node>, pB: map<Key, Key>, cB: map<Key, seq<Key>>,
                   nC: map<Key, Node>, pC: map<Key, Key>, cC: map<Key, seq<Key>>,
                   depth: map<Key, nat>, l1: Key, l2: Key)
    requires AppendSteps(n0, p0, c0, nB, pB, cB, nC, pC, cC, depth, l1, l2)
    ensures Merged(n0, p0, c0, nC, pC - {l2}, Unlinked(pC, cC, l2), depth, l1, l2)
  {
    AppendFacts(n0, p0, c0, nB, pB, cB, nC, pC, cC, depth, l1, l2);
    ParentFacts(n0, p0, c0, nB, pB, cB, nC, pC, cC, depth, l1, l2);
    GrandparentFacts(n0, p0, c0, nB, pB, cB, nC, pC, cC, depth, l1, l2);
    DetachFacts(n0, p0, c0, nB, pB, cB, nC, pC, cC, depth, l1, l2);
    RestShape(n0, p0, c0, nB, pB, cB, nC, pC, cC, depth, l1, l2);
    if NestedBoundary(n0, c0, l1, l2) {
      BoundaryDetached(n0, p0, c0, nB, pB, cB, nC, pC, cC, depth, l1, l2);
      InnerMergeKept(n0, p0, c0, nB, pB, cB, nC, pC, cC, depth, l1, l2);
    }
    ChildrenRest(n0, p0, c0, nB, pB, cB, nC, pC, cC, depth, l1, l2);
    ParentsRest(n0, p0, c0, nB, pB, cB, nC, pC, cC, depth, l1, l2);
    NodesRest(n0, p0, c0, nB, pB, cB, nC, pC, cC, depth, l1, l2);
    if cB[l2] != [] {
      assert l2 !in cC[l1] && (l2 in pC ==> pC[l2] != l1 && pC[l2] !in cC[l1]);
      OrdinalsAfterRemove(nC, pC, cC, l1, l2);
    }
  }

  /** Appending the children of `l2` to `l1` touches only the two lists
      and their items. */
  lemma AppendUntouched(nB: map<Key, Node>, pB: map<Key, Key>, cB: map<Key, seq<Key>>,
                        nC: map<Key, Node>, pC: map<Key, Key>, cC: map<Key, seq<Key>>, l1: Key, l2: Key)
    requires l1 in cB && l2 in cB
    requires cC == cB[l2 := []][l1 := cB[l1] + cB[l2]] && pC == Moved(pB, cB[l2], l1)
    requires nB.Keys == nC.Keys && forall k :: k in nB && k !in cC[l1] ==> nC[k] == nB[k]
    ensures Untouched(nB, pB, cB, nC, pC, cC, {l1, l2} + (set x | x in cB[l1]) + (set x | x in cB[l2]))
  {
    var s1 := {l1, l2} + (set x | x in cB[l1]) + (set x | x in cB[l2]);
    forall k | k in pC && k !in s1 ensures k in pB {
      MovedAt(pB, cB[l2], l1, k);
    }
    forall k | k in pB && k !in s1 ensures k in pC && pC[k] == pB[k] {
      MovedAt(pB, cB[l2], l1, k);
    }
  }

  /** Appending and then detaching `l2` touches only keys of the chain. */
  lemma RestUntouched(n0: map<Key, Node>, p0: map<Key, Key>, c0: map<Key, seq<Key>>,
                      nB: map<Key, Node>, pB: map<Key, Key>, cB: map<Key, seq<Key>>,
                      nC: map<Key, Node>, pC: map<Key, Key>, cC: map<Key, seq<Key>>,
                      depth: map<Key, nat>, l1: Key, l2: Key)
    requires Start(n0, p0, c0, depth, l1, l2)
    requires l1 in cB && l2 in cB && cB[l1] == c0[l1] && cB[l2] == MergedTail(n0, c0, l1, l2)
    requires Untouched(nB, pB, cB, nC, pC, cC, {l1, l2} + (set x | x in cB[l1]) + (set x | x in cB[l2]))
    requires l2 in pC ==> l2 in p0 && pC[l2] == p0[l2]
    ensures Untouched(nB, pB, cB, nC, pC - {l2}, Unlinked(pC, cC, l2), Chain(n0, p0, c0, depth, l1, l2))
  {
    var S := Chain(n0, p0, c0, depth, l1, l2);
    var s1 := {l1, l2} + (set x | x in cB[l1]) + (set x | x in cB[l2]);
    assert s1 <= S by {
      forall x | x in cB[l2] ensures x in c0[l2] {
        if NestedBoundary(n0, c0, l1, l2) {
          var j :| 0 <= j < |c0[l2][1..]| && c0[l2][1..][j] == x;
          assert c0[l2][j + 1] == x;
        }
      }
    }
    RemoveUntouched(nC, pC, cC, l2);
    var s2 := {l2} + (if l2 in pC then {pC[l2]} else {});
    UntouchedTrans(nB, pB, cB, nC, pC, cC, nC, pC - {l2}, Unlinked(pC, cC, l2), s1, s2, S);
  }

  /** The frame of appending and detaching `l2`, from the steps taken. */
  lemma RestFrame(n0: map<Key, Node>, p0: map<Key, Key>, c0: map<Key, seq<Key>>,
                  nB: map<Key, Node>, pB: map<Key, Key>, cB: map<Key, seq<Key>>,
                  nC: map<Key, Node>, pC: map<Key, Key>, cC: map<Key, seq<Key>>,
                  depth: map<Key, nat>, l1: Key, l2: Key)
    requires AppendSteps(n0, p0, c0, nB, pB, cB, nC, pC, cC, depth, l1, l2)
    ensures Untouched(nB, pB, cB, nC, pC - {l2}, Unlinked(pC, cC, l2), Chain(n0, p0, c0, depth, l1, l2))
  {
    AppendFacts(n0, p0, c0, nB, pB, cB, nC, pC, cC, depth, l1, l2);
    ParentFacts(n0, p0, c0, nB, pB, cB, nC, pC, cC, depth, l1, l2);
    AppendUntouched(nB, pB, cB, nC, pC, cC, l1, l2);
    RestUntouched(n0, p0, c0, nB, pB, cB, nC, pC, cC, depth, l1, l2);
  }

  /** Detaching the boundary item after the inner merge touches only keys
      of the chain. */
  lemma BoundaryUntouched(n0: map<Key, Node>, p0: map<Key, Key>, c0: map<Key, seq<Key>>,
                          nM: map<Key, Node>, pM: map<Key, Key>, cM: map<Key, seq<Key>>,
                          depth: map<Key, nat>, l1: Key, l2: Key, a: Key, b: Key, m1: Key, m2: Key)
    requires Start(n0, p0, c0, depth, l1, l2) && NestedBoundary(n0, c0, l1, l2)
    requires a == c0[l1][|c0[l1]| - 1] && b == c0[l2][0] && m1 == c0[a][0] && m2 == c0[b][0]
    requires Start(n0, p0, c0, depth, m1, m2)
    requires Untouched(n0, p0, c0, nM, pM, cM, Chain(n0, p0, c0, depth, m1, m2))
    requires b in pM && pM[b] == l2
    ensures Untouched(n0, p0, c0, nM, pM - {b}, Unlinked(pM, cM, b), Chain(n0, p0, c0, depth, l1, l2))
  {
    NestedLevels(n0, p0, c0, depth, l1, l2, a, b, m1, m2);
    var S := Chain(n0, p0, c0, depth, l1, l2);
    assert b in c0[l2];
    assert Chain(n0, p0, c0, depth, m1, m2) <= S;
    RemoveUntouched(nM, pM, cM, b);
    UntouchedTrans(n0, p0, c0, nM, pM, cM, nM, pM - {b}, Unlinked(pM, cM, b),
                   Chain(n0, p0, c0, depth, m1, m2), {b, l2}, S);
  }

  /** The lists `l1` and `l2` and `l2`'s parent after the merge. */
  lemma RestShape(n0: map<Key, Node>, p0: map<Key, Key>, c0: map<Key, seq<Key>>,
                  nB: map<Key, Node>, pB: map<Key, Key>, cB: map<Key, seq<Key>>,
                  nC: map<Key, Node>, pC: map<Key, Key>, cC: map<Key, seq<Key>>,
                  depth: map<Key, nat>, l1: Key, l2: Key)
    requires AppendSteps(n0, p0, c0, nB, pB, cB, nC, pC, cC, depth, l1, l2)
    requires forall k :: k in cB[l2] ==> k in pB && pB[k] == l2 && k != l2 && k in depth && depth[k] == depth[l1] + 1
    requires l2 in pC <==> l2 in p0
    requires l2 in p0 ==> p0[l2] in depth && depth[p0[l2]] + 1 == depth[l1] && pC[l2] == p0[l2] && p0[l2] in c0
    requires l2 in p0 ==> p0[l2] in cB && cB[p0[l2]] == c0[p0[l2]] && cC[p0[l2]] == c0[p0[l2]]
    requires Unlinked(pC, cC, l2) == if l2 in p0 then cC[p0[l2] := Without(c0[p0[l2]], l2)] else cC
    ensures SameShape(n0, nC) && Linked(pC - {l2}, Unlinked(pC, cC, l2))
    ensures l1 in Unlinked(pC, cC, l2) && Unlinked(pC, cC, l2)[l1] == c0[l1] + MergedTail(n0, c0, l1, l2)
    ensures forall k :: k in MergedTail(n0, c0, l1, l2) ==> k in pC - {l2} && (pC - {l2})[k] == l1
    ensures l2 in Unlinked(pC, cC, l2) && Unlinked(pC, cC, l2)[l2] == [] && l2 !in pC - {l2}
    ensures l2 in p0 ==> p0[l2] in c0 && p0[l2] in Unlinked(pC, cC, l2) && Unlinked(pC, cC, l2)[p0[l2]] == Without(c0[p0[l2]], l2)
  {
    RestLinks(n0, p0, c0, nB, pB, cB, nC, pC, cC, depth, l1, l2);
    RestKids(n0, p0, c0, nB, pB, cB, nC, pC, cC, depth, l1, l2);
  }

  /** The links part of RestShape. */
  lemma RestLinks(n0: map<Key, Node>, p0: map<Key, Key>, c0: map<Key, seq<Key>>,
                  nB: map<Key, Node>, pB: map<Key, Key>, cB: map<Key, seq<Key>>,
                  nC: map<Key, Node>, pC: map<Key, Key>, cC: map<Key, seq<Key>>,
                  depth: map<Key, nat>, l1: Key, l2: Key)
    requires AppendSteps(n0, p0, c0, nB, pB, cB, nC, pC, cC, depth, l1, l2)
    requires forall k :: k in cB[l2] ==> k in pB && pB[k] == l2 && k != l2 && k in depth && depth[k] == depth[l1] + 1
    requires l2 in pC <==> l2 in p0
    requires l2 in p0 ==> p0[l2] in depth && depth[p0[l2]] + 1 == depth[l1] && pC[l2] == p0[l2] && p0[l2] in c0
    requires l2 in p0 ==> p0[l2] in cB && cB[p0[l2]] == c0[p0[l2]] && cC[p0[l2]] == c0[p0[l2]]
    requires Unlinked(pC, cC, l2) == if l2 in p0 then cC[p0[l2] := Without(c0[p0[l2]], l2)] else cC
    ensures SameShape(n0, nC) && Linked(pC - {l2}, Unlinked(pC, cC, l2))
    ensures forall k :: k in MergedTail(n0, c0, l1, l2) ==> k in pC - {l2} && (pC - {l2})[k] == l1
    ensures l2 !in pC - {l2}
  {
    var pE, cE := pC - {l2}, Unlinked(pC, cC, l2);
    SameShapeTrans(n0, nB, nC);
    UnlinkKeepsLinks(pC, cC, l2, pE, cE);
    assert MergedTail(n0, c0, l1, l2) == cB[l2];
    forall k | k in cB[l2] ensures k in pE && pE[k] == l1 {
      MovedAt(pB, cB[l2], l1, k);
    }
  }

  /** The children part of RestShape. */
  lemma RestKids(n0: map<Key, Node>, p0: map<Key, Key>, c0: map<Key, seq<Key>>,
                  nB: map<Key, Node>, pB: map<Key, Key>, cB: map<Key, seq<Key>>,
                  nC: map<Key, Node>, pC: map<Key, Key>, cC: map<Key, seq<Key>>,
                  depth: map<Key, nat>, l1: Key, l2: Key)
    requires AppendSteps(n0, p0, c0, nB, pB, cB, nC, pC, cC, depth, l1, l2)
    requires forall k :: k in cB[l2] ==> k in pB && pB[k] == l2 && k != l2 && k in depth && depth[k] == depth[l1] + 1
    requires l2 in pC <==> l2 in p0
    requires l2 in p0 ==> p0[l2] in depth && depth[p0[l2]] + 1 == depth[l1] && pC[l2] == p0[l2] && p0[l2] in c0
    requires l2 in p0 ==> p0[l2] in cB && cB[p0[l2]] == c0[p0[l2]] && cC[p0[l2]] == c0[p0[l2]]
    requires Unlinked(pC, cC, l2) == if l2 in p0 then cC[p0[l2] := Without(c0[p0[l2]], l2)] else cC
    ensures l1 in Unlinked(pC, cC, l2) && Unlinked(pC, cC, l2)[l1] == c0[l1] + MergedTail(n0, c0, l1, l2)
    ensures l2 in Unlinked(pC, cC, l2) && Unlinked(pC, cC, l2)[l2] == []
    ensures l2 in p0 ==> p0[l2] in c0 && p0[l2] in Unlinked(pC, cC, l2) && Unlinked(pC, cC, l2)[p0[l2]] == Without(c0[p0[l2]], l2)
  {
    var cE := Unlinked(pC, cC, l2);
    assert MergedTail(n0, c0, l1, l2) == cB[l2];
    assert cC[l2] == [] && cC[l1] == c0[l1] + cB[l2];
    if l2 in p0 {
      assert p0[l2] != l2 && p0[l2] != l1;
      assert cE == cC[p0[l2] := Without(c0[p0[l2]], l2)];
    } else {
      assert cE == cC;
    }
    assert cE[l2] == [] && cE[l1] == cC[l1];
  }

  /** The boundary item of `l2` stays detached. */
  lemma BoundaryDetached(n0: map<Key, Node>, p0: map<Key, Key>, c0: map<Key, seq<Key>>,
                    nB: map<Key, Node>, pB: map<Key, Key>, cB: map<Key, seq<Key>>,
                    nC: map<Key, Node>, pC: map<Key, Key>, cC: map<Key, seq<Key>>,
                    depth: map<Key, nat>, l1: Key, l2: Key)
    requires Start(n0, p0, c0, depth, l1, l2) && ReadyToAppend(n0, p0, c0, nB, pB, cB, depth, l1, l2)
    requires cC == cB[l2 := []][l1 := cB[l1] + cB[l2]] && pC == Moved(pB, cB[l2], l1)
    requires NestedBoundary(n0, c0, l1, l2)
    ensures c0[l2][0] !in pC - {l2}
  {
    IndexOfNoDup(c0[l2], 0);
    assert c0[l2][0] !in c0[l2][1..];
  }

  /** The nested lists merged one level down stay as the inner merge left them. */
  lemma InnerMergeKept(n0: map<Key, Node>, p0: map<Key, Key>, c0: map<Key, seq<Key>>,
                    nB: map<Key, Node>, pB: map<Key, Key>, cB: map<Key, seq<Key>>,
                    nC: map<Key, Node>, pC: map<Key, Key>, cC: map<Key, seq<Key>>,
                    depth: map<Key, nat>, l1: Key, l2: Key)
    requires Start(n0, p0, c0, depth, l1, l2) && ReadyToAppend(n0, p0, c0, nB, pB, cB, depth, l1, l2)
    requires cC == cB[l2 := []][l1 := cB[l1] + cB[l2]] && pC == Moved(pB, cB[l2], l1)
    requires NestedBoundary(n0, c0, l1, l2)
    requires l2 in p0 ==> p0[l2] in depth && depth[p0[l2]] + 1 == depth[l1] && pC[l2] == p0[l2] && p0[l2] in c0
    requires Unlinked(pC, cC, l2) == if l2 in p0 then cC[p0[l2] := Without(c0[p0[l2]], l2)] else cC
    ensures var (m1, m2) := InnerLists(n0, c0, l1, l2);
              m1 in c0 && m2 in c0 && m1 in Unlinked(pC, cC, l2)
              && Unlinked(pC, cC, l2)[m1] == c0[m1] + MergedTail(n0, c0, m1, m2) && m2 !in pC - {l2}
  {
    var cE := Unlinked(pC, cC, l2);
    var m1, m2 := InnerLists(n0, c0, l1, l2).0, InnerLists(n0, c0, l1, l2).1;
    var a := c0[l1][|c0[l1]| - 1];
    assert a in p0 && p0[a] == l1 && m1 in p0 && p0[m1] == a && depth[m1] == depth[l1] + 2;
    assert m1 != l1 && m1 != l2 && (l2 in p0 ==> m1 != p0[l2]);
    var b := c0[l2][0];
    assert b in p0 && m2 in p0 && p0[m2] == b && depth[m2] == depth[l1] + 2;
    assert m2 !in cB[l2];
    assert m1 in cB;
    assert cC[m1] == cB[m1];
    assert cE[m1] == cC[m1];
  }

  /** Children lists down to the level of the items are kept, but for the affected nodes. */
  lemma ChildrenRest(n0: map<Key, Node>, p0: map<Key, Key>, c0: map<Key, seq<Key>>,
                    nB: map<Key, Node>, pB: map<Key, Key>, cB: map<Key, seq<Key>>,
                    nC: map<Key, Node>, pC: map<Key, Key>, cC: map<Key, seq<Key>>,
                    depth: map<Key, nat>, l1: Key, l2: Key)
    requires Start(n0, p0, c0, depth, l1, l2) && ReadyToAppend(n0, p0, c0, nB, pB, cB, depth, l1, l2)
    requires cC == cB[l2 := []][l1 := cB[l1] + cB[l2]] && pC == Moved(pB, cB[l2], l1)
    requires Unlinked(pC, cC, l2) == if l2 in p0 then cC[p0[l2] := Without(c0[p0[l2]], l2)] else cC
    ensures ChildrenKept(c0, Unlinked(pC, cC, l2), depth, depth[l1] + 1, Affected(p0, c0, l1, l2))
  {
  }

  /** Parent links down to the level of the items are kept, but for `l2` and its old children. */
  lemma ParentsRest(n0: map<Key, Node>, p0: map<Key, Key>, c0: map<Key, seq<Key>>,
                    nB: map<Key, Node>, pB: map<Key, Key>, cB: map<Key, seq<Key>>,
                    nC: map<Key, Node>, pC: map<Key, Key>, cC: map<Key, seq<Key>>,
                    depth: map<Key, nat>, l1: Key, l2: Key)
    requires Start(n0, p0, c0, depth, l1, l2) && ReadyToAppend(n0, p0, c0, nB, pB, cB, depth, l1, l2)
    requires cC == cB[l2 := []][l1 := cB[l1] + cB[l2]] && pC == Moved(pB, cB[l2], l1)
    requires forall k :: k in cB[l2] ==> k in pB && pB[k] == l2 && k != l2 && k in depth && depth[k] == depth[l1] + 1
    ensures ParentsKept(p0, pC - {l2}, depth, depth[l1] + 1, {l2} + (set x | x in c0[l2]))
  {
    var ex := {l2} + (set x | x in c0[l2]);
    forall k | k in depth && depth[k] <= depth[l1] + 1 && k !in ex
      ensures (k in pC - {l2} <==> k in p0) && (k in p0 ==> (pC - {l2})[k] == p0[k])
    {
      if NestedBoundary(n0, c0, l1, l2) { assert c0[l2][0] in ex; }
      assert k !in cB[l2];
    }
  }

  /** Nodes down to the level of the lists are kept. */
  lemma NodesRest(n0: map<Key, Node>, p0: map<Key, Key>, c0: map<Key, seq<Key>>,
                  nB: map<Key, Node>, pB: map<Key, Key>, cB: map<Key, seq<Key>>,
                  nC: map<Key, Node>, pC: map<Key, Key>, cC: map<Key, seq<Key>>,
                  depth: map<Key, nat>, l1: Key, l2: Key)
    requires AppendSteps(n0, p0, c0, nB, pB, cB, nC, pC, cC, depth, l1, l2)
    requires forall k :: k in cC[l1] ==> k in pC && pC[k] == l1 && k in depth && depth[k] == depth[l1] + 1
    ensures NodesKept(n0, nC, depth, depth[l1])
  {
    forall k | k in n0 && k in depth && depth[k] <= depth[l1] ensures k in nC && nC[k] == n0[k] {
      assert k !in cC[l1];
    }
  }

  /** The nodes a nested boundary involves and their levels: `a` and `b` are
      the boundary items, `m1` and `m2` the lists they hold. */
  lemma NestedLevels(n0: map<Key, Node>, p0: map<Key, Key>, c0: map<Key, seq<Key>>, depth: map<Key, nat>,
                     l1: Key, l2: Key, a: Key, b: Key, m1: Key, m2: Key)
    requires Start(n0, p0, c0, depth, l1, l2) && NestedBoundary(n0, c0, l1, l2)
    requires a == c0[l1][|c0[l1]| - 1] && b == c0[l2][0] && m1 == c0[a][0] && m2 == c0[b][0]
    ensures InnerLists(n0, c0, l1, l2) == (m1, m2)
    ensures a in p0 && p0[a] == l1 && b in p0 && p0[b] == l2 && m1 in p0 && p0[m1] == a && m2 in p0 && p0[m2] == b
    ensures depth[a] == depth[l1] + 1 && depth[b] == depth[l1] + 1
    ensures m1 in depth && m2 in depth && depth[m1] == depth[l1] + 2 && depth[m2] == depth[l1] + 2
    ensures m1 in n0 && m2 in n0 && n0[m1].List? && n0[m2].List? && m1 != m2 && m1 in c0 && m2 in c0
    ensures forall k :: k in c0[m2] ==> k in depth && depth[k] == depth[l1] + 3
    ensures forall k :: k in c0[l2] ==> k in depth && depth[k] == depth[l1] + 1
  {
    assert c0[a][0] in c0[a] && c0[b][0] in c0[b];
    assert a != b;
    forall k | k in c0[m2] ensures k in depth && depth[k] == depth[l1] + 3 {
      assert k in p0 && p0[k] == m2;
    }
    forall k | k in c0[l2] ensures k in depth && depth[k] == depth[l1] + 1 {
      assert k in p0 && p0[k] == l2;
    }
  }

  /** The boundary item `b` is none of the nodes the inner merge of `m1` and
      `m2` gives new children, and neither are `l1` and `l2`. */
  lemma OutsideInner(p0: map<Key, Key>, c0: map<Key, seq<Key>>, depth: map<Key, nat>,
                     l1: Key, l2: Key, b: Key, m1: Key, m2: Key)
    requires l1 in depth && l2 in depth && depth[l2] == depth[l1] && b in depth && depth[b] == depth[l1] + 1
    requires m1 in depth && m2 in depth && depth[m1] == depth[l1] + 2 && depth[m2] == depth[l1] + 2
    requires m2 in p0 && p0[m2] == b && m2 in c0
    requires forall k :: k in c0[m2] ==> k in depth && depth[k] == depth[l1] + 3
    ensures l1 !in Affected(p0, c0, m1, m2) && l2 !in Affected(p0, c0, m1, m2)
    ensures forall x :: x in Affected(p0, c0, m1, m2) ==> x == b || (x in depth && depth[x] > depth[l1] + 1)
    ensures forall x :: x in {m2} + (set x | x in c0[m2]) ==> x in depth && depth[x] > depth[l1] + 1
  {
    if c0[m2] != [] {
      assert c0[m2][0] in c0[m2];
    }
  }

  /** The children lists once the boundary item `b` is detached after the
      inner merge. */
  lemma BoundaryChildren(c0: map<Key, seq<Key>>, pM: map<Key, Key>, cM: map<Key, seq<Key>>,
                         depth: map<Key, nat>, level: nat, l2: Key, b: Key, ex: set<Key>)
    requires Linked(pM, cM) && l2 in c0 && c0[l2] != [] && b == c0[l2][0]
    requires l2 in depth && depth[l2] < level && l2 !in ex && b in pM && pM[b] == l2
    requires ChildrenKept(c0, cM, depth, level, ex)
    ensures l2 in cM && cM[l2] == c0[l2]
    ensures Unlinked(pM, cM, b) == cM[l2 := c0[l2][1..]]
  {
    assert l2 in cM && cM[l2] == c0[l2] && NoDup(cM[l2]);
    assert c0[l2] == [] + [b] + c0[l2][1..];
    WithoutHead([], b, c0[l2][1..]);
    assert Without(cM[l2], b) == c0[l2][1..];
    assert b in pM && pM[b] == l2 && l2 in cM;
  }

  /** Detaching `b` keeps the children lists of the upper levels, but for its parent `l2`. */
  lemma BoundaryKept(c0: map<Key, seq<Key>>, cM: map<Key, seq<Key>>, depth: map<Key, nat>,
                     level: nat, l2: Key, b: Key, ex: set<Key>)
    requires ChildrenKept(c0, cM, depth, level + 2, ex)
    requires forall x :: x in ex ==> x == b || (x in depth && depth[x] > level)
    requires l2 in c0 && c0[l2] != [] && l2 in cM
    ensures ChildrenKept(c0, cM[l2 := c0[l2][1..]], depth, level, {l2, b})
  {
  }

  /** Detaching the boundary item after the inner merge leaves only the
      appending to do. */
  lemma BoundaryDropped(n0: map<Key, Node>, p0: map<Key, Key>, c0: map<Key, seq<Key>>,
                        nM: map<Key, Node>, pM: map<Key, Key>, cM: map<Key, seq<Key>>,
                        depth: map<Key, nat>, l1: Key, l2: Key, a: Key, b: Key, m1: Key, m2: Key)
    requires Start(n0, p0, c0, depth, l1, l2) && NestedBoundary(n0, c0, l1, l2)
    requires a == c0[l1][|c0[l1]| - 1] && b == c0[l2][0] && m1 == c0[a][0] && m2 == c0[b][0]
    requires m1 in c0 && m2 in c0 && m1 in depth
    // what the inner merge of m1 and m2 guarantees (Merged), as far as needed here
    requires SameShape(n0, nM) && Linked(pM, cM)
    requires m1 in cM && cM[m1] == c0[m1] + MergedTail(n0, c0, m1, m2) && m2 !in pM
    requires ChildrenKept(c0, cM, depth, depth[m1] + 1, Affected(p0, c0, m1, m2))
    requires ParentsKept(p0, pM, depth, depth[m1] + 1, {m2} + (set x | x in c0[m2]))
    requires NodesKept(n0, nM, depth, depth[m1])
    ensures ReadyToAppend(n0, p0, c0, nM, pM - {b}, Unlinked(pM, cM, b), depth, l1, l2)
  {
    NestedLevels(n0, p0, c0, depth, l1, l2, a, b, m1, m2);
    OutsideInner(p0, c0, depth, l1, l2, b, m1, m2);
    var D := depth[l1];
    var ex := Affected(p0, c0, m1, m2);
    var exP := {m2} + (set x | x in c0[m2]);
    assert b in pM && pM[b] == l2;
    BoundaryChildren(c0, pM, cM, depth, D + 3, l2, b, ex);
    BoundaryKept(c0, cM, depth, D + 1, l2, b, ex);
    ParentsNarrow(p0, pM, depth, D + 3, D + 1, exP, b);
    UnlinkKeepsLinks(pM, cM, b, pM - {b}, Unlinked(pM, cM, b));
    assert m1 != l2;
    ReadyFromParts(n0, p0, c0, nM, pM - {b}, Unlinked(pM, cM, b), depth, l1, l2, m1, m2);
  }

  /** Narrowing a parent frame to the upper levels, with one more node let go. */
  lemma ParentsNarrow(p0: map<Key, Key>, p: map<Key, Key>, depth: map<Key, nat>, hi: nat, lo: nat, ex: set<Key>, b: Key)
    requires ParentsKept(p0, p, depth, hi, ex) && lo <= hi
    requires forall x :: x in ex ==> x in depth && depth[x] > lo
    ensures ParentsKept(p0, p - {b}, depth, lo, {b})
  {
  }

  /** ReadyToAppend, assembled from its parts for a nested boundary. */
  lemma ReadyFromParts(n0: map<Key, Node>, p0: map<Key, Key>, c0: map<Key, seq<Key>>,
                       nB: map<Key, Node>, pB: map<Key, Key>, cB: map<Key, seq<Key>>,
                       depth: map<Key, nat>, l1: Key, l2: Key, m1: Key, m2: Key)
    requires NestedBoundary(n0, c0, l1, l2) && l1 in depth && InnerLists(n0, c0, l1, l2) == (m1, m2)
    requires SameShape(n0, nB) && Linked(pB, cB)
    requires l1 in cB && l2 in cB && cB[l1] == c0[l1] && cB[l2] == c0[l2][1..] && c0[l2][0] !in pB
    requires m1 in c0 && m2 in c0 && m1 in cB && cB[m1] == c0[m1] + MergedTail(n0, c0, m1, m2) && m2 !in pB
    requires ChildrenKept(c0, cB, depth, depth[l1] + 1, {l2, c0[l2][0]})
    requires ParentsKept(p0, pB, depth, depth[l1] + 1, {c0[l2][0]})
    requires NodesKept(n0, nB, depth, depth[l1] + 1)
    ensures ReadyToAppend(n0, p0, c0, nB, pB, cB, depth, l1, l2)
  {
  }

  /** mergeLists(l1, l2): when the last item of `l1` and the first item of
      `l2` both hold a nested list, those lists are merged first and the
      first item of `l2` is dropped; then what is left of `l2` moves to the
      end of `l1`, the values of `l1`'s items are refreshed, and `l2` is
      taken out of the document. */
  method MergeLists(d: Doc, l1: Key, l2: Key, ghost depth: map<Key, nat>)
    requires d.Valid() && d.IsList(l1) && d.IsList(l2) && l1 != l2
    requires Layered(d.parent, depth) && d.node.Keys <= depth.Keys && depth[l1] == depth[l2]
    modifies d
    decreases Below(d.node, depth, depth[l1]), 1
    ensures d.Valid() && d.next == old(d.next) && Layered(d.parent, depth)
    ensures Merged(old(d.node), old(d.parent), old(d.children), d.node, d.parent, d.children, depth, l1, l2)
    ensures Untouched(old(d.node), old(d.parent), old(d.children), d.node, d.parent, d.children,
                      Chain(old(d.node), old(d.parent), old(d.children), depth, l1, l2))
  {
    ghost var n0, p0, c0 := d.node, d.parent, d.children;
    var item1 := d.LastChild(l1);
    var item2 := d.FirstChild(l2);
    if item1.Some? && item2.Some? && IsNestedItem(d.node, d.children, item1.value) && IsNestedItem(d.node, d.children, item2.value) {
      MergeBoundary(d, l1, l2, item1.value, item2.value, depth);
    } else {
      assert ReadyToAppend(n0, p0, c0, n0, p0, c0, depth, l1, l2);
    }
    ghost var nB, pB, cB := d.node, d.parent, d.children;
    MergeRest(d, l1, l2, depth, n0, p0, c0);
    ghost var S := Chain(n0, p0, c0, depth, l1, l2);
    UntouchedTrans(n0, p0, c0, nB, pB, cB, d.node, d.parent, d.children, S, S, S);
  }

  /** The nested-boundary step of mergeLists: merge the lists held by the
      boundary items `a` and `b`, then take `b` out of `l2`. */
  method MergeBoundary(d: Doc, l1: Key, l2: Key, a: Key, b: Key, ghost depth: map<Key, nat>)
    requires d.Valid() && d.IsList(l1) && d.IsList(l2) && l1 != l2
    requires Layered(d.parent, depth) && d.node.Keys <= depth.Keys && depth[l1] == depth[l2]
    requires NestedBoundary(d.node, d.children, l1, l2)
    requires a == d.children[l1][|d.children[l1]| - 1] && b == d.children[l2][0]
    modifies d
    decreases Below(d.node, depth, depth[l1]), 0
    ensures d.Valid() && d.next == old(d.next) && Layered(d.parent, depth)
    ensures ReadyToAppend(old(d.node), old(d.parent), old(d.children), d.node, d.parent, d.children, depth, l1, l2)
    ensures Untouched(old(d.node), old(d.parent), old(d.children), d.node, d.parent, d.children,
                      Chain(old(d.node), old(d.parent), old(d.children), depth, l1, l2))
  {
    ghost var n0, p0, c0 := d.node, d.parent, d.children;
    var m1, m2 := d.children[a][0], d.children[b][0];
    NestedLevels(n0, p0, c0, depth, l1, l2, a, b, m1, m2);
    assert l1 in Below(d.node, depth, depth[l1]) && l1 !in Below(d.node, depth, depth[m1]);
    MergeLists(d, m1, m2, depth);
    ghost var nM, pM, cM := d.node, d.parent, d.children;
    d.Remove(b);
    BoundaryDropped(n0, p0, c0, nM, pM, cM, depth, l1, l2, a, b, m1, m2);
    BoundaryUntouched(n0, p0, c0, nM, pM, cM, depth, l1, l2, a, b, m1, m2);
  }

  /** The end of mergeLists: append what is left of `l2` to `l1`, then take
      `l2` out of the document. */
  method MergeRest(d: Doc, l1: Key, l2: Key, ghost depth: map<Key, nat>,
                   ghost n0: map<Key, Node>, ghost p0: map<Key, Key>, ghost c0: map<Key, seq<Key>>)
    requires d.Valid() && Start(n0, p0, c0, depth, l1, l2)
    requires ReadyToAppend(n0, p0, c0, d.node, d.parent, d.children, depth, l1, l2) && Layered(d.parent, depth)
    modifies d
    ensures d.Valid() && d.next == old(d.next) && Layered(d.parent, depth)
    ensures Merged(n0, p0, c0, d.node, d.parent, d.children, depth, l1, l2)
    ensures Untouched(old(d.node), old(d.parent), old(d.children), d.node, d.parent, d.children,
                      Chain(n0, p0, c0, depth, l1, l2))
  {
    ghost var nB, pB, cB := d.node, d.parent, d.children;
    AppendTail(d, l1, l2, depth);
    ghost var nC, pC, cC := d.node, d.parent, d.children;
    assert AppendSteps(n0, p0, c0, nB, pB, cB, nC, pC, cC, depth, l1, l2);
    d.Remove(l2);
    RestMerged(n0, p0, c0, nB, pB, cB, nC, pC, cC, depth, l1, l2);
    RestFrame(n0, p0, c0, nB, pB, cB, nC, pC, cC, depth, l1, l2);
  }

  /** All of `l2`'s old children but the first end up in `l1`. */
  lemma TailLands(n0: map<Key, Node>, p0: map<Key, Key>, c0: map<Key, seq<Key>>,
                  n: map<Key, Node>, p: map<Key, Key>, c: map<Key, seq<Key>>,
                  depth: map<Key, nat>, l1: Key, l2: Key)
    requires l1 in c0 && l2 in c0 && l1 in depth && Merged(n0, p0, c0, n, p, c, depth, l1, l2)
    ensures forall i :: 1 <= i < |c0[l2]| ==> c0[l2][i] in p && p[c0[l2][i]] == l1
  {
    forall i | 1 <= i < |c0[l2]| ensures c0[l2][i] in p && p[c0[l2][i]] == l1 {
      assert c0[l2][1..][i - 1] == c0[l2][i];
      assert c0[l2][i] in MergedTail(n0, c0, l1, l2);
    }
  }

  /** A sibling `s` of `l2` keeps its node, its parent and, unless it is `l1`,
      its children through mergeLists(l1, l2). */
  lemma SiblingKept(n0: map<Key, Node>, p0: map<Key, Key>, c0: map<Key, seq<Key>>,
                    n: map<Key, Node>, p: map<Key, Key>, c: map<Key, seq<Key>>,
                    depth: map<Key, nat>, l1: Key, l2: Key, s: Key)
    requires Linked(p0, c0) && Layered(p0, depth) && l1 in depth && l2 in depth && l2 in c0 && depth[l1] == depth[l2]
    // the frame part of Merged(n0, p0, c0, n, p, c, depth, l1, l2)
    requires ChildrenKept(c0, c, depth, depth[l1] + 1, Affected(p0, c0, l1, l2))
    requires ParentsKept(p0, p, depth, depth[l1] + 1, {l2} + (set x | x in c0[l2]))
    requires NodesKept(n0, n, depth, depth[l1])
    requires s in n0 && s in c0 && s in p0 && l2 in p0 && p0[s] == p0[l2] && s != l2
    ensures s in n && n[s] == n0[s] && s in p && p[s] == p0[s]
    ensures s != l1 ==> s in c && c[s] == c0[s]
  {
    assert depth[s] == depth[l1];
    assert depth[p0[l2]] + 1 == depth[l1];
    ChildLevel(p0, c0, depth, l2);
    if c0[l2] != [] {
      assert c0[l2][0] in c0[l2];
    }
    assert s != l1 ==> s !in Affected(p0, c0, l1, l2);
    assert s !in {l2} + (set x | x in c0[l2]);
  }

  /** The nodes under `l` sit one level below it. */
  lemma ChildLevel(p0: map<Key, Key>, c0: map<Key, seq<Key>>, depth: map<Key, nat>, l: Key)
    requires Linked(p0, c0) && Layered(p0, depth) && l in c0
    ensures forall k :: k in c0[l] ==> k in p0 && p0[k] == l && k in depth && l in depth && depth[k] == depth[l] + 1
  {
    forall k | k in c0[l] ensures k in p0 && p0[k] == l && k in depth && l in depth && depth[k] == depth[l] + 1 {
      var i :| 0 <= i < |c0[l]| && c0[l][i] == k;
    }
  }

  /** Three adjacent same-level lists `prev`, `l`, `next` under one parent. */
  ghost predicate SiblingLists(n0: map<Key, Node>, p0: map<Key, Key>, c0: map<Key, seq<Key>>, depth: map<Key, nat>,
                               prev: Key, l: Key, next: Key)
  {
    && Start(n0, p0, c0, depth, prev, l) && p0.Keys <= n0.Keys
    && next in n0 && n0[next].List? && next != l && next != prev
    && prev in p0 && l in p0 && next in p0 && p0[prev] == p0[l] && p0[next] == p0[l]
  }

  /** What the first merge of autoMergeSiblingLists, of `prev` with `l`,
      leaves of `prev`, `l` and `next`. */
  lemma FirstMergeFacts(n0: map<Key, Node>, p0: map<Key, Key>, c0: map<Key, seq<Key>>,
                        n1: map<Key, Node>, p1: map<Key, Key>, c1: map<Key, seq<Key>>,
                        depth: map<Key, nat>, prev: Key, l: Key, next: Key)
    requires SiblingLists(n0, p0, c0, depth, prev, l, next)
    requires Merged(n0, p0, c0, n1, p1, c1, depth, prev, l)
    ensures next in c1 && c1[next] == c0[next] && next in n1 && n1[next] == n0[next] && next in p1 && p1[next] == p0[next]
    ensures prev in c1 && prev in p1 && p1[prev] == p0[prev] && l in c1 && l !in p1
    ensures forall i :: 1 <= i < |c0[l]| ==> c0[l][i] in p1 && p1[c0[l][i]] == prev
    ensures forall k :: k in c0[next] ==> k in p0 && p0[k] == next && k in depth && depth[k] == depth[l] + 1
    ensures forall k :: k in c0[l] ==> k in p0 && p0[k] == l && k in depth && depth[k] == depth[l] + 1
  {
    SiblingKept(n0, p0, c0, n1, p1, c1, depth, prev, l, next);
    SiblingKept(n0, p0, c0, n1, p1, c1, depth, prev, l, prev);
    TailLands(n0, p0, c0, n1, p1, c1, depth, prev, l);
    ChildLevel(p0, c0, depth, next);
    ChildLevel(p0, c0, depth, l);
  }

  /** A node no deeper than the items of `l1`, other than `l2` and its old
      children, keeps its parent link through mergeLists(l1, l2). */
  lemma LinkKept(n1: map<Key, Node>, p1: map<Key, Key>, c1: map<Key, seq<Key>>,
                 n2: map<Key, Node>, p2: map<Key, Key>, c2: map<Key, seq<Key>>,
                 depth: map<Key, nat>, l1: Key, l2: Key, x: Key)
    requires l1 in c1 && l2 in c1 && l1 in depth && Merged(n1, p1, c1, n2, p2, c2, depth, l1, l2)
    requires x in depth && depth[x] <= depth[l1] + 1 && x != l2 && x !in c1[l2]
    ensures (x in p2 <==> x in p1) && (x in p1 ==> p2[x] == p1[x])
  {
    assert x !in {l2} + (set y | y in c1[l2]);
  }

  /** autoMergeSiblingLists as written, with both neighbours same-type lists:
      merging `prev` with `l` detaches `l`, and merging the detached `l` with
      `next` then moves `next`'s items under `l`, out of the document. */
  lemma AutoMergeAsWrittenLoses(n0: map<Key, Node>, p0: map<Key, Key>, c0: map<Key, seq<Key>>,
                                n1: map<Key, Node>, p1: map<Key, Key>, c1: map<Key, seq<Key>>,
                                n2: map<Key, Node>, p2: map<Key, Key>, c2: map<Key, seq<Key>>,
                                depth: map<Key, nat>, prev: Key, l: Key, next: Key)
    requires SiblingLists(n0, p0, c0, depth, prev, l, next)
    requires Merged(n0, p0, c0, n1, p1, c1, depth, prev, l)
    requires l in c1 && next in c1
    requires Merged(n1, p1, c1, n2, p2, c2, depth, l, next)
    ensures l !in p2 && next !in p2
    ensures forall i :: 1 <= i < |c0[next]| ==> c0[next][i] in p2 && p2[c0[next][i]] == l
  {
    FirstMergeFacts(n0, p0, c0, n1, p1, c1, depth, prev, l, next);
    TailLands(n1, p1, c1, n2, p2, c2, depth, l, next);
    assert l !in c1[next];
    LinkKept(n1, p1, c1, n2, p2, c2, depth, l, next, l);
  }

  /** The corrected autoMergeSiblingLists, with both neighbours same-type
      lists: `prev` stays where it was and collects the items of `l` and of
      `next`. */
  lemma AutoMergeCorrectedKeeps(n0: map<Key, Node>, p0: map<Key, Key>, c0: map<Key, seq<Key>>,
                                n1: map<Key, Node>, p1: map<Key, Key>, c1: map<Key, seq<Key>>,
                                n2: map<Key, Node>, p2: map<Key, Key>, c2: map<Key, seq<Key>>,
                                depth: map<Key, nat>, prev: Key, l: Key, next: Key)
    requires SiblingLists(n0, p0, c0, depth, prev, l, next)
    requires Merged(n0, p0, c0, n1, p1, c1, depth, prev, l)
    requires prev in c1 && next in c1
    requires Merged(n1, p1, c1, n2, p2, c2, depth, prev, next)
    ensures prev in p2 && p2[prev] == p0[prev] && l !in p2 && next !in p2
    ensures forall i :: 1 <= i < |c0[l]| ==> c0[l][i] in p2 && p2[c0[l][i]] == prev
    ensures forall i :: 1 <= i < |c0[next]| ==> c0[next][i] in p2 && p2[c0[next][i]] == prev
  {
    FirstMergeFacts(n0, p0, c0, n1, p1, c1, depth, prev, l, next);
    TailLands(n1, p1, c1, n2, p2, c2, depth, prev, next);
    assert prev !in c1[next] && l !in c1[next];
    LinkKept(n1, p1, c1, n2, p2, c2, depth, prev, next, prev);
    LinkKept(n1, p1, c1, n2, p2, c2, depth, prev, next, l);
    forall i | 1 <= i < |c0[l]| ensures c0[l][i] in p2 && p2[c0[l][i]] == prev {
      assert c0[l][i] in c0[l];
      LinkKept(n1, p1, c1, n2, p2, c2, depth, prev, next, c0[l][i]);
    }
  }

  /** The neighbour of `l` on one side (getPreviousSibling when `before`,
      getNextSibling otherwise), when it is a list of the same type as `l`. */
  function SameTypeSibling(d: Doc, l: Key, before: bool): (r: Option<Key>)
    reads d
    requires d.Valid() && d.IsList(l)
    ensures r.Some? ==> l in d.parent && r.value in d.parent && d.parent[r.value] == d.parent[l] && r.value != l
    ensures r.Some? ==> d.IsList(r.value) && d.node[r.value].listType == d.node[l].listType
    ensures r.Some? ==> r.value in (if before then d.PrevSiblings(l) else d.NextSiblings(l))
  {
    var s := if before then d.PrevSiblings(l) else d.NextSiblings(l);
    if s == [] then None
    else
      var k := if before then s[|s| - 1] else s[0];
      if SiblingOf(d, l, k) && d.IsList(k) && d.node[k].listType == d.node[l].listType then Some(k) else None
  }

  /** `k` is a sibling of `l` other than `l`. */
  predicate SiblingOf(d: Doc, l: Key, k: Key)
    reads d
  {
    l in d.parent && k in d.parent && d.parent[k] == d.parent[l] && k != l
  }

  /** Every sibling before `l` and every sibling after it are siblings of `l`
      other than `l`, and no node is on both sides. */
  lemma SidesOfSiblings(d: Doc, l: Key)
    requires d.Valid() && l in d.parent
    ensures forall k :: k in d.PrevSiblings(l) ==> SiblingOf(d, l, k) && k !in d.NextSiblings(l)
    ensures forall k :: k in d.NextSiblings(l) ==> SiblingOf(d, l, k)
  {
    var c := d.children[d.parent[l]];
    var pre, post := d.PrevSiblings(l), d.NextSiblings(l);
    assert c == pre + [l] + post;
    NoDupSides(pre, l, post);
    forall k | k in pre + post ensures k in d.parent && d.parent[k] == d.parent[l] {
      assert k in c;
    }
  }

  /** The two neighbours autoMergeSiblingLists looks at are distinct lists
      of `l`'s type, on the same level as `l`. */
  lemma NeighbourLists(d: Doc, l: Key, depth: map<Key, nat>, prev: Option<Key>, next: Option<Key>)
    requires d.Valid() && d.IsList(l) && Layered(d.parent, depth)
    requires prev == SameTypeSibling(d, l, true) && next == SameTypeSibling(d, l, false)
    ensures prev.Some? ==> l in depth && prev.value in depth && depth[prev.value] == depth[l]
    ensures next.Some? ==> l in depth && next.value in depth && depth[next.value] == depth[l]
    ensures prev.Some? && next.Some? ==> prev.value != next.value
  {
    if prev.Some? {
      assert prev.value in d.parent && l in d.parent;
    }
    if next.Some? {
      assert next.value in d.parent && l in d.parent;
    }
    if prev.Some? && next.Some? {
      SidesOfSiblings(d, l);
      assert prev.value in d.PrevSiblings(l) && next.value in d.NextSiblings(l);
    }
  }

  /** autoMergeSiblingLists as written (the transform run on every list):
      merge the previous sibling with `l` when it is a list of the same type,
      then `l` with the next sibling when that is one. With both neighbours
      merged, the first merge takes `l` out of the document and the second
      moves the items of `next` under the detached `l`. */
  method AutoMergeSiblingLists(d: Doc, l: Key, ghost depth: map<Key, nat>) returns (prev: Option<Key>, next: Option<Key>)
    requires d.Valid() && d.IsList(l) && Layered(d.parent, depth) && d.node.Keys <= depth.Keys
    modifies d
    ensures d.Valid() && d.next == old(d.next) && Layered(d.parent, depth)
    ensures prev == old(SameTypeSibling(d, l, true)) && next == old(SameTypeSibling(d, l, false))
    ensures prev.None? && next.None? ==> d.node == old(d.node) && d.parent == old(d.parent) && d.children == old(d.children)
    ensures prev.Some? && next.None? ==>
              && Merged(old(d.node), old(d.parent), old(d.children), d.node, d.parent, d.children, depth, prev.value, l)
              && Untouched(old(d.node), old(d.parent), old(d.children), d.node, d.parent, d.children,
                           Chain(old(d.node), old(d.parent), old(d.children), depth, prev.value, l))
    ensures prev.None? && next.Some? ==>
              && Merged(old(d.node), old(d.parent), old(d.children), d.node, d.parent, d.children, depth, l, next.value)
              && Untouched(old(d.node), old(d.parent), old(d.children), d.node, d.parent, d.children,
                           Chain(old(d.node), old(d.parent), old(d.children), depth, l, next.value))
    ensures prev.Some? && next.Some? ==> l !in d.parent && next.value !in d.parent
    ensures prev.Some? && next.Some? ==>
              forall i :: 1 <= i < |old(d.children[next.value])| ==>
                old(d.children[next.value])[i] in d.parent && d.parent[old(d.children[next.value])[i]] == l
  {
    prev := SameTypeSibling(d, l, true);
    next := SameTypeSibling(d, l, false);
    NeighbourLists(d, l, depth, prev, next);
    ghost var n0, p0, c0 := d.node, d.parent, d.children;
    if prev.Some? {
      MergeLists(d, prev.value, l, depth);
    }
    ghost var n1, p1, c1 := d.node, d.parent, d.children;
    if next.Some? {
      assert d.IsList(l) && d.IsList(next.value);
      MergeLists(d, l, next.value, depth);
      if prev.Some? {
        assert SiblingLists(n0, p0, c0, depth, prev.value, l, next.value);
        AutoMergeAsWrittenLoses(n0, p0, c0, n1, p1, c1, d.node, d.parent, d.children, depth, prev.value, l, next.value);
      }
    }
  }

  /** autoMergeSiblingLists with the second merge made into the list that
      survived the first: `prev` when it was merged with `l`, `l` otherwise.
      With both neighbours, `(n1, p1, c1)` is the state between the two
      merges: `prev` first takes the items of `l`, then those of `next`, and
      only the keys of the two merge chains change. */
  method AutoMergeSiblingListsCorrected(d: Doc, l: Key, ghost depth: map<Key, nat>)
    returns (prev: Option<Key>, next: Option<Key>,
             ghost n1: map<Key, Node>, ghost p1: map<Key, Key>, ghost c1: map<Key, seq<Key>>)
    requires d.Valid() && d.IsList(l) && Layered(d.parent, depth) && d.node.Keys <= depth.Keys
    modifies d
    ensures d.Valid() && d.next == old(d.next) && Layered(d.parent, depth)
    ensures prev == old(SameTypeSibling(d, l, true)) && next == old(SameTypeSibling(d, l, false))
    ensures prev.None? && next.None? ==> d.node == old(d.node) && d.parent == old(d.parent) && d.children == old(d.children)
    ensures prev.Some? && next.None? ==>
              && Merged(old(d.node), old(d.parent), old(d.children), d.node, d.parent, d.children, depth, prev.value, l)
              && Untouched(old(d.node), old(d.parent), old(d.children), d.node, d.parent, d.children,
                           Chain(old(d.node), old(d.parent), old(d.children), depth, prev.value, l))
    ensures prev.None? && next.Some? ==>
              && Merged(old(d.node), old(d.parent), old(d.children), d.node, d.parent, d.children, depth, l, next.value)
              && Untouched(old(d.node), old(d.parent), old(d.children), d.node, d.parent, d.children,
                           Chain(old(d.node), old(d.parent), old(d.children), depth, l, next.value))
    ensures prev.Some? && next.Some? ==>
              && Merged(old(d.node), old(d.parent), old(d.children), n1, p1, c1, depth, prev.value, l)
              && Untouched(old(d.node), old(d.parent), old(d.children), n1, p1, c1,
                           Chain(old(d.node), old(d.parent), old(d.children), depth, prev.value, l))
              && Start(n1, p1, c1, depth, prev.value, next.value)
              && Merged(n1, p1, c1, d.node, d.parent, d.children, depth, prev.value, next.value)
              && Untouched(n1, p1, c1, d.node, d.parent, d.children, Chain(n1, p1, c1, depth, prev.value, next.value))
    ensures prev.Some? && next.Some? ==>
              d.children[prev.value] == old(d.children[prev.value]) + MergedTail(old(d.node), old(d.children), prev.value, l)
                                        + MergedTail(n1, c1, prev.value, next.value)
    ensures prev.Some? && next.Some? ==>
              prev.value in d.parent && d.parent[prev.value] == old(d.parent[prev.value]) && l !in d.parent && next.value !in d.parent
    ensures prev.Some? && next.Some? ==>
              forall i :: 1 <= i < |old(d.children[l])| ==>
                old(d.children[l])[i] in d.parent && d.parent[old(d.children[l])[i]] == prev.value
    ensures prev.Some? && next.Some? ==>
              forall i :: 1 <= i < |old(d.children[next.value])| ==>
                old(d.children[next.value])[i] in d.parent && d.parent[old(d.children[next.value])[i]] == prev.value
  {
    prev := SameTypeSibling(d, l, true);
    next := SameTypeSibling(d, l, false);
    NeighbourLists(d, l, depth, prev, next);
    ghost var n0, p0, c0 := d.node, d.parent, d.children;
    n1, p1, c1 := n0, p0, c0;
    if prev.Some? {
      MergeLists(d, prev.value, l, depth);
      if next.Some? {
        n1, p1, c1 := d.node, d.parent, d.children;
        assert d.IsList(prev.value) && d.IsList(next.value);
        MergeLists(d, prev.value, next.value, depth);
        assert SiblingLists(n0, p0, c0, depth, prev.value, l, next.value);
        AutoMergeCorrectedKeeps(n0, p0, c0, n1, p1, c1, d.node, d.parent, d.children, depth, prev.value, l, next.value);
      }
    } else if next.Some? {
      MergeLists(d, l, next.value, depth);
    }
  }
}
