/**
 * insertList: turn the selected blocks into list items of a list of the
 * requested type. Blocks already inside a list item change the type of their
 * list ($changeListItemType); a block right under a root is wrapped into a
 * new list item inside a new list.
 */
module ListInsert {
  import opened Seqs
  import opened Tree
  import opened ListValues
  import opened ListWalks
  import opened ListSplit
  import opened ListRemove

  /** Where the climb of insertList from a leaf stops: at the first list item
      above it, at the first not yet handled block whose parent is a root, or
      nowhere. */
  datatype Stop = AtItem(item: Key) | AtBlock(block: Key) | Nowhere

  predicate ItemAt(node: map<Key, Node>, k: Key) { k in node && node[k].ListItem? }

  predicate ListAt(node: map<Key, Node>, k: Key) { k in node && node[k].List? }

  /** `k` is a block insertList may wrap: its parent is a root and it was not
      handled yet. */
  predicate Opens(node: map<Key, Node>, parent: map<Key, Key>, k: Key, handled: set<Key>)
  {
    k in parent && parent[k] in node && node[parent[k]].Root? && k !in handled
  }

  /** The climb from `k` upward. */
  function ClimbStop(node: map<Key, Node>, parent: map<Key, Key>, k: Key, handled: set<Key>, ghost rank: map<Key, nat>): (r: Stop)
    requires Ranked(parent, rank)
    ensures r.AtItem? ==> ItemAt(node, r.item)
    ensures r.AtBlock? ==> Opens(node, parent, r.block, handled) && !ItemAt(node, r.block)
    ensures r.AtBlock? ==> k in rank && r.block in rank && rank[r.block] <= rank[k]
    decreases if k in rank then rank[k] else 0
  {
    if ItemAt(node, k) then AtItem(k)
    else if k !in parent then Nowhere
    else if Opens(node, parent, k, handled) then AtBlock(k)
    else ClimbStop(node, parent, parent[k], handled, rank)
  }

  /** The climb insertList starts at the parent of a leaf. */
  function LeafStop(node: map<Key, Node>, parent: map<Key, Key>, leaf: Key, handled: set<Key>, ghost rank: map<Key, nat>): (r: Stop)
    requires Ranked(parent, rank)
  {
    if leaf in parent then ClimbStop(node, parent, parent[leaf], handled, rank) else Nowhere
  }

  /** Nothing among `s[..i]` stops the climb. */
  predicate PassesBefore(node: map<Key, Node>, parent: map<Key, Key>, s: seq<Key>, handled: set<Key>, i: nat)
  {
    forall j :: 0 <= j < i && j < |s| ==> !ItemAt(node, s[j]) && !Opens(node, parent, s[j], handled)
  }

  /** PassesBefore past a first element. */
  lemma PassesShift(node: map<Key, Node>, parent: map<Key, Key>, k: Key, q: seq<Key>, handled: set<Key>, i: nat)
    ensures PassesBefore(node, parent, [k] + q, handled, i + 1)
            <==> !ItemAt(node, k) && !Opens(node, parent, k, handled) && PassesBefore(node, parent, q, handled, i)
  {
    var p := [k] + q;
    if !ItemAt(node, k) && !Opens(node, parent, k, handled) && PassesBefore(node, parent, q, handled, i) {
      forall j | 0 <= j < i + 1 && j < |p| ensures !ItemAt(node, p[j]) && !Opens(node, parent, p[j], handled) {
        if j > 0 { assert p[j] == q[j - 1]; }
      }
    }
    if PassesBefore(node, parent, p, handled, i + 1) {
      assert p[0] == k;
      forall j | 0 <= j < i && j < |q| ensures !ItemAt(node, q[j]) && !Opens(node, parent, q[j], handled) {
        assert q[j] == p[j + 1];
      }
    }
  }

  /** The climb stops at the first node of the path up from `k` that is a
      list item or a block insertList may wrap, and stops nowhere exactly
      when the path has none. */
  lemma {:induction false} ClimbStopFirst(node: map<Key, Node>, parent: map<Key, Key>, k: Key, handled: set<Key>, rank: map<Key, nat>)
    requires Ranked(parent, rank)
    ensures var s, r := Path(parent, rank, k), ClimbStop(node, parent, k, handled, rank);
            && (r.Nowhere? <==> PassesBefore(node, parent, s, handled, |s|))
            && (r.AtItem? ==> exists i :: 0 <= i < |s| && s[i] == r.item && PassesBefore(node, parent, s, handled, i))
            && (r.AtBlock? ==> exists i :: 0 <= i < |s| && s[i] == r.block && PassesBefore(node, parent, s, handled, i))
    decreases if k in rank then rank[k] else 0
  {
    var s := Path(parent, rank, k);
    var r := ClimbStop(node, parent, k, handled, rank);
    assert s[0] == k;
    if ItemAt(node, k) || Opens(node, parent, k, handled) {
      assert PassesBefore(node, parent, s, handled, 0);
      assert !PassesBefore(node, parent, s, handled, |s|);
    } else if k !in parent {
      assert s == [k];
    } else {
      var up := parent[k];
      ClimbStopFirst(node, parent, up, handled, rank);
      var q := Path(parent, rank, up);
      assert s == [k] + q;
      PassesShift(node, parent, k, q, handled, |q|);
      if r.AtItem? {
        var i :| 0 <= i < |q| && q[i] == r.item && PassesBefore(node, parent, q, handled, i);
        PassesShift(node, parent, k, q, handled, i);
        assert s[i + 1] == r.item;
      } else if r.AtBlock? {
        var i :| 0 <= i < |q| && q[i] == r.block && PassesBefore(node, parent, q, handled, i);
        PassesShift(node, parent, k, q, handled, i);
        assert s[i + 1] == r.block;
      }
    }
  }

  /** The climbing loop of insertList for one leaf. */
  method Climb(d: Doc, leaf: Key, handled: set<Key>, ghost rank: map<Key, nat>) returns (s: Stop)
    requires Ranked(d.parent, rank)
    ensures s == LeafStop(d.node, d.parent, leaf, handled, rank)
  {
    if leaf !in d.parent {
      return Nowhere;
    }
    var k := d.parent[leaf];
    while true
      invariant k in rank && ClimbStop(d.node, d.parent, k, handled, rank) == LeafStop(d.node, d.parent, leaf, handled, rank)
      decreases rank[k]
    {
      if d.IsListItem(k) {
        return AtItem(k);
      }
      if k !in d.parent {
        return Nowhere;
      }
      if d.IsRoot(d.parent[k]) && k !in handled {
        return AtBlock(k);
      }
      k := d.parent[k];
    }
  }

  /** The wrapping step of insertList: a new list of type `lt` goes right
      before the block `b`, and `b` moves into a new list item inside it. */
  method WrapBlock(d: Doc, b: Key, lt: ListType) returns (nl: Key, ni: Key)
    requires d.Valid() && b in d.parent
    modifies d
    ensures d.Valid() && nl == old(d.next) && ni == nl + 1 && d.next == ni + 1
    ensures d.node == old(d.node)[nl := List(lt, 1)][ni := ListItem(1, 0, 0, false)]
    ensures d.parent == old(d.parent)[nl := old(d.parent[b])][b := ni][ni := nl]
    ensures var r := old(d.parent[b]);
            && r in old(d.children) && b in old(d.children[r])
            && d.children == old(d.children)[r := Replaced(old(d.children[r]), b, nl)][nl := [ni]][ni := [b]]
  {
    ghost var p0, c0 := d.parent, d.children;
    var r := d.parent[b];
    FreshNotChild(d.node, d.parent, d.children, d.next, r, d.next);
    FreshNotChild(d.node, d.parent, d.children, d.next, r, d.next + 1);
    nl := d.Create(List(lt, 1));
    ni := d.Create(ListItem(1, 0, 0, false));
    ghost var c1 := d.children;
    d.InsertBefore(b, nl);
    ghost var c2 := d.children;
    d.Append(ni, b);
    ghost var c3 := d.children;
    d.Append(nl, ni);
    assert NoDup(c0[r]);
    WrapChildren(p0, c0, c1, c2, c3, d.children, r, b, nl, ni);
  }

  /** The children maps through the three moves of WrapBlock. */
  lemma WrapChildren(p0: map<Key, Key>, c0: map<Key, seq<Key>>, c1: map<Key, seq<Key>>, c2: map<Key, seq<Key>>,
                     c3: map<Key, seq<Key>>, c4: map<Key, seq<Key>>, r: Key, b: Key, nl: Key, ni: Key)
    requires b in p0 && p0[b] == r && r in c0 && b in c0[r] && NoDup(c0[r])
    requires nl !in c0 && ni !in c0 && nl != ni && nl !in p0 && ni !in p0 && nl !in c0[r]
    requires c1 == c0[nl := []][ni := []]
    requires c2 == Placed(p0, c1, b, nl, false)
    requires c3 == Appended(p0[nl := r], c2, ni, b)
    requires c4 == Appended(p0[nl := r][b := ni], c3, nl, ni)
    ensures r in c0 && b in c0[r]
    ensures c4 == c0[r := Replaced(c0[r], b, nl)][nl := [ni]][ni := [b]]
  {
    assert r != nl && r != ni && b != nl && b != ni;
    assert c1[r] == c0[r];
    PlacedDetachedRaw(p0, c1, b, nl);
    var s1 := InsertedBefore(c0[r], b, nl);
    assert c2 == c1[r := s1];
    InsertBeforeThenDrop(c0[r], b, nl);
    var rep := Replaced(c0[r], b, nl);
    assert Unlinked(p0[nl := r], c2, b) == c2[r := rep];
    assert c2[ni] == [];
    var u := c2[r := rep];
    assert u[ni] + [b] == [b];
    assert c3 == u[ni := u[ni] + [b]];
    assert ni !in p0[nl := r][b := ni];
    assert c3[nl] == [];
    assert Unlinked(p0[nl := r][b := ni], c3, ni) == c3;
    assert c3[nl] + [ni] == [ni];
    assert c4 == c3[nl := [ni]];
    WrapUpdates(c0, r, nl, ni, s1, rep, [b], [ni]);
  }

  /** The map updates of WrapBlock, collected. */
  lemma WrapUpdates(c0: map<Key, seq<Key>>, r: Key, nl: Key, ni: Key, s1: seq<Key>, rep: seq<Key>, x: seq<Key>, y: seq<Key>)
    requires r != nl && r != ni && nl != ni
    ensures c0[nl := []][ni := []][r := s1][r := rep][ni := x][nl := y] == c0[r := rep][nl := y][ni := x]
  {
  }

  /** Placing a detached node before `ref` only touches `ref`'s parent. */
  lemma PlacedDetachedRaw(parent: map<Key, Key>, children: map<Key, seq<Key>>, ref: Key, k: Key)
    requires ref in parent && parent[ref] in children && ref in children[parent[ref]] && k !in parent
    ensures Placed(parent, children, ref, k, false) == children[parent[ref] := InsertedBefore(children[parent[ref]], ref, k)]
  {
  }

  /** Every child of a list is a list item: ListNode lets only list items in. */
  ghost predicate ListsHoldItems(node: map<Key, Node>, parent: map<Key, Key>)
  {
    forall y :: y in parent && parent[y] in node && node[parent[y]].List? ==> y in node && node[y].ListItem?
  }

  /** What a successful $changeListItemType did to `item` and its
      surroundings: old nodes keep their content, new nodes are lists, `item`
      is the only child of a new list of type `lt`, and the links of every
      node away from the item's old list and its parent are as before. */
  ghost predicate Rehomed(n0: map<Key, Node>, p0: map<Key, Key>, c0: map<Key, seq<Key>>, x0: Key,
                          n1: map<Key, Node>, p1: map<Key, Key>, c1: map<Key, seq<Key>>, item: Key, lt: ListType)
    requires item in p0 && p0[item] in p0
  {
    var list, gp := p0[item], p0[p0[item]];
    && NodesGrown(n0, n1, x0)
    && item in p1 && x0 <= p1[item] && p1[item] in n1 && n1[p1[item]] == List(lt, 1)
    && p1[item] in c1 && c1[p1[item]] == [item] && p1[item] in p1 && p1[p1[item]] == gp
    && (forall y :: y in p0 && y != item && y != list && p0[y] != list ==> y in p1 && p1[y] == p0[y])
    && (forall q :: q in c0 && q != list && q != gp ==> q in c1 && c1[q] == c0[q])
  }

  /** Old nodes keep their content and every new node, from key `x0` on, is a list. */
  ghost predicate NodesGrown(n0: map<Key, Node>, n1: map<Key, Node>, x0: Key)
  {
    && (forall k :: k in n0 ==> k in n1 && n1[k] == n0[k])
    && (forall k :: k in n1 && k !in n0 ==> x0 <= k && n1[k].List?)
  }

  lemma GrownOne(n0: map<Key, Node>, x0: Key, n: Node)
    requires x0 !in n0 && n.List?
    ensures NodesGrown(n0, n0[x0 := n], x0)
  {
  }

  lemma GrownTwo(n0: map<Key, Node>, x0: Key, n: Node, m: Node)
    requires x0 !in n0 && x0 + 1 !in n0 && n.List? && m.List?
    ensures NodesGrown(n0, n0[x0 := n][x0 + 1 := m], x0)
  {
  }

  /** Where each parent link points after $changeListItemType: as before;
      from `item` to a new list; from a new list to `gp`; or from a former
      child of `list` to a new list. */
  ghost predicate ParentsMoved(p0: map<Key, Key>, p1: map<Key, Key>, x0: Key, item: Key, list: Key, gp: Key)
  {
    forall y :: y in p1 ==>
      || (y in p0 && p1[y] == p0[y])
      || (y == item && x0 <= p1[y])
      || (x0 <= y && p1[y] == gp)
      || (y in p0 && p0[y] == list && x0 <= p1[y])
  }

  /** `rank` with every key from `x0` below `x1` at level `v`. */
  ghost function Lifted(rank: map<Key, nat>, x0: Key, x1: Key, v: nat): (r: map<Key, nat>)
    ensures forall k {:trigger k in r} :: k in r <==> k in rank || x0 <= k < x1
    ensures forall k :: k in rank && !(x0 <= k < x1) ==> r[k] == rank[k]
    ensures forall k :: x0 <= k < x1 ==> r[k] == v
    decreases x1 - x0
  {
    if x1 <= x0 then rank else Lifted(rank, x0, x1 - 1, v)[x1 - 1 := v]
  }

  /** After $changeListItemType the tree is still ranked, with the new lists
      at the level of the old one, and lists still hold only list items. */
  lemma MovedRanked(n0: map<Key, Node>, p0: map<Key, Key>, c0: map<Key, seq<Key>>, x0: Key,
                    n1: map<Key, Node>, p1: map<Key, Key>, x1: Key, rank: map<Key, nat>, item: Key, list: Key, gp: Key)
    requires Wf(n0, p0, c0, x0) && Ranked(p0, rank) && item in p0 && p0[item] == list && list in p0 && p0[list] == gp
    requires ParentsMoved(p0, p1, x0, item, list, gp) && x0 <= x1
    requires forall y :: y in p1 ==> y in n1 && y < x1 && p1[y] < x1
    requires NodesGrown(n0, n1, x0)
    ensures Ranked(p1, Lifted(rank, x0, x1, rank[list]))
    ensures ListsHoldItems(n0, p0) && n0[list].List? && n0[item].ListItem? ==> ListsHoldItems(n1, p1)
  {
    var r := Lifted(rank, x0, x1, rank[list]);
    forall y | y in p1 ensures y in r && p1[y] in r && r[p1[y]] < r[y] {
      if y in p0 && p1[y] == p0[y] {
        assert y in n0 && p0[y] in c0;
      } else if y == item && x0 <= p1[y] {
      } else if x0 <= y && p1[y] == gp {
        assert gp in c0;
      } else {
        assert y in n0;
      }
    }
    if ListsHoldItems(n0, p0) && n0[list].List? && n0[item].ListItem? {
      assert list in n0 && gp in c0;
      assert !n0[gp].List?;
      forall y | y in p1 && p1[y] in n1 && n1[p1[y]].List? ensures y in n1 && n1[y].ListItem? {
        if y < x0 {
          assert y in n0;
        } else {
          assert false;
        }
      }
    }
  }

  /** $changeListItemType on the first child of its list, as Rehomed says. */
  lemma FirstRehomed(n0: map<Key, Node>, p0: map<Key, Key>, c0: map<Key, seq<Key>>, x0: Key,
                     n1: map<Key, Node>, p1: map<Key, Key>, c1: map<Key, seq<Key>>, item: Key, lt: ListType, nl: Key)
    requires Wf(n0, p0, c0, x0) && item in p0 && p0[item] in p0
    requires nl == x0 && n1 == n0[nl := List(lt, 1)] && FirstOut(p0, c0, p1, c1, p0[item], item, nl)
    ensures Rehomed(n0, p0, c0, x0, n1, p1, c1, item, lt) && ParentsMoved(p0, p1, x0, item, p0[item], p0[p0[item]])
  {
    assert nl !in c0 && nl !in p0 && nl !in n0;
    GrownOne(n0, x0, List(lt, 1));
  }

  /** $changeListItemType on the last child of its list, as Rehomed says. */
  lemma LastRehomed(n0: map<Key, Node>, p0: map<Key, Key>, c0: map<Key, seq<Key>>, x0: Key,
                    n1: map<Key, Node>, p1: map<Key, Key>, c1: map<Key, seq<Key>>, item: Key, lt: ListType, nl: Key)
    requires Wf(n0, p0, c0, x0) && item in p0 && p0[item] in p0
    requires nl == x0 && n1 == n0[nl := List(lt, 1)] && LastOut(p0, c0, p1, c1, p0[item], item, nl)
    ensures Rehomed(n0, p0, c0, x0, n1, p1, c1, item, lt) && ParentsMoved(p0, p1, x0, item, p0[item], p0[p0[item]])
  {
    assert nl !in c0 && nl !in p0 && nl !in n0;
    GrownOne(n0, x0, List(lt, 1));
  }

  /** $changeListItemType on a middle child of its list, as Rehomed says. */
  lemma MiddleRehomed(n0: map<Key, Node>, p0: map<Key, Key>, c0: map<Key, seq<Key>>, x0: Key,
                      n1: map<Key, Node>, p1: map<Key, Key>, c1: map<Key, seq<Key>>, item: Key, lt: ListType,
                      nl: Key, lt0: ListType, pre: seq<Key>, post: seq<Key>)
    requires Wf(n0, p0, c0, x0) && item in p0 && p0[item] in p0
    requires nl == x0 + 1 && n1 == n0[x0 := List(lt0, 1)][nl := List(lt, 1)]
    requires MiddleOut(p0, c0, p1, c1, p0[item], item, x0, nl, pre, post)
    ensures Rehomed(n0, p0, c0, x0, n1, p1, c1, item, lt) && ParentsMoved(p0, p1, x0, item, p0[item], p0[p0[item]])
  {
    var list := p0[item];
    var gp := p0[list];
    assert nl !in c0 && nl !in p0 && x0 !in c0 && x0 !in p0 && x0 !in n0 && nl !in n0;
    GrownTwo(n0, x0, List(lt0, 1), List(lt, 1));
    forall y | y in post ensures y in p0 && p0[y] == list {
      var t :| 0 <= t < |post| && post[t] == y;
      assert c0[list][|pre| + 1 + t] == y;
    }
    MiddleKids(c0, c1, list, gp, item, x0, nl, pre, post, InsertedAfter(InsertedAfter(c0[gp], list, x0), list, nl));
    MiddleParents(p0, p1, list, gp, item, x0, nl, post);
  }

  /** The children maps of MiddleRehomed. */
  lemma MiddleKids(c0: map<Key, seq<Key>>, c1: map<Key, seq<Key>>, list: Key, gp: Key, item: Key, tail: Key, nl: Key,
                   pre: seq<Key>, post: seq<Key>, g: seq<Key>)
    requires nl !in c0 && tail !in c0 && tail != nl && gp != nl
    requires c1 == c0[list := pre][tail := post][nl := [item]][gp := g]
    ensures nl in c1 && c1[nl] == [item]
    ensures forall q :: q in c0 && q != list && q != gp ==> q in c1 && c1[q] == c0[q]
  {
  }

  /** The parent maps of MiddleRehomed. */
  lemma MiddleParents(p0: map<Key, Key>, p1: map<Key, Key>, list: Key, gp: Key, item: Key, tail: Key, nl: Key, post: seq<Key>)
    requires nl !in p0 && tail !in p0 && nl == tail + 1 && item in p0 && p0[item] == list
    requires forall y :: y in post ==> y in p0 && p0[y] == list
    requires p1 == Moved(p0, post, tail)[tail := gp][item := nl][nl := gp]
    ensures item in p1 && p1[item] == nl
    ensures forall y :: y in p0 && y != item && y != list && p0[y] != list ==> y in p1 && p1[y] == p0[y]
    ensures ParentsMoved(p0, p1, tail, item, list, gp)
  {
    forall y | y in p1 ensures || (y in p0 && p1[y] == p0[y])
                               || (y == item && tail <= p1[y])
                               || (tail <= y && p1[y] == gp)
                               || (y in p0 && p0[y] == list && tail <= p1[y]) {
      MovedAt(p0, post, tail, y);
    }
    forall y | y in p0 && y != item && y != list && p0[y] != list ensures y in p1 && p1[y] == p0[y] {
      MovedAt(p0, post, tail, y);
    }
  }

  /** `t` is a list item alone in a list of type `lt`: what insertList makes
      of every list item it reaches. */
  ghost predicate Converted(node: map<Key, Node>, parent: map<Key, Key>, children: map<Key, seq<Key>>, t: Key, lt: ListType)
  {
    && ItemAt(node, t) && t in parent && ListAt(node, parent[t]) && node[parent[t]].listType == lt
    && parent[t] in children && children[parent[t]] == [t]
  }

  /** Every converted list item stays converted. */
  ghost predicate ConvertedKept(n0: map<Key, Node>, p0: map<Key, Key>, c0: map<Key, seq<Key>>,
                                n1: map<Key, Node>, p1: map<Key, Key>, c1: map<Key, seq<Key>>, lt: ListType)
  {
    forall t :: Converted(n0, p0, c0, t, lt) ==> Converted(n1, p1, c1, t, lt)
  }

  /** Nodes keep their content, and every block that is neither a list nor a
      list item keeps its parent link, except the blocks of `ex`. */
  ghost predicate BlocksUnmoved(n0: map<Key, Node>, p0: map<Key, Key>, n1: map<Key, Node>, p1: map<Key, Key>, ex: set<Key>)
  {
    && (forall y :: y in n0 ==> y in n1 && n1[y] == n0[y])
    && (forall y :: y in n0 && !n0[y].ListItem? && !n0[y].List? && y !in ex ==>
          (y in p1 <==> y in p0) && (y in p0 ==> p1[y] == p0[y]))
  }

  /** $changeListItemType moves no block that is neither a list nor a list item. */
  lemma RehomeUnmoved(n0: map<Key, Node>, p0: map<Key, Key>, c0: map<Key, seq<Key>>, x0: Key,
                      n1: map<Key, Node>, p1: map<Key, Key>, c1: map<Key, seq<Key>>, item: Key, lt: ListType)
    requires Wf(n0, p0, c0, x0) && item in p0 && p0[item] in p0 && ListAt(n0, p0[item]) && ItemAt(n0, item)
    requires ListsHoldItems(n0, p0)
    requires Rehomed(n0, p0, c0, x0, n1, p1, c1, item, lt) && ParentsMoved(p0, p1, x0, item, p0[item], p0[p0[item]])
    ensures BlocksUnmoved(n0, p0, n1, p1, {})
  {
    forall y | y in n0 && !n0[y].ListItem? && !n0[y].List? ensures (y in p1 <==> y in p0) && (y in p0 ==> p1[y] == p0[y]) {
      assert y < x0;
    }
  }

  /** $changeListItemType keeps every converted list item converted. */
  lemma RehomeConvertedKept(n0: map<Key, Node>, p0: map<Key, Key>, c0: map<Key, seq<Key>>, x0: Key,
                            n1: map<Key, Node>, p1: map<Key, Key>, c1: map<Key, seq<Key>>, item: Key, lt: ListType)
    requires Wf(n0, p0, c0, x0) && item in p0 && p0[item] in p0 && ListAt(n0, p0[item]) && ItemAt(n0, item)
    requires Rehomed(n0, p0, c0, x0, n1, p1, c1, item, lt)
    ensures Converted(n1, p1, c1, item, lt)
    ensures ConvertedKept(n0, p0, c0, n1, p1, c1, lt)
  {
    var list := p0[item];
    var gp := p0[list];
    assert item in c0[list] && list in c0[gp];
    forall t | Converted(n0, p0, c0, t, lt) ensures Converted(n1, p1, c1, t, lt) {
      if t != item {
        var l := p0[t];
        assert l != list;
        assert l != gp;
      }
    }
  }

  /** Reading the outcome of a successful ChangeListItemType, case by case. */
  lemma ChangeRehomed(n0: map<Key, Node>, p0: map<Key, Key>, c0: map<Key, seq<Key>>, x0: Key,
                      n1: map<Key, Node>, p1: map<Key, Key>, c1: map<Key, seq<Key>>, x1: Key,
                      item: Key, lt: ListType, nl: Key, first: bool, last: bool, lt0: ListType, pre: seq<Key>, post: seq<Key>)
    requires Wf(n0, p0, c0, x0) && item in p0 && p0[item] in p0
    requires first ==> && nl == x0 && x1 == nl + 1 && n1 == n0[nl := List(lt, 1)]
                       && FirstOut(p0, c0, p1, c1, p0[item], item, nl)
    requires !first && last ==> && nl == x0 && x1 == nl + 1 && n1 == n0[nl := List(lt, 1)]
                                && LastOut(p0, c0, p1, c1, p0[item], item, nl)
    requires !first && !last ==> && nl == x0 + 1 && x1 == nl + 1
                                 && n1 == n0[x0 := List(lt0, 1)][nl := List(lt, 1)]
                                 && MiddleOut(p0, c0, p1, c1, p0[item], item, x0, nl, pre, post)
    ensures x0 < x1 && Rehomed(n0, p0, c0, x0, n1, p1, c1, item, lt) && ParentsMoved(p0, p1, x0, item, p0[item], p0[p0[item]])
  {
    if first {
      FirstRehomed(n0, p0, c0, x0, n1, p1, c1, item, lt, nl);
    } else if last {
      LastRehomed(n0, p0, c0, x0, n1, p1, c1, item, lt, nl);
    } else {
      MiddleRehomed(n0, p0, c0, x0, n1, p1, c1, item, lt, nl, lt0, pre, post);
    }
  }

  /** $changeListItemType with what insertList needs to know of it. */
  method Rehome(d: Doc, item: Key, lt: ListType, ghost rank: map<Key, nat>) returns (r: Result<Key>, ghost rank1: map<Key, nat>)
    requires d.Valid() && Ranked(d.parent, rank) && d.IsListItem(item)
    modifies d
    ensures d.Valid() && Ranked(d.parent, rank1) && old(d.next) <= d.next
    ensures r.Err? ==> d.node == old(d.node) && d.parent == old(d.parent) && d.children == old(d.children) && d.next == old(d.next)
    ensures r.Err? <==> item !in old(d.parent) || !old(d.IsList(d.parent[item])) || old(d.parent[item]) !in old(d.parent)
    ensures r.Ok? ==> && item in old(d.parent) && old(d.parent[item]) in old(d.parent) && old(d.IsList(d.parent[item]))
                      && Rehomed(old(d.node), old(d.parent), old(d.children), old(d.next), d.node, d.parent, d.children, item, lt)
    ensures r.Ok? ==> Converted(d.node, d.parent, d.children, item, lt)
    ensures r.Ok? ==> ConvertedKept(old(d.node), old(d.parent), old(d.children), d.node, d.parent, d.children, lt)
    ensures r.Ok? && ListsHoldItems(old(d.node), old(d.parent)) ==> BlocksUnmoved(old(d.node), old(d.parent), d.node, d.parent, {})
    ensures ListsHoldItems(old(d.node), old(d.parent)) ==> ListsHoldItems(d.node, d.parent)
  {
    ghost var n0, p0, c0, x0 := d.node, d.parent, d.children, d.next;
    ghost var first := item in d.parent && d.FirstChild(d.parent[item]) == Some(item);
    ghost var last := item in d.parent && d.LastChild(d.parent[item]) == Some(item);
    ghost var pre := if item in d.parent then d.PrevSiblings(item) else [];
    ghost var post := if item in d.parent then d.NextSiblings(item) else [];
    ghost var lt0 := if item in d.parent && d.IsList(d.parent[item]) then d.node[d.parent[item]].listType else lt;
    r := ChangeListItemType(d, item, lt);
    if r.Err? {
      rank1 := rank;
      return;
    }
    var list := p0[item];
    ChangeRehomed(n0, p0, c0, x0, d.node, d.parent, d.children, d.next, item, lt, r.value, first, last, lt0, pre, post);
    MovedRanked(n0, p0, c0, x0, d.node, d.parent, d.next, rank, item, list, p0[list]);
    RehomeConvertedKept(n0, p0, c0, x0, d.node, d.parent, d.children, item, lt);
    if ListsHoldItems(n0, p0) {
      RehomeUnmoved(n0, p0, c0, x0, d.node, d.parent, d.children, item, lt);
    }
    rank1 := Lifted(rank, x0, d.next, rank[list]);
  }
}
