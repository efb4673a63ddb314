/**
 * Read-only walks over the document: the nearest list item at or above a
 * node ($getNearestNodeOfType), the outermost list above a node
 * ($getTopListNode), the block the selection's anchor sits in
 * ($getBlockNodeInsideList), the list items of a list in document order
 * ($getAllListItems), and the selection itself.
 */
module ListWalks {
  import opened Seqs
  import opened Tree
  import opened ListValues

  /** Every parent link goes strictly down in rank: the parent relation has
      no cycle, so every walk up the tree ends. */
  ghost predicate Ranked(parent: map<Key, Key>, rank: map<Key, nat>)
  {
    forall k {:trigger k in parent} :: k in parent ==> k in rank && parent[k] in rank && rank[parent[k]] < rank[k]
  }

  /** `k` followed by its ancestors, nearest first. */
  ghost function Path(parent: map<Key, Key>, rank: map<Key, nat>, k: Key): (r: seq<Key>)
    requires Ranked(parent, rank)
    ensures r != [] && r[0] == k && r[|r| - 1] !in parent
    ensures forall i :: 0 <= i < |r| - 1 ==> r[i] in parent && parent[r[i]] == r[i + 1]
    decreases if k in rank then rank[k] else 0
  {
    if k in parent then [k] + Path(parent, rank, parent[k]) else [k]
  }

  /** Going up never raises the rank. */
  lemma {:induction false} PathRank(parent: map<Key, Key>, rank: map<Key, nat>, x: Key, y: Key)
    requires Ranked(parent, rank) && x in rank && y in Path(parent, rank, x)
    ensures y in rank && rank[y] <= rank[x]
    ensures y != x ==> rank[y] < rank[x]
    decreases rank[x]
  {
    if y != x {
      PathRank(parent, rank, parent[x], y);
    }
  }

  /** An ancestor's ancestors are ancestors. */
  lemma {:induction false} PathTrans(parent: map<Key, Key>, rank: map<Key, nat>, x: Key, y: Key, z: Key)
    requires Ranked(parent, rank) && y in Path(parent, rank, x) && z in Path(parent, rank, y)
    ensures z in Path(parent, rank, x)
    decreases if x in rank then rank[x] else 0
  {
    if y != x {
      PathTrans(parent, rank, parent[x], y, z);
    }
  }

  /** Two ancestors of one node lie on one line: one is above the other. */
  lemma {:induction false} PathChain(parent: map<Key, Key>, rank: map<Key, nat>, x: Key, a: Key, b: Key)
    requires Ranked(parent, rank) && a in Path(parent, rank, x) && b in Path(parent, rank, x)
    ensures a in Path(parent, rank, b) || b in Path(parent, rank, a)
    decreases if x in rank then rank[x] else 0
  {
    if a != x && b != x {
      PathChain(parent, rank, parent[x], a, b);
    }
  }

  /** Two different children of one node have no common descendant. */
  lemma SiblingsApart(parent: map<Key, Key>, rank: map<Key, nat>, a: Key, b: Key, x: Key)
    requires Ranked(parent, rank) && a in parent && b in parent && parent[a] == parent[b] && a != b
    requires a in Path(parent, rank, x)
    ensures b !in Path(parent, rank, x)
  {
    if b in Path(parent, rank, x) {
      PathChain(parent, rank, x, a, b);
      if a in Path(parent, rank, b) {
        PathRank(parent, rank, parent[b], a);
      } else {
        PathRank(parent, rank, parent[a], b);
      }
    }
  }

  /** $getNearestNodeOfType(k, ListItemNode): `k` itself when it is a list
      item, else the nearest list item above it. */
  function NearestListItem(d: Doc, k: Key, ghost rank: map<Key, nat>): (r: Option<Key>)
    reads d
    requires Ranked(d.parent, rank)
    ensures r.Some? ==> d.IsListItem(r.value)
    decreases if k in rank then rank[k] else 0
  {
    if d.IsListItem(k) then Some(k)
    else if k in d.parent then NearestListItem(d, d.parent[k], rank)
    else None
  }

  /** The count ListItemNode.getIndent takes from `k`, the node holding an
      item's list: while `k` is a list item, count it and go up two levels,
      past its list to that list's holder. A missing parent on the way
      throws (getParentOrThrow). */
  function Nesting(node: map<Key, Node>, parent: map<Key, Key>, k: Key, ghost rank: map<Key, nat>): (r: Result<nat>)
    requires Ranked(parent, rank)
    ensures r.Err? ==> r.error == NoParent && k in node && node[k].ListItem?
    ensures r == Ok(0) <==> !(k in node && node[k].ListItem?)
    decreases if k in rank then rank[k] else 0
  {
    if !(k in node && node[k].ListItem?) then Ok(0)
    else if k !in parent || parent[k] !in parent then Err(NoParent)
    else
      var up := Nesting(node, parent, parent[parent[k]], rank);
      if up.Err? then up else Ok(up.value + 1)
  }

  /** ListItemNode.getIndent: a detached item reports its stored indent; an
      attached one counts the list items holding the lists above it
      (Nesting from its list's holder), and throws when its list has no
      parent. An item of a list that no list item holds is at indent 0. */
  function ItemIndent(node: map<Key, Node>, parent: map<Key, Key>, li: Key, ghost rank: map<Key, nat>): (r: Result<nat>)
    requires Ranked(parent, rank) && li in node && node[li].ListItem?
    ensures li !in parent ==> r == Ok(node[li].indent)
    ensures li in parent ==>
              (r == Ok(0) <==> parent[li] in parent && !(parent[parent[li]] in node && node[parent[parent[li]]].ListItem?))
    ensures li in parent && parent[li] !in parent ==> r == Err(NoParent)
    ensures r.Err? ==> r.error == NoParent
  {
    if li !in parent then Ok(node[li].indent)
    else if parent[li] !in parent then Err(NoParent)
    else Nesting(node, parent, parent[parent[li]], rank)
  }

  /** No list item among `s[..i]`. */
  predicate ItemFreeBefore(d: Doc, s: seq<Key>, i: nat)
    reads d
  {
    forall j :: 0 <= j < i && j < |s| ==> !d.IsListItem(s[j])
  }

  /** ItemFreeBefore past a first element. */
  lemma ItemFreeShift(d: Doc, k: Key, q: seq<Key>, i: nat)
    ensures ItemFreeBefore(d, [k] + q, i + 1) <==> !d.IsListItem(k) && ItemFreeBefore(d, q, i)
  {
    var p := [k] + q;
    if !d.IsListItem(k) && ItemFreeBefore(d, q, i) {
      forall j | 0 <= j < i + 1 && j < |p| ensures !d.IsListItem(p[j]) { if j > 0 { assert p[j] == q[j - 1]; } }
    }
    if ItemFreeBefore(d, p, i + 1) {
      assert p[0] == k;
      forall j | 0 <= j < i && j < |q| ensures !d.IsListItem(q[j]) { assert q[j] == p[j + 1]; }
    }
  }

  /** NearestListItem finds the first list item on the path up from `k`,
      and finds none exactly when the path holds none. */
  lemma {:induction false} NearestListItemFirst(d: Doc, k: Key, rank: map<Key, nat>)
    requires Ranked(d.parent, rank)
    ensures NearestListItem(d, k, rank).None? <==> ItemFreeBefore(d, Path(d.parent, rank, k), |Path(d.parent, rank, k)|)
    ensures NearestListItem(d, k, rank).Some? ==>
              exists i :: && 0 <= i < |Path(d.parent, rank, k)|
                          && Path(d.parent, rank, k)[i] == NearestListItem(d, k, rank).value
                          && d.IsListItem(Path(d.parent, rank, k)[i])
                          && ItemFreeBefore(d, Path(d.parent, rank, k), i)
    decreases if k in rank then rank[k] else 0
  {
    var p := Path(d.parent, rank, k);
    assert p[0] == k;
    if d.IsListItem(k) {
      assert !ItemFreeBefore(d, p, |p|);
      assert ItemFreeBefore(d, p, 0);
    } else if k in d.parent {
      NearestListItemFirst(d, d.parent[k], rank);
      var q := Path(d.parent, rank, d.parent[k]);
      assert p == [k] + q;
      ItemFreeShift(d, k, q, |q|);
      var r := NearestListItem(d, k, rank);
      assert r == NearestListItem(d, d.parent[k], rank);
      if r.Some? {
        var i :| 0 <= i < |q| && q[i] == r.value && d.IsListItem(q[i]) && ItemFreeBefore(d, q, i);
        ItemFreeShift(d, k, q, i);
        assert p[i + 1] == r.value;
      }
    } else {
      assert p == [k];
    }
  }

  /** The outermost list strictly above `k` (the walk of $getTopListNode). */
  function OutermostList(d: Doc, k: Key, ghost rank: map<Key, nat>): Option<Key>
    reads d
    requires Ranked(d.parent, rank)
    decreases if k in rank then rank[k] else 0
  {
    if k !in d.parent then None
    else
      match OutermostList(d, d.parent[k], rank)
      case Some(t) => Some(t)
      case None => if d.IsList(d.parent[k]) then Some(d.parent[k]) else None
  }

  /** No list among `s[i..]`. */
  predicate ListFreeFrom(d: Doc, s: seq<Key>, i: nat)
    reads d
  {
    forall j :: i <= j < |s| ==> !d.IsList(s[j])
  }

  /** Peeling one position off ListFreeFrom. */
  lemma ListFreeStep(d: Doc, s: seq<Key>, i: nat)
    requires i < |s|
    ensures ListFreeFrom(d, s, i) <==> !d.IsList(s[i]) && ListFreeFrom(d, s, i + 1)
  {
  }

  /** ListFreeFrom past a first element. */
  lemma ListFreeShift(d: Doc, k: Key, q: seq<Key>, i: nat)
    ensures ListFreeFrom(d, [k] + q, i + 1) <==> ListFreeFrom(d, q, i)
  {
    var p := [k] + q;
    if ListFreeFrom(d, q, i) {
      forall j | i + 1 <= j < |p| ensures !d.IsList(p[j]) { assert p[j] == q[j - 1]; }
    }
    if ListFreeFrom(d, p, i + 1) {
      forall j | i <= j < |q| ensures !d.IsList(q[j]) { assert q[j] == p[j + 1]; }
    }
  }

  /** OutermostList finds the last list on the path strictly above `k`, and
      finds none exactly when that part of the path holds none. */
  lemma {:induction false} OutermostListLast(d: Doc, k: Key, rank: map<Key, nat>)
    requires Ranked(d.parent, rank)
    ensures OutermostList(d, k, rank).None? <==> ListFreeFrom(d, Path(d.parent, rank, k), 1)
    ensures OutermostList(d, k, rank).Some? ==>
              exists i :: && 1 <= i < |Path(d.parent, rank, k)|
                          && Path(d.parent, rank, k)[i] == OutermostList(d, k, rank).value
                          && d.IsList(Path(d.parent, rank, k)[i])
                          && ListFreeFrom(d, Path(d.parent, rank, k), i + 1)
    decreases if k in rank then rank[k] else 0
  {
    var p := Path(d.parent, rank, k);
    if k in d.parent {
      var up := d.parent[k];
      OutermostListLast(d, up, rank);
      var q := Path(d.parent, rank, up);
      assert p == [k] + q;
      var above := OutermostList(d, up, rank);
      if above.Some? {
        var i :| 1 <= i < |q| && q[i] == above.value && d.IsList(q[i]) && ListFreeFrom(d, q, i + 1);
        ListFreeShift(d, k, q, i + 1);
        assert p[i + 1] == above.value;
        assert !ListFreeFrom(d, p, 1);
      } else {
        ListFreeShift(d, k, q, 1);
        assert q[0] == up && p[1] == up;
        ListFreeStep(d, p, 1);
      }
    } else {
      assert p == [k];
    }
  }

  /** The walk of $getBlockNodeInsideList: the first node on the path up
      from `k` whose parent is a list item. */
  function ClimbToItemChild(d: Doc, k: Key, ghost rank: map<Key, nat>): Option<Key>
    reads d
    requires Ranked(d.parent, rank)
    decreases if k in rank then rank[k] else 0
  {
    if k !in d.parent then None
    else if d.IsListItem(d.parent[k]) then Some(k)
    else ClimbToItemChild(d, d.parent[k], rank)
  }

  /** The climb stops at the child of the nearest list item strictly above
      `k`, on `k`'s path, and finds nothing exactly when there is none. */
  lemma {:induction false} ClimbFindsNearest(d: Doc, k: Key, rank: map<Key, nat>)
    requires Ranked(d.parent, rank)
    ensures ClimbToItemChild(d, k, rank).Some? <==> k in d.parent && NearestListItem(d, d.parent[k], rank).Some?
    ensures ClimbToItemChild(d, k, rank).Some? ==>
              var b := ClimbToItemChild(d, k, rank).value;
              && b in d.parent && d.parent[b] == NearestListItem(d, d.parent[k], rank).value
              && b in Path(d.parent, rank, k)
    decreases if k in rank then rank[k] else 0
  {
    if k in d.parent && !d.IsListItem(d.parent[k]) {
      var up := d.parent[k];
      ClimbFindsNearest(d, up, rank);
      assert Path(d.parent, rank, k) == [k] + Path(d.parent, rank, up);
      if ClimbToItemChild(d, up, rank).Some? {
        PathTrans(d.parent, rank, k, up, ClimbToItemChild(d, up, rank).value);
      }
    }
  }

  /** $getBlockNodeInsideList, on the anchor's node: the first child of a list
      item anchor; otherwise the node, on the way up from the anchor, whose
      parent is a list item. */
  function BlockNodeInsideList(d: Doc, anchor: Key, ghost rank: map<Key, nat>): Option<Key>
    reads d
    requires Ranked(d.parent, rank)
  {
    if d.IsListItem(anchor) then d.FirstChild(anchor) else ClimbToItemChild(d, anchor, rank)
  }

  /** Outside a list item anchor, the block is found exactly when the anchor
      has a list item above it, and it is the child of the nearest one that
      leads to the anchor. */
  lemma BlockUnderNearestItem(d: Doc, anchor: Key, rank: map<Key, nat>)
    requires Ranked(d.parent, rank)
    ensures d.IsListItem(anchor) ==> BlockNodeInsideList(d, anchor, rank) == d.FirstChild(anchor)
    ensures !d.IsListItem(anchor) ==>
              && (BlockNodeInsideList(d, anchor, rank).Some? <==> NearestListItem(d, anchor, rank).Some?)
              && (BlockNodeInsideList(d, anchor, rank).Some? ==>
                    var b := BlockNodeInsideList(d, anchor, rank).value;
                    b in d.parent && d.parent[b] == NearestListItem(d, anchor, rank).value && b in Path(d.parent, rank, anchor))
  {
    ClimbFindsNearest(d, anchor, rank);
  }

  datatype PointType = TextPoint | ElementPoint

  /** A selection endpoint: a node key, an offset in it and its kind. */
  datatype Point = Point(key: Key, offset: nat, kind: PointType)

  /** A range selection: anchor, focus, and the nodes it covers in document
      order (what getNodes returns). */
  datatype Selection = Selection(anchor: Point, focus: Point, nodes: seq<Key>)

  predicate IsCollapsed(s: Selection)
  {
    s.anchor == s.focus
  }

  /** $getNearestListItemNodesFromSelection: the nearest list item of every
      node the range selection covers (`sel` is None for any other kind of
      selection, which gives none). */
  method NearestListItemNodes(d: Doc, sel: Option<Selection>, ghost rank: map<Key, nat>) returns (r: set<Key>)
    requires Ranked(d.parent, rank)
    ensures sel.None? ==> r == {}
    ensures sel.Some? ==>
              forall k :: k in r <==> exists j :: 0 <= j < |sel.value.nodes| && NearestListItem(d, sel.value.nodes[j], rank) == Some(k)
    ensures forall k :: k in r ==> d.IsListItem(k)
  {
    r := {};
    if sel.None? {
      return;
    }
    var nodes := sel.value.nodes;
    var i := 0;
    while i < |nodes|
      invariant i <= |nodes|
      invariant forall k :: k in r <==> exists j :: 0 <= j < i && NearestListItem(d, nodes[j], rank) == Some(k)
    {
      var li := NearestListItem(d, nodes[i], rank);
      if li.Some? {
        r := r + {li.value};
      }
      i := i + 1;
    }
  }

  /** $isSelectingEmptyListItem: the anchor is a paragraph inside a list item
      and the selection covers nothing, or only the anchor, which is empty. */
  function IsSelectingEmptyListItem(d: Doc, anchor: Key, nodes: seq<Key>, ghost rank: map<Key, nat>): (r: bool)
    reads d
    requires Ranked(d.parent, rank)
    ensures r ==> anchor in d.parent && NearestListItem(d, d.parent[anchor], rank).Some?
    ensures r ==> anchor in d.node && d.node[anchor].Paragraph?
    ensures r ==> forall k :: k in nodes ==> k == anchor && d.Children(anchor) == []
  {
    && NearestListItem(d, anchor, rank).Some?
    && anchor in d.node && d.node[anchor].Paragraph?
    && (|nodes| == 0 || (|nodes| == 1 && nodes[0] == anchor && d.Children(anchor) == []))
  }

  /** The nodes of rank `lvl` or more: the measure of $getAllListItems. */
  ghost function Above(node: map<Key, Node>, rank: map<Key, nat>, lvl: nat): set<Key>
  {
    set k | k in node && k in rank && rank[k] >= lvl
  }

  lemma AboveShrinks(node: map<Key, Node>, rank: map<Key, nat>, lo: nat, hi: nat, w: Key)
    requires w in node && w in rank && lo <= rank[w] < hi
    ensures Above(node, rank, hi) < Above(node, rank, lo)
  {
    assert w in Above(node, rank, lo) && w !in Above(node, rank, hi);
  }

  /** A child sits strictly below its parent. */
  lemma ChildRanked(d: Doc, rank: map<Key, nat>, p: Key, i: nat)
    requires d.Valid() && Ranked(d.parent, rank) && p in d.children && i < |d.children[p]|
    ensures var c := d.children[p][i];
            c in d.node && c in d.parent && d.parent[c] == p && c in rank && p in rank && rank[p] < rank[c]
  {
  }

  /** $getAllListItems(l): the list items under `l` in document order, each
      item whose first child is a list replaced by that list's items. */
  function AllListItems(d: Doc, l: Key, ghost rank: map<Key, nat>): seq<Key>
    reads d
    requires d.Valid() && Ranked(d.parent, rank) && d.IsList(l) && l in rank
    decreases Above(d.node, rank, rank[l]), 1, 0
  {
    ItemsFrom(d, l, 0, rank)
  }

  /** What the children of `l` from position `i` on contribute. */
  function ItemsFrom(d: Doc, l: Key, i: nat, ghost rank: map<Key, nat>): seq<Key>
    reads d
    requires d.Valid() && Ranked(d.parent, rank) && d.IsList(l) && l in rank && i <= |d.children[l]|
    decreases Above(d.node, rank, rank[l]), 0, |d.children[l]| - i + 1
  {
    if i == |d.children[l]| then []
    else
      ChildRanked(d, rank, l, i);
      ItemsUnder(d, d.children[l][i], rank) + ItemsFrom(d, l, i + 1, rank)
  }

  /** What one child `c` of a list contributes: nothing unless it is a list
      item, the items of its nested list when its first child is a list,
      itself otherwise. */
  function ItemsUnder(d: Doc, c: Key, ghost rank: map<Key, nat>): seq<Key>
    reads d
    requires d.Valid() && Ranked(d.parent, rank) && c in d.parent && d.IsList(d.parent[c])
    decreases Above(d.node, rank, rank[d.parent[c]]), 0, 0
  {
    if !d.IsListItem(c) then []
    else if IsNestedItem(d.node, d.children, c) then
      ChildRanked(d, rank, c, 0);
      var m := d.children[c][0];
      AboveShrinks(d.node, rank, rank[d.parent[c]], rank[m], c);
      AllListItems(d, m, rank)
    else [c]
  }

  /** What $getAllListItems collects: list items that take an ordinal and
      sit in a list. */
  ghost predicate CollectedItem(d: Doc, x: Key)
    reads d
  {
    TakesOrdinal(d.node, d.children, x) && x in d.parent && d.IsList(d.parent[x])
  }

  lemma {:induction false} UnderMembers(d: Doc, c: Key, rank: map<Key, nat>)
    requires d.Valid() && Ranked(d.parent, rank) && c in d.parent && d.IsList(d.parent[c])
    ensures forall x :: x in ItemsUnder(d, c, rank) ==> CollectedItem(d, x) && c in Path(d.parent, rank, x)
    decreases Above(d.node, rank, rank[d.parent[c]]), 0, 0
  {
    if d.IsListItem(c) && IsNestedItem(d.node, d.children, c) {
      ChildRanked(d, rank, c, 0);
      var m := d.children[c][0];
      AboveShrinks(d.node, rank, rank[d.parent[c]], rank[m], c);
      AllMembers(d, m, rank);
      assert Path(d.parent, rank, m) == [m] + Path(d.parent, rank, c);
      forall x | x in AllListItems(d, m, rank) ensures c in Path(d.parent, rank, x) {
        assert Path(d.parent, rank, x) == [x] + Path(d.parent, rank, d.parent[x]);
        PathTrans(d.parent, rank, x, m, c);
      }
    } else if d.IsListItem(c) {
      assert Path(d.parent, rank, c)[0] == c;
    }
  }

  lemma {:induction false} FromMembers(d: Doc, l: Key, i: nat, rank: map<Key, nat>)
    requires d.Valid() && Ranked(d.parent, rank) && d.IsList(l) && l in rank && i <= |d.children[l]|
    ensures forall x :: x in ItemsFrom(d, l, i, rank) ==>
              && CollectedItem(d, x)
              && exists j :: i <= j < |d.children[l]| && d.children[l][j] in Path(d.parent, rank, x)
    decreases Above(d.node, rank, rank[l]), 0, |d.children[l]| - i + 1
  {
    if i < |d.children[l]| {
      var c := d.children[l][i];
      ChildRanked(d, rank, l, i);
      UnderMembers(d, c, rank);
      FromMembers(d, l, i + 1, rank);
      forall x | x in ItemsFrom(d, l, i, rank)
        ensures exists j :: i <= j < |d.children[l]| && d.children[l][j] in Path(d.parent, rank, x)
      {
        if x in ItemsUnder(d, c, rank) {
          assert d.children[l][i] in Path(d.parent, rank, x);
        }
      }
    }
  }

  /** Every key $getAllListItems(l) returns is a list item that takes an
      ordinal, sits in `l` or in a list nested under it. */
  lemma {:induction false} AllMembers(d: Doc, l: Key, rank: map<Key, nat>)
    requires d.Valid() && Ranked(d.parent, rank) && d.IsList(l) && l in rank
    ensures forall x :: x in AllListItems(d, l, rank) ==> CollectedItem(d, x) && l in Path(d.parent, rank, d.parent[x])
    decreases Above(d.node, rank, rank[l]), 1, 0
  {
    FromMembers(d, l, 0, rank);
    forall x | x in AllListItems(d, l, rank) ensures x in d.parent && l in Path(d.parent, rank, d.parent[x]) {
      var j :| 0 <= j < |d.children[l]| && d.children[l][j] in Path(d.parent, rank, x);
      var c := d.children[l][j];
      ChildRanked(d, rank, l, j);
      assert Path(d.parent, rank, c) == [c] + Path(d.parent, rank, l);
      PathTrans(d.parent, rank, x, c, l);
      assert Path(d.parent, rank, x) == [x] + Path(d.parent, rank, d.parent[x]);
    }
  }

  lemma {:induction false} UnderNoDup(d: Doc, c: Key, rank: map<Key, nat>)
    requires d.Valid() && Ranked(d.parent, rank) && c in d.parent && d.IsList(d.parent[c])
    ensures NoDup(ItemsUnder(d, c, rank))
    decreases Above(d.node, rank, rank[d.parent[c]]), 0, 0
  {
    if d.IsListItem(c) && IsNestedItem(d.node, d.children, c) {
      ChildRanked(d, rank, c, 0);
      var m := d.children[c][0];
      AboveShrinks(d.node, rank, rank[d.parent[c]], rank[m], c);
      AllNoDup(d, m, rank);
    }
  }

  lemma {:induction false} FromNoDup(d: Doc, l: Key, i: nat, rank: map<Key, nat>)
    requires d.Valid() && Ranked(d.parent, rank) && d.IsList(l) && l in rank && i <= |d.children[l]|
    ensures NoDup(ItemsFrom(d, l, i, rank))
    decreases Above(d.node, rank, rank[l]), 0, |d.children[l]| - i + 1
  {
    if i < |d.children[l]| {
      var c := d.children[l][i];
      ChildRanked(d, rank, l, i);
      UnderNoDup(d, c, rank);
      FromNoDup(d, l, i + 1, rank);
      UnderMembers(d, c, rank);
      FromMembers(d, l, i + 1, rank);
      var a, b := ItemsUnder(d, c, rank), ItemsFrom(d, l, i + 1, rank);
      forall x | x in a ensures x !in b {
        if x in b {
          var j :| i + 1 <= j < |d.children[l]| && d.children[l][j] in Path(d.parent, rank, x);
          ChildRanked(d, rank, l, j);
          assert c != d.children[l][j];
          SiblingsApart(d.parent, rank, c, d.children[l][j], x);
        }
      }
      NoDupConcat(a, b);
    }
  }

  /** $getAllListItems returns no item twice. */
  lemma {:induction false} AllNoDup(d: Doc, l: Key, rank: map<Key, nat>)
    requires d.Valid() && Ranked(d.parent, rank) && d.IsList(l) && l in rank
    ensures NoDup(AllListItems(d, l, rank))
    decreases Above(d.node, rank, rank[l]), 1, 0
  {
    FromNoDup(d, l, 0, rank);
  }
}
