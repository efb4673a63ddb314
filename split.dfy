/**
 * Splitting a list at an item, moving one item into a list of another type,
 * and building a list item around a fresh paragraph.
 */
module ListSplit {
  import opened Seqs
  import opened Tree
  import opened ListValues

  /** A node created by the engine: a detached node with no children. */
  predicate IsFreshNode(d: Doc, k: Key)
    reads d
  {
    k in d.node && k in d.children && d.children[k] == [] && k !in d.parent
  }

  /** A key at or beyond `next` occurs in no child list. */
  lemma FreshNotChild(node: map<Key, Node>, parent: map<Key, Key>, children: map<Key, seq<Key>>, next: Key, p: Key, k: Key)
    requires Wf(node, parent, children, next) && p in children && k >= next
    ensures k !in children[p] && k !in parent
  {
    forall j | 0 <= j < |children[p]| ensures children[p][j] != k {
      assert children[p][j] in parent;
    }
  }

  lemma SplitPrepare(node: map<Key, Node>, parent: map<Key, Key>, children: map<Key, seq<Key>>, next: Key, list: Key, at: nat)
    requires Wf(node, parent, children, next) && list in parent && list in children && at <= |children[list]|
    ensures next !in children[list][at..] && next !in children[parent[list]] && next !in parent
    ensures list !in children[list][at..]
  {
    FreshNotChild(node, parent, children, next, list, next);
    FreshNotChild(node, parent, children, next, parent[list], next);
    var s := children[list];
    forall j | at <= j < |s| ensures s[j] != list {
      assert s[j] in parent && parent[s[j]] == list;
    }
    forall x | x in s[at..] ensures x != list {
      var j :| 0 <= j < |s[at..]| && s[at..][j] == x;
      assert x == s[at + j];
    }
  }

  /** The state after the tail has moved: placing the new list after `list`
      gives the maps `SplitList` promises. */
  lemma SplitPlace(parent: map<Key, Key>, children: map<Key, seq<Key>>, nl: Key, list: Key, at: nat,
                   childrenA: map<Key, seq<Key>>, parent1: map<Key, Key>, children1: map<Key, seq<Key>>)
    requires Linked(parent1, children1) && list in parent && list in children && at <= |children[list]|
    requires nl !in children && nl !in parent && nl != list && nl !in children[list][at..]
    requires list !in children[list][at..] && parent[list] != list
    requires parent1 == Moved(parent, children[list][at..], nl)
    requires childrenA == children[nl := []]
    requires children1 == childrenA[list := childrenA[list][..at]][nl := childrenA[nl] + childrenA[list][at..]]
    ensures list in parent1 && parent1[list] == parent[list] && nl != parent1[list] && nl !in parent1
    ensures parent[list] in children
    ensures Placed(parent1, children1, list, nl, true)
         == children[list := children[list][..at]][nl := children[list][at..]]
                    [parent[list] := InsertedAfter(children[parent[list]], list, nl)]
  {
    var gp := parent[list];
    MovedAt(parent, children[list][at..], nl, list);
    MovedAt(parent, children[list][at..], nl, nl);
    SplitMaps(children, childrenA, children1, list, nl, at);
    PlacedDetached(parent1, children1, list, nl, true);
    assert children1[gp] == children[gp];
  }

  lemma SplitMaps(children: map<Key, seq<Key>>, childrenA: map<Key, seq<Key>>, children1: map<Key, seq<Key>>,
                  list: Key, nl: Key, at: nat)
    requires list in children && at <= |children[list]| && nl != list
    requires childrenA == children[nl := []]
    requires children1 == childrenA[list := childrenA[list][..at]][nl := childrenA[nl] + childrenA[list][at..]]
    ensures children1 == children[list := children[list][..at]][nl := children[list][at..]]
  {
    assert childrenA[list] == children[list] && childrenA[nl] + children[list][at..] == children[list][at..];
  }

  /** $splitList: the siblings after `item` move, in order, into a new list of
      the same type placed right after `list`. Fails when `item` is not a child
      of `list`; no change and no new list when `item` is the last child. */
  method SplitList(d: Doc, list: Key, item: Key) returns (r: Result<Option<Key>>)
    requires d.Valid() && d.IsList(list)
    modifies d
    ensures d.Valid()
    ensures r == Err(NotChildOfList) <==> old(d.ParentOf(item)) != Some(list)
    ensures r.Err? || r.value.None? ==> d.node == old(d.node) && d.parent == old(d.parent) && d.children == old(d.children) && d.next == old(d.next)
    ensures r == Ok(None) <==> old(d.ParentOf(item)) == Some(list) && old(d.NextSiblings(item)) == []
    ensures r == Err(NoParent) <==> old(d.ParentOf(item)) == Some(list) && old(d.NextSiblings(item)) != [] && list !in old(d.parent)
    ensures r.Ok? && r.value.Some? <==> old(d.ParentOf(item)) == Some(list) && old(d.NextSiblings(item)) != [] && list in old(d.parent)
    ensures r.Ok? && r.value.Some? ==>
      && list in old(d.parent) && item in old(d.parent)
      && r.value.value == old(d.next) && d.next == old(d.next) + 1
      && d.node == old(d.node)[r.value.value := List(old(d.node[list].listType), 1)]
      && d.children == old(d.children)[list := old(d.PrevSiblings(item)) + [item]]
                                      [r.value.value := old(d.NextSiblings(item))]
                                      [old(d.parent[list]) := InsertedAfter(old(d.children[d.parent[list]]), list, r.value.value)]
      && d.parent == Moved(old(d.parent), old(d.NextSiblings(item)), r.value.value)[r.value.value := old(d.parent[list])]
  {
    if item !in d.parent || d.parent[item] != list {
      return Err(NotChildOfList);
    }
    var siblings := d.NextSiblings(item);
    if siblings == [] {
      return Ok(None);
    }
    if list !in d.parent {
      return Err(NoParent);
    }
    var nl := SplitAfter(d, list, item);
    r := Ok(Some(nl));
  }

  /** The body of $splitList once its checks have passed. */
  method SplitAfter(d: Doc, list: Key, item: Key) returns (nl: Key)
    requires d.Valid() && d.IsList(list) && item in d.parent && d.parent[item] == list && list in d.parent && d.NextSiblings(item) != []
    modifies d
    ensures d.Valid()
    ensures nl == old(d.next) && d.next == old(d.next) + 1
    ensures d.node == old(d.node)[nl := List(old(d.node[list].listType), 1)]
    ensures d.children == old(d.children)[list := old(d.PrevSiblings(item)) + [item]]
                                         [nl := old(d.NextSiblings(item))]
                                         [old(d.parent[list]) := InsertedAfter(old(d.children[d.parent[list]]), list, nl)]
    ensures d.parent == Moved(old(d.parent), old(d.NextSiblings(item)), nl)[nl := old(d.parent[list])]
    ensures list in d.parent && d.parent[list] == old(d.parent[list]) && d.parent[item] == list
    ensures list < nl && item < nl && old(d.parent[list]) < nl && old(d.parent[list]) in old(d.children)
  {
    var gp := d.parent[list];
    var at := |d.PrevSiblings(item)| + 1;
    assert d.children[list][..at] == d.PrevSiblings(item) + [item] && d.children[list][at..] == d.NextSiblings(item);
    SplitPrepare(d.node, d.parent, d.children, d.next, list, at);
    KeyBelowNext(d.node, d.parent, d.children, d.next, gp);
    KeyBelowNext(d.node, d.parent, d.children, d.next, item);
    nl := d.Create(List(d.node[list].listType, 1));
    ghost var cA := d.children;
    d.MoveChildren(list, at, nl);
    SplitPlace(old(d.parent), old(d.children), nl, list, at, cA, d.parent, d.children);
    d.InsertAfter(list, nl);
  }

  /** The common step of $changeListItemType: a new list of type `lt` takes
      `item` as its only child and goes right before (or, when `after`, right
      after) the item's old list. */
  method NewListFor(d: Doc, item: Key, lt: ListType, after: bool) returns (nl: Key)
    requires d.Valid() && item in d.parent && d.parent[item] in d.parent
    modifies d
    ensures d.Valid()
    ensures nl == old(d.next) && d.next == nl + 1 && d.node == old(d.node)[nl := List(lt, 1)]
    ensures var list := old(d.parent[item]);
            var gp := old(d.parent[d.parent[item]]);
            && gp in old(d.children) && list in old(d.children[gp]) && list != gp
            && d.children == old(d.children)[list := Without(old(d.children[list]), item)][nl := [item]]
                 [gp := if after then InsertedAfter(old(d.children[gp]), list, nl) else InsertedBefore(old(d.children[gp]), list, nl)]
            && d.parent == old(d.parent)[item := nl][nl := gp]
  {
    var list := d.parent[item];
    var gp := d.parent[list];
    ghost var c0: map<Key, seq<Key>>, p0: map<Key, Key> := d.children, d.parent;
    ghost var pre, post := d.PrevSiblings(item), d.NextSiblings(item);
    WithoutHead(pre, item, post);
    FreshNotChild(d.node, d.parent, d.children, d.next, gp, d.next);
    FreshNotChild(d.node, d.parent, d.children, d.next, list, d.next);
    nl := d.Create(List(lt, 1));
    ghost var cA := d.children;
    d.Append(nl, item);
    ItemOutSteps(p0, c0, nl, item, pre, post, after, cA, d.parent, d.children);
    if after {
      d.InsertAfter(list, nl);
    } else {
      d.InsertBefore(list, nl);
    }
  }

  /** The maps after `item`, the first child of `list`, has moved into the
      fresh list `nl` placed before `list`; an emptied `list` is detached. */
  ghost predicate FirstOut(p0: map<Key, Key>, c0: map<Key, seq<Key>>, p1: map<Key, Key>, c1: map<Key, seq<Key>>,
                           list: Key, item: Key, nl: Key)
  {
    && list in p0 && list in c0 && p0[list] in c0 && list in c0[p0[list]] && c0[list] != [] && c0[list][0] == item
    && (if |c0[list]| == 1 then
          && c1 == c0[list := []][nl := [item]][p0[list] := Replaced(c0[p0[list]], list, nl)]
          && p1 == (p0 - {list})[item := nl][nl := p0[list]]
        else
          && c1 == c0[list := c0[list][1..]][nl := [item]][p0[list] := InsertedBefore(c0[p0[list]], list, nl)]
          && p1 == p0[item := nl][nl := p0[list]])
  }

  /** The maps after `item`, the last but not the first child of `list`, has
      moved into the fresh list `nl` placed right after `list`. */
  ghost predicate LastOut(p0: map<Key, Key>, c0: map<Key, seq<Key>>, p1: map<Key, Key>, c1: map<Key, seq<Key>>,
                          list: Key, item: Key, nl: Key)
  {
    && list in p0 && list in c0 && p0[list] in c0 && list in c0[p0[list]] && 1 < |c0[list]| && c0[list][|c0[list]| - 1] == item
    && c1 == c0[list := c0[list][..|c0[list]| - 1]][nl := [item]][p0[list] := InsertedAfter(c0[p0[list]], list, nl)]
    && p1 == p0[item := nl][nl := p0[list]]
  }

  /** The maps after `list` (children `pre + [item] + post`, `post` non-empty)
      was split into `list`, the fresh list `nl` holding `item` alone and the
      fresh list `tail` holding `post`, in that order. */
  ghost predicate MiddleOut(p0: map<Key, Key>, c0: map<Key, seq<Key>>, p1: map<Key, Key>, c1: map<Key, seq<Key>>,
                            list: Key, item: Key, tail: Key, nl: Key, pre: seq<Key>, post: seq<Key>)
  {
    && list in p0 && list in c0 && p0[list] in c0 && list in c0[p0[list]] && c0[list] == pre + [item] + post && post != []
    && c1 == c0[list := pre][tail := post][nl := [item]][p0[list] := InsertedAfter(InsertedAfter(c0[p0[list]], list, tail), list, nl)]
    && p1 == Moved(p0, post, tail)[tail := p0[list]][item := nl][nl := p0[list]]
  }

  /** $changeListItemType when `item` is the first child of its list: the new
      list goes before the old one, and an emptied old list is removed, so the
      new list takes its place. */
  method MoveFirstOut(d: Doc, list: Key, item: Key, lt: ListType) returns (nl: Key)
    requires d.Valid() && item in d.parent && d.parent[item] == list && list in d.parent && d.FirstChild(list) == Some(item)
    modifies d
    ensures d.Valid()
    ensures nl == old(d.next) && d.next == nl + 1 && d.node == old(d.node)[nl := List(lt, 1)]
    ensures FirstOut(old(d.parent), old(d.children), d.parent, d.children, list, item, nl)
  {
    var gp := d.parent[list];
    ghost var c0: map<Key, seq<Key>>, p0: map<Key, Key> := old(d.children), old(d.parent);
    ghost var rest := c0[list][1..];
    WithoutIndex(c0[list], 0);
    assert Without(c0[list], item) == rest;
    FreshNotChild(d.node, d.parent, d.children, d.next, gp, d.next);
    nl := NewListFor(d, item, lt, false);
    ghost var pC: map<Key, Key>, cC: map<Key, seq<Key>> := d.parent, d.children;
    assert list in c0 && list != nl && list != gp;
    RemoveIfEmpty(d, list);
    RemoveEmptied(p0, c0, pC, cC, d.parent, d.children, nl, item, list, gp, rest);
  }

  /** $changeListItemType when `item` is the last but not the first child of
      its list: the new list goes right after the old one, which keeps the
      items before `item` and so is not emptied. */
  method MoveLastOut(d: Doc, list: Key, item: Key, lt: ListType) returns (nl: Key)
    requires d.Valid() && item in d.parent && d.parent[item] == list && list in d.parent
    requires d.LastChild(list) == Some(item) && d.FirstChild(list) != Some(item)
    modifies d
    ensures d.Valid()
    ensures nl == old(d.next) && d.next == nl + 1 && d.node == old(d.node)[nl := List(lt, 1)]
    ensures LastOut(old(d.parent), old(d.children), d.parent, d.children, list, item, nl)
  {
    ghost var c0: map<Key, seq<Key>> := old(d.children);
    var last := |d.children[list]| - 1;
    WithoutIndex(c0[list], last);
    assert c0[list][last + 1..] == [] && c0[list][..last] + [] == c0[list][..last];
    nl := NewListFor(d, item, lt, true);
  }

  /** $changeListItemType when `item` is neither first nor last: the list is
      split after `item`, then `item` moves into a new list placed between the
      old list and the split-off tail. */
  method MoveMiddleOut(d: Doc, list: Key, item: Key, lt: ListType) returns (nl: Key, tail: Key)
    requires d.Valid() && item in d.parent && d.parent[item] == list && list in d.parent && d.IsList(list)
    requires d.LastChild(list) != Some(item) && d.FirstChild(list) != Some(item)
    modifies d
    ensures d.Valid()
    ensures tail == old(d.next) && nl == tail + 1 && d.next == nl + 1
    ensures d.node == old(d.node)[tail := List(old(d.node[list].listType), 1)][nl := List(lt, 1)]
    ensures MiddleOut(old(d.parent), old(d.children), d.parent, d.children, list, item, tail, nl,
                      old(d.PrevSiblings(item)), old(d.NextSiblings(item)))
  {
    ghost var c0: map<Key, seq<Key>>, p0: map<Key, Key> := old(d.children), old(d.parent);
    ghost var pre: seq<Key>, post: seq<Key> := old(d.PrevSiblings(item)), old(d.NextSiblings(item));
    NotLastHasTail(c0[list], pre, item, post);
    tail := SplitAfter(d, list, item);
    nl := MiddleNewList(d, list, item, lt, tail, c0, p0, pre, post);
  }

  /** The second half of MoveMiddleOut: after the split, `item` is the last
      child of `list`, and moves into a new list placed right after `list`. */
  method MiddleNewList(d: Doc, list: Key, item: Key, lt: ListType, tail: Key,
                       ghost c0: map<Key, seq<Key>>, ghost p0: map<Key, Key>, ghost pre: seq<Key>, ghost post: seq<Key>)
    returns (nl: Key)
    requires d.Valid() && d.next == tail + 1 && list in p0 && p0[list] in c0 && list in c0[p0[list]]
    requires d.children == c0[list := pre + [item]][tail := post][p0[list] := InsertedAfter(c0[p0[list]], list, tail)]
    requires d.parent == Moved(p0, post, tail)[tail := p0[list]]
    requires list in d.parent && d.parent[list] == p0[list] && item in d.parent && d.parent[item] == list
    requires list < tail && item < tail && p0[list] < tail
    modifies d
    ensures d.Valid()
    ensures nl == tail + 1 && d.next == nl + 1 && d.node == old(d.node)[nl := List(lt, 1)]
    ensures d.children == c0[list := pre][tail := post][nl := [item]]
                          [p0[list] := InsertedAfter(InsertedAfter(c0[p0[list]], list, tail), list, nl)]
    ensures d.parent == Moved(p0, post, tail)[tail := p0[list]][item := nl][nl := p0[list]]
  {
    ghost var c1: map<Key, seq<Key>>, p1: map<Key, Key> := d.children, d.parent;
    WithoutIndex(c1[list], |pre|);
    assert c1[list][..|pre|] + c1[list][|pre| + 1..] == pre;
    nl := NewListFor(d, item, lt, true);
    MiddleMaps(p0, c0, p1, c1, d.parent, d.children, list, item, tail, nl, pre, post);
  }

  /** $changeListItemType: `item` moves into a fresh list of type `lt`, which
      takes the item's place among the siblings of its old list. Fails when
      the item's parent is not a list, or when that list has no parent (the
      insertion next to it throws). Returns the fresh list. */
  method ChangeListItemType(d: Doc, item: Key, lt: ListType) returns (r: Result<Key>)
    requires d.Valid()
    modifies d
    ensures d.Valid()
    ensures r == Err(NotChildOfList) <==> item !in old(d.parent) || !old(d.IsList(d.parent[item]))
    ensures r == Err(NoParent) <==> item in old(d.parent) && old(d.IsList(d.parent[item])) && old(d.parent[item]) !in old(d.parent)
    ensures r.Err? ==> d.node == old(d.node) && d.parent == old(d.parent) && d.children == old(d.children) && d.next == old(d.next)
    ensures r.Err? ==> r.error == NotChildOfList || r.error == NoParent
    ensures r.Ok? && old(d.FirstChild(d.parent[item])) == Some(item) ==>
              && r.value == old(d.next) && d.next == r.value + 1 && d.node == old(d.node)[r.value := List(lt, 1)]
              && FirstOut(old(d.parent), old(d.children), d.parent, d.children, old(d.parent)[item], item, r.value)
    ensures r.Ok? && old(d.FirstChild(d.parent[item])) != Some(item) && old(d.LastChild(d.parent[item])) == Some(item) ==>
              && r.value == old(d.next) && d.next == r.value + 1 && d.node == old(d.node)[r.value := List(lt, 1)]
              && LastOut(old(d.parent), old(d.children), d.parent, d.children, old(d.parent)[item], item, r.value)
    ensures r.Ok? && old(d.FirstChild(d.parent[item])) != Some(item) && old(d.LastChild(d.parent[item])) != Some(item) ==>
              && r.value == old(d.next) + 1 && d.next == r.value + 1
              && d.node == old(d.node)[old(d.next) := List(old(d.node[d.parent[item]].listType), 1)][r.value := List(lt, 1)]
              && MiddleOut(old(d.parent), old(d.children), d.parent, d.children, old(d.parent)[item], item, old(d.next), r.value,
                           old(d.PrevSiblings(item)), old(d.NextSiblings(item)))
  {
    if item !in d.parent || !d.IsList(d.parent[item]) {
      return Err(NotChildOfList);
    }
    var list := d.parent[item];
    if list !in d.parent {
      return Err(NoParent);
    }
    var nl;
    if d.FirstChild(list) == Some(item) {
      nl := MoveFirstOut(d, list, item, lt);
    } else if d.LastChild(list) == Some(item) {
      nl := MoveLastOut(d, list, item, lt);
    } else {
      var tail;
      nl, tail := MoveMiddleOut(d, list, item, lt);
    }
    r := Ok(nl);
  }

  /** $createListItemWithParagraph: a fresh, detached list item of value 1
      holding a fresh, empty paragraph as its only child. Its first child is
      not a list, so in a list it takes an ordinal of its own. */
  method CreateListItemWithParagraph(d: Doc, checked: bool) returns (item: Key)
    requires d.Valid()
    modifies d
    ensures d.Valid()
    ensures item == old(d.next) && d.next == item + 2
    ensures d.node == old(d.node)[item := ListItem(1, 0, 0, checked)][item + 1 := Paragraph(0, 0)]
    ensures d.children == old(d.children)[item := [item + 1]][item + 1 := []]
    ensures d.parent == old(d.parent)[item + 1 := item] && item !in d.parent
    ensures d.IsListItem(item) && !IsNestedItem(d.node, d.children, item)
  {
    ghost var c0 := d.children;
    assert d.next !in d.parent && d.next + 1 !in d.parent;
    item := d.Create(ListItem(1, 0, 0, checked));
    var para := d.Create(Paragraph(0, 0));
    ghost var p1 := d.parent;
    d.AppendTo(item, para);
    AppendedToFresh(p1, c0, item, para);
  }

  /** Appending a detached, childless node to a childless node makes it the only child. */
  lemma AppendedToFresh(p: map<Key, Key>, c: map<Key, seq<Key>>, item: Key, para: Key)
    requires para !in p && item != para
    ensures Appended(p, c[item := []][para := []], item, para) == c[item := [para]][para := []]
  {
    var c1 := c[item := []][para := []];
    assert Unlinked(p, c1, para) == c1;
    assert c1[item] + [para] == [para];
  }

  lemma NotLastHasTail(s: seq<Key>, pre: seq<Key>, x: Key, post: seq<Key>)
    requires s == pre + [x] + post && s[|s| - 1] != x
    ensures post != []
  {
    assert s[|pre|] == x;
  }

  lemma MiddleMaps(parent0: map<Key, Key>, children0: map<Key, seq<Key>>, parent1: map<Key, Key>, children1: map<Key, seq<Key>>,
                   parent2: map<Key, Key>, children2: map<Key, seq<Key>>, list: Key, item: Key, tail: Key, nl: Key,
                   pre: seq<Key>, post: seq<Key>)
    requires list in parent0 && parent0[list] in children0 && list in children0[parent0[list]]
    requires list != parent0[list] && tail != list && nl != list && tail != nl
    requires tail != parent0[list] && nl != parent0[list] && item != list && item != tail && item != nl
    requires children1 == children0[list := pre + [item]][tail := post][parent0[list] := InsertedAfter(children0[parent0[list]], list, tail)]
    requires parent1 == Moved(parent0, post, tail)[tail := parent0[list]] && item in parent1 && parent1[item] == list
    requires Without(children1[list], item) == pre
    requires list in parent1 && parent1[list] == parent0[list]
    requires children2 == children1[list := Without(children1[list], item)][nl := [item]]
                                   [parent1[list] := InsertedAfter(children1[parent1[list]], list, nl)]
    requires parent2 == parent1[item := nl][nl := parent1[list]]
    ensures children2 == children0[list := pre][tail := post][nl := [item]]
              [parent0[list] := InsertedAfter(InsertedAfter(children0[parent0[list]], list, tail), list, nl)]
    ensures parent2 == Moved(parent0, post, tail)[tail := parent0[list]][item := nl][nl := parent0[list]]
  {
    var gp := parent0[list];
    assert children1[gp] == InsertedAfter(children0[gp], list, tail);
  }

  /** The `list.isEmpty()` / `list.remove()` step. */
  method RemoveIfEmpty(d: Doc, list: Key)
    requires d.Valid()
    modifies d
    ensures d.Valid() && d.node == old(d.node) && d.next == old(d.next)
    ensures old(d.Children(list)) == [] ==> d.parent == old(d.parent) - {list} && d.children == old(d.ChildrenWithout(list))
    ensures old(d.Children(list)) != [] ==> d.parent == old(d.parent) && d.children == old(d.children)
  {
    if d.Children(list) == [] {
      d.Remove(list);
    }
  }

  /** Moving `item` into the fresh list `nl` and placing `nl` next to the
      item's old list (before it, or after it when `after`). */
  lemma ItemOutSteps(parent0: map<Key, Key>, children0: map<Key, seq<Key>>, nl: Key, item: Key,
                     pre: seq<Key>, post: seq<Key>, after: bool,
                     childrenA: map<Key, seq<Key>>, parentB: map<Key, Key>, childrenB: map<Key, seq<Key>>)
    requires Linked(parent0, children0) && item in parent0 && parent0[item] in parent0
    requires children0[parent0[item]] == pre + [item] + post
    requires nl !in children0 && nl !in parent0 && nl !in children0[parent0[parent0[item]]]
    requires childrenA == children0[nl := []]
    requires parentB == parent0[item := nl] && Linked(parentB, childrenB)
    requires childrenB == Appended(parent0, childrenA, nl, item)
    ensures var list := parent0[item];
            var gp := parent0[list];
            && childrenB == children0[list := pre + post][nl := [item]]
            && list in parentB && parentB[list] == gp && nl != gp && nl != list && nl !in parentB
            && Placed(parentB, childrenB, list, nl, after)
               == children0[list := pre + post][nl := [item]]
                  [gp := if after then InsertedAfter(children0[gp], list, nl) else InsertedBefore(children0[gp], list, nl)]
  {
    var list := parent0[item];
    var gp := parent0[list];
    WithoutHead(pre, item, post);
    assert [] + [item] == [item];
    assert nl != list && childrenA[list] == children0[list];
    AppendedLinked(parent0, childrenA, nl, item);
    assert childrenB == children0[list := pre + post][nl := [item]];
    assert childrenB[gp] == children0[gp];
    PlacedDetached(parentB, childrenB, list, nl, after);
  }

  /** Removing the emptied list after the new one went before it: the new
      list takes the old one's place. */
  lemma RemoveEmptied(parent0: map<Key, Key>, children0: map<Key, seq<Key>>, parentC: map<Key, Key>, childrenC: map<Key, seq<Key>>,
                      parentD: map<Key, Key>, childrenD: map<Key, seq<Key>>, nl: Key, item: Key, list: Key, gp: Key, rest: seq<Key>)
    requires Linked(parent0, children0) && gp in children0 && list in children0[gp] && nl !in children0[gp]
    requires gp != list && gp != nl && list != nl && item != list
    requires childrenC == children0[list := rest][nl := [item]][gp := InsertedBefore(children0[gp], list, nl)]
    requires parentC == parent0[item := nl][nl := gp]
    requires list in parent0 && parent0[list] == gp
    requires rest == [] ==> parentD == parentC - {list} && childrenD == Unlinked(parentC, childrenC, list)
    requires rest != [] ==> parentD == parentC && childrenD == childrenC
    ensures rest == [] ==> childrenD == children0[list := []][nl := [item]][gp := Replaced(children0[gp], list, nl)]
    ensures rest == [] ==> parentD == (parent0 - {list})[item := nl][nl := gp]
  {
    if rest == [] {
      InsertBeforeThenDrop(children0[gp], list, nl);
      assert childrenC[list] == [];
      assert parentC - {list} == (parent0 - {list})[item := nl][nl := gp];
    }
  }
}
