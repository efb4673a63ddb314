/**
 * Indenting and outdenting a list item: $handleIndent wraps the item into a
 * fresh list-item/list chain under its previous sibling; $handleOutdent
 * moves a nested item out to just after the list item holding its list.
 */
module ListIndent {
  import opened Seqs
  import opened Tree
  import opened ListValues
  import opened ListWalks
  import opened ListSplit

  /** $handleIndent acts: the item does not hold only a nested list, and it
      is a child, but not the first, of a list. */
  predicate IndentApplies(d: Doc, item: Key)
    reads d
  {
    && !IsNestedItem(d.node, d.children, item)
    && item in d.parent && d.IsList(d.parent[item]) && d.FirstChild(d.parent[item]) != Some(item)
  }

  /** A key that is not the first child of its parent has a previous sibling. */
  lemma NotFirstHasPrev(d: Doc, item: Key)
    requires d.Valid() && item in d.parent && d.FirstChild(d.parent[item]) != Some(item)
    ensures d.PrevSiblings(item) != []
  {
  }

  /** $handleIndent: nothing happens unless IndentApplies; then, with `i`
      the item's position in its list and `cs` that list's children, the item
      becomes the only child of a fresh list of its list's type, held by a
      fresh list item appended to the item's previous sibling `cs[i - 1]`. The
      fresh list is renumbered, so the item's value becomes 1; the old list is
      not. */
  method HandleIndent(d: Doc, item: Key)
    requires d.Valid() && d.IsListItem(item)
    modifies d
    ensures d.Valid()
    ensures !old(IndentApplies(d, item)) ==>
              d.node == old(d.node) && d.parent == old(d.parent) && d.children == old(d.children) && d.next == old(d.next)
    ensures old(IndentApplies(d, item)) ==> Indented(old(d.node), old(d.parent), old(d.children), old(d.next), d.node, d.parent, d.children, d.next, item)
  {
    if !IndentApplies(d, item) {
      return;
    }
    var list := d.parent[item];
    var i := IndexOf(d.children[list], item);
    assert i != 0 by { assert d.children[list][0] != item; }
    Indent(d, list, item, i);
  }

  /** The state $handleIndent leaves when it acts: with `i` the item's
      position in its list `cs`, `prev` its previous sibling `cs[i - 1]` and
      `ni` the next fresh key, the item is the only child of the fresh list
      `ni + 1`, of its old list's type. That list was appended to the fresh
      item `ni`, and `ni` to `prev`: a list item `prev` merges `ni` into
      itself, so the fresh list ends `prev`'s children and `ni` is left
      detached and empty; any other `prev` holds `ni`. The item's value is
      1, the fresh list is renumbered, and nothing else moves. */
  ghost predicate Indented(n0: map<Key, Node>, p0: map<Key, Key>, c0: map<Key, seq<Key>>, x0: Key,
                           n: map<Key, Node>, p: map<Key, Key>, c: map<Key, seq<Key>>, x: Key, item: Key)
  {
    && item in p0 && p0[item] in c0 && p0[item] in n0 && item in n0 && item in c0[p0[item]]
    && n0[p0[item]].List? && n0[item].ListItem?
    && var list := p0[item];
       var cs := c0[list];
       var i := IndexOf(cs, item);
       var nl: Key := x0 + 1;
       && 0 < i && cs[i - 1] in c0 && cs[i - 1] in n0 && x == x0 + 2
       && var merged := n0[cs[i - 1]].ListItem?;
       && n == n0[x0 := ListItem(1, 0, 0, false)][nl := List(n0[list].listType, 1)][item := n0[item].(value := 1)]
       && c == Nested(c0, list, i, x0, item, merged)
       && p == NestedParents(p0, cs[i - 1], x0, item, merged)
       && Linked(p, c) && OrdinalsCurrent(n, p, c, nl)
  }

  /** $handleIndent once IndentApplies holds. */
  method Indent(d: Doc, list: Key, item: Key, i: nat)
    requires d.Valid() && d.IsListItem(item) && item in d.parent && list == d.parent[item] && d.IsList(list)
    requires 0 < i && i == IndexOf(d.children[list], item)
    modifies d
    ensures d.Valid()
    ensures Indented(old(d.node), old(d.parent), old(d.children), old(d.next), d.node, d.parent, d.children, d.next, item)
  {
    ghost var n0, p0, c0, x0 := d.node, d.parent, d.children, d.next;
    ghost var prev := d.children[list][i - 1];
    var ni, nl := NestUnder(d, list, item, i);
    ghost var n1, p1, c1 := d.node, d.parent, d.children;
    ghost var merged := n0[prev].ListItem?;
    assert n1 == n0[x0 := ListItem(1, 0, 0, false)][x0 + 1 := List(n0[list].listType, 1)];
    assert c1 == Nested(c0, list, i, x0, item, merged) && p1 == NestedParents(p0, prev, x0, item, merged);
    assert n1[item] == n0[item];
    RenumberSingle(d, nl, item);
    IndentedFrom(n0, p0, c0, x0, n1, p1, c1, d.node, d.parent, d.children, d.next, item, list, i, prev);
  }

  /** Indented, from the states NestUnder and RenumberSingle leave. */
  lemma IndentedFrom(n0: map<Key, Node>, p0: map<Key, Key>, c0: map<Key, seq<Key>>, x0: Key,
                     n1: map<Key, Node>, p1: map<Key, Key>, c1: map<Key, seq<Key>>,
                     n: map<Key, Node>, p: map<Key, Key>, c: map<Key, seq<Key>>, x: Key, item: Key,
                     list: Key, i: nat, prev: Key)
    requires Wf(n0, p0, c0, x0) && item in p0 && list == p0[item] && list in n0 && item in n0
    requires n0[list].List? && n0[item].ListItem? && i == IndexOf(c0[list], item)
    requires 0 < i && prev == c0[list][i - 1] && x == x0 + 2
    requires n1 == n0[x0 := ListItem(1, 0, 0, false)][x0 + 1 := List(n0[list].listType, 1)]
    requires c1 == Nested(c0, list, i, x0, item, n0[prev].ListItem?)
    requires p1 == NestedParents(p0, prev, x0, item, n0[prev].ListItem?)
    requires c == c1 && p == p1 && n == n1[item := n1[item].(value := 1)]
    requires Linked(p, c) && OrdinalsCurrent(n, p, c, x0 + 1)
    ensures Indented(n0, p0, c0, x0, n, p, c, x, item)
  {
    KeyBelowNext(n0, p0, c0, x0, item);
    assert prev in p0 && p0[prev] == list;
  }

  /** Renumbering a list whose only child is `item` (updateChildrenListItemValue
      on the fresh list): the item's value becomes the list's start, 1. */
  method RenumberSingle(d: Doc, nl: Key, item: Key)
    requires d.Valid() && d.IsList(nl) && d.node[nl].start == 1
    requires d.children[nl] == [item] && d.IsListItem(item)
    modifies d
    ensures d.Valid() && d.children == old(d.children) && d.parent == old(d.parent) && d.next == old(d.next)
    ensures d.node == old(d.node)[item := old(d.node[item]).(value := 1)]
    ensures OrdinalsCurrent(d.node, d.parent, d.children, nl)
  {
    assert item in d.children[nl];
    ghost var n1 := d.node;
    var r := UpdateChildrenListItemValue(d, nl, None);
    IndentValue(n1, d.node, d.parent, d.children, nl, item);
  }

  /** The structural half of $handleIndent: a fresh list item holding a fresh
      list of `list`'s type is appended to the item's previous sibling
      `prev`, and the item, child `i` of `list`, moves into that fresh list.
      Appending to a list item merges the fresh item into `prev`. */
  method NestUnder(d: Doc, list: Key, item: Key, i: nat) returns (ni: Key, nl: Key)
    requires d.Valid() && d.IsList(list) && 0 < i < |d.children[list]| && d.children[list][i] == item
    modifies d
    ensures d.Valid() && ni == old(d.next) && nl == ni + 1 && d.next == ni + 2
    ensures d.node == old(d.node)[ni := ListItem(1, 0, 0, false)][nl := List(old(d.node[list].listType), 1)]
    ensures nl in d.children && d.children[nl] == [item]
    ensures var prev := old(d.children[list][i - 1]);
            && d.children == Nested(old(d.children), list, i, ni, item, old(d.node[prev]).ListItem?)
            && d.parent == NestedParents(old(d.parent), prev, ni, item, old(d.node[prev]).ListItem?)
  {
    var prev := d.children[list][i - 1];
    ghost var p0, c0 := d.parent, d.children;
    assert prev in p0 && p0[prev] == list && prev != item;
    KeyBelowNext(d.node, d.parent, d.children, d.next, prev);
    KeyBelowNext(d.node, d.parent, d.children, d.next, list);
    ni, nl := WrapFresh(d, list, item, i);
    ghost var p3, c3 := d.parent, d.children;
    ghost var merged := d.IsListItem(prev);
    d.AppendTo(prev, ni);
    if merged {
      MergedChildren(p0, c0, list, item, i, ni, nl, p3, c3, d.parent, d.children);
    } else {
      AppendedChildren(p0, c0, list, item, i, ni, nl, p3, c3, d.children);
    }
  }

  /** The first steps of $handleIndent: the fresh list `nl`, held by the
      fresh, detached item `ni`, takes the item, child `i` of `list`. */
  method WrapFresh(d: Doc, list: Key, item: Key, i: nat) returns (ni: Key, nl: Key)
    requires d.Valid() && d.IsList(list) && 0 < i < |d.children[list]| && d.children[list][i] == item
    modifies d
    ensures d.Valid() && ni == old(d.next) && nl == ni + 1 && d.next == ni + 2
    ensures d.node == old(d.node)[ni := ListItem(1, 0, 0, false)][nl := List(old(d.node[list].listType), 1)]
    ensures d.parent == old(d.parent)[nl := ni][item := nl]
    ensures d.children == old(d.children)[list := old(d.children[list][..i] + d.children[list][i + 1..])][ni := [nl]][nl := [item]]
  {
    ghost var p0, c0 := d.parent, d.children;
    assert item in p0 && p0[item] == list;
    assert NoDup(c0[list]);
    KeyBelowNext(d.node, d.parent, d.children, d.next, list);
    assert d.next !in p0 && d.next + 1 !in p0;
    ni := d.Create(ListItem(1, 0, 0, false));
    nl := d.Create(List(d.node[list].listType, 1));
    ghost var p1, c1 := d.parent, d.children;
    d.Append(ni, nl);
    ghost var p2, c2 := d.parent, d.children;
    d.Append(nl, item);
    IndentChildren(p0, c0, list, item, i, ni, nl, p1, c1, p2, c2, d.parent, d.children);
  }

  /** The children lists $handleIndent leaves: child `i` of `list` leaves it
      for the fresh list `ni + 1`; the fresh item `ni` holds that list and
      ends the children of the previous sibling `cs[i - 1]`, or, `merged`
      into that sibling, hands the list over to it and holds nothing. */
  ghost function Nested(c: map<Key, seq<Key>>, list: Key, i: nat, ni: Key, item: Key, merged: bool): map<Key, seq<Key>>
    requires list in c && 0 < i < |c[list]| && c[list][i - 1] in c
  {
    var cs := c[list];
    var prev: Key := cs[i - 1];
    var nl: Key := ni + 1;
    if merged then c[list := cs[..i] + cs[i + 1..]][prev := c[prev] + [nl]][ni := []][nl := [item]]
    else c[list := cs[..i] + cs[i + 1..]][prev := c[prev] + [ni]][ni := [nl]][nl := [item]]
  }

  /** The parent links $handleIndent leaves, `prev` being the previous sibling. */
  ghost function NestedParents(p: map<Key, Key>, prev: Key, ni: Key, item: Key, merged: bool): map<Key, Key>
  {
    var nl: Key := ni + 1;
    if merged then p[nl := prev][item := nl] else p[nl := ni][item := nl][ni := prev]
  }

  /** The children lists after the first two appends of $handleIndent. */
  lemma IndentChildren(p0: map<Key, Key>, c0: map<Key, seq<Key>>, list: Key, item: Key, i: nat, ni: Key, nl: Key,
                       p1: map<Key, Key>, c1: map<Key, seq<Key>>, p2: map<Key, Key>, c2: map<Key, seq<Key>>,
                       p3: map<Key, Key>, c3: map<Key, seq<Key>>)
    requires list in c0 && 0 < i < |c0[list]| && c0[list][i] == item && NoDup(c0[list])
    requires nl == ni + 1 && p1 == p0 && p2 == p1[nl := ni] && p3 == p2[item := nl]
    requires ni !in p0 && nl !in p0 && list != ni && list != nl
    requires item in p0 && p0[item] == list
    requires c1 == c0[ni := []][nl := []]
    requires c2 == Appended(p1, c1, ni, nl)
    requires c3 == Appended(p2, c2, nl, item)
    ensures c3 == c0[list := c0[list][..i] + c0[list][i + 1..]][ni := [nl]][nl := [item]]
  {
    var cs := c0[list];
    var before, post := cs[..i], cs[i + 1..];
    assert cs == before + [item] + post;
    NestChildren(p0, c0, list, item, before, post, ni, nl, c1, c2, c3);
  }

  /** The last append of $handleIndent when the previous sibling is not a list item. */
  lemma AppendedChildren(p0: map<Key, Key>, c0: map<Key, seq<Key>>, list: Key, item: Key, i: nat, ni: Key, nl: Key,
                         p3: map<Key, Key>, c3: map<Key, seq<Key>>, c4: map<Key, seq<Key>>)
    requires list in c0 && 0 < i < |c0[list]| && c0[list][i - 1] in c0 && nl == ni + 1
    requires ni !in p0 && nl !in p0 && c0[list][i - 1] != ni && c0[list][i - 1] != nl && c0[list][i - 1] != list
    requires p3 == p0[nl := ni][item := nl] && item != ni
    requires c3 == c0[list := c0[list][..i] + c0[list][i + 1..]][ni := [nl]][nl := [item]]
    requires c4 == Appended(p3, c3, c0[list][i - 1], ni)
    ensures c4 == Nested(c0, list, i, ni, item, false)
  {
    var cs := c0[list];
    var prev := cs[i - 1];
    assert c4 == c3[prev := c0[prev] + [ni]];
    var c4' := Nested(c0, list, i, ni, item, false);
    assert c4.Keys == c4'.Keys;
    forall k | k in c4 ensures c4[k] == c4'[k] { }
  }

  /** The last append of $handleIndent when the previous sibling is a list
      item: the fresh item is merged into it. */
  lemma MergedChildren(p0: map<Key, Key>, c0: map<Key, seq<Key>>, list: Key, item: Key, i: nat, ni: Key, nl: Key,
                       p3: map<Key, Key>, c3: map<Key, seq<Key>>, p4: map<Key, Key>, c4: map<Key, seq<Key>>)
    requires list in c0 && 0 < i < |c0[list]| && c0[list][i - 1] in c0 && nl == ni + 1
    requires ni !in p0 && nl !in p0 && c0[list][i - 1] != ni && c0[list][i - 1] != nl && c0[list][i - 1] != list
    requires p3 == p0[nl := ni][item := nl] && item != ni && item in p0
    requires c3 == c0[list := c0[list][..i] + c0[list][i + 1..]][ni := [nl]][nl := [item]]
    requires p4 == Moved(p3, c3[ni], c0[list][i - 1]) - {ni}
    requires c4 == Unlinked(Moved(p3, c3[ni], c0[list][i - 1]), c3[ni := []][c0[list][i - 1] := c3[c0[list][i - 1]] + c3[ni]], ni)
    ensures c4 == Nested(c0, list, i, ni, item, true)
    ensures p4 == NestedParents(p0, c0[list][i - 1], ni, item, true)
  {
    var prev := c0[list][i - 1];
    MovedAt(p3, [nl], prev, ni);
    assert ni !in Moved(p3, [nl], prev);
    var c4' := Nested(c0, list, i, ni, item, true);
    assert c4.Keys == c4'.Keys;
    forall k | k in c4 ensures c4[k] == c4'[k] { }
    var p4' := NestedParents(p0, prev, ni, item, true);
    forall k ensures k in p4 <==> k in p4' { MovedAt(p3, [nl], prev, k); }
    forall k | k in p4 ensures p4[k] == p4'[k] { MovedAt(p3, [nl], prev, k); }
  }

  /** The children lists once the fresh list holds the item. */
  lemma NestChildren(p0: map<Key, Key>, c0: map<Key, seq<Key>>, list: Key, item: Key,
                     before: seq<Key>, post: seq<Key>, ni: Key, nl: Key,
                     c1: map<Key, seq<Key>>, c2: map<Key, seq<Key>>, c3: map<Key, seq<Key>>)
    requires ni !in p0 && nl !in p0 && ni != nl && list != ni && list != nl
    requires item in p0 && p0[item] == list && list in c0
    requires c0[list] == before + [item] + post && NoDup(c0[list])
    requires c1 == c0[ni := []][nl := []]
    requires c2 == Appended(p0, c1, ni, nl)
    requires c3 == Appended(p0[nl := ni], c2, nl, item)
    ensures c3 == c0[list := before + post][ni := [nl]][nl := [item]]
  {
    FreshChain(p0, c0, ni, nl, c1, c2);
    WithoutHead(before, item, post);
    assert Unlinked(p0[nl := ni], c2, item) == c2[list := before + post];
    var c3' := c0[list := before + post][ni := [nl]][nl := [item]];
    assert c3.Keys == c3'.Keys;
    forall k | k in c3 ensures c3[k] == c3'[k] { }
  }

  /** Two fresh nodes, the second appended to the first. */
  lemma FreshChain(p0: map<Key, Key>, c0: map<Key, seq<Key>>, ni: Key, nl: Key, c1: map<Key, seq<Key>>, c2: map<Key, seq<Key>>)
    requires nl !in p0 && ni != nl
    requires c1 == c0[ni := []][nl := []]
    requires c2 == Appended(p0, c1, ni, nl)
    ensures c2 == c0[ni := [nl]][nl := []]
  {
    assert Unlinked(p0, c1, nl) == c1 && c1[ni] == [] && [] + [nl] == [nl];
    Reupdate(c0, ni, nl, [], [], [nl]);
  }

  /** After renumbering the fresh list, its only item holds value 1 and no
      other node changed. */
  lemma IndentValue(n1: map<Key, Node>, n: map<Key, Node>, p: map<Key, Key>, c: map<Key, seq<Key>>, nl: Key, item: Key)
    requires Linked(p, c) && SameShape(n1, n) && nl in c && c[nl] == [item] && item in p && p[item] == nl
    requires nl in n1 && n1[nl].List? && n1[nl].start == 1 && item in n1 && n1[item].ListItem?
    requires forall k :: k in n1 && k !in c[nl] ==> n[k] == n1[k]
    requires Refreshed(n1, n, p, c, item)
    ensures n == n1[item := n1[item].(value := 1)]
  {
    assert IndexOf(c[nl], item) == 0;
    assert ItemValue(n1, p, c, item) == Ok(1);
  }

  /** $handleOutdent acts: the item's parent is a list, held by a list item,
      itself a child of a list. */
  predicate OutdentApplies(d: Doc, item: Key)
    reads d
  {
    && item in d.parent && d.IsList(d.parent[item])
    && d.parent[item] in d.parent && d.IsListItem(d.parent[d.parent[item]])
    && d.parent[d.parent[item]] in d.parent && d.IsList(d.parent[d.parent[d.parent[item]]])
  }

  /** The maps after outdenting `item`, the first child of `pl` (held by the
      list item `gp` in the list `gg`): the item follows `gp` in `gg`; an
      emptied `pl` is detached, otherwise it moves, with the remaining
      siblings, to the end of the item's children. */
  ghost predicate FirstOutdent(p0: map<Key, Key>, c0: map<Key, seq<Key>>, p1: map<Key, Key>, c1: map<Key, seq<Key>>,
                               item: Key, pl: Key, gp: Key, gg: Key)
  {
    && pl in c0 && gp in c0 && gg in c0 && item in c0 && c0[pl] != [] && c0[pl][0] == item && gp in c0[gg] && pl in c0[gp]
    && (if |c0[pl]| == 1 then
          && c1 == c0[pl := []][gg := InsertedAfter(c0[gg], gp, item)][gp := Without(c0[gp], pl)]
          && p1 == p0[item := gg] - {pl}
        else
          && c1 == c0[pl := c0[pl][1..]][gg := InsertedAfter(c0[gg], gp, item)][gp := Without(c0[gp], pl)]
                     [item := c0[item] + [pl]]
          && p1 == p0[item := gg][pl := item])
  }

  /** The maps after outdenting `item`, the last but not the first child of
      `pl`: the item follows `gp` in `gg`, and `pl` keeps the items before it. */
  ghost predicate LastOutdent(p0: map<Key, Key>, c0: map<Key, seq<Key>>, p1: map<Key, Key>, c1: map<Key, seq<Key>>,
                              item: Key, pl: Key, gp: Key, gg: Key)
  {
    && pl in c0 && gg in c0 && 1 < |c0[pl]| && c0[pl][|c0[pl]| - 1] == item && gp in c0[gg]
    && c1 == c0[pl := c0[pl][..|c0[pl]| - 1]][gg := InsertedAfter(c0[gg], gp, item)]
    && p1 == p0[item := gg]
  }

  /** The maps after outdenting `item`, child `i` of `pl` and neither first nor
      last: the siblings after it move, in order, into the fresh list `nl`,
      appended to the item's children, and the item follows `gp` in `gg`. */
  ghost predicate MiddleOutdent(p0: map<Key, Key>, c0: map<Key, seq<Key>>, p1: map<Key, Key>, c1: map<Key, seq<Key>>,
                                item: Key, pl: Key, gp: Key, gg: Key, nl: Key, i: nat)
  {
    && pl in c0 && gg in c0 && item in c0 && 0 < i < |c0[pl]| - 1 && c0[pl][i] == item && gp in c0[gg]
    && c1 == c0[pl := c0[pl][..i]][nl := c0[pl][i + 1..]][item := c0[item] + [nl]][gg := InsertedAfter(c0[gg], gp, item)]
    && p1 == Moved(p0, c0[pl][i + 1..], nl)[nl := item][item := gg]
  }

  /** The document after $handleOutdent has moved `item`, child of the list
      `pl` under the list item `gp` of the list `gg`: the new maps for the
      item's position, unchanged node kinds (one fresh list in the middle
      case), and current ordinals in `pl` and `gg`. */
  ghost predicate Outdented(n0: map<Key, Node>, p0: map<Key, Key>, c0: map<Key, seq<Key>>, x0: Key,
                            n: map<Key, Node>, p: map<Key, Key>, c: map<Key, seq<Key>>, x: Key, item: Key)
  {
    && item in p0 && p0[item] in p0 && p0[p0[item]] in p0 && p0[item] in c0 && item in c0[p0[item]] && p0[item] in n0 && n0[p0[item]].List?
    && p0[item] in c && Linked(p, c)
    && var pl := p0[item];
       var gp := p0[pl];
       var gg := p0[gp];
       var cs := c0[pl];
       var i := IndexOf(cs, item);
       var n1 := if 0 < i < |cs| - 1 then n0[x0 := List(n0[pl].listType, 1)] else n0;
       && gg in c
       && (i == 0 ==> x == x0 && FirstOutdent(p0, c0, p, c, item, pl, gp, gg))
       && (0 < i == |cs| - 1 ==> x == x0 && LastOutdent(p0, c0, p, c, item, pl, gp, gg))
       && (0 < i < |cs| - 1 ==> x == x0 + 1 && MiddleOutdent(p0, c0, p, c, item, pl, gp, gg, x0, i))
       && SameShape(n1, n)
       && (forall k :: k in n1 && k !in c[pl] && k !in c[gg] ==> n[k] == n1[k])
       && OrdinalsCurrent(n, p, c, pl) && OrdinalsCurrent(n, p, c, gg)
  }

  /** $handleOutdent: nothing happens unless OutdentApplies; then the item
      moves out of its list `pl` to just after the list item `gp` holding
      `pl` in the list `gg`, as FirstOutdent, LastOutdent and MiddleOutdent
      state for its position in `pl`. Then both `pl` and `gg` are renumbered:
      every list item in them holds the value $getListItemValue computes, and
      no other node changes. */
  method HandleOutdent(d: Doc, item: Key)
    requires d.Valid() && d.IsListItem(item) && Unlooped(d, item)
    modifies d
    ensures d.Valid()
    ensures !old(OutdentApplies(d, item)) ==>
              d.node == old(d.node) && d.parent == old(d.parent) && d.children == old(d.children) && d.next == old(d.next)
    ensures old(OutdentApplies(d, item)) ==>
              Outdented(old(d.node), old(d.parent), old(d.children), old(d.next), d.node, d.parent, d.children, d.next, item)
  {
    if !OutdentApplies(d, item) {
      return;
    }
    var pl := d.parent[item];
    var gp := d.parent[pl];
    var gg := d.parent[gp];
    var i := IndexOf(d.children[pl], item);
    if i == 0 {
      OutdentFirst(d, item, pl, gp, gg);
    } else if i == |d.children[pl]| - 1 {
      OutdentLast(d, item, pl, gp, gg);
    } else {
      OutdentMiddle(d, item, pl, gp, gg, i);
    }
    RenumberBoth(d, pl, gg);
  }

  /** Around `item`, no list item sits two levels below itself and no list
      two levels below itself: true of every tree (RankedUnlooped). */
  predicate Unlooped(d: Doc, item: Key)
    reads d
  {
    OutdentApplies(d, item) ==>
      item != d.parent[d.parent[item]] && d.parent[item] != d.parent[d.parent[d.parent[item]]]
  }

  /** A ranked tree has no loops. */
  lemma RankedUnlooped(d: Doc, item: Key, rank: map<Key, nat>)
    requires d.Valid() && Ranked(d.parent, rank)
    ensures Unlooped(d, item)
  {
    if OutdentApplies(d, item) {
      var pl := d.parent[item];
      var gp := d.parent[pl];
      assert rank[pl] < rank[item] && rank[gp] < rank[pl] && rank[d.parent[gp]] < rank[gp];
    }
  }

  /** $handleOutdent undoes $handleIndent. Once an item has been nested under
      a previous sibling that is a list item, outdenting it puts it back at
      its old position in its old list: every parent link and every children
      list is as before, the two fresh nodes are left detached and empty,
      and node contents differ only in the ordinals of the list's items,
      which are current. */
  lemma IndentOutdentRoundTrip(n0: map<Key, Node>, p0: map<Key, Key>, c0: map<Key, seq<Key>>, x0: Key,
                               n1: map<Key, Node>, p1: map<Key, Key>, c1: map<Key, seq<Key>>, x1: Key,
                               n2: map<Key, Node>, p2: map<Key, Key>, c2: map<Key, seq<Key>>, x2: Key, item: Key)
    requires Wf(n0, p0, c0, x0) && Indented(n0, p0, c0, x0, n1, p1, c1, x1, item)
    requires var cs := c0[p0[item]]; n0[cs[IndexOf(cs, item) - 1]].ListItem?
    requires Outdented(n1, p1, c1, x1, n2, p2, c2, x2, item)
    ensures p2 == p0 && c2 == c0[x0 := []][x0 + 1 := []] && x2 == x0 + 2
    ensures SameShape(n0[x0 := ListItem(1, 0, 0, false)][x0 + 1 := List(n0[p0[item]].listType, 1)], n2)
    ensures forall k :: k in n0 && k !in c0[p0[item]] ==> n2[k] == n0[k]
    ensures OrdinalsCurrent(n2, p2, c2, p0[item])
  {
    var list := p0[item];
    var cs := c0[list];
    var i := IndexOf(cs, item);
    IndentedMerged(n0, p0, c0, x0, n1, p1, c1, x1, item);
    var prev: Key, nl: Key := cs[i - 1], x0 + 1;
    OutdentedOnly(n1, p1, c1, x1, n2, p2, c2, x2, item, nl, prev, list);
    RoundTripChildren(p0, c0, x0, list, i, item, p1, c1, p2, c2);
    assert c2[list] == cs;
    RoundTripNodes(n0, n1, n2, x0, nl, item, n0[list].listType, c0[list]);
  }

  /** Node contents across the round trip: the ordinal of the item is the
      only change the indent made to an old node. */
  lemma RoundTripNodes(n0: map<Key, Node>, n1: map<Key, Node>, n2: map<Key, Node>, x0: Key, nl: Key, item: Key,
                       lt: ListType, cs: seq<Key>)
    requires item in n0 && n0[item].ListItem? && item in cs && x0 !in n0 && nl !in n0
    requires n1 == n0[x0 := ListItem(1, 0, 0, false)][nl := List(lt, 1)][item := n0[item].(value := 1)]
    requires SameShape(n1, n2) && forall k :: k in n1 && k !in cs ==> n2[k] == n1[k]
    ensures SameShape(n0[x0 := ListItem(1, 0, 0, false)][nl := List(lt, 1)], n2)
    ensures forall k :: k in n0 && k !in cs ==> n2[k] == n0[k]
  {
    var m := n0[x0 := ListItem(1, 0, 0, false)][nl := List(lt, 1)];
    assert SameShape(m, n1);
    SameShapeTrans(m, n1, n2);
  }

  /** $handleIndent, then $handleOutdent, on an item whose previous sibling
      is a list item: the outdent applies and undoes the indent, as
      IndentOutdentRoundTrip states. */
  method IndentThenOutdent(d: Doc, item: Key)
    requires d.Valid() && d.IsListItem(item) && IndentApplies(d, item)
    requires var cs := d.children[d.parent[item]]; d.IsListItem(cs[IndexOf(cs, item) - 1])
    modifies d
    ensures d.Valid() && d.parent == old(d.parent) && d.next == old(d.next) + 2
    ensures d.children == old(d.children)[old(d.next) := []][old(d.next) + 1 := []]
    ensures forall k :: k in old(d.node) && k !in old(d.children[d.parent[item]]) ==> d.node[k] == old(d.node[k])
    ensures OrdinalsCurrent(d.node, d.parent, d.children, old(d.parent[item]))
  {
    ghost var n0, p0, c0, x0 := d.node, d.parent, d.children, d.next;
    HandleIndent(d, item);
    ghost var n1, p1, c1, x1 := d.node, d.parent, d.children, d.next;
    IndentedMerged(n0, p0, c0, x0, n1, p1, c1, x1, item);
    assert OutdentApplies(d, item) && Unlooped(d, item);
    HandleOutdent(d, item);
    IndentOutdentRoundTrip(n0, p0, c0, x0, n1, p1, c1, x1, d.node, d.parent, d.children, d.next, item);
  }

  /** $handleIndent deepens the item by one level: once nested under a
      previous sibling that is a list item, getIndent reports one more than
      before, or throws as it did before. `r0` and `r1` are any rankings of
      the tree before and after. */
  lemma IndentDeepens(n0: map<Key, Node>, p0: map<Key, Key>, c0: map<Key, seq<Key>>, x0: Key,
                      n1: map<Key, Node>, p1: map<Key, Key>, c1: map<Key, seq<Key>>, x1: Key, item: Key,
                      r0: map<Key, nat>, r1: map<Key, nat>)
    requires Wf(n0, p0, c0, x0) && Indented(n0, p0, c0, x0, n1, p1, c1, x1, item)
    requires var cs := c0[p0[item]]; n0[cs[IndexOf(cs, item) - 1]].ListItem?
    requires Ranked(p0, r0) && Ranked(p1, r1)
    ensures item in n1 && n1[item].ListItem?
    ensures var before := ItemIndent(n0, p0, item, r0);
            ItemIndent(n1, p1, item, r1) == if before.Ok? then Ok(before.value + 1) else before
  {
    IndentedMerged(n0, p0, c0, x0, n1, p1, c1, x1, item);
    var cs := c0[p0[item]];
    var prev := cs[IndexOf(cs, item) - 1];
    DeepensFrom(n0, p0, n1, p1, item, x0, prev, n0[p0[item]].listType, r0, r1);
  }

  /** IndentDeepens on the maps the indent leaves. */
  lemma DeepensFrom(n0: map<Key, Node>, p0: map<Key, Key>, n1: map<Key, Node>, p1: map<Key, Key>, item: Key, x0: Key,
                    prev: Key, lt: ListType, r0: map<Key, nat>, r1: map<Key, nat>)
    requires Ranked(p0, r0) && Ranked(p1, r1) && p0.Keys <= n0.Keys && (forall y :: y in p0 ==> p0[y] in n0)
    requires item in p0 && prev in p0 && p0[prev] == p0[item] && prev in n0 && n0[prev].ListItem? && item in n0 && n0[item].ListItem?
    requires x0 !in n0 && x0 + 1 !in n0 && x0 !in p0 && x0 + 1 !in p0
    requires n1 == n0[x0 := ListItem(1, 0, 0, false)][x0 + 1 := List(lt, 1)][item := n0[item].(value := 1)]
    requires p1 == NestedParents(p0, prev, x0, item, true)
    ensures item in n1 && n1[item].ListItem?
    ensures var before := ItemIndent(n0, p0, item, r0);
            ItemIndent(n1, p1, item, r1) == if before.Ok? then Ok(before.value + 1) else before
  {
    var list := p0[item];
    assert p1[item] == x0 + 1 && p1[x0 + 1] == prev && n1[prev] == n0[prev];
    assert prev != item;
    assert p1[prev] == list;
    assert ItemIndent(n1, p1, item, r1) == Nesting(n1, p1, prev, r1);
    if list in p0 {
      assert p1[list] == p0[list];
      assert ItemIndent(n0, p0, item, r0) == Nesting(n0, p0, p0[list], r0);
      NestingSame(n0, p0, n1, p1, p0[list], r0, r1, item, x0);
      var up := Nesting(n1, p1, p0[list], r1);
      assert Nesting(n1, p1, prev, r1) == if up.Err? then up else Ok(up.value + 1);
    } else {
      assert ItemIndent(n0, p0, item, r0) == Err(NoParent);
    }
  }

  /** The walk of Nesting from `k`, which lies strictly above `item`, is the
      same before and after the indent. */
  lemma {:induction false} NestingSame(n0: map<Key, Node>, p0: map<Key, Key>, n1: map<Key, Node>, p1: map<Key, Key>, k: Key,
                                       r0: map<Key, nat>, r1: map<Key, nat>, item: Key, x0: Key)
    requires Ranked(p0, r0) && Ranked(p1, r1) && p0.Keys <= n0.Keys && (forall y :: y in p0 ==> p0[y] in n0)
    requires forall y :: y in n0 ==> y in n1 && (n1[y].ListItem? <==> n0[y].ListItem?)
    requires forall y :: y in p0 && y != item ==> y in p1 && p1[y] == p0[y]
    requires forall y :: y in p1 && y !in p0 ==> y !in n0
    requires k in n0 && item in r0 && (k in p0 ==> r0[k] < r0[item]) && item in p0
    ensures Nesting(n1, p1, k, r1) == Nesting(n0, p0, k, r0)
    decreases if k in r0 then r0[k] else 0
  {
    if n0[k].ListItem? && k in p0 && p0[k] in p0 {
      var gp := p0[p0[k]];
      assert p1[k] == p0[k] && p1[p0[k]] == gp;
      NestingSame(n0, p0, n1, p1, gp, r0, r1, item, x0);
    }
  }

  /** Indented, spelled out for a previous sibling that is a list item. */
  lemma IndentedMerged(n0: map<Key, Node>, p0: map<Key, Key>, c0: map<Key, seq<Key>>, x0: Key,
                       n1: map<Key, Node>, p1: map<Key, Key>, c1: map<Key, seq<Key>>, x1: Key, item: Key)
    requires Wf(n0, p0, c0, x0) && Indented(n0, p0, c0, x0, n1, p1, c1, x1, item)
    requires var cs := c0[p0[item]]; n0[cs[IndexOf(cs, item) - 1]].ListItem?
    ensures var list := p0[item];
            var cs := c0[list];
            var i := IndexOf(cs, item);
            var prev := cs[i - 1];
            && 0 < i < |cs| && cs[i] == item && NoDup(cs) && prev in c0 && prev != list && prev != item
            && prev in p0 && p0[prev] == list && item in p0 && p0[item] == list && list in n0
            && x0 !in c0 && x0 + 1 !in c0 && x0 !in p0 && x0 + 1 !in p0 && x0 + 1 !in c0[prev] && x1 == x0 + 2
            && x0 !in n0 && x0 + 1 !in n0 && item in n0 && n0[item].ListItem?
            && item in p1 && p1[item] == x0 + 1 && p1[x0 + 1] == prev && p1[prev] == list
            && x0 + 1 in c1 && c1[x0 + 1] == [item] && IndexOf(c1[x0 + 1], item) == 0
            && p1 == NestedParents(p0, prev, x0, item, true) && c1 == Nested(c0, list, i, x0, item, true)
            && n1 == n0[x0 := ListItem(1, 0, 0, false)][x0 + 1 := List(n0[list].listType, 1)][item := n0[item].(value := 1)]
  {
    var list := p0[item];
    var cs := c0[list];
    var i := IndexOf(cs, item);
    var prev: Key := cs[i - 1];
    assert NoDup(cs) && prev != item;
    assert prev in p0 && p0[prev] == list;
    KeyBelowNext(n0, p0, c0, x0, prev);
    KeyBelowNext(n0, p0, c0, x0, item);
    KeyBelowNext(n0, p0, c0, x0, list);
    assert x0 + 1 !in c0[prev];
    RoundTripLinks(p0, c0, x0, list, i, item, p1, c1);
  }

  /** Outdented, spelled out for the only child of a list. */
  lemma OutdentedOnly(n1: map<Key, Node>, p1: map<Key, Key>, c1: map<Key, seq<Key>>, x1: Key,
                      n2: map<Key, Node>, p2: map<Key, Key>, c2: map<Key, seq<Key>>, x2: Key, item: Key,
                      pl: Key, gp: Key, gg: Key)
    requires Outdented(n1, p1, c1, x1, n2, p2, c2, x2, item)
    requires item in p1 && p1[item] == pl && p1[pl] == gp && p1[gp] == gg && pl in c1 && c1[pl] == [item]
    ensures FirstOutdent(p1, c1, p2, c2, item, pl, gp, gg) && x2 == x1 && SameShape(n1, n2)
    ensures forall k :: k in n1 && k !in c2[gg] ==> n2[k] == n1[k]
    ensures Linked(p2, c2) && OrdinalsCurrent(n2, p2, c2, gg)
  {
    assert IndexOf(c1[pl], item) == 0;
  }

  /** Where the indented item sits when its previous sibling took the fresh list. */
  lemma RoundTripLinks(p0: map<Key, Key>, c0: map<Key, seq<Key>>, x0: Key, list: Key, i: nat, item: Key,
                       p1: map<Key, Key>, c1: map<Key, seq<Key>>)
    requires list in c0 && 0 < i < |c0[list]| && c0[list][i] == item && c0[list][i - 1] in c0
    requires c0[list][i - 1] in p0 && p0[c0[list][i - 1]] == list && c0[list][i - 1] != item
    requires x0 !in p0 && x0 + 1 !in p0 && list != x0 + 1 && item in p0
    requires p1 == NestedParents(p0, c0[list][i - 1], x0, item, true)
    requires c1 == Nested(c0, list, i, x0, item, true)
    ensures item in p1 && p1[item] == x0 + 1 && p1[x0 + 1] == c0[list][i - 1] && p1[c0[list][i - 1]] == list
    ensures x0 + 1 in c1 && c1[x0 + 1] == [item] && IndexOf(c1[x0 + 1], item) == 0
  {
  }

  /** Outdenting the only child of the fresh list restores the children lists
      and the parent links as they were before the indent. */
  lemma RoundTripChildren(p0: map<Key, Key>, c0: map<Key, seq<Key>>, x0: Key, list: Key, i: nat, item: Key,
                          p1: map<Key, Key>, c1: map<Key, seq<Key>>, p2: map<Key, Key>, c2: map<Key, seq<Key>>)
    requires list in c0 && 0 < i < |c0[list]| && c0[list][i] == item && c0[list][i - 1] in c0 && NoDup(c0[list])
    requires item in p0 && p0[item] == list && c0[list][i - 1] != list && x0 !in c0 && x0 + 1 !in c0
    requires x0 !in p0 && x0 + 1 !in p0 && x0 + 1 !in c0[c0[list][i - 1]]
    requires p1 == NestedParents(p0, c0[list][i - 1], x0, item, true)
    requires c1 == Nested(c0, list, i, x0, item, true)
    requires FirstOutdent(p1, c1, p2, c2, item, x0 + 1, c0[list][i - 1], list)
    ensures p2 == p0 && c2 == c0[x0 := []][x0 + 1 := []]
  {
    var cs := c0[list];
    var prev: Key, nl: Key := cs[i - 1], x0 + 1;
    assert c1[nl] == [item];
    assert c2 == c1[nl := []][list := InsertedAfter(c1[list], prev, item)][prev := Without(c1[prev], nl)];
    ReinsertAfterPrev(cs, i);
    WithoutLast(c0[prev], nl);
    var c2' := c0[x0 := []][nl := []];
    assert c2.Keys == c2'.Keys;
    forall k | k in c2 ensures c2[k] == c2'[k] { }
    assert p2.Keys == p0.Keys;
  }

  /** updateChildrenListItemValue on `pl`, then on `gg`. */
  method RenumberBoth(d: Doc, pl: Key, gg: Key)
    requires d.Valid() && d.IsList(pl) && d.IsList(gg) && pl != gg
    modifies d
    ensures d.Valid() && d.children == old(d.children) && d.parent == old(d.parent) && d.next == old(d.next)
    ensures SameShape(old(d.node), d.node)
    ensures forall k :: k in old(d.node) && k !in d.children[pl] && k !in d.children[gg] ==> d.node[k] == old(d.node[k])
    ensures OrdinalsCurrent(d.node, d.parent, d.children, pl) && OrdinalsCurrent(d.node, d.parent, d.children, gg)
  {
    var r1 := UpdateChildrenListItemValue(d, pl, None);
    ghost var n1 := d.node;
    var r2 := UpdateChildrenListItemValue(d, gg, None);
    forall c | c in d.children[pl] && c in n1 ensures d.node[c] == n1[c] {
      assert d.parent[c] == pl;
    }
    CurrentKept(n1, d.node, d.parent, d.children, pl);
    SameShapeTrans(old(d.node), n1, d.node);
  }

  /** Outdenting the first child of `pl`. */
  method OutdentFirst(d: Doc, item: Key, pl: Key, gp: Key, gg: Key)
    requires d.Valid() && item in d.parent && d.parent[item] == pl && pl in d.parent && d.parent[pl] == gp
    requires gp in d.parent && d.parent[gp] == gg && item != gp && item != gg && pl != gg && gp != gg
    requires d.children[pl] != [] && d.children[pl][0] == item
    modifies d
    ensures d.Valid() && d.node == old(d.node) && d.next == old(d.next)
    ensures FirstOutdent(old(d.parent), old(d.children), d.parent, d.children, item, pl, gp, gg)
  {
    ghost var p0, c0 := d.parent, d.children;
    WithoutIndex(c0[pl], 0);
    OutdentPlaced(p0, c0, item, pl, gp, gg, c0[pl][1..]);
    d.InsertAfter(gp, item);
    ghost var pA, cA := d.parent, d.children;
    if d.Children(pl) == [] {
      d.Remove(pl);
    } else {
      d.Append(item, pl);
    }
    FirstOutdentDone(p0, c0, pA, cA, d.parent, d.children, item, pl, gp, gg);
  }

  /** Outdenting the last, not first, child of `pl`. */
  method OutdentLast(d: Doc, item: Key, pl: Key, gp: Key, gg: Key)
    requires d.Valid() && item in d.parent && d.parent[item] == pl && pl in d.parent && d.parent[pl] == gp
    requires gp in d.parent && d.parent[gp] == gg && item != gp && item != gg && pl != gg
    requires 1 < |d.children[pl]| && d.children[pl][|d.children[pl]| - 1] == item
    modifies d
    ensures d.Valid() && d.node == old(d.node) && d.next == old(d.next)
    ensures LastOutdent(old(d.parent), old(d.children), d.parent, d.children, item, pl, gp, gg)
  {
    ghost var p0, c0 := d.parent, d.children;
    var last := |c0[pl]| - 1;
    WithoutIndex(c0[pl], last);
    assert c0[pl][last + 1..] == [] && c0[pl][..last] + [] == c0[pl][..last];
    OutdentPlaced(p0, c0, item, pl, gp, gg, c0[pl][..last]);
    // `pl` keeps the items before `item`, so its emptiness test always fails.
    d.InsertAfter(gp, item);
  }

  /** Outdenting a child of `pl` that is neither first nor last. */
  method OutdentMiddle(d: Doc, item: Key, pl: Key, gp: Key, gg: Key, i: nat)
    requires d.Valid() && item in d.parent && d.parent[item] == pl && pl in d.parent && d.parent[pl] == gp
    requires gp in d.parent && d.parent[gp] == gg && item != gp && item != gg && pl != gg
    requires d.IsList(pl) && 0 < i < |d.children[pl]| - 1 && d.children[pl][i] == item
    modifies d
    ensures d.Valid() && d.next == old(d.next) + 1 && d.node == old(d.node)[old(d.next) := List(old(d.node[pl].listType), 1)]
    ensures MiddleOutdent(old(d.parent), old(d.children), d.parent, d.children, item, pl, gp, gg, old(d.next), i)
  {
    ghost var p0, c0 := d.parent, d.children;
    SplitPrepare(d.node, d.parent, d.children, d.next, pl, i + 1);
    KeyBelowNext(d.node, d.parent, d.children, d.next, gg);
    KeyBelowNext(d.node, d.parent, d.children, d.next, item);
    assert gp in c0[gg] && NoDup(c0[pl]);
    var nl := d.Create(List(d.node[pl].listType, 1));
    ghost var pA, cA := d.parent, d.children;
    d.MoveChildren(pl, i + 1, nl);
    ghost var pB, cB := d.parent, d.children;
    d.Append(item, nl);
    ghost var pC, cC := d.parent, d.children;
    MiddleMoved(p0, c0, pA, cA, pB, cB, pC, cC, item, pl, gp, gg, nl, i);
    d.InsertAfter(gp, item);
    MiddleOutdentDone(p0, c0, pC, cC, d.parent, d.children, item, pl, gp, gg, nl, i);
  }

  /** Moving `item` out of `pl` to just after `gp`, under `gg`. */
  lemma OutdentPlaced(p0: map<Key, Key>, c0: map<Key, seq<Key>>, item: Key, pl: Key, gp: Key, gg: Key, rest: seq<Key>)
    requires Linked(p0, c0) && item in p0 && p0[item] == pl && gp in p0 && p0[gp] == gg && item != gp && pl != gg
    requires Without(c0[pl], item) == rest
    ensures gp in c0[gg]
    ensures Placed(p0, c0, gp, item, true) == c0[pl := rest][gg := InsertedAfter(c0[gg], gp, item)]
  {
    PlacedLinked(p0, c0, gp, item, true);
  }

  /** The second step of outdenting a first child: `pl` is detached when
      emptied, otherwise appended to the item. */
  lemma FirstOutdentDone(p0: map<Key, Key>, c0: map<Key, seq<Key>>, pA: map<Key, Key>, cA: map<Key, seq<Key>>,
                         p1: map<Key, Key>, c1: map<Key, seq<Key>>, item: Key, pl: Key, gp: Key, gg: Key)
    requires Linked(p0, c0) && Linked(pA, cA)
    requires item in p0 && p0[item] == pl && pl in p0 && p0[pl] == gp && gp in p0 && p0[gp] == gg
    requires item != gp && item != gg && pl != gg && gp != gg && item in c0
    requires c0[pl] != [] && c0[pl][0] == item && gp in c0[gg]
    requires pA == p0[item := gg] && cA == c0[pl := c0[pl][1..]][gg := InsertedAfter(c0[gg], gp, item)]
    requires cA[pl] == [] ==> p1 == pA - {pl} && c1 == Unlinked(pA, cA, pl)
    requires cA[pl] != [] ==> p1 == pA[pl := item] && c1 == Appended(pA, cA, item, pl)
    ensures FirstOutdent(p0, c0, p1, c1, item, pl, gp, gg)
  {
    assert pl in c0[gp];
    if |c0[pl]| == 1 {
      assert c0[pl][1..] == [];
      assert c1 == cA[gp := Without(c0[gp], pl)];
    } else {
      AppendedLinked(pA, cA, item, pl);
      assert c1 == cA[gp := Without(c0[gp], pl)][item := c0[item] + [pl]];
    }
  }

  /** Outdenting a middle child, up to the placement of the item: the
      siblings after it are in the fresh list `nl`, which ends the item's
      children. */
  lemma MiddleMoved(p0: map<Key, Key>, c0: map<Key, seq<Key>>, pA: map<Key, Key>, cA: map<Key, seq<Key>>,
                    pB: map<Key, Key>, cB: map<Key, seq<Key>>, pC: map<Key, Key>, cC: map<Key, seq<Key>>,
                    item: Key, pl: Key, gp: Key, gg: Key, nl: Key, i: nat)
    requires Linked(p0, c0)
    requires item in p0 && p0[item] == pl && gp in p0 && p0[gp] == gg && pl != gg && item in c0 && pl in c0
    requires 0 < i < |c0[pl]| - 1 && c0[pl][i] == item
    requires nl !in c0 && nl !in p0 && nl != pl && nl != item
    requires pA == p0 && cA == c0[nl := []]
    requires pB == Moved(pA, cA[pl][i + 1..], nl) && cB == cA[pl := cA[pl][..i + 1]][nl := cA[nl] + cA[pl][i + 1..]]
    requires pC == pB[nl := item] && cC == Appended(pB, cB, item, nl)
    ensures item in pC && pC[item] == pl && gp in pC && pC[gp] == gg
    ensures pC == Moved(p0, c0[pl][i + 1..], nl)[nl := item]
    ensures cC == c0[pl := c0[pl][..i + 1]][nl := c0[pl][i + 1..]][item := c0[item] + [nl]]
  {
    var post := c0[pl][i + 1..];
    SplitMaps(c0, cA, cB, pl, nl, i + 1);
    MovedAt(p0, post, nl, nl);
    MovedAt(p0, post, nl, item);
    MovedAt(p0, post, nl, gp);
    assert item !in post by {
      forall j | i + 1 <= j < |c0[pl]| ensures c0[pl][j] != item { }
    }
    assert gp !in post by {
      forall j | i + 1 <= j < |c0[pl]| ensures c0[pl][j] != gp { assert c0[pl][j] in p0; }
    }
    AppendedDetached(pB, cB, item, nl);
  }

  /** Outdenting a middle child: placing the item after `gp` completes
      MiddleOutdent. */
  lemma MiddleOutdentDone(p0: map<Key, Key>, c0: map<Key, seq<Key>>, pC: map<Key, Key>, cC: map<Key, seq<Key>>,
                          p1: map<Key, Key>, c1: map<Key, seq<Key>>, item: Key, pl: Key, gp: Key, gg: Key, nl: Key, i: nat)
    requires Linked(pC, cC) && pl in c0 && NoDup(c0[pl])
    requires item in pC && pC[item] == pl && gp in pC && pC[gp] == gg && item != gp && pl != gg
    requires pl in c0 && gg in c0 && item in c0 && gp in c0[gg] && gg != nl && gg != item
    requires 0 < i < |c0[pl]| - 1 && c0[pl][i] == item && nl != pl && nl != item && item != pl
    requires pC == Moved(p0, c0[pl][i + 1..], nl)[nl := item]
    requires cC == c0[pl := c0[pl][..i + 1]][nl := c0[pl][i + 1..]][item := c0[item] + [nl]]
    requires p1 == pC[item := gg] && c1 == Placed(pC, cC, gp, item, true)
    ensures MiddleOutdent(p0, c0, p1, c1, item, pl, gp, gg, nl, i)
  {
    WithoutPrefixEnd(c0[pl], i);
    OutdentPlaced(pC, cC, item, pl, gp, gg, c0[pl][..i]);
    assert cC[gg] == c0[gg];
    Overwrite(c0, pl, nl, item, gg, c0[pl][..i + 1], c0[pl][i + 1..], c0[item] + [nl], c0[pl][..i], InsertedAfter(c0[gg], gp, item));
  }

  /** Updating a key again overrides its first update. */
  lemma Overwrite<V>(m: map<Key, V>, a: Key, b: Key, c: Key, e: Key, x: V, y: V, z: V, w: V, v: V)
    requires a != b && a != c
    ensures m[a := x][b := y][c := z][a := w][e := v] == m[a := w][b := y][c := z][e := v]
  {
  }
}
