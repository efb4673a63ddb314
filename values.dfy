/**
 * Ordinal values of ordered-list items: the number shown for an item is its
 * list's start plus the number of earlier siblings that are list items not
 * made only of a nested list.
 */
module ListValues {
  import opened Seqs
  import opened Tree

  datatype ListError =
    | ParentNotList      // a list item whose parent is not a list
    | NotChildOfList     // the item is not a child of the given list
    | NoParent           // insertBefore/insertAfter on a node without parent
    | NewBlockMissing    // the paragraph split yielded no block

  datatype Result<T> = Ok(value: T) | Err(error: ListError)

  /** isNestedListNode: `k` is a list item whose first child is a list. */
  predicate IsNestedItem(node: map<Key, Node>, children: map<Key, seq<Key>>, k: Key)
  {
    && k in node && node[k].ListItem?
    && k in children && children[k] != [] && children[k][0] in node && node[children[k][0]].List?
  }

  /** Every list item among `l`'s children holds the value $getListItemValue computes. */
  ghost predicate OrdinalsCurrent(node: map<Key, Node>, parent: map<Key, Key>, children: map<Key, seq<Key>>, l: Key)
    requires Linked(parent, children)
  {
    forall c :: l in children && c in children[l] && c in node && node[c].ListItem? ==> ItemValue(node, parent, children, c) == Ok(node[c].value)
  }

  /** `k` is a list item whose first child is not a list (isNestedListNode fails). */
  predicate TakesOrdinal(node: map<Key, Node>, children: map<Key, seq<Key>>, k: Key)
  {
    && k in node && node[k].ListItem?
    && !(k in children && children[k] != [] && children[k][0] in node && node[children[k][0]].List?)
  }

  /** How many keys of `s` take an ordinal. */
  function CountOrdinals(node: map<Key, Node>, children: map<Key, seq<Key>>, s: seq<Key>): (r: nat)
    ensures r <= |s|
  {
    if s == [] then 0
    else CountOrdinals(node, children, s[..|s| - 1]) + (if TakesOrdinal(node, children, s[|s| - 1]) then 1 else 0)
  }

  lemma CountSnoc(node: map<Key, Node>, children: map<Key, seq<Key>>, s: seq<Key>, i: nat)
    requires i < |s|
    ensures CountOrdinals(node, children, s[..i + 1])
            == CountOrdinals(node, children, s[..i]) + (if TakesOrdinal(node, children, s[i]) then 1 else 0)
  {
    assert s[..i + 1][..i] == s[..i];
  }

  /** The value $getListItemValue computes for `item`. */
  function ItemValue(node: map<Key, Node>, parent: map<Key, Key>, children: map<Key, seq<Key>>, item: Key): Result<int>
    requires Linked(parent, children)
  {
    if item !in parent then Ok(1)
    else if !(parent[item] in node && node[parent[item]].List?) then Err(ParentNotList)
    else
      var s := children[parent[item]];
      Ok(node[parent[item]].start + CountOrdinals(node, children, s[..IndexOf(s, item)]))
  }

  /** $getListItemValue: a loop over the previous siblings. */
  method GetListItemValue(d: Doc, item: Key) returns (r: Result<int>)
    requires d.Valid()
    ensures r == ItemValue(d.node, d.parent, d.children, item)
    ensures r.Err? <==> item in d.parent && !d.IsList(d.parent[item])
  {
    var value := 1;
    if item in d.parent {
      var list := d.parent[item];
      if !d.IsList(list) {
        return Err(ParentNotList);
      }
      value := d.node[list].start;
    }
    var siblings := d.PrevSiblings(item);
    var count := CountSiblings(d, siblings);
    r := Ok(value + count);
  }

  /** The loop of $getListItemValue: counts the siblings that take an ordinal. */
  method CountSiblings(d: Doc, siblings: seq<Key>) returns (count: nat)
    ensures count == CountOrdinals(d.node, d.children, siblings)
  {
    count := 0;
    var i := 0;
    while i < |siblings|
      invariant i <= |siblings|
      invariant count == CountOrdinals(d.node, d.children, siblings[..i])
    {
      var sibling := siblings[i];
      var first := d.FirstChild(sibling);
      CountSnoc(d.node, d.children, siblings, i);
      if d.IsListItem(sibling) && !(first.Some? && d.IsList(first.value)) {
        count := count + 1;
      }
      i := i + 1;
    }
    assert siblings[..i] == siblings;
  }

  /** Numbering is contiguous: each child of a list is numbered one past its
      previous sibling, or the same when that sibling holds only a nested list. */
  lemma OrdinalsContiguous(node: map<Key, Node>, parent: map<Key, Key>, children: map<Key, seq<Key>>, l: Key, i: nat)
    requires Linked(parent, children) && l in children && l in node && node[l].List?
    requires i + 1 < |children[l]|
    ensures ItemValue(node, parent, children, children[l][i]).Ok?
    ensures ItemValue(node, parent, children, children[l][i + 1]) ==
            Ok(ItemValue(node, parent, children, children[l][i]).value
               + (if TakesOrdinal(node, children, children[l][i]) then 1 else 0))
  {
    var s := children[l];
    IndexOfNoDup(s, i);
    IndexOfNoDup(s, i + 1);
    CountSnoc(node, children, s, i);
  }

  /** The first child of a list is numbered with the list's start. */
  lemma OrdinalFirst(node: map<Key, Node>, parent: map<Key, Key>, children: map<Key, seq<Key>>, l: Key)
    requires Linked(parent, children) && l in children && l in node && node[l].List? && children[l] != []
    ensures ItemValue(node, parent, children, children[l][0]) == Ok(node[l].start)
  {
    IndexOfNoDup(children[l], 0);
  }

  lemma {:induction false} CountSameShape(node1: map<Key, Node>, node2: map<Key, Node>, children: map<Key, seq<Key>>, s: seq<Key>)
    requires SameShape(node1, node2)
    ensures CountOrdinals(node1, children, s) == CountOrdinals(node2, children, s)
    decreases |s|
  {
    if s != [] { CountSameShape(node1, node2, children, s[..|s| - 1]); }
  }

  /** Writing ordinals never changes what any ordinal should be. */
  lemma ValueSameShape(node1: map<Key, Node>, node2: map<Key, Node>, parent: map<Key, Key>, children: map<Key, seq<Key>>, item: Key)
    requires Linked(parent, children) && SameShape(node1, node2)
    ensures ItemValue(node1, parent, children, item) == ItemValue(node2, parent, children, item)
  {
    if item in parent {
      var s := children[parent[item]];
      CountSameShape(node1, node2, children, s[..IndexOf(s, item)]);
    }
  }

  /** The list items of `targets` whose stored value differs from the one
      $getListItemValue computes: the ones updateChildrenListItemValue writes. */
  ghost function StaleItems(node: map<Key, Node>, parent: map<Key, Key>, children: map<Key, seq<Key>>, targets: seq<Key>): set<Key>
    requires Linked(parent, children)
  {
    set c | c in targets && c in node && node[c].ListItem? && ItemValue(node, parent, children, c).Ok?
                         && node[c].value != ItemValue(node, parent, children, c).value
  }

  lemma StaleSnoc(node: map<Key, Node>, parent: map<Key, Key>, children: map<Key, seq<Key>>, t: seq<Key>, i: nat)
    requires Linked(parent, children) && i < |t|
    ensures StaleItems(node, parent, children, t[..i + 1]) ==
            StaleItems(node, parent, children, t[..i]) + StaleItems(node, parent, children, [t[i]])
  {
    assert t[..i + 1] == t[..i] + [t[i]];
  }

  /** `c` holds in `n` the value $getListItemValue computes for it in `n0`. */
  ghost predicate Refreshed(n0: map<Key, Node>, n: map<Key, Node>, parent: map<Key, Key>, children: map<Key, seq<Key>>, c: Key)
    requires Linked(parent, children)
  {
    c in n0 && n0[c].ListItem? && ItemValue(n0, parent, children, c).Ok? && c in n &&
    n[c] == n0[c].(value := ItemValue(n0, parent, children, c).value)
  }

  lemma ShapeAfterWrite(n0: map<Key, Node>, n: map<Key, Node>, k: Key, v: int)
    requires SameShape(n0, n) && k in n && n[k].ListItem?
    ensures SameShape(n0, n[k := n[k].(value := v)])
  {
  }

  /** One step of updateChildrenListItemValue: recompute `child`'s value
      and write it if it differs; reports whether it wrote. */
  method RefreshItem(d: Doc, child: Key, ghost n0: map<Key, Node>) returns (r: Result<bool>)
    requires d.Valid() && SameShape(n0, d.node)
    modifies d
    ensures d.Valid() && d.children == old(d.children) && d.parent == old(d.parent) && d.next == old(d.next)
    ensures SameShape(n0, d.node)
    ensures forall k :: k in d.node && k != child ==> d.node[k] == old(d.node[k])
    ensures !(child in n0 && n0[child].ListItem?) ==> r == Ok(false) && d.node == old(d.node)
    ensures child in n0 && n0[child].ListItem? ==>
              && (r.Err? <==> ItemValue(n0, d.parent, d.children, child).Err?)
              && (r.Ok? ==> Refreshed(n0, d.node, d.parent, d.children, child))
              && (r.Ok? ==> (r.value <==> old(d.node[child]).value != ItemValue(n0, d.parent, d.children, child).value))
  {
    r := Ok(false);
    if d.IsListItem(child) {
      var prevValue := d.node[child].value;
      var nextValue := GetListItemValue(d, child);
      ValueSameShape(n0, d.node, d.parent, d.children, child);
      if nextValue.Err? {
        return Err(nextValue.error);
      }
      if prevValue != nextValue.value {
        ShapeAfterWrite(n0, d.node, child, nextValue.value);
        d.SetValue(child, nextValue.value);
        r := Ok(true);
      }
    }
  }

  lemma RefreshStep(n0: map<Key, Node>, n: map<Key, Node>, n': map<Key, Node>, parent: map<Key, Key>, children: map<Key, seq<Key>>,
                    t: seq<Key>, i: nat, written: set<Key>, written': set<Key>, wrote: bool)
    requires Linked(parent, children) && i < |t|
    requires forall c :: c in t[..i] && c in n0 && n0[c].ListItem? ==> Refreshed(n0, n, parent, children, c)
    requires forall k :: k in n0 && k !in t[..i] ==> k in n && n[k] == n0[k]
    requires written == StaleItems(n0, parent, children, t[..i])
    requires written' == written + (if wrote then {t[i]} else {})
    requires forall k :: k in n' && k != t[i] ==> k in n && n'[k] == n[k]
    requires SameShape(n0, n) && n'.Keys == n0.Keys
    requires !(t[i] in n0 && n0[t[i]].ListItem?) ==> !wrote && n' == n
    requires t[i] in n0 && n0[t[i]].ListItem? ==>
               Refreshed(n0, n', parent, children, t[i]) &&
               (wrote <==> n[t[i]].value != ItemValue(n0, parent, children, t[i]).value)
    ensures forall c :: c in t[..i + 1] && c in n0 && n0[c].ListItem? ==> Refreshed(n0, n', parent, children, c)
    ensures forall k :: k in n0 && k !in t[..i + 1] ==> k in n' && n'[k] == n0[k]
    ensures written' == StaleItems(n0, parent, children, t[..i + 1])
  {
    var child := t[i];
    StaleSnoc(n0, parent, children, t, i);
    assert t[..i + 1] == t[..i] + [child];
    if child in t[..i] {
      assert StaleItems(n0, parent, children, [child]) <= StaleItems(n0, parent, children, t[..i]);
    }
    forall c | c in t[..i + 1] && c in n0 && n0[c].ListItem?
      ensures Refreshed(n0, n', parent, children, c)
    {
      if c != child { assert c in t[..i]; }
    }
    forall k | k in n0 && k !in t[..i + 1] ensures k in n' && n'[k] == n0[k] {
      assert k !in t[..i] && k != child;
    }
  }

  /** One round of updateChildrenListItemValue's loop: refresh `targets[i]`
      and extend the written set, given the first `i` are done. */
  method RefreshNext(d: Doc, targets: seq<Key>, i: nat, ghost n0: map<Key, Node>, ghost p0: map<Key, Key>,
                     ghost c0: map<Key, seq<Key>>, written: set<Key>) returns (r: Result<set<Key>>)
    requires d.Valid() && d.parent == p0 && d.children == c0 && SameShape(n0, d.node) && i < |targets|
    requires forall c :: c in targets[..i] && c in n0 && n0[c].ListItem? ==> Refreshed(n0, d.node, p0, c0, c)
    requires forall k :: k in n0 && k !in targets[..i] ==> k in d.node && d.node[k] == n0[k]
    requires written == StaleItems(n0, p0, c0, targets[..i])
    modifies d
    ensures d.Valid() && d.children == c0 && d.parent == p0 && d.next == old(d.next) && SameShape(n0, d.node)
    ensures r.Err? <==> targets[i] in n0 && n0[targets[i]].ListItem? && ItemValue(n0, p0, c0, targets[i]).Err?
    ensures r.Ok? ==>
              && (forall c :: c in targets[..i + 1] && c in n0 && n0[c].ListItem? ==> Refreshed(n0, d.node, p0, c0, c))
              && (forall k :: k in n0 && k !in targets[..i + 1] ==> k in d.node && d.node[k] == n0[k])
              && r.value == StaleItems(n0, p0, c0, targets[..i + 1])
  {
    var child := targets[i];
    ghost var before := d.node;
    var wrote := RefreshItem(d, child, n0);
    if wrote.Err? {
      return Err(wrote.error);
    }
    var written' := written + (if wrote.value then {child} else {});
    RefreshStep(n0, before, d.node, p0, c0, targets, i, written, written', wrote.value);
    r := Ok(written');
  }

  /** A child of a list always has a computable value. */
  lemma ListChildValued(node: map<Key, Node>, parent: map<Key, Key>, children: map<Key, seq<Key>>, l: Key, c: Key)
    requires Linked(parent, children) && l in node && node[l].List? && l in children && c in children[l]
    ensures ItemValue(node, parent, children, c).Ok?
  {
    var i :| 0 <= i < |children[l]| && children[l][i] == c;
  }

  /** Once every list item among `l`'s children holds the value computed
      before the writes, the list's ordinals are current. */
  lemma AllRefreshedCurrent(n0: map<Key, Node>, n: map<Key, Node>, parent: map<Key, Key>, children: map<Key, seq<Key>>, l: Key)
    requires Linked(parent, children) && SameShape(n0, n) && l in children
    requires forall c :: c in children[l] && c in n0 && n0[c].ListItem? ==> Refreshed(n0, n, parent, children, c)
    ensures OrdinalsCurrent(n, parent, children, l)
  {
    forall c | c in children[l] && c in n && n[c].ListItem?
      ensures ItemValue(n, parent, children, c) == Ok(n[c].value)
    {
      ValueSameShape(n0, n, parent, children, c);
    }
  }

  /** Ordinals stay current under writes that leave `l`'s children alone. */
  lemma CurrentKept(n: map<Key, Node>, n': map<Key, Node>, parent: map<Key, Key>, children: map<Key, seq<Key>>, l: Key)
    requires Linked(parent, children) && SameShape(n, n') && OrdinalsCurrent(n, parent, children, l)
    requires l in children && forall c :: c in children[l] && c in n ==> n'[c] == n[c]
    ensures OrdinalsCurrent(n', parent, children, l)
  {
    forall c | c in children[l] && c in n' && n'[c].ListItem?
      ensures ItemValue(n', parent, children, c) == Ok(n'[c].value)
    {
      ValueSameShape(n, n', parent, children, c);
    }
  }

  /** updateChildrenListItemValue: refresh the value of every list item in
      `items` (all of `list`'s children when absent), writing only stale
      ones; returns the keys written. A list item whose parent is not a list
      is a fatal error. */
  method UpdateChildrenListItemValue(d: Doc, list: Key, items: Option<seq<Key>>) returns (r: Result<set<Key>>)
    requires d.Valid() && d.IsList(list)
    modifies d
    ensures d.Valid() && d.children == old(d.children) && d.parent == old(d.parent) && d.next == old(d.next)
    ensures SameShape(old(d.node), d.node)
    ensures var targets := if items.Some? then items.value else old(d.Children(list));
            r.Err? <==> exists c :: c in targets && old(d.IsListItem(c)) && ItemValue(old(d.node), d.parent, d.children, c).Err?
    ensures var targets := if items.Some? then items.value else old(d.Children(list));
            r.Ok? ==>
              && (forall c :: c in targets && old(d.IsListItem(c)) ==> Refreshed(old(d.node), d.node, d.parent, d.children, c))
              && (forall k :: k in old(d.node) && k !in targets ==> d.node[k] == old(d.node[k]))
              && r.value == StaleItems(old(d.node), d.parent, d.children, targets)
    ensures items.None? ==> r.Ok? && OrdinalsCurrent(d.node, d.parent, d.children, list)
  {
    var targets := if items.Some? then items.value else d.Children(list);
    ghost var n0, p0, c0 := d.node, d.parent, d.children;
    var written: set<Key> := {};
    var i := 0;
    while i < |targets|
      invariant i <= |targets|
      invariant d.Valid() && d.children == old(d.children) && d.parent == old(d.parent) && d.next == old(d.next)
      invariant SameShape(n0, d.node)
      // the items before `i` hold their computed values, the rest are untouched
      invariant forall c :: c in targets[..i] && c in n0 && n0[c].ListItem? ==> Refreshed(n0, d.node, p0, c0, c)
      invariant forall k :: k in n0 && k !in targets[..i] ==> k in d.node && d.node[k] == n0[k]
      invariant written == StaleItems(n0, p0, c0, targets[..i])
    {
      var step := RefreshNext(d, targets, i, n0, p0, c0, written);
      if step.Err? {
        assert targets[i] in targets;
        return Err(step.error);
      }
      written := step.value;
      i := i + 1;
    }
    assert targets[..i] == targets;
    r := Ok(written);
    if items.None? {
      AllRefreshedCurrent(n0, d.node, d.parent, d.children, list);
    }
  }
}
