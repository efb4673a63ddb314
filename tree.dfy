/**
 * The document tree the list engine edits: an arena of nodes addressed by
 * key, with parent and children relations kept as lookups. The methods of
 * `Doc` are the tree primitives the list engine calls (append, insertAfter,
 * insertBefore, remove, replace, setValue, node creation).
 */
module Tree {
  import opened Seqs

  type Key = nat

  datatype ListType = Number | Bullet | Check

  /** The node kinds the list engine distinguishes. `Root` stands for the
      root and for every shadow root. */
  datatype Node =
    | Root
    | List(listType: ListType, start: int)
    | ListItem(value: int, indent: nat, format: nat, checked: bool)
    | Paragraph(indent: nat, format: nat)
    | Text(size: nat)

  datatype Option<T> = None | Some(value: T)

  predicate IsElement(n: Node) { !n.Text? }

  /** The nodes a list item merges into itself when appended to it: other
      list items. A list item holds blocks, so an appended paragraph or list
      stays a child of the item. */
  predicate CanMerge(n: Node) { n.ListItem? }

  /** Every parent link is mirrored by a child entry; no node is its own parent. */
  ghost predicate ParentsListed(parent: map<Key, Key>, children: map<Key, seq<Key>>)
  {
    forall k :: k in parent ==> parent[k] != k && parent[k] in children && k in children[parent[k]]
  }

  /** Every child entry is mirrored by a parent link. */
  ghost predicate ChildrenPointBack(parent: map<Key, Key>, children: map<Key, seq<Key>>)
  {
    forall p, i :: p in children && 0 <= i < |children[p]| ==>
      children[p][i] in parent && parent[children[p][i]] == p
  }

  ghost predicate NoDupChildren(children: map<Key, seq<Key>>)
  {
    forall p :: p in children ==> NoDup(children[p])
  }

  ghost predicate Linked(parent: map<Key, Key>, children: map<Key, seq<Key>>)
  {
    ParentsListed(parent, children) && ChildrenPointBack(parent, children) && NoDupChildren(children)
  }

  function Moved(parent: map<Key, Key>, tail: seq<Key>, to: Key): map<Key, Key>
  {
    parent + map c | c in tail :: to
  }

  /** Looking a key up after a move. */
  lemma MovedAt(parent: map<Key, Key>, tail: seq<Key>, to: Key, x: Key)
    ensures x in Moved(parent, tail, to) <==> x in parent || x in tail
    ensures x in tail ==> Moved(parent, tail, to)[x] == to
    ensures x !in tail && x in parent ==> Moved(parent, tail, to)[x] == parent[x]
  {
  }

  /** Moving the tail `children[from][i..]` to the end of `to` keeps the links. */
  lemma MoveKeepsLinks(parent: map<Key, Key>, children: map<Key, seq<Key>>, from: Key, i: nat, to: Key)
    requires Linked(parent, children) && from in children && to in children && from != to
    requires i <= |children[from]| && to !in children[from][i..]
    ensures Linked(Moved(parent, children[from][i..], to),
                   children[from := children[from][..i]][to := children[to] + children[from][i..]])
  {
    MovedAreFromChildren(parent, children, from, i, to);
    MoveListed(parent, children, from, i, to);
    MovePointsBack(parent, children, from, i, to);
    MoveNoDup(parent, children, from, i, to);
  }

  lemma MovePointsBack(parent: map<Key, Key>, children: map<Key, seq<Key>>, from: Key, i: nat, to: Key)
    requires Linked(parent, children) && from in children && to in children && from != to
    requires i <= |children[from]|
    requires forall j :: 0 <= j < i ==> children[from][j] !in children[from][i..]
    ensures ChildrenPointBack(Moved(parent, children[from][i..], to),
                   children[from := children[from][..i]][to := children[to] + children[from][i..]])
  {
    var s, t := children[from], children[to];
    var moved := s[i..];
    var parent' := Moved(parent, moved, to);
    var children' := children[from := s[..i]][to := t + moved];
    forall q, j | q in children' && 0 <= j < |children'[q]|
      ensures children'[q][j] in parent' && parent'[children'[q][j]] == q
    {
      if q == to && j >= |t| { assert children'[q][j] == moved[j - |t|]; }
      else if q == to { assert children'[q][j] == t[j]; assert parent[t[j]] == to; }
      else if q == from { assert children'[q][j] == s[j]; }
      else { assert children'[q][j] == children[q][j]; assert parent[children[q][j]] == q; }
    }
  }

  lemma MoveListed(parent: map<Key, Key>, children: map<Key, seq<Key>>, from: Key, i: nat, to: Key)
    requires Linked(parent, children) && from in children && to in children && from != to
    requires i <= |children[from]| && to !in children[from][i..]
    ensures ParentsListed(Moved(parent, children[from][i..], to),
                   children[from := children[from][..i]][to := children[to] + children[from][i..]])
  {
    var s, t := children[from], children[to];
    var moved := s[i..];
    var parent' := Moved(parent, moved, to);
    var children' := children[from := s[..i]][to := t + moved];
    forall c | c in parent' ensures parent'[c] != c && parent'[c] in children' && c in children'[parent'[c]] {
      if c in moved {
        var m :| 0 <= m < |moved| && moved[m] == c;
        assert children'[to][|t| + m] == c;
      } else if parent[c] == from {
        assert s == s[..i] + moved;
        assert c in s[..i];
      }
    }
  }

  lemma MoveNoDup(parent: map<Key, Key>, children: map<Key, seq<Key>>, from: Key, i: nat, to: Key)
    requires Linked(parent, children) && from in children && to in children && from != to
    requires i <= |children[from]|
    requires forall c :: c in children[to] ==> c !in children[from][i..]
    ensures NoDupChildren(children[from := children[from][..i]][to := children[to] + children[from][i..]])
  {
    var s, t := children[from], children[to];
    var moved := s[i..];
    assert NoDup(t + moved) by {
      forall a, b | 0 <= a < b < |t + moved| ensures (t + moved)[a] != (t + moved)[b] {
        if a < |t| && b >= |t| { assert (t + moved)[b] == moved[b - |t|]; }
        else if a >= |t| { assert (t + moved)[a] == s[i + a - |t|] && (t + moved)[b] == s[i + b - |t|]; }
      }
    }
    assert NoDup(s[..i]) by {
      forall a, b | 0 <= a < b < i ensures s[..i][a] != s[..i][b] { assert s[a] != s[b]; }
    }
  }

  lemma MovedAreFromChildren(parent: map<Key, Key>, children: map<Key, seq<Key>>, from: Key, i: nat, to: Key)
    requires Linked(parent, children) && from in children && to in children && from != to
    requires i <= |children[from]|
    ensures forall c :: c in children[to] ==> c !in children[from][i..]
    ensures forall j :: 0 <= j < i ==> children[from][j] !in children[from][i..]
  {
    var s, t := children[from], children[to];
    forall c | c in t ensures c !in s[i..] {
      var j :| 0 <= j < |t| && t[j] == c;
      assert parent[c] == to;
      forall m | 0 <= m < |s| - i ensures s[i..][m] != c { assert s[i..][m] == s[i + m]; }
    }
    forall j | 0 <= j < i ensures s[j] !in s[i..] {
      forall m | 0 <= m < |s| - i ensures s[i..][m] != s[j] { assert s[i..][m] == s[i + m]; }
    }
  }

  /** `children` once `k` has been taken out of its parent. */
  function Unlinked(parent: map<Key, Key>, children: map<Key, seq<Key>>, k: Key): map<Key, seq<Key>>
  {
    if k in parent && parent[k] in children
    then children[parent[k] := Without(children[parent[k]], k)]
    else children
  }

  lemma UnlinkKeepsLinks(parent: map<Key, Key>, children: map<Key, seq<Key>>, k: Key,
                          parent': map<Key, Key>, children': map<Key, seq<Key>>)
    requires Linked(parent, children)
    requires parent' == parent - {k} && children' == Unlinked(parent, children, k)
    ensures Linked(parent', children') && children'.Keys == children.Keys
  {
    if k in parent {
      UnlinkListed(parent, children, k, parent', children');
      UnlinkPointsBack(parent, children, k, parent', children');
      WithoutFacts(children[parent[k]], k);
    }
  }

  lemma UnlinkListed(parent: map<Key, Key>, children: map<Key, seq<Key>>, k: Key,
                     parent': map<Key, Key>, children': map<Key, seq<Key>>)
    requires Linked(parent, children) && k in parent
    requires parent' == parent - {k} && children' == Unlinked(parent, children, k)
    ensures ParentsListed(parent', children')
  {
    var p := parent[k];
    WithoutFacts(children[p], k);
    forall c | c in parent' ensures parent'[c] != c && parent'[c] in children' && c in children'[parent'[c]] {
      assert c != k && parent'[c] == parent[c];
    }
  }

  lemma UnlinkPointsBack(parent: map<Key, Key>, children: map<Key, seq<Key>>, k: Key,
                         parent': map<Key, Key>, children': map<Key, seq<Key>>)
    requires Linked(parent, children) && k in parent
    requires parent' == parent - {k} && children' == Unlinked(parent, children, k)
    ensures ChildrenPointBack(parent', children')
  {
    var p := parent[k];
    var s := children[p];
    WithoutFacts(s, k);
    forall q, i | q in children' && 0 <= i < |children'[q]|
      ensures children'[q][i] in parent' && parent'[children'[q][i]] == q
    {
      if q == p {
        var y := children'[q][i];
        assert y in s;
        var j :| 0 <= j < |s| && s[j] == y;
      } else {
        assert children'[q][i] == children[q][i];
      }
    }
  }

  lemma InsertKeepsLinks(parent: map<Key, Key>, children: map<Key, seq<Key>>, p: Key, i: nat, k: Key,
                          parent': map<Key, Key>, children': map<Key, seq<Key>>)
    requires Linked(parent, children) && p in children && k != p && k !in parent && i <= |children[p]|
    requires parent' == parent[k := p] && children' == children[p := children[p][..i] + [k] + children[p][i..]]
    ensures Linked(parent', children')
  {
    var s := children[p];
    assert k !in s by {
      forall j | 0 <= j < |s| ensures s[j] != k { assert s[j] in parent; }
    }
    NoDupInsert(s, i, k);
    var s' := s[..i] + [k] + s[i..];
    forall q, j | q in children' && 0 <= j < |children'[q]|
      ensures children'[q][j] in parent' && parent'[children'[q][j]] == q
    {
      if q == p && j != i {
        if j < i { assert s'[j] == s[j]; } else { assert s'[j] == s[j - 1]; }
      } else if q != p {
        assert children'[q][j] == children[q][j];
      }
    }
    forall c | c in parent' ensures parent'[c] != c && parent'[c] in children' && c in children'[parent'[c]] {
      if c != k && parent[c] == p {
        var j :| 0 <= j < |s| && s[j] == c;
        if j < i { assert s'[j] == c; } else { assert s'[j + 1] == c; }
      }
    }
  }

  /** The arena is well formed: every key in use has a children entry,
      links agree, and every key lies below `next`, so fresh keys are new. */
  ghost predicate Wf(node: map<Key, Node>, parent: map<Key, Key>, children: map<Key, seq<Key>>, next: Key)
  {
    && node.Keys == children.Keys
    && parent.Keys <= node.Keys
    && (forall k :: k in node ==> k < next)
    && Linked(parent, children)
  }

  /** Rebinding a key is the same whether or not it was bound before. */
  lemma Rebind(m: map<Key, Key>, k: Key, v: Key)
    ensures m[k := v] == (m - {k})[k := v]
  {
  }

  /** A later write to the same key overrides an earlier one. */
  lemma Reupdate<V>(m: map<Key, V>, a: Key, b: Key, x: V, y: V, z: V)
    requires a != b
    ensures m[a := x][b := y][a := z] == m[a := z][b := y]
  {
  }

  /** `children` after `k` is moved to the end of `p` (append). */
  function Appended(parent: map<Key, Key>, children: map<Key, seq<Key>>, p: Key, k: Key): map<Key, seq<Key>>
    requires p in children
  {
    var c := Unlinked(parent, children, k);
    c[p := c[p] + [k]]
  }

  lemma AppendWf(node: map<Key, Node>, parent: map<Key, Key>, children: map<Key, seq<Key>>, next: Key, p: Key, k: Key)
    requires Wf(node, parent, children, next) && p in node && k in node && k != p
    ensures Wf(node, parent[k := p], Appended(parent, children, p, k), next)
  {
    var c := Unlinked(parent, children, k);
    UnlinkKeepsLinks(parent, children, k, parent - {k}, c);
    var n := |c[p]|;
    assert c[p][..n] + [k] + c[p][n..] == c[p] + [k];
    Rebind(parent, k, p);
    InsertKeepsLinks(parent - {k}, c, p, n, k, parent[k := p], Appended(parent, children, p, k));
  }

  /** `children` after `k` is moved next to `ref`: right after it when
      `after`, right before it otherwise (insertAfter / insertBefore). */
  function Placed(parent: map<Key, Key>, children: map<Key, seq<Key>>, ref: Key, k: Key, after: bool): map<Key, seq<Key>>
    requires ref in parent
  {
    var c := Unlinked(parent, children, k);
    var p := parent[ref];
    // On a linked tree `ref` is still among `p`'s children once `k` is out
    // (PlaceWf), so the fallback is never taken there.
    if p in c && ref in c[p] then
      c[p := if after then InsertedAfter(c[p], ref, k) else InsertedBefore(c[p], ref, k)]
    else c
  }

  /** On a linked tree, placing `k` next to `ref` inserts it into the
      children of `ref`'s parent (with `k` already taken out) at some position `j`. */
  lemma PlacedShape(parent: map<Key, Key>, children: map<Key, seq<Key>>, ref: Key, k: Key, after: bool) returns (j: nat)
    requires Linked(parent, children) && ref in parent && k != ref
    ensures parent[ref] in Unlinked(parent, children, k)
    ensures j <= |Unlinked(parent, children, k)[parent[ref]]|
    ensures Placed(parent, children, ref, k, after)
         == Unlinked(parent, children, k)[parent[ref] := Unlinked(parent, children, k)[parent[ref]][..j] + [k]
                                                         + Unlinked(parent, children, k)[parent[ref]][j..]]
  {
    var p := parent[ref];
    var c := Unlinked(parent, children, k);
    if k in parent { WithoutFacts(children[parent[k]], k); }
    assert ref in c[p];
    var s := c[p];
    j := IndexOf(s, ref) + (if after then 1 else 0);
    var s' := if after then InsertedAfter(s, ref, k) else InsertedBefore(s, ref, k);
    assert s' == s[..j] + [k] + s[j..];
    assert Placed(parent, children, ref, k, after) == c[p := s'];
  }

  lemma PlaceWf(node: map<Key, Node>, parent: map<Key, Key>, children: map<Key, seq<Key>>, next: Key,
                ref: Key, k: Key, after: bool)
    requires Wf(node, parent, children, next) && ref in parent && k in node && k != ref && k != parent[ref]
    ensures Wf(node, parent[k := parent[ref]], Placed(parent, children, ref, k, after), next)
  {
    var p := parent[ref];
    var c := Unlinked(parent, children, k);
    UnlinkKeepsLinks(parent, children, k, parent - {k}, c);
    var j := PlacedShape(parent, children, ref, k, after);
    Rebind(parent, k, p);
    InsertKeepsLinks(parent - {k}, c, p, j, k, parent[k := p], Placed(parent, children, ref, k, after));
  }

  /** Placing a detached node touches only the reference's parent. */
  lemma PlacedDetached(parent: map<Key, Key>, children: map<Key, seq<Key>>, ref: Key, k: Key, after: bool)
    requires Linked(parent, children) && ref in parent && k != ref && k !in parent
    ensures ref in children[parent[ref]]
    ensures Placed(parent, children, ref, k, after)
         == children[parent[ref] := if after then InsertedAfter(children[parent[ref]], ref, k)
                                    else InsertedBefore(children[parent[ref]], ref, k)]
  {
  }

  /** Placing a node next to a reference under another parent: it leaves its
      old parent's list and enters the reference's. */
  lemma PlacedLinked(parent: map<Key, Key>, children: map<Key, seq<Key>>, ref: Key, k: Key, after: bool)
    requires Linked(parent, children) && ref in parent && k in parent && k != ref && parent[k] != parent[ref]
    ensures ref in children[parent[ref]]
    ensures Placed(parent, children, ref, k, after)
         == children[parent[k] := Without(children[parent[k]], k)]
                    [parent[ref] := if after then InsertedAfter(children[parent[ref]], ref, k)
                                    else InsertedBefore(children[parent[ref]], ref, k)]
  {
  }

  /** Appending a detached node touches only the new parent. */
  lemma AppendedDetached(parent: map<Key, Key>, children: map<Key, seq<Key>>, p: Key, k: Key)
    requires p in children && k !in parent
    ensures Appended(parent, children, p, k) == children[p := children[p] + [k]]
  {
  }

  /** Keys in use lie below `next`. */
  lemma KeyBelowNext(node: map<Key, Node>, parent: map<Key, Key>, children: map<Key, seq<Key>>, next: Key, k: Key)
    requires Wf(node, parent, children, next) && (k in node || k in parent)
    ensures k < next && k in children
  {
  }

  /** Appending a node that has a parent takes it out of that parent first. */
  lemma AppendedLinked(parent: map<Key, Key>, children: map<Key, seq<Key>>, p: Key, k: Key)
    requires Linked(parent, children) && p in children && k in parent && p != parent[k]
    ensures Appended(parent, children, p, k)
         == children[parent[k] := Without(children[parent[k]], k)][p := children[p] + [k]]
  {
  }

  /** A node without a parent is nobody's child. */
  lemma OrphanNotChild(parent: map<Key, Key>, children: map<Key, seq<Key>>, p: Key, k: Key)
    requires ChildrenPointBack(parent, children) && p in children && k !in parent
    ensures k !in children[p]
  {
    var s := children[p];
    forall j | 0 <= j < |s| ensures s[j] != k { assert s[j] in parent; }
  }

  /** A child of another node is not among `p`'s children. */
  lemma OrphanOrOther(parent: map<Key, Key>, children: map<Key, seq<Key>>, p: Key, k: Key)
    requires ChildrenPointBack(parent, children) && p in children && k in parent && parent[k] != p
    ensures k !in children[p]
  {
    forall i | 0 <= i < |children[p]| ensures children[p][i] != k { }
  }

  /** Taking `o` out after inserting `nw` right behind it. */
  lemma ReplaceMaps(parent: map<Key, Key>, children: map<Key, seq<Key>>, o: Key, nw: Key,
                    parent1: map<Key, Key>, c1: map<Key, seq<Key>>)
    requires Linked(parent, children) && o in parent && nw !in parent && nw != o
    requires nw !in children[parent[o]]
    requires parent1 == parent[nw := parent[o]]
    requires c1 == children[parent[o] := InsertedAfter(children[parent[o]], o, nw)]
    ensures o in children[parent[o]]
    ensures parent1 - {o} == (parent - {o})[nw := parent[o]]
    ensures Unlinked(parent1, c1, o) == children[parent[o] := Replaced(children[parent[o]], o, nw)]
  {
    InsertThenDrop(children[parent[o]], o, nw);
  }

  lemma ReplaceKeepsLinks(parent: map<Key, Key>, children: map<Key, seq<Key>>, o: Key, nw: Key)
    requires Linked(parent, children) && o in parent && nw !in parent && nw != o && nw != parent[o]
    ensures o in children[parent[o]]
    ensures Linked((parent - {o})[nw := parent[o]], children[parent[o] := Replaced(children[parent[o]], o, nw)])
  {
    var p := parent[o];
    var s := children[p];
    OrphanNotChild(parent, children, p, nw);
    var i := IndexOf(s, o) + 1;
    var c1 := children[p := s[..i] + [nw] + s[i..]];
    var parent1 := parent[nw := p];
    InsertKeepsLinks(parent, children, p, i, nw, parent1, c1);
    ReplaceMaps(parent, children, o, nw, parent1, c1);
    UnlinkKeepsLinks(parent1, c1, o, (parent - {o})[nw := p], children[p := Replaced(s, o, nw)]);
  }

  lemma ReplaceWf(node: map<Key, Node>, parent: map<Key, Key>, children: map<Key, seq<Key>>, next: Key, o: Key, nw: Key)
    requires Wf(node, parent, children, next) && o in parent && nw in node && nw !in parent && nw != o && nw != parent[o]
    ensures o in children[parent[o]]
    ensures Wf(node, (parent - {o})[nw := parent[o]], children[parent[o] := Replaced(children[parent[o]], o, nw)], next)
  {
    ReplaceKeepsLinks(parent, children, o, nw);
  }

  /** `x` reaches a node without parent after exactly `n` parent steps:
      the parent walk from `x` ends, `n` levels up. */
  ghost predicate RootedAt(parent: map<Key, Key>, x: Key, n: nat)
    decreases n
  {
    if n == 0 then x !in parent else x in parent && RootedAt(parent, parent[x], n - 1)
  }

  lemma {:induction false} RootedUnique(parent: map<Key, Key>, x: Key, n: nat, m: nat)
    requires RootedAt(parent, x, n) && RootedAt(parent, x, m)
    ensures n == m
    decreases n
  {
    if n != 0 && m != 0 { RootedUnique(parent, parent[x], n - 1, m - 1); }
  }

  /** Two node tables that differ at most in list-item ordinals. */
  ghost predicate SameShape(node1: map<Key, Node>, node2: map<Key, Node>)
  {
    && node1.Keys == node2.Keys
    && forall k :: k in node1 ==>
         (node1[k] == node2[k] || (node1[k].ListItem? && node2[k].ListItem? && node2[k] == node1[k].(value := node2[k].value)))
  }

  /** Sharing a shape is transitive. */
  lemma SameShapeTrans(n1: map<Key, Node>, n2: map<Key, Node>, n3: map<Key, Node>)
    requires SameShape(n1, n2) && SameShape(n2, n3)
    ensures SameShape(n1, n3)
  {
    forall k | k in n1
      ensures n1[k] == n3[k] || (n1[k].ListItem? && n3[k].ListItem? && n3[k] == n1[k].(value := n3[k].value))
    {
      assert k in n2;
    }
  }

  class Doc {
    var node: map<Key, Node>
    var parent: map<Key, Key>
    var children: map<Key, seq<Key>>
    var next: Key

    /** Parent and children agree, no child is listed twice, and every key
        in use lies below `next`, so fresh keys are new. */
    ghost predicate Valid()
      reads this
    {
      Wf(node, parent, children, next)
    }

    constructor ()
      ensures Valid()
      ensures node == map[0 := Root] && children == map[0 := []] && parent == map[] && next == 1
    {
      node, parent, children, next := map[0 := Root], map[], map[0 := []], 1;
    }

    /** Puts back a state saved before an update: an update that throws
        leaves the document as it was. */
    method Restore(n: map<Key, Node>, p: map<Key, Key>, c: map<Key, seq<Key>>, x: Key)
      requires Wf(n, p, c, x)
      modifies this
      ensures Valid() && node == n && parent == p && children == c && next == x
    {
      node, parent, children, next := n, p, c, x;
    }

    function Children(k: Key): seq<Key>
      reads this
    {
      if k in children then children[k] else []
    }

    predicate IsList(k: Key) reads this { k in node && node[k].List? }
    predicate IsListItem(k: Key) reads this { k in node && node[k].ListItem? }
    predicate IsRoot(k: Key) reads this { k in node && node[k].Root? }

    function FirstChild(k: Key): Option<Key>
      reads this
    {
      if Children(k) == [] then None else Some(Children(k)[0])
    }

    function LastChild(k: Key): Option<Key>
      reads this
    {
      if Children(k) == [] then None else Some(Children(k)[|Children(k)| - 1])
    }

    function ParentOf(k: Key): Option<Key>
      reads this
    {
      if k in parent then Some(parent[k]) else None
    }

    /** The siblings before `k`, in document order (getPreviousSiblings). */
    function PrevSiblings(k: Key): (r: seq<Key>)
      reads this
      requires Valid()
      ensures k in parent ==> |r| < |Children(parent[k])| && Children(parent[k])[|r|] == k && k !in r
      ensures k in parent ==> r == Children(parent[k])[..|r|]
      ensures k !in parent ==> r == []
    {
      if k in parent then children[parent[k]][..IndexOf(children[parent[k]], k)] else []
    }

    /** The siblings after `k` (getNextSiblings). */
    function NextSiblings(k: Key): (r: seq<Key>)
      reads this
      requires Valid()
      ensures k in parent ==> Children(parent[k]) == PrevSiblings(k) + [k] + r
      ensures k !in parent ==> r == []
    {
      if k in parent then children[parent[k]][IndexOf(children[parent[k]], k) + 1..] else []
    }

    /** `children` as it is once `k` has been taken out of its parent. */
    function ChildrenWithout(k: Key): map<Key, seq<Key>>
      reads this
    {
      Unlinked(parent, children, k)
    }

    /** Take `k` out of its parent (remove); the node stays in the arena. */
    method Remove(k: Key)
      requires Valid()
      modifies this
      ensures Valid() && node == old(node) && next == old(next)
      ensures parent == old(parent) - {k}
      ensures children == old(ChildrenWithout(k))
    {
      UnlinkKeepsLinks(parent, children, k, parent - {k}, Unlinked(parent, children, k));
      children := Unlinked(parent, children, k);
      parent := parent - {k};
    }

    /** Put the detached node `k` at position `i` among `p`'s children. */
    method InsertChild(p: Key, i: nat, k: Key)
      requires Valid() && p in node && k in node && k != p && k !in parent && i <= |children[p]|
      modifies this
      ensures Valid() && node == old(node) && next == old(next)
      ensures parent == old(parent)[k := p]
      ensures children == old(children)[p := old(children[p])[..i] + [k] + old(children[p])[i..]]
    {
      InsertKeepsLinks(parent, children, p, i, k, parent[k := p], children[p := children[p][..i] + [k] + children[p][i..]]);
      children := children[p := children[p][..i] + [k] + children[p][i..]];
      parent := parent[k := p];
    }

    /** Move `k` to the end of `p`'s children (append). */
    method Append(p: Key, k: Key)
      requires Valid() && p in node && k in node && k != p
      modifies this
      ensures Valid() && node == old(node) && next == old(next)
      ensures parent == old(parent)[k := p]
      ensures children == Appended(old(parent), old(children), p, k)
    {
      AppendWf(node, parent, children, next, p, k);
      children, parent := Appended(parent, children, p, k), parent[k := p];
    }

    /** ListItemNode's append of a list item `k` to the list item `p`:
        `k`'s children move, in order, to the end of `p`'s, and `k` is
        removed. */
    method MergeInto(p: Key, k: Key)
      requires Valid() && IsListItem(p) && k in node && CanMerge(node[k]) && k != p && p !in children[k]
      modifies this
      ensures Valid() && node == old(node) && next == old(next)
      ensures parent == Moved(old(parent), old(children[k]), p) - {k}
      ensures children == Unlinked(Moved(old(parent), old(children[k]), p),
                                   old(children)[k := []][p := old(children[p]) + old(children[k])], k)
    {
      assert children[k][0..] == children[k] && children[k][..0] == [];
      MoveChildren(k, 0, p);
      Remove(k);
    }

    /** `p.append(k)` as the class of `p` defines it: a list item merges a
        list item into itself (MergeInto); every other append moves `k`
        itself. */
    method AppendTo(p: Key, k: Key)
      requires Valid() && p in node && k in node && k != p
      requires IsListItem(p) && CanMerge(node[k]) ==> p !in children[k]
      modifies this
      ensures Valid() && node == old(node) && next == old(next)
      ensures old(IsListItem(p) && CanMerge(node[k])) ==>
                && parent == Moved(old(parent), old(children[k]), p) - {k}
                && children == Unlinked(Moved(old(parent), old(children[k]), p),
                                        old(children)[k := []][p := old(children[p]) + old(children[k])], k)
      ensures !old(IsListItem(p) && CanMerge(node[k])) ==>
                parent == old(parent)[k := p] && children == Appended(old(parent), old(children), p, k)
    {
      if IsListItem(p) && CanMerge(node[k]) {
        MergeInto(p, k);
      } else {
        Append(p, k);
      }
    }

    /** Move `k` to just after `ref` (insertAfter). */
    method InsertAfter(ref: Key, k: Key)
      requires Valid() && ref in parent && k in node && k != ref && k != parent[ref]
      modifies this
      ensures Valid() && node == old(node) && next == old(next)
      ensures parent == old(parent)[k := old(parent[ref])]
      ensures children == Placed(old(parent), old(children), ref, k, true)
    {
      PlaceWf(node, parent, children, next, ref, k, true);
      children, parent := Placed(parent, children, ref, k, true), parent[k := parent[ref]];
    }

    /** Move `k` to just before `ref` (insertBefore). */
    method InsertBefore(ref: Key, k: Key)
      requires Valid() && ref in parent && k in node && k != ref && k != parent[ref]
      modifies this
      ensures Valid() && node == old(node) && next == old(next)
      ensures parent == old(parent)[k := old(parent[ref])]
      ensures children == Placed(old(parent), old(children), ref, k, false)
    {
      PlaceWf(node, parent, children, next, ref, k, false);
      children, parent := Placed(parent, children, ref, k, false), parent[k := parent[ref]];
    }

    /** Move `from`'s children from position `i` on, in order, to the end of
        `to` (to.append(...from.getChildren().slice(i))). */
    method MoveChildren(from: Key, i: nat, to: Key)
      requires Valid() && from in node && to in node && from != to
      requires i <= |children[from]| && to !in children[from][i..]
      modifies this
      ensures Valid() && node == old(node) && next == old(next)
      ensures parent == Moved(old(parent), old(children[from][i..]), to)
      ensures children == old(children)[from := old(children[from][..i])]
                                       [to := old(children[to]) + old(children[from][i..])]
    {
      MoveKeepsLinks(parent, children, from, i, to);
      var s := children[from];
      children := children[from := s[..i]][to := children[to] + s[i..]];
      parent := Moved(parent, s[i..], to);
    }

    /** A fresh, detached node. */
    method Create(n: Node) returns (k: Key)
      requires Valid()
      modifies this
      ensures Valid() && k !in old(node) && k == old(next) && next == old(next) + 1
      ensures node == old(node)[k := n] && children == old(children)[k := []] && parent == old(parent)
    {
      k := next;
      node, children, next := node[k := n], children[k := []], next + 1;
    }

    /** Write a list item's ordinal (setValue). */
    method SetValue(k: Key, v: int)
      requires Valid() && IsListItem(k)
      modifies this
      ensures Valid() && children == old(children) && parent == old(parent) && next == old(next)
      ensures node == old(node)[k := old(node[k]).(value := v)]
    {
      node := node[k := node[k].(value := v)];
    }

    /** Put the detached node `nw` where `o` is and detach `o` (replace). */
    method Replace(o: Key, nw: Key)
      requires Valid() && o in parent && nw in node && nw !in parent && nw != o && nw != parent[o]
      modifies this
      ensures Valid() && node == old(node) && next == old(next)
      ensures parent == (old(parent) - {o})[nw := old(parent[o])]
      ensures children == old(children)[old(parent[o]) := Replaced(old(children[parent[o]]), o, nw)]
    {
      ReplaceWf(node, parent, children, next, o, nw);
      var p := parent[o];
      children, parent := children[p := Replaced(children[p], o, nw)], (parent - {o})[nw := p];
    }
  }
}
