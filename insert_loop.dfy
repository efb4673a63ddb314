/**
 * The loop of insertList over the selected nodes, and what it leaves behind:
 * every selected leaf whose climb meets a list item or a block right under a
 * root ends up inside a list item that sits alone in a list of the requested
 * type, and every list item or block insertList handled stays that way.
 */
module ListInsertLoop {
  import opened Seqs
  import opened Tree
  import opened ListWalks
  import opened ListSplit
  import opened ListRemove
  import opened ListInsert

  /** Every parent link joins two nodes of the arena. */
  ghost predicate ParentsIn(node: map<Key, Node>, parent: map<Key, Key>)
  {
    forall y :: y in parent ==> y in node && parent[y] in node
  }

  lemma WfParentsIn(node: map<Key, Node>, parent: map<Key, Key>, children: map<Key, seq<Key>>, next: Key)
    requires Wf(node, parent, children, next)
    ensures ParentsIn(node, parent)
  {
  }

  /** The `handled` set changes the climb only at blocks it holds, so when
      none of them sits right under a root the climb is the one without it. */
  lemma {:induction false} ClimbHandled(node: map<Key, Node>, parent: map<Key, Key>, k: Key, handled: set<Key>, rank: map<Key, nat>)
    requires Ranked(parent, rank)
    requires forall h :: h in handled ==> !Opens(node, parent, h, {})
    ensures ClimbStop(node, parent, k, handled, rank) == ClimbStop(node, parent, k, {}, rank)
    decreases if k in rank then rank[k] else 0
  {
    if !ItemAt(node, k) && k in parent && !Opens(node, parent, k, handled) {
      ClimbHandled(node, parent, parent[k], handled, rank);
    }
  }

  /** Climbing from a block that is not a list never stops at a list: a
      list's children are list items, where the climb would have stopped. */
  lemma {:induction false} ClimbNotList(node: map<Key, Node>, parent: map<Key, Key>, k: Key, rank: map<Key, nat>)
    requires Ranked(parent, rank) && ListsHoldItems(node, parent) && ParentsIn(node, parent) && !ListAt(node, k)
    ensures ClimbStop(node, parent, k, {}, rank).AtBlock? ==> !ListAt(node, ClimbStop(node, parent, k, {}, rank).block)
    decreases if k in rank then rank[k] else 0
  {
    if !ItemAt(node, k) && k in parent && !Opens(node, parent, k, {}) {
      ClimbNotList(node, parent, parent[k], rank);
    }
  }

  /** The climb from `k` is the same before and after a change that moves no
      block other than lists, list items and the blocks of `ex` (which sit
      right under a root): up to a block of `ex`, where it goes on from there
      in the new document. */
  lemma {:induction false} ClimbSame(n0: map<Key, Node>, p0: map<Key, Key>, n1: map<Key, Node>, p1: map<Key, Key>,
                                     k: Key, ex: set<Key>, r0: map<Key, nat>, r1: map<Key, nat>)
    requires Ranked(p0, r0) && Ranked(p1, r1) && ListsHoldItems(n0, p0) && ParentsIn(n0, p0)
    requires BlocksUnmoved(n0, p0, n1, p1, ex) && forall e :: e in ex ==> Opens(n0, p0, e, {})
    requires k in n0 && !n0[k].List?
    ensures var s := ClimbStop(n0, p0, k, {}, r0);
            if s.AtBlock? && s.block in ex then ClimbStop(n1, p1, k, {}, r1) == ClimbStop(n1, p1, s.block, {}, r1)
            else ClimbStop(n1, p1, k, {}, r1) == s
    decreases if k in r0 then r0[k] else 0
  {
    if ItemAt(n0, k) || k in ex {
    } else if k !in p0 {
    } else if Opens(n0, p0, k, {}) {
      assert p0[k] in n0;
    } else {
      var q := p0[k];
      assert q in n0 && !n0[q].List?;
      ClimbSame(n0, p0, n1, p1, q, ex, r0, r1);
    }
  }

  /** What insertList promises for a leaf it has processed: its climb meets
      nothing to wrap, and the list item it meets, if any, is converted. */
  ghost predicate Reached(node: map<Key, Node>, parent: map<Key, Key>, children: map<Key, seq<Key>>,
                          leaf: Key, lt: ListType, rank: map<Key, nat>)
    requires Ranked(parent, rank)
  {
    match LeafStop(node, parent, leaf, {}, rank)
    case AtItem(t) => Converted(node, parent, children, t, lt)
    case AtBlock(_) => false
    case Nowhere => true
  }

  /** Every leaf among the first `i` nodes is Reached. */
  ghost predicate AllReached(node: map<Key, Node>, parent: map<Key, Key>, children: map<Key, seq<Key>>,
                             nodes: seq<Key>, i: nat, lt: ListType, rank: map<Key, nat>)
    requires Ranked(parent, rank)
  {
    forall j :: 0 <= j < i && j < |nodes| && nodes[j] in node && node[nodes[j]].Text? ==>
      Reached(node, parent, children, nodes[j], lt, rank)
  }

  /** Each handled key is a converted list item, or a block that is neither a
      list nor a list item whose parent is a converted list item. */
  ghost predicate HandledIn(node: map<Key, Node>, parent: map<Key, Key>, children: map<Key, seq<Key>>, handled: set<Key>, lt: ListType)
  {
    forall h :: h in handled ==>
      || Converted(node, parent, children, h, lt)
      || (h in node && !node[h].ListItem? && !node[h].List? && h in parent && Converted(node, parent, children, parent[h], lt))
  }

  /** No handled key sits right under a root. */
  lemma HandledClosed(node: map<Key, Node>, parent: map<Key, Key>, children: map<Key, seq<Key>>, handled: set<Key>, lt: ListType)
    requires HandledIn(node, parent, children, handled, lt)
    ensures forall h :: h in handled ==> !Opens(node, parent, h, {})
  {
  }

  /** Old nodes keep their content; new nodes, from key `x0` on, are lists or
      list items. */
  ghost predicate Extended(n0: map<Key, Node>, n1: map<Key, Node>, x0: Key)
  {
    && (forall k :: k in n0 ==> k in n1 && n1[k] == n0[k])
    && (forall k :: k in n1 && k !in n0 ==> x0 <= k && (n1[k].List? || n1[k].ListItem?))
  }

  /** The block `b`, neither a list nor a list item, sits in a converted
      list item whose list is a child of the root `r`: where insertList
      leaves a block it wraps. */
  ghost predicate Enclosed(node: map<Key, Node>, parent: map<Key, Key>, children: map<Key, seq<Key>>, b: Key, r: Key, lt: ListType)
  {
    && b in node && !node[b].List? && !node[b].ListItem? && r in node && node[r].Root?
    && b in parent && Converted(node, parent, children, parent[b], lt)
    && parent[parent[b]] in parent && parent[parent[parent[b]]] == r
  }

  /** Every enclosed block stays enclosed, under the same root. */
  ghost predicate EnclosedKept(n0: map<Key, Node>, p0: map<Key, Key>, c0: map<Key, seq<Key>>, n1: map<Key, Node>, p1: map<Key, Key>, c1: map<Key, seq<Key>>, lt: ListType)
  {
    forall b, r :: Enclosed(n0, p0, c0, b, r, lt) ==> Enclosed(n1, p1, c1, b, r, lt)
  }

  /** The blocks of `wrapped` were right under a root at the start (`n0`,
      `p0`) and are now enclosed under that root; every other block that is
      neither a list nor a list item has kept its parent. */
  ghost predicate WrapsHeld(n0: map<Key, Node>, p0: map<Key, Key>, n: map<Key, Node>, p: map<Key, Key>, c: map<Key, seq<Key>>, wrapped: set<Key>, lt: ListType)
  {
    && BlocksUnmoved(n0, p0, n, p, wrapped)
    && forall b :: b in wrapped ==> Opens(n0, p0, b, {}) && Enclosed(n, p, c, b, p0[b], lt)
  }

  /** What one pass of the loop of insertList does to blocks: it wraps the
      blocks of `ex`, each right under a root before, and encloses them under
      that root; no other block that is neither a list nor a list item moves,
      and enclosed blocks stay enclosed. */
  ghost predicate StepFrame(n0: map<Key, Node>, p0: map<Key, Key>, c0: map<Key, seq<Key>>, n1: map<Key, Node>, p1: map<Key, Key>, c1: map<Key, seq<Key>>, ex: set<Key>, lt: ListType)
  {
    && BlocksUnmoved(n0, p0, n1, p1, ex)
    && (forall e :: e in ex ==> Opens(n0, p0, e, {}) && Enclosed(n1, p1, c1, e, p0[e], lt))
    && EnclosedKept(n0, p0, c0, n1, p1, c1, lt)
  }

  /** $changeListItemType keeps every enclosed block enclosed: the only list
      item it moves to a new list is `item`, and that list goes where the old
      one was. */
  lemma EnclosedRehomed(n0: map<Key, Node>, p0: map<Key, Key>, c0: map<Key, seq<Key>>, x0: Key, n1: map<Key, Node>, p1: map<Key, Key>, c1: map<Key, seq<Key>>, item: Key, lt: ListType)
    requires Wf(n0, p0, c0, x0) && item in p0 && p0[item] in p0 && ListAt(n0, p0[item])
    requires Rehomed(n0, p0, c0, x0, n1, p1, c1, item, lt) && BlocksUnmoved(n0, p0, n1, p1, {})
    requires ConvertedKept(n0, p0, c0, n1, p1, c1, lt)
    ensures EnclosedKept(n0, p0, c0, n1, p1, c1, lt)
  {
    forall b, r | Enclosed(n0, p0, c0, b, r, lt) ensures Enclosed(n1, p1, c1, b, r, lt) {
      var ni := p0[b];
      assert item in c0[p0[item]];
    }
  }

  /** WrapBlock keeps every enclosed block enclosed and encloses `b` under
      its root. */
  lemma EnclosedWrapped(n0: map<Key, Node>, p0: map<Key, Key>, c0: map<Key, seq<Key>>, x0: Key, n1: map<Key, Node>, p1: map<Key, Key>, c1: map<Key, seq<Key>>,
                        b: Key, r: Key, nl: Key, ni: Key, lt: ListType)
    requires Wrapped(n0, p0, c0, x0, n1, p1, c1, b, r, nl, ni, lt) && Opens(n0, p0, b, {})
    requires b in n0 && !n0[b].List? && !n0[b].ListItem?
    requires ConvertedKept(n0, p0, c0, n1, p1, c1, lt) && Converted(n1, p1, c1, ni, lt)
    ensures EnclosedKept(n0, p0, c0, n1, p1, c1, lt) && Enclosed(n1, p1, c1, b, r, lt)
  {
    assert nl !in n0 && ni !in n0 && nl !in p0 && ni !in p0;
  }

  lemma UnmovedTrans(n0: map<Key, Node>, p0: map<Key, Key>, n1: map<Key, Node>, p1: map<Key, Key>, n2: map<Key, Node>, p2: map<Key, Key>, e1: set<Key>, e2: set<Key>)
    requires BlocksUnmoved(n0, p0, n1, p1, e1) && BlocksUnmoved(n1, p1, n2, p2, e2)
    ensures BlocksUnmoved(n0, p0, n2, p2, e1 + e2)
  {
  }

  /** WrapsHeld across one more pass of the loop, which wrapped the blocks
      of `ex`. */
  lemma WrapsStep(n0: map<Key, Node>, p0: map<Key, Key>, x0: Key, n1: map<Key, Node>, p1: map<Key, Key>, c1: map<Key, seq<Key>>, n2: map<Key, Node>, p2: map<Key, Key>, c2: map<Key, seq<Key>>,
                  wrapped: set<Key>, ex: set<Key>, lt: ListType)
    requires WrapsHeld(n0, p0, n1, p1, c1, wrapped, lt) && Extended(n0, n1, x0) && ParentsIn(n1, p1) && ex !! wrapped
    requires StepFrame(n1, p1, c1, n2, p2, c2, ex, lt)
    ensures WrapsHeld(n0, p0, n2, p2, c2, wrapped + ex, lt)
  {
    UnmovedTrans(n0, p0, n1, p1, n2, p2, wrapped, ex);
    forall e | e in ex ensures Opens(n0, p0, e, {}) && Enclosed(n2, p2, c2, e, p0[e], lt) {
      assert e in n1 && n2[e] == n1[e] && p1[e] in n1;
    }
  }

  lemma ExtendedTrans(n0: map<Key, Node>, n1: map<Key, Node>, n2: map<Key, Node>, x0: Key, x1: Key)
    requires Extended(n0, n1, x0) && Extended(n1, n2, x1) && x0 <= x1
    ensures Extended(n0, n2, x0)
  {
  }

  /** A leaf stays Reached across a change that moves no block other than
      lists, list items and the blocks of `ex`, keeps converted list items
      converted and leaves each block of `ex` under a converted list item;
      the list item the climb met before may also have become converted by
      the change, and the climb may also have stopped at a block of `ex`. */
  lemma ReachedKept(n0: map<Key, Node>, p0: map<Key, Key>, c0: map<Key, seq<Key>>,
                    n1: map<Key, Node>, p1: map<Key, Key>, c1: map<Key, seq<Key>>,
                    ex: set<Key>, leaf: Key, lt: ListType, r0: map<Key, nat>, r1: map<Key, nat>)
    requires Ranked(p0, r0) && Ranked(p1, r1) && ListsHoldItems(n0, p0) && ParentsIn(n0, p0)
    requires BlocksUnmoved(n0, p0, n1, p1, ex) && forall e :: e in ex ==> Opens(n0, p0, e, {})
    requires ConvertedKept(n0, p0, c0, n1, p1, c1, lt)
    requires forall e :: e in ex ==> e in p1 && Converted(n1, p1, c1, p1[e], lt)
    requires leaf in n0 && n0[leaf].Text?
    requires var s := LeafStop(n0, p0, leaf, {}, r0);
             && (s.AtItem? ==> Converted(n0, p0, c0, s.item, lt) || Converted(n1, p1, c1, s.item, lt))
             && (s.AtBlock? ==> s.block in ex)
    ensures Reached(n1, p1, c1, leaf, lt, r1)
  {
    if leaf in ex {
      assert ItemAt(n1, p1[leaf]);
    } else if leaf in p0 {
      var k := p0[leaf];
      assert k in n0 && !n0[k].List?;
      ClimbSame(n0, p0, n1, p1, k, ex, r0, r1);
      var s := ClimbStop(n0, p0, k, {}, r0);
      if s.AtBlock? {
        var b := s.block;
        assert b in n0 && n1[b] == n0[b] && !n1[b].ListItem?;
        assert ItemAt(n1, p1[b]);
        assert ClimbStop(n1, p1, b, {}, r1) == ClimbStop(n1, p1, p1[b], {}, r1);
      }
    }
  }

  /** ReachedKept for all leaves already processed. */
  lemma AllReachedKept(n0: map<Key, Node>, p0: map<Key, Key>, c0: map<Key, seq<Key>>, x0: Key,
                       n1: map<Key, Node>, p1: map<Key, Key>, c1: map<Key, seq<Key>>,
                       ex: set<Key>, nodes: seq<Key>, i: nat, lt: ListType, r0: map<Key, nat>, r1: map<Key, nat>)
    requires Ranked(p0, r0) && Ranked(p1, r1) && ListsHoldItems(n0, p0) && ParentsIn(n0, p0)
    requires BlocksUnmoved(n0, p0, n1, p1, ex) && Extended(n0, n1, x0) && forall e :: e in ex ==> Opens(n0, p0, e, {})
    requires ConvertedKept(n0, p0, c0, n1, p1, c1, lt)
    requires forall e :: e in ex ==> e in p1 && Converted(n1, p1, c1, p1[e], lt)
    requires AllReached(n0, p0, c0, nodes, i, lt, r0)
    ensures AllReached(n1, p1, c1, nodes, i, lt, r1)
  {
    forall j | 0 <= j < i && j < |nodes| && nodes[j] in n1 && n1[nodes[j]].Text?
      ensures Reached(n1, p1, c1, nodes[j], lt, r1)
    {
      ReachedKept(n0, p0, c0, n1, p1, c1, ex, nodes[j], lt, r0, r1);
    }
  }

  /** HandledIn across such a change, for handled keys outside `ex`. */
  lemma HandledKept(n0: map<Key, Node>, p0: map<Key, Key>, c0: map<Key, seq<Key>>,
                    n1: map<Key, Node>, p1: map<Key, Key>, c1: map<Key, seq<Key>>,
                    handled: set<Key>, ex: set<Key>, lt: ListType)
    requires HandledIn(n0, p0, c0, handled, lt) && BlocksUnmoved(n0, p0, n1, p1, ex) && handled !! ex
    requires ConvertedKept(n0, p0, c0, n1, p1, c1, lt)
    ensures HandledIn(n1, p1, c1, handled, lt)
  {
    forall h | h in handled
      ensures || Converted(n1, p1, c1, h, lt)
              || (h in n1 && !n1[h].ListItem? && !n1[h].List? && h in p1 && Converted(n1, p1, c1, p1[h], lt))
    {
      if !Converted(n0, p0, c0, h, lt) {
        assert Converted(n0, p0, c0, p0[h], lt);
      }
    }
  }

  /** AllReached one node further, given the node just processed. */
  lemma AllReachedNext(node: map<Key, Node>, parent: map<Key, Key>, children: map<Key, seq<Key>>,
                       nodes: seq<Key>, i: nat, lt: ListType, rank: map<Key, nat>)
    requires Ranked(parent, rank) && AllReached(node, parent, children, nodes, i, lt, rank) && i < |nodes|
    requires nodes[i] in node && node[nodes[i]].Text? ==> Reached(node, parent, children, nodes[i], lt, rank)
    ensures AllReached(node, parent, children, nodes, i + 1, lt, rank)
  {
  }

  /** The levels after WrapBlock: the old ones tripled, with the new list and
      list item between the root and the wrapped block. */
  ghost function WrapRank(rank: map<Key, nat>, r: Key, nl: Key, ni: Key): map<Key, nat>
    requires r in rank
  {
    (map k | k in rank :: 3 * rank[k])[nl := 3 * rank[r] + 1][ni := 3 * rank[r] + 2]
  }

  /** The maps WrapBlock leaves, for the block `b` under the root `r`. */
  ghost predicate Wrapped(n0: map<Key, Node>, p0: map<Key, Key>, c0: map<Key, seq<Key>>, x0: Key,
                          n1: map<Key, Node>, p1: map<Key, Key>, c1: map<Key, seq<Key>>,
                          b: Key, r: Key, nl: Key, ni: Key, lt: ListType)
  {
    && Wf(n0, p0, c0, x0) && b in p0 && p0[b] == r && r in c0 && nl == x0 && ni == x0 + 1
    && n1 == n0[nl := List(lt, 1)][ni := ListItem(1, 0, 0, false)]
    && p1 == p0[nl := r][b := ni][ni := nl]
    && c1 == c0[r := Replaced(c0[r], b, nl)][nl := [ni]][ni := [b]]
  }

  lemma WrapRanked(n0: map<Key, Node>, p0: map<Key, Key>, c0: map<Key, seq<Key>>, x0: Key,
                   n1: map<Key, Node>, p1: map<Key, Key>, c1: map<Key, seq<Key>>,
                   b: Key, r: Key, nl: Key, ni: Key, lt: ListType, rank: map<Key, nat>)
    requires Wrapped(n0, p0, c0, x0, n1, p1, c1, b, r, nl, ni, lt) && Ranked(p0, rank)
    ensures r in rank && Ranked(p1, WrapRank(rank, r, nl, ni))
  {
    assert nl !in p0 && ni !in p0;
    assert forall y :: y in p0 ==> p0[y] != nl && p0[y] != ni;
  }

  lemma WrapHolds(n0: map<Key, Node>, p0: map<Key, Key>, c0: map<Key, seq<Key>>, x0: Key,
                  n1: map<Key, Node>, p1: map<Key, Key>, c1: map<Key, seq<Key>>,
                  b: Key, r: Key, nl: Key, ni: Key, lt: ListType)
    requires Wrapped(n0, p0, c0, x0, n1, p1, c1, b, r, nl, ni, lt) && Opens(n0, p0, b, {}) && ListsHoldItems(n0, p0)
    ensures ListsHoldItems(n1, p1)
  {
    assert nl !in n0 && ni !in n0;
    assert forall y :: y in p0 ==> y in n0 && p0[y] != nl && p0[y] != ni;
  }

  lemma WrapUnmoved(n0: map<Key, Node>, p0: map<Key, Key>, c0: map<Key, seq<Key>>, x0: Key,
                    n1: map<Key, Node>, p1: map<Key, Key>, c1: map<Key, seq<Key>>,
                    b: Key, r: Key, nl: Key, ni: Key, lt: ListType)
    requires Wrapped(n0, p0, c0, x0, n1, p1, c1, b, r, nl, ni, lt)
    ensures BlocksUnmoved(n0, p0, n1, p1, {b}) && Extended(n0, n1, x0)
  {
    assert nl !in n0 && ni !in n0;
  }

  lemma WrapConverted(n0: map<Key, Node>, p0: map<Key, Key>, c0: map<Key, seq<Key>>, x0: Key,
                      n1: map<Key, Node>, p1: map<Key, Key>, c1: map<Key, seq<Key>>,
                      b: Key, r: Key, nl: Key, ni: Key, lt: ListType)
    requires Wrapped(n0, p0, c0, x0, n1, p1, c1, b, r, nl, ni, lt) && Opens(n0, p0, b, {})
    ensures ConvertedKept(n0, p0, c0, n1, p1, c1, lt)
    ensures b in p1 && p1[b] == ni && Converted(n1, p1, c1, ni, lt)
  {
    assert nl !in n0 && ni !in n0 && nl !in c0 && ni !in c0;
    forall t | Converted(n0, p0, c0, t, lt) ensures Converted(n1, p1, c1, t, lt) {
      assert t != b && p0[t] != r;
    }
  }

  /** $changeListItemType on a list item insertList reaches, from the leaf
      `nodes[i]` or from the empty block `nodes[i]`. On failure nothing has
      changed. */
  method ItemStep(d: Doc, t: Key, lt: ListType, handled: set<Key>, nodes: seq<Key>, i: nat, ghost rank: map<Key, nat>)
      returns (ok: bool, ghost rank1: map<Key, nat>)
    requires d.Valid() && Ranked(d.parent, rank) && ListsHoldItems(d.node, d.parent) && d.IsListItem(t)
    requires HandledIn(d.node, d.parent, d.children, handled, lt) && AllReached(d.node, d.parent, d.children, nodes, i, lt, rank)
    requires i < |nodes| && (nodes[i] in d.node && d.node[nodes[i]].Text? ==> LeafStop(d.node, d.parent, nodes[i], {}, rank) == AtItem(t))
    modifies d
    ensures !ok ==> d.node == old(d.node) && d.parent == old(d.parent) && d.children == old(d.children) && d.next == old(d.next)
    ensures ok ==> && d.Valid() && Ranked(d.parent, rank1) && ListsHoldItems(d.node, d.parent)
                   && HandledIn(d.node, d.parent, d.children, handled, lt) && Converted(d.node, d.parent, d.children, t, lt)
                   && AllReached(d.node, d.parent, d.children, nodes, i + 1, lt, rank1)
                   && Extended(old(d.node), d.node, old(d.next)) && old(d.next) <= d.next
    ensures ok ==> StepFrame(old(d.node), old(d.parent), old(d.children), d.node, d.parent, d.children, {}, lt)
  {
    ghost var n0, p0, c0, x0 := d.node, d.parent, d.children, d.next;
    WfParentsIn(n0, p0, c0, x0);
    var r;
    r, rank1 := Rehome(d, t, lt, rank);
    if r.Err? {
      return false, rank1;
    }
    ok := true;
    EnclosedRehomed(n0, p0, c0, x0, d.node, d.parent, d.children, t, lt);
    AllReachedKept(n0, p0, c0, x0, d.node, d.parent, d.children, {}, nodes, i, lt, rank, rank1);
    if nodes[i] in d.node && d.node[nodes[i]].Text? {
      ReachedKept(n0, p0, c0, d.node, d.parent, d.children, {}, nodes[i], lt, rank, rank1);
    }
    AllReachedNext(d.node, d.parent, d.children, nodes, i, lt, rank1);
    HandledKept(n0, p0, c0, d.node, d.parent, d.children, handled, {}, lt);
  }

  /** The wrapping step for the leaf `nodes[i]`, whose climb stopped at the
      block `b`. */
  method WrapStep(d: Doc, b: Key, lt: ListType, handled: set<Key>, nodes: seq<Key>, i: nat, ghost rank: map<Key, nat>)
      returns (ghost rank1: map<Key, nat>)
    requires d.Valid() && Ranked(d.parent, rank) && ListsHoldItems(d.node, d.parent) && b !in handled
    requires HandledIn(d.node, d.parent, d.children, handled, lt) && AllReached(d.node, d.parent, d.children, nodes, i, lt, rank)
    requires i < |nodes| && nodes[i] in d.node && d.node[nodes[i]].Text? && LeafStop(d.node, d.parent, nodes[i], {}, rank) == AtBlock(b)
    modifies d
    ensures d.Valid() && Ranked(d.parent, rank1) && ListsHoldItems(d.node, d.parent)
    ensures HandledIn(d.node, d.parent, d.children, handled + {b}, lt)
    ensures AllReached(d.node, d.parent, d.children, nodes, i + 1, lt, rank1)
    ensures Extended(old(d.node), d.node, old(d.next)) && old(d.next) <= d.next
    ensures old(d.parent[b]) in d.children && d.children[old(d.parent[b])] == Replaced(old(d.children[d.parent[b]]), b, old(d.next))
    ensures StepFrame(old(d.node), old(d.parent), old(d.children), d.node, d.parent, d.children, {b}, lt)
  {
    ghost var n0, p0, c0, x0 := d.node, d.parent, d.children, d.next;
    var r := d.parent[b];
    var nl, ni := WrapBlock(d, b, lt);
    WrapAfter(n0, p0, c0, x0, d.node, d.parent, d.children, b, r, nl, ni, lt, handled, nodes, i, rank);
    WrapSlot(n0, p0, c0, x0, d.node, d.parent, d.children, b, r, nl, ni, lt);
    rank1 := WrapRank(rank, r, nl, ni);
  }

  /** The wrapped block's new list takes the block's slot under `r`. */
  lemma WrapSlot(n0: map<Key, Node>, p0: map<Key, Key>, c0: map<Key, seq<Key>>, x0: Key,
                 n1: map<Key, Node>, p1: map<Key, Key>, c1: map<Key, seq<Key>>,
                 b: Key, r: Key, nl: Key, ni: Key, lt: ListType)
    requires Wrapped(n0, p0, c0, x0, n1, p1, c1, b, r, nl, ni, lt)
    ensures r in c1 && c1[r] == Replaced(c0[r], b, x0)
  {
    KeyBelowNext(n0, p0, c0, x0, r);
  }

  /** What WrapStep establishes, on the maps before and after WrapBlock. */
  lemma WrapAfter(n0: map<Key, Node>, p0: map<Key, Key>, c0: map<Key, seq<Key>>, x0: Key,
                  n1: map<Key, Node>, p1: map<Key, Key>, c1: map<Key, seq<Key>>,
                  b: Key, r: Key, nl: Key, ni: Key, lt: ListType, handled: set<Key>, nodes: seq<Key>, i: nat, rank: map<Key, nat>)
    requires Wrapped(n0, p0, c0, x0, n1, p1, c1, b, r, nl, ni, lt)
    requires Ranked(p0, rank) && ListsHoldItems(n0, p0) && b !in handled
    requires HandledIn(n0, p0, c0, handled, lt) && AllReached(n0, p0, c0, nodes, i, lt, rank)
    requires i < |nodes| && nodes[i] in n0 && n0[nodes[i]].Text? && LeafStop(n0, p0, nodes[i], {}, rank) == AtBlock(b)
    ensures r in rank && Ranked(p1, WrapRank(rank, r, nl, ni)) && ListsHoldItems(n1, p1)
    ensures HandledIn(n1, p1, c1, handled + {b}, lt)
    ensures AllReached(n1, p1, c1, nodes, i + 1, lt, WrapRank(rank, r, nl, ni))
    ensures Extended(n0, n1, x0) && StepFrame(n0, p0, c0, n1, p1, c1, {b}, lt)
  {
    WfParentsIn(n0, p0, c0, x0);
    var leaf := nodes[i];
    assert p0[leaf] in n0 && !n0[p0[leaf]].List?;
    ClimbNotList(n0, p0, p0[leaf], rank);
    WrapRanked(n0, p0, c0, x0, n1, p1, c1, b, r, nl, ni, lt, rank);
    WrapHolds(n0, p0, c0, x0, n1, p1, c1, b, r, nl, ni, lt);
    WrapUnmoved(n0, p0, c0, x0, n1, p1, c1, b, r, nl, ni, lt);
    WrapConverted(n0, p0, c0, x0, n1, p1, c1, b, r, nl, ni, lt);
    EnclosedWrapped(n0, p0, c0, x0, n1, p1, c1, b, r, nl, ni, lt);
    var rank1 := WrapRank(rank, r, nl, ni);
    AllReachedKept(n0, p0, c0, x0, n1, p1, c1, {b}, nodes, i, lt, rank, rank1);
    ReachedKept(n0, p0, c0, n1, p1, c1, {b}, leaf, lt, rank, rank1);
    AllReachedNext(n1, p1, c1, nodes, i, lt, rank1);
    HandledKept(n0, p0, c0, n1, p1, c1, handled, {b}, lt);
  }

  /** One pass of the loop of insertList, on the node `nodes[i]`: an empty
      block not yet handled changes the type of the list of its nearest list
      item; a leaf climbs, and converts the list item it meets or wraps the
      block it stops at. Fails, changing nothing, where $changeListItemType
      throws. */
  method Step(d: Doc, lt: ListType, handled: set<Key>, nodes: seq<Key>, i: nat, ghost rank: map<Key, nat>)
      returns (ok: bool, handled1: set<Key>, ghost rank1: map<Key, nat>, ghost ex: set<Key>)
    requires d.Valid() && Ranked(d.parent, rank) && ListsHoldItems(d.node, d.parent) && i < |nodes|
    requires HandledIn(d.node, d.parent, d.children, handled, lt) && AllReached(d.node, d.parent, d.children, nodes, i, lt, rank)
    modifies d
    ensures !ok ==> d.node == old(d.node) && d.parent == old(d.parent) && d.children == old(d.children) && d.next == old(d.next)
    ensures ok ==> && d.Valid() && Ranked(d.parent, rank1) && ListsHoldItems(d.node, d.parent)
                   && HandledIn(d.node, d.parent, d.children, handled1, lt)
                   && AllReached(d.node, d.parent, d.children, nodes, i + 1, lt, rank1)
                   && Extended(old(d.node), d.node, old(d.next)) && old(d.next) <= d.next
    ensures ok ==> && handled <= handled1 && ex <= handled1 && ex !! handled
                   && StepFrame(old(d.node), old(d.parent), old(d.children), d.node, d.parent, d.children, ex, lt)
  {
    var k := nodes[i];
    ok, handled1, rank1, ex := true, handled, rank, {};
    if k in d.node && IsElement(d.node[k]) && d.Children(k) == [] && k !in handled {
      var t := NearestListItem(d, k, rank);
      if t.Some? {
        ok, rank1 := ItemStep(d, t.value, lt, handled, nodes, i, rank);
      } else {
        AllReachedNext(d.node, d.parent, d.children, nodes, i, lt, rank);
      }
    } else if IsLeaf(d, k) {
      ok, handled1, rank1, ex := LeafStep(d, lt, handled, nodes, i, rank);
    } else {
      AllReachedNext(d.node, d.parent, d.children, nodes, i, lt, rank);
    }
  }

  /** The pass for a leaf: it climbs, and converts the list item it meets
      or wraps the block it stops at. */
  method LeafStep(d: Doc, lt: ListType, handled: set<Key>, nodes: seq<Key>, i: nat, ghost rank: map<Key, nat>)
      returns (ok: bool, handled1: set<Key>, ghost rank1: map<Key, nat>, ghost ex: set<Key>)
    requires d.Valid() && Ranked(d.parent, rank) && ListsHoldItems(d.node, d.parent) && i < |nodes| && IsLeaf(d, nodes[i])
    requires HandledIn(d.node, d.parent, d.children, handled, lt) && AllReached(d.node, d.parent, d.children, nodes, i, lt, rank)
    modifies d
    ensures !ok ==> d.node == old(d.node) && d.parent == old(d.parent) && d.children == old(d.children) && d.next == old(d.next)
    ensures ok ==> && d.Valid() && Ranked(d.parent, rank1) && ListsHoldItems(d.node, d.parent)
                   && HandledIn(d.node, d.parent, d.children, handled1, lt)
                   && AllReached(d.node, d.parent, d.children, nodes, i + 1, lt, rank1)
                   && Extended(old(d.node), d.node, old(d.next)) && old(d.next) <= d.next
    ensures ok ==> && handled <= handled1 && ex <= handled1 && ex !! handled
                   && StepFrame(old(d.node), old(d.parent), old(d.children), d.node, d.parent, d.children, ex, lt)
  {
    var k := nodes[i];
    ok, handled1, rank1, ex := true, handled, rank, {};
    var s := Climb(d, k, handled, rank);
    HandledClosed(d.node, d.parent, d.children, handled, lt);
    if k in d.parent {
      ClimbHandled(d.node, d.parent, d.parent[k], handled, rank);
    }
    match s {
      case AtItem(t) =>
        if t in handled {
          assert Converted(d.node, d.parent, d.children, t, lt);
          AllReachedNext(d.node, d.parent, d.children, nodes, i, lt, rank);
        } else {
          ok, rank1 := ItemStep(d, t, lt, handled, nodes, i, rank);
          handled1 := handled + {t};
        }
      case AtBlock(b) =>
        rank1 := WrapStep(d, b, lt, handled, nodes, i, rank);
        handled1, ex := handled + {b}, {b};
      case Nowhere =>
        AllReachedNext(d.node, d.parent, d.children, nodes, i, lt, rank);
    }
  }

  /** The loop of insertList over the selected nodes. A throw inside
      $changeListItemType aborts the editor update, which restores the
      document as it was. */
  method ConvertAll(d: Doc, lt: ListType, nodes: seq<Key>, ghost rank: map<Key, nat>)
      returns (ok: bool, ghost rank1: map<Key, nat>, ghost wrapped: set<Key>)
    requires d.Valid() && Ranked(d.parent, rank) && ListsHoldItems(d.node, d.parent)
    modifies d
    ensures !ok ==> d.node == old(d.node) && d.parent == old(d.parent) && d.children == old(d.children) && d.next == old(d.next)
    ensures ok ==> && d.Valid() && Ranked(d.parent, rank1) && ListsHoldItems(d.node, d.parent)
                   && AllReached(d.node, d.parent, d.children, nodes, |nodes|, lt, rank1)
                   && Extended(old(d.node), d.node, old(d.next))
    ensures ok ==> && BlocksUnmoved(old(d.node), old(d.parent), d.node, d.parent, wrapped)
                   && (forall b :: b in wrapped ==>
                         old(Opens(d.node, d.parent, b, {})) && Enclosed(d.node, d.parent, d.children, b, old(d.parent[b]), lt))
  {
    var n0, p0, c0, x0 := d.node, d.parent, d.children, d.next;
    var handled: set<Key> := {};
    rank1, wrapped := rank, {};
    var i := 0;
    while i < |nodes|
      invariant 0 <= i <= |nodes| && x0 <= d.next
      invariant d.Valid() && Ranked(d.parent, rank1) && ListsHoldItems(d.node, d.parent)
      invariant HandledIn(d.node, d.parent, d.children, handled, lt)
      invariant AllReached(d.node, d.parent, d.children, nodes, i, lt, rank1)
      invariant Extended(n0, d.node, x0)
      invariant wrapped <= handled && WrapsHeld(n0, p0, d.node, d.parent, d.children, wrapped, lt)
    {
      ghost var n1, p1, c1, x1 := d.node, d.parent, d.children, d.next;
      var stepped;
      ghost var ex;
      stepped, handled, rank1, ex := Step(d, lt, handled, nodes, i, rank1);
      if !stepped {
        d.node, d.parent, d.children, d.next := n0, p0, c0, x0;
        return false, rank, {};
      }
      WfParentsIn(n1, p1, c1, x1);
      WrapsStep(n0, p0, x0, n1, p1, c1, d.node, d.parent, d.children, wrapped, ex, lt);
      ExtendedTrans(n0, n1, d.node, x0, x1);
      wrapped := wrapped + ex;
      i := i + 1;
    }
    ok := true;
  }

  /** Levels and list contents after the empty paragraph `a` under the root
      `p` gave its place to the new list `l` holding the new item `it`. */
  lemma EmptyRootAfter(n0: map<Key, Node>, p0: map<Key, Key>, c0: map<Key, seq<Key>>, x0: Key,
                       n1: map<Key, Node>, p1: map<Key, Key>, c1: map<Key, seq<Key>>,
                       a: Key, p: Key, l: Key, it: Key, li: Node, lt: ListType, rank: map<Key, nat>)
    returns (rank1: map<Key, nat>)
    requires Wf(n0, p0, c0, x0) && Ranked(p0, rank) && ListsHoldItems(n0, p0) && a in p0 && p0[a] == p
    requires p in n0 && n0[p].Root? && l == x0 && it == x0 + 1 && li.ListItem?
    requires n1 == n0[l := List(lt, 1)][it := li] && p1 == (p0 - {a})[l := p][it := l] && l in c1 && c1[l] == [it]
    ensures Converted(n1, p1, c1, it, lt)
    ensures Ranked(p1, rank1)
    ensures ListsHoldItems(n1, p1) && Extended(n0, n1, x0)
  {
    assert l !in n0 && it !in n0;
    assert forall y :: y in p0 ==> y in n0 && p0[y] in n0;
    var ra: nat := rank[a];
    rank1 := rank[l := ra][it := ra + 1];
  }

  /** An empty paragraph right under a root gives its place to a new list
      of type `lt` holding a new list item with the paragraph's indent and
      format. */
  method ListInPlace(d: Doc, a: Key, lt: ListType, ghost rank: map<Key, nat>) returns (l: Key, it: Key, ghost rank1: map<Key, nat>)
    requires d.Valid() && Ranked(d.parent, rank) && ListsHoldItems(d.node, d.parent)
    requires a in d.parent && a in d.node && d.node[a].Paragraph? && d.IsRoot(d.parent[a])
    modifies d
    ensures d.Valid() && Ranked(d.parent, rank1) && ListsHoldItems(d.node, d.parent) && Extended(old(d.node), d.node, old(d.next))
    ensures l == old(d.next) && it == l + 1 && Converted(d.node, d.parent, d.children, it, lt)
    ensures a !in d.parent && l in d.parent && d.parent[l] == old(d.parent[a])
    ensures old(d.parent[a]) in d.children && d.children[old(d.parent[a])] == Replaced(old(d.children[d.parent[a]]), a, l)
    ensures d.node[it] == ListItem(1, old(d.node[a].indent), old(d.node[a].format), false)
  {
    ghost var n0, p0, c0, x0 := d.node, d.parent, d.children, d.next;
    var p := d.parent[a];
    var n := d.node[a];
    l := d.Create(List(lt, 1));
    d.Replace(a, l);
    ghost var c1 := d.children;
    it := d.Create(ListItem(1, n.indent, n.format, false));
    d.Append(l, it);
    assert d.children[l] == [it] && d.children[p] == c1[p];
    rank1 := EmptyRootAfter(n0, p0, c0, x0, d.node, d.parent, d.children, a, p, l, it, ListItem(1, n.indent, n.format, false), lt, rank);
  }

  /** The branch of insertList for a selection on an empty paragraph inside a
      list item: under a root, ListInPlace; under a list item, that item
      changes list type; elsewhere nothing happens. */
  method InsertAtEmptyItem(d: Doc, a: Key, lt: ListType, ghost rank: map<Key, nat>) returns (ok: bool, ghost rank1: map<Key, nat>)
    requires d.Valid() && Ranked(d.parent, rank) && ListsHoldItems(d.node, d.parent)
    requires a in d.parent && a in d.node && d.node[a].Paragraph?
    modifies d
    ensures !ok ==> d.node == old(d.node) && d.parent == old(d.parent) && d.children == old(d.children) && d.next == old(d.next)
    ensures ok ==> d.Valid() && Ranked(d.parent, rank1) && ListsHoldItems(d.node, d.parent) && Extended(old(d.node), d.node, old(d.next))
    ensures old(d.IsRoot(d.parent[a])) ==> ok && Converted(d.node, d.parent, d.children, old(d.next) + 1, lt)
    ensures old(d.IsListItem(d.parent[a])) ==>
              && (ok <==> old(d.parent[a]) in old(d.parent) && old(d.IsList(d.parent[d.parent[a]]))
                          && old(d.parent[d.parent[a]]) in old(d.parent))
              && (ok ==> Converted(d.node, d.parent, d.children, old(d.parent[a]), lt))
    ensures !old(d.IsRoot(d.parent[a])) && !old(d.IsListItem(d.parent[a])) ==>
              ok && d.node == old(d.node) && d.parent == old(d.parent) && d.children == old(d.children)
  {
    var p := d.parent[a];
    ok, rank1 := true, rank;
    if d.IsRoot(p) {
      var l, it;
      l, it, rank1 := ListInPlace(d, a, lt, rank);
    } else if d.IsListItem(p) {
      ghost var n0 := d.node;
      var r;
      r, rank1 := Rehome(d, p, lt, rank);
      ok := r.Ok?;
      if ok {
        assert forall k :: k in d.node && k !in n0 ==> d.node[k].List?;
      }
    }
  }

  /** insertList: on a selection on an empty paragraph inside a list item,
      the branch above; otherwise the loop over the selected nodes, after
      which every selected leaf whose climb meets a list item or a block
      right under a root sits inside a list item alone in a list of type
      `lt`. On failure the update is discarded. */
  method InsertList(d: Doc, sel: Selection, lt: ListType, ghost rank: map<Key, nat>)
      returns (ok: bool, ghost rank1: map<Key, nat>, ghost wrapped: set<Key>)
    requires d.Valid() && Ranked(d.parent, rank) && ListsHoldItems(d.node, d.parent)
    modifies d
    ensures !ok ==> d.node == old(d.node) && d.parent == old(d.parent) && d.children == old(d.children) && d.next == old(d.next)
    ensures ok ==> d.Valid() && Ranked(d.parent, rank1) && ListsHoldItems(d.node, d.parent) && Extended(old(d.node), d.node, old(d.next))
    ensures old(IsSelectingEmptyListItem(d, sel.anchor.key, sel.nodes, rank)) && old(d.IsRoot(d.parent[sel.anchor.key])) ==>
              ok && Converted(d.node, d.parent, d.children, old(d.next) + 1, lt)
    ensures old(IsSelectingEmptyListItem(d, sel.anchor.key, sel.nodes, rank)) && old(d.IsListItem(d.parent[sel.anchor.key])) && ok ==>
              Converted(d.node, d.parent, d.children, old(d.parent[sel.anchor.key]), lt)
    ensures !old(IsSelectingEmptyListItem(d, sel.anchor.key, sel.nodes, rank)) && ok ==>
              && AllReached(d.node, d.parent, d.children, sel.nodes, |sel.nodes|, lt, rank1)
              && BlocksUnmoved(old(d.node), old(d.parent), d.node, d.parent, wrapped)
              && (forall b :: b in wrapped ==>
                    old(Opens(d.node, d.parent, b, {})) && Enclosed(d.node, d.parent, d.children, b, old(d.parent[b]), lt))
  {
    var a := sel.anchor.key;
    if IsSelectingEmptyListItem(d, a, sel.nodes, rank) {
      ok, rank1 := InsertAtEmptyItem(d, a, lt, rank);
      wrapped := {};
    } else {
      ok, rank1, wrapped := ConvertAll(d, lt, sel.nodes, rank);
    }
  }
}
