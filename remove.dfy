/**
 * removeList: every list item of the lists the selection touches becomes a
 * paragraph holding the item's children, placed in order where the list
 * was; the items and the lists leave the document.
 */
module ListRemove {
  import opened Seqs
  import opened Tree
  import opened ListValues
  import opened ListWalks
  import opened ListSplit

  /** The `n` keys the arena hands out from `x0` on. */
  function Span(x0: Key, n: nat): (r: seq<Key>)
    ensures |r| == n && forall k :: 0 <= k < n ==> r[k] == x0 + k
  {
    seq(n, k => x0 + k)
  }

  /** `s` without the keys in `gone`, order kept. */
  function Minus(s: seq<Key>, gone: seq<Key>): (r: seq<Key>)
    ensures forall y :: y in r <==> y in s && y !in gone
  {
    if s == [] then []
    else (if s[0] in gone then [] else [s[0]]) + Minus(s[1..], gone)
  }

  /** Dropping nothing that is there. */
  lemma {:induction false} MinusNone(s: seq<Key>, gone: seq<Key>)
    requires forall y :: y in s ==> y !in gone
    ensures Minus(s, gone) == s
  {
    if s != [] {
      MinusNone(s[1..], gone);
      assert s == [s[0]] + s[1..];
    }
  }

  /** Dropping one more key that is there. */
  lemma {:induction false} MinusSnoc(s: seq<Key>, gone: seq<Key>, x: Key)
    requires NoDup(s)
    ensures Minus(s, gone + [x]) == Without(Minus(s, gone), x)
  {
    if s != [] {
      var t := s[1..];
      NoDupTail(s);
      MinusSnoc(t, gone, x);
      var m := Minus(t, gone);
      assert Minus(s, gone + [x]) == (if s[0] in gone + [x] then [] else [s[0]]) + Minus(t, gone + [x]);
      assert Minus(s, gone) == (if s[0] in gone then [] else [s[0]]) + m;
      if s[0] in gone {
        assert Minus(s, gone + [x]) == Without(m, x);
        assert Minus(s, gone) == m;
      } else if s[0] == x {
        assert x !in m;
        assert Without(m, x) == m;
        assert Minus(s, gone + [x]) == m;
        assert Minus(s, gone) == [x] + m;
        WithoutHeadOnce(x, m);
      } else {
        assert Minus(s, gone + [x]) == [s[0]] + Without(m, x);
        assert Minus(s, gone) == [s[0]] + m;
        WithoutCons(s[0], m, x);
      }
    }
  }

  lemma NoDupTail(s: seq<Key>)
    requires NoDup(s) && s != []
    ensures NoDup(s[1..]) && s[0] !in s[1..]
  {
    var t := s[1..];
    forall a, b | 0 <= a < b < |t| ensures t[a] != t[b] { assert t[a] == s[a + 1] && t[b] == s[b + 1]; }
    forall a | 0 <= a < |t| ensures t[a] != s[0] { assert t[a] == s[a + 1]; }
  }

  lemma WithoutHeadOnce(x: Key, m: seq<Key>)
    ensures Without([x] + m, x) == m
  {
    assert IndexOf([x] + m, x) == 0;
    assert ([x] + m)[1..] == m;
  }

  lemma WithoutCons(a: Key, m: seq<Key>, x: Key)
    requires a != x
    ensures Without([a] + m, x) == [a] + Without(m, x)
  {
    var s := [a] + m;
    if x in m {
      assert x in s;
      var i := IndexOf(s, x);
      assert 0 < i;
      assert s[1..] == m;
      assert IndexOf(m, x) == i - 1 by { IndexOfFirst(m, x, i - 1) by { assert m[..i - 1] == s[1..i]; } }
      assert s[..i] == [a] + m[..i - 1];
      assert s[i + 1..] == m[i..];
    }
  }

  /** A leaf node ($isLeafNode): in this model, a text node. */
  predicate IsLeaf(d: Doc, k: Key)
    reads d
  {
    k in d.node && d.node[k].Text?
  }

  /** One turn of removeList's inner loop: a new paragraph takes the
      children of the list item `li`, goes right after `ip`, and `li` leaves
      its list. */
  method UnwrapItem(d: Doc, ip: Key, li: Key) returns (para: Key)
    requires d.Valid() && ip in d.parent && li in d.parent && li != ip && li != d.parent[ip] && d.parent[li] != d.parent[ip]
    modifies d
    ensures d.Valid() && para == old(d.next) && d.next == old(d.next) + 1
    ensures d.node == old(d.node)[para := Paragraph(0, 0)]
    ensures d.parent == (Moved(old(d.parent), old(d.children[li]), para)[para := old(d.parent[ip])]) - {li}
    ensures d.children == old(d.children)[li := []][para := old(d.children[li])]
                                         [old(d.parent[ip]) := InsertedAfter(old(d.children[d.parent[ip]]), ip, para)]
                                         [old(d.parent[li]) := Without(old(d.children[d.parent[li]]), li)]
  {
    ghost var p0, c0 := d.parent, d.children;
    var g, l := d.parent[ip], d.parent[li];
    KeyBelowNext(d.node, p0, c0, d.next, li);
    KeyBelowNext(d.node, p0, c0, d.next, g);
    KeyBelowNext(d.node, p0, c0, d.next, l);
    FreshItemPrepare(d.node, p0, c0, d.next, li);
    para := d.Create(Paragraph(0, 0));
    ghost var cA := d.children;
    d.MoveChildren(li, 0, para);
    ghost var pB, cB := d.parent, d.children;
    UnwrapMoved(p0, c0, pB, li, ip, para);
    UnwrapKids(c0, cA, cB, li, para);
    UnwrapPlaced(pB, cB, c0, li, ip, para, g);
    d.InsertAfter(ip, para);
    ghost var pC, cC := d.parent, d.children;
    d.Remove(li);
    UnwrapDone(p0, c0, pC, cC, d.parent, d.children, li, ip, para);
  }

  lemma FreshItemPrepare(node: map<Key, Node>, parent: map<Key, Key>, children: map<Key, seq<Key>>, next: Key, li: Key)
    requires Wf(node, parent, children, next) && li in children
    ensures next !in children[li] && next !in parent && next !in children && li != next
  {
    FreshNotChild(node, parent, children, next, li, next);
  }

  /** Where the item and its neighbours hang once the children moved. */
  lemma UnwrapMoved(p0: map<Key, Key>, c0: map<Key, seq<Key>>, pB: map<Key, Key>, li: Key, ip: Key, para: Key)
    requires Linked(p0, c0) && ip in p0 && li in p0 && li != ip && li != p0[ip] && li in c0 && para !in p0
    requires pB == Moved(p0, c0[li], para)
    ensures ip in pB && pB[ip] == p0[ip] && para !in pB && li in pB && pB[li] == p0[li] && li !in c0[li]
  {
    OrphanOrOther(p0, c0, li, ip);
    OrphanOrOther(p0, c0, li, li);
    assert para !in c0[li] by { OrphanNotChild(p0, c0, li, para); }
    MovedAt(p0, c0[li], para, ip);
    MovedAt(p0, c0[li], para, li);
    MovedAt(p0, c0[li], para, para);
  }

  /** The paragraph has taken over the item's children. */
  lemma UnwrapKids(c0: map<Key, seq<Key>>, cA: map<Key, seq<Key>>, cB: map<Key, seq<Key>>, li: Key, para: Key)
    requires li in c0 && li != para && cA == c0[para := []]
    requires cB == cA[li := cA[li][..0]][para := cA[para] + cA[li][0..]]
    ensures cB == c0[li := []][para := c0[li]]
  {
    assert cA[li][0..] == c0[li] && cA[li][..0] == [] && cA[para] + c0[li] == c0[li];
  }

  /** The paragraph goes right behind `ip`. */
  lemma UnwrapPlaced(pB: map<Key, Key>, cB: map<Key, seq<Key>>, c0: map<Key, seq<Key>>, li: Key, ip: Key, para: Key, g: Key)
    requires Linked(pB, cB) && ip in pB && pB[ip] == g && para !in pB && para != ip && g != li && g != para && g in c0 && li in c0
    requires cB == c0[li := []][para := c0[li]]
    ensures Placed(pB, cB, ip, para, true) == c0[li := []][para := c0[li]][g := InsertedAfter(c0[g], ip, para)]
  {
    PlacedDetached(pB, cB, ip, para, true);
  }

  /** The item leaves its list last. */
  lemma UnwrapDone(p0: map<Key, Key>, c0: map<Key, seq<Key>>, pC: map<Key, Key>, cC: map<Key, seq<Key>>,
                   p1: map<Key, Key>, c1: map<Key, seq<Key>>, li: Key, ip: Key, para: Key)
    requires Linked(p0, c0) && ip in p0 && li in p0 && li in c0 && li != p0[ip] && p0[li] != p0[ip] && para !in c0 && para != li
    requires li !in c0[li]
    requires pC == Moved(p0, c0[li], para)[para := p0[ip]]
    requires cC == c0[li := []][para := c0[li]][p0[ip] := InsertedAfter(c0[p0[ip]], ip, para)]
    requires p1 == pC - {li} && c1 == Unlinked(pC, cC, li)
    ensures p1 == (Moved(p0, c0[li], para)[para := p0[ip]]) - {li}
    ensures c1 == c0[li := []][para := c0[li]][p0[ip] := InsertedAfter(c0[p0[ip]], ip, para)][p0[li] := Without(c0[p0[li]], li)]
  {
    MovedAt(p0, c0[li], para, li);
    assert pC[li] == p0[li] && p0[li] != para && p0[li] != li;
  }

  /** The nodes after `i` items were unwrapped: the old ones, unchanged,
      and `i` fresh paragraphs from `x0` on. */
  ghost predicate NodesAfter(n0: map<Key, Node>, x0: Key, i: nat, n: map<Key, Node>)
  {
    && (forall k {:trigger k in n} :: k in n <==> k in n0 || x0 <= k < x0 + i)
    && (forall k :: k in n0 ==> n[k] == n0[k])
    && (forall k :: x0 <= k < x0 + i ==> n[k] == Paragraph(0, 0))
  }

  /** What the walk relies on about the items of `l`: distinct list items,
      each hanging from a list below `l`, so that none is the child of
      another and none is `l`'s parent. */
  ghost predicate ItemsApart(n0: map<Key, Node>, p0: map<Key, Key>, c0: map<Key, seq<Key>>, rank: map<Key, nat>,
                             l: Key, items: seq<Key>)
  {
    && NoDup(items) && l in p0 && l in rank && p0[l] in rank && rank[p0[l]] < rank[l]
    && forall k :: 0 <= k < |items| ==> ItemApart(n0, p0, c0, rank, l, items, k)
  }

  /** Item `k` is a list item hanging from a list at or below `l`. */
  ghost predicate ItemApart(n0: map<Key, Node>, p0: map<Key, Key>, c0: map<Key, seq<Key>>, rank: map<Key, nat>,
                            l: Key, items: seq<Key>, k: nat)
    requires k < |items|
  {
    && items[k] in p0 && items[k] in c0 && items[k] in n0 && n0[items[k]].ListItem?
    && p0[items[k]] in n0 && n0[p0[items[k]]].List? && p0[items[k]] in c0
    && l in rank && items[k] in rank && p0[items[k]] in rank && rank[l] <= rank[p0[items[k]]] < rank[items[k]]
  }

  /** The items are old keys. */
  lemma ItemsBelow(n0: map<Key, Node>, p0: map<Key, Key>, c0: map<Key, seq<Key>>, x0: Key, rank: map<Key, nat>,
                   l: Key, items: seq<Key>)
    requires Wf(n0, p0, c0, x0) && ItemsApart(n0, p0, c0, rank, l, items)
    ensures Below(items, x0)
  {
    forall k | 0 <= k < |items| ensures items[k] < x0 { assert ItemApart(n0, p0, c0, rank, l, items, k); }
  }

  /** Every item is a key allocated before `x0`. */
  ghost predicate Below(items: seq<Key>, x0: Key)
  {
    forall k :: 0 <= k < |items| ==> items[k] < x0
  }

  /** ItemsApart, item by item. */
  lemma ItemsOpen(n0: map<Key, Node>, p0: map<Key, Key>, c0: map<Key, seq<Key>>, rank: map<Key, nat>,
                  l: Key, items: seq<Key>)
    requires ItemsApart(n0, p0, c0, rank, l, items)
    ensures forall k :: 0 <= k < |items| ==>
         && items[k] in p0 && items[k] in c0 && items[k] in n0 && n0[items[k]].ListItem?
         && p0[items[k]] in n0 && n0[p0[items[k]]].List? && p0[items[k]] in c0
         && items[k] in rank && p0[items[k]] in rank && rank[l] <= rank[p0[items[k]]] < rank[items[k]]
  {
    forall k | 0 <= k < |items|
      ensures && items[k] in p0 && items[k] in c0 && items[k] in n0 && n0[items[k]].ListItem?
              && p0[items[k]] in n0 && n0[p0[items[k]]].List? && p0[items[k]] in c0
              && items[k] in rank && p0[items[k]] in rank && rank[l] <= rank[p0[items[k]]] < rank[items[k]]
    {
      assert ItemApart(n0, p0, c0, rank, l, items, k);
    }
  }

  /** The items $getAllListItems returns for `l` meet ItemsApart. */
  lemma ItemsFacts(d: Doc, l: Key, rank: map<Key, nat>)
    requires d.Valid() && Ranked(d.parent, rank) && d.IsList(l) && l in d.parent
    ensures l in rank && ItemsApart(d.node, d.parent, d.children, rank, l, AllListItems(d, l, rank))
  {
    var items := AllListItems(d, l, rank);
    AllMembers(d, l, rank);
    AllNoDup(d, l, rank);
    forall k | 0 <= k < |items|
      ensures items[k] in d.parent && items[k] in rank && d.parent[items[k]] in rank && rank[l] <= rank[d.parent[items[k]]] < rank[items[k]]
    {
      assert CollectedItem(d, items[k]);
      PathRank(d.parent, rank, d.parent[items[k]], l);
    }
    forall k | 0 <= k < |items| ensures ItemApart(d.node, d.parent, d.children, rank, l, items, k) { }
  }

  /** The children once the first `i` items of `l` were unwrapped: their
      paragraphs follow `l` in its parent `g`, each holding its item's
      children, and every list has lost those items. */
  ghost predicate KidsUnwrapped(c0: map<Key, seq<Key>>, c: map<Key, seq<Key>>, g: Key, l: Key, items: seq<Key>, x0: Key, i: nat)
    requires g in c0 && l in c0[g] && i <= |items|
  {
    var j := IndexOf(c0[g], l);
    && KeysFrom(c0, c, x0, i)
    && g in c && c[g] == c0[g][..j + 1] + Span(x0, i) + c0[g][j + 1..]
    && ItemsEmptied(c0, c, items, x0, i)
    && ListsFiltered(c0, c, g, items[..i])
  }

  /** The keys of `c` are those of `c0` and `i` fresh ones from `x0` on. */
  ghost predicate KeysFrom(c0: map<Key, seq<Key>>, c: map<Key, seq<Key>>, x0: Key, i: nat)
  {
    forall q {:trigger q in c} :: q in c <==> q in c0 || x0 <= q < x0 + i
  }

  /** One more fresh key. */
  lemma KeysGrow(c0: map<Key, seq<Key>>, c: map<Key, seq<Key>>, c1: map<Key, seq<Key>>, x0: Key, i: nat)
    requires KeysFrom(c0, c, x0, i) && forall q :: q in c1 <==> q in c || q == x0 + i
    ensures KeysFrom(c0, c1, x0, i + 1)
  {
  }

  /** The first `i` items have no children left; paragraph `x0 + k` holds
      what item `k` held. */
  ghost predicate ItemsEmptied(c0: map<Key, seq<Key>>, c: map<Key, seq<Key>>, items: seq<Key>, x0: Key, i: nat)
    requires i <= |items|
  {
    forall k :: 0 <= k < i ==> items[k] in c0 && items[k] in c && c[items[k]] == [] && x0 + k in c && c[x0 + k] == c0[items[k]]
  }

  /** Every node but `g` has lost exactly the keys in `gone` from its children. */
  ghost predicate ListsFiltered(c0: map<Key, seq<Key>>, c: map<Key, seq<Key>>, g: Key, gone: seq<Key>)
  {
    forall q {:trigger Minus(c0[q], gone)} :: q in c0 && q in c && q != g && q !in gone ==> c[q] == Minus(c0[q], gone)
  }

  /** The parent links once the first `i` items of `l` were unwrapped: the
      items are out, their paragraphs hang from `g` and hold their children,
      and nothing else moved. */
  ghost predicate ParentsUnwrapped(p0: map<Key, Key>, c0: map<Key, seq<Key>>, p: map<Key, Key>, g: Key, items: seq<Key>, x0: Key, i: nat)
    requires i <= |items|
  {
    && (forall y {:trigger y in p} :: y in p <==> (y in p0 && y !in items[..i]) || x0 <= y < x0 + i)
    && (forall y :: x0 <= y < x0 + i ==> y in p && p[y] == g)
    && (forall k, t :: 0 <= k < i && items[k] in c0 && 0 <= t < |c0[items[k]]| ==>
          c0[items[k]][t] in p && p[c0[items[k]][t]] == x0 + k)
    && (forall y :: y in p0 && y !in items[..i] && p0[y] !in items[..i] ==> y in p && p[y] == p0[y])
  }

  /** The paragraph made for item `i` goes right behind the one before it,
      or behind the list for the first item. */
  lemma SpanGrows(a: seq<Key>, b: seq<Key>, x0: Key, i: nat, ip: Key, para: Key, s0: seq<Key>, s1: seq<Key>)
    requires a != [] && s0 == a + Span(x0, i) + b && NoDup(s0) && ip == (if i == 0 then a[|a| - 1] else x0 + i - 1)
    requires para == x0 + i && ip in s0 && s1 == InsertedAfter(s0, ip, para)
    ensures s1 == a + Span(x0, i + 1) + b
  {
    var s := a + Span(x0, i) + b;
    var r := |a| + i - 1;
    assert s[r] == ip;
    IndexOfNoDup(s, r);
    assert s[..r + 1] == a + Span(x0, i);
    assert s[r + 1..] == b;
    assert Span(x0, i) + [x0 + i] == Span(x0, i + 1);
  }

  /** No child of an item is an item. */
  lemma ChildNotItem(n0: map<Key, Node>, p0: map<Key, Key>, c0: map<Key, seq<Key>>, rank: map<Key, nat>,
                     l: Key, items: seq<Key>, k: nat, y: Key)
    requires Linked(p0, c0) && ItemsApart(n0, p0, c0, rank, l, items) && k < |items|
    requires ItemApart(n0, p0, c0, rank, l, items, k) && y in c0[items[k]]
    ensures y in p0 && p0[y] == items[k] && y !in items
  {
    ItemsOpen(n0, p0, c0, rank, l, items);
    var t :| 0 <= t < |c0[items[k]]| && c0[items[k]][t] == y;
  }

  /** Item `i` is ready to be unwrapped: it still hangs from its list and
      keeps its children, and the insertion point hangs from `l`'s parent. */
  lemma StepReady(n0: map<Key, Node>, p0: map<Key, Key>, c0: map<Key, seq<Key>>, x0: Key, rank: map<Key, nat>,
                  l: Key, items: seq<Key>, p: map<Key, Key>, c: map<Key, seq<Key>>, i: nat, ip: Key)
    requires Wf(n0, p0, c0, x0) && ItemsApart(n0, p0, c0, rank, l, items) && i < |items|
    requires ItemApart(n0, p0, c0, rank, l, items, i)
    requires KidsUnwrapped(c0, c, p0[l], l, items, x0, i) && ParentsUnwrapped(p0, c0, p, p0[l], items, x0, i)
    requires ip == if i == 0 then l else x0 + i - 1
    ensures ip in p && p[ip] == p0[l] && items[i] in p && p[items[i]] == p0[items[i]]
    ensures items[i] != ip && items[i] != p0[l] && p0[items[i]] != p0[l] && p0[items[i]] in c0
    ensures items[i] in c && c[items[i]] == c0[items[i]] && p0[items[i]] in c
  {
    ItemsOpen(n0, p0, c0, rank, l, items);
    var g, li := p0[l], items[i];
    assert li !in items[..i] by { forall k | 0 <= k < i ensures items[k] != li { } }
    assert p0[li] !in items[..i] by {
      forall k | 0 <= k < i ensures items[k] != p0[li] { assert n0[items[k]].ListItem?; }
    }
    assert l !in items[..i] && g !in items[..i] by {
      forall k | 0 <= k < i ensures items[k] != l && items[k] != g { }
    }
    forall y | y in c0[li] ensures y !in items[..i] { ChildNotItem(n0, p0, c0, rank, l, items, i, y); }
    MinusNone(c0[li], items[..i]);
  }

  /** Taking item `li` out of its list `pl` filters one more item out of
      every node. */
  lemma MinusStep(c0: map<Key, seq<Key>>, c: map<Key, seq<Key>>, c1: map<Key, seq<Key>>,
                  g: Key, pre: seq<Key>, li: Key, pl: Key)
    requires pl in c0 && pl != g && pl in c && NoDup(c0[pl])
    requires forall q :: q in c0 && li in c0[q] ==> q == pl
    requires ListsFiltered(c0, c, g, pre) && forall q :: q in c0 ==> q in c
    requires forall q :: q in c && q != li && q != g && q != pl ==> q in c1 && c1[q] == c[q]
    requires pl !in pre && pl != li && pl in c1 && c1[pl] == Without(c[pl], li)
    ensures ListsFiltered(c0, c1, g, pre + [li])
  {
    forall q | q in c0 && q in c1 && q != g && q !in pre + [li] ensures c1[q] == Minus(c0[q], pre + [li]) {
      assert c[q] == Minus(c0[q], pre);
      if q == pl {
        MinusSnoc(c0[q], pre, li);
      } else {
        MinusTwice(c0[q], pre, li);
      }
    }
  }

  lemma SnocSlice(s: seq<Key>, i: nat)
    requires i < |s|
    ensures s[..i + 1] == s[..i] + [s[i]]
  {
  }

  /** Filtering out a key the sequence does not hold changes nothing. */
  lemma {:induction false} MinusTwice(s: seq<Key>, pre: seq<Key>, li: Key)
    requires li !in s
    ensures Minus(s, pre + [li]) == Minus(s, pre)
  {
    if s != [] {
      MinusTwice(s[1..], pre, li);
      assert s[0] in pre + [li] <==> s[0] in pre;
    }
  }

  /** Where the map stands after one item was unwrapped. */
  lemma UnwrapUpdate(c: map<Key, seq<Key>>, c1: map<Key, seq<Key>>, li: Key, para: Key, g: Key, pl: Key,
                     y: seq<Key>, z: seq<Key>)
    requires li in c && g in c && pl in c && para !in c && li != g && li != pl && g != pl
    requires c1 == c[li := []][para := c[li]][g := y][pl := z]
    ensures forall q :: q in c1 <==> q in c || q == para
    ensures c1[li] == [] && c1[para] == c[li] && c1[g] == y && c1[pl] == z
    ensures forall q :: q in c && q != li && q != g && q != pl ==> q in c1 && c1[q] == c[q]
  {
  }

  /** One more item unwrapped, as far as children go. */
  lemma KidsStep(c0: map<Key, seq<Key>>, x0: Key, g: Key, l: Key, items: seq<Key>, pl: Key,
                 c: map<Key, seq<Key>>, c1: map<Key, seq<Key>>, i: nat, ip: Key, para: Key)
    requires (forall q :: q in c0 ==> q < x0) && g in c0 && l in c0[g] && para == x0 + i
    requires i < |items| && items[i] in c0 && pl in c0 && NoDup(c0[pl]) && pl !in items && g !in items
    requires items[i] !in items[..i] && pl != g && items[i] != g
    requires forall q :: q in c0 && items[i] in c0[q] ==> q == pl
    requires KidsUnwrapped(c0, c, g, l, items, x0, i) && NoDup(c[g]) && ip in c[g]
    requires ip == if i == 0 then l else x0 + i - 1
    requires items[i] in c && c[items[i]] == c0[items[i]] && pl in c
    requires forall q :: q in c1 <==> q in c || q == para
    requires c1[items[i]] == [] && c1[para] == c[items[i]]
    requires c1[g] == InsertedAfter(c[g], ip, para) && c1[pl] == Without(c[pl], items[i])
    requires forall q :: q in c && q != items[i] && q != g && q != pl ==> q in c1 && c1[q] == c[q]
    ensures KidsUnwrapped(c0, c1, g, l, items, x0, i + 1)
  {
    KeysGrow(c0, c, c1, x0, i);
    assert forall q :: q in c0 ==> q in c;
    FilteredStep(c0, c, c1, g, items, i, pl);
    GroupStep(c0, c, c1, x0, g, l, i, ip, para);
    ItemsStep(c0, c, c1, x0, items, i, g, pl);
  }

  /** One more item filtered out of every list but `g`. */
  lemma FilteredStep(c0: map<Key, seq<Key>>, c: map<Key, seq<Key>>, c1: map<Key, seq<Key>>, g: Key, items: seq<Key>,
                     i: nat, pl: Key)
    requires i < |items| && pl in c0 && pl != g && pl in c && NoDup(c0[pl]) && pl !in items
    requires forall q :: q in c0 && items[i] in c0[q] ==> q == pl
    requires ListsFiltered(c0, c, g, items[..i]) && forall q :: q in c0 ==> q in c
    requires forall q :: q in c && q != items[i] && q != g && q != pl ==> q in c1 && c1[q] == c[q]
    requires pl in c1 && c1[pl] == Without(c[pl], items[i])
    ensures ListsFiltered(c0, c1, g, items[..i + 1])
  {
    assert pl !in items[..i] && pl != items[i];
    MinusStep(c0, c, c1, g, items[..i], items[i], pl);
    SnocSlice(items, i);
  }

  /** One more paragraph right after the previous one among `g`'s children. */
  lemma GroupStep(c0: map<Key, seq<Key>>, c: map<Key, seq<Key>>, c1: map<Key, seq<Key>>, x0: Key, g: Key, l: Key,
                  i: nat, ip: Key, para: Key)
    requires g in c0 && l in c0[g] && g in c && g in c1 && para == x0 + i
    requires c[g] == c0[g][..IndexOf(c0[g], l) + 1] + Span(x0, i) + c0[g][IndexOf(c0[g], l) + 1..]
    requires NoDup(c[g]) && ip in c[g] && ip == (if i == 0 then l else x0 + i - 1)
    requires c1[g] == InsertedAfter(c[g], ip, para)
    ensures c1[g] == c0[g][..IndexOf(c0[g], l) + 1] + Span(x0, i + 1) + c0[g][IndexOf(c0[g], l) + 1..]
  {
    var j := IndexOf(c0[g], l);
    var a := c0[g][..j + 1];
    assert a[|a| - 1] == l;
    SpanGrows(a, c0[g][j + 1..], x0, i, ip, para, c[g], c1[g]);
  }

  /** The unwrapped items stay empty and their paragraphs keep their
      children while one more item is unwrapped. */
  lemma ItemsStep(c0: map<Key, seq<Key>>, c: map<Key, seq<Key>>, c1: map<Key, seq<Key>>, x0: Key, items: seq<Key>,
                  i: nat, g: Key, pl: Key)
    requires (forall q :: q in c0 ==> q < x0) && i < |items| && items[i] in c0 && g < x0 && pl < x0
    requires items[i] != g && items[i] != pl && items[i] !in items[..i] && g !in items && pl !in items
    requires ItemsEmptied(c0, c, items, x0, i)
    requires items[i] in c && c[items[i]] == c0[items[i]]
    requires forall q :: q in c1 <==> q in c || q == x0 + i
    requires c1[items[i]] == [] && c1[x0 + i] == c0[items[i]]
    requires forall q :: q in c && q != items[i] && q != g && q != pl ==> q in c1 && c1[q] == c[q]
    ensures ItemsEmptied(c0, c1, items, x0, i + 1)
  {
    forall k | 0 <= k < i ensures items[k] != items[i] && items[k] != g && items[k] != pl {
      assert items[k] in items[..i];
    }
  }

  /** Where the parent links stand after one item was unwrapped. */
  lemma ParentUpdate(p: map<Key, Key>, p1: map<Key, Key>, kids: seq<Key>, li: Key, para: Key, g: Key)
    requires para !in p && li !in kids && para !in kids && li != para
    requires p1 == (Moved(p, kids, para)[para := g]) - {li}
    ensures forall y :: y in p1 <==> (y in p || y in kids || y == para) && y != li
    ensures p1[para] == g
    ensures forall y :: y in kids ==> p1[y] == para
    ensures forall y :: y in p && y !in kids && y != li && y != para ==> p1[y] == p[y]
  {
    forall y ensures y in Moved(p, kids, para) <==> y in p || y in kids { MovedAt(p, kids, para, y); }
    forall y | y in kids ensures p1[y] == para { MovedAt(p, kids, para, y); }
    forall y | y in p && y !in kids && y != li && y != para ensures p1[y] == p[y] { MovedAt(p, kids, para, y); }
  }

  /** One more item unwrapped, as far as parent links go. */
  lemma ParentsStep(p0: map<Key, Key>, c0: map<Key, seq<Key>>, x0: Key, g: Key, items: seq<Key>,
                    p: map<Key, Key>, p1: map<Key, Key>, i: nat)
    requires ChildrenPointBack(p0, c0) && (forall y :: y in p0 ==> y < x0) && g < x0
    requires i < |items| && items[i] in c0 && items[i] in p0 && p0[items[i]] !in items && items[i] !in items[..i]
    requires forall y :: y in c0[items[i]] ==> y !in items
    requires ParentsUnwrapped(p0, c0, p, g, items, x0, i)
    requires forall y :: y in p1 <==> (y in p || y in c0[items[i]] || y == x0 + i) && y != items[i]
    requires p1[x0 + i] == g
    requires forall y :: y in c0[items[i]] ==> p1[y] == x0 + i
    requires forall y :: y in p && y !in c0[items[i]] && y != items[i] && y != x0 + i ==> p1[y] == p[y]
    ensures ParentsUnwrapped(p0, c0, p1, g, items, x0, i + 1)
  {
    var li, kids := items[i], c0[items[i]];
    SnocSlice(items, i);
    assert forall y :: y in kids ==> y in p0 && p0[y] == li by {
      forall y | y in kids ensures y in p0 && p0[y] == li { var t :| 0 <= t < |kids| && kids[t] == y; }
    }
    assert forall k, t :: 0 <= k < i + 1 && items[k] in c0 && 0 <= t < |c0[items[k]]| ==>
             c0[items[k]][t] in p1 && p1[c0[items[k]][t]] == x0 + k by {
      forall k, t | 0 <= k < i + 1 && items[k] in c0 && 0 <= t < |c0[items[k]]|
        ensures c0[items[k]][t] in p1 && p1[c0[items[k]][t]] == x0 + k
      {
        var z := c0[items[k]][t];
        if k < i {
          assert items[k] in items[..i];
          assert z !in kids;
          assert z != li;
        }
      }
    }
  }

  /** Where a selection endpoint ends up once `items` were unwrapped into the
      paragraphs from key `x0` on: an endpoint on an item moves to the start
      of that item's paragraph, any other endpoint stays. */
  function Relocate(pt: Point, items: seq<Key>, x0: Key): Point
  {
    if pt.key in items then Point(x0 + IndexOf(items, pt.key), 0, ElementPoint) else pt
  }

  /** The per-item check of the loop moves an endpoint exactly as Relocate
      says, one item at a time. */
  lemma RelocateStep(pt: Point, items: seq<Key>, x0: Key, i: nat)
    requires i < |items| && items[i] < x0
    ensures Relocate(pt, items[..i + 1], x0)
         == var q := Relocate(pt, items[..i], x0); if q.key == items[i] then Point(x0 + i, 0, ElementPoint) else q
  {
    SnocSlice(items, i);
    var pre, s := items[..i], items[..i + 1];
    if pt.key in pre {
      var r := IndexOf(pre, pt.key);
      assert s[..r] == pre[..r];
      IndexOfFirst(s, pt.key, r);
    } else if pt.key == items[i] {
      assert s[..i] == pre;
      IndexOfFirst(s, pt.key, i);
    }
  }

  /** The endpoint after the loop's check has run over the first `n` items. */
  ghost function Followed(pt: Point, items: seq<Key>, x0: Key, n: nat): Point
    requires n <= |items|
  {
    if n == 0 then pt
    else
      var q := Followed(pt, items, x0, n - 1);
      if q.key == items[n - 1] then Point(x0 + n - 1, 0, ElementPoint) else q
  }

  /** Checking the items one by one relocates the endpoint as Relocate says. */
  lemma {:induction false} FollowedRelocates(pt: Point, items: seq<Key>, x0: Key, n: nat)
    requires n <= |items| && Below(items, x0)
    ensures Followed(pt, items, x0, n) == Relocate(pt, items[..n], x0)
  {
    if n > 0 {
      FollowedRelocates(pt, items, x0, n - 1);
      RelocateStep(pt, items, x0, n - 1);
    }
  }

  /** The state removeList leaves for one list `l` with the given items:
      paragraphs `x0`, `x0 + 1`, ... stand where `l` stood in its parent,
      each holding the children of the item it replaces; the items and `l`
      are out of the tree; every other node lost only the items from its
      children; and no other parent link changed. */
  ghost predicate Unwrapped(n0: map<Key, Node>, p0: map<Key, Key>, c0: map<Key, seq<Key>>, x0: Key,
                            n: map<Key, Node>, p: map<Key, Key>, c: map<Key, seq<Key>>, x: Key,
                            l: Key, items: seq<Key>)
    requires l in p0 && p0[l] in c0 && l in c0[p0[l]] && forall k :: k in n0 ==> k < x0
  {
    var g, j, m := p0[l], IndexOf(c0[p0[l]], l), |items|;
    && x == x0 + m && NodesAfter(n0, x0, m, n)
    && KeysFrom(c0, c, x0, m) && g in c
    && c[g] == c0[g][..j] + Span(x0, m) + c0[g][j + 1..]
    && ItemsEmptied(c0, c, items, x0, m)
    && ListsFiltered(c0, c, g, items)
    && ParentsUnwrapped(p0 - {l}, c0, p, g, items, x0, m)
  }

  /** Taking `l` out of `g` once its paragraphs follow it. */
  lemma ListGone(s: seq<Key>, j: nat, mid: seq<Key>, l: Key, t: seq<Key>, t1: seq<Key>)
    requires j < |s| && s[j] == l && t == s[..j + 1] + mid + s[j + 1..] && NoDup(t) && t1 == Without(t, l)
    ensures t1 == s[..j] + mid + s[j + 1..]
  {
    assert t == s[..j] + [l] + (mid + s[j + 1..]);
    WithoutHead(s[..j], l, mid + s[j + 1..]);
  }

  /** The children once `l` left `g` after its last item. */
  lemma KidsFinal(c0: map<Key, seq<Key>>, x0: Key, g: Key, l: Key, items: seq<Key>,
                  p: map<Key, Key>, c: map<Key, seq<Key>>, c1: map<Key, seq<Key>>)
    requires (forall q :: q in c0 ==> q < x0) && g in c0 && l in c0[g] && g !in items
    requires KidsUnwrapped(c0, c, g, l, items, x0, |items|) && NoDup(c[g])
    requires l in p && p[l] == g && c1 == Unlinked(p, c, l)
    ensures KeysFrom(c0, c1, x0, |items|) && g in c1
    ensures c1[g] == c0[g][..IndexOf(c0[g], l)] + Span(x0, |items|) + c0[g][IndexOf(c0[g], l) + 1..]
    ensures ItemsEmptied(c0, c1, items, x0, |items|) && ListsFiltered(c0, c1, g, items)
  {
    var j := IndexOf(c0[g], l);
    assert c1 == c[g := Without(c[g], l)];
    ListGone(c0[g], j, Span(x0, |items|), l, c[g], c1[g]);
    assert items[..|items|] == items;
    assert ItemsEmptied(c0, c1, items, x0, |items|) by {
      forall k | 0 <= k < |items| ensures items[k] != g && x0 + k != g { }
    }
  }

  /** The parent links once `l` left `g` after its last item. */
  lemma ParentsFinal(p0: map<Key, Key>, c0: map<Key, seq<Key>>, x0: Key, l: Key, items: seq<Key>,
                     p: map<Key, Key>, p1: map<Key, Key>)
    requires ChildrenPointBack(p0, c0) && (forall y :: y in p0 ==> y < x0) && l in p0 && p0[l] !in items
    requires ParentsUnwrapped(p0, c0, p, p0[l], items, x0, |items|) && p1 == p - {l}
    ensures ParentsUnwrapped(p0 - {l}, c0, p1, p0[l], items, x0, |items|)
  {
    var m := |items|;
    assert items[..m] == items;
    forall k, t | 0 <= k < m && items[k] in c0 && 0 <= t < |c0[items[k]]| ensures c0[items[k]][t] != l { }
  }

  /** Ranks for the tree after the unwrapping: each paragraph takes the
      rank of the item it replaces. */
  ghost function RankAfter(rank: map<Key, nat>, items: seq<Key>, x0: Key, i: nat): (r: map<Key, nat>)
    requires i <= |items| && forall k :: 0 <= k < |items| ==> items[k] in rank
    ensures forall y {:trigger y in r} :: y in r <==> y in rank || x0 <= y < x0 + i
    ensures forall y :: y in rank && y < x0 ==> r[y] == rank[y]
    ensures forall k :: 0 <= k < i ==> r[x0 + k] == rank[items[k]]
  {
    if i == 0 then rank else RankAfter(rank, items, x0, i - 1)[x0 + i - 1 := rank[items[i - 1]]]
  }

  /** The tree after the unwrapping still has no cycle. */
  lemma RankedAfter(n0: map<Key, Node>, p0: map<Key, Key>, c0: map<Key, seq<Key>>, x0: Key, rank: map<Key, nat>,
                    l: Key, items: seq<Key>, p: map<Key, Key>)
    requires Linked(p0, c0) && (forall y :: y in p0 ==> y < x0) && (forall y :: y in c0 ==> y < x0) && Ranked(p0, rank)
    requires ItemsApart(n0, p0, c0, rank, l, items) && forall k :: 0 <= k < |items| ==> items[k] in rank
    requires ParentsUnwrapped(p0 - {l}, c0, p, p0[l], items, x0, |items|)
    ensures Ranked(p, RankAfter(rank, items, x0, |items|))
  {
    var r := RankAfter(rank, items, x0, |items|);
    forall y | y in p ensures y in r && p[y] in r && r[p[y]] < r[y] {
      RankedAt(n0, p0, c0, x0, rank, l, items, p, r, y);
    }
  }

  /** The rank of one node of the unwrapped tree exceeds its parent's. */
  lemma RankedAt(n0: map<Key, Node>, p0: map<Key, Key>, c0: map<Key, seq<Key>>, x0: Key, rank: map<Key, nat>,
                 l: Key, items: seq<Key>, p: map<Key, Key>, r: map<Key, nat>, y: Key)
    requires Linked(p0, c0) && (forall y :: y in p0 ==> y < x0) && (forall y :: y in c0 ==> y < x0) && Ranked(p0, rank)
    requires ItemsApart(n0, p0, c0, rank, l, items) && forall k :: 0 <= k < |items| ==> items[k] in rank
    requires ParentsUnwrapped(p0 - {l}, c0, p, p0[l], items, x0, |items|) && y in p
    requires forall y {:trigger y in r} :: y in r <==> y in rank || x0 <= y < x0 + |items|
    requires forall y :: y in rank && y < x0 ==> r[y] == rank[y]
    requires forall k :: 0 <= k < |items| ==> r[x0 + k] == rank[items[k]]
    ensures y in r && p[y] in r && r[p[y]] < r[y]
  {
    if x0 <= y < x0 + |items| {
      RankedFresh(n0, p0, c0, x0, rank, l, items, p, r, y);
    } else if p0[y] in items {
      RankedMoved(n0, p0, c0, x0, rank, l, items, p, r, y);
    } else {
      RankedKept(n0, p0, c0, x0, rank, l, items, p, r, y);
    }
  }

  /** A fresh paragraph ranks above `g`, the list's old parent. */
  lemma RankedFresh(n0: map<Key, Node>, p0: map<Key, Key>, c0: map<Key, seq<Key>>, x0: Key, rank: map<Key, nat>,
                 l: Key, items: seq<Key>, p: map<Key, Key>, r: map<Key, nat>, y: Key)
    requires Linked(p0, c0) && (forall y :: y in p0 ==> y < x0) && (forall y :: y in c0 ==> y < x0) && Ranked(p0, rank)
    requires ItemsApart(n0, p0, c0, rank, l, items) && forall k :: 0 <= k < |items| ==> items[k] in rank
    requires ParentsUnwrapped(p0 - {l}, c0, p, p0[l], items, x0, |items|) && y in p
    requires forall y {:trigger y in r} :: y in r <==> y in rank || x0 <= y < x0 + |items|
    requires forall y :: y in rank && y < x0 ==> r[y] == rank[y]
    requires forall k :: 0 <= k < |items| ==> r[x0 + k] == rank[items[k]]
    requires x0 <= y < x0 + |items|
    ensures y in r && p[y] in r && r[p[y]] < r[y]
  {
    var k := y - x0;
    var g: Key := p0[l];
    assert g in c0 && r[g] == rank[g];
    assert ItemApart(n0, p0, c0, rank, l, items, k);
    assert y == x0 + k && r[y] == rank[items[k]] && p[y] == g;
    assert rank[g] < rank[l] <= rank[p0[items[k]]] < rank[items[k]];
  }

  /** A child of an item now hangs from the item's paragraph, which has the item's rank. */
  lemma RankedMoved(n0: map<Key, Node>, p0: map<Key, Key>, c0: map<Key, seq<Key>>, x0: Key, rank: map<Key, nat>,
                 l: Key, items: seq<Key>, p: map<Key, Key>, r: map<Key, nat>, y: Key)
    requires Linked(p0, c0) && (forall y :: y in p0 ==> y < x0) && (forall y :: y in c0 ==> y < x0) && Ranked(p0, rank)
    requires ItemsApart(n0, p0, c0, rank, l, items) && forall k :: 0 <= k < |items| ==> items[k] in rank
    requires ParentsUnwrapped(p0 - {l}, c0, p, p0[l], items, x0, |items|) && y in p
    requires forall y {:trigger y in r} :: y in r <==> y in rank || x0 <= y < x0 + |items|
    requires forall y :: y in rank && y < x0 ==> r[y] == rank[y]
    requires forall k :: 0 <= k < |items| ==> r[x0 + k] == rank[items[k]]
    requires !(x0 <= y < x0 + |items|) && p0[y] in items
    ensures y in r && p[y] in r && r[p[y]] < r[y]
  {
    assert items[..|items|] == items;
    assert y in p0 && y !in items;
    var k :| 0 <= k < |items| && items[k] == p0[y];
    assert ItemApart(n0, p0, c0, rank, l, items, k);
    var t :| 0 <= t < |c0[items[k]]| && c0[items[k]][t] == y;
    assert p[y] == x0 + k && r[x0 + k] == rank[items[k]] && r[y] == rank[y];
  }

  /** Any other node keeps its parent and both keep their ranks. */
  lemma RankedKept(n0: map<Key, Node>, p0: map<Key, Key>, c0: map<Key, seq<Key>>, x0: Key, rank: map<Key, nat>,
                 l: Key, items: seq<Key>, p: map<Key, Key>, r: map<Key, nat>, y: Key)
    requires Linked(p0, c0) && (forall y :: y in p0 ==> y < x0) && (forall y :: y in c0 ==> y < x0) && Ranked(p0, rank)
    requires ItemsApart(n0, p0, c0, rank, l, items) && forall k :: 0 <= k < |items| ==> items[k] in rank
    requires ParentsUnwrapped(p0 - {l}, c0, p, p0[l], items, x0, |items|) && y in p
    requires forall y {:trigger y in r} :: y in r <==> y in rank || x0 <= y < x0 + |items|
    requires forall y :: y in rank && y < x0 ==> r[y] == rank[y]
    requires forall k :: 0 <= k < |items| ==> r[x0 + k] == rank[items[k]]
    requires !(x0 <= y < x0 + |items|) && p0[y] !in items
    ensures y in r && p[y] in r && r[p[y]] < r[y]
  {
    assert items[..|items|] == items;
    assert y in p0 && y !in items;
    assert p0[y] in c0 && p0[y] in rank && r[p0[y]] == rank[p0[y]];
    assert p[y] == p0[y] && r[y] == rank[y];
  }

  /** Before the first item: nothing unwrapped yet. */
  lemma UnwrapStart(p0: map<Key, Key>, c0: map<Key, seq<Key>>, x0: Key, g: Key, l: Key, items: seq<Key>)
    requires g in c0 && l in c0[g]
    ensures KidsUnwrapped(c0, c0, g, l, items, x0, 0) && ParentsUnwrapped(p0, c0, p0, g, items, x0, 0)
  {
    var j := IndexOf(c0[g], l);
    assert items[..0] == [];
    assert c0[g][..j + 1] + Span(x0, 0) + c0[g][j + 1..] == c0[g];
    forall q | q in c0 ensures Minus(c0[q], []) == c0[q] { MinusNone(c0[q], []); }
  }

  /** One more item unwrapped: the state UnwrapItem leaves meets the loop's
      description for one more item. */
  lemma UnwrapStep(n0: map<Key, Node>, p0: map<Key, Key>, c0: map<Key, seq<Key>>, x0: Key, rank: map<Key, nat>,
                   l: Key, items: seq<Key>, p: map<Key, Key>, c: map<Key, seq<Key>>,
                   p1: map<Key, Key>, c1: map<Key, seq<Key>>, i: nat, ip: Key, para: Key)
    requires Wf(n0, p0, c0, x0) && para == x0 + i && ItemsApart(n0, p0, c0, rank, l, items) && i < |items| && Linked(p, c)
    requires ItemApart(n0, p0, c0, rank, l, items, i)
    requires KidsUnwrapped(c0, c, p0[l], l, items, x0, i) && ParentsUnwrapped(p0, c0, p, p0[l], items, x0, i)
    requires ip == if i == 0 then l else x0 + i - 1
    requires ip in p && p[ip] == p0[l] && items[i] in p && p[items[i]] == p0[items[i]]
    requires items[i] != ip && items[i] != p0[l] && p0[items[i]] != p0[l] && p0[items[i]] in c0
    requires items[i] in c && c[items[i]] == c0[items[i]] && p0[items[i]] in c
    requires p1 == (Moved(p, c[items[i]], para)[para := p[ip]]) - {items[i]}
    requires c1 == c[items[i] := []][para := c[items[i]]][p[ip] := InsertedAfter(c[p[ip]], ip, para)]
                    [p[items[i]] := Without(c[p[items[i]]], items[i])]
    ensures KidsUnwrapped(c0, c1, p0[l], l, items, x0, i + 1) && ParentsUnwrapped(p0, c0, p1, p0[l], items, x0, i + 1)
  {
    ItemsOpen(n0, p0, c0, rank, l, items);
    var g, li, pl := p0[l], items[i], p0[items[i]];
    assert para !in c && para !in p;
    assert li !in items[..i] by { forall k | 0 <= k < i ensures items[k] != li { } }
    assert pl !in items && g !in items by {
      forall k | 0 <= k < |items| ensures items[k] != pl && items[k] != g { assert n0[items[k]].ListItem?; }
    }
    assert forall q :: q in c0 && li in c0[q] ==> q == pl by {
      forall q | q in c0 && li in c0[q] ensures q == pl { var t :| 0 <= t < |c0[q]| && c0[q][t] == li; }
    }
    UnwrapUpdate(c, c1, li, para, g, pl, InsertedAfter(c[g], ip, para), Without(c[pl], li));
    KidsStep(c0, x0, g, l, items, pl, c, c1, i, ip, para);
    forall y | y in c0[li] ensures y !in items { ChildNotItem(n0, p0, c0, rank, l, items, i, y); }
    assert li !in c0[li] && para !in c0[li];
    ParentUpdate(p, p1, c0[li], li, para, g);
    ParentsStep(p0, c0, x0, g, items, p, p1, i);
  }

  /** One more paragraph among the nodes. */
  lemma NodesGrow(n0: map<Key, Node>, x0: Key, i: nat, n: map<Key, Node>, n1: map<Key, Node>, para: Key)
    requires NodesAfter(n0, x0, i, n) && para == x0 + i && n1 == n[para := Paragraph(0, 0)]
    requires forall k :: k in n0 ==> k < x0
    ensures NodesAfter(n0, x0, i + 1, n1)
  {
  }

  /** One turn of the loop on parent links `p` and children `c`: item
      `items[i]` gives way to a fresh paragraph `x0 + i` that takes its
      children and is placed after `ip` (after `l` for the first item),
      and the item leaves its list. */
  ghost function Step(p: map<Key, Key>, c: map<Key, seq<Key>>, x0: Key, l: Key, items: seq<Key>, i: nat)
    : (map<Key, Key>, map<Key, seq<Key>>)
    requires i < |items|
  {
    var li := items[i];
    var para: Key := x0 + i;
    var ip: Key := if i == 0 then l else x0 + i - 1;
    if li in p && li in c && ip in p && p[ip] in c && ip in c[p[ip]] && p[li] in c then
      ((Moved(p, c[li], para)[para := p[ip]]) - {li},
       c[li := []][para := c[li]][p[ip] := InsertedAfter(c[p[ip]], ip, para)][p[li] := Without(c[p[li]], li)])
    else (p, c)
  }

  /** The parent links and children after the first `i` items of `l` were
      unwrapped. */
  ghost function Steps(p0: map<Key, Key>, c0: map<Key, seq<Key>>, x0: Key, l: Key, items: seq<Key>, i: nat)
    : (map<Key, Key>, map<Key, seq<Key>>)
    requires i <= |items|
    decreases i
  {
    if i == 0 then (p0, c0)
    else
      var s := Steps(p0, c0, x0, l, items, i - 1);
      Step(s.0, s.1, x0, l, items, i - 1)
  }

  /** When its item, its anchor `ip` and their parents are in place, the
      turn does make the paragraph. */
  lemma StepTaken(p: map<Key, Key>, c: map<Key, seq<Key>>, x0: Key, l: Key, items: seq<Key>, i: nat, ip: Key, para: Key)
    requires i < |items| && ip == (if i == 0 then l else x0 + i - 1) && para == x0 + i
    requires items[i] in p && items[i] in c && ip in p && p[ip] in c && ip in c[p[ip]] && p[items[i]] in c
    ensures Step(p, c, x0, l, items, i).0 == (Moved(p, c[items[i]], para)[para := p[ip]]) - {items[i]}
    ensures Step(p, c, x0, l, items, i).1 == c[items[i] := []][para := c[items[i]]]
                                              [p[ip] := InsertedAfter(c[p[ip]], ip, para)]
                                              [p[items[i]] := Without(c[p[items[i]]], items[i])]
  {
  }

  /** One turn keeps the loop's description of the tree. */
  lemma StepFacts(n0: map<Key, Node>, p0: map<Key, Key>, c0: map<Key, seq<Key>>, x0: Key, rank: map<Key, nat>,
                  l: Key, items: seq<Key>, p: map<Key, Key>, c: map<Key, seq<Key>>, p1: map<Key, Key>,
                  c1: map<Key, seq<Key>>, n: nat)
    requires Wf(n0, p0, c0, x0) && ItemsApart(n0, p0, c0, rank, l, items) && 0 < n <= |items| && Linked(p, c)
    requires KidsUnwrapped(c0, c, p0[l], l, items, x0, n - 1) && ParentsUnwrapped(p0, c0, p, p0[l], items, x0, n - 1)
    requires (p1, c1) == Step(p, c, x0, l, items, n - 1)
    ensures KidsUnwrapped(c0, c1, p0[l], l, items, x0, n)
    ensures ParentsUnwrapped(p0, c0, p1, p0[l], items, x0, n)
  {
    var i := n - 1;
    var ip: Key := if i == 0 then l else x0 + i - 1;
    StepReady(n0, p0, c0, x0, rank, l, items, p, c, i, ip);
    var li := items[i];
    var para: Key := x0 + i;
    assert ip in c[p[ip]];
    var s := Step(p, c, x0, l, items, i);
    StepTaken(p, c, x0, l, items, i, ip, para);
    UnwrapStep(n0, p0, c0, x0, rank, l, items, p, c, s.0, s.1, i, ip, para);
  }

  /** Every intermediate state of the loop is linked both ways. */
  ghost predicate AllLinked(p0: map<Key, Key>, c0: map<Key, seq<Key>>, x0: Key, l: Key, items: seq<Key>, i: nat)
    requires i <= |items|
    decreases i
  {
    && Linked(Steps(p0, c0, x0, l, items, i).0, Steps(p0, c0, x0, l, items, i).1)
    && (i > 0 ==> AllLinked(p0, c0, x0, l, items, i - 1))
  }

  /** The state after `i` steps is the one KidsUnwrapped and
      ParentsUnwrapped describe. */
  lemma {:induction false} StepsFacts(n0: map<Key, Node>, p0: map<Key, Key>, c0: map<Key, seq<Key>>, x0: Key,
                                      rank: map<Key, nat>, l: Key, items: seq<Key>, i: nat,
                                      p: map<Key, Key>, c: map<Key, seq<Key>>)
    requires Wf(n0, p0, c0, x0) && ItemsApart(n0, p0, c0, rank, l, items) && i <= |items|
    requires AllLinked(p0, c0, x0, l, items, i) && (p, c) == Steps(p0, c0, x0, l, items, i)
    ensures KidsUnwrapped(c0, c, p0[l], l, items, x0, i) && ParentsUnwrapped(p0, c0, p, p0[l], items, x0, i)
  {
    if i == 0 {
      UnwrapStart(p0, c0, x0, p0[l], l, items);
    } else {
      var s := Steps(p0, c0, x0, l, items, i - 1);
      StepsFacts(n0, p0, c0, x0, rank, l, items, i - 1, s.0, s.1);
      StepFacts(n0, p0, c0, x0, rank, l, items, s.0, s.1, p, c, i);
    }
  }

  /** One turn of removeList's loop: the `i`-th item of `l` becomes a
      paragraph placed after `ip`. */
  method UnwrapNext(d: Doc, ghost n0: map<Key, Node>, ghost p0: map<Key, Key>, ghost c0: map<Key, seq<Key>>,
                    ghost x0: Key, ghost rank: map<Key, nat>, ghost l: Key, ghost items: seq<Key>,
                    ghost i: nat, ip: Key, li: Key)
    returns (para: Key)
    requires Wf(n0, p0, c0, x0) && ItemsApart(n0, p0, c0, rank, l, items) && i < |items| && li == items[i]
    requires d.Valid() && d.next == x0 + i && NodesAfter(n0, x0, i, d.node)
    requires (d.parent, d.children) == Steps(p0, c0, x0, l, items, i) && AllLinked(p0, c0, x0, l, items, i)
    requires ip == if i == 0 then l else x0 + i - 1
    modifies d
    ensures para == x0 + i && d.Valid() && d.next == x0 + i + 1 && NodesAfter(n0, x0, i + 1, d.node)
    ensures (d.parent, d.children) == Steps(p0, c0, x0, l, items, i + 1) && AllLinked(p0, c0, x0, l, items, i + 1)
  {
    ghost var p, c := d.parent, d.children;
    StepsFacts(n0, p0, c0, x0, rank, l, items, i, p, c);
    StepReady(n0, p0, c0, x0, rank, l, items, p, c, i, ip);
    ghost var n := d.node;
    para := UnwrapItem(d, ip, li);
    NodesGrow(n0, x0, i, n, d.node, para);
    assert ip in c[p[ip]];
    StepTaken(p, c, x0, l, items, i, ip, para);
  }

  /** A selection endpoint on the item being unwrapped moves to the start
      of the paragraph that replaces it; any other endpoint stays. */
  method FollowItem(pt: Point, ghost items: seq<Key>, ghost x0: Key, ghost i: nat, q: Point, li: Key, para: Key)
    returns (r: Point)
    requires i < |items| && li == items[i] && para == x0 + i && q == Followed(pt, items, x0, i)
    ensures r == Followed(pt, items, x0, i + 1)
  {
    r := q;
    if q.key == li {
      r := Point(para, 0, ElementPoint);
    }
  }

  /** The loop of removeList over the items of one list `l`: each item
      becomes a paragraph placed after the previous one (after `l` for the
      first), and a selection endpoint on the item moves to the start of
      that paragraph. */
  method UnwrapItems(d: Doc, l: Key, items: seq<Key>, a: Point, f: Point, ghost rank: map<Key, nat>)
    returns (a1: Point, f1: Point)
    requires d.Valid() && Ranked(d.parent, rank) && d.IsList(l) && l in d.parent
    requires items == AllListItems(d, l, rank)
    modifies d
    ensures d.Valid() && d.next == old(d.next) + |items| && NodesAfter(old(d.node), old(d.next), |items|, d.node)
    ensures (d.parent, d.children) == Steps(old(d.parent), old(d.children), old(d.next), l, items, |items|)
    ensures AllLinked(old(d.parent), old(d.children), old(d.next), l, items, |items|)
    ensures a1 == Relocate(a, items, old(d.next)) && f1 == Relocate(f, items, old(d.next))
  {
    ItemsFacts(d, l, rank);
    ItemsBelow(d.node, d.parent, d.children, d.next, rank, l, items);
    a1, f1 := UnwrapLoop(d, l, items, a, f, d.node, d.parent, d.children, d.next, rank);
  }

  /** The loop of UnwrapItems, from the state `n0`, `p0`, `c0`, `x0`. */
  method UnwrapLoop(d: Doc, l: Key, items: seq<Key>, a: Point, f: Point, ghost n0: map<Key, Node>,
                    ghost p0: map<Key, Key>, ghost c0: map<Key, seq<Key>>, ghost x0: Key, ghost rank: map<Key, nat>)
    returns (a1: Point, f1: Point)
    requires d.Valid() && d.node == n0 && d.parent == p0 && d.children == c0 && d.next == x0
    requires ItemsApart(n0, p0, c0, rank, l, items) && Below(items, x0)
    modifies d
    ensures d.Valid() && d.next == x0 + |items| && NodesAfter(n0, x0, |items|, d.node)
    ensures (d.parent, d.children) == Steps(p0, c0, x0, l, items, |items|)
    ensures AllLinked(p0, c0, x0, l, items, |items|)
    ensures a1 == Relocate(a, items, x0) && f1 == Relocate(f, items, x0)
  {
    var ip := l;
    a1, f1 := a, f;
    var i := 0;
    assert items[..|items|] == items;
    while i < |items|
      invariant 0 <= i <= |items| && d.Valid()
      invariant d.next == x0 + i && NodesAfter(n0, x0, i, d.node)
      invariant (d.parent, d.children) == Steps(p0, c0, x0, l, items, i) && AllLinked(p0, c0, x0, l, items, i)
      invariant ip == if i == 0 then l else x0 + i - 1
      invariant a1 == Followed(a, items, x0, i) && f1 == Followed(f, items, x0, i)
    {
      var li := items[i];
      var para := UnwrapNext(d, n0, p0, c0, x0, rank, l, items, i, ip, li);
      a1 := FollowItem(a, items, x0, i, a1, li, para);
      f1 := FollowItem(f, items, x0, i, f1, li, para);
      ip := para;
      i := i + 1;
    }
    FollowedRelocates(a, items, x0, |items|);
    FollowedRelocates(f, items, x0, |items|);
  }

  /** After the last item, `l` still hangs from its parent, which is no
      item, and every item has a rank. */
  lemma FinalReady(n0: map<Key, Node>, p0: map<Key, Key>, c0: map<Key, seq<Key>>, x0: Key, rank: map<Key, nat>,
                   l: Key, items: seq<Key>, p: map<Key, Key>)
    requires Wf(n0, p0, c0, x0) && ItemsApart(n0, p0, c0, rank, l, items) && n0[l].List?
    requires ParentsUnwrapped(p0, c0, p, p0[l], items, x0, |items|)
    ensures p0[l] !in items && l !in items && l in p && p[l] == p0[l]
    ensures forall k :: 0 <= k < |items| ==> items[k] in rank
  {
    ItemsOpen(n0, p0, c0, rank, l, items);
    assert l !in items[..|items|] && p0[l] !in items[..|items|] by {
      forall k | 0 <= k < |items| ensures items[k] != l && items[k] != p0[l] { }
    }
  }

  /** Once the loop has run and `l` has left its parent, the tree is the
      one Unwrapped describes, and it still has no cycle. */
  lemma ListUnwrapped(n0: map<Key, Node>, p0: map<Key, Key>, c0: map<Key, seq<Key>>, x0: Key, rank: map<Key, nat>,
                   l: Key, items: seq<Key>, p: map<Key, Key>, c: map<Key, seq<Key>>,
                   n: map<Key, Node>, p1: map<Key, Key>, c1: map<Key, seq<Key>>, x: Key)
    requires Wf(n0, p0, c0, x0) && ItemsApart(n0, p0, c0, rank, l, items) && n0[l].List? && Ranked(p0, rank)
    requires (p, c) == Steps(p0, c0, x0, l, items, |items|) && AllLinked(p0, c0, x0, l, items, |items|)
    requires x == x0 + |items| && NodesAfter(n0, x0, |items|, n)
    requires p1 == p - {l} && c1 == Unlinked(p, c, l)
    ensures l in p0 && p0[l] in c0 && l in c0[p0[l]] && (forall k :: k in n0 ==> k < x0)
    ensures forall k :: 0 <= k < |items| ==> items[k] in rank
    ensures Unwrapped(n0, p0, c0, x0, n, p1, c1, x, l, items)
    ensures Ranked(p1, RankAfter(rank, items, x0, |items|))
  {
    StepsFacts(n0, p0, c0, x0, rank, l, items, |items|, p, c);
    FinalReady(n0, p0, c0, x0, rank, l, items, p);
    KidsFinal(c0, x0, p0[l], l, items, p, c, c1);
    ParentsFinal(p0, c0, x0, l, items, p, p1);
    RankedAfter(n0, p0, c0, x0, rank, l, items, p1);
  }

  /** removeList's treatment of one list `l`: its items are unwrapped
      into paragraphs, then `l` leaves the tree. */
  method UnwrapList(d: Doc, l: Key, items: seq<Key>, a: Point, f: Point, ghost rank: map<Key, nat>)
    returns (a1: Point, f1: Point, ghost rank1: map<Key, nat>)
    requires d.Valid() && Ranked(d.parent, rank) && d.IsList(l) && l in d.parent
    requires items == AllListItems(d, l, rank)
    modifies d
    ensures d.Valid() && Ranked(d.parent, rank1) && forall y :: y in rank ==> y in rank1
    ensures Unwrapped(old(d.node), old(d.parent), old(d.children), old(d.next), d.node, d.parent, d.children, d.next, l, items)
    ensures a1 == Relocate(a, items, old(d.next)) && f1 == Relocate(f, items, old(d.next))
  {
    ghost var n0, p0, c0, x0 := d.node, d.parent, d.children, d.next;
    ItemsFacts(d, l, rank);
    a1, f1 := UnwrapItems(d, l, items, a, f, rank);
    ghost var p, c := d.parent, d.children;
    d.Remove(l);
    ListUnwrapped(n0, p0, c0, x0, rank, l, items, p, c, d.node, d.parent, d.children, d.next);
    rank1 := RankAfter(rank, items, x0, |items|);
  }
}
