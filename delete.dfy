/**
 * Backspace at the start of a list item ($handleDelete) and Enter in an
 * empty list item ($handleListInsertParagraph): the block under the caret
 * leaves its list item and takes its place next to the list.
 */
module ListDelete {
  import opened Seqs
  import opened Tree
  import opened ListValues
  import opened ListWalks
  import opened ListSplit
  import opened ListIndent

  /** The block `b`, first child of `li`, first child of the list `lp`, held by
      `gp`: `b` goes right before `lp`, `li` is detached, and an emptied `lp`
      is detached too, so `b` takes its place. */
  ghost predicate LiftedFromFirst(p0: map<Key, Key>, c0: map<Key, seq<Key>>, p1: map<Key, Key>, c1: map<Key, seq<Key>>,
                                  b: Key, li: Key, lp: Key)
  {
    && lp in p0 && p0[lp] in c0 && lp in c0 && li in c0 && lp in c0[p0[lp]]
    && c0[lp] != [] && c0[lp][0] == li && c0[li] != [] && c0[li][0] == b
    && var gp := p0[lp];
       if |c0[lp]| == 1 then
         && c1 == c0[li := c0[li][1..]][lp := []][gp := Replaced(c0[gp], lp, b)]
         && p1 == p0[b := gp] - {li} - {lp}
       else
         && c1 == c0[li := c0[li][1..]][lp := c0[lp][1..]][gp := InsertedBefore(c0[gp], lp, b)]
         && p1 == p0[b := gp] - {li}
  }

  /** The block `b`, first child of `li`, the last but not the first child of
      `lp`: `b` goes right after `lp` and `li` is detached. */
  ghost predicate LiftedFromLast(p0: map<Key, Key>, c0: map<Key, seq<Key>>, p1: map<Key, Key>, c1: map<Key, seq<Key>>,
                                 b: Key, li: Key, lp: Key)
  {
    && lp in p0 && p0[lp] in c0 && lp in c0 && li in c0 && lp in c0[p0[lp]]
    && 1 < |c0[lp]| && c0[lp][|c0[lp]| - 1] == li && c0[li] != [] && c0[li][0] == b
    && var gp := p0[lp];
       && c1 == c0[li := c0[li][1..]][lp := c0[lp][..|c0[lp]| - 1]][gp := InsertedAfter(c0[gp], lp, b)]
       && p1 == p0[b := gp] - {li}
  }

  /** The block `b`, first child of `li`, child `j` of `lp` and neither first
      nor last: the items after `li` move into the fresh list `nl` right
      after `lp`, `li` is detached, and `b` goes between `lp` and `nl`. */
  ghost predicate LiftedFromMiddle(p0: map<Key, Key>, c0: map<Key, seq<Key>>, p1: map<Key, Key>, c1: map<Key, seq<Key>>,
                                   b: Key, li: Key, lp: Key, nl: Key, j: nat)
  {
    && lp in p0 && p0[lp] in c0 && lp in c0 && li in c0 && lp in c0[p0[lp]]
    && 0 < j < |c0[lp]| - 1 && c0[lp][j] == li && c0[li] != [] && c0[li][0] == b
    && var gp := p0[lp];
       && c1 == c0[lp := c0[lp][..j]][nl := c0[lp][j + 1..]][li := c0[li][1..]]
                  [gp := InsertedAfter(InsertedAfter(c0[gp], lp, nl), lp, b)]
       && p1 == (Moved(p0, c0[lp][j + 1..], nl)[nl := gp] - {li})[b := gp]
  }

  /** The block `b`, last but not first child of `li`, child `j` of `lp`: the
      items after `li`, if any, move into the fresh list `nl` right after
      `lp`, and `b` goes right after `lp`; `li` stays. */
  ghost predicate LiftedLastBlock(p0: map<Key, Key>, c0: map<Key, seq<Key>>, p1: map<Key, Key>, c1: map<Key, seq<Key>>,
                                  b: Key, li: Key, lp: Key, nl: Key, j: nat)
  {
    && lp in p0 && p0[lp] in c0 && lp in c0 && li in c0 && lp in c0[p0[lp]]
    && j < |c0[lp]| && c0[lp][j] == li && 1 < |c0[li]| && c0[li][|c0[li]| - 1] == b
    && var gp := p0[lp];
       if j == |c0[lp]| - 1 then
         && c1 == c0[li := c0[li][..|c0[li]| - 1]][gp := InsertedAfter(c0[gp], lp, b)]
         && p1 == p0[b := gp]
       else
         && c1 == c0[lp := c0[lp][..j + 1]][nl := c0[lp][j + 1..]][li := c0[li][..|c0[li]| - 1]]
                    [gp := InsertedAfter(InsertedAfter(c0[gp], lp, nl), lp, b)]
         && p1 == Moved(p0, c0[lp][j + 1..], nl)[nl := gp][b := gp]
  }

  /** The checks every lift shares: `b` is a child of the list item `li`,
      itself a child of the list `lp`, which has a parent `gp`; no two of
      them coincide. */
  predicate LiftShape(d: Doc, b: Key, li: Key, lp: Key)
    reads d
  {
    && b in d.parent && d.parent[b] == li && li in d.parent && d.parent[li] == lp && d.IsList(lp)
    && lp in d.parent && b != lp && b != d.parent[lp] && li != d.parent[lp]
  }

  /** $handleDelete when `b` opens `li` and `li` opens `lp`. */
  method LiftFromFirst(d: Doc, b: Key, li: Key, lp: Key)
    requires d.Valid() && LiftShape(d, b, li, lp)
    requires d.children[li][0] == b && d.children[lp][0] == li
    modifies d
    ensures d.Valid() && d.node == old(d.node) && d.next == old(d.next)
    ensures LiftedFromFirst(old(d.parent), old(d.children), d.parent, d.children, b, li, lp)
  {
    ghost var p0, c0 := d.parent, d.children;
    var gp := d.parent[lp];
    LiftPlaced(p0, c0, b, li, lp, false);
    d.InsertBefore(lp, b);
    ghost var pA, cA := d.parent, d.children;
    d.Remove(li);
    ghost var pB, cB := d.parent, d.children;
    if d.Children(lp) == [] {
      d.Remove(lp);
    }
    FirstLiftDone(p0, c0, pA, cA, pB, cB, d.parent, d.children, b, li, lp);
  }

  /** Moving the first child `b` of `li` next to `lp`. */
  lemma LiftPlaced(p0: map<Key, Key>, c0: map<Key, seq<Key>>, b: Key, li: Key, lp: Key, after: bool)
    requires Linked(p0, c0) && b in p0 && p0[b] == li && lp in p0 && b != lp && li != p0[lp] && c0[li][0] == b
    ensures lp in c0[p0[lp]] && b !in c0[p0[lp]]
    ensures Placed(p0, c0, lp, b, after)
         == c0[li := c0[li][1..]][p0[lp] := if after then InsertedAfter(c0[p0[lp]], lp, b) else InsertedBefore(c0[p0[lp]], lp, b)]
  {
    PlacedLinked(p0, c0, lp, b, after);
    WithoutIndex(c0[li], 0);
    assert c0[li][..0] + c0[li][1..] == c0[li][1..];
    OrphanOrOther(p0, c0, p0[lp], b);
  }

  /** The steps after the block went before `lp`: `li` is detached, then
      `lp` when emptied. */
  lemma FirstLiftDone(p0: map<Key, Key>, c0: map<Key, seq<Key>>, pA: map<Key, Key>, cA: map<Key, seq<Key>>,
                      pB: map<Key, Key>, cB: map<Key, seq<Key>>, p1: map<Key, Key>, c1: map<Key, seq<Key>>,
                      b: Key, li: Key, lp: Key)
    requires Linked(p0, c0) && b in p0 && p0[b] == li && li in p0 && p0[li] == lp && lp in p0
    requires b != lp && b != p0[lp] && li != p0[lp] && lp in c0[p0[lp]] && b !in c0[p0[lp]]
    requires c0[li] != [] && c0[li][0] == b && c0[lp] != [] && c0[lp][0] == li
    requires pA == p0[b := p0[lp]] && cA == c0[li := c0[li][1..]][p0[lp] := InsertedBefore(c0[p0[lp]], lp, b)]
    requires pB == pA - {li} && cB == Unlinked(pA, cA, li)
    requires (if lp in cB then cB[lp] else []) == [] ==> p1 == pB - {lp} && c1 == Unlinked(pB, cB, lp)
    requires (if lp in cB then cB[lp] else []) != [] ==> p1 == pB && c1 == cB
    ensures LiftedFromFirst(p0, c0, p1, c1, b, li, lp)
  {
    var gp := p0[lp];
    WithoutIndex(c0[lp], 0);
    assert c0[lp][..0] + c0[lp][1..] == c0[lp][1..];
    assert cB == c0[li := c0[li][1..]][gp := InsertedBefore(c0[gp], lp, b)][lp := c0[lp][1..]];
    if |c0[lp]| == 1 {
      InsertBeforeThenDrop(c0[gp], lp, b);
      var c1' := c0[li := c0[li][1..]][lp := []][gp := Replaced(c0[gp], lp, b)];
      assert c1.Keys == c1'.Keys;
      forall k | k in c1 ensures c1[k] == c1'[k] { }
    } else {
      var c1' := c0[li := c0[li][1..]][lp := c0[lp][1..]][gp := InsertedBefore(c0[gp], lp, b)];
      assert c1.Keys == c1'.Keys;
      forall k | k in c1 ensures c1[k] == c1'[k] { }
    }
  }

  /** $handleDelete when `b` opens `li` and `li` closes `lp` (not opening it). */
  method LiftFromLast(d: Doc, b: Key, li: Key, lp: Key)
    requires d.Valid() && LiftShape(d, b, li, lp)
    requires d.children[li][0] == b && 1 < |d.children[lp]| && d.children[lp][|d.children[lp]| - 1] == li
    modifies d
    ensures d.Valid() && d.node == old(d.node) && d.next == old(d.next)
    ensures LiftedFromLast(old(d.parent), old(d.children), d.parent, d.children, b, li, lp)
  {
    ghost var p0, c0 := d.parent, d.children;
    LiftPlaced(p0, c0, b, li, lp, true);
    d.InsertAfter(lp, b);
    ghost var pA, cA := d.parent, d.children;
    d.Remove(li);
    LastLiftDone(p0, c0, pA, cA, d.parent, d.children, b, li, lp);
  }

  lemma LastLiftDone(p0: map<Key, Key>, c0: map<Key, seq<Key>>, pA: map<Key, Key>, cA: map<Key, seq<Key>>,
                     p1: map<Key, Key>, c1: map<Key, seq<Key>>, b: Key, li: Key, lp: Key)
    requires Linked(p0, c0) && b in p0 && p0[b] == li && li in p0 && p0[li] == lp && lp in p0
    requires b != lp && b != p0[lp] && li != p0[lp] && lp in c0[p0[lp]]
    requires c0[li] != [] && c0[li][0] == b && 1 < |c0[lp]| && c0[lp][|c0[lp]| - 1] == li
    requires pA == p0[b := p0[lp]] && cA == c0[li := c0[li][1..]][p0[lp] := InsertedAfter(c0[p0[lp]], lp, b)]
    requires p1 == pA - {li} && c1 == Unlinked(pA, cA, li)
    ensures LiftedFromLast(p0, c0, p1, c1, b, li, lp)
  {
    var gp, n := p0[lp], |c0[lp]|;
    WithoutPrefixEnd(c0[lp], n - 1);
    assert c0[lp][..n] == c0[lp];
    var c1' := c0[li := c0[li][1..]][lp := c0[lp][..n - 1]][gp := InsertedAfter(c0[gp], lp, b)];
    assert c1.Keys == c1'.Keys;
    forall k | k in c1 ensures c1[k] == c1'[k] { }
  }

  /** A child of another node is not in a slice of `p`'s children. */
  lemma NotInTail(parent: map<Key, Key>, children: map<Key, seq<Key>>, p: Key, at: nat, k: Key)
    requires ChildrenPointBack(parent, children) && p in children && at <= |children[p]| && k in parent && parent[k] != p
    ensures k !in children[p][at..]
  {
    var s := children[p];
    forall i | at <= i < |s| ensures s[i] != k { }
    assert forall i | 0 <= i < |s[at..]| :: s[at..][i] == s[at + i];
  }

  /** $handleDelete when `b` opens `li`, child `j` of `lp` and neither its
      first nor its last child. The caret's move to the start of `b`
      (selectStart) is not part of the document. */
  method LiftFromMiddle(d: Doc, b: Key, li: Key, lp: Key, ghost j: nat)
    requires d.Valid() && LiftShape(d, b, li, lp)
    requires d.children[li][0] == b && 0 < j < |d.children[lp]| - 1 && d.children[lp][j] == li
    modifies d
    ensures d.Valid() && d.next == old(d.next) + 1
    ensures d.node == old(d.node)[old(d.next) := List(old(d.node[lp].listType), 1)]
    ensures LiftedFromMiddle(old(d.parent), old(d.children), d.parent, d.children, b, li, lp, old(d.next), j)
  {
    ghost var p0, c0 := d.parent, d.children;
    assert NoDup(c0[lp]);
    IndexOfNoDup(c0[lp], j);
    assert d.PrevSiblings(li) == c0[lp][..j] && d.NextSiblings(li) == c0[lp][j + 1..];
    KeyBelowNext(d.node, p0, c0, d.next, b);
    KeyBelowNext(d.node, p0, c0, d.next, p0[lp]);
    NotInTail(p0, c0, lp, j + 1, b);
    NotInTail(p0, c0, lp, j + 1, lp);
    var nl := SplitAfter(d, lp, li);
    ghost var pA, cA := d.parent, d.children;
    d.Remove(li);
    ghost var pB, cB := d.parent, d.children;
    MiddleRemoved(p0, c0, pA, cA, pB, cB, b, li, lp, nl, j);
    assert NoDup(c0[li]);
    WithoutIndex(c0[li], 0);
    assert c0[li][..0] + c0[li][1..] == c0[li][1..];
    d.InsertAfter(lp, b);
    PlacedAfterSplit(c0, pB, cB, d.children, b, li, lp, p0[lp], nl, c0[lp][..j], c0[lp][j + 1..], c0[li][1..]);
  }

  /** The state once $splitList has cut `lp` after `li` and `li` is detached. */
  lemma MiddleRemoved(p0: map<Key, Key>, c0: map<Key, seq<Key>>, pA: map<Key, Key>, cA: map<Key, seq<Key>>,
                      pB: map<Key, Key>, cB: map<Key, seq<Key>>, b: Key, li: Key, lp: Key, nl: Key, j: nat)
    requires b in p0 && p0[b] == li && b != li && li in p0 && p0[li] == lp && lp in p0 && lp in c0 && NoDup(c0[lp]) && p0[lp] in c0 && lp in c0[p0[lp]]
    requires 0 < j < |c0[lp]| - 1 && c0[lp][j] == li && li != lp && li != p0[lp] && lp != p0[lp]
    requires nl != lp && nl != li && nl != b && nl != p0[lp] && b !in c0[lp][j + 1..] && lp !in c0[lp][j + 1..]
    requires pA == Moved(p0, c0[lp][j + 1..], nl)[nl := p0[lp]]
    requires cA == c0[lp := c0[lp][..j] + [li]][nl := c0[lp][j + 1..]][p0[lp] := InsertedAfter(c0[p0[lp]], lp, nl)]
    requires pB == pA - {li} && cB == Unlinked(pA, cA, li)
    ensures b in pB && pB[b] == li && lp in pB && pB[lp] == p0[lp]
    ensures cB == c0[lp := c0[lp][..j]][nl := c0[lp][j + 1..]][p0[lp] := InsertedAfter(c0[p0[lp]], lp, nl)]
  {
    var tail := c0[lp][j + 1..];
    NoDupNotInTail(c0[lp], j);
    MovedAt(p0, tail, nl, li);
    MovedAt(p0, tail, nl, lp);
    MovedAt(p0, tail, nl, b);
    assert c0[lp][..j] + [li] == c0[lp][..j + 1];
    WithoutPrefixEnd(c0[lp], j);
    assert pA[li] == lp && cA[lp] == c0[lp][..j + 1];
    assert cB == cA[lp := c0[lp][..j]];
    var cB' := c0[lp := c0[lp][..j]][nl := tail][p0[lp] := InsertedAfter(c0[p0[lp]], lp, nl)];
    assert cB.Keys == cB'.Keys;
    forall k | k in cB ensures cB[k] == cB'[k] { }
  }

  /** An element of a sequence without duplicates is not among those after it. */
  lemma NoDupNotInTail<T>(s: seq<T>, j: nat)
    requires NoDup(s) && j < |s|
    ensures s[j] !in s[j + 1..]
  {
    var t := s[j + 1..];
    forall i | 0 <= i < |t| ensures t[i] != s[j] {
      assert t[i] == s[j + 1 + i];
    }
  }

  /** Placing `b`, a child of `li`, after `lp` once $splitList has moved
      `lp`'s tail into `nl`. */
  lemma PlacedAfterSplit(c0: map<Key, seq<Key>>, pB: map<Key, Key>, cB: map<Key, seq<Key>>, c1: map<Key, seq<Key>>,
                         b: Key, li: Key, lp: Key, gp: Key, nl: Key, head: seq<Key>, tail: seq<Key>, w: seq<Key>)
    requires Linked(pB, cB) && b in pB && pB[b] == li && lp in pB && pB[lp] == gp
    requires b != lp && li != gp && li != lp && li != nl && gp in c0 && li in c0 && lp in c0[gp]
    requires w == Without(c0[li], b)
    requires cB == c0[lp := head][nl := tail][gp := InsertedAfter(c0[gp], lp, nl)]
    requires c1 == Placed(pB, cB, lp, b, true)
    ensures c1 == c0[lp := head][nl := tail][li := w][gp := InsertedAfter(InsertedAfter(c0[gp], lp, nl), lp, b)]
  {
    PlacedLinked(pB, cB, lp, b, true);
    var c1' := c0[lp := head][nl := tail][li := w][gp := InsertedAfter(InsertedAfter(c0[gp], lp, nl), lp, b)];
    assert c1.Keys == c1'.Keys;
    forall k | k in c1 ensures c1[k] == c1'[k] { }
  }

  /** $handleDelete when `b` closes `li` (and does not open it), `li` being
      child `j` of `lp`: $splitList moves the items after `li`, if any, into
      a fresh list, and `b` goes right after `lp`. */
  method LiftLastBlock(d: Doc, b: Key, li: Key, lp: Key, ghost j: nat)
    requires d.Valid() && LiftShape(d, b, li, lp)
    requires 1 < |d.children[li]| && d.children[li][|d.children[li]| - 1] == b
    requires j < |d.children[lp]| && d.children[lp][j] == li
    modifies d
    ensures d.Valid()
    ensures j == |old(d.children[lp])| - 1 ==> d.node == old(d.node) && d.next == old(d.next)
    ensures j < |old(d.children[lp])| - 1 ==>
      d.next == old(d.next) + 1 && d.node == old(d.node)[old(d.next) := List(old(d.node[lp].listType), 1)]
    ensures LiftedLastBlock(old(d.parent), old(d.children), d.parent, d.children, b, li, lp, old(d.next), j)
  {
    ghost var p0, c0, n0 := d.parent, d.children, d.next;
    assert NoDup(c0[lp]);
    IndexOfNoDup(c0[lp], j);
    assert d.PrevSiblings(li) == c0[lp][..j] && d.NextSiblings(li) == c0[lp][j + 1..];
    KeyBelowNext(d.node, p0, c0, d.next, b);
    KeyBelowNext(d.node, p0, c0, d.next, p0[lp]);
    NotInTail(p0, c0, lp, j + 1, b);
    NotInTail(p0, c0, lp, j + 1, lp);
    ghost var m := |c0[li]|;
    assert NoDup(c0[li]);
    WithoutIndex(c0[li], m - 1);
    assert c0[li][..m - 1] + c0[li][m..] == c0[li][..m - 1];
    // $splitList, whose own checks hold here: it does nothing when `li` is last.
    if d.NextSiblings(li) != [] {
      var nl := SplitAfter(d, lp, li);
      ghost var pA, cA := d.parent, d.children;
      SplitKeeps(p0, pA, b, li, lp, nl, c0[lp][j + 1..]);
      assert c0[lp][..j] + [li] == c0[lp][..j + 1];
      d.InsertAfter(lp, b);
      PlacedAfterSplit(c0, pA, cA, d.children, b, li, lp, p0[lp], nl, c0[lp][..j + 1], c0[lp][j + 1..], c0[li][..m - 1]);
    } else {
      PlacedLinked(p0, c0, lp, b, true);
      d.InsertAfter(lp, b);
    }
  }

  /** Where $splitList leaves `b` and `lp`: `b` is not among the items it moves. */
  lemma SplitKeeps(p0: map<Key, Key>, pA: map<Key, Key>, b: Key, li: Key, lp: Key, nl: Key, tail: seq<Key>)
    requires b in p0 && p0[b] == li && lp in p0 && b !in tail && lp !in tail && nl != b && nl != lp
    requires pA == Moved(p0, tail, nl)[nl := p0[lp]]
    ensures b in pA && pA[b] == li && lp in pA && pA[lp] == p0[lp]
  {
    MovedAt(p0, tail, nl, lp);
    MovedAt(p0, tail, nl, b);
  }

  /** The checks $handleDelete makes before it changes anything: a collapsed
      range selection (`sel` is None for any other kind) whose anchor is at
      offset 0 inside a block `b` of a list item; the nearest list item `li`
      at or above `b`, whose parent `lp` is a list; and `b` the first or the
      last child of `li`. The triple is (`b`, `li`, `lp`). */
  function DeleteTarget(d: Doc, sel: Option<Selection>, ghost rank: map<Key, nat>): (r: Option<(Key, Key, Key)>)
    reads d
    requires d.Valid() && Ranked(d.parent, rank)
    ensures sel.None? || !IsCollapsed(sel.value) || sel.value.anchor.offset != 0 ==> r.None?
    ensures sel.Some? && BlockNodeInsideList(d, sel.value.anchor.key, rank).None? ==> r.None?
    ensures r.Some? ==>
      var (b, li, lp) := r.value;
      && BlockNodeInsideList(d, sel.value.anchor.key, rank) == Some(b)
      && NearestListItem(d, b, rank) == Some(li)
      && b in d.parent && d.parent[b] == li && li in d.parent && d.parent[li] == lp && d.IsList(lp)
      && (d.FirstChild(li) == Some(b) || d.LastChild(li) == Some(b))
  {
    if sel.None? || !IsCollapsed(sel.value) then None
    else match BlockNodeInsideList(d, sel.value.anchor.key, rank)
      case None => None
      case Some(b) =>
        if sel.value.anchor.offset != 0 then None
        else match NearestListItem(d, b, rank)
          case None => None
          case Some(li) =>
            if li !in d.parent || !d.IsList(d.parent[li]) then None
            else if d.FirstChild(li) == Some(b) || d.LastChild(li) == Some(b) then
              assert b in d.children[li];
              Some((b, li, d.parent[li]))
            else None
  }

  /** The document after $handleDelete has lifted `b` out of `li`, child of
      the list `lp`, for each of the four shapes it handles. A list the split
      creates is the key `x0`, the arena's next fresh key. */
  ghost predicate Deleted(n0: map<Key, Node>, p0: map<Key, Key>, c0: map<Key, seq<Key>>, x0: Key,
                          n1: map<Key, Node>, p1: map<Key, Key>, c1: map<Key, seq<Key>>, x1: Key,
                          b: Key, li: Key, lp: Key)
  {
    && li in c0 && lp in c0 && lp in n0 && n0[lp].List? && c0[li] != [] && li in c0[lp]
    && b != li && b != lp && li != lp && lp in p0 && b != p0[lp] && li != p0[lp] && x0 !in c0
    && var cs := c0[lp];
       var j := IndexOf(cs, li);
       var split := n0[x0 := List(n0[lp].listType, 1)];
       if c0[li][0] == b then
         if j == 0 then n1 == n0 && x1 == x0 && LiftedFromFirst(p0, c0, p1, c1, b, li, lp)
         else if j == |cs| - 1 then n1 == n0 && x1 == x0 && LiftedFromLast(p0, c0, p1, c1, b, li, lp)
         else n1 == split && x1 == x0 + 1 && LiftedFromMiddle(p0, c0, p1, c1, b, li, lp, x0, j)
       else
         && (j == |cs| - 1 ==> n1 == n0 && x1 == x0)
         && (j < |cs| - 1 ==> n1 == split && x1 == x0 + 1)
         && LiftedLastBlock(p0, c0, p1, c1, b, li, lp, x0, j)
  }

  /** The rewrite of $handleDelete once its checks have passed. */
  method DeleteAt(d: Doc, b: Key, li: Key, lp: Key)
    requires d.Valid() && LiftShape(d, b, li, lp)
    requires d.FirstChild(li) == Some(b) || d.LastChild(li) == Some(b)
    modifies d
    ensures d.Valid()
    ensures Deleted(old(d.node), old(d.parent), old(d.children), old(d.next), d.node, d.parent, d.children, d.next, b, li, lp)
  {
    ghost var cs := d.children[lp];
    ghost var j := IndexOf(cs, li);
    if d.FirstChild(li) == Some(b) {
      if d.FirstChild(lp) == Some(li) {
        LiftFromFirst(d, b, li, lp);
      } else if d.LastChild(lp) == Some(li) {
        LiftFromLast(d, b, li, lp);
      } else {
        LiftFromMiddle(d, b, li, lp, j);
      }
    } else {
      LiftLastBlock(d, b, li, lp, j);
    }
  }

  /** $handleDelete (Backspace): when the caret is at the very start of the
      first or the last block of a list item, that block leaves the item and
      goes next to the item's list; otherwise nothing happens and the key is
      not handled (`Ok(false)`). A list with no parent fails the update
      (`Err(NoParent)`), which is then discarded. */
  method HandleDelete(d: Doc, sel: Option<Selection>, ghost rank: map<Key, nat>) returns (r: Result<bool>)
    requires d.Valid() && Ranked(d.parent, rank)
    modifies d
    ensures d.Valid()
    ensures r == Ok(false) <==> old(DeleteTarget(d, sel, rank)).None?
    ensures r.Err? <==> old(DeleteTarget(d, sel, rank)).Some? && old(DeleteTarget(d, sel, rank)).value.2 !in old(d.parent)
    ensures r.Err? ==> r.error == NoParent
    ensures r != Ok(true) ==> d.node == old(d.node) && d.parent == old(d.parent) && d.children == old(d.children) && d.next == old(d.next)
    ensures r == Ok(true) ==>
      var t := old(DeleteTarget(d, sel, rank));
      Deleted(old(d.node), old(d.parent), old(d.children), old(d.next), d.node, d.parent, d.children, d.next,
              t.value.0, t.value.1, t.value.2)
  {
    var t := DeleteTarget(d, sel, rank);
    if t.None? {
      return Ok(false);
    }
    var (b, li, lp) := t.value;
    if lp !in d.parent {
      return Err(NoParent);
    }
    assert rank[b] > rank[li] > rank[lp] > rank[d.parent[lp]];
    DeleteAt(d, b, li, lp);
    r := Ok(true);
  }

  /** The checks $handleListInsertParagraph makes: a range selection (`sel`
      is None for any other kind), a block `b` inside a list item, and the
      nearest list item `li` at or above `b` whose first child is `b`. The
      pair is (`b`, `li`). */
  function ParagraphTarget(d: Doc, sel: Option<Selection>, ghost rank: map<Key, nat>): (r: Option<(Key, Key)>)
    reads d
    requires d.Valid() && Ranked(d.parent, rank)
    ensures sel.None? ==> r.None?
    ensures r.Some? ==>
      var (b, li) := r.value;
      && BlockNodeInsideList(d, sel.value.anchor.key, rank) == Some(b)
      && NearestListItem(d, b, rank) == Some(li) && d.FirstChild(li) == Some(b)
      && b in d.parent && d.parent[b] == li && !d.IsListItem(b)
  {
    if sel.None? then None
    else match BlockNodeInsideList(d, sel.value.anchor.key, rank)
      case None => None
      case Some(b) =>
        match NearestListItem(d, b, rank)
          case None => None
          case Some(li) =>
            if d.FirstChild(li) == Some(b) then
              assert b in d.children[li];
              Some((b, li))
            else None
  }

  /** isEmpty on the block: an element with no children. A text node is
      never taken for an empty block. */
  predicate IsEmptyBlock(d: Doc, b: Key)
    reads d
  {
    b in d.node && !d.node[b].Text? && d.Children(b) == []
  }

  /** Enter in the empty first block of a list item at indent 0 goes to
      $handleDelete, and when the caret is collapsed at offset 0 and the
      item's parent is a list, $handleDelete lifts that very block out of
      that very item. */
  lemma EnterMeetsDelete(d: Doc, sel: Option<Selection>, rank: map<Key, nat>)
    requires d.Valid() && Ranked(d.parent, rank)
    requires ParagraphTarget(d, sel, rank).Some?
    requires IsCollapsed(sel.value) && sel.value.anchor.offset == 0
    requires var li := ParagraphTarget(d, sel, rank).value.1; li in d.parent && d.IsList(d.parent[li])
    ensures var (b, li) := ParagraphTarget(d, sel, rank).value;
            DeleteTarget(d, sel, rank) == Some((b, li, d.parent[li]))
  {
    var (b, li) := ParagraphTarget(d, sel, rank).value;
    assert BlockNodeInsideList(d, sel.value.anchor.key, rank) == Some(b);
    assert NearestListItem(d, b, rank) == Some(li);
  }

  /** $handleListInsertParagraph (Enter). Outside the first block of a list
      item nothing happens (`Ok(false)`). In an empty first block the item is
      outdented, or, at indent 0, the key is handed to $handleDelete; either
      way the key is handled. The indent is getIndent's, the nesting depth
      found by walking up the parents (`ItemIndent`); an item whose list has
      no parent makes that walk throw, modelled as `Err(NoParent)` with the
      document unchanged. In a first block with content the source splits
      the block at the caret into a new list item; that split is not part of
      this model, which reports it with `split` and leaves the document as it
      was. */
  method HandleListInsertParagraph(d: Doc, sel: Option<Selection>, ghost rank: map<Key, nat>) returns (r: Result<bool>, split: bool)
    requires d.Valid() && Ranked(d.parent, rank)
    modifies d
    ensures d.Valid()
    ensures r == Ok(false) <==> old(ParagraphTarget(d, sel, rank)).None?
    ensures split <==> old(ParagraphTarget(d, sel, rank)).Some? && !old(IsEmptyBlock(d, ParagraphTarget(d, sel, rank).value.0))
    ensures r == Ok(false) || split ==>
      d.node == old(d.node) && d.parent == old(d.parent) && d.children == old(d.children) && d.next == old(d.next)
    ensures split ==> r == Ok(true)
    ensures old(ParagraphTarget(d, sel, rank)).Some? && !split ==>
      var li := old(ParagraphTarget(d, sel, rank)).value.1;
      var indent := old(ItemIndent(d.node, d.parent, li, rank));
      if indent.Err? then
        && r == Err(NoParent)
        && d.node == old(d.node) && d.parent == old(d.parent) && d.children == old(d.children) && d.next == old(d.next)
      else if indent.value == 0 then
        var t := old(DeleteTarget(d, sel, rank));
        && r == Ok(true)
        && (t.None? ==>
              d.node == old(d.node) && d.parent == old(d.parent) && d.children == old(d.children) && d.next == old(d.next))
        && (t.Some? ==>
              Deleted(old(d.node), old(d.parent), old(d.children), old(d.next), d.node, d.parent, d.children, d.next,
                      t.value.0, t.value.1, t.value.2))
      else
        && r == Ok(true)
        && (!old(OutdentApplies(d, li)) ==>
              d.node == old(d.node) && d.parent == old(d.parent) && d.children == old(d.children) && d.next == old(d.next))
        && (old(OutdentApplies(d, li)) ==>
              Outdented(old(d.node), old(d.parent), old(d.children), old(d.next), d.node, d.parent, d.children, d.next, li))
  {
    split := false;
    var t := ParagraphTarget(d, sel, rank);
    if t.None? {
      return Ok(false), false;
    }
    var (b, li) := t.value;
    if !IsEmptyBlock(d, b) {
      return Ok(true), true;
    }
    var indent := ItemIndent(d.node, d.parent, li, rank);
    if indent.Err? {
      return Err(NoParent), false;
    }
    if indent.value == 0 {
      ghost var t0 := DeleteTarget(d, sel, rank);
      var handled := HandleDelete(d, sel, rank);
      // getIndent's walk already found the list's parent, so $handleDelete
      // cannot throw; its own answer is dropped: the key counts as handled.
      assert handled.Ok? && (t0.Some? ==> handled.value);
    } else {
      RankedUnlooped(d, li, rank);
      HandleOutdent(d, li);
    }
    r := Ok(true);
  }

  /** The shapes $handleDelete turns down, once a block `b` is found: no
      list item on the way up from `b`, a list item whose parent is not a
      list, and a block that is neither the item's first nor its last child. */
  lemma DeleteRejects(d: Doc, sel: Option<Selection>, rank: map<Key, nat>, b: Key)
    requires d.Valid() && Ranked(d.parent, rank)
    requires sel.Some? && BlockNodeInsideList(d, sel.value.anchor.key, rank) == Some(b)
    ensures ItemFreeBefore(d, Path(d.parent, rank, b), |Path(d.parent, rank, b)|) ==> DeleteTarget(d, sel, rank).None?
    ensures NearestListItem(d, b, rank).Some? ==>
              var li := NearestListItem(d, b, rank).value;
              (li !in d.parent || !d.IsList(d.parent[li]) || (d.FirstChild(li) != Some(b) && d.LastChild(li) != Some(b)))
              ==> DeleteTarget(d, sel, rank).None?
  {
    NearestListItemFirst(d, b, rank);
  }

  /** Where the block lands: in `lp`'s parent, right before `lp` when it came
      from the first item of `lp`, in `lp`'s place when that emptied `lp`,
      and right after `lp` otherwise; `lp`'s earlier siblings stay. */
  lemma DeletePlacesBlock(n0: map<Key, Node>, p0: map<Key, Key>, c0: map<Key, seq<Key>>, x0: Key,
                          n1: map<Key, Node>, p1: map<Key, Key>, c1: map<Key, seq<Key>>, x1: Key,
                          b: Key, li: Key, lp: Key)
    requires Deleted(n0, p0, c0, x0, n1, p1, c1, x1, b, li, lp)
    ensures lp in p0 && p0[lp] in c0 && lp in c0[p0[lp]]
    ensures b in p1 && p1[b] == p0[lp] && p0[lp] in c1
    ensures var g, i := c1[p0[lp]], IndexOf(c0[p0[lp]], lp);
            var fromFirst := c0[li][0] == b && c0[lp][0] == li;
            && i < |g| && g[..i] == c0[p0[lp]][..i]
            && (fromFirst && |c0[lp]| == 1 ==> lp !in p1 && g[i] == b)
            && (fromFirst && |c0[lp]| > 1 ==> lp in p1 && i + 1 < |g| && g[i] == b && g[i + 1] == lp)
            && (!fromFirst ==> lp in p1 && i + 1 < |g| && g[i] == lp && g[i + 1] == b)
  {
    var gp, j := p0[lp], IndexOf(c0[lp], li);
    assert c0[lp][0] == li <==> j == 0;
    if c0[li][0] == b && j == 0 {
      if |c0[lp]| == 1 {
        ReplacedAt(c0[gp], lp, b);
      } else {
        BeforeAt(c0[gp], lp, b);
      }
    } else if j == |c0[lp]| - 1 {
      AfterAt(c0[gp], lp, b);
    } else {
      AfterTwiceAt(c0[gp], lp, x0, b);
    }
  }
}
