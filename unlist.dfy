/**
 * The removeList command: find the top lists the selection touches, then
 * unwrap each of them into paragraphs, carrying the selection's endpoints
 * along.
 */
module ListUnlist {
  import opened Seqs
  import opened Tree
  import opened ListValues
  import opened ListWalks
  import opened ListRemove

  /** $getTopListNode: the outermost list above `k`, failing when there is
      none. */
  function TopList(d: Doc, k: Key, ghost rank: map<Key, nat>): (r: Result<Key>)
    reads d
    requires Ranked(d.parent, rank)
    ensures r.Ok? ==> d.IsList(r.value) && r.value in rank
    ensures r.Err? ==> r.error == ParentNotList
  {
    OutermostFacts(d, k, rank);
    match OutermostList(d, k, rank)
    case None => Err(ParentNotList)
    case Some(l) => Ok(l)
  }

  /** What OutermostList finds is a list of the ranked tree. */
  lemma {:induction false} OutermostFacts(d: Doc, k: Key, rank: map<Key, nat>)
    requires Ranked(d.parent, rank)
    ensures OutermostList(d, k, rank).Some? ==>
              d.IsList(OutermostList(d, k, rank).value) && OutermostList(d, k, rank).value in rank
    decreases if k in rank then rank[k] else 0
  {
    if k in d.parent {
      OutermostFacts(d, d.parent[k], rank);
    }
  }

  /** The list one selected node contributes: none unless it is a leaf
      inside a list item, else the top list of that item. */
  function LeafList(d: Doc, k: Key, ghost rank: map<Key, nat>): (r: Result<Option<Key>>)
    reads d
    requires Ranked(d.parent, rank)
    ensures r.Ok? && r.value.Some? ==> d.IsList(r.value.value) && r.value.value in rank
  {
    if !IsLeaf(d, k) then Ok(None)
    else
      match NearestListItem(d, k, rank)
      case None => Ok(None)
      case Some(li) =>
        match TopList(d, li, rank)
        case Err(e) => Err(e)
        case Ok(l) => Ok(Some(l))
  }

  /** The set of lists removeList gathers from `nodes[..n]`, in the order
      first met; the first node that fails makes the whole fail. */
  function CollectLists(d: Doc, nodes: seq<Key>, n: nat, ghost rank: map<Key, nat>): (r: Result<seq<Key>>)
    reads d
    requires Ranked(d.parent, rank) && n <= |nodes|
    ensures r.Ok? ==> NoDup(r.value) && forall l :: l in r.value ==> d.IsList(l) && l in rank
  {
    if n == 0 then Ok([])
    else
      match CollectLists(d, nodes, n - 1, rank)
      case Err(e) => Err(e)
      case Ok(ls) =>
        match LeafList(d, nodes[n - 1], rank)
        case Err(e) => Err(e)
        case Ok(None) => Ok(ls)
        case Ok(Some(l)) => Ok(if l in ls then ls else ls + [l])
  }

  /** The gathered lists are exactly those some node of the prefix
      contributes, and the gathering fails exactly when some node fails. */
  lemma {:induction false} CollectListsMembers(d: Doc, nodes: seq<Key>, n: nat, rank: map<Key, nat>)
    requires Ranked(d.parent, rank) && n <= |nodes|
    ensures CollectLists(d, nodes, n, rank).Err? <==> exists j :: 0 <= j < n && LeafList(d, nodes[j], rank).Err?
    ensures CollectLists(d, nodes, n, rank).Ok? ==>
              forall l :: l in CollectLists(d, nodes, n, rank).value <==>
                exists j :: 0 <= j < n && LeafList(d, nodes[j], rank) == Ok(Some(l))
  {
    if n > 0 {
      CollectListsMembers(d, nodes, n - 1, rank);
      var r := CollectLists(d, nodes, n, rank);
      if r.Ok? {
        var ls := CollectLists(d, nodes, n - 1, rank).value;
        forall l ensures l in r.value <==> exists j :: 0 <= j < n && LeafList(d, nodes[j], rank) == Ok(Some(l)) {
          if exists j :: 0 <= j < n && LeafList(d, nodes[j], rank) == Ok(Some(l)) {
            var j :| 0 <= j < n && LeafList(d, nodes[j], rank) == Ok(Some(l));
            if j < n - 1 { assert l in ls; }
          }
        }
      }
    }
  }

  /** A failure of the gathering is final: later nodes do not matter. */
  lemma {:induction false} CollectErrStays(d: Doc, nodes: seq<Key>, i: nat, n: nat, rank: map<Key, nat>)
    requires Ranked(d.parent, rank) && i <= n <= |nodes| && CollectLists(d, nodes, i, rank).Err?
    ensures CollectLists(d, nodes, n, rank) == CollectLists(d, nodes, i, rank)
    decreases n
  {
    if n > i {
      CollectErrStays(d, nodes, i, n - 1, rank);
    }
  }

  /** The lists removeList acts on: the top list of the anchor when the
      selection sits in an empty list item, else the lists gathered from
      the selected nodes. */
  function ListsToRemove(d: Doc, sel: Selection, ghost rank: map<Key, nat>): (r: Result<seq<Key>>)
    reads d
    requires Ranked(d.parent, rank)
    ensures r.Ok? ==> NoDup(r.value) && forall l :: l in r.value ==> d.IsList(l) && l in rank
    ensures r.Err? ==> r.error == ParentNotList
  {
    if IsSelectingEmptyListItem(d, sel.anchor.key, sel.nodes, rank) then
      match TopList(d, sel.anchor.key, rank)
      case Err(e) => Err(e)
      case Ok(l) => Ok([l])
    else CollectErrors(d, sel.nodes, |sel.nodes|, rank); CollectLists(d, sel.nodes, |sel.nodes|, rank)
  }

  /** Every failure of the gathering is the one of $getTopListNode. */
  lemma {:induction false} CollectErrors(d: Doc, nodes: seq<Key>, n: nat, rank: map<Key, nat>)
    requires Ranked(d.parent, rank) && n <= |nodes|
    ensures CollectLists(d, nodes, n, rank).Err? ==> CollectLists(d, nodes, n, rank).error == ParentNotList
  {
    if n > 0 {
      CollectErrors(d, nodes, n - 1, rank);
    }
  }

  /** The gathering loop of removeList. */
  method GatherLists(d: Doc, sel: Selection, ghost rank: map<Key, nat>) returns (r: Result<seq<Key>>)
    requires Ranked(d.parent, rank)
    ensures r == ListsToRemove(d, sel, rank)
  {
    if IsSelectingEmptyListItem(d, sel.anchor.key, sel.nodes, rank) {
      var t := TopList(d, sel.anchor.key, rank);
      if t.Err? {
        return Err(t.error);
      }
      return Ok([t.value]);
    }
    var ls: seq<Key> := [];
    var i := 0;
    while i < |sel.nodes|
      invariant i <= |sel.nodes| && CollectLists(d, sel.nodes, i, rank) == Ok(ls)
    {
      var t := LeafList(d, sel.nodes[i], rank);
      if t.Err? {
        CollectErrStays(d, sel.nodes, i + 1, |sel.nodes|, rank);
        return Err(t.error);
      }
      if t.value.Some? && t.value.value !in ls {
        ls := ls + [t.value.value];
      }
      i := i + 1;
    }
    return Ok(ls);
  }

  /** A selection endpoint after removeList: where it was, or, when it sat
      on a list item, at the start of one of the new paragraphs. */
  ghost predicate Resettled(n0: map<Key, Node>, n: map<Key, Node>, pt: Point, pt1: Point)
  {
    || pt1 == pt
    || (&& pt.key in n0 && n0[pt.key].ListItem?
        && pt1.offset == 0 && pt1.kind == ElementPoint
        && pt1.key in n && pt1.key !in n0 && n[pt1.key] == Paragraph(0, 0))
  }

  /** What one unwrapped list leaves for the lists after it: old nodes kept,
      new nodes paragraphs, the list and every detached node out of the
      tree. */
  lemma UnwrapAfter(n0: map<Key, Node>, p0: map<Key, Key>, c0: map<Key, seq<Key>>, x0: Key,
                    n: map<Key, Node>, p: map<Key, Key>, c: map<Key, seq<Key>>, x: Key,
                    l: Key, items: seq<Key>)
    requires Wf(n0, p0, c0, x0) && l in p0 && l in n0 && n0[l].List?
    requires forall k :: 0 <= k < |items| ==> items[k] in n0 && n0[items[k]].ListItem?
    requires Unwrapped(n0, p0, c0, x0, n, p, c, x, l, items)
    ensures x0 <= x
    ensures forall k :: k in n0 ==> k in n && n[k] == n0[k]
    ensures forall k :: k in n && k !in n0 ==> x0 <= k && n[k] == Paragraph(0, 0)
    ensures l !in p && forall k :: k in n0 && k !in p0 ==> k !in p
  {
    var m := |items|;
    assert l !in items;
    assert ParentsUnwrapped(p0 - {l}, c0, p, p0[l], items, x0, m);
    assert items[..m] == items;
  }

  /** An endpoint the unwrapping relocates stays Resettled. */
  lemma RelocateResettles(n00: map<Key, Node>, n0: map<Key, Node>, n: map<Key, Node>, x0: Key,
                          items: seq<Key>, pt: Point, pt0: Point)
    requires forall k :: k in n00 ==> k < x0
    requires Kept(n00, n0) && Kept(n0, n) && forall k :: k in n0 ==> k < x0
    requires forall k :: 0 <= k < |items| ==> items[k] in n0 && n0[items[k]].ListItem?
    requires forall y {:trigger y in n} :: x0 <= y < x0 + |items| ==> y in n && n[y] == Paragraph(0, 0)
    requires Resettled(n00, n0, pt, pt0)
    ensures Resettled(n00, n, pt, Relocate(pt0, items, x0))
  {
    if pt0.key in items {
      var i := IndexOf(items, pt0.key);
      assert pt0.key in n0 && n0[pt0.key].ListItem?;
      assert pt0 == pt;
      var y := x0 + i;
      assert y in n && y !in n00;
    } else if pt0 != pt {
      assert pt0.key in n0;
    }
  }

  /** Old nodes keep their content, new nodes are empty paragraphs. */
  ghost predicate Kept(n0: map<Key, Node>, n: map<Key, Node>)
  {
    && (forall k :: k in n0 ==> k in n && n[k] == n0[k])
    && (forall k :: k in n && k !in n0 ==> n[k] == Paragraph(0, 0))
  }

  /** Nodes out of the tree stay out of it. */
  ghost predicate StaysOut(n0: map<Key, Node>, p0: map<Key, Key>, p: map<Key, Key>)
  {
    forall k :: k in n0 && k !in p0 ==> k !in p
  }

  /** The gathered lists are lists of the ranked tree. */
  ghost predicate Listed(node: map<Key, Node>, ls: seq<Key>, rank: map<Key, nat>)
  {
    forall l :: l in ls ==> l in node && node[l].List? && l in rank
  }

  /** The lists already handled are out of the tree. */
  ghost predicate Detached(done: seq<Key>, parent: map<Key, Key>)
  {
    forall l :: l in done ==> l !in parent
  }

  /** One more list of `ls` out of the tree, the earlier ones staying out. */
  lemma DetachedMore(ls: seq<Key>, i: nat, n0: map<Key, Node>, p0: map<Key, Key>, p: map<Key, Key>)
    requires i < |ls| && Detached(ls[..i], p0) && ls[i] !in p
    requires (forall l :: l in ls ==> l in n0) && StaysOut(n0, p0, p)
    ensures Detached(ls[..i + 1], p)
  {
    assert ls[..i + 1] == ls[..i] + [ls[i]];
    forall y | y in ls[..i + 1] ensures y !in p {
      if y != ls[i] {
        assert y in ls[..i] && y in ls;
      }
    }
  }

  /** A document state, saved between the turns of removeList's outer loop. */
  datatype Snap = Snap(node: map<Key, Node>, parent: map<Key, Key>, children: map<Key, seq<Key>>, next: Key)

  /** One turn of removeList's outer loop: the list it handled, the items
      $getAllListItems found in it, and the state the turn started from. */
  datatype Turn = Turn(list: Key, items: seq<Key>, from: Snap)

  /** What one turn did to reach state `s`: a list that hangs in the tree was
      unwrapped into paragraphs from key `from.next` on; a list out of the
      tree had no items and nothing changed. */
  ghost predicate TurnDone(t: Turn, s: Snap)
  {
    var (n0, p0, c0, x0, l) := (t.from.node, t.from.parent, t.from.children, t.from.next, t.list);
    if l in p0 then
      && p0[l] in c0 && l in c0[p0[l]] && (forall k :: k in n0 ==> k < x0)
      && Unwrapped(n0, p0, c0, x0, s.node, s.parent, s.children, s.next, l, t.items)
    else t.items == [] && s == t.from
  }

  /** The turns lead from `s0` to `s`, each starting where the one before
      ended. */
  ghost predicate Unlisted(s0: Snap, turns: seq<Turn>, s: Snap)
  {
    if |turns| == 0 then s == s0
    else
      && turns[0].from == s0
      && (forall t :: 0 <= t < |turns| - 1 ==> TurnDone(turns[t], turns[t + 1].from))
      && TurnDone(turns[|turns| - 1], s)
  }

  /** Taking one more turn from where the turns so far ended. */
  lemma UnlistedStep(s0: Snap, turns: seq<Turn>, s: Snap, t: Turn, s1: Snap)
    requires Unlisted(s0, turns, s) && t.from == s && TurnDone(t, s1)
    ensures Unlisted(s0, turns + [t], s1)
  {
    var ts := turns + [t];
    if |turns| > 0 {
      forall j | 0 <= j < |ts| - 1 ensures TurnDone(ts[j], ts[j + 1].from) {
        if j < |turns| - 1 {
          assert ts[j] == turns[j] && ts[j + 1] == turns[j + 1];
        } else {
          assert ts[j] == turns[|turns| - 1] && ts[j + 1] == t;
        }
      }
    }
  }

  /** An endpoint carried through the turns: each turn moves it as Relocate
      says for that turn's items. */
  function Replay(pt: Point, turns: seq<Turn>): (r: Point)
    ensures r != pt ==> r.offset == 0 && r.kind == ElementPoint
    ensures (forall t :: 0 <= t < |turns| ==> turns[t].items == []) ==> r == pt
  {
    if |turns| == 0 then pt
    else
      var t := turns[|turns| - 1];
      Relocate(Replay(pt, turns[..|turns| - 1]), t.items, t.from.next)
  }

  /** Replaying one more turn relocates both endpoints once more. */
  lemma ReplayStep(a: Point, f: Point, turns: seq<Turn>, t: Turn)
    ensures Replay(a, turns + [t]) == Relocate(Replay(a, turns), t.items, t.from.next)
    ensures Replay(f, turns + [t]) == Relocate(Replay(f, turns), t.items, t.from.next)
  {
    assert (turns + [t])[..|turns|] == turns;
  }

  /** The state of `d` as a Snap. */
  function Now(d: Doc): Snap
    reads d
  {
    Snap(d.node, d.parent, d.children, d.next)
  }

  /** What removeList's outer loop keeps after `i` turns taken from the
      state `s0`, the endpoints `a`, `f` having become `a1`, `f1`. */
  ghost predicate Progress(s: Snap, ls: seq<Key>, i: nat, rank: map<Key, nat>, s0: Snap, turns: seq<Turn>,
                           a: Point, f: Point, a1: Point, f1: Point)
  {
    && i <= |ls| && Wf(s.node, s.parent, s.children, s.next) && Ranked(s.parent, rank)
    && Listed(s.node, ls, rank) && Detached(ls[..i], s.parent)
    && Kept(s0.node, s.node) && StaysOut(s0.node, s0.parent, s.parent) && (forall k :: k in s0.node ==> k < s.next)
    && Resettled(s0.node, s.node, a, a1) && Resettled(s0.node, s.node, f, f1)
    && |turns| == i && Unlisted(s0, turns, s) && (forall t :: 0 <= t < i ==> turns[t].list == ls[t])
    && a1 == Replay(a, turns) && f1 == Replay(f, turns)
  }

  /** A turn that unwrapped `ls[i]` from where the loop stood moves the loop
      on by one. */
  lemma ProgressTurn(ls: seq<Key>, i: nat, rank: map<Key, nat>, rank1: map<Key, nat>, s0: Snap, turns: seq<Turn>,
                     a: Point, f: Point, a1: Point, f1: Point, t: Turn, s: Snap)
    requires i < |ls| && Progress(t.from, ls, i, rank, s0, turns, a, f, Replay(a, turns), Replay(f, turns))
    requires t.list == ls[i] && TurnDone(t, s)
    requires a1 == Relocate(Replay(a, turns), t.items, t.from.next) && f1 == Relocate(Replay(f, turns), t.items, t.from.next)
    requires Wf(s.node, s.parent, s.children, s.next) && Ranked(s.parent, rank1) && Listed(s.node, ls, rank1)
    requires Kept(s0.node, s.node) && StaysOut(s0.node, s0.parent, s.parent) && (forall k :: k in s0.node ==> k < s.next)
    requires Resettled(s0.node, s.node, a, a1) && Resettled(s0.node, s.node, f, f1)
    requires t.list !in s.parent && StaysOut(t.from.node, t.from.parent, s.parent)
    ensures Progress(s, ls, i + 1, rank1, s0, turns + [t], a, f, a1, f1)
  {
    assert t.list in ls;
    DetachedMore(ls, i, t.from.node, t.from.parent, s.parent);
    UnlistedStep(s0, turns, t.from, t, s);
    ReplayStep(a, f, turns, t);
  }

  /** The work of one turn on a list `l` that hangs in the tree. */
  method UnlistIn(d: Doc, l: Key, items: seq<Key>, a: Point, f: Point, ghost rank: map<Key, nat>,
                  ghost n00: map<Key, Node>, ghost p00: map<Key, Key>, ghost pa: Point, ghost pf: Point)
    returns (a1: Point, f1: Point, ghost rank1: map<Key, nat>)
    requires d.Valid() && Ranked(d.parent, rank) && d.IsList(l) && l in d.parent && l in rank
    requires items == AllListItems(d, l, rank)
    requires Kept(n00, d.node) && StaysOut(n00, p00, d.parent) && forall k :: k in n00 ==> k < d.next
    requires Resettled(n00, d.node, pa, a) && Resettled(n00, d.node, pf, f)
    modifies d
    ensures d.Valid() && Ranked(d.parent, rank1) && forall y :: y in rank ==> y in rank1
    ensures Kept(n00, d.node) && StaysOut(n00, p00, d.parent) && forall k :: k in n00 ==> k < d.next
    ensures Resettled(n00, d.node, pa, a1) && Resettled(n00, d.node, pf, f1)
    ensures l !in d.parent && StaysOut(old(d.node), old(d.parent), d.parent)
    ensures TurnDone(Turn(l, items, old(Now(d))), Now(d))
    ensures a1 == Relocate(a, items, old(d.next)) && f1 == Relocate(f, items, old(d.next))
  {
    ghost var n0, p0, c0, x0 := d.node, d.parent, d.children, d.next;
    ItemsFacts(d, l, rank);
    ItemsOpen(n0, p0, c0, rank, l, items);
    a1, f1, rank1 := UnwrapList(d, l, items, a, f, rank);
    UnwrapAfter(n0, p0, c0, x0, d.node, d.parent, d.children, d.next, l, items);
    RelocateResettles(n00, n0, d.node, x0, items, pa, a);
    RelocateResettles(n00, n0, d.node, x0, items, pf, f);
  }

  /** One turn of removeList's outer loop, on `l == ls[i]`: the items of
      `l` become paragraphs after it and `l` leaves the tree; `ok` is false
      when `l` has items but no parent to put the paragraphs in. */
  method UnlistOne(d: Doc, ls: seq<Key>, i: nat, a: Point, f: Point, ghost rank: map<Key, nat>,
                   ghost s0: Snap, ghost turns: seq<Turn>, ghost pa: Point, ghost pf: Point)
    returns (ok: bool, a1: Point, f1: Point, ghost rank1: map<Key, nat>, ghost turns1: seq<Turn>)
    requires i < |ls| && Progress(Now(d), ls, i, rank, s0, turns, pa, pf, a, f)
    modifies d
    ensures d.Valid()
    ensures ok <==> ls[i] in old(d.parent) || old(AllListItems(d, ls[i], rank)) == []
    ensures ok ==> Progress(Now(d), ls, i + 1, rank1, s0, turns1, pa, pf, a1, f1)
    ensures !ok ==> unchanged(d) && a1 == a && f1 == f
    ensures |turns1| == |turns| + 1 && turns1[..|turns|] == turns
    ensures var turn := turns1[|turns|];
            && turn.list == ls[i] && turn.from == old(Now(d))
            && (ls[i] in old(d.parent) ==> turn.items == old(AllListItems(d, ls[i], rank)))
            && a1 == Relocate(a, turn.items, old(d.next)) && f1 == Relocate(f, turn.items, old(d.next))
            && (ok ==> TurnDone(turn, Now(d)))
  {
    var l := ls[i];
    assert l in ls;
    var items := AllListItems(d, l, rank);
    if l !in d.parent {
      ghost var turn := Turn(l, [], Now(d));
      ProgressTurn(ls, i, rank, rank, s0, turns, pa, pf, a, f, turn, Now(d));
      return items == [], a, f, rank, turns + [turn];
    }
    ghost var from := Now(d);
    a1, f1, rank1 := UnlistIn(d, l, items, a, f, rank, s0.node, s0.parent, pa, pf);
    ok := true;
    ghost var turn := Turn(l, items, from);
    ProgressTurn(ls, i, rank, rank1, s0, turns, pa, pf, a1, f1, turn, Now(d));
    turns1 := turns + [turn];
  }

  /** The outer loop of removeList over the gathered lists `ls`: one turn
      per list, in order, each unwrapping its list from where the one before
      left the document, and the endpoints carried through every turn. */
  method UnlistAll(d: Doc, ls: seq<Key>, a: Point, f: Point, ghost rank: map<Key, nat>)
    returns (ok: bool, a1: Point, f1: Point, ghost turns: seq<Turn>)
    requires d.Valid() && Ranked(d.parent, rank) && Listed(d.node, ls, rank)
    modifies d
    ensures d.Valid()
    ensures ok ==> Detached(ls, d.parent) && |turns| == |ls| && Unlisted(old(Now(d)), turns, Now(d))
    ensures ok ==> forall t :: 0 <= t < |ls| ==> turns[t].list == ls[t]
    ensures ok ==> a1 == Replay(a, turns) && f1 == Replay(f, turns)
    ensures Resettled(old(d.node), d.node, a, a1) && Resettled(old(d.node), d.node, f, f1)
    ensures Kept(old(d.node), d.node) && StaysOut(old(d.node), old(d.parent), d.parent)
  {
    ghost var rk := rank;
    ghost var s0 := Now(d);
    a1, f1 := a, f;
    turns := [];
    var i := 0;
    while i < |ls|
      invariant d.Valid() && Progress(Now(d), ls, i, rk, s0, turns, a, f, a1, f1)
    {
      ok, a1, f1, rk, turns := UnlistOne(d, ls, i, a1, f1, rk, s0, turns, a, f);
      if !ok {
        return;
      }
      i := i + 1;
    }
    assert ls[..i] == ls;
    ok := true;
  }

  /** removeList. Fails before changing anything when gathering the lists
      fails, and fails with NoParent when a gathered list with items has no
      parent to put the paragraphs in; the editor update then throws and
      the document is left as it was. */
  method RemoveList(d: Doc, sel: Selection, ghost rank: map<Key, nat>) returns (r: Result<Selection>, ghost turns: seq<Turn>)
    requires d.Valid() && Ranked(d.parent, rank)
    modifies d
    ensures d.Valid()
    ensures old(ListsToRemove(d, sel, rank)).Err? ==> r == Err(ParentNotList)
    ensures r.Err? ==> r.error == NoParent || old(ListsToRemove(d, sel, rank)).Err?
    ensures r.Err? ==> d.node == old(d.node) && d.parent == old(d.parent) && d.children == old(d.children) && d.next == old(d.next)
    ensures r.Ok? ==> && old(ListsToRemove(d, sel, rank)).Ok?
                      && var ls := old(ListsToRemove(d, sel, rank)).value;
                      && (forall l :: l in ls ==> l !in d.parent)
                      && |turns| == |ls| && (forall t :: 0 <= t < |ls| ==> turns[t].list == ls[t])
                      && Unlisted(old(Now(d)), turns, Now(d))
                      && r.value == Selection(Replay(sel.anchor, turns), Replay(sel.focus, turns), sel.nodes)
                      && Resettled(old(d.node), d.node, sel.anchor, r.value.anchor)
                      && Resettled(old(d.node), d.node, sel.focus, r.value.focus)
    ensures Kept(old(d.node), d.node) && StaysOut(old(d.node), old(d.parent), d.parent)
  {
    turns := [];
    var lists := GatherLists(d, sel, rank);
    if lists.Err? {
      return Err(lists.error), turns;
    }
    var n0, p0, c0, x0 := d.node, d.parent, d.children, d.next;
    var ok, a, f;
    ok, a, f, turns := UnlistAll(d, lists.value, sel.anchor, sel.focus, rank);
    if !ok {
      d.Restore(n0, p0, c0, x0);
      return Err(NoParent), turns;
    }
    return Ok(Selection(a, f, sel.nodes)), turns;
  }
}
