/** Sequence helpers for the children lists of the document tree. */
module Seqs {

  /** No key occurs twice. */
  predicate NoDup<T(==)>(s: seq<T>)
  {
    forall i, j :: 0 <= i < j < |s| ==> s[i] != s[j]
  }

  /** Position of the first occurrence of `x` in `s`. */
  function IndexOf<T(==)>(s: seq<T>, x: T): (r: nat)
    requires x in s
    ensures r < |s| && s[r] == x && x !in s[..r]
  {
    if s[0] == x then 0 else
      var r := 1 + IndexOf(s[1..], x);
      assert s[..r] == [s[0]] + s[1..][..r - 1];
      r
  }

  /** `s` with `x` dropped (the one occurrence, for a duplicate-free `s`). */
  function Without<T(==)>(s: seq<T>, x: T): seq<T>
  {
    if x in s then s[..IndexOf(s, x)] + s[IndexOf(s, x) + 1..] else s
  }

  /** `s` with `x` inserted right after `ref`. */
  function InsertedAfter<T(==)>(s: seq<T>, ref: T, x: T): seq<T>
    requires ref in s
  {
    s[..IndexOf(s, ref) + 1] + [x] + s[IndexOf(s, ref) + 1..]
  }

  /** `s` with `x` inserted right before `ref`. */
  function InsertedBefore<T(==)>(s: seq<T>, ref: T, x: T): seq<T>
    requires ref in s
  {
    s[..IndexOf(s, ref)] + [x] + s[IndexOf(s, ref)..]
  }

  /** `s` with `o` replaced by `x` in place. */
  function Replaced<T(==)>(s: seq<T>, o: T, x: T): seq<T>
    requires o in s
  {
    s[IndexOf(s, o) := x]
  }

  lemma IndexOfNoDup<T>(s: seq<T>, i: nat)
    requires NoDup(s) && i < |s|
    ensures IndexOf(s, s[i]) == i
  {
    var j := IndexOf(s, s[i]);
    assert s[j] == s[i];
  }

  lemma WithoutAt<T>(s: seq<T>, x: T, i: nat)
    requires x in s && i < |s| - 1
    ensures |Without(s, x)| == |s| - 1
    ensures Without(s, x)[i] == if i < IndexOf(s, x) then s[i] else s[i + 1]
  {
  }

  lemma WithoutFacts<T>(s: seq<T>, x: T)
    requires NoDup(s)
    ensures NoDup(Without(s, x))
    ensures forall y :: y in Without(s, x) <==> y in s && y != x
    ensures x in s ==> |Without(s, x)| == |s| - 1
  {
    if x in s {
      var k := IndexOf(s, x);
      var w := Without(s, x);
      assert |w| == |s| - 1;
      forall a, b | 0 <= a < b < |w| ensures w[a] != w[b] {
        WithoutAt(s, x, a);
        WithoutAt(s, x, b);
      }
      forall y | y in s && y != x ensures y in w {
        var i :| 0 <= i < |s| && s[i] == y;
        if i < k { WithoutAt(s, x, i); } else { assert i != k; WithoutAt(s, x, i - 1); }
      }
      forall y | y in w ensures y in s && y != x {
        var i :| 0 <= i < |w| && w[i] == y;
        WithoutAt(s, x, i);
        if i >= k { assert s[i + 1] != s[k]; }
      }
    }
  }

  /** Dropping the first element of a split point: the shape Append relies on. */
  lemma WithoutHead<T>(pre: seq<T>, x: T, post: seq<T>)
    requires NoDup(pre + [x] + post)
    ensures Without(pre + [x] + post, x) == pre + post
  {
    var s := pre + [x] + post;
    assert s[|pre|] == x;
    IndexOfNoDup(s, |pre|);
    assert s[..|pre|] == pre && s[|pre| + 1..] == post;
  }

  /** Dropping the element at position `i` of a duplicate-free sequence. */
  /** Dropping the last element of a prefix. */
  lemma WithoutPrefixEnd<T>(s: seq<T>, i: nat)
    requires NoDup(s) && i < |s|
    ensures Without(s[..i + 1], s[i]) == s[..i]
  {
    var t := s[..i + 1];
    assert NoDup(t) by {
      forall a, b | 0 <= a < b < |t| ensures t[a] != t[b] { assert t[a] == s[a] && t[b] == s[b]; }
    }
    WithoutIndex(t, i);
    assert t[..i] == s[..i] && t[i + 1..] == [] && t[i] == s[i];
  }

  lemma WithoutIndex<T>(s: seq<T>, i: nat)
    requires NoDup(s) && i < |s|
    ensures Without(s, s[i]) == s[..i] + s[i + 1..]
  {
    IndexOfNoDup(s, i);
  }

  lemma NoDupInsert<T>(s: seq<T>, i: nat, x: T)
    requires NoDup(s) && i <= |s| && x !in s
    ensures NoDup(s[..i] + [x] + s[i..])
  {
    var t := s[..i] + [x] + s[i..];
    forall a, b | 0 <= a < b < |t| ensures t[a] != t[b] {
      if a < i && b > i { assert t[a] == s[a] && t[b] == s[b - 1]; }
      else if a < i && b == i { assert t[a] == s[a] && t[a] in s; }
      else if a == i { assert t[b] == s[b - 1] && t[b] in s; }
      else if b < i { assert t[a] == s[a] && t[b] == s[b]; }
      else { assert t[a] == s[a - 1] && t[b] == s[b - 1]; }
    }
  }

  /** Writing `x` at position `i` is cutting there and gluing `x` in. */
  lemma UpdateSplit<T>(s: seq<T>, i: nat, x: T)
    requires i < |s|
    ensures s[..i] + ([x] + s[i + 1..]) == s[i := x]
  {
    var t := s[..i] + ([x] + s[i + 1..]);
    forall k | 0 <= k < |s| ensures t[k] == s[i := x][k] {
      if k < i { assert t[k] == s[..i][k]; } else if k > i { assert t[k] == s[i + 1..][k - i - 1]; }
    }
  }

  /** Gluing `x` in after position `i` and cutting position `i` out writes `x` there. */
  lemma InsertDropAt<T>(s: seq<T>, i: nat, x: T)
    requires i < |s|
    ensures var t := s[..i + 1] + [x] + s[i + 1..]; t[..i] + t[i + 1..] == s[i := x]
  {
    var t := s[..i + 1] + [x] + s[i + 1..];
    assert t[..i] == s[..i];
    assert t[i + 1..] == [x] + s[i + 1..];
    UpdateSplit(s, i, x);
  }

  /** Inserting `x` after `o` and then dropping `o` replaces `o` by `x`. */
  lemma InsertThenDrop<T>(s: seq<T>, o: T, x: T)
    requires o in s && x !in s && NoDup(s)
    ensures Without(s[..IndexOf(s, o) + 1] + [x] + s[IndexOf(s, o) + 1..], o) == Replaced(s, o, x)
  {
    var i := IndexOf(s, o);
    var t := s[..i + 1] + [x] + s[i + 1..];
    NoDupInsert(s, i + 1, x);
    assert t[i] == o;
    WithoutIndex(t, i);
    InsertDropAt(s, i, x);
  }

  /** Gluing `x` in before position `i` and cutting the old element out writes `x` there. */
  lemma InsertBeforeDropAt<T>(s: seq<T>, i: nat, x: T)
    requires i < |s|
    ensures var t := s[..i] + [x] + s[i..]; t[..i + 1] + t[i + 2..] == s[i := x]
  {
    var t := s[..i] + [x] + s[i..];
    assert t[..i + 1] == s[..i] + [x];
    assert t[i + 2..] == s[i + 1..];
    UpdateSplit(s, i, x);
  }

  /** Inserting `x` before `o` and then dropping `o` replaces `o` by `x`. */
  lemma InsertBeforeThenDrop<T>(s: seq<T>, o: T, x: T)
    requires o in s && x !in s && NoDup(s)
    ensures Without(InsertedBefore(s, o, x), o) == Replaced(s, o, x)
  {
    var i := IndexOf(s, o);
    var t := s[..i] + [x] + s[i..];
    NoDupInsert(s, i, x);
    assert t[i + 1] == o;
    WithoutIndex(t, i + 1);
    InsertBeforeDropAt(s, i, x);
  }

  /** The first occurrence is the one with no earlier copy. */
  lemma IndexOfFirst<T>(s: seq<T>, x: T, i: nat)
    requires i < |s| && s[i] == x && x !in s[..i]
    ensures IndexOf(s, x) == i
  {
    var r := IndexOf(s, x);
    forall j | 0 <= j < r ensures s[j] != x { assert s[..r][j] == s[j]; }
    forall j | 0 <= j < i ensures s[j] != x { assert s[..i][j] == s[j]; }
  }

  /** Two insertions at the same position: the later one comes first. */
  lemma InsertTwiceAt<T>(s: seq<T>, i: nat, x: T, y: T)
    requires i <= |s|
    ensures var t := s[..i] + [x] + s[i..]; t[..i] + [y] + t[i..] == s[..i] + [y, x] + s[i..]
  {
    var t := s[..i] + [x] + s[i..];
    assert t[..i] == s[..i];
    assert t[i..] == [x] + s[i..];
  }

  /** Inserting after `ref` leaves `ref` where it was. */
  lemma InsertedAfterKeepsIndex<T>(s: seq<T>, ref: T, x: T)
    requires ref in s
    ensures IndexOf(InsertedAfter(s, ref, x), ref) == IndexOf(s, ref)
  {
    var i := IndexOf(s, ref);
    var s1 := s[..i + 1] + [x] + s[i + 1..];
    assert s1[..i] == s[..i] && s1[i] == ref;
    IndexOfFirst(s1, ref, i);
  }

  /** Two insertions right after the same element: the later one comes first. */
  lemma InsertedAfterTwice<T>(s: seq<T>, ref: T, x: T, y: T)
    requires ref in s
    ensures InsertedAfter(InsertedAfter(s, ref, x), ref, y)
         == s[..IndexOf(s, ref) + 1] + [y, x] + s[IndexOf(s, ref) + 1..]
  {
    var j := IndexOf(s, ref) + 1;
    var s1 := InsertedAfter(s, ref, x);
    assert s1 == s[..j] + [x] + s[j..];
    InsertedAfterKeepsIndex(s, ref, x);
    InsertTwiceAt(s, j, x, y);
    assert InsertedAfter(s1, ref, y) == s1[..j] + [y] + s1[j..];
  }

  /** In a sequence without repeats, what comes before an element and what
      comes after it are disjoint and do not hold it. */
  lemma NoDupSides<T>(pre: seq<T>, x: T, post: seq<T>)
    requires NoDup(pre + [x] + post)
    ensures x !in pre && x !in post
    ensures forall k :: k in pre ==> k !in post
  {
    var s := pre + [x] + post;
    forall i | 0 <= i < |pre| ensures pre[i] != x && pre[i] !in post {
      assert s[i] == pre[i] && s[|pre|] == x;
      forall j | 0 <= j < |post| ensures post[j] != pre[i] {
        assert s[|pre| + 1 + j] == post[j];
      }
    }
    forall j | 0 <= j < |post| ensures post[j] != x {
      assert s[|pre| + 1 + j] == post[j] && s[|pre|] == x;
    }
  }

  /** Two duplicate-free sequences with nothing in common concatenate
      without duplicates. */
  lemma NoDupConcat<T>(a: seq<T>, b: seq<T>)
    requires NoDup(a) && NoDup(b) && forall x :: x in a ==> x !in b
    ensures NoDup(a + b)
  {
    var s := a + b;
    forall i, j | 0 <= i < j < |s| ensures s[i] != s[j] {
      if i < |a| && j >= |a| {
        assert s[i] in a && s[j] == b[j - |a|];
      } else if i >= |a| {
        assert s[i] == b[i - |a|] && s[j] == b[j - |a|];
      }
    }
  }

  /** Where `x` lands next to `ref` for each of the four placements; what
      precedes `ref` stays. */
  lemma BeforeAt<T>(s: seq<T>, ref: T, x: T)
    requires ref in s
    ensures var i, g := IndexOf(s, ref), InsertedBefore(s, ref, x);
            i + 1 < |g| && g[..i] == s[..i] && g[i] == x && g[i + 1] == ref
  {
  }

  lemma AfterAt<T>(s: seq<T>, ref: T, x: T)
    requires ref in s
    ensures var i, g := IndexOf(s, ref), InsertedAfter(s, ref, x);
            i + 1 < |g| && g[..i] == s[..i] && g[i] == ref && g[i + 1] == x
  {
  }

  lemma AfterTwiceAt<T>(s: seq<T>, ref: T, y: T, x: T)
    requires ref in s
    ensures var i, g := IndexOf(s, ref), InsertedAfter(InsertedAfter(s, ref, y), ref, x);
            i + 1 < |g| && g[..i] == s[..i] && g[i] == ref && g[i + 1] == x
  {
    InsertedAfterTwice(s, ref, y, x);
  }

  lemma ReplacedAt<T>(s: seq<T>, ref: T, x: T)
    requires ref in s
    ensures var i, g := IndexOf(s, ref), Replaced(s, ref, x);
            i < |g| && g[..i] == s[..i] && g[i] == x
  {
  }

  /** Cutting `s[i]` out and putting it back after `s[i - 1]` gives `s` again. */
  lemma ReinsertAfterPrev<T>(s: seq<T>, i: nat)
    requires 0 < i < |s| && NoDup(s)
    ensures s[i - 1] in s[..i] + s[i + 1..]
    ensures InsertedAfter(s[..i] + s[i + 1..], s[i - 1], s[i]) == s
  {
    var t := s[..i] + s[i + 1..];
    assert t[i - 1] == s[i - 1];
    assert t[..i - 1] == s[..i - 1];
    IndexOfFirst(t, s[i - 1], i - 1);
    assert t[..i] == s[..i] && t[i..] == s[i + 1..];
    assert s == s[..i] + [s[i]] + s[i + 1..];
  }

  /** Dropping the last element, absent before it, gives back the prefix. */
  lemma WithoutLast<T>(s: seq<T>, x: T)
    requires x !in s
    ensures Without(s + [x], x) == s
  {
    assert (s + [x])[..|s|] == s;
    IndexOfFirst(s + [x], x, |s|);
  }
}
