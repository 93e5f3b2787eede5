/**
 * Order-preserving de-duplication, as the crawler does it with
 * `if x not in acc: acc.append(x)`, and an independent characterisation of
 * its result: the duplicate-free list of the same elements in first-seen order.
 */
module Seqs {

  /** De-duplication works on strings: listing links and competitor names. */
  type Item = string

  predicate NoDups(s: seq<Item>) {
    forall i, j :: 0 <= i < j < |s| ==> s[i] != s[j]
  }

  lemma NoDupsSnoc(s: seq<Item>, x: Item)
    requires NoDups(s) && x !in s
    ensures NoDups(s + [x])
  {
  }

  /** `acc` extended, in order, by each element of `b` it does not hold yet. */
  function AppendNew(acc: seq<Item>, b: seq<Item>): (r: seq<Item>)
    ensures |acc| <= |r| && r[..|acc|] == acc
    ensures forall x :: x in r <==> x in acc || x in b
    ensures NoDups(acc) ==> NoDups(r)
    decreases |b|
  {
    if |b| == 0 then acc
    else
      var r' := AppendNew(acc, b[..|b| - 1]);
      assert forall x :: x in b <==> x in b[..|b| - 1] || x == b[|b| - 1] by {
        assert b == b[..|b| - 1] + [b[|b| - 1]];
      }
      if b[|b| - 1] in r' then r' else r' + [b[|b| - 1]]
  }

  /** The de-duplicated list: each element at its first occurrence. */
  function Dedup(s: seq<Item>): (r: seq<Item>)
    ensures NoDups(r)
    ensures forall x :: x in r <==> x in s
  {
    AppendNew([], s)
  }

  /** Feeding two batches one after the other is feeding their concatenation. */
  lemma {:induction false} AppendNewConcat(acc: seq<Item>, a: seq<Item>, b: seq<Item>)
    ensures AppendNew(AppendNew(acc, a), b) == AppendNew(acc, a + b)
    decreases |b|
  {
    if |b| == 0 {
      assert a + b == a;
    } else {
      AppendNewConcat(acc, a, b[..|b| - 1]);
      assert (a + b)[..|a + b| - 1] == a + b[..|b| - 1];
      assert (a + b)[|a + b| - 1] == b[|b| - 1];
    }
  }

  /** Position of the first occurrence of `x` in `s`. */
  function FirstIndex(s: seq<Item>, x: Item): (i: nat)
    requires x in s
    ensures i < |s| && s[i] == x && x !in s[..i]
    decreases |s|
  {
    if s[0] == x then 0
    else
      var j := FirstIndex(s[1..], x);
      assert s[..j + 1] == [s[0]] + s[1..][..j];
      j + 1
  }

  lemma FirstIndexUnique(s: seq<Item>, x: Item, i: nat)
    requires i < |s| && s[i] == x && x !in s[..i]
    ensures FirstIndex(s, x) == i
  {
  }

  lemma FirstIndexExtend(s: seq<Item>, y: Item, x: Item)
    requires x in s
    ensures FirstIndex(s + [y], x) == FirstIndex(s, x)
  {
    var i := FirstIndex(s, x);
    assert (s + [y])[..i] == s[..i];
    FirstIndexUnique(s + [y], x, i);
  }

  /** `r` lists elements of `s`, strictly ordered by where each first occurs in `s`. */
  predicate FirstSeenOrder(r: seq<Item>, s: seq<Item>) {
    && (forall x :: x in r ==> x in s)
    && (forall i, j :: 0 <= i < j < |r| ==> r[i] in s && r[j] in s && FirstIndex(s, r[i]) < FirstIndex(s, r[j]))
  }

  /** De-duplication keeps the first-seen order. */
  lemma {:induction false} DedupFirstSeen(s: seq<Item>)
    ensures FirstSeenOrder(Dedup(s), s)
    decreases |s|
  {
    if |s| > 0 {
      var s', y := s[..|s| - 1], s[|s| - 1];
      assert s == s' + [y];
      var d' := Dedup(s');
      DedupFirstSeen(s');
      var d := Dedup(s);
      assert d == if y in d' then d' else d' + [y];
      forall x | x in s'
        ensures FirstIndex(s, x) == FirstIndex(s', x)
      {
        FirstIndexExtend(s', y, x);
      }
      if y !in d' {
        assert y !in s';
        assert s[..|s'|] == s';
        FirstIndexUnique(s, y, |s'|);
        forall i, j | 0 <= i < j < |d|
          ensures d[i] in s && d[j] in s && FirstIndex(s, d[i]) < FirstIndex(s, d[j])
        {
          if j < |d'| {
            assert d[i] == d'[i] && d[j] == d'[j];
          } else {
            assert d[i] == d'[i] && d[j] == y;
          }
        }
      }
    }
  }

  /**
   * First-seen order pins the list down: any sequence holding exactly the
   * elements of `s`, strictly ordered by first occurrence, is `Dedup(s)`.
   */
  lemma FirstSeenDeterminesDedup(r: seq<Item>, s: seq<Item>)
    requires forall x :: x in r <==> x in s
    requires FirstSeenOrder(r, s)
    ensures r == Dedup(s)
  {
    DedupFirstSeen(s);
    FirstSeenUnique(r, Dedup(s), s);
  }

  /** Dropping the head of a first-seen-ordered list keeps it ordered and removes only the head. */
  lemma FirstSeenTail(a: seq<Item>, s: seq<Item>)
    requires |a| > 0 && FirstSeenOrder(a, s)
    ensures FirstSeenOrder(a[1..], s)
    ensures forall x :: x in a[1..] <==> x in a && x != a[0]
  {
    forall x | x in a[1..]
      ensures x != a[0]
    {
      var i :| 0 <= i < |a[1..]| && a[1..][i] == x;
      assert a[i + 1] == x;
      assert FirstIndex(s, a[0]) < FirstIndex(s, a[i + 1]);
    }
    forall x | x in a && x != a[0]
      ensures x in a[1..]
    {
      var i :| 0 <= i < |a| && a[i] == x;
      assert a[1..][i - 1] == x;
    }
    forall i, j | 0 <= i < j < |a[1..]|
      ensures a[1..][i] in s && a[1..][j] in s && FirstIndex(s, a[1..][i]) < FirstIndex(s, a[1..][j])
    {
      assert a[1..][i] == a[i + 1] && a[1..][j] == a[j + 1];
    }
  }

  /** Two first-seen-ordered lists of the same elements start alike. */
  lemma FirstSeenHead(a: seq<Item>, b: seq<Item>, s: seq<Item>)
    requires |a| > 0
    requires forall x :: x in a <==> x in b
    requires FirstSeenOrder(a, s) && FirstSeenOrder(b, s)
    ensures |b| > 0 && a[0] == b[0]
  {
    assert a[0] in b;
    var k :| 0 <= k < |b| && b[k] == a[0];
    assert b[0] in a;
    var m :| 0 <= m < |a| && a[m] == b[0];
    if k > 0 {
      // b[0] would come before a[0] in `b` but after it in `a`
      assert false;
    }
  }

  lemma {:induction false} FirstSeenUnique(a: seq<Item>, b: seq<Item>, s: seq<Item>)
    requires forall x :: x in a <==> x in b
    requires FirstSeenOrder(a, s) && FirstSeenOrder(b, s)
    ensures a == b
    decreases |a|
  {
    assert |b| > 0 ==> b[0] in b;
    if |a| > 0 {
      FirstSeenHead(a, b, s);
      FirstSeenTail(a, s);
      FirstSeenTail(b, s);
      FirstSeenUnique(a[1..], b[1..], s);
      assert a == [a[0]] + a[1..] && b == [b[0]] + b[1..];
    }
  }
}
