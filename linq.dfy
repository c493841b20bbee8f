/** The LINQ operators the service composes, over sequences: Where,
    FirstOrDefault, Skip, Take and the stable OrderBy/OrderByDescending. */
module Linq {
  import opened Primitives

  /** The elements satisfying p, in their original order. This is the bare
      recursion the induction lemmas below unfold; `Where` is the operator the
      service calls, the same sequence with those lemmas' facts as its
      contract, so that callers get them without unfolding the recursion. */
  function Kept<T>(s: seq<T>, p: T -> bool): (kept: seq<T>)
  {
    if |s| == 0 then []
    else if p(s[0]) then [s[0]] + Kept(s[1..], p)
    else Kept(s[1..], p)
  }

  /** What Kept keeps: only elements of s satisfying p, each exactly as often
      as s holds it. */
  lemma {:induction false} KeptFacts<T>(s: seq<T>, p: T -> bool)
    ensures |Kept(s, p)| <= |s|
    ensures forall i | 0 <= i < |Kept(s, p)| :: p(Kept(s, p)[i])
    ensures forall x | x in Kept(s, p) :: x in s
    ensures forall x | x in s :: multiset(Kept(s, p))[x] == if p(x) then multiset(s)[x] else 0
    decreases |s|
  {
    if |s| > 0 {
      KeptFacts(s[1..], p);
      assert s == [s[0]] + s[1..];
      if p(s[0]) {
        var k := Kept(s, p);
        forall i | 0 <= i < |k|
          ensures p(k[i])
        {
          if i > 0 {
            assert k[i] == Kept(s[1..], p)[i - 1];
          }
        }
      }
    }
  }

  /** Kept distributes over concatenation. */
  lemma {:induction false} KeptConcat<T>(a: seq<T>, b: seq<T>, p: T -> bool)
    ensures Kept(a + b, p) == Kept(a, p) + Kept(b, p)
    decreases |a|
  {
    if |a| == 0 {
      assert a + b == b;
    } else {
      var ab := a + b;
      assert ab[0] == a[0] && ab[1..] == a[1..] + b;
      KeptConcat(a[1..], b, p);
      if p(a[0]) {
        ConcatAssoc([a[0]], Kept(a[1..], p), Kept(b, p));
      }
    }
  }

  lemma ConcatAssoc<T>(a: seq<T>, b: seq<T>, c: seq<T>)
    ensures a + (b + c) == (a + b) + c
  {
  }

  /** Enumerable.Where: the elements satisfying p, in their original order. */
  function Where<T>(s: seq<T>, p: T -> bool): (r: seq<T>)
    ensures |r| <= |s|
    ensures forall i | 0 <= i < |r| :: p(r[i])
    ensures forall x | x in r :: x in s
    ensures forall x | x in s :: multiset(r)[x] == if p(x) then multiset(s)[x] else 0
  {
    KeptFacts(s, p);
    Kept(s, p)
  }

  /** Where distributes over concatenation: the kept elements of a prefix come
      before those of the rest, so relative order is preserved. */
  lemma WhereConcat<T>(a: seq<T>, b: seq<T>, p: T -> bool)
    ensures Where(a + b, p) == Where(a, p) + Where(b, p)
  {
    KeptConcat(a, b, p);
  }

  /** Where keeps the sequence as it is when every element qualifies. */
  lemma {:induction false} WhereAll<T>(s: seq<T>, p: T -> bool)
    requires forall i | 0 <= i < |s| :: p(s[i])
    ensures Where(s, p) == s
    decreases |s|
  {
    if |s| > 0 {
      WhereAll(s[1..], p);
    }
  }

  /** The index of the element FirstOrDefault(p) returns, if any. */
  function IndexOfFirst<T>(s: seq<T>, p: T -> bool): (r: Option<nat>)
    ensures r.Some? ==> r.value < |s| && p(s[r.value])
    ensures r.Some? ==> forall j | 0 <= j < r.value :: !p(s[j])
    ensures r.None? <==> forall i | 0 <= i < |s| :: !p(s[i])
  {
    if |s| == 0 then None
    else if p(s[0]) then Some(0)
    else match IndexOfFirst(s[1..], p)
      case None => None
      case Some(k) => Some(k + 1)
  }

  /** Enumerable.FirstOrDefault(p), null when nothing matches. */
  function FirstOrDefault<T>(s: seq<T>, p: T -> bool): (r: Option<T>)
    ensures r.None? <==> forall i | 0 <= i < |s| :: !p(s[i])
    ensures r.Some? ==> exists k | 0 <= k < |s| ::
      s[k] == r.value && p(s[k]) && forall j | 0 <= j < k :: !p(s[j])
  {
    match IndexOfFirst(s, p)
    case None => None
    case Some(k) => Some(s[k])
  }

  /** Enumerable.Skip: a non-positive count skips nothing. */
  function Skip<T>(s: seq<T>, n: int): (r: seq<T>)
    ensures r == s[if n <= 0 then 0 else if n >= |s| then |s| else n..]
  {
    if n <= 0 then s else if n >= |s| then [] else s[n..]
  }

  /** Enumerable.Take: a non-positive count takes nothing. */
  function Take<T>(s: seq<T>, n: int): (r: seq<T>)
    ensures r == s[..if n <= 0 then 0 else if n >= |s| then |s| else n]
  {
    if n <= 0 then [] else if n >= |s| then s else s[..n]
  }

  // ---------------------------------------------------------------------------
  // OrderBy / OrderByDescending over an integer sort key.
  // ---------------------------------------------------------------------------

  /** Key a may stand before key b in the requested direction. */
  predicate InOrder(descending: bool, a: int, b: int)
  {
    if descending then a >= b else a <= b
  }

  ghost predicate SortedBy<T>(s: seq<T>, key: T -> int, descending: bool)
  {
    forall i, j | 0 <= i < j < |s| :: InOrder(descending, key(s[i]), key(s[j]))
  }

  /** Puts x before the first element it may precede, hence before the
      elements of equal key that follow it in the source. */
  function Insert<T>(x: T, s: seq<T>, key: T -> int, descending: bool): (r: seq<T>)
    ensures |r| == |s| + 1
    ensures multiset(r) == multiset(s) + multiset{x}
    ensures SortedBy(s, key, descending) ==> SortedBy(r, key, descending)
  {
    if |s| == 0 then [x]
    else if InOrder(descending, key(x), key(s[0])) then
      InsertFrontSorted(x, s, key, descending);
      [x] + s
    else
      var rest := Insert(x, s[1..], key, descending);
      assert s == [s[0]] + s[1..];
      InsertLaterSorted(x, s, rest, key, descending);
      [s[0]] + rest
  }

  /** An element that may precede the head of a sorted sequence keeps it
      sorted in front. */
  lemma InsertFrontSorted<T>(x: T, s: seq<T>, key: T -> int, descending: bool)
    requires |s| > 0 && InOrder(descending, key(x), key(s[0]))
    ensures SortedBy(s, key, descending) ==> SortedBy([x] + s, key, descending)
  {
    var r := [x] + s;
    if SortedBy(s, key, descending) {
      forall i, j | 0 <= i < j < |r| ensures InOrder(descending, key(r[i]), key(r[j])) {
        if i > 0 {
          assert r[i] == s[i - 1] && r[j] == s[j - 1];
        } else if j > 1 {
          assert InOrder(descending, key(s[0]), key(s[j - 1]));
        }
      }
    }
  }

  /** When x goes after the head, the head still leads a sorted result. */
  lemma InsertLaterSorted<T>(x: T, s: seq<T>, rest: seq<T>, key: T -> int, descending: bool)
    requires |s| > 0 && !InOrder(descending, key(x), key(s[0]))
    requires multiset(rest) == multiset(s[1..]) + multiset{x}
    requires SortedBy(s[1..], key, descending) ==> SortedBy(rest, key, descending)
    ensures SortedBy(s, key, descending) ==> SortedBy([s[0]] + rest, key, descending)
  {
    var r := [s[0]] + rest;
    if SortedBy(s, key, descending) {
      assert SortedBy(s[1..], key, descending);
      forall i, j | 0 <= i < j < |r| ensures InOrder(descending, key(r[i]), key(r[j])) {
        if i == 0 {
          var y := r[j];
          assert y == rest[j - 1];
          if y != x {
            assert y in multiset(rest);
            assert y in multiset(s[1..]);
            var k :| 0 <= k < |s[1..]| && s[1..][k] == y;
            assert y == s[k + 1];
          }
        } else {
          assert r[i] == rest[i - 1] && r[j] == rest[j - 1];
        }
      }
    }
  }

  /** The stable sort behind OrderBy (descending = false) and
      OrderByDescending (descending = true). */
  function SortBy<T>(s: seq<T>, key: T -> int, descending: bool): (r: seq<T>)
    ensures |r| == |s|
    ensures multiset(r) == multiset(s)
    ensures SortedBy(r, key, descending)
  {
    if |s| == 0 then []
    else
      assert s == [s[0]] + s[1..];
      Insert(s[0], SortBy(s[1..], key, descending), key, descending)
  }
}
