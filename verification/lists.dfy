/** Sequence helpers used by the subscription registry: first-match lookup,
    removal of the first match, occurrence counting and duplicate freedom. */
module Lists {

  datatype Option<+T> = None | Some(value: T)

  /** No element occurs twice in `s`. */
  ghost predicate NoDup<X>(s: seq<X>) {
    forall i, j :: 0 <= i < j < |s| ==> s[i] != s[j]
  }

  /** Position of the first element of `s` equal to `x`, scanning from the
      front; `None` when there is none. */
  function FirstIndex<X(==)>(s: seq<X>, x: X): (r: Option<nat>)
    ensures r.None? <==> x !in s
    ensures r.Some? ==> r.value < |s| && s[r.value] == x && x !in s[..r.value]
  {
    if |s| == 0 then None
    else if s[0] == x then Some(0)
    else
      match FirstIndex(s[1..], x)
      case None => None
      case Some(i) =>
        assert s[1..][..i] == s[1..i + 1];
        assert s[..i + 1] == [s[0]] + s[1..][..i];
        Some(i + 1)
  }

  /** `s` with the element at position `i` cut out. */
  function RemoveAt<X>(s: seq<X>, i: nat): (r: seq<X>)
    requires i < |s|
    ensures |r| == |s| - 1
    ensures forall k :: 0 <= k < i ==> r[k] == s[k]
    ensures forall k :: i <= k < |r| ==> r[k] == s[k + 1]
    ensures multiset(r) == multiset(s) - multiset{s[i]}
  {
    assert s == s[..i] + [s[i]] + s[i + 1..];
    s[..i] + s[i + 1..]
  }

  /** `s` without its first element equal to `x`; `s` itself when `x` does
      not occur. */
  function RemoveFirst<X(==)>(s: seq<X>, x: X): (r: seq<X>)
    ensures x !in s ==> r == s
    ensures x in s ==> |r| == |s| - 1
    ensures x in s ==> exists i :: 0 <= i < |s| && s[i] == x && x !in s[..i] && r == s[..i] + s[i + 1..]
    ensures multiset(r) == multiset(s) - multiset{x}
  {
    match FirstIndex(s, x)
    case None => s
    case Some(i) =>
      assert s[i] == x && x !in s[..i] && RemoveAt(s, i) == s[..i] + s[i + 1..];
      RemoveAt(s, i)
  }

  /** Reference definition: `s` with every element equal to `x` dropped,
      keeping the order of the others. */
  function Without<X(==)>(s: seq<X>, x: X): seq<X> {
    if |s| == 0 then []
    else if s[0] == x then Without(s[1..], x)
    else [s[0]] + Without(s[1..], x)
  }

  /** Number of positions of `s` holding `x`. */
  function Count<X(==)>(s: seq<X>, x: X): (n: nat)
    ensures n <= |s|
    ensures n == 0 <==> x !in s
  {
    if |s| == 0 then 0
    else (if s[0] == x then 1 else 0) + Count(s[1..], x)
  }

  /** `n` copies of `m`. */
  function Repeat<X>(m: X, n: nat): (r: seq<X>)
    ensures |r| == n
    ensures forall k :: 0 <= k < n ==> r[k] == m
  {
    if n == 0 then [] else [m] + Repeat(m, n - 1)
  }

  /** The tail of a duplicate-free sequence is duplicate-free and does not
      hold the head. */
  lemma NoDupTail<X>(s: seq<X>)
    requires NoDup(s)
    requires |s| > 0
    ensures NoDup(s[1..])
    ensures s[0] !in s[1..]
  {
  }

  /** In a duplicate-free sequence every member occurs exactly once. */
  lemma {:induction false} NoDupCount<X>(s: seq<X>, x: X)
    requires NoDup(s)
    ensures Count(s, x) == if x in s then 1 else 0
  {
    if |s| > 0 {
      NoDupTail(s);
      NoDupCount(s[1..], x);
      assert x in s <==> x == s[0] || x in s[1..] by {
        assert s == [s[0]] + s[1..];
      }
    }
  }

  /** Removing the first match, seen one element at a time: the head goes
      when it matches, otherwise it stays in front of the tail's removal. */
  lemma RemoveFirstCons<X>(s: seq<X>, x: X)
    requires |s| > 0
    ensures RemoveFirst(s, x) ==
            if s[0] == x then s[1..] else [s[0]] + RemoveFirst(s[1..], x)
  {
    if s[0] != x {
      match FirstIndex(s[1..], x)
      case None =>
        assert FirstIndex(s, x) == None;
        assert s == [s[0]] + s[1..];
      case Some(i) =>
        assert FirstIndex(s, x) == Some(i + 1);
        var r, r' := RemoveAt(s, i + 1), [s[0]] + RemoveAt(s[1..], i);
        assert |r| == |r'|;
        forall k | 0 <= k < |r| ensures r[k] == r'[k] {
          if k > 0 {
            assert r'[k] == RemoveAt(s[1..], i)[k - 1];
          }
        }
    }
  }

  /** On a duplicate-free sequence, removing the first match is the same as
      filtering the value out: the remaining elements keep their order. */
  lemma {:induction false} RemoveFirstIsWithout<X>(s: seq<X>, x: X)
    requires NoDup(s)
    ensures RemoveFirst(s, x) == Without(s, x)
  {
    if |s| > 0 {
      NoDupTail(s);
      RemoveFirstCons(s, x);
      if s[0] == x {
        WithoutAbsent(s[1..], x);
      } else {
        RemoveFirstIsWithout(s[1..], x);
      }
    }
  }

  /** Filtering out an absent value changes nothing. */
  lemma {:induction false} WithoutAbsent<X>(s: seq<X>, x: X)
    requires x !in s
    ensures Without(s, x) == s
  {
    if |s| > 0 {
      assert s == [s[0]] + s[1..];
      WithoutAbsent(s[1..], x);
    }
  }

  /** Removing a value just appended to a sequence that did not hold it gives
      the sequence back. */
  lemma RemoveFirstAppended<X>(s: seq<X>, x: X)
    requires x !in s
    ensures RemoveFirst(s + [x], x) == s
  {
  }

  /** Appending a value that is not yet present keeps a sequence
      duplicate-free. */
  lemma NoDupAppend<X>(s: seq<X>, x: X)
    requires NoDup(s)
    requires x !in s
    ensures NoDup(s + [x])
  {
  }

  /** On a duplicate-free sequence, removing the first match keeps it
      duplicate-free, drops exactly that value and keeps every other one. */
  lemma RemoveFirstNoDup<X>(s: seq<X>, x: X)
    requires NoDup(s)
    ensures NoDup(RemoveFirst(s, x))
    ensures x !in RemoveFirst(s, x)
    ensures forall y :: y in RemoveFirst(s, x) <==> y in s && y != x
  {
    match FirstIndex(s, x)
    case None =>
    case Some(i) =>
      var r := RemoveAt(s, i);
      forall a, b | 0 <= a < b < |r| ensures r[a] != r[b] {
        var a' := if a < i then a else a + 1;
        var b' := if b < i then b else b + 1;
        assert r[a] == s[a'] && r[b] == s[b'];
      }
      forall y ensures y in r <==> y in s && y != x {
        if y in r {
          var k :| 0 <= k < |r| && r[k] == y;
          var k' := if k < i then k else k + 1;
          assert s[k'] == y && k' != i;
        }
        if y in s && y != x {
          var k :| 0 <= k < |s| && s[k] == y;
          var k' := if k < i then k else k - 1;
          assert r[k'] == y;
        }
      }
  }
}
