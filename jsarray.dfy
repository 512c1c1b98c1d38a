// JavaScript array primitives used by the viewer state (indexOf, includes,
// push-if-absent, splice(k, 1)) and the first-seen de-duplication written as
// nested loops in the viewer code.
module JsArray {
  /** No element occurs twice. */
  ghost predicate NoDup<T>(s: seq<T>) {
    forall i, j :: 0 <= i < j < |s| ==> s[i] != s[j]
  }

  /** `s.indexOf(x)`: the first position holding x, or -1 when x is absent. */
  function IndexOf<T(==)>(s: seq<T>, x: T): (r: int)
    ensures -1 <= r < |s|
    ensures r == -1 <==> x !in s
    ensures 0 <= r ==> s[r] == x && x !in s[..r]
  {
    if |s| == 0 then -1
    else if s[0] == x then 0
    else
      var k := IndexOf(s[1..], x);
      assert s[1..][..if k < 0 then 0 else k] == s[1..if k < 0 then 1 else k + 1];
      if k < 0 then -1 else k + 1
  }

  /** `s.splice(start, 1)` on the array: the start index is counted from the
      end when negative (clamped at 0) and nothing is removed past the end. */
  function Splice1<T>(s: seq<T>, start: int): (r: seq<T>)
    ensures 0 <= start < |s| ==> r == s[..start] + s[start + 1..]
    ensures start >= |s| ==> r == s
  {
    var k := if start < 0 then (if |s| + start < 0 then 0 else |s| + start) else start;
    if k >= |s| then s else s[..k] + s[k + 1..]
  }

  /** Splicing two parallel lists at the same index keeps every pair that
      was related still related. */
  lemma SpliceKeepsPairs<A, B>(a: seq<A>, b: seq<B>, start: int, related: (A, B) -> bool)
    requires |a| == |b|
    requires forall i :: 0 <= i < |a| ==> related(a[i], b[i])
    ensures |Splice1(a, start)| == |Splice1(b, start)|
    ensures forall i :: 0 <= i < |Splice1(a, start)| ==> related(Splice1(a, start)[i], Splice1(b, start)[i])
  {
    var k := if start < 0 then (if |a| + start < 0 then 0 else |a| + start) else start;
    var a', b' := Splice1(a, start), Splice1(b, start);
    if k < |a| {
      forall i | 0 <= i < |a'|
        ensures related(a'[i], b'[i])
      {
        if i >= k {
          assert a'[i] == a[i + 1] && b'[i] == b[i + 1];
        }
      }
    }
  }

  /** `s.splice(s.indexOf(x), 1)`: the idiom the viewer uses to remove x. */
  function RemoveAt<T(==)>(s: seq<T>, x: T): seq<T> {
    Splice1(s, IndexOf(s, x))
  }

  /** Removing a present element deletes exactly its first occurrence. */
  lemma RemovePresent<T>(s: seq<T>, x: T)
    requires x in s
    ensures var k := IndexOf(s, x);
      RemoveAt(s, x) == s[..k] + s[k + 1..] && multiset(RemoveAt(s, x)) == multiset(s) - multiset{x}
  {
    var k := IndexOf(s, x);
    var r := RemoveAt(s, x);
    assert r == s[..k] + s[k + 1..];
    assert s == s[..k] + [x] + s[k + 1..];
    calc {
      multiset(s);
      multiset(s[..k]) + multiset{x} + multiset(s[k + 1..]);
      multiset(r) + multiset{x};
    }
  }

  /** Removing an absent element splices index -1, dropping the last entry. */
  lemma RemoveAbsentDropsLast<T>(s: seq<T>, x: T)
    requires x !in s
    ensures |s| == 0 ==> RemoveAt(s, x) == s
    ensures |s| > 0 ==> RemoveAt(s, x) == s[..|s| - 1]
  {
  }

  /** `if (!s.includes(x)) s.push(x)`. */
  function PushIfAbsent<T(==,!new)>(s: seq<T>, x: T): (r: seq<T>)
    ensures forall y :: y in r <==> y in s || y == x
    ensures |s| <= |r| <= |s| + 1 && r[..|s|] == s
  {
    if x in s then s else s + [x]
  }

  lemma PushIfAbsentKeepsNoDup<T(!new)>(s: seq<T>, x: T)
    requires NoDup(s)
    ensures NoDup(PushIfAbsent(s, x))
    ensures x in s ==> PushIfAbsent(s, x) == s
    ensures x !in s ==> PushIfAbsent(s, x) == s + [x]
  {
  }

  /** The distinct elements of s in the order of their first occurrence. */
  function DistinctFirstSeen<T(==,!new)>(s: seq<T>): (r: seq<T>)
    ensures NoDup(r)
    ensures forall x :: x in r <==> x in s
    ensures |r| <= |s|
  {
    if |s| == 0 then []
    else
      var d := DistinctFirstSeen(s[..|s| - 1]);
      assert forall x :: x in s <==> x in s[..|s| - 1] || x == s[|s| - 1] by {
        assert s == s[..|s| - 1] + [s[|s| - 1]];
      }
      if s[|s| - 1] in d then d else d + [s[|s| - 1]]
  }
}
