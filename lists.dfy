/** Sequence helpers: duplicate-free sequences and order-preserving de-duplication
    (Python's `list(dict.fromkeys(items))`). */
module Lists {

  /** No element occurs twice. */
  predicate NoDup<T(==)>(s: seq<T>) {
    forall i, j :: 0 <= i < j < |s| ==> s[i] != s[j]
  }

  /** The position of the first occurrence of `x` in `s`. */
  function FirstIndex<T(==)>(s: seq<T>, x: T): (k: nat)
    requires x in s
    ensures k < |s| && s[k] == x
    ensures forall j :: 0 <= j < k ==> s[j] != x
  {
    if s[0] == x then 0 else 1 + FirstIndex(s[1..], x)
  }

  /** Keeps the first occurrence of every element, in order of first occurrence. */
  function Dedupe<T(==)>(s: seq<T>): (r: seq<T>)
    ensures NoDup(r)
    ensures forall i :: 0 <= i < |r| ==> r[i] in s
    ensures forall i :: 0 <= i < |s| ==> s[i] in r
    ensures |r| <= |s|
  {
    if |s| == 0 then []
    else
      var d := Dedupe(s[..|s| - 1]);
      if s[|s| - 1] in d then d else d + [s[|s| - 1]]
  }

  /** The survivors of `Dedupe` are ordered by where they first occur in the input. */
  lemma {:induction false} DedupeKeepsFirstOccurrenceOrder<T>(s: seq<T>)
    ensures forall i, j :: 0 <= i < j < |Dedupe(s)| ==>
              FirstIndex(s, Dedupe(s)[i]) < FirstIndex(s, Dedupe(s)[j])
  {
    if |s| > 0 {
      var s', x := s[..|s| - 1], s[|s| - 1];
      assert s' + [x] == s;
      var d := Dedupe(s');
      DedupeKeepsFirstOccurrenceOrder(s');
      var r := Dedupe(s);
      forall i, j | 0 <= i < j < |r|
        ensures FirstIndex(s, r[i]) < FirstIndex(s, r[j])
      {
        assert r == if x in d then d else d + [x];
        assert r[i] == d[i] && d[i] in s';
        FirstIndexOfPrefix(s', [x], d[i]);
        if j < |d| {
          assert r[j] == d[j] && d[j] in s';
          FirstIndexOfPrefix(s', [x], d[j]);
        } else {
          assert r[j] == x && x !in s';
          assert FirstIndex(s, x) == |s| - 1;
        }
      }
    }
  }

  lemma FirstIndexOfPrefix<T>(a: seq<T>, b: seq<T>, y: T)
    requires y in a
    ensures FirstIndex(a + b, y) == FirstIndex(a, y)
  {
    var k := FirstIndex(a, y);
    assert (a + b)[k] == y;
    assert forall j :: 0 <= j < k ==> (a + b)[j] == a[j];
  }

  /** A duplicate-free input is left unchanged. */
  lemma {:induction false} DedupeOfNoDup<T>(s: seq<T>)
    requires NoDup(s)
    ensures Dedupe(s) == s
  {
    if |s| > 0 {
      var s' := s[..|s| - 1];
      assert NoDup(s');
      DedupeOfNoDup(s');
      assert s[|s| - 1] !in s';
      assert s' + [s[|s| - 1]] == s;
    }
  }

  /** The first element survives de-duplication, at the front. */
  lemma {:induction false} DedupeKeepsHead<T>(s: seq<T>)
    requires |s| > 0
    ensures |Dedupe(s)| > 0 && Dedupe(s)[0] == s[0]
  {
    if |s| > 1 {
      var s' := s[..|s| - 1];
      DedupeKeepsHead(s');
      assert s'[0] == s[0];
    }
  }

  /** De-duplication keeps exactly the elements of its input. */
  lemma DedupeMembers<T>(s: seq<T>, x: T)
    ensures x in Dedupe(s) <==> x in s
  {
    if x in s {
      var i :| 0 <= i < |s| && s[i] == x;
    }
  }

  /** Appending one element: it is kept exactly when it has not been seen. */
  lemma DedupeSnoc<T>(s: seq<T>, x: T)
    ensures Dedupe(s + [x]) == if x in s then Dedupe(s) else Dedupe(s) + [x]
  {
    assert (s + [x])[..|s + [x]| - 1] == s;
  }
}
