/** Small vocabulary shared by every component. */
module Prelude {

  datatype Option<+T> = None | Some(value: T)

  datatype Result<+T, +E> = Ok(value: T) | Err(error: E) {
    predicate IsFailure() {
      Err?
    }

    function PropagateFailure<U>(): Result<U, E>
      requires Err?
    {
      Err(error)
    }

    function Extract(): T
      requires Ok?
    {
      value
    }
  }

  /** No element occurs at two positions. */
  ghost predicate NoDup<T>(s: seq<T>) {
    forall i, j :: 0 <= i < j < |s| ==> s[i] != s[j]
  }

  ghost function Elements<T>(s: seq<T>): set<T> {
    set x | x in s
  }

  function Sum(s: seq<int>): int {
    if s == [] then 0 else s[0] + Sum(s[1..])
  }

  lemma {:induction false} SumAppend(a: seq<int>, b: seq<int>)
    ensures Sum(a + b) == Sum(a) + Sum(b)
  {
    if a == [] {
      assert a + b == b;
    } else {
      SumAppend(a[1..], b);
      assert (a + b)[1..] == a[1..] + b;
    }
  }

  function Min(a: int, b: int): int {
    if a <= b then a else b
  }

  function Max(a: int, b: int): int {
    if a <= b then b else a
  }

  /** A duplicate-free sequence has as many elements as positions. */
  lemma {:induction false} NoDupCount<T>(s: seq<T>)
    requires NoDup(s)
    ensures |Elements(s)| == |s|
  {
    if s != [] {
      NoDupCount(s[1..]);
      assert Elements(s) == Elements(s[1..]) + {s[0]};
    }
  }

  lemma SubsetCount<T>(a: set<T>, b: set<T>)
    requires a <= b
    ensures |a| <= |b|
  {
    assert a + (b - a) == b;
    assert |a + (b - a)| == |a| + |b - a|;
  }

  lemma NoDupSnoc<T>(s: seq<T>, x: T)
    ensures NoDup(s + [x]) <==> NoDup(s) && x !in s
  {
    var longer := s + [x];
    assert longer[|s|] == x;
    assert forall j :: 0 <= j < |s| ==> longer[j] == s[j];
  }

  /** Of more distinct values than a set holds, one lies outside it. */
  lemma Pigeonhole<T>(tried: seq<T>, used: set<T>) returns (k: nat)
    requires NoDup(tried) && |tried| > |used|
    ensures k < |tried| && tried[k] !in used
  {
    NoDupCount(tried);
    if Elements(tried) <= used {
      SubsetCount(Elements(tried), used);
    }
    var x :| x in Elements(tried) && x !in used;
    k :| 0 <= k < |tried| && tried[k] == x;
  }

  /** Putting a head in front of a concatenation. */
  lemma HeadInFront<T>(whole: seq<T>, head: seq<T>, rest: seq<T>, left: seq<T>, right: seq<T>)
    requires whole == head + rest && rest == left + right
    ensures whole == (head + left) + right
  {
  }
}
