/** Sequence combinators for the filtered list comprehensions of the
    application (`[g(x) for x in xs if p(x)]`). */
module Seqs {
  import opened Wrappers

  /** Keeps, in order, the value `f` yields for each element it accepts:
      `f(x) == Some(y)` keeps `y`, `f(x) == None` drops `x`. */
  function FilterMap<T, U>(f: T -> Option<U>, s: seq<T>): (r: seq<U>)
    ensures |r| <= |s|
    decreases |s|
  {
    if |s| == 0 then []
    else
      var rest := FilterMap(f, s[1..]);
      match f(s[0])
      case None => rest
      case Some(y) => [y] + rest
  }

  /** Every kept value comes from an accepted element, and every accepted
      element's value is kept. */
  lemma {:induction false} FilterMapMembers<T, U>(f: T -> Option<U>, s: seq<T>)
    ensures forall k :: 0 <= k < |FilterMap(f, s)| ==> exists i :: 0 <= i < |s| && f(s[i]) == Some(FilterMap(f, s)[k])
    ensures forall i :: 0 <= i < |s| && f(s[i]).Some? ==> f(s[i]).value in FilterMap(f, s)
    decreases |s|
  {
    if |s| > 0 {
      var rest := FilterMap(f, s[1..]);
      FilterMapMembers(f, s[1..]);
      var off := if f(s[0]).Some? then 1 else 0;
      assert FilterMap(f, s)[off..] == rest;
      forall k | 0 <= k < |FilterMap(f, s)|
        ensures exists i :: 0 <= i < |s| && f(s[i]) == Some(FilterMap(f, s)[k])
      {
        if k < off {
          assert f(s[0]) == Some(FilterMap(f, s)[k]);
        } else {
          var j :| 0 <= j < |s[1..]| && f(s[1..][j]) == Some(rest[k - off]);
          assert s[j + 1] == s[1..][j];
        }
      }
      forall i | 1 <= i < |s| && f(s[i]).Some?
        ensures f(s[i]).value in FilterMap(f, s)
      {
        assert s[i] == s[1..][i - 1];
      }
    } else {
      assert FilterMap(f, s) == [];
    }
  }

  /** The positions of `s` whose element `f` accepts. */
  ghost function Kept<T, U>(f: T -> Option<U>, s: seq<T>): set<int>
  {
    set i | 0 <= i < |s| && f(s[i]).Some?
  }

  /** `f` is applied to every element. */
  function Map<T, U>(f: T -> U, s: seq<T>): (r: seq<U>)
    ensures |r| == |s|
    ensures forall i :: 0 <= i < |s| ==> r[i] == f(s[i])
  {
    seq(|s|, i requires 0 <= i < |s| => f(s[i]))
  }

  /** Filtering distributes over concatenation, so kept values stay in the
      relative order of the elements they came from. */
  lemma {:induction false} FilterMapAppend<T, U>(f: T -> Option<U>, a: seq<T>, b: seq<T>)
    ensures FilterMap(f, a + b) == FilterMap(f, a) + FilterMap(f, b)
    decreases |a|
  {
    if |a| == 0 {
      assert a + b == b;
    } else {
      assert (a + b)[0] == a[0];
      assert (a + b)[1..] == a[1..] + b;
      FilterMapAppend(f, a[1..], b);
    }
  }

  /** One element yields its value or nothing. */
  lemma FilterMapSingle<T, U>(f: T -> Option<U>, x: T)
    ensures FilterMap(f, [x]) == if f(x).Some? then [f(x).value] else []
  {
    assert [x][1..] == [];
  }

  /** The positions kept in `s + [x]` are those kept in `s`, plus the last
      one when `x` is accepted. */
  lemma KeptSnoc<T, U>(f: T -> Option<U>, s: seq<T>, x: T)
    ensures |Kept(f, s + [x])| == |Kept(f, s)| + (if f(x).Some? then 1 else 0)
  {
    var n := |s|;
    var tail: set<int> := if f(x).Some? then {n} else {};
    forall i | 0 <= i < n
      ensures i in Kept(f, s + [x]) <==> i in Kept(f, s)
    {
      assert (s + [x])[i] == s[i];
    }
    assert (s + [x])[n] == x;
    assert Kept(f, s + [x]) == Kept(f, s) + tail;
    assert n !in Kept(f, s);
  }

  /** Exactly one value is kept per accepted element. */
  lemma {:induction false} FilterMapCount<T, U>(f: T -> Option<U>, s: seq<T>)
    ensures |FilterMap(f, s)| == |Kept(f, s)|
    decreases |s|
  {
    if |s| == 0 {
      assert Kept(f, s) == {};
    } else {
      var n := |s| - 1;
      var p := s[..n];
      assert s == p + [s[n]];
      FilterMapAppend(f, p, [s[n]]);
      FilterMapSingle(f, s[n]);
      FilterMapCount(f, p);
      KeptSnoc(f, p, s[n]);
    }
  }

  /** Nothing is kept exactly when no element is accepted. */
  lemma {:induction false} FilterMapEmpty<T, U>(f: T -> Option<U>, s: seq<T>)
    ensures FilterMap(f, s) == [] <==> forall i :: 0 <= i < |s| ==> f(s[i]).None?
    decreases |s|
  {
    if |s| > 0 {
      FilterMapEmpty(f, s[1..]);
      assert forall i :: 1 <= i < |s| ==> s[1..][i - 1] == s[i];
    }
  }
}
