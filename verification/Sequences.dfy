/** Maps and filters over sequences, with what pins them down: positions for a filter, multisets for a map. */
module Sequences {

  lemma SeqAssociates<T>(a: seq<T>, b: seq<T>, c: seq<T>)
    ensures (a + b) + c == a + (b + c)
  {
  }

  // ---- maps ----

  ghost function Mapped<A(!new), B(!new)>(f: A -> B, s: seq<A>): seq<B> {
    seq(|s|, i requires 0 <= i < |s| => f(s[i]))
  }

  lemma TakeOut<T>(before: seq<T>, x: T, after: seq<T>)
    ensures multiset(before + [x] + after) == multiset(before + after) + multiset{x}
  {
    assert multiset(before + [x] + after) == multiset(before) + multiset([x]) + multiset(after);
    assert multiset(before + after) == multiset(before) + multiset(after);
  }

  lemma MappedTakeOut<A(!new), B(!new)>(f: A -> B, before: seq<A>, x: A, after: seq<A>)
    ensures multiset(Mapped(f, before + [x] + after)) == multiset(Mapped(f, before + after)) + multiset{f(x)}
  {
    assert Mapped(f, before + [x] + after) == Mapped(f, before) + [f(x)] + Mapped(f, after);
    assert Mapped(f, before + after) == Mapped(f, before) + Mapped(f, after);
    TakeOut(Mapped(f, before), f(x), Mapped(f, after));
  }

  /** A sequence without one occurrence of `x`. */
  lemma Remove<T>(s: seq<T>, x: T) returns (before: seq<T>, after: seq<T>)
    requires x in s
    ensures s == before + [x] + after
    ensures multiset(before + after) == multiset(s) - multiset{x}
  {
    var j :| 0 <= j < |s| && s[j] == x;
    before, after := s[..j], s[j + 1..];
    assert s == before + [x] + after;
    TakeOut(before, x, after);
  }

  lemma {:induction false} MappedPermutes<A(!new), B(!new)>(f: A -> B, s: seq<A>, t: seq<A>)
    requires multiset(s) == multiset(t)
    ensures multiset(Mapped(f, s)) == multiset(Mapped(f, t))
    decreases |s|
  {
    hide Mapped;
    if s == [] {
      assert |t| == |multiset(t)| == |multiset(s)| == 0;
    } else {
      var x := s[0];
      assert x in multiset(t);
      var b1, a1 := Remove(s, x);
      var b2, a2 := Remove(t, x);
      assert |s| == |b1 + a1| + 1;
      MappedPermutes(f, b1 + a1, b2 + a2);
      MappedTakeOut(f, b1, x, a1);
      MappedTakeOut(f, b2, x, a2);
    }
  }

  // ---- filters ----

  function Count<T>(p: T -> bool, s: seq<T>): nat {
    if s == [] then 0 else Count(p, s[..|s| - 1]) + if p(s[|s| - 1]) then 1 else 0
  }

  function Filter<T>(p: T -> bool, s: seq<T>): seq<T> {
    if s == [] then [] else Filter(p, s[..|s| - 1]) + if p(s[|s| - 1]) then [s[|s| - 1]] else []
  }

  /** A filter keeps exactly the elements that pass, each at the position given by how many passed before it. */
  lemma {:induction false} FilterIsExact<T>(p: T -> bool, s: seq<T>)
    ensures |Filter(p, s)| == Count(p, s)
    ensures forall k :: 0 <= k < |s| && p(s[k]) ==> Count(p, s[..k]) < Count(p, s) && Filter(p, s)[Count(p, s[..k])] == s[k]
    ensures forall x :: x in Filter(p, s) <==> x in s && p(x)
  {
    if s != [] {
      var n := |s| - 1;
      var init := s[..n];
      FilterIsExact(p, init);
      assert s == init + [s[n]];
      forall k | 0 <= k < |s| && p(s[k]) ensures Count(p, s[..k]) < Count(p, s) && Filter(p, s)[Count(p, s[..k])] == s[k] {
        if k < n {
          assert init[..k] == s[..k] && init[k] == s[k];
        }
      }
    }
  }
}
