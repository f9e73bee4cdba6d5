/** `sort.SliceStable` by name, as used on listeners and virtual hosts. The sort itself is Go's library; here it is
    an insertion sort, characterised by `StableSortUnique`: sorted, and order preserved within each name. */
module StableSort {
  import opened Sources

  /** Go's string order. */
  predicate Le(a: string, b: string) {
    a == [] || (b != [] && (a[0] < b[0] || (a[0] == b[0] && Le(a[1..], b[1..]))))
  }

  /** Position i is the first where `a` and `b` differ. */
  predicate DifferFirstAt(a: string, b: string, i: int) {
    0 <= i < |a| && i < |b| && a[..i] == b[..i] && a[i] != b[i]
  }

  /** Byte by byte: a prefix comes first, otherwise the smaller character at the first difference. */
  lemma {:induction false} LeIsLexicographic(a: string, b: string)
    ensures Le(a, b) <==> a <= b || exists i :: DifferFirstAt(a, b, i) && a[i] < b[i]
  {
    if a != [] && b != [] {
      var x, y := a[1..], b[1..];
      LeIsLexicographic(x, y);
      assert a == [a[0]] + x && b == [b[0]] + y;
      if a[0] == b[0] {
        assert a <= b <==> x <= y;
        if i :| DifferFirstAt(x, y, i) && x[i] < y[i] {
          DifferShifts(a, b, i);
          assert DifferFirstAt(a, b, i + 1);
        }
        if i :| DifferFirstAt(a, b, i) && a[i] < b[i] {
          DifferShifts(a, b, i - 1);
          assert DifferFirstAt(x, y, i - 1);
        }
      } else {
        assert DifferFirstAt(a, b, 0);
        assert forall i :: DifferFirstAt(a, b, i) ==> i == 0;
      }
    }
  }

  lemma DifferShifts(a: string, b: string, i: int)
    requires a != [] && b != [] && a[0] == b[0] && i >= 0
    ensures DifferFirstAt(a[1..], b[1..], i) <==> DifferFirstAt(a, b, i + 1)
  {
    if i < |a| - 1 && i < |b| - 1 {
      assert a[..i + 1] == [a[0]] + a[1..][..i] && b[..i + 1] == [b[0]] + b[1..][..i];
    }
  }

  lemma {:induction false} LeTotal(a: string, b: string)
    ensures Le(a, b) || Le(b, a)
    ensures Le(a, b) && Le(b, a) ==> a == b
  {
    if a != [] && b != [] {
      LeTotal(a[1..], b[1..]);
      assert a == [a[0]] + a[1..] && b == [b[0]] + b[1..];
    }
  }

  lemma {:induction false} LeTransitive(a: string, b: string, c: string)
    requires Le(a, b) && Le(b, c)
    ensures Le(a, c)
  {
    if a != [] && a[0] == b[0] == c[0] {
      LeTransitive(a[1..], b[1..], c[1..]);
    }
  }

  ghost predicate Sorted<T>(s: seq<Object<T>>) {
    forall i, j :: 0 <= i < j < |s| ==> Le(s[i].name, s[j].name)
  }

  /** Places `x` after every element that is not greater. */
  function Insert<T>(s: seq<Object<T>>, x: Object<T>): seq<Object<T>> {
    if s == [] then [x]
    else if !Le(s[0].name, x.name) then [x] + s
    else [s[0]] + Insert(s[1..], x)
  }

  function Sort<T>(s: seq<Object<T>>): seq<Object<T>> {
    if s == [] then [] else Insert(Sort(s[..|s| - 1]), s[|s| - 1])
  }

  /** The elements called `name`, in order. */
  function Named<T>(s: seq<Object<T>>, name: string): seq<Object<T>> {
    if s == [] then []
    else if s[0].name == name then [s[0]] + Named(s[1..], name)
    else Named(s[1..], name)
  }

  lemma {:induction false} NamedConcat<T>(a: seq<Object<T>>, b: seq<Object<T>>, name: string)
    ensures Named(a + b, name) == Named(a, name) + Named(b, name)
  {
    if a == [] {
      assert a + b == b;
    } else {
      NamedConcat(a[1..], b, name);
      assert (a + b)[1..] == a[1..] + b;
    }
  }

  lemma {:induction false} NamedMembers<T>(s: seq<Object<T>>, name: string)
    ensures forall i :: 0 <= i < |Named(s, name)| ==> Named(s, name)[i] in s && Named(s, name)[i].name == name
    ensures forall x :: x in s && x.name == name ==> x in Named(s, name)
  {
    if s != [] {
      NamedMembers(s[1..], name);
      assert s == [s[0]] + s[1..];
    }
  }

  lemma {:induction false} InsertPermutes<T>(s: seq<Object<T>>, x: Object<T>)
    ensures multiset(Insert(s, x)) == multiset(s) + multiset{x}
  {
    if s != [] && Le(s[0].name, x.name) {
      InsertPermutes(s[1..], x);
      assert s == [s[0]] + s[1..];
    }
  }

  lemma {:induction false} InsertSorted<T>(s: seq<Object<T>>, x: Object<T>)
    requires Sorted(s)
    ensures Sorted(Insert(s, x))
  {
    if s == [] {
    } else if !Le(s[0].name, x.name) {
      LeTotal(s[0].name, x.name);
      forall j | 0 <= j < |s| ensures Le(x.name, s[j].name) {
        if j > 0 {
          LeTransitive(x.name, s[0].name, s[j].name);
        }
      }
    } else {
      InsertSorted(s[1..], x);
      InsertPermutes(s[1..], x);
      var rest := Insert(s[1..], x);
      forall j | 0 <= j < |rest| ensures Le(s[0].name, rest[j].name) {
        assert rest[j] in multiset(rest);
        assert rest[j] in s[1..] || rest[j] == x;
      }
    }
  }

  /** A new element comes after the equal names already there: this is stability. */
  lemma {:induction false} InsertNamed<T>(s: seq<Object<T>>, x: Object<T>, name: string)
    requires Sorted(s)
    ensures Named(Insert(s, x), name) == Named(s, name) + Named([x], name)
  {
    if s == [] {
    } else if !Le(s[0].name, x.name) {
      NamedConcat([x], s, name);
      NamedMembers(s, name);
      LeTotal(x.name, x.name);
      assert name == x.name ==> Named(s, name) == [];
    } else {
      InsertNamed(s[1..], x, name);
    }
  }

  lemma {:induction false} SortIsStable<T>(s: seq<Object<T>>)
    ensures Sorted(Sort(s))
    ensures multiset(Sort(s)) == multiset(s)
    ensures forall name :: Named(Sort(s), name) == Named(s, name)
  {
    if s != [] {
      var init, last := s[..|s| - 1], s[|s| - 1];
      assert s == init + [last];
      SortIsStable(init);
      InsertSorted(Sort(init), last);
      InsertPermutes(Sort(init), last);
      forall name ensures Named(Sort(s), name) == Named(s, name) {
        InsertNamed(Sort(init), last, name);
        NamedConcat(init, [last], name);
      }
    }
  }

  lemma SortMembers<T>(s: seq<Object<T>>)
    ensures |Sort(s)| == |s|
    ensures forall x :: x in Sort(s) <==> x in s
    ensures forall i :: 0 <= i < |Sort(s)| ==> Sort(s)[i] in s
  {
    SortIsStable(s);
    assert forall x :: x in Sort(s) <==> x in multiset(Sort(s));
    assert |multiset(Sort(s))| == |Sort(s)| && |multiset(s)| == |s|;
    assert forall i :: 0 <= i < |Sort(s)| ==> Sort(s)[i] in multiset(Sort(s));
  }

  /** A sorted sequence is determined by its order within each name, so any stable sort computes `Sort`. */
  lemma {:induction false} StableSortUnique<T>(a: seq<Object<T>>, b: seq<Object<T>>)
    requires Sorted(a) && Sorted(b)
    requires forall name :: Named(a, name) == Named(b, name)
    ensures a == b
  {
    assert b != [] ==> Named(b, b[0].name) == Named(a, b[0].name);
    if a != [] {
      NamedMembers(b, a[0].name);
      assert Named(b, a[0].name)[0] == a[0];
      assert a[0] in b;
      NamedMembers(a, b[0].name);
      assert Named(a, b[0].name)[0] == b[0];
      assert b[0] in a;
      LeTotal(a[0].name, b[0].name);
      assert a == [a[0]] + a[1..] && b == [b[0]] + b[1..];
      forall name ensures Named(a[1..], name) == Named(b[1..], name) {
        NamedConcat([a[0]], a[1..], name);
        NamedConcat([b[0]], b[1..], name);
        var head := Named([a[0]], name);
        assert Named(a[1..], name) == Named(a, name)[|head|..];
        assert Named(b[1..], name) == Named(b, name)[|head|..];
      }
      StableSortUnique(a[1..], b[1..]);
    }
  }

  /** Sorting part of the input first makes no difference. */
  lemma SortAbsorbs<T>(a: seq<Object<T>>, b: seq<Object<T>>)
    ensures Sort(a + Sort(b)) == Sort(a + b)
    ensures Sort(Sort(a) + b) == Sort(a + b)
  {
    SortIsStable(a);
    SortIsStable(b);
    SortIsStable(a + b);
    SortIsStable(a + Sort(b));
    SortIsStable(Sort(a) + b);
    forall name
      ensures Named(a + Sort(b), name) == Named(a + b, name)
      ensures Named(Sort(a) + b, name) == Named(a + b, name)
    {
      NamedConcat(a, Sort(b), name);
      NamedConcat(Sort(a), b, name);
      NamedConcat(a, b, name);
    }
    StableSortUnique(Sort(a + Sort(b)), Sort(a + b));
    StableSortUnique(Sort(Sort(a) + b), Sort(a + b));
  }

  lemma SortOfSorted<T>(s: seq<Object<T>>)
    requires Sorted(s)
    ensures Sort(s) == s
  {
    SortIsStable(s);
    StableSortUnique(Sort(s), s);
  }

  /** Picking by verdict commutes with the sort. */
  lemma {:induction false} NamedPick<T>(reports: Reports, s: seq<Object<T>>, verdict: bool, name: string)
    ensures Named(Pick(reports, s, verdict), name) == Pick(reports, Named(s, name), verdict)
  {
    if s != [] {
      NamedPick(reports, s[1..], verdict, name);
      NamedConcat([s[0]], Pick(reports, s[1..], verdict), name);
      PickConcat(reports, [s[0]], Named(s[1..], name), verdict);
    }
  }

  lemma {:induction false} PickOfSorted<T>(reports: Reports, s: seq<Object<T>>, verdict: bool)
    requires Sorted(s)
    ensures Sorted(Pick(reports, s, verdict))
  {
    if s != [] {
      PickOfSorted(reports, s[1..], verdict);
      PickMembers(reports, s[1..], verdict);
      var rest := Pick(reports, s[1..], verdict);
      forall j | 0 <= j < |rest| ensures Le(s[0].name, rest[j].name) {
        var y := rest[j];
        assert y in s[1..];
        var k :| 0 <= k < |s[1..]| && s[1..][k] == y;
      }
    }
  }

  lemma PickCommutesWithSort<T>(reports: Reports, s: seq<Object<T>>, verdict: bool)
    ensures Pick(reports, Sort(s), verdict) == Sort(Pick(reports, s, verdict))
  {
    var picked := Pick(reports, s, verdict);
    SortIsStable(s);
    SortIsStable(picked);
    PickOfSorted(reports, Sort(s), verdict);
    forall name ensures Named(Pick(reports, Sort(s), verdict), name) == Named(Sort(picked), name) {
      NamedPick(reports, Sort(s), verdict, name);
      NamedPick(reports, s, verdict, name);
    }
    StableSortUnique(Pick(reports, Sort(s), verdict), Sort(picked));
  }
}
