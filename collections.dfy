// Helpers for the list operations the Python code performs in place:
// membership, `list.remove` (first occurrence) and the add-or-remove toggle
// that several widgets use.

module Collections {

  datatype Option<T> = None | Some(value: T)

  /** No element occurs twice. */
  predicate NoDup<T(==)>(s: seq<T>) {
    forall i, j :: 0 <= i < j < |s| ==> s[i] != s[j]
  }

  /** Position of the first occurrence of `x` (what `list.index` returns). */
  function IndexOf<T(==)>(s: seq<T>, x: T): (k: nat)
    requires x in s
    ensures k < |s| && s[k] == x && x !in s[..k]
  {
    if s[0] == x then 0 else 1 + IndexOf(s[1..], x)
  }

  /** Python's `list.remove(x)`: drops the first occurrence; it raises when x is absent. */
  function RemoveFirst<T(==)>(s: seq<T>, x: T): (r: seq<T>)
    requires x in s
    ensures |r| == |s| - 1
    ensures multiset(r) == multiset(s) - multiset{x}
    ensures r == s[..IndexOf(s, x)] + s[IndexOf(s, x) + 1..]
  {
    var k := IndexOf(s, x);
    assert s == s[..k] + [x] + s[k + 1..];
    s[..k] + s[k + 1..]
  }

  lemma RemoveFirstNoDup<T>(s: seq<T>, x: T)
    requires x in s && NoDup(s)
    ensures NoDup(RemoveFirst(s, x))
    ensures forall y :: y in RemoveFirst(s, x) <==> y in s && y != x
  {
    var k := IndexOf(s, x);
    var r := RemoveFirst(s, x);
    forall y
      ensures y in r <==> y in s && y != x
    {
      if y in r {
        var i :| 0 <= i < |r| && r[i] == y;
        if i < k { assert s[i] == y; } else { assert s[i + 1] == y; }
      }
      if y in s && y != x {
        var i :| 0 <= i < |s| && s[i] == y;
        if i < k { assert r[i] == y; } else { assert i != k; assert r[i - 1] == y; }
      }
    }
    forall i, j | 0 <= i < j < |r| ensures r[i] != r[j] {
      var i' := if i < k then i else i + 1;
      var j' := if j < k then j else j + 1;
      assert r[i] == s[i'] && r[j] == s[j'];
    }
  }

  /** `if x in s: s.remove(x)` else `s.append(x)`. */
  function Toggle<T(==)>(s: seq<T>, x: T): (r: seq<T>)
    ensures x !in s ==> r == s + [x]
  {
    if x in s then RemoveFirst(s, x) else s + [x]
  }

  /** On a list without duplicates, toggling flips exactly the membership of x. */
  lemma ToggleMembership<T>(s: seq<T>, x: T)
    requires NoDup(s)
    ensures NoDup(Toggle(s, x))
    ensures forall y :: y in Toggle(s, x) <==> (y in s) != (y == x)
  {
    if x in s {
      RemoveFirstNoDup(s, x);
    } else {
      var r := s + [x];
      forall i, j | 0 <= i < j < |r| ensures r[i] != r[j] {
        if j == |s| { assert r[i] == s[i]; }
      }
    }
  }

  /** Toggling twice gives the elements back: exactly when x was absent, as a set otherwise. */
  lemma ToggleTwice<T>(s: seq<T>, x: T)
    requires NoDup(s)
    ensures NoDup(Toggle(Toggle(s, x), x))
    ensures forall y :: y in Toggle(Toggle(s, x), x) <==> y in s
    ensures x !in s ==> Toggle(Toggle(s, x), x) == s
  {
    ToggleMembership(s, x);
    ToggleMembership(Toggle(s, x), x);
    if x !in s {
      var t := s + [x];
      assert x in t;
      assert IndexOf(t, x) == |s|;
      assert t[..|s|] == s;
    }
  }

  /** Toggles each element of xs in turn, as a loop over xs doing add-or-remove does. */
  function ToggleEach<T(==)>(s: seq<T>, xs: seq<T>): seq<T>
    decreases |xs|
  {
    if xs == [] then s else Toggle(ToggleEach(s, xs[..|xs| - 1]), xs[|xs| - 1])
  }

  /** Toggling one element leaves every other element's membership as it was. */
  lemma ToggleOther<T>(s: seq<T>, x: T, y: T)
    requires y != x
    ensures y in Toggle(s, x) <==> y in s
  {
    if x in s {
      var r := RemoveFirst(s, x);
      assert multiset(r)[y] == multiset(s)[y];
      assert y in r <==> y in multiset(r);
      assert y in s <==> y in multiset(s);
    }
  }

  /** Toggling keeps a list free of duplicates. */
  lemma ToggleNoDup<T>(s: seq<T>, x: T)
    requires NoDup(s)
    ensures NoDup(Toggle(s, x))
  {
    ToggleMembership(s, x);
  }

  /** An element none of the toggles touches keeps its membership. */
  lemma {:induction false} ToggleEachOther<T>(s: seq<T>, xs: seq<T>, y: T)
    requires y !in xs
    ensures y in ToggleEach(s, xs) <==> y in s
    decreases |xs|
  {
    if xs != [] {
      assert xs == xs[..|xs| - 1] + [xs[|xs| - 1]];
      ToggleEachOther(s, xs[..|xs| - 1], y);
      ToggleOther(ToggleEach(s, xs[..|xs| - 1]), xs[|xs| - 1], y);
    }
  }

  lemma ToggleEachSnoc<T>(s: seq<T>, xs: seq<T>, x: T)
    ensures ToggleEach(s, xs + [x]) == Toggle(ToggleEach(s, xs), x)
  {
    assert (xs + [x])[..|xs|] == xs;
  }

  /** Toggling two lists one after the other is toggling their concatenation. */
  lemma {:induction false} ToggleEachAppend<T>(s: seq<T>, xs: seq<T>, ys: seq<T>)
    ensures ToggleEach(s, xs + ys) == ToggleEach(ToggleEach(s, xs), ys)
    decreases |ys|
  {
    if ys == [] {
      assert xs + ys == xs;
    } else {
      var init, last := ys[..|ys| - 1], ys[|ys| - 1];
      assert xs + ys == (xs + init) + [last];
      ToggleEachSnoc(s, xs + init, last);
      ToggleEachAppend(s, xs, init);
      assert ys == init + [last];
      ToggleEachSnoc(ToggleEach(s, xs), init, last);
    }
  }

  /** Toggling distinct elements one by one flips exactly their membership. */
  lemma {:induction false} ToggleEachMembership<T>(s: seq<T>, xs: seq<T>)
    requires NoDup(s) && NoDup(xs)
    ensures NoDup(ToggleEach(s, xs))
    ensures forall y :: y in ToggleEach(s, xs) <==> (y in s) != (y in xs)
    decreases |xs|
  {
    if xs != [] {
      var init := xs[..|xs| - 1];
      var x := xs[|xs| - 1];
      assert NoDup(init) by {
        forall i, j | 0 <= i < j < |init| ensures init[i] != init[j] { assert init[i] == xs[i] && init[j] == xs[j]; }
      }
      assert x !in init by {
        forall i | 0 <= i < |init| ensures init[i] != x { assert init[i] == xs[i]; }
      }
      ToggleEachMembership(s, init);
      ToggleMembership(ToggleEach(s, init), x);
      assert xs == init + [x];
    }
  }

  /** Python's `range(start, stop, step)`. */
  function Range(start: int, stop: int, step: int): (r: seq<int>)
    requires step != 0
    ensures forall i :: 0 <= i < |r| ==> r[i] == start + i * step
    ensures step > 0 ==> (forall i :: 0 <= i < |r| ==> r[i] < stop) && start + |r| * step >= stop
    ensures step < 0 ==> (forall i :: 0 <= i < |r| ==> r[i] > stop) && start + |r| * step <= stop
    decreases if step > 0 then stop - start else start - stop
  {
    if (step > 0 && start < stop) || (step < 0 && start > stop) then
      var rest := Range(start + step, stop, step);
      RangeCons(start, stop, step, rest);
      [start] + rest
    else []
  }

  /** One step of `range`: prepending `start` to the range from `start + step` keeps the
      element formula and the bound on the far end. */
  lemma RangeCons(start: int, stop: int, step: int, rest: seq<int>)
    requires (step > 0 && start < stop) || (step < 0 && start > stop)
    requires forall i :: 0 <= i < |rest| ==> rest[i] == start + step + i * step
    requires step > 0 ==> (forall i :: 0 <= i < |rest| ==> rest[i] < stop) && start + step + |rest| * step >= stop
    requires step < 0 ==> (forall i :: 0 <= i < |rest| ==> rest[i] > stop) && start + step + |rest| * step <= stop
    ensures forall i :: 0 <= i < |[start] + rest| ==> ([start] + rest)[i] == start + i * step
    ensures step > 0 ==> ((forall i :: 0 <= i < |[start] + rest| ==> ([start] + rest)[i] < stop) &&
                          start + |[start] + rest| * step >= stop)
    ensures step < 0 ==> ((forall i :: 0 <= i < |[start] + rest| ==> ([start] + rest)[i] > stop) &&
                          start + |[start] + rest| * step <= stop)
  {
    var r := [start] + rest;
    forall i | 1 <= i < |r| ensures r[i] == start + i * step {
      assert r[i] == rest[i - 1];
      assert (i - 1) * step == i * step - step;
    }
    assert |r| * step == |rest| * step + step;
  }

  /** A strictly increasing range has no repeats. */
  lemma RangeNoDup(start: int, stop: int, step: int)
    requires step > 0
    ensures NoDup(Range(start, stop, step))
  {
    var r := Range(start, stop, step);
    forall i, j | 0 <= i < j < |r| ensures r[i] < r[j] {
      assert j * step - i * step == (j - i) * step;
    }
  }

  /** The rows of a nested list one after the other, as a nested `for` loop visits them. */
  function Flatten<T>(rows: seq<seq<T>>): seq<T>
  {
    if rows == [] then [] else Flatten(rows[..|rows| - 1]) + rows[|rows| - 1]
  }
}
