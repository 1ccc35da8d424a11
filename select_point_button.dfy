// utils/games_generator/control_elements/select_point_button.py: a button
// that asks for a point of the level. Clicking the button puts it on a waiting
// list shared by all such buttons (or takes it off again); the next click in a
// waiting button's area becomes its value. `set_waiting` removes buttons from
// the list while a `for` loop walks that same list, so the button right after
// each removed one is not looked at in that pass.

module SelectPointButtons {
  import opened Collections
  import opened Geometry
  import Colors
  import Buttons

  /** The class-wide `_waiting` list. */
  class PointQueue {
    var waiting: seq<SelectPointButton>

    constructor ()
      ensures waiting == []
    {
      waiting := [];
    }

    /** No button waits twice. */
    predicate Valid()
      reads this
    {
      NoDup(waiting)
    }

    /** `is_select_mode`: some button waits for a point. */
    predicate IsSelectMode()
      reads this
      ensures IsSelectMode() <==> exists b :: b in waiting
    {
      if |waiting| > 0 then assert waiting[0] in waiting; true else false
    }
  }

  class SelectPointButton {
    const rect: Rect
    var color: Colors.Color
    var value: Buttons.Value
    var box: bool
    /** The region a selected point must lie in. */
    const area: Buttons.Button

    /** A white, unframed button without a value, and a white area button. */
    constructor (topLeft: Point, size: Point, areaTopLeft: Point, areaSize: Point)
      ensures rect == Rect(topLeft.x, topLeft.y, size.x, size.y)
      ensures color == Colors.WHITE && value == Buttons.NoValue && !box
      ensures fresh(area) && area.rect == Rect(areaTopLeft.x, areaTopLeft.y, areaSize.x, areaSize.y)
      ensures area.color == Colors.WHITE && area.value == Buttons.NoValue && !area.box
    {
      rect := Rect(topLeft.x, topLeft.y, size.x, size.y);
      color := Colors.WHITE;
      value := Buttons.NoValue;
      box := false;
      area := new Buttons.Button(areaTopLeft, areaSize, Colors.WHITE, Buttons.NoValue, false);
    }

    /** `click`, inherited from `Button`. */
    predicate Click(p: Point) {
      Contains(rect, p)
    }

    /** `set_value`: a 2-tuple value is stored and nothing else happens; otherwise a click on the
        button puts it on the waiting list framed, or takes it off unframed when it waits already. */
    method SetValue(mouse: Option<Point>, value: Buttons.Value, queue: PointQueue)
      requires queue.Valid()
      modifies this`value, this`box, queue
      ensures queue.Valid()
      ensures value.Pair? ==> this.value == value && box == old(box) && queue.waiting == old(queue.waiting)
      ensures !value.Pair? ==> this.value == old(this.value)
      ensures !value.Pair? && mouse.Some? && Click(mouse.value) ==>
        queue.waiting == Toggle(old(queue.waiting), this) && box == (this !in old(queue.waiting))
      ensures !value.Pair? && !(mouse.Some? && Click(mouse.value)) ==>
        queue.waiting == old(queue.waiting) && box == old(box)
      ensures !value.Pair? && mouse.Some? && Click(mouse.value) && this !in old(queue.waiting) ==>
        queue.IsSelectMode()
    {
      if value.Pair? {
        this.value := value;
        return;
      }
      if mouse.None? {
        return;
      }
      if Click(mouse.value) {
        ToggleNoDup(queue.waiting, this);
        if this in queue.waiting {
          box := false;
          queue.waiting := RemoveFirst(queue.waiting, this);
        } else {
          box := true;
          queue.waiting := queue.waiting + [this];
        }
      }
    }
  }

  /** Whether a click at p lies in the button's area. */
  predicate InArea(b: SelectPointButton, p: Point) {
    b.area.Click(p)
  }

  /** The list after `set_waiting`'s loop, modelled as Python runs it: a list and the index of the
      next element, advanced by one after every element, also after one removed from under it.
      On a list without repeats, `remove` drops the element at the index being visited. */
  function Sweep(ws: seq<SelectPointButton>, i: nat, p: Point): seq<SelectPointButton>
    decreases |ws| - i
  {
    if i >= |ws| then ws
    else if InArea(ws[i], p) then Sweep(ws[..i] + ws[i + 1..], i + 1, p)
    else Sweep(ws, i + 1, p)
  }

  /** The same list read off directly: a button in the area leaves, and the button after it stays
      whatever its area, because the loop never looks at it. */
  function Kept(s: seq<SelectPointButton>, p: Point): (r: seq<SelectPointButton>)
    ensures forall x :: x in r ==> x in s
    decreases |s|
  {
    if s == [] then []
    else if InArea(s[0], p) then (if |s| == 1 then [] else [s[1]] + Kept(s[2..], p))
    else [s[0]] + Kept(s[1..], p)
  }

  /** Among distinct buttons, removing the button at index i removes exactly that index. */
  lemma RemoveAtIndex(ws: seq<SelectPointButton>, i: int)
    requires NoDup(ws) && 0 <= i < |ws|
    ensures RemoveFirst(ws, ws[i]) == ws[..i] + ws[i + 1..]
    ensures NoDup(ws[..i] + ws[i + 1..])
  {
    var k := IndexOf(ws, ws[i]);
    assert ws[k] == ws[i];
    var r := ws[..i] + ws[i + 1..];
    forall a, b | 0 <= a < b < |r| ensures r[a] != r[b] {
      var a', b' := if a < i then a else a + 1, if b < i then b else b + 1;
      assert r[a] == ws[a'] && r[b] == ws[b'];
    }
  }

  /** A button in the area at index i leaves the list, and the walk goes on at index i + 1. */
  lemma SweepRemoves(ws: seq<SelectPointButton>, i: nat, p: Point)
    requires NoDup(ws) && i < |ws| && InArea(ws[i], p)
    ensures Sweep(ws, i, p) == Sweep(ws[..i] + ws[i + 1..], i + 1, p)
    ensures NoDup(ws[..i] + ws[i + 1..])
  {
    RemoveAtIndex(ws, i);
  }

  /** The skipped button: after removing button i, the walk resumes past button i + 1. */
  lemma KeptAfterRemoval(ws: seq<SelectPointButton>, i: nat, p: Point)
    requires i + 1 < |ws| && InArea(ws[i], p)
    ensures var ws' := ws[..i] + ws[i + 1..];
      ws'[..i + 1] + Kept(ws'[i + 1..], p) == ws[..i] + Kept(ws[i..], p)
  {
    var ws' := ws[..i] + ws[i + 1..];
    var s := ws[i..];
    assert s[0] == ws[i] && s[1] == ws[i + 1];
    assert ws'[..i + 1] == ws[..i] + [ws[i + 1]];
    assert ws'[i + 1..] == s[2..];
  }

  /** Sweeping from index i keeps the first i buttons and then keeps what `Kept` keeps. */
  lemma {:induction false} SweepIsKept(ws: seq<SelectPointButton>, i: nat, p: Point)
    requires NoDup(ws) && i <= |ws|
    ensures Sweep(ws, i, p) == ws[..i] + Kept(ws[i..], p)
    decreases |ws| - i
  {
    if i == |ws| {
      assert ws[i..] == [] && ws[..i] == ws;
    } else if InArea(ws[i], p) {
      var ws' := ws[..i] + ws[i + 1..];
      SweepRemoves(ws, i, p);
      if i + 1 < |ws| {
        SweepIsKept(ws', i + 1, p);
        KeptAfterRemoval(ws, i, p);
      } else {
        assert Sweep(ws', i + 1, p) == ws[..i] + Kept(ws[i..], p) by {
          assert ws' == ws[..i] && ws[i..] == [ws[i]];
        }
      }
    } else {
      SweepIsKept(ws, i + 1, p);
      assert ws[..i + 1] + Kept(ws[i + 1..], p) == ws[..i] + Kept(ws[i..], p) by {
        var s := ws[i..];
        assert s[0] == ws[i];
        assert ws[..i + 1] == ws[..i] + [ws[i]];
        assert ws[i + 1..] == s[1..];
      }
    }
  }

  /** What a pass keeps has no repeats when the list had none. */
  lemma {:induction false} KeptNoDup(s: seq<SelectPointButton>, p: Point)
    requires NoDup(s)
    ensures NoDup(Kept(s, p))
    decreases |s|
  {
    if s != [] && (|s| >= 2 || !InArea(s[0], p)) {
      var t := if InArea(s[0], p) then s[2..] else s[1..];
      {
        assert NoDup(t) by {
          forall a, b | 0 <= a < b < |t| ensures t[a] != t[b] {
            var d := |s| - |t|;
            assert t[a] == s[a + d] && t[b] == s[b + d];
          }
        }
        KeptNoDup(t, p);
        var h := if InArea(s[0], p) then s[1] else s[0];
        assert h !in t by {
          forall a | 0 <= a < |t| ensures t[a] != h {
            var d := |s| - |t|;
            assert t[a] == s[a + d];
          }
        }
        var r := [h] + Kept(t, p);
        forall a, b | 0 <= a < b < |r| ensures r[a] != r[b] {
          if a == 0 { assert r[b] in Kept(t, p); }
          else { assert r[a] == Kept(t, p)[a - 1] && r[b] == Kept(t, p)[b - 1]; }
        }
      }
    }
  }

  /** A pass removes only buttons whose area holds the point; every button outside the area stays. */
  lemma {:induction false} KeptMembers(s: seq<SelectPointButton>, p: Point)
    requires NoDup(s)
    ensures forall x :: x in s && !InArea(x, p) ==> x in Kept(s, p)
    ensures forall x :: x in s && x !in Kept(s, p) ==> InArea(x, p)
    decreases |s|
  {
    if s != [] && (|s| >= 2 || !InArea(s[0], p)) {
      var t := if InArea(s[0], p) then s[2..] else s[1..];
      {
        assert NoDup(t) by {
          forall a, b | 0 <= a < b < |t| ensures t[a] != t[b] {
            var d := |s| - |t|;
            assert t[a] == s[a + d] && t[b] == s[b + d];
          }
        }
        KeptMembers(t, p);
        forall x | x in s && !InArea(x, p) ensures x in Kept(s, p) {
          if x != s[0] && (InArea(s[0], p) ==> x != s[1]) {
            var k :| 0 <= k < |s| && s[k] == x;
            assert x == t[k - (|s| - |t|)];
          }
        }
      }
    }
  }

  /** Without two neighbours in the area, a pass removes exactly the buttons whose area holds the
      point. */
  lemma {:induction false} KeptExactWithoutNeighbours(s: seq<SelectPointButton>, p: Point)
    requires NoDup(s)
    requires forall k :: 0 <= k < |s| - 1 ==> !(InArea(s[k], p) && InArea(s[k + 1], p))
    ensures forall x :: x in s ==> (x in Kept(s, p) <==> !InArea(x, p))
    decreases |s|
  {
    KeptMembers(s, p);
    if s != [] && (|s| >= 2 || !InArea(s[0], p)) {
      var t := if InArea(s[0], p) then s[2..] else s[1..];
      var d := |s| - |t|;
      assert NoDup(t) by {
        forall a, b | 0 <= a < b < |t| ensures t[a] != t[b] {
          assert t[a] == s[a + d] && t[b] == s[b + d];
        }
      }
      forall k | 0 <= k < |t| - 1 ensures !(InArea(t[k], p) && InArea(t[k + 1], p)) {
        assert t[k] == s[k + d] && t[k + 1] == s[k + 1 + d];
      }
      KeptExactWithoutNeighbours(t, p);
      if InArea(s[0], p) {
        assert !InArea(s[1], p);
      }
    }
  }

  /** Two waiting buttons next to each other whose areas both hold the point: the first one is
      given the point and leaves, the second one stays on the list. */
  lemma SecondOfNeighboursSkipped(ws: seq<SelectPointButton>, k: int, p: Point)
    requires NoDup(ws) && 0 <= k < |ws| - 1 && InArea(ws[k], p) && InArea(ws[k + 1], p)
    requires forall j :: 0 <= j < k ==> !InArea(ws[j], p)
    ensures ws[k] !in Sweep(ws, 0, p) && ws[k + 1] in Sweep(ws, 0, p)
  {
    SweepIsKept(ws, 0, p);
    KeptPrefixFree(ws, k, p);
    KeptNoDup(ws, p);
    var r := Kept(ws, p);
    assert ws[k + 1] in r by { assert r[k] == ws[k + 1]; }
    assert r[..k] == ws[..k];
    assert ws[k] !in r by {
      forall a | 0 <= a < |r| ensures r[a] != ws[k] {
        if a < k { assert r[a] == ws[a]; }
        else if a == k { assert r[a] == ws[k + 1]; }
        else { assert r[a] in Kept(ws[k + 2..], p); assert r[a] in ws[k + 2..]; }
      }
    }
  }

  /** When no button before index k is in the area and button k is, a pass keeps the first k
      buttons, drops button k and keeps button k + 1 next. */
  lemma {:induction false} KeptPrefixFree(s: seq<SelectPointButton>, k: int, p: Point)
    requires 0 <= k < |s| - 1 && InArea(s[k], p)
    requires forall j :: 0 <= j < k ==> !InArea(s[j], p)
    ensures Kept(s, p) == s[..k] + [s[k + 1]] + Kept(s[k + 2..], p)
    decreases k
  {
    if k > 0 {
      KeptPrefixFree(s[1..], k - 1, p);
      assert s[1..][k + 1..] == s[k + 2..];
      assert s[..k] == [s[0]] + s[1..][..k - 1];
    }
  }

  /** What `set_waiting`'s loop keeps true: the list holds only buttons of the list before the
      loop; a button still on it has its value and frame from before the loop, and a button
      that left has the point and no frame. */
  ghost predicate Tracked(ws: seq<SelectPointButton>, p: Point, w0: seq<SelectPointButton>,
                          values: seq<Buttons.Value>, boxes: seq<bool>)
    reads w0
  {
    |values| == |boxes| == |w0| &&
    (forall k :: 0 <= k < |ws| ==> ws[k] in w0) &&
    (forall k :: 0 <= k < |w0| && w0[k] in ws ==> w0[k].value == values[k] && w0[k].box == boxes[k]) &&
    (forall k :: 0 <= k < |w0| && w0[k] !in ws ==> w0[k].value == Buttons.Pair(p) && !w0[k].box)
  }

  /** One turn of `set_waiting`'s loop, at index i of the current list. The ghost parameters are
      the list, the values and the frames before the loop. */
  method VisitWaiting(queue: PointQueue, i: nat, p: Point, ghost w0: seq<SelectPointButton>,
                      ghost values: seq<Buttons.Value>, ghost boxes: seq<bool>)
    requires i < |queue.waiting| && queue.Valid() && NoDup(w0) && Tracked(queue.waiting, p, w0, values, boxes)
    modifies queue, queue.waiting[i]
    ensures queue.Valid() && Sweep(queue.waiting, i + 1, p) == Sweep(old(queue.waiting), i, p)
    ensures |queue.waiting| <= |old(queue.waiting)|
    ensures Tracked(queue.waiting, p, w0, values, boxes)
  {
    var b := queue.waiting[i];
    if b.area.Click(p) {
      ghost var before := queue.waiting;
      RemoveFirstNoDup(before, b);
      RemoveAtIndex(before, i);
      queue.waiting := RemoveFirst(queue.waiting, b);
      Depart(b, p, before, queue.waiting, w0, values, boxes);
    }
  }

  /** The visited button b leaves the list: it is given the point and loses its frame. */
  method Depart(b: SelectPointButton, p: Point, ghost before: seq<SelectPointButton>, ghost after: seq<SelectPointButton>,
                ghost w0: seq<SelectPointButton>, ghost values: seq<Buttons.Value>, ghost boxes: seq<bool>)
    requires b in before && Tracked(before, p, w0, values, boxes)
    requires forall x :: x in after <==> x in before && x != b
    modifies b
    ensures b.value == Buttons.Pair(p) && !b.box
    ensures Tracked(after, p, w0, values, boxes)
  {
    b.value := Buttons.Pair(p);
    b.box := false;
    forall k | 0 <= k < |after| ensures after[k] in w0 {
      assert after[k] in before;
    }
    forall k | 0 <= k < |w0| && w0[k] in after ensures w0[k].value == values[k] && w0[k].box == boxes[k] {
      assert w0[k] in before && w0[k] != b;
    }
    forall k | 0 <= k < |w0| && w0[k] !in after ensures w0[k].value == Buttons.Pair(p) && !w0[k].box {
      if w0[k] != b {
        assert w0[k] !in before;
      }
    }
  }

  /** `set_waiting`: the loop over the waiting list that gives the point to each visited button
      whose area holds it, unframes it and removes it from the list it is walking. */
  method SetWaiting(p: Point, queue: PointQueue)
    requires queue.Valid()
    modifies queue, queue.waiting
    ensures queue.Valid() && queue.waiting == Kept(old(queue.waiting), p)
    ensures forall k :: 0 <= k < |old(queue.waiting)| && old(queue.waiting)[k] in queue.waiting ==>
      old(queue.waiting)[k].value == old(queue.waiting[k].value) && old(queue.waiting)[k].box == old(queue.waiting[k].box)
    ensures forall k :: 0 <= k < |old(queue.waiting)| && old(queue.waiting)[k] !in queue.waiting ==>
      old(queue.waiting)[k].value == Buttons.Pair(p) && !old(queue.waiting)[k].box
  {
    ghost var w0 := queue.waiting;
    ghost var values := seq(|w0|, k requires 0 <= k < |w0| reads w0 => w0[k].value);
    ghost var boxes := seq(|w0|, k requires 0 <= k < |w0| reads w0 => w0[k].box);
    Walk(p, queue, w0, values, boxes);
    SweepIsKept(w0, 0, p);
    assert w0[0..] == w0;
  }

  /** `set_waiting`'s loop, against the list, the values and the frames before it. */
  method Walk(p: Point, queue: PointQueue, ghost w0: seq<SelectPointButton>,
              ghost values: seq<Buttons.Value>, ghost boxes: seq<bool>)
    requires queue.Valid() && queue.waiting == w0 && |values| == |boxes| == |w0|
    requires forall k :: 0 <= k < |w0| ==> w0[k].value == values[k] && w0[k].box == boxes[k]
    modifies queue, queue.waiting
    ensures queue.Valid() && queue.waiting == Sweep(w0, 0, p)
    ensures forall k :: 0 <= k < |w0| && w0[k] in queue.waiting ==> w0[k].value == values[k] && w0[k].box == boxes[k]
    ensures forall k :: 0 <= k < |w0| && w0[k] !in queue.waiting ==> w0[k].value == Buttons.Pair(p) && !w0[k].box
  {
    var i := 0;
    while i < |queue.waiting|
      invariant queue.Valid() && Sweep(queue.waiting, i, p) == Sweep(w0, 0, p)
      invariant Tracked(queue.waiting, p, w0, values, boxes)
      decreases |queue.waiting| - i
    {
      VisitWaiting(queue, i, p, w0, values, boxes);
      i := i + 1;
    }
  }
}
