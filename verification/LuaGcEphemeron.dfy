/** Tables with weak keys in the collector (modules/lua/lgc.c): a value is kept
    by its entry only if the key is kept otherwise. */
module LuaGcEphemeron {
  import opened Common

  type Ref = nat

  /** What an entry of a table or an element of an object holds; values that are
      not collected are all alike. */
  datatype Slot = Plain | To(r: Ref)

  datatype Entry = Empty | Entry(key: Slot, val: Slot)

  /** A string; a table with weak keys, with its array part and what else it
      refers to strongly; any other object with its references. */
  datatype Obj = Str | Weak(strong: seq<Slot>, entries: seq<Entry>) | Other(refs: seq<Slot>)

  type Heap = map<Ref, Obj>

  ghost predicate InHeap(h: Heap, s: Slot) {
    s.To? ==> s.r in h
  }

  ghost predicate ObjIn(h: Heap, o: Obj) {
    && (o.Other? ==> forall i | 0 <= i < |o.refs| :: InHeap(h, o.refs[i]))
    && (o.Weak? ==> forall i | 0 <= i < |o.strong| :: InHeap(h, o.strong[i]))
    && (o.Weak? ==> forall i | 0 <= i < |o.entries| && o.entries[i].Entry? ::
        InHeap(h, o.entries[i].key) && InHeap(h, o.entries[i].val))
  }

  ghost predicate WellFormed(h: Heap) {
    forall r | r in h :: ObjIn(h, h[r])
  }

  ghost predicate Kept(s: Slot, m: set<Ref>) {
    s.To? ==> s.r in m
  }

  /** Strings count as values: an entry never goes because of its string key. */
  ghost predicate Alive(h: Heap, s: Slot, m: set<Ref>) {
    s.To? ==> s.r in m || (s.r in h && h[s.r].Str?)
  }

  ghost predicate StringKept(h: Heap, s: Slot, m: set<Ref>) {
    s.To? && s.r in h && h[s.r].Str? ==> s.r in m
  }

  ghost predicate Fronts(h: Heap, o: Obj, m: set<Ref>)
    requires o.Weak?
  {
    && (forall i | 0 <= i < |o.strong| :: Kept(o.strong[i], m))
    && (forall i | 0 <= i < |o.entries| && o.entries[i].Entry? :: StringKept(h, o.entries[i].key, m))
  }

  /** No entry with a live key has a value that is not marked. */
  ghost predicate Quiet(h: Heap, o: Obj, m: set<Ref>)
    requires o.Weak?
  {
    forall i | 0 <= i < |o.entries| && o.entries[i].Entry? :: Alive(h, o.entries[i].key, m)
        ==> Kept(o.entries[i].val, m)
  }

  /** All values are marked, whatever the keys. */
  ghost predicate Full(o: Obj, m: set<Ref>)
    requires o.Weak?
  {
    forall i | 0 <= i < |o.entries| && o.entries[i].Entry? :: Kept(o.entries[i].val, m)
  }

  ghost predicate ClosedAt(h: Heap, m: set<Ref>, r: Ref)
    requires r in h
  {
    match h[r]
    case Str => true
    case Other(refs) => forall i | 0 <= i < |refs| :: Kept(refs[i], m)
    case Weak(_, _) => Fronts(h, h[r], m) && Quiet(h, h[r], m)
  }

  /** Closed under ordinary references, and under values of entries whose keys are in. */
  ghost predicate Closed(h: Heap, m: set<Ref>) {
    forall r | r in m && r in h :: ClosedAt(h, m, r)
  }

  /** What a marked object has still to do, while it is not gray. */
  ghost predicate Done(h: Heap, m: set<Ref>, r: Ref, pending: bool)
    requires r in h
  {
    match h[r]
    case Str => true
    case Other(refs) => forall i | 0 <= i < |refs| :: Kept(refs[i], m)
    case Weak(_, _) => Fronts(h, h[r], m) && (pending || Full(h[r], m))
  }

  ghost function NotStrings(h: Heap, m: set<Ref>): set<Ref> {
    set r | r in m && r in h && !h[r].Str?
  }

  /** Every closed set around the old marks holds the new ones. */
  ghost predicate NoMore(h: Heap, m: set<Ref>, m': set<Ref>) {
    forall s: set<Ref> | Closed(h, s) && m <= s :: m' <= s
  }

  // ----- More marks -----

  lemma {:induction false} DoneLater(h: Heap, m: set<Ref>, m': set<Ref>, r: Ref, pending: bool, pending': bool)
    requires r in h && Done(h, m, r, pending) && m <= m' && (pending ==> pending')
    ensures Done(h, m', r, pending')
  {
  }

  lemma {:induction false} NoMoreTwice(h: Heap, a: set<Ref>, b: set<Ref>, c: set<Ref>)
    requires NoMore(h, a, b) && NoMore(h, b, c)
    ensures NoMore(h, a, c)
  {
  }

  /** What a marked object refers to is in every closed set around the marks. */
  lemma {:induction false} RefForced(h: Heap, m: set<Ref>, r: Ref, i: nat)
    requires r in m && r in h && h[r].Other? && i < |h[r].refs| && h[r].refs[i].To?
    ensures NoMore(h, m, m + {h[r].refs[i].r})
  {
    forall s: set<Ref> | Closed(h, s) && m <= s ensures h[r].refs[i].r in s {
      assert ClosedAt(h, s, r);
      assert Kept(h[r].refs[i], s);
    }
  }

  lemma {:induction false} ArrayForced(h: Heap, m: set<Ref>, r: Ref, i: nat)
    requires r in m && r in h && h[r].Weak? && i < |h[r].strong| && h[r].strong[i].To?
    ensures NoMore(h, m, m + {h[r].strong[i].r})
  {
    forall s: set<Ref> | Closed(h, s) && m <= s ensures h[r].strong[i].r in s {
      assert ClosedAt(h, s, r);
      assert Kept(h[r].strong[i], s);
    }
  }

  /** A string key is marked; a value is, if its key is alive. */
  lemma {:induction false} EntryForced(h: Heap, m: set<Ref>, r: Ref, i: nat)
    requires r in m && r in h && h[r].Weak? && i < |h[r].entries| && h[r].entries[i].Entry?
    ensures var e := h[r].entries[i];
      && (e.key.To? && e.key.r in h && h[e.key.r].Str? ==> NoMore(h, m, m + {e.key.r}))
      && (e.val.To? && Alive(h, e.key, m) ==> NoMore(h, m, m + {e.val.r}))
  {
    var e := h[r].entries[i];
    forall s: set<Ref> | Closed(h, s) && m <= s
      ensures e.key.To? && e.key.r in h && h[e.key.r].Str? ==> e.key.r in s
      ensures e.val.To? && Alive(h, e.key, m) ==> e.val.r in s
    {
      assert ClosedAt(h, s, r);
      assert StringKept(h, e.key, s);
      if Alive(h, e.key, m) { assert Alive(h, e.key, s) && Kept(e.val, s); }
    }
  }

  ghost predicate ObjOk(h: Heap, m: set<Ref>, gray: seq<Ref>, ephemeron: seq<Ref>, next: seq<Ref>, r: Ref) {
    r in h && (r in gray || Done(h, m, r, r in ephemeron || r in next))
  }

  /** Every marked object is gray or done, but for tables waiting on a list:
      `next` is the rest of the list being visited, `busy` the object being
      traversed. */
  ghost predicate Marking(h: Heap, m: set<Ref>, gray: seq<Ref>, ephemeron: seq<Ref>, next: seq<Ref>, busy: set<Ref>) {
    && WellFormed(h)
    && (forall r | r in m :: r in h && (r !in busy ==> ObjOk(h, m, gray, ephemeron, next, r)))
    && (forall r | r in gray :: r in m && r in h && !h[r].Str?)
    && (forall r | r in ephemeron || r in next :: r in m && r in h && h[r].Weak?)
  }

  lemma {:induction false} MarkingHeap(h: Heap, m: set<Ref>, gray: seq<Ref>, ephemeron: seq<Ref>, next: seq<Ref>,
      busy: set<Ref>)
    requires Marking(h, m, gray, ephemeron, next, busy)
    ensures WellFormed(h) && forall r | r in m :: r in h
  {
  }

  lemma {:induction false} Finished(h: Heap, m: set<Ref>, gray: seq<Ref>, ephemeron: seq<Ref>, next: seq<Ref>, r: Ref)
    requires Marking(h, m, gray, ephemeron, next, {r}) && r in m && r in h && Done(h, m, r, r in ephemeron || r in next)
    ensures Marking(h, m, gray, ephemeron, next, {})
  {
  }

  lemma {:induction false} WhiteLess(h: Heap, m: set<Ref>, x: Ref)
    requires x in h && x !in m
    ensures |h.Keys - (m + {x})| == |h.Keys - m| - 1
  {
    assert h.Keys - m == (h.Keys - (m + {x})) + {x};
  }

  lemma {:induction false} OneMarked(h: Heap, m: set<Ref>, gray: seq<Ref>, ephemeron: seq<Ref>, next: seq<Ref>,
      busy: set<Ref>, x: Ref)
    requires Marking(h, m, gray, ephemeron, next, busy) && x in h
    ensures Marking(h, m + {x}, if h[x].Str? then gray else [x] + gray, ephemeron, next, busy)
  {
    hide Done;
    var gray' := if h[x].Str? then gray else [x] + gray;
    forall r | r in m + {x} && r !in busy ensures ObjOk(h, m + {x}, gray', ephemeron, next, r) {
      if r == x {
        if h[x].Str? { StringDone(h, m + {x}, x); }
      } else {
        assert ObjOk(h, m, gray, ephemeron, next, r);
        if r !in gray { DoneLater(h, m, m + {x}, r, r in ephemeron || r in next, r in ephemeron || r in next); }
      }
    }
  }

  /** A traversed table may be put on the list it belongs on. */
  lemma {:induction false} Linked(h: Heap, m: set<Ref>, gray: seq<Ref>, ephemeron: seq<Ref>, next: seq<Ref>, r: Ref,
      prop: bool)
    requires Marking(h, m, gray, ephemeron, next, {r}) && r in m && r in h && h[r].Weak? && Done(h, m, r, prop)
    ensures Marking(h, m, gray, if prop then [r] + ephemeron else ephemeron, next, {})
  {
    hide Done;
    var ephemeron' := if prop then [r] + ephemeron else ephemeron;
    forall q | q in m ensures ObjOk(h, m, gray, ephemeron', next, q) {
      if q == r {
        DoneLater(h, m, m, q, prop, q in ephemeron' || q in next);
      } else {
        assert ObjOk(h, m, gray, ephemeron, next, q);
      }
    }
  }

  class Marker {
    const heap: Heap
    var marked: set<Ref>
    var gray: seq<Ref>
    var ephemeron: seq<Ref>
    var allweak: seq<Ref>
    var grayagain: seq<Ref>

    constructor (heap: Heap, marked: set<Ref>, gray: seq<Ref>, ephemeron: seq<Ref>)
      ensures this.heap == heap && this.marked == marked && this.gray == gray && this.ephemeron == ephemeron
    {
      this.heap, this.marked, this.gray, this.ephemeron, allweak, grayagain := heap, marked, gray, ephemeron, [], [];
    }

    ghost predicate Inv(next: seq<Ref>, busy: set<Ref>)
      reads `marked, `gray, `ephemeron
    {
      Marking(heap, marked, gray, ephemeron, next, busy)
    }

    /** How much there is left to mark and to traverse. */
    ghost function Work(): nat
      reads `marked, `gray
    {
      |heap.Keys - marked| + |gray|
    }

    /** markvalue: a white object turns gray, a string black at once. */
    method Mark(s: Slot, ghost next: seq<Ref>, ghost busy: set<Ref>)
      requires Inv(next, busy) && InHeap(heap, s)
      modifies `marked, `gray
      ensures Inv(next, busy) && Work() <= old(Work())
      ensures marked == old(marked) + (if s.To? then {s.r} else {})
      ensures !s.To? || s.r in old(marked) || heap[s.r].Str? ==> gray == old(gray)
    {
      hide Marking;
      if !s.To? {
        assert marked == marked + {};
        return;
      }
      if s.r in marked {
        assert marked == marked + {s.r};
        return;
      }
      WhiteLess(heap, marked, s.r);
      OneMarked(heap, marked, gray, ephemeron, next, busy, s.r);
      marked := marked + {s.r};
      if !heap[s.r].Str? { gray := [s.r] + gray; }
    }

    /** The references of an object that is not a table with weak keys. */
    method TraverseOther(r: Ref, ghost next: seq<Ref>)
      requires Inv(next, {r}) && r in marked && r in heap && !heap[r].Weak?
      modifies `marked, `gray
      ensures Inv(next, {}) && old(marked) <= marked && NoMore(heap, old(marked), marked) && Work() <= old(Work())
    {
      hide NoMore, Marking, Marker.Work, WellFormed;
      NoMoreSelf(heap, marked);
      if heap[r].Str? {
        Finished(heap, marked, gray, ephemeron, next, r);
        return;
      }
      var refs := heap[r].refs;
      for i := 0 to |refs|
        invariant Inv(next, {r}) && old(marked) <= marked && NoMore(heap, old(marked), marked) && Work() <= old(Work())
        invariant forall j | 0 <= j < i :: Kept(refs[j], marked)
      {
        ghost var m := marked;
        MarkingHeap(heap, marked, gray, ephemeron, next, {r});
        RefsIn(heap, r);
        if refs[i].To? { RefForced(heap, m, r, i); } else { NoMoreSelf(heap, m); }
        Mark(refs[i], next, {r});
        assert m + {} == m;
        NoMoreTwice(heap, old(marked), m, marked);
      }
      Finished(heap, marked, gray, ephemeron, next, r);
    }

    /** iscleared, for a key: strings are marked and stay. */
    method IsCleared(r: Ref, i: nat, ghost next: seq<Ref>) returns (cleared: bool)
      requires Inv(next, {r}) && r in marked && r in heap && heap[r].Weak? && i < |heap[r].entries|
          && heap[r].entries[i].Entry?
      modifies `marked, `gray
      ensures Inv(next, {r}) && old(marked) <= marked && NoMore(heap, old(marked), marked) && Work() <= old(Work())
      ensures gray == old(gray) && NotStrings(heap, marked) == NotStrings(heap, old(marked))
      ensures StringKept(heap, heap[r].entries[i].key, marked) && (cleared
          <==> !Alive(heap, heap[r].entries[i].key, marked))
    {
      hide NoMore, Marking, Marker.Work, WellFormed;
      var key := heap[r].entries[i].key;
      NoMoreSelf(heap, marked);
      MarkingHeap(heap, marked, gray, ephemeron, next, {r});
      EntryIn(heap, r, i);
      if !key.To? { return false; }
      if heap[key.r].Str? {
        EntryForced(heap, marked, r, i);
        Mark(key, next, {r});
        return false;
      }
      return key.r !in marked;
    }

    /** One entry: a live key keeps its value; with a key that is not marked the
        value has to wait. */
    method VisitEntry(r: Ref, i: nat, ghost next: seq<Ref>) returns (one: bool, cleared: bool, wait: bool)
      requires Inv(next, {r}) && r in marked && r in heap && heap[r].Weak? && i < |heap[r].entries|
      modifies `marked, `gray
      ensures Inv(next, {r}) && old(marked) <= marked && NoMore(heap, old(marked), marked) && Work() <= old(Work())
      ensures !one ==> gray == old(gray) && NotStrings(heap, marked) == NotStrings(heap, old(marked))
      ensures one ==> heap.Keys - marked < old(heap.Keys - marked)
      ensures var e := heap[r].entries[i];
        e.Entry? ==>
          && StringKept(heap, e.key, marked) && (wait || Kept(e.val, marked))
          && (!one ==> Alive(heap, e.key, marked) ==> Kept(e.val, marked))
    {
      hide NoMore, Marking, Marker.Work, WellFormed;
      var e := heap[r].entries[i];
      one, cleared, wait := false, false, false;
      NoMoreSelf(heap, marked);
      if e.Empty? { return; }
      cleared := IsCleared(r, i, next);
      MarkingHeap(heap, marked, gray, ephemeron, next, {r});
      EntryIn(heap, r, i);
      if cleared {
        wait := e.val.To? && e.val.r !in marked;
      } else if e.val.To? && e.val.r !in marked {
        ghost var m := marked;
        one := true;
        EntryForced(heap, m, r, i);
        Mark(e.val, next, {r});
        NoMoreTwice(heap, old(marked), m, marked);
        assert e.val.r in heap.Keys - m && e.val.r !in heap.Keys - marked;
      }
    }

    /** traverseephemeron: whether a value has been marked. */
    method TraverseEphemeron(r: Ref, ghost next: seq<Ref>) returns (one: bool)
      requires Inv(next, {r}) && r in marked && r in heap && heap[r].Weak?
      modifies `marked, `gray, `ephemeron, `allweak, `grayagain
      ensures Inv(next, {}) && old(marked) <= marked && NoMore(heap, old(marked), marked) && Work() <= old(Work())
      ensures !one ==> gray == old(gray) && NotStrings(heap, marked) == NotStrings(heap, old(marked)) && Quiet(heap,
          heap[r], marked)
      ensures one ==> heap.Keys - marked < old(heap.Keys - marked)
      ensures ephemeron == old(ephemeron) || ephemeron == [r] + old(ephemeron)
    {
      hide NoMore, Marking, Marker.Work, WellFormed, Quiet, Fronts, Done;
      NoMoreSelf(heap, marked);
      one := TraverseArray(r, next);
      var hasclears, prop := false, false;
      var n := |heap[r].entries|;
      for i := 0 to n
        invariant Inv(next, {r}) && old(marked) <= marked && NoMore(heap, old(marked), marked) && Work() <= old(Work())
        invariant ephemeron == old(ephemeron) && allweak == old(allweak) && grayagain == old(grayagain)
        invariant !one ==> gray == old(gray) && NotStrings(heap, marked) == NotStrings(heap, old(marked))
        invariant one ==> heap.Keys - marked < old(heap.Keys - marked)
        invariant forall j | 0 <= j < |heap[r].strong| :: Kept(heap[r].strong[j], marked)
        invariant forall j | 0 <= j < i :: Visited(heap, heap[r].entries[j], marked, one, prop)
      {
        ghost var m := marked;
        var o, c, w := VisitEntry(r, i, next);
        NoMoreTwice(heap, old(marked), m, marked);
        MarkingHeap(heap, marked, gray, ephemeron, next, {r});
        forall j | 0 <= j < i ensures Visited(heap, heap[r].entries[j], marked, one || o, prop || w) {
          EntryIn(heap, r, j);
          VisitedLater(heap, heap[r].entries[j], m, marked, one, prop, o, w);
        }
        one, hasclears, prop := one || o, hasclears || c, prop || w;
      }
      TableDone(heap, marked, r, one, prop);
      Linked(heap, marked, gray, ephemeron, next, r, prop);
      if prop { ephemeron := [r] + ephemeron; } else if hasclears { allweak := [r] + allweak; }
          else { grayagain := [r] + grayagain; }
    }

    /** The array part, whose keys are numbers. */
    method TraverseArray(r: Ref, ghost next: seq<Ref>) returns (one: bool)
      requires Inv(next, {r}) && r in marked && r in heap && heap[r].Weak?
      modifies `marked, `gray
      ensures Inv(next, {r}) && old(marked) <= marked && NoMore(heap, old(marked), marked) && Work() <= old(Work())
      ensures !one ==> gray == old(gray) && marked == old(marked)
      ensures one ==> heap.Keys - marked < old(heap.Keys - marked)
      ensures forall j | 0 <= j < |heap[r].strong| :: Kept(heap[r].strong[j], marked)
    {
      hide NoMore, Marking, Marker.Work, WellFormed;
      NoMoreSelf(heap, marked);
      one := false;
      var a := heap[r].strong;
      for i := 0 to |a|
        invariant Inv(next, {r}) && old(marked) <= marked && NoMore(heap, old(marked), marked) && Work() <= old(Work())
        invariant !one ==> gray == old(gray) && marked == old(marked)
        invariant one ==> heap.Keys - marked < old(heap.Keys - marked)
        invariant forall j | 0 <= j < i :: Kept(a[j], marked)
      {
        MarkingHeap(heap, marked, gray, ephemeron, next, {r});
        RefsIn(heap, r);
        if a[i].To? && a[i].r !in marked {
          ghost var m := marked;
          ArrayForced(heap, m, r, i);
          one := true;
          Mark(a[i], next, {r});
          NoMoreTwice(heap, old(marked), m, marked);
          assert a[i].r in heap.Keys - m && a[i].r !in heap.Keys - marked;
        }
      }
    }

    /** propagatemark: one gray object turns black. */
    method PropagateMark(ghost next: seq<Ref>)
      requires Inv(next, {}) && gray != []
      modifies `marked, `gray, `ephemeron, `allweak, `grayagain
      ensures Inv(next, {}) && old(marked) <= marked && NoMore(heap, old(marked), marked) && Work() < old(Work())
    {
      hide Marking, NoMore;
      Popped(heap, marked, gray, ephemeron, next);
      var r := gray[0];
      gray := gray[1..];
      if heap[r].Weak? {
        var one := TraverseEphemeron(r, next);
      } else {
        TraverseOther(r, next);
      }
    }

    method PropagateAll(ghost next: seq<Ref>)
      requires Inv(next, {})
      modifies `marked, `gray, `ephemeron, `allweak, `grayagain
      ensures Inv(next, {}) && old(marked) <= marked && NoMore(heap, old(marked), marked) && gray == []
    {
      hide Marking, NoMore, Marker.Work;
      NoMoreSelf(heap, marked);
      while gray != []
        invariant Inv(next, {}) && old(marked) <= marked && NoMore(heap, old(marked), marked)
        decreases Work()
      {
        ghost var m := marked;
        PropagateMark(next);
        NoMoreTwice(heap, old(marked), m, marked);
      }
    }

    /** convergeephemerons: the marks end as the least closed set around what was
        marked before, whatever the order of tables and entries. */
    method ConvergeEphemerons()
      requires Inv([], {}) && gray == []
      modifies `marked, `gray, `ephemeron, `allweak, `grayagain
      ensures Inv([], {}) && gray == [] && old(marked) <= marked
      ensures Closed(heap, marked) && NoMore(heap, old(marked), marked)
    {
      hide Marking, NoMore, Closed, Quiet, Marker.Work;
      NoMoreSelf(heap, marked);
      var changed := true;
      while changed
        invariant Inv([], {}) && gray == [] && old(marked) <= marked && NoMore(heap, old(marked), marked)
        invariant !changed ==> Closed(heap, marked)
        decreases |heap.Keys - marked|, changed
      {
        ghost var start := marked;
        Handed(heap, marked, gray, ephemeron);
        var next := ephemeron;
        ephemeron := [];
        changed := false;
        while next != []
          invariant Inv(next, {}) && gray == [] && old(marked) <= marked && NoMore(heap, old(marked), marked)
              && start <= marked
          invariant !changed ==> NotStrings(heap, marked) == NotStrings(heap, start)
          invariant !changed ==> forall r | r in ephemeron :: r in heap && heap[r].Weak? && Quiet(heap, heap[r], marked)
          invariant changed ==> heap.Keys - marked < heap.Keys - start
          decreases |next|
        {
          ghost var m, waiting := marked, ephemeron;
          Visiting(heap, marked, gray, ephemeron, next);
          var w := next[0];
          next := next[1..];
          var one := TraverseEphemeron(w, next);
          NoMoreTwice(heap, old(marked), m, marked);
          MarkingHeap(heap, marked, gray, ephemeron, next, {});
          if one {
            ghost var m1 := marked;
            PropagateAll(next);
            NoMoreTwice(heap, old(marked), m1, marked);
            changed := true;
          } else if !changed {
            forall r | r in waiting ensures Quiet(heap, heap[r], marked) { QuietSame(heap, heap[r], m, marked); }
          }
        }
        SubsetSize(heap.Keys - marked, heap.Keys - start);
        if !changed { NowClosed(heap, marked, ephemeron); }
      }
    }
  }

  /** What a visit of an entry leaves. */
  ghost predicate Visited(h: Heap, e: Entry, m: set<Ref>, one: bool, wait: bool) {
    e.Entry? ==> StringKept(h, e.key, m) && (wait || Kept(e.val, m)) && (!one && Alive(h, e.key, m) ==> Kept(e.val, m))
  }

  lemma {:induction false} VisitedLater(h: Heap, e: Entry, m: set<Ref>, m': set<Ref>, one: bool, wait: bool, o: bool,
      w: bool)
    requires Visited(h, e, m, one, wait) && m <= m' && (e.Entry? ==> InHeap(h, e.key) && InHeap(h, e.val))
    requires !o ==> NotStrings(h, m') == NotStrings(h, m)
    ensures Visited(h, e, m', one || o, wait || w)
  {
    if e.Entry? && !o && !one && Alive(h, e.key, m') && e.key.To? && !h[e.key.r].Str? {
      assert e.key.r in NotStrings(h, m');
    }
  }

  lemma {:induction false} TableDone(h: Heap, m: set<Ref>, r: Ref, one: bool, prop: bool)
    requires r in h && h[r].Weak? && forall j | 0 <= j < |h[r].strong| :: Kept(h[r].strong[j], m)
    requires forall j | 0 <= j < |h[r].entries| :: Visited(h, h[r].entries[j], m, one, prop)
    ensures Done(h, m, r, prop) && (!one ==> Quiet(h, h[r], m))
  {
  }

  lemma {:induction false} StringDone(h: Heap, m: set<Ref>, r: Ref)
    requires r in h && h[r].Str?
    ensures forall b :: Done(h, m, r, b)
  {
  }

  lemma {:induction false} NoMoreSelf(h: Heap, m: set<Ref>)
    ensures NoMore(h, m, m)
  {
  }

  lemma {:induction false} RefsIn(h: Heap, r: Ref)
    requires WellFormed(h) && r in h
    ensures h[r].Other? ==> forall i | 0 <= i < |h[r].refs| :: InHeap(h, h[r].refs[i])
    ensures h[r].Weak? ==> forall i | 0 <= i < |h[r].strong| :: InHeap(h, h[r].strong[i])
  {
    assert ObjIn(h, h[r]);
  }

  lemma {:induction false} EntryIn(h: Heap, r: Ref, i: nat)
    requires WellFormed(h) && r in h && h[r].Weak? && i < |h[r].entries|
    ensures h[r].entries[i].Entry? ==> InHeap(h, h[r].entries[i].key) && InHeap(h, h[r].entries[i].val)
  {
    assert ObjIn(h, h[r]);
  }

  lemma {:induction false} Popped(h: Heap, m: set<Ref>, gray: seq<Ref>, ephemeron: seq<Ref>, next: seq<Ref>)
    requires Marking(h, m, gray, ephemeron, next, {}) && gray != []
    ensures gray[0] in m && gray[0] in h && Marking(h, m, gray[1..], ephemeron, next, {gray[0]})
  {
    hide Done;
    forall r | r in m && r != gray[0]
      ensures ObjOk(h, m, gray[1..], ephemeron, next, r) { assert ObjOk(h, m, gray, ephemeron, next, r); }
  }

  lemma {:induction false} Handed(h: Heap, m: set<Ref>, gray: seq<Ref>, ephemeron: seq<Ref>)
    requires Marking(h, m, gray, ephemeron, [], {})
    ensures Marking(h, m, gray, [], ephemeron, {})
  {
    hide Done;
    forall r | r in m ensures ObjOk(h, m, gray, [], ephemeron, r) { assert ObjOk(h, m, gray, ephemeron, [], r); }
  }

  lemma {:induction false} Visiting(h: Heap, m: set<Ref>, gray: seq<Ref>, ephemeron: seq<Ref>, next: seq<Ref>)
    requires Marking(h, m, gray, ephemeron, next, {}) && next != []
    ensures next[0] in m && next[0] in h && h[next[0]].Weak? && Marking(h, m, gray, ephemeron, next[1..], {next[0]})
  {
    hide Done;
    forall r | r in m && r != next[0]
      ensures ObjOk(h, m, gray, ephemeron, next[1..], r) { assert ObjOk(h, m, gray, ephemeron, next, r); }
  }

  /** Marking strings makes no key live that was not. */
  lemma {:induction false} QuietSame(h: Heap, o: Obj, m: set<Ref>, m': set<Ref>)
    requires o.Weak? && Quiet(h, o, m) && m <= m' && NotStrings(h, m') == NotStrings(h, m) && forall r | r in m' ::
        r in h
    ensures Quiet(h, o, m')
  {
    forall i | 0 <= i < |o.entries| && o.entries[i].Entry? && Alive(h, o.entries[i].key, m')
      ensures Kept(o.entries[i].val, m')
    {
      var k := o.entries[i].key;
      if k.To? && k.r in m' && !h[k.r].Str? { assert k.r in NotStrings(h, m'); }
      assert Alive(h, k, m);
    }
  }

  lemma {:induction false} NowClosed(h: Heap, m: set<Ref>, ephemeron: seq<Ref>)
    requires Marking(h, m, [], ephemeron, [], {})
    requires forall r | r in ephemeron :: r in h && h[r].Weak? && Quiet(h, h[r], m)
    ensures Closed(h, m)
  {
    forall r | r in m && r in h ensures ClosedAt(h, m, r) { assert ObjOk(h, m, [], ephemeron, [], r); }
  }

  /** Two orders of tables and entries end with the same marks. */
  lemma {:induction false} SameMarks(h: Heap, m: set<Ref>, a: set<Ref>, b: set<Ref>)
    requires m <= a && Closed(h, a) && NoMore(h, m, a)
    requires m <= b && Closed(h, b) && NoMore(h, m, b)
    ensures a == b
  {
    assert a <= b && b <= a;
  }
}
