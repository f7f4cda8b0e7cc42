/** The array heap of min_queue.c. The root is at index 0 but children and parents use
    the 1-based macros, so the root has index 1 as its only child and an ordinary
    binary heap hangs below it. */
module MinQueue {
  import opened Basics

  const SLOTS_PER_MALLOC := 20

  // ----- the order -----

  /** `gt(a, b)` tells whether a comes after b; equal keys are incomparable. */
  ghost predicate StrictWeakOrder<T(!new)>(gt: (T, T) -> bool) {
    && (forall a :: !gt(a, a))
    && (forall a, b, c :: gt(a, b) && gt(b, c) ==> gt(a, c))
    && (forall a, b, c :: gt(a, c) ==> gt(a, b) || gt(b, c))
  }

  /** No element of `m` comes before `x`. */
  ghost predicate Minimal<T(!new)>(gt: (T, T) -> bool, x: T, m: multiset<T>) {
    forall y :: y in m ==> !gt(x, y)
  }

  /** `out` is sorted, and nothing in it comes after what is left. */
  ghost predicate DrainedBefore<T(!new)>(gt: (T, T) -> bool, out: seq<T>, left: multiset<T>) {
    && (forall i, j :: 0 <= i < j < |out| ==> !gt(out[i], out[j]))
    && (forall i, y :: 0 <= i < |out| && y in left ==> !gt(out[i], y))
  }

  /** Taking a minimal element off what is left, and putting it at the end. */
  lemma DrainStep<T(!new)>(gt: (T, T) -> bool, out: seq<T>, left: multiset<T>, x: T)
    requires DrainedBefore(gt, out, left) && x in left && Minimal(gt, x, left)
    ensures DrainedBefore(gt, out + [x], left - multiset{x})
    ensures multiset(out + [x]) + (left - multiset{x}) == multiset(out) + left
  {}

  // ----- the shape -----

  function Left(i: nat): nat { 2 * i }

  function Parent(i: nat): nat { i / 2 }

  /** No element but the one at `except` comes before its parent. */
  ghost predicate OrderedExcept<T(!new)>(gt: (T, T) -> bool, s: seq<T>, except: int) {
    forall j :: 1 <= j < |s| && j != except ==> !gt(s[Parent(j)], s[j])
  }

  ghost predicate Heap<T(!new)>(gt: (T, T) -> bool, s: seq<T>) {
    OrderedExcept(gt, s, -1)
  }

  /** The root of a heap is minimal: every index reaches 0 by halving. */
  lemma {:induction false} RootBelow<T(!new)>(gt: (T, T) -> bool, s: seq<T>, j: nat)
    requires StrictWeakOrder(gt) && Heap(gt, s) && j < |s|
    ensures !gt(s[0], s[j])
  {
    if j != 0 {
      RootBelow(gt, s, Parent(j));
      assert !gt(s[Parent(j)], s[j]);
    }
  }

  lemma RootMinimal<T(!new)>(gt: (T, T) -> bool, s: seq<T>)
    requires StrictWeakOrder(gt) && Heap(gt, s) && s != []
    ensures Minimal(gt, s[0], multiset(s))
  {
    forall y | y in multiset(s) ensures !gt(s[0], y) {
      var j :| 0 <= j < |s| && s[j] == y;
      RootBelow(gt, s, j);
    }
  }

  lemma UpdateMultiset<T>(s: seq<T>, i: nat, x: T)
    requires i < |s|
    ensures multiset(s[i := x]) == multiset(s) - multiset{s[i]} + multiset{x}
  {}

  function Swapped<T>(s: seq<T>, i: nat, j: nat): seq<T>
    requires i < |s| && j < |s|
  {
    s[i := s[j]][j := s[i]]
  }

  /** Exchanging two elements keeps the contents. */
  lemma SwapMultiset<T>(s: seq<T>, i: nat, j: nat)
    requires i < |s| && j < |s|
    ensures multiset(Swapped(s, i, j)) == multiset(s)
  {
    UpdateMultiset(s, i, s[j]);
    UpdateMultiset(s[i := s[j]], j, s[i]);
  }

  // ----- heapify-up -----

  /** `s` is a heap except that the element at `i` may come before its ancestors. */
  ghost predicate UpHole<T(!new)>(gt: (T, T) -> bool, s: seq<T>, i: nat) {
    && i < |s|
    && OrderedExcept(gt, s, i)
    && (forall j :: 1 <= j < |s| && Parent(j) == i && 1 <= i && j != i ==> !gt(s[Parent(i)], s[j]))
  }

  lemma UpStep<T(!new)>(gt: (T, T) -> bool, s: seq<T>, i: nat)
    requires StrictWeakOrder(gt) && UpHole(gt, s, i) && 1 <= i && gt(s[Parent(i)], s[i])
    ensures UpHole(gt, Swapped(s, i, Parent(i)), Parent(i))
  {
    var p := Parent(i);
    var t := Swapped(s, i, p);
    forall j | 1 <= j < |t| && j != p ensures !gt(t[Parent(j)], t[j]) {
      if j == i {
      } else if Parent(j) == i {
        assert !gt(s[p], s[j]);
      } else if Parent(j) == p {
        assert !gt(s[p], s[j]);
      } else {
        assert !gt(s[Parent(j)], s[j]);
      }
    }
    if 1 <= p {
      forall j | 1 <= j < |t| && Parent(j) == p && j != p ensures !gt(t[Parent(p)], t[j]) {
        assert !gt(s[Parent(p)], s[p]);
        if j != i {
          assert !gt(s[p], s[j]);
        }
      }
    }
  }

  lemma UpDone<T(!new)>(gt: (T, T) -> bool, s: seq<T>, i: nat)
    requires UpHole(gt, s, i) && (i == 0 || !gt(s[Parent(i)], s[i]))
    ensures Heap(gt, s)
  {}

  // ----- heapify-down -----

  /** `s` is a heap except that the element at `i` may come after its descendants. */
  ghost predicate DownHole<T(!new)>(gt: (T, T) -> bool, s: seq<T>, i: nat) {
    && i < |s|
    && (forall j :: 1 <= j < |s| && Parent(j) != i ==> !gt(s[Parent(j)], s[j]))
    && (forall j :: 1 <= j < |s| && Parent(j) == i && 1 <= i && j != i ==> !gt(s[Parent(i)], s[j]))
    && (1 <= i ==> !gt(s[Parent(i)], s[i]))
  }

  /** `c` is a child of `i` that comes after no child of `i`. */
  ghost predicate LeastChild<T(!new)>(gt: (T, T) -> bool, s: seq<T>, i: nat, c: nat) {
    && i < c < |s| && Parent(c) == i
    && (forall j :: 1 <= j < |s| && Parent(j) == i && j != i ==> !gt(s[c], s[j]))
  }

  lemma DownStep<T(!new)>(gt: (T, T) -> bool, s: seq<T>, i: nat, c: nat)
    requires StrictWeakOrder(gt) && DownHole(gt, s, i) && LeastChild(gt, s, i, c) && gt(s[i], s[c])
    ensures DownHole(gt, Swapped(s, i, c), c)
  {
    var t := Swapped(s, i, c);
    forall j | 1 <= j < |t| && Parent(j) != c ensures !gt(t[Parent(j)], t[j]) {
      if j == c {
      } else if Parent(j) == i && j != i {
        assert !gt(s[c], s[j]);
      } else if j == i {
        assert !gt(s[Parent(i)], s[c]);
      } else {
        assert !gt(s[Parent(j)], s[j]);
      }
    }
    forall j | 1 <= j < |t| && Parent(j) == c && j != c ensures !gt(t[Parent(c)], t[j]) {
      assert !gt(s[Parent(j)], s[j]);
    }
  }

  lemma DownDone<T(!new)>(gt: (T, T) -> bool, s: seq<T>, i: nat)
    requires DownHole(gt, s, i)
    requires forall j :: 1 <= j < |s| && Parent(j) == i && j != i ==> !gt(s[i], s[j])
    ensures Heap(gt, s)
  {}

  // ----- the queue -----

  class Queue<T(0, !new)> {
    const gt: (T, T) -> bool
    var e: array<T>
    var size: nat

    /** The elements in array order. */
    ghost function Elements(): seq<T>
      requires size <= e.Length
      reads this, e
    {
      e[..size]
    }

    ghost predicate Valid()
      reads this, e
    {
      && size <= e.Length && 0 < e.Length
      && StrictWeakOrder(gt)
      && Heap(gt, Elements())
    }

    /** The abstract value: the multiset of queued elements. */
    ghost function Contents(): multiset<T>
      requires size <= e.Length
      reads this, e
    {
      multiset(Elements())
    }

    constructor (gt: (T, T) -> bool)
      requires StrictWeakOrder(gt)
      ensures Valid() && fresh(e) && this.gt == gt
      ensures Contents() == multiset{} && e.Length == 20
    {
      this.gt := gt;
      e := new T[SLOTS_PER_MALLOC];
      size := 0;
    }

    predicate Empty()
      reads this
    {
      size == 0
    }

    /** Peek returns an element that no queued element comes before. */
    method Peek() returns (r: Option<T>)
      requires Valid()
      ensures r == None <==> Contents() == multiset{}
      ensures r.Some? ==> size > 0 && r.value == e[0] && r.value in Contents() && Minimal(gt, r.value, Contents())
    {
      if Empty() {
        return None;
      }
      assert Elements()[0] == e[0];
      RootMinimal(gt, Elements());
      return Some(e[0]);
    }

    /** When all slots are used, move to an array with twenty more. */
    method Grow()
      requires Valid()
      modifies this
      ensures Valid() && size < e.Length && size == old(size) && Elements() == old(Elements())
      ensures e == old(e) || fresh(e)
      ensures e.Length == if old(size) == old(e.Length) then old(e.Length) + 20 else old(e.Length)
    {
      if size == e.Length {
        var tmp := new T[size + SLOTS_PER_MALLOC];
        forall k | 0 <= k < size {
          tmp[k] := e[k];
        }
        assert tmp[..size] == e[..size];
        e := tmp;
      }
    }

    /** Push adds one occurrence of `v`: parents move down into the hole until `v` fits. */
    method Push(v: T)
      requires Valid()
      modifies this, e
      ensures Valid() && (e == old(e) || fresh(e))
      ensures Contents() == old(Contents()) + multiset{v}
    {
      Grow();
      ghost var was := Elements();
      var i := size;
      size := size + 1;
      SiftUp(i, v, was + [v]);
    }

    /** The loop of `minq_push`; `s` is the array with `v` put in the hole at `i`. */
    method SiftUp(hole: nat, v: T, ghost start: seq<T>)
      requires StrictWeakOrder(gt) && size <= e.Length && |start| == size
      requires UpHole(gt, start, hole) && start[hole] == v
      requires Holed(start, hole)
      modifies e
      ensures Heap(gt, Elements()) && Contents() == multiset(start)
    {
      var i := hole;
      var parent := Parent(i);
      ghost var s := start;
      while i != 0 && gt(e[parent], v)
        invariant 0 <= i < size == |s| && parent == Parent(i) && Holed(s, i)
        invariant s[i] == v && UpHole(gt, s, i) && multiset(s) == multiset(start)
      {
        MoveParent(i, s);
        s := Swapped(s, i, parent);
        i := parent;
        parent := Parent(i);
      }
      UpDone(gt, s, i);
      e[i] := v;
      assert Elements() == s;
    }

    /** One turn of the loop: the parent moves down into the hole. */
    method MoveParent(i: nat, ghost s: seq<T>)
      requires StrictWeakOrder(gt) && Holed(s, i) && UpHole(gt, s, i) && 1 <= i && gt(s[Parent(i)], s[i])
      modifies e
      ensures var t := Swapped(s, i, Parent(i));
              Holed(t, Parent(i)) && UpHole(gt, t, Parent(i)) && multiset(t) == multiset(s)
    {
      UpStep(gt, s, i);
      SwapMultiset(s, i, Parent(i));
      e[i] := e[Parent(i)];
    }

    /** The array holds `s` but for the hole at `i`. */
    ghost predicate Holed(s: seq<T>, i: nat)
      reads this, e
    {
      && i < size == |s| && size <= e.Length
      && forall k :: 0 <= k < size && k != i ==> e[k] == s[k]
    }

    /** The least child of `i`, or 0 when `i` has no child that needs looking at: `has_child(0)`
        compares the root with its only child and answers 1 or 0. */
    method HasChild(i: nat) returns (c: nat)
      requires size <= e.Length && i < size && StrictWeakOrder(gt)
      ensures c != 0 ==> LeastChild(gt, Elements(), i, c)
      ensures c == 0 ==> NoGreaterThanChildren(Elements(), i)
      ensures c == 0 <==> if i == 0 then size == 1 || !gt(e[0], e[1]) else size <= 2 * i
    {
      var left := Left(i);
      if left >= size {
        return 0;
      }
      var right := left + 1;
      if right < size && gt(e[left], e[right]) {
        return right;
      }
      return left;
    }

    /** Pop removes exactly the element that Peek shows. */
    method Pop()
      requires Valid()
      modifies this, e
      ensures Valid() && e == old(e)
      ensures old(size) == 0 ==> Contents() == old(Contents())
      ensures old(size) > 0 ==> size == old(size) - 1 && Contents() == old(Contents()) - multiset{old(e[0])}
    {
      if Empty() {
        return;
      }
      ghost var was := Elements();
      size := size - 1;
      e[0] := e[size];
      ghost var s := Elements();
      RemoveRoot(was, s);
      if size > 0 {
        SiftDown();
      }
    }

    /** The loop of `minq_pop`, from the root. */
    method SiftDown()
      requires StrictWeakOrder(gt) && 0 < size <= e.Length && DownHole(gt, Elements(), 0)
      modifies e
      ensures Heap(gt, Elements()) && Contents() == old(Contents())
    {
      var current := 0;
      var child := HasChild(current);
      while child != 0 && gt(e[current], e[child])
        invariant 0 <= current < size && DownHole(gt, Elements(), current)
        invariant Contents() == old(Contents())
        invariant child != 0 ==> LeastChild(gt, Elements(), current, child)
        invariant child == 0 ==> NoGreaterThanChildren(Elements(), current)
        decreases size - current
      {
        Exchange(current, child);
        current := child;
        child := HasChild(current);
      }
      if child != 0 {
        LeastChildSettles(Elements(), current, child);
      }
      DownDone(gt, Elements(), current);
    }

    /** Swaps an element with its least child, which comes before it. */
    method Exchange(i: nat, c: nat)
      requires StrictWeakOrder(gt) && size <= e.Length && DownHole(gt, Elements(), i)
      requires LeastChild(gt, Elements(), i, c) && gt(e[i], e[c])
      modifies e
      ensures DownHole(gt, Elements(), c) && Contents() == old(Contents())
    {
      ghost var t := Elements();
      DownStep(gt, t, i, c);
      SwapMultiset(t, i, c);
      var tmp := e[i];
      e[i] := e[c];
      e[c] := tmp;
      assert Elements() == Swapped(t, i, c);
    }

    /** Taking what Peek shows until the queue is empty sorts its contents. */
    method Drain() returns (out: seq<T>)
      requires Valid()
      modifies this, e
      ensures Valid() && Contents() == multiset{}
      ensures multiset(out) == old(Contents())
      ensures forall i, j :: 0 <= i < j < |out| ==> !gt(out[i], out[j])
    {
      out := [];
      var r := Peek();
      while r != None
        invariant Valid() && e == old(e) && multiset(out) + Contents() == old(Contents())
        invariant DrainedBefore(gt, out, Contents())
        invariant r == None <==> Contents() == multiset{}
        invariant r.Some? ==> size > 0 && r.value == e[0] && r.value in Contents() && Minimal(gt, r.value, Contents())
        decreases size
      {
        DrainStep(gt, out, Contents(), r.value);
        Pop();
        out := out + [r.value];
        r := Peek();
      }
    }

    /** The element at `i` comes after none of its children. */
    ghost predicate NoGreaterThanChildren(s: seq<T>, i: nat) {
      i < |s| && forall j :: 1 <= j < |s| && Parent(j) == i && j != i ==> !gt(s[i], s[j])
    }

    lemma LeastChildSettles(s: seq<T>, i: nat, c: nat)
      requires StrictWeakOrder(gt) && LeastChild(gt, s, i, c) && !gt(s[i], s[c])
      ensures NoGreaterThanChildren(s, i)
    {
      forall j | 1 <= j < |s| && Parent(j) == i && j != i ensures !gt(s[i], s[j]) {
        assert !gt(s[c], s[j]);
      }
    }

    /** Moving the last element over the root drops the old root. */
    lemma RemoveRoot(was: seq<T>, s: seq<T>)
      requires StrictWeakOrder(gt) && Heap(gt, was) && was != []
      requires |s| == |was| - 1 && (s != [] ==> s == was[..|s|][0 := was[|s|]])
      ensures multiset(s) == multiset(was) - multiset{was[0]}
      ensures s != [] ==> DownHole(gt, s, 0)
    {
      var n := |s|;
      assert was == was[..n] + [was[n]];
      if s != [] {
        UpdateMultiset(was[..n], 0, was[n]);
      }
    }
  }
}
