/** The array heap of Go's container/heap, which the pool's nonce heap and
    price heap are built on: sift up, sift down, push, pop, remove and init
    over an order given by `less`. */
module BinaryHeap {

  /** `less` is the strict part of a total preorder. */
  ghost predicate Ordering<T(!new)>(less: (T, T) -> bool) {
    && (forall x, y :: less(x, y) ==> !less(y, x))
    && (forall x, y, z :: !less(y, x) && !less(z, y) ==> !less(z, x))
  }

  function Parent(j: nat): (p: nat)
    requires 0 < j
    ensures p < j
  {
    (j - 1) / 2
  }

  ghost predicate IsHeap<T(!new)>(h: seq<T>, less: (T, T) -> bool) {
    forall j :: 0 < j < |h| ==> !less(h[j], h[Parent(j)])
  }

  /** The root of a heap is a minimum of its elements. */
  lemma {:induction false} RootIsLeast<T(!new)>(h: seq<T>, less: (T, T) -> bool, k: nat)
    requires Ordering(less) && IsHeap(h, less) && k < |h|
    ensures !less(h[k], h[0])
    decreases k
  {
    if k > 0 {
      RootIsLeast(h, less, Parent(k));
    }
  }

  function Swap<T>(h: seq<T>, i: nat, j: nat): (r: seq<T>)
    requires i < |h| && j < |h|
    ensures |r| == |h|
  {
    h[i := h[j]][j := h[i]]
  }

  lemma SwapKeepsElements<T>(h: seq<T>, i: nat, j: nat)
    requires i < |h| && j < |h|
    ensures multiset(Swap(h, i, j)) == multiset(h)
  {
    var g := h[i := h[j]];
    assert multiset(g) == multiset(h) - multiset{h[i]} + multiset{h[j]};
    assert multiset(g[j := h[i]]) == multiset(g) - multiset{g[j]} + multiset{h[i]};
  }

  /** Only the link between `j` and its parent may be out of order. */
  ghost predicate HeapAbove<T(!new)>(h: seq<T>, less: (T, T) -> bool, j: nat) {
    && (forall k :: 0 < k < |h| && k != j ==> !less(h[k], h[Parent(k)]))
    && (forall k :: 0 < k < |h| && Parent(k) == j && 0 < j ==> !less(h[k], h[Parent(j)]))
  }

  /** Among the links whose parent is at or after `lo`, only those below `i` and
      the one above `start` may be out of order. */
  ghost predicate HeapBelow<T(!new)>(h: seq<T>, less: (T, T) -> bool, lo: nat, start: nat, i: nat) {
    && (forall k :: 0 < k < |h| && Parent(k) >= lo && Parent(k) != i && k != start ==> !less(h[k], h[Parent(k)]))
    && (forall k :: 0 < k < |h| && Parent(k) == i && start < i && Parent(i) >= lo ==> !less(h[k], h[Parent(i)]))
  }

  /** Swapping with the parent pushes the disorder one level up. */
  lemma UpStep<T(!new)>(h: seq<T>, less: (T, T) -> bool, j: nat)
    requires Ordering(less) && 0 < j < |h| && HeapAbove(h, less, j) && less(h[j], h[Parent(j)])
    ensures HeapAbove(Swap(h, Parent(j), j), less, Parent(j))
  {
  }

  lemma UpEnds<T(!new)>(h: seq<T>, less: (T, T) -> bool, j: nat)
    requires j < |h| && HeapAbove(h, less, j) && (j == 0 || !less(h[j], h[Parent(j)]))
    ensures IsHeap(h, less)
  {
  }

  method Up<T(!new)>(h0: seq<T>, less: (T, T) -> bool, j0: nat) returns (h: seq<T>)
    requires Ordering(less) && j0 < |h0| && HeapAbove(h0, less, j0)
    ensures IsHeap(h, less) && multiset(h) == multiset(h0) && |h| == |h0|
  {
    hide Ordering, HeapAbove, IsHeap;
    h := h0;
    var j: nat := j0;
    while j > 0 && less(h[j], h[Parent(j)])
      invariant |h| == |h0| && j < |h|
      invariant HeapAbove(h, less, j)
      invariant multiset(h) == multiset(h0)
    {
      UpStep(h, less, j);
      SwapKeepsElements(h, Parent(j), j);
      h := Swap(h, Parent(j), j);
      j := Parent(j);
    }
    UpEnds(h, less, j);
  }

  /** Swapping with the lesser child pushes the disorder one level down. */
  lemma DownStep<T(!new)>(h: seq<T>, less: (T, T) -> bool, lo: nat, start: nat, i: nat, j: nat)
    requires Ordering(less) && lo <= start <= i && HeapBelow(h, less, lo, start, i)
    requires 0 < j < |h| && Parent(j) == i && less(h[j], h[i])
    requires forall k :: 0 < k < |h| && Parent(k) == i ==> !less(h[k], h[j])
    ensures HeapBelow(Swap(h, i, j), less, lo, start, j)
  {
  }

  method LesserChild<T(!new)>(h: seq<T>, less: (T, T) -> bool, i: nat) returns (j: nat)
    requires Ordering(less) && 2 * i + 1 < |h|
    ensures 0 < j < |h| && Parent(j) == i
    ensures forall k :: 0 < k < |h| && Parent(k) == i ==> !less(h[k], h[j])
  {
    j := 2 * i + 1;
    if j + 1 < |h| && less(h[j + 1], h[j]) {
      j := j + 1;
    }
  }

  /** Nothing is out of order any more once the element is no greater than its children. */
  lemma DownEnds<T(!new)>(h: seq<T>, less: (T, T) -> bool, lo: nat, start: nat, i: nat)
    requires HeapBelow(h, less, lo, start, i)
    requires forall k :: 0 < k < |h| && Parent(k) == i ==> !less(h[k], h[i])
    ensures forall k :: 0 < k < |h| && Parent(k) >= lo && k != start ==> !less(h[k], h[Parent(k)])
  {
  }

  lemma NoLessThan<T(!new)>(h: seq<T>, less: (T, T) -> bool, i: nat, j: nat)
    requires Ordering(less) && i < |h| && j < |h| && !less(h[j], h[i])
    requires forall k :: 0 < k < |h| && Parent(k) == i ==> !less(h[k], h[j])
    ensures forall k :: 0 < k < |h| && Parent(k) == i ==> !less(h[k], h[i])
  {
  }

  /** A child of `i` has taken its place. */
  ghost predicate Raised<T(!new)>(h0: seq<T>, h: seq<T>, i: nat) {
    exists c :: 0 < c < |h0| && Parent(c) == i && i < |h| && h[i] == h0[c]
  }

  /** Sifts the element at `i0` down; if it moved, a former child took its place. */
  method Down<T(!new)>(h0: seq<T>, less: (T, T) -> bool, i0: nat, ghost lo: nat) returns (h: seq<T>, moved: bool)
    requires Ordering(less) && lo <= i0 && HeapBelow(h0, less, lo, i0, i0)
    ensures |h| == |h0| && multiset(h) == multiset(h0)
    ensures forall k :: 0 < k < |h| && Parent(k) >= lo && k != i0 ==> !less(h[k], h[Parent(k)])
    ensures forall k :: 0 <= k < i0 && k < |h| ==> h[k] == h0[k]
    ensures !moved ==> h == h0
    ensures moved ==> Raised(h0, h, i0)
  {
    hide Ordering, HeapBelow, Raised;
    h := h0;
    var i := i0;
    while 2 * i + 1 < |h|
      invariant |h| == |h0| && i0 <= i
      invariant HeapBelow(h, less, lo, i0, i)
      invariant multiset(h) == multiset(h0)
      invariant i == i0 ==> h == h0
      invariant i0 < i ==> Raised(h0, h, i0)
      invariant forall k :: 0 <= k < i0 && k < |h| ==> h[k] == h0[k]
      decreases |h| - i
    {
      var j := LesserChild(h, less, i);
      if !less(h[j], h[i]) {
        NoLessThan(h, less, i, j);
        break;
      }
      SwapKeepsElements(h, i, j);
      DownStep(h, less, lo, i0, i, j);
      RaisedStep(h0, h, i0, i, j);
      h := Swap(h, i, j);
      i := j;
    }
    DownEnds(h, less, lo, i0, i);
    moved := i > i0;
  }

  lemma RaisedStep<T(!new)>(h0: seq<T>, h: seq<T>, i0: nat, i: nat, j: nat)
    requires |h| == |h0| && i0 <= i && 0 < j < |h| && Parent(j) == i
    requires if i == i0 then h == h0 else Raised(h0, h, i0)
    ensures Raised(h0, Swap(h, i, j), i0)
  {
  }

  method Push<T(!new)>(h0: seq<T>, less: (T, T) -> bool, x: T) returns (h: seq<T>)
    requires Ordering(less) && IsHeap(h0, less)
    ensures IsHeap(h, less) && multiset(h) == multiset(h0) + multiset{x} && |h| == |h0| + 1
  {
    h := Up(h0 + [x], less, |h0|);
  }

  /** Removes a least element. */
  method Pop<T(!new)>(h0: seq<T>, less: (T, T) -> bool) returns (x: T, h: seq<T>)
    requires Ordering(less) && IsHeap(h0, less) && h0 != []
    ensures IsHeap(h, less) && multiset(h) == multiset(h0) - multiset{x} && |h| == |h0| - 1
    ensures x == h0[0] && forall k :: 0 <= k < |h0| ==> !less(h0[k], x)
  {
    var n := |h0| - 1;
    x := h0[0];
    SwapKeepsElements(h0, 0, n);
    var g := Swap(h0, 0, n);
    assert g == g[..n] + [x];
    assert multiset(g[..n]) == multiset(h0) - multiset{x};
    var moved;
    h, moved := Down(g[..n], less, 0, 0);
    forall k | 0 <= k < |h0| ensures !less(h0[k], x) {
      RootIsLeast(h0, less, k);
    }
  }

  /** A heap whose element at `i` was replaced by the last one. */
  ghost predicate Replaced<T(!new)>(h0: seq<T>, g: seq<T>, i: nat) {
    |g| == |h0| - 1 && i < |g| && forall k :: 0 <= k < |g| && k != i ==> g[k] == h0[k]
  }

  lemma ReplacedIsBelow<T(!new)>(h0: seq<T>, g: seq<T>, less: (T, T) -> bool, i: nat)
    requires IsHeap(h0, less) && Replaced(h0, g, i)
    ensures HeapBelow(g, less, 0, i, i)
  {
  }

  /** If the replacement moved down, the heap is in order. */
  lemma MovedDown<T(!new)>(h0: seq<T>, g: seq<T>, h: seq<T>, less: (T, T) -> bool, i: nat)
    requires Ordering(less) && IsHeap(h0, less) && Replaced(h0, g, i) && |h| == |g| && Raised(g, h, i)
    requires forall k :: 0 < k < |h| && k != i ==> !less(h[k], h[Parent(k)])
    requires forall k :: 0 <= k < i ==> h[k] == g[k]
    ensures IsHeap(h, less)
  {
    var c :| 0 < c < |g| && Parent(c) == i && h[i] == g[c];
    if i > 0 {
      assert !less(h0[c], h0[Parent(c)]) && !less(h0[i], h0[Parent(i)]);
    }
  }

  /** If it did not, only the link above it may be out of order. */
  lemma NotMovedDown<T(!new)>(h0: seq<T>, g: seq<T>, less: (T, T) -> bool, i: nat)
    requires Ordering(less) && IsHeap(h0, less) && Replaced(h0, g, i)
    requires forall k :: 0 < k < |g| && k != i ==> !less(g[k], g[Parent(k)])
    ensures HeapAbove(g, less, i)
  {
    forall k | 0 < k < |g| && Parent(k) == i && 0 < i ensures !less(g[k], g[Parent(i)]) {
      assert !less(h0[k], h0[Parent(k)]) && !less(h0[i], h0[Parent(i)]);
    }
  }

  lemma LastOut<T(!new)>(h0: seq<T>, less: (T, T) -> bool, i: nat)
    requires IsHeap(h0, less) && i < |h0|
    ensures var n := |h0| - 1;
      var g := Swap(h0, i, n)[..n];
      && multiset(g) == multiset(h0) - multiset{h0[i]}
      && if i == n then IsHeap(g, less) else Replaced(h0, g, i)
  {
    OneOut(h0, i);
  }

  lemma OneOut<T>(h0: seq<T>, i: nat)
    requires i < |h0|
    ensures multiset(Swap(h0, i, |h0| - 1)[..|h0| - 1]) == multiset(h0) - multiset{h0[i]}
  {
    var n := |h0| - 1;
    SwapKeepsElements(h0, i, n);
    var g := Swap(h0, i, n);
    assert g == g[..n] + [h0[i]];
  }

  /** Removes the element at a given position. */
  method RemoveAt<T(!new)>(h0: seq<T>, less: (T, T) -> bool, i: nat) returns (h: seq<T>)
    requires Ordering(less) && IsHeap(h0, less) && i < |h0|
    ensures IsHeap(h, less) && multiset(h) == multiset(h0) - multiset{h0[i]} && |h| == |h0| - 1
  {
    hide Ordering, HeapAbove, HeapBelow, Raised, Replaced, IsHeap, Swap;
    var n := |h0| - 1;
    LastOut(h0, less, i);
    h := Swap(h0, i, n)[..n];
    if n != i {
      ghost var g := h;
      ReplacedIsBelow(h0, g, less, i);
      var moved;
      h, moved := Down(h, less, i, 0);
      if moved {
        MovedDown(h0, g, h, less, i);
      } else {
        NotMovedDown(h0, g, less, i);
        h := Up(h, less, i);
      }
    }
  }

  /** Establishes the heap order on an arbitrary slice. */
  method Init<T(!new)>(h0: seq<T>, less: (T, T) -> bool) returns (h: seq<T>)
    requires Ordering(less)
    ensures IsHeap(h, less) && multiset(h) == multiset(h0) && |h| == |h0|
  {
    h := h0;
    var i := |h| / 2;
    while i > 0
      invariant i <= |h| / 2 && |h| == |h0| && multiset(h) == multiset(h0)
      invariant forall k :: 0 < k < |h| && Parent(k) >= i ==> !less(h[k], h[Parent(k)])
    {
      i := i - 1;
      var moved;
      h, moved := Down(h, less, i, i);
    }
  }
}
