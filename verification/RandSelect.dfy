/** Weighted random selection: an 8-ary tree of partial sums that behaves like a
    flat table of weighted items. */
module RandSelect {
  import opened Options

  const BRANCHES := 8

  /** A place in the flat table. */
  datatype Cell<+Item> = Free | Taken(item: Item, weight: nat)

  function WeightOf<Item>(c: Cell<Item>): nat {
    if c.Taken? then c.weight else 0
  }

  ghost function Sum<Item>(t: seq<Cell<Item>>): nat {
    if t == [] then 0 else WeightOf(t[0]) + Sum(t[1..])
  }

  ghost function Count<Item>(t: seq<Cell<Item>>): nat {
    if t == [] then 0 else (if t[0].Taken? then 1 else 0) + Count(t[1..])
  }

  ghost function Join<Item>(parts: seq<seq<Cell<Item>>>): seq<Cell<Item>> {
    if parts == [] then [] else parts[0] + Join(parts[1..])
  }

  ghost function Frees<Item>(n: nat): seq<Cell<Item>> {
    seq(n, _ => Free)
  }

  function Pow8(n: nat): (p: nat)
    ensures p > 0
  {
    if n == 0 then 1 else BRANCHES * Pow8(n - 1)
  }

  lemma {:induction false} SumAppend<Item>(s: seq<Cell<Item>>, t: seq<Cell<Item>>)
    ensures Sum(s + t) == Sum(s) + Sum(t) && Count(s + t) == Count(s) + Count(t)
  {
    if s == [] {
      assert s + t == t;
    } else {
      SumAppend(s[1..], t);
      assert (s + t)[1..] == s[1..] + t;
    }
  }

  lemma {:induction false} SumFrees<Item>(n: nat)
    ensures Sum(Frees<Item>(n)) == 0 && Count(Frees<Item>(n)) == 0
  {
    if n > 0 {
      SumFrees<Item>(n - 1);
      assert Frees<Item>(n)[1..] == Frees<Item>(n - 1);
    }
  }

  lemma {:induction false} CountBound<Item>(t: seq<Cell<Item>>)
    ensures Count(t) <= |t|
    ensures Count(t) == |t| <==> forall i :: 0 <= i < |t| ==> t[i].Taken?
  {
    if t != [] {
      CountBound(t[1..]);
      assert t == [t[0]] + t[1..];
      if forall i :: 0 <= i < |t| ==> t[i].Taken? {
        forall i | 0 <= i < |t| - 1 ensures t[1..][i].Taken? {
          assert t[1..][i] == t[i + 1];
        }
      }
    }
  }

  /** Changing one cell changes sum and count by that cell alone. */
  lemma SumUpdate<Item>(t: seq<Cell<Item>>, i: nat, c: Cell<Item>)
    requires i < |t|
    ensures Sum(t[i := c]) == Sum(t) - WeightOf(t[i]) + WeightOf(c)
    ensures Count(t[i := c]) == Count(t) - (if t[i].Taken? then 1 else 0) + (if c.Taken? then 1 else 0)
  {
    assert t == t[..i] + ([t[i]] + t[i + 1..]);
    assert t[i := c] == t[..i] + ([c] + t[i + 1..]);
    SumAppend(t[..i], [t[i]] + t[i + 1..]);
    SumAppend(t[..i], [c] + t[i + 1..]);
    SumAppend([t[i]], t[i + 1..]);
    SumAppend([c], t[i + 1..]);
  }

  ghost predicate Even<Item>(parts: seq<seq<Cell<Item>>>, size: nat) {
    forall i :: 0 <= i < |parts| ==> |parts[i]| == size
  }

  /** The place k of part b in the joined table. */
  ghost function Place(b: nat, size: nat, k: nat): nat { b * size + k }

  lemma {:induction false} JoinLength<Item>(parts: seq<seq<Cell<Item>>>, size: nat)
    requires Even(parts, size)
    ensures |Join(parts)| == |parts| * size
    decreases |parts|
  {
    if parts != [] {
      assert Even(parts[1..], size);
      JoinLength(parts[1..], size);
    }
  }

  /** Splits a joined table around part b. */
  lemma {:induction false} JoinAround<Item>(parts: seq<seq<Cell<Item>>>, size: nat, b: nat)
    requires Even(parts, size) && b < |parts|
    ensures Join(parts) == Join(parts[..b]) + (parts[b] + Join(parts[b + 1..]))
    ensures |Join(parts[..b])| == b * size
    decreases b
  {
    assert Even(parts[..b], size);
    JoinLength(parts[..b], size);
    if b > 0 {
      assert Even(parts[1..], size);
      JoinAround(parts[1..], size, b - 1);
      assert parts[1..][..b - 1] == parts[..b][1..];
      assert parts[1..][b..] == parts[b + 1..];
      var rest := parts[b] + Join(parts[b + 1..]);
      assert Join(parts[..b]) == parts[0] + Join(parts[..b][1..]);
      assert parts[0] + (Join(parts[..b][1..]) + rest) == Join(parts[..b]) + rest;
    } else {
      assert parts[..0] == [];
    }
  }

  lemma JoinUpdate<Item>(parts: seq<seq<Cell<Item>>>, size: nat, b: nat, k: nat, c: Cell<Item>)
    requires Even(parts, size) && b < |parts| && k < size
    ensures Place(b, size, k) < |Join(parts)| && Join(parts)[Place(b, size, k)] == parts[b][k]
    ensures Join(parts[b := parts[b][k := c]]) == Join(parts)[Place(b, size, k) := c]
    ensures Even(parts[b := parts[b][k := c]], size)
  {
    var q := parts[b := parts[b][k := c]];
    JoinAround(parts, size, b);
    JoinAround(q, size, b);
    assert q[..b] == parts[..b] && q[b + 1..] == parts[b + 1..];
  }

  /** Changing one cell of one part. */
  lemma CellChanged<Item>(parts: seq<seq<Cell<Item>>>, size: nat, b: nat, k: nat, c: Cell<Item>)
    requires Even(parts, size) && b < |parts| && k < size
    ensures var q, was := parts[b := parts[b][k := c]], parts[b][k];
      && Place(b, size, k) < |Join(parts)| && Join(q) == Join(parts)[Place(b, size, k) := c] && Even(q, size)
      && Sum(q[b]) == Sum(parts[b]) - WeightOf(was) + WeightOf(c)
      && Sum(Join(q)) == Sum(Join(parts)) - WeightOf(was) + WeightOf(c)
      && Count(Join(q)) == Count(Join(parts)) - (if was.Taken? then 1 else 0) + (if c.Taken? then 1 else 0)
  {
    JoinUpdate(parts, size, b, k, c);
    SumUpdate(Join(parts), Place(b, size, k), c);
    SumUpdate(parts[b], k, c);
  }

  /** The cell that the value v falls on when the weights are laid end to end. */
  ghost function PickIndex<Item>(t: seq<Cell<Item>>, v: nat): (i: nat)
    requires v < Sum(t)
    ensures i < |t| && t[i].Taken?
  {
    if v < WeightOf(t[0]) then 0 else 1 + PickIndex(t[1..], v - WeightOf(t[0]))
  }

  lemma {:induction false} PickFirst<Item>(x: Cell<Item>, rest: seq<Cell<Item>>)
    ensures Sum([x] + rest) == WeightOf(x) + Sum(rest)
    ensures forall v: nat :: v < WeightOf(x) ==> PickIndex([x] + rest, v) == 0
  {
    assert ([x] + rest)[1..] == rest;
  }

  lemma {:induction false} PickLater<Item>(x: Cell<Item>, rest: seq<Cell<Item>>, v: nat)
    requires v < Sum(rest)
    ensures WeightOf(x) + v < Sum([x] + rest) && PickIndex([x] + rest, WeightOf(x) + v) == 1 + PickIndex(rest, v)
  {
    assert ([x] + rest)[1..] == rest;
  }

  lemma {:induction false} PickLeft<Item>(s: seq<Cell<Item>>, t: seq<Cell<Item>>, v: nat)
    requires v < Sum(s)
    ensures v < Sum(s + t) && PickIndex(s + t, v) == PickIndex(s, v)
    decreases |s|
  {
    hide PickIndex, Sum;
    JoinNone<Item>();
    var x, rest := s[0], s[1..];
    assert s == [x] + rest && s + t == [x] + (rest + t);
    PickFirst(x, rest);
    PickFirst(x, rest + t);
    if v >= WeightOf(x) {
      var u := v - WeightOf(x);
      PickLeft(rest, t, u);
      PickLater(x, rest, u);
      PickLater(x, rest + t, u);
    }
  }

  lemma {:induction false} PickRight<Item>(s: seq<Cell<Item>>, t: seq<Cell<Item>>, v: nat)
    requires v < Sum(t)
    ensures Sum(s) + v < Sum(s + t) && PickIndex(s + t, Sum(s) + v) == |s| + PickIndex(t, v)
    decreases |s|
  {
    hide PickIndex, Sum;
    if s == [] {
      JoinNone<Item>();
      assert s + t == t;
    } else {
      var x, rest := s[0], s[1..];
      var u := Sum(rest) + v;
      assert s == [x] + rest && s + t == [x] + (rest + t);
      PickRight(rest, t, v);
      PickFirst(x, rest);
      PickLater(x, rest + t, u);
      assert Sum(s) + v == WeightOf(x) + u;
    }
  }

  lemma PickAppend<Item>(s: seq<Cell<Item>>, t: seq<Cell<Item>>, v: nat)
    requires v < Sum(s) + Sum(t)
    ensures v < Sum(s + t)
    ensures PickIndex(s + t, v) == if v < Sum(s) then PickIndex(s, v) else |s| + PickIndex(t, v - Sum(s))
  {
    hide Sum, PickIndex;
    if v < Sum(s) {
      PickLeft(s, t, v);
    } else {
      PickRight(s, t, v - Sum(s));
    }
  }

  /** The values that pick cell i are the `weight` consecutive ones after the sum of
      the cells before it. */
  lemma PickRange<Item>(t: seq<Cell<Item>>, v: nat, i: nat)
    requires v < Sum(t) && i < |t|
    ensures PickIndex(t, v) == i <==> Sum(t[..i]) <= v < Sum(t[..i]) + WeightOf(t[i])
  {
    assert t == t[..i] + t[i..];
    assert t[i..] == [t[i]] + t[i + 1..];
    SumAppend(t[..i], t[i..]);
    SumAppend([t[i]], t[i + 1..]);
    PickAppend(t[..i], t[i..], v);
    if v >= Sum(t[..i]) {
      PickAppend([t[i]], t[i + 1..], v - Sum(t[..i]));
    }
  }

  /** The values that pick cell i. */
  ghost function Picking<Item>(t: seq<Cell<Item>>, i: nat): set<int> {
    set v | 0 <= v < Sum(t) && PickIndex(t, v) == i
  }

  /** Exactly `weight` of the possible values pick a given cell. */
  lemma PickCount<Item>(t: seq<Cell<Item>>, i: nat)
    requires i < |t|
    ensures |Picking(t, i)| == WeightOf(t[i])
  {
    var s := Picking(t, i);
    var lo := Sum(t[..i]);
    assert t == t[..i] + ([t[i]] + t[i + 1..]);
    SumAppend(t[..i], [t[i]] + t[i + 1..]);
    SumAppend([t[i]], t[i + 1..]);
    forall v ensures v in s <==> lo <= v < lo + WeightOf(t[i]) {
      if 0 <= v < Sum(t) {
        PickRange(t, v, i);
      }
    }
    RangeSize(s, lo, lo + WeightOf(t[i]));
  }

  lemma {:induction false} RangeSize(s: set<int>, lo: int, hi: int)
    requires lo <= hi && forall v :: v in s <==> lo <= v < hi
    ensures |s| == hi - lo
    decreases hi - lo
  {
    if lo < hi {
      RangeSize(s - {hi - 1}, lo, hi - 1);
    } else {
      assert forall v :: v !in s;
    }
  }

  /** Picking from a joined table is picking from the part the value falls on. */
  lemma PickJoin<Item>(parts: seq<seq<Cell<Item>>>, size: nat, b: nat, v: nat)
    requires Even(parts, size) && b < |parts|
    requires Sum(Join(parts[..b])) <= v < Sum(Join(parts[..b])) + Sum(parts[b])
    ensures v < Sum(Join(parts))
    ensures PickIndex(Join(parts), v) == Place(b, size, PickIndex(parts[b], v - Sum(Join(parts[..b]))))
  {
    var before, rest := Join(parts[..b]), Join(parts[b + 1..]);
    JoinAround(parts, size, b);
    SumAppend(before, parts[b] + rest);
    SumAppend(parts[b], rest);
    PickAppend(before, parts[b] + rest, v);
    PickAppend(parts[b], rest, v - Sum(before));
  }

  lemma {:induction false} JoinSnoc<Item>(parts: seq<seq<Cell<Item>>>, b: nat)
    requires b < |parts|
    ensures Join(parts[..b + 1]) == Join(parts[..b]) + parts[b]
    ensures Sum(Join(parts[..b + 1])) == Sum(Join(parts[..b])) + Sum(parts[b])
    ensures Count(Join(parts[..b + 1])) == Count(Join(parts[..b])) + Count(parts[b])
    decreases b
  {
    if b > 0 {
      JoinSnoc(parts[1..], b - 1);
      assert parts[1..][..b] == parts[..b + 1][1..] && parts[1..][..b - 1] == parts[..b][1..];
      assert parts[0] + (Join(parts[..b][1..]) + parts[b]) == Join(parts[..b]) + parts[b];
    } else {
      assert parts[..0] == [] && parts[..1] == [parts[0]];
      assert parts[..1][1..] == [];
    }
    SumAppend(Join(parts[..b]), parts[b]);
  }

  /** The first `b` parts are full. */
  ghost predicate Packed<Item>(parts: seq<seq<Cell<Item>>>, size: nat, b: nat) {
    b <= |parts| && Count(Join(parts[..b])) == b * size == |Join(parts[..b])|
  }

  lemma NonePacked<Item>(parts: seq<seq<Cell<Item>>>, size: nat)
    ensures Packed(parts, size, 0)
  {
    assert parts[..0] == [];
  }

  lemma {:induction false} PackedMore<Item>(parts: seq<seq<Cell<Item>>>, size: nat, b: nat)
    requires Packed(parts, size, b) && b < |parts| && Count(parts[b]) == size == |parts[b]|
    ensures Packed(parts, size, b + 1)
  {
    hide Count, Join;
    JoinSnoc(parts, b);
    assert (b + 1) * size == b * size + size;
  }

  lemma {:induction false} PackedTaken<Item>(parts: seq<seq<Cell<Item>>>, size: nat, b: nat)
    requires Packed(parts, size, b)
    ensures forall j :: 0 <= j < |Join(parts[..b])| ==> Join(parts[..b])[j].Taken?
  {
    hide Count, Join;
    CountBound(Join(parts[..b]));
  }

  datatype Slot<Item> = Empty | Leaf(item: Item) | Child(node: WrsNode<Item>)

  /** A node of the tree: eight items, or eight subtrees, with their weights. */
  class WrsNode<Item> {
    var items: seq<Slot<Item>>
    var weights: seq<int>
    var sumWeight: int
    var itemCnt: int
    const level: nat
    const maxItems: nat
    ghost var parts: seq<seq<Cell<Item>>>
    ghost var Repr: set<WrsNode<Item>>

    ghost function Table(): seq<Cell<Item>>
      reads this
    {
      Join(parts)
    }

    /** Branch i holds what part i of the table says. */
    ghost predicate Branch(i: nat)
      requires i < BRANCHES == |items| == |weights| == |parts|
      reads this, Repr
      decreases level, 0
    {
      && |parts[i]| == Pow8(level)
      && weights[i] == Sum(parts[i])
      && match items[i]
         case Empty => parts[i] == Frees(Pow8(level))
         case Leaf(x) => level == 0 && weights[i] > 0 && parts[i] == [Taken(x, weights[i])]
         case Child(n) =>
           && level > 0 && n.level == level - 1 && n in Repr && n.Repr <= Repr && this !in n.Repr
           && n.Valid() && parts[i] == n.Table() && n.maxItems == Pow8(level)
    }

    /** The branches are in order and share no node. */
    ghost predicate Shaped()
      reads this, Repr
      ensures Shaped() ==> this in Repr && |items| == |weights| == |parts| == BRANCHES
      decreases level, 1
    {
      && this in Repr
      && |items| == |weights| == |parts| == BRANCHES
      && maxItems == BRANCHES * Pow8(level)
      && (forall i :: 0 <= i < BRANCHES ==> Branch(i))
      && (forall i :: 0 <= i < BRANCHES && items[i].Child? ==>
           items[i].node in Repr && items[i].node.Repr <= Repr && this !in items[i].node.Repr)
      && (forall i, j :: 0 <= i < j < BRANCHES && items[i].Child? && items[j].Child? ==>
           items[i].node.Repr !! items[j].node.Repr)
    }

    ghost predicate Valid()
      reads this, Repr
      ensures Valid() ==> this in Repr && |items| == |weights| == |parts| == BRANCHES
      decreases level, 2
    {
      Shaped() && sumWeight == Sum(Table()) && itemCnt == Count(Table())
    }

    constructor (level: nat)
      ensures Valid() && fresh(Repr) && this.level == level && Table() == Frees(BRANCHES * Pow8(level))
      ensures sumWeight == 0 && itemCnt == 0
    {
      this.level, maxItems := level, BRANCHES * Pow8(level);
      items, weights := seq(BRANCHES, _ => Empty), seq(BRANCHES, _ => 0);
      sumWeight, itemCnt := 0, 0;
      parts := FreeParts(BRANCHES, Pow8(level));
      Repr := {this};
      new;
      SumFrees<Item>(Pow8(level));
      SumFrees<Item>(BRANCHES * Pow8(level));
      JoinFrees<Item>(BRANCHES, Pow8(level));
      assert Table() == Frees<Item>(BRANCHES * Pow8(level));
    }

    /** A new level on top of a tree: the tree becomes its first branch, so every
        place keeps its index. */
    constructor Over(root: WrsNode<Item>)
      requires root.Valid()
      ensures Valid() && Repr == {this} + root.Repr && fresh(this)
      ensures Table() == root.Table() + Frees((BRANCHES - 1) * root.maxItems)
      ensures itemCnt == root.itemCnt && maxItems == BRANCHES * root.maxItems
    {
      level, maxItems := root.level + 1, root.maxItems * BRANCHES;
      items := [Child(root)] + seq(BRANCHES - 1, _ => Empty);
      weights := [root.sumWeight] + seq(BRANCHES - 1, _ => 0);
      sumWeight, itemCnt := root.sumWeight, root.itemCnt;
      parts := [root.Table()] + FreeParts(BRANCHES - 1, root.maxItems);
      Repr := {this} + root.Repr;
      new;
      root.TableSize();
      SumFrees<Item>(root.maxItems);
      SumFrees<Item>((BRANCHES - 1) * root.maxItems);
      JoinFrees<Item>(BRANCHES - 1, root.maxItems);
      assert parts[1..] == FreeParts(BRANCHES - 1, root.maxItems);
      SumAppend(root.Table(), Frees((BRANCHES - 1) * root.maxItems));
      assert Branch(0);
    }

    lemma TableSize()
      requires Valid()
      ensures |Table()| == maxItems == BRANCHES * Pow8(level) && Even(parts, Pow8(level))
    {
      AllBranches();
      JoinLength(parts, Pow8(level));
    }

    lemma Room()
      requires Valid()
      ensures 0 <= itemCnt <= maxItems && maxItems > 0
    {
      TableSize();
      CountBound(Table());
    }

    /** Sets the weight of a taken place; zero frees it. The result is the change of
        the weight. */
    method SetWeight(idx: nat, weight: nat) returns (diff: int)
      requires Valid() && idx < |Table()| && Table()[idx].Taken?
      modifies Repr
      ensures Valid() && Repr == old(Repr) && diff == weight - old(Table())[idx].weight
      ensures Table() == old(Table())[idx := Reweighted(old(Table())[idx].item, weight)]
      decreases level, 1
    {
      hide Sum, Count, Join, Place, Pow8, Even, WrsNode.Valid, WrsNode.Shaped;
      TableSize();
      if level == 0 {
        LowestLevel();
        PlaceOf(parts, 1, idx);
        diff := SetLeaf(idx, weight);
      } else {
        var branch, subIdx := Locate(idx);
        diff := SetBelow(branch, subIdx, weight);
      }
    }

    /** The branch that an index falls into and the index there. */
    method Locate(idx: nat) returns (branch: nat, subIdx: nat)
      requires Valid() && idx < |Table()|
      ensures branch < BRANCHES && subIdx < |parts[branch]| && parts[branch][subIdx] == Table()[idx]
      ensures Place(branch, Pow8(level), subIdx) == idx
    {
      hide Sum, Count, Join, Place, Pow8, WrsNode.Valid, WrsNode.Shaped;
      TableSize();
      var branchItems := maxItems / BRANCHES;
      branch := idx / branchItems;
      PlaceOf(parts, branchItems, idx);
      subIdx := idx - branch * branchItems;
    }

    method SetLeaf(idx: nat, weight: nat) returns (diff: int)
      requires Valid() && level == 0 && idx < BRANCHES && |parts[idx]| == 1 && parts[idx][0].Taken?
      modifies this
      ensures Valid() && Repr == old(Repr) && diff == weight - old(parts)[idx][0].weight
        && Place(idx, 1, 0) < |old(Table())|
      ensures Table() == old(Table())[Place(idx, 1, 0) := Reweighted(old(parts)[idx][0].item, weight)]
    {
      hide Sum, Count, Join;
      forall i | 0 <= i < BRANCHES ensures !items[i].Child? {
        assert Branch(i);
      }
      assert Branch(idx);
      SumFrees<Item>(1);
      ghost var cell := Reweighted(parts[idx][0].item, weight);
      CellChanged(parts, 1, idx, 0, cell) by { AllBranches(); }
      SumOne(parts[idx]);
      var oldWeight := weights[idx];
      weights := weights[idx := weight];
      diff := weight - oldWeight;
      sumWeight := sumWeight + diff;
      if weight == 0 {
        items := items[idx := Empty];
        itemCnt := itemCnt - 1;
      }
      parts := parts[idx := parts[idx][0 := cell]];
      assert Branch(idx);
      Reshaped(idx);
    }

    method SetBelow(branch: nat, subIdx: nat, weight: nat) returns (diff: int)
      requires Valid() && level > 0 && branch < BRANCHES && subIdx < |parts[branch]| && parts[branch][subIdx].Taken?
      modifies Repr
      ensures Valid() && Repr == old(Repr) && diff == weight - old(parts)[branch][subIdx].weight
      ensures Place(branch, Pow8(level), subIdx) < |old(Table())|
      ensures Table() == old(Table())[Place(branch, Pow8(level), subIdx) :=
        Reweighted(old(parts)[branch][subIdx].item, weight)]
      decreases level, 0
    {
      hide Sum, Count, Join, Pow8;
      TakenBelow(branch, subIdx);
      ghost var was, cell := parts, Reweighted(parts[branch][subIdx].item, weight);
      CellChanged(parts, Pow8(level), branch, subIdx, cell) by { AllBranches(); }
      assert Branch(branch);
      var subNode := items[branch].node;
      diff := subNode.SetWeight(subIdx, weight);
      weights := weights[branch := weights[branch] + diff];
      sumWeight := sumWeight + diff;
      if weight == 0 {
        itemCnt := itemCnt - 1;
      }
      parts := parts[branch := subNode.Table()];
      assert parts == was[branch := was[branch][subIdx := cell]];
      assert Branch(branch);
      Reshaped(branch);
    }

    lemma TakenBelow(i: nat, k: nat)
      requires Valid() && level > 0 && i < BRANCHES && k < |parts[i]| && parts[i][k].Taken?
      ensures items[i].Child?
    {
      assert Branch(i);
    }

    /** The item that a value falls on, with its stored weight. */
    method Choose(val: nat) returns (item: Item, weight: nat)
      requires Valid() && val < sumWeight
      ensures Table()[PickIndex(Table(), val)] == Taken(item, weight)
      decreases level
    {
      hide Join, Sum, Count, PickIndex, Pow8;
      var i, rest: nat := 0, val;
      assert parts[..0] == [] && parts[..BRANCHES] == parts;
      JoinNone<Item>();
      while i < BRANCHES && rest >= weights[i]
        invariant i <= BRANCHES && val == rest + Sum(Join(parts[..i]))
      {
        assert Branch(i);
        JoinSnoc(parts, i);
        rest := rest - weights[i];
        i := i + 1;
      }
      assert i < BRANCHES && Branch(i);
      BranchFacts(i);
      PickJoin(parts, Pow8(level), i, val) by { AllBranches(); }
      PickedAt(parts, Pow8(level), i, rest) by { AllBranches(); }
      if level == 0 {
        SumOne(parts[i]);
        item, weight := items[i].item, weights[i];
      } else {
        item, weight := items[i].node.Choose(rest);
      }
    }

    /** Inserts an item at the first free place of a node that is not full. */
    method Insert(item: Item, weight: int) returns (idx: nat)
      requires Valid() && itemCnt < maxItems && weight > 0
      modifies Repr
      ensures Valid() && fresh(Repr - old(Repr))
      ensures idx < |old(Table())| && old(Table())[idx] == Free && forall j :: 0 <= j < idx ==> old(Table())[j].Taken?
      ensures Table() == old(Table())[idx := Taken(item, weight)]
      decreases level, 1
    {
      var branch := FirstOpen();
      BranchFacts(branch);
      assert Even(parts, Pow8(level)) by { AllBranches(); }
      if level == 0 {
        idx := branch;
        InsertedTable(parts, 1, branch, 0, Taken(item, weight));
        InsertLeaf(branch, item, weight);
      } else {
        ghost var was := parts;
        var subIdx := InsertBelow(branch, item, weight);
        InsertedTable(was, Pow8(level), branch, subIdx, Taken(item, weight));
        idx := Pow8(level) * branch + subIdx;
        assert idx == Place(branch, Pow8(level), subIdx);
      }
    }

    /** The node stays in shape when one branch has changed and is in order again. */
    twostate lemma Reshaped(branch: nat)
      requires old(Shaped()) && old(Repr) <= Repr && branch < BRANCHES
      requires |items| == |weights| == |parts| == BRANCHES
      requires forall i :: 0 <= i < BRANCHES && i != branch ==>
        items[i] == old(items)[i] && weights[i] == old(weights)[i] && parts[i] == old(parts)[i]
      requires forall i :: 0 <= i < BRANCHES && i != branch && items[i].Child? ==>
        (forall n :: n in old(items[i].node.Repr) ==> unchanged(n))
      requires Branch(branch)
      requires forall i :: 0 <= i < BRANCHES && i != branch && items[i].Child? && items[branch].Child? ==>
        items[branch].node.Repr !! old(items[i].node.Repr)
      ensures Shaped()
    {
      forall i | 0 <= i < BRANCHES
        ensures Branch(i)
        ensures items[i].Child? ==> items[i].node in Repr && items[i].node.Repr <= Repr && this !in items[i].node.Repr
        ensures i != branch && items[i].Child? ==> items[i].node.Repr == old(items[i].node.Repr)
      {
        if i != branch {
          assert old(Branch(i));
        }
      }
    }

    method InsertLeaf(branch: nat, item: Item, weight: int)
      requires Valid() && level == 0 && weight > 0 && branch < BRANCHES && items[branch].Empty?
      modifies this
      ensures Valid() && Repr == old(Repr) && old(parts)[branch] == [Free]
      ensures parts == old(parts)[branch := [Free][0 := Taken(item, weight)]]
    {
      hide Sum, Count, Join;
      forall i | 0 <= i < BRANCHES ensures !items[i].Child? {
        assert Branch(i);
      }
      assert Branch(branch) && Frees<Item>(1) == [Free];
      SumFrees<Item>(1);
      CellChanged(parts, 1, branch, 0, Taken(item, weight)) by { AllBranches(); }
      itemCnt := itemCnt + 1;
      sumWeight := sumWeight + weight;
      weights := weights[branch := weights[branch] + weight];
      items := items[branch := Leaf(item)];
      parts := parts[branch := parts[branch][0 := Taken(item, weight)]];
      Reshaped(branch);
    }

    /** The child at a branch, which is created if there is none. */
    method OpenChild(branch: nat) returns (subNode: WrsNode<Item>)
      requires Valid() && level > 0 && branch < BRANCHES
      requires items[branch].Empty?
        || (items[branch].Child? && items[branch].node.itemCnt < items[branch].node.maxItems)
      modifies this
      ensures Valid() && fresh(Repr - old(Repr)) && items[branch] == Child(subNode)
      ensures parts == old(parts) && itemCnt == old(itemCnt) && sumWeight == old(sumWeight)
      ensures subNode in Repr && subNode.Repr <= Repr && this !in subNode.Repr && subNode.level == level - 1
      ensures subNode.Valid() && subNode.Table() == parts[branch] && subNode.itemCnt < subNode.maxItems == Pow8(level)
    {
      hide Sum, Count, Join;
      BranchFacts(branch);
      if items[branch].Empty? {
        assert Branch(branch);
        subNode := new WrsNode<Item>(level - 1);
        items := items[branch := Child(subNode)];
        Repr := Repr + subNode.Repr;
        assert Branch(branch);
        Reshaped(branch);
      } else {
        subNode := items[branch].node;
      }
    }

    method InsertBelow(branch: nat, item: Item, weight: int) returns (subIdx: nat)
      requires Valid() && level > 0 && weight > 0 && branch < BRANCHES
      requires items[branch].Empty?
        || (items[branch].Child? && items[branch].node.itemCnt < items[branch].node.maxItems)
      modifies Repr
      ensures Valid() && fresh(Repr - old(Repr)) && |old(parts)| == BRANCHES
      ensures subIdx < |old(parts)[branch]| && old(parts)[branch][subIdx] == Free
      ensures forall j :: 0 <= j < subIdx ==> old(parts)[branch][j].Taken?
      ensures parts == old(parts)[branch := old(parts)[branch][subIdx := Taken(item, weight)]]
      decreases level, 0
    {
      hide Sum, Count, Join, Pow8;
      assert Even(parts, Pow8(level)) by { AllBranches(); }
      var subNode := OpenChild(branch);
      label ready:
      assert Branch(branch);
      ghost var was := parts;
      itemCnt := itemCnt + 1;
      sumWeight := sumWeight + weight;
      weights := weights[branch := weights[branch] + weight];
      subIdx := subNode.Insert(item, weight);
      parts := parts[branch := subNode.Table()];
      Repr := Repr + subNode.Repr;
      CellChanged(was, Pow8(level), branch, subIdx, Taken(item, weight));
      assert Branch(branch);
      Reshaped@ready(branch);
    }

    lemma AllBranches()
      requires Valid()
      ensures Even(parts, Pow8(level))
    {
      forall i | 0 <= i < BRANCHES ensures |parts[i]| == Pow8(level) {
        assert Branch(i);
      }
    }

    /** The first branch with room; there is one as long as the node is not full. */
    method FirstOpen() returns (branch: nat)
      requires Valid() && itemCnt < maxItems
      ensures branch < BRANCHES && Count(parts[branch]) < Pow8(level)
      ensures items[branch].Empty?
        || (level > 0 && items[branch].Child? && items[branch].node.itemCnt < items[branch].node.maxItems)
      ensures forall j :: 0 <= j < |Join(parts[..branch])| ==> Join(parts[..branch])[j].Taken?
    {
      hide Valid, Sum, Count, Join, Pow8, Packed;
      branch := 0;
      NonePacked(parts, Pow8(level));
      BranchFacts(branch);
      while items[branch] != Empty && (level == 0 || items[branch].node.itemCnt == items[branch].node.maxItems)
        invariant branch < BRANCHES && (items[branch].Leaf? <==> items[branch] != Empty && level == 0)
        invariant Packed(parts, Pow8(level), branch)
        decreases BRANCHES - branch
      {
        BranchFacts(branch);
        PackedMore(parts, Pow8(level), branch);
        NotAllPacked(branch + 1);
        branch := branch + 1;
        BranchFacts(branch);
      }
      BranchFacts(branch);
      PackedTaken(parts, Pow8(level), branch);
    }

    lemma NotAllPacked(branch: nat)
      requires Valid() && itemCnt < maxItems && branch <= BRANCHES && Packed(parts, Pow8(level), branch)
      ensures branch < BRANCHES
    {
      hide Sum, Count, Join, Pow8;
      assert parts[..BRANCHES] == parts;
    }

    /** What a branch says about its part of the table. */
    lemma BranchFacts(i: nat)
      requires Valid() && i < BRANCHES
      ensures |parts[i]| == Pow8(level) && Count(parts[i]) <= Pow8(level)
      ensures items[i].Empty? ==> Count(parts[i]) == 0
      ensures items[i].Leaf? ==> level == 0 && Count(parts[i]) == Pow8(level)
      ensures items[i].Child? ==>
        && level > 0 && items[i].node in Repr && items[i].node.Repr <= Repr && this !in items[i].node.Repr
        && items[i].node.Valid() && items[i].node.level == level - 1 && items[i].node.Table() == parts[i]
        && items[i].node.itemCnt == Count(parts[i]) && items[i].node.maxItems == Pow8(level)
    {
      assert Branch(i);
      CountBound(parts[i]);
      match items[i]
      case Empty => SumFrees<Item>(Pow8(level));
      case Leaf(x) => assert parts[i] == [Taken(x, weights[i])] && parts[i][1..] == [];
      case Child(n) => assert n.Valid() && n.itemCnt == Count(n.Table());
    }
  }

  ghost function Reweighted<Item>(item: Item, weight: nat): Cell<Item> {
    if weight == 0 then Free else Taken(item, weight)
  }

  /** Every index of a joined table is a place of one part. */
  lemma PlaceOf<Item>(parts: seq<seq<Cell<Item>>>, size: nat, idx: nat)
    requires Even(parts, size) && size > 0 && idx < |Join(parts)|
    ensures var b, k := idx / size, idx - idx / size * size;
      b < |parts| && 0 <= k < size && Place(b, size, k) == idx && parts[b][k] == Join(parts)[idx]
  {
    hide Join;
    JoinLength(parts, size);
    Quotient(idx, size, |parts|);
    PartAt(parts, size, idx / size, idx - idx / size * size);
  }

  lemma LowestLevel()
    ensures Pow8(0) == 1 && forall k: nat :: k - k / 1 * 1 == 0 && k / 1 == k
  {
  }

  lemma Quotient(idx: nat, size: nat, n: nat)
    requires size > 0 && idx < n * size
    ensures idx / size < n && 0 <= idx - idx / size * size < size
  {
    if idx / size >= n {
      Product(idx / size, n, size);
    }
  }

  lemma Product(a: nat, b: nat, c: nat)
    requires a >= b
    ensures a * c >= b * c
  {
  }

  lemma PartAt<Item>(parts: seq<seq<Cell<Item>>>, size: nat, b: nat, k: nat)
    requires Even(parts, size) && b < |parts| && k < size
    ensures Place(b, size, k) < |Join(parts)| && Join(parts)[Place(b, size, k)] == parts[b][k]
  {
    JoinAround(parts, size, b);
  }

  lemma JoinNone<Item>()
    ensures Join<Item>([]) == [] && Sum<Item>([]) == 0
  {
  }

  lemma SumOne<Item>(t: seq<Cell<Item>>)
    requires |t| == 1
    ensures Sum(t) == WeightOf(t[0])
    ensures Sum(t) > 0 ==> PickIndex(t, 0) == 0 && forall v :: 0 <= v < Sum(t) ==> PickIndex(t, v) == 0
  {
    assert t[1..] == [];
  }

  lemma PickedAt<Item>(parts: seq<seq<Cell<Item>>>, size: nat, b: nat, v: nat)
    requires Even(parts, size) && b < |parts| && v < Sum(parts[b])
    ensures Place(b, size, PickIndex(parts[b], v)) < |Join(parts)|
    ensures Join(parts)[Place(b, size, PickIndex(parts[b], v))] == parts[b][PickIndex(parts[b], v)]
  {
    JoinUpdate(parts, size, b, PickIndex(parts[b], v), Free);
  }

  /** Inserting at place k of part b, when everything before it is taken. */
  lemma InsertedTable<Item>(parts: seq<seq<Cell<Item>>>, size: nat, b: nat, k: nat, c: Cell<Item>)
    requires Even(parts, size) && b < |parts| && k < size && parts[b][k] == Free
    requires forall j :: 0 <= j < k ==> parts[b][j].Taken?
    requires forall j :: 0 <= j < |Join(parts[..b])| ==> Join(parts[..b])[j].Taken?
    ensures Place(b, size, k) < |Join(parts)| && Join(parts)[Place(b, size, k)] == Free
    ensures forall j :: 0 <= j < Place(b, size, k) ==> Join(parts)[j].Taken?
    ensures Join(parts[b := parts[b][k := c]]) == Join(parts)[Place(b, size, k) := c]
  {
    JoinAround(parts, size, b);
    JoinUpdate(parts, size, b, k, c);
  }

  ghost function FreeParts<Item>(n: nat, size: nat): seq<seq<Cell<Item>>> {
    seq(n, _ => Frees(size))
  }

  lemma {:induction false} JoinFrees<Item>(n: nat, size: nat)
    ensures Join(FreeParts<Item>(n, size)) == Frees<Item>(n * size)
  {
    if n > 0 {
      JoinFrees<Item>(n - 1, size);
      assert FreeParts<Item>(n, size)[1..] == FreeParts<Item>(n - 1, size);
      assert n * size == size + (n - 1) * size;
      assert Frees<Item>(size) + Frees<Item>((n - 1) * size) == Frees<Item>(n * size);
    } else {
      assert Frees<Item>(0 * size) == [];
    }
  }

  /** The index finds every item of the table, and nothing else. */
  ghost predicate Indexed<Item>(t: seq<Cell<Item>>, idx: map<Item, nat>) {
    && (forall x :: x in idx ==> idx[x] < |t| && t[idx[x]].Taken? && t[idx[x]].item == x)
    && (forall i :: 0 <= i < |t| && t[i].Taken? ==>
         t[i].weight > 0 && t[i].item in idx && idx[t[i].item] == i)
  }

  /** The plain map that the tree stands for. */
  ghost function WeightsOf<Item>(t: seq<Cell<Item>>, idx: map<Item, nat>): map<Item, nat>
    requires Indexed(t, idx)
  {
    map x | x in idx :: t[idx[x]].weight
  }

  lemma IndexedReweigh<Item>(t: seq<Cell<Item>>, idx: map<Item, nat>, x: Item, w: nat)
    requires Indexed(t, idx) && x in idx
    ensures w > 0 ==> var t' := t[idx[x] := Taken(x, w)];
      Indexed(t', idx) && WeightsOf(t', idx) == WeightsOf(t, idx)[x := w]
    ensures var t' := t[idx[x] := Free];
      Indexed(t', idx - {x}) && WeightsOf(t', idx - {x}) == WeightsOf(t, idx) - {x}
  {
    var t' := t[idx[x] := Free];
    assert Indexed(t', idx - {x});
    assert WeightsOf(t', idx - {x}) == WeightsOf(t, idx) - {x};
  }

  lemma IndexedInsert<Item>(t: seq<Cell<Item>>, idx: map<Item, nat>, i: nat, x: Item, w: nat)
    requires Indexed(t, idx) && x !in idx && i < |t| && t[i] == Free && w > 0
    ensures var t', idx' := t[i := Taken(x, w)], idx[x := i];
      Indexed(t', idx') && WeightsOf(t', idx') == WeightsOf(t, idx)[x := w]
  {
  }

  lemma IndexedGrow<Item>(t: seq<Cell<Item>>, idx: map<Item, nat>, n: nat)
    requires Indexed(t, idx)
    ensures Indexed(t + Frees(n), idx) && WeightsOf(t + Frees(n), idx) == WeightsOf(t, idx)
  {
  }

  ghost function AnyKey<Item>(m: map<Item, nat>): Item
    requires m != map[]
    ensures AnyKey(m) in m
  {
    var x :| x in m;
    x
  }

  ghost function Total<Item>(m: map<Item, nat>): nat {
    if m == map[] then 0 else var x := AnyKey(m); m[x] + Total(m - {x})
  }

  /** The stored sum and count are the total and the size of the map. */
  lemma {:induction false} Totals<Item>(t: seq<Cell<Item>>, idx: map<Item, nat>)
    requires Indexed(t, idx)
    ensures Sum(t) == Total(WeightsOf(t, idx)) && Count(t) == |WeightsOf(t, idx)|
    decreases |idx|
  {
    var m := WeightsOf(t, idx);
    assert m.Keys == idx.Keys;
    if m == map[] {
      assert t == Frees(|t|);
      SumFrees<Item>(|t|);
    } else {
      var x := AnyKey(m);
      IndexedReweigh(t, idx, x, 1);
      SumUpdate(t, idx[x], Free);
      assert |idx - {x}| == |idx| - 1 by { assert (idx - {x}).Keys == idx.Keys - {x}; }
      assert |m - {x}| == |m| - 1 by { assert (m - {x}).Keys == m.Keys - {x}; }
      Totals(t[idx[x] := Free], idx - {x});
    }
  }

  lemma NothingStored<Item>(t: seq<Cell<Item>>, idx: map<Item, nat>)
    requires Indexed(t, idx)
    ensures Sum(t) == 0 <==> WeightsOf(t, idx) == map[]
  {
    Totals(t, idx);
    var m := WeightsOf(t, idx);
    if m != map[] {
      assert m[AnyKey(m)] > 0;
    }
  }

  /** The values for which the tree's choice is item x. */
  ghost function Choosing<Item>(t: seq<Cell<Item>>, x: Item): set<int> {
    set v | 0 <= v < Sum(t) && t[PickIndex(t, v)].item == x
  }

  /** Exactly as many of the possible values choose an item as its weight says. */
  lemma Chances<Item>(t: seq<Cell<Item>>, idx: map<Item, nat>, x: Item)
    requires Indexed(t, idx)
    ensures |Choosing(t, x)| == if x in idx then WeightsOf(t, idx)[x] else 0
  {
    if x in idx {
      assert Choosing(t, x) == Picking(t, idx[x]);
      PickCount(t, idx[x]);
    } else {
      assert Choosing(t, x) == {};
    }
  }

  class WeightedRandomSelect<Item(==)> {
    var root: WrsNode<Item>
    var idx: map<Item, nat>

    ghost predicate Valid()
      reads this, root, root.Repr
    {
      root.Valid() && Indexed(root.Table(), idx)
    }

    ghost function Weights(): map<Item, nat>
      requires Valid()
      reads this, root, root.Repr
    {
      WeightsOf(root.Table(), idx)
    }

    constructor ()
      ensures Valid() && fresh(root.Repr) && Weights() == map[] && root.maxItems == BRANCHES
    {
      root := new WrsNode<Item>(0);
      idx := map[];
    }

    /** The stored sum and count are those of the map, and of the values below the sum
        exactly as many choose an item as its weight says. */
    lemma Fair(x: Item)
      requires Valid()
      ensures root.sumWeight == Total(Weights()) && root.itemCnt == |Weights()|
      ensures |Choosing(root.Table(), x)| == if x in Weights() then Weights()[x] else 0
    {
      Totals(root.Table(), idx);
      Chances(root.Table(), idx, x);
    }

    method Reweigh(item: Item, weight: nat)
      requires Valid() && item in idx
      modifies this, root.Repr
      ensures Valid() && fresh(root.Repr - old(root.Repr)) && item in old(Weights())
      ensures Weights() == if weight == 0 then old(Weights()) - {item} else old(Weights())[item := weight]
      ensures root.sumWeight == old(root.sumWeight) - old(Weights())[item] + weight
      ensures var place := old(idx)[item];
        place < |old(root.Table())| && root.Table() == old(root.Table())[place := Reweighted(item, weight)]
    {
      IndexedReweigh(root.Table(), idx, item, weight);
      SumUpdate(root.Table(), idx[item], Reweighted(item, weight));
      var diff := root.SetWeight(idx[item], weight);
      if weight == 0 {
        idx := idx - {item};
      }
    }

    /** Puts a new level on a full tree, which keeps the stored indices right. */
    method AddLevel()
      requires Valid()
      modifies this
      ensures Valid() && fresh(root.Repr - old(root.Repr)) && Weights() == old(Weights())
      ensures root.itemCnt == old(root.itemCnt) && root.maxItems == BRANCHES * old(root.maxItems)
      ensures idx == old(idx)
    {
      IndexedGrow(root.Table(), idx, (BRANCHES - 1) * root.maxItems);
      root := new WrsNode<Item>.Over(root);
    }

    method Insert(item: Item, weight: nat)
      requires Valid() && item !in idx && weight > 0 && root.itemCnt < root.maxItems
      modifies this, root.Repr
      ensures Valid() && fresh(root.Repr - old(root.Repr))
      ensures Weights() == old(Weights())[item := weight]
    {
      ghost var was := root.Table();
      var place := root.Insert(item, weight);
      IndexedInsert(was, idx, place, item, weight);
      idx := idx[item := place];
    }

    /** Sets the weight of an item; zero removes it. */
    method SetWeight(item: Item, weight: nat)
      requires Valid()
      modifies this, root.Repr
      ensures Valid() && fresh(root.Repr - old(root.Repr))
      ensures Weights() == if weight == 0 then old(Weights()) - {item} else old(Weights())[item := weight]
      ensures item in old(idx) <==> item in old(Weights())
      ensures item in old(Weights()) ==>
        && root.sumWeight == old(root.sumWeight) - old(Weights())[item] + weight
        && var place := old(idx)[item];
           place < |old(root.Table())| && root.Table() == old(root.Table())[place := Reweighted(item, weight)]
    {
      hide WrsNode.Valid, Sum, Count, Indexed;
      if item in idx {
        Reweigh(item, weight);
      } else if weight != 0 {
        if root.itemCnt == root.maxItems {
          root.Room();
          AddLevel();
        }
        root.Room();
        Insert(item, weight);
      } else {
        assert Weights() - {item} == Weights();
      }
    }

    /** Chooses an item. The random draws are arbitrary, and so are the weights that the items
        report when they are looked at, one after the other: the loop ends for all of them,
        because a retry has lowered the stored total. The choice, and the table it leaves, are
        those of a scan of the flat table. `seen` lists the items looked at. */
    method Choose(reports: Reports, draws: nat -> Draw) returns (choice: Option<Item>, seen: seq<Item>)
      requires Valid() && (reports.Given? ==> root.sumWeight < |reports.weights|)
      modifies this, root.Repr
      ensures Valid() && fresh(root.Repr - old(root.Repr))
      ensures old(root.sumWeight == Sum(root.Table()))
      ensures (choice, root.Table()) == Drawn(old(root.Table()), reports, draws, 0)
      ensures |seen| <= old(root.sumWeight) + 1 && Looked(old(Weights()), seen, reports)
        && Weights() == AfterLooks(old(Weights()), seen, reports)
      ensures choice.None? ==> Weights() == map[] && forall k :: 0 <= k < |seen| ==>
        Refused(old(Weights()), seen, reports, k)
      ensures choice.Some? ==>
        && seen != [] && choice.value == seen[|seen| - 1] && choice.value in Weights()
        && forall k :: 0 <= k < |seen| - 1 ==> Refused(old(Weights()), seen, reports, k)
      ensures reports.Steady? ==> Weights() == old(Weights())
    {
      hide Indexed, WeightsOf, Sum, Count, AfterLooks, Looked, Refused, PickIndex;
      seen := [];
      NoLooks(Weights(), reports);
      while true
        invariant Valid() && fresh(root.Repr - old(root.Repr))
        invariant |seen| + root.sumWeight <= old(root.sumWeight)
        invariant reports.Steady? ==> Weights() == old(Weights())
        invariant Drawn(root.Table(), reports, draws, |seen|) == Drawn(old(root.Table()), reports, draws, 0)
        invariant Looked(old(Weights()), seen, reports) && Weights() == AfterLooks(old(Weights()), seen, reports)
        invariant forall k :: 0 <= k < |seen| ==> Refused(old(Weights()), seen, reports, k)
        decreases root.sumWeight
      {
        NothingStored(root.Table(), idx);
        if root.sumWeight == 0 {
          return None, seen;
        }
        var item, lastWeight, weight := Look(reports, |seen|, draws(|seen|).place);
        OneMoreLook(old(Weights()), seen, reports, item);
        seen := seen + [item];
        if weight >= lastWeight || draws(|seen| - 1).luck % lastWeight < weight {
          return Some(item), seen;
        }
      }
    }

    /** Draws an item and stores the weight it reports. */
    method Look(reports: Reports, n: nat, draw: nat) returns (item: Item, lastWeight: nat, weight: nat)
      requires Valid() && root.sumWeight > 0 && (reports.Given? ==> n < |reports.weights|)
      modifies this, root.Repr
      ensures Valid() && fresh(root.Repr - old(root.Repr))
      ensures item in old(Weights()) && old(Weights())[item] == lastWeight > 0
        && weight == Reported(reports, n, lastWeight)
      ensures Weights() == Stored(old(Weights()), item, weight)
      ensures root.sumWeight == old(root.sumWeight) - lastWeight + weight
      ensures old(root.sumWeight == Sum(root.Table()))
      ensures var place := PickIndex(old(root.Table()), draw % old(root.sumWeight));
        && old(root.Table())[place] == Taken(item, lastWeight)
        && root.Table() == old(root.Table())[place := Reweighted(item, weight)]
    {
      var val := draw % root.sumWeight;
      item, lastWeight := root.Choose(val);
      weight := Reported(reports, n, lastWeight);
      assert item in Weights() && Weights()[item] == lastWeight > 0;
      if weight != lastWeight {
        SetWeight(item, weight);
      }
    }
  }

  /** Two random numbers: which item to look at, and whether to take one that has become lighter. */
  datatype Draw = Draw(place: nat, luck: nat)

  /** A choice on the flat table: the item that the draw falls on is stored with the weight it now
      reports, and taken if that is no less than before, or with the odds of new to old weight. */
  ghost function Drawn<Item>(t: seq<Cell<Item>>, reports: Reports, draws: nat -> Draw, n: nat):
      (Option<Item>, seq<Cell<Item>>)
    requires reports.Given? ==> n + Sum(t) < |reports.weights|
    decreases Sum(t)
  {
    if Sum(t) == 0 then (None, t)
    else
      var i := PickIndex(t, draws(n).place % Sum(t));
      var weight := Reported(reports, n, t[i].weight);
      SumUpdate(t, i, Reweighted(t[i].item, weight));
      var next := t[i := Reweighted(t[i].item, weight)];
      if weight >= t[i].weight || draws(n).luck % t[i].weight < weight then (Some(t[i].item), next)
      else Drawn(next, reports, draws, n + 1)
  }

  /** The weights that items report when looked at: those they are stored with, or the n-th
      look is answered with the n-th weight. */
  datatype Reports = Steady | Given(weights: seq<nat>)

  function Reported(reports: Reports, n: nat, stored: nat): nat
    requires reports.Given? ==> n < |reports.weights|
  {
    if reports.Given? then reports.weights[n] else stored
  }

  /** The map after one weight has been stored; zero removes the item. */
  function Stored<Item>(m: map<Item, nat>, x: Item, weight: nat): map<Item, nat> {
    if weight == 0 then m - {x} else m[x := weight]
  }

  /** Looking at the items in turn and storing what they report. */
  ghost function AfterLooks<Item>(m: map<Item, nat>, seen: seq<Item>, reports: Reports): map<Item, nat>
    requires reports.Given? ==> |seen| <= |reports.weights|
    decreases |seen|
  {
    if seen == [] then m
    else
      var n := |seen| - 1;
      var was := AfterLooks(m, seen[..n], reports);
      Stored(was, seen[n], Reported(reports, n, if seen[n] in was then was[seen[n]] else 0))
  }

  /** Every item is stored when it is looked at. */
  ghost predicate Looked<Item>(m: map<Item, nat>, seen: seq<Item>, reports: Reports) {
    && (reports.Given? ==> |seen| <= |reports.weights|)
    && forall k :: 0 <= k < |seen| ==> seen[k] in AfterLooks(m, seen[..k], reports)
  }

  /** The k-th item reported less than was stored for it, and so could be passed over. */
  ghost predicate Refused<Item>(m: map<Item, nat>, seen: seq<Item>, reports: Reports, k: nat) {
    && k < |seen| && (reports.Given? ==> k < |reports.weights|)
    && var was := AfterLooks(m, seen[..k], reports);
       seen[k] in was && Reported(reports, k, was[seen[k]]) < was[seen[k]]
  }

  lemma NoLooks<Item>(m: map<Item, nat>, reports: Reports)
    ensures Looked(m, [], reports) && AfterLooks(m, [], reports) == m
  {
  }

  lemma {:induction false} StoredNext<Item>(m: map<Item, nat>, seen: seq<Item>, reports: Reports, x: Item)
    requires (reports.Given? ==> |seen| < |reports.weights|) && x in AfterLooks(m, seen, reports)
    ensures var was := AfterLooks(m, seen, reports);
      AfterLooks(m, seen + [x], reports) == Stored(was, x, Reported(reports, |seen|, was[x]))
  {
    assert (seen + [x])[..|seen|] == seen;
  }

  lemma {:induction false} OneMoreLook<Item>(m: map<Item, nat>, seen: seq<Item>, reports: Reports, x: Item)
    requires Looked(m, seen, reports) && (reports.Given? ==> |seen| < |reports.weights|)
      && x in AfterLooks(m, seen, reports)
    ensures var was := AfterLooks(m, seen, reports);
      && Looked(m, seen + [x], reports)
      && AfterLooks(m, seen + [x], reports) == Stored(was, x, Reported(reports, |seen|, was[x]))
      && (Reported(reports, |seen|, was[x]) < was[x] ==> Refused(m, seen + [x], reports, |seen|))
      && forall k :: 0 <= k < |seen| && Refused(m, seen, reports, k) ==> Refused(m, seen + [x], reports, k)
  {
    hide AfterLooks, Stored;
    StoredNext(m, seen, reports, x);
    var more := seen + [x];
    assert more[..|seen|] == seen;
    forall k | 0 <= k < |seen| ensures more[..k] == seen[..k] {
    }
  }
}
