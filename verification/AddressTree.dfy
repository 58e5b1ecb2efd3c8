/**
 The address tree of the KOS headers: a binary tree over an aligned block of
 addresses, each node of which maps one range of addresses to a value.

 A branch is reached with a centre point and a bit index.  The block it stands
 for starts at `base` and holds `Pow2(bits)` addresses, so that the centre point
 is `base + Pow2(bits - 1)` and the bit index is `bits - 1`; `bits == 0` is the
 single-address block below index 0.  A node need not contain the centre of its
 block, but lower nodes lie below the centre and upper nodes do not.
 */
module AddressTree {

  datatype Item<V> = Item(lo: int, hi: int, val: V)

  datatype Tree<V> = Empty | Node(item: Item<V>, min: Tree<V>, max: Tree<V>)

  function Pow2(n: nat): (p: nat)
    ensures p > 0
  {
    if n == 0 then 1 else 2 * Pow2(n - 1)
  }

  function Semi(base: int, bits: nat): int
    requires bits > 0
  {
    base + Pow2(bits - 1)
  }

  predicate Overlap<V>(a: Item<V>, b: Item<V>) {
    a.lo <= b.hi && b.lo <= a.hi
  }

  predicate Contains<V>(a: Item<V>, key: int) {
    a.lo <= key <= a.hi
  }

  predicate Fits<V>(a: Item<V>, base: int, bits: nat) {
    base <= a.lo <= a.hi < base + Pow2(bits)
  }

  ghost function Items<V>(t: Tree<V>): set<Item<V>> {
    match t
    case Empty => {}
    case Node(item, min, max) => {item} + Items(min) + Items(max)
  }

  // No item of `t` meets `a`.
  ghost predicate Clear<V>(t: Tree<V>, a: Item<V>) {
    forall b <- Items(t) :: !Overlap(a, b)
  }

  // The shape every operation keeps: each node lies in its block, and no range
  // is mapped twice.
  ghost predicate Valid<V>(t: Tree<V>, base: int, bits: nat) {
    match t
    case Empty => true
    case Node(item, min, max) =>
      && Fits(item, base, bits)
      && Clear(min, item) && Clear(max, item)
      && if bits == 0 then min.Empty? && max.Empty?
         else Valid(min, base, bits - 1) && Valid(max, Semi(base, bits), bits - 1)
  }

  // The items in the order in which a branch is inserted again: lower branch,
  // upper branch, then the node itself.
  function PostOrder<V>(t: Tree<V>): seq<Item<V>> {
    match t
    case Empty => []
    case Node(item, min, max) => PostOrder(min) + PostOrder(max) + [item]
  }

  ghost predicate Apart<V>(s: seq<Item<V>>) {
    forall i, j | 0 <= i < j < |s| :: !Overlap(s[i], s[j])
  }

  lemma {:induction false} ItemsFit<V>(t: Tree<V>, base: int, bits: nat)
    requires Valid(t, base, bits)
    ensures forall a <- Items(t) :: Fits(a, base, bits)
  {
    if t.Node? && bits > 0 {
      ItemsFit(t.min, base, bits - 1);
      ItemsFit(t.max, Semi(base, bits), bits - 1);
    }
  }

  lemma {:induction false} PostOrderItems<V>(t: Tree<V>)
    ensures Items(t) == set a <- PostOrder(t)
  {
    if t.Node? {
      PostOrderItems(t.min);
      PostOrderItems(t.max);
    }
  }

  lemma ApartConcat<V>(p: seq<Item<V>>, q: seq<Item<V>>)
    requires Apart(p) && Apart(q)
    requires forall a <- p, b <- q :: !Overlap(a, b)
    ensures Apart(p + q)
  {
    forall i, j | 0 <= i < j < |p + q| ensures !Overlap((p + q)[i], (p + q)[j]) {
      if i < |p| <= j {
        assert p[i] in p && q[j - |p|] in q;
      }
    }
  }

  lemma HalvesApart<V>(t: Tree<V>, base: int, bits: nat)
    requires Valid(t, base, bits) && t.Node? && bits > 0
    ensures forall a <- Items(t.min), b <- Items(t.max) :: !Overlap(a, b)
  {
    ItemsFit(t.min, base, bits - 1);
    ItemsFit(t.max, Semi(base, bits), bits - 1);
  }

  lemma {:induction false} PostOrderApart<V>(t: Tree<V>, base: int, bits: nat)
    requires Valid(t, base, bits)
    ensures Apart(PostOrder(t))
    ensures t.Node? ==> Apart(PostOrder(t.min) + PostOrder(t.max))
  {
    if t.Node? && bits > 0 {
      var semi := Semi(base, bits);
      PostOrderApart(t.min, base, bits - 1);
      PostOrderApart(t.max, semi, bits - 1);
      PostOrderItems(t.min);
      PostOrderItems(t.max);
      var p, q := PostOrder(t.min), PostOrder(t.max);
      HalvesApart(t, base, bits);
      ApartConcat(p, q);
      forall a <- p + q ensures !Overlap(a, t.item) {
        assert a in Items(t.min) || a in Items(t.max);
      }
      ApartConcat(p + q, [t.item]);
    }
  }

  /* No address is mapped twice. */
  lemma {:induction false} MappedOnce<V>(t: Tree<V>, base: int, bits: nat, a: Item<V>, b: Item<V>)
    requires Valid(t, base, bits) && a in Items(t) && b in Items(t) && a != b
    ensures a.hi < b.lo || b.hi < a.lo
  {
    if a != t.item && b != t.item {
      HalvesApart(t, base, bits);
      if a in Items(t.min) && b in Items(t.min) {
        MappedOnce(t.min, base, bits - 1, a, b);
      } else if a in Items(t.max) && b in Items(t.max) {
        MappedOnce(t.max, Semi(base, bits), bits - 1, a, b);
      }
    }
  }

  predicate CoversSemi<V>(t: Tree<V>, base: int, bits: nat) {
    t.Node? && bits > 0 && Contains(t.item, Semi(base, bits))
  }

  // Everything that the take-over of a branch by `leaf` relies on.
  lemma TakeOver<V>(t: Tree<V>, leaf: Item<V>, base: int, bits: nat)
    requires Valid(t, base, bits) && Fits(leaf, base, bits) && Clear(t, leaf)
    ensures var alone := Node(leaf, Empty, Empty);
            && Valid(alone, base, bits) && Items(alone) == {leaf}
            && forall a <- PostOrder(t) :: Fits(a, base, bits) && Clear(alone, a)
    ensures Apart(PostOrder(t))
  {
    assert forall b: int, n: nat :: Valid<V>(Empty, b, n);
    ItemsFit(t, base, bits);
    PostOrderItems(t);
    PostOrderApart(t, base, bits);
    forall a <- PostOrder(t) ensures Fits(a, base, bits) && !Overlap(a, leaf) {
      assert a in Items(t);
    }
  }

  // ---------------------------------------------------------------- insertion

  /* Insertion below the branch `t`.  The result is again a valid branch, and
     maps exactly one range more. */
  function InsertAt<V>(t: Tree<V>, leaf: Item<V>, base: int, bits: nat): (r: Tree<V>)
    requires Valid(t, base, bits) && Fits(leaf, base, bits) && Clear(t, leaf)
    ensures Valid(r, base, bits)
    ensures Items(r) == Items(t) + {leaf}
    ensures CoversSemi(t, base, bits) ==> CoversSemi(r, base, bits)
    decreases bits, if CoversSemi(t, base, bits) then 0 else 2, 0
  {
    if t.Empty? then
      Node(leaf, Empty, Empty)
    else
      assert !Overlap(leaf, t.item);
      if bits == 0 then
        assert false; t
      else
        var semi := Semi(base, bits);
        if leaf.lo <= semi <= leaf.hi then
          // The new leaf takes over the branch, and every old node is inserted again.
          PostOrderItems(t);
          TakeOver(t, leaf, base, bits);
          InsertAll(Node(leaf, Empty, Empty), PostOrder(t), base, bits)
        else if leaf.hi < semi then
          t.(min := InsertAt(t.min, leaf, base, bits - 1))
        else
          t.(max := InsertAt(t.max, leaf, semi, bits - 1))
  }

  // What was apart from a tree and a new item is apart from the tree with the item.
  lemma StillClear<V>(t: Tree<V>, t': Tree<V>, s: seq<Item<V>>)
    requires s != [] && Apart(s) && (forall a <- s :: Clear(t, a)) && Items(t') == Items(t) + {s[0]}
    ensures Apart(s[1..]) && forall a <- s[1..] :: a in s && Clear(t', a)
  {
    forall a <- s[1..] ensures Clear(t', a) {
      assert a in s && Clear(t, a) && !Overlap(s[0], a);
      forall b <- Items(t') ensures !Overlap(a, b) { assert b == s[0] || b in Items(t); }
    }
  }

  function InsertAll<V>(t: Tree<V>, s: seq<Item<V>>, base: int, bits: nat): (r: Tree<V>)
    requires Valid(t, base, bits) && Apart(s)
    requires forall a <- s :: Fits(a, base, bits) && Clear(t, a)
    ensures Valid(r, base, bits)
    ensures Items(r) == Items(t) + set a <- s
    ensures CoversSemi(t, base, bits) ==> CoversSemi(r, base, bits)
    decreases bits, if CoversSemi(t, base, bits) then 1 else 3, |s|
  {
    if s == [] then
      t
    else
      var t' := InsertAt(t, s[0], base, bits);
      StillClear(t, t', s);
      InsertAll(t', s[1..], base, bits)
  }

  // ------------------------------------------------------------------- lookup

  datatype Found<V> = Missing | At(item: Item<V>)

  // Any key is on one side of the centre.
  lemma OneSide<V>(t: Tree<V>, key: int, base: int, bits: nat)
    requires Valid(t, base, bits) && t.Node? && bits > 0
    ensures key < Semi(base, bits) ==> forall a <- Items(t.max) :: !Contains(a, key)
    ensures key >= Semi(base, bits) ==> forall a <- Items(t.min) :: !Contains(a, key)
  {
    ItemsFit(t.min, base, bits - 1);
    ItemsFit(t.max, Semi(base, bits), bits - 1);
  }

  /* The range that maps `key`, found by comparing with one centre point a level.
     Nothing is found exactly when no range of the whole tree contains the key. */
  function Locate<V>(t: Tree<V>, key: int, base: int, bits: nat): (r: Found<V>)
    requires Valid(t, base, bits) && base <= key < base + Pow2(bits)
    ensures r.At? ==> r.item in Items(t) && r.item.lo <= key <= r.item.hi
    ensures r.Missing? ==> forall a <- Items(t) :: !(a.lo <= key <= a.hi)
    decreases bits
  {
    if t.Empty? then
      Missing
    else if Contains(t.item, key) then
      At(t.item)
    else if bits == 0 then
      assert false; Missing
    else
      var semi := Semi(base, bits);
      OneSide(t, key, base, bits);
      if key < semi then
        Locate(t.min, key, base, bits - 1)
      else
        Locate(t.max, key, semi, bits - 1)
  }

  /* The loop form of `Locate`: it also shows that the walk never leaves the
     single-address block, which the source only asserts. */
  method LocateAt<V>(t: Tree<V>, key: int, base: int, bits: nat) returns (r: Found<V>)
    requires Valid(t, base, bits) && base <= key < base + Pow2(bits)
    ensures r == Locate(t, key, base, bits)
  {
    var root, start, level := t, base, bits - 1;
    while root.Node? && !Contains(root.item, key)
      invariant -1 <= level < bits
      invariant Valid(root, start, level + 1) && start <= key < start + Pow2(level + 1)
      invariant Locate(root, key, start, level + 1) == Locate(t, key, base, bits)
      decreases level
    {
      assert level != -1;
      var semi := Semi(start, level + 1);
      if key < semi {
        root := root.min;
      } else {
        root, start := root.max, semi;
      }
      level := level - 1;
    }
    r := if root.Empty? then Missing else At(root.item);
  }

  /* Whether some mapped range meets `lo..hi`; branches on the far side of the
     centre are not visited. */
  predicate ExistsAt<V>(t: Tree<V>, lo: int, hi: int, base: int, bits: nat)
    requires Valid(t, base, bits) && lo <= hi
    ensures ExistsAt(t, lo, hi, base, bits) <==> exists a <- Items(t) :: lo <= a.hi && a.lo <= hi
    decreases bits
  {
    if t.Empty? then
      false
    else if lo <= t.item.hi && hi >= t.item.lo then
      assert t.item in Items(t);
      true
    else if bits == 0 then
      false
    else
      var semi := Semi(base, bits);
      ItemsFit(t.min, base, bits - 1);
      ItemsFit(t.max, semi, bits - 1);
      || (hi >= semi && ExistsAt(t.max, lo, hi, semi, bits - 1))
      || (lo < semi && ExistsAt(t.min, lo, hi, base, bits - 1))
  }

  // ------------------------------------------------------------------ removal

  // The nodes below the root, in the order in which they are inserted again.
  lemma Popped<V>(t: Tree<V>, base: int, bits: nat)
    requires Valid(t, base, bits) && t.Node?
    ensures var below := PostOrder(t.min) + PostOrder(t.max);
            && Apart(below) && (forall a <- below :: Fits(a, base, bits) && Clear(Empty, a))
            && (set a <- below) == Items(t) - {t.item}
  {
    ItemsFit(t, base, bits);
    PostOrderItems(t.min);
    PostOrderItems(t.max);
    PostOrderApart(t, base, bits);
    assert t.item !in Items(t.min) + Items(t.max) by { assert Overlap(t.item, t.item); }
  }

  /* Drops the root of a branch and inserts everything below it again. */
  function PopAt<V>(t: Tree<V>, base: int, bits: nat): (r: Tree<V>)
    requires Valid(t, base, bits) && t.Node?
    ensures Valid(r, base, bits)
    ensures Items(r) == Items(t) - {t.item}
  {
    Popped(t, base, bits);
    InsertAll(Empty, PostOrder(t.min) + PostOrder(t.max), base, bits)
  }

  // A key in the root's range is in no other.
  lemma OnlyRoot<V>(t: Tree<V>, key: int, base: int, bits: nat)
    requires Valid(t, base, bits) && t.Node? && Contains(t.item, key)
    ensures Items(t) - {t.item} == set a <- Items(t) | !(a.lo <= key <= a.hi)
  {
    forall a <- Items(t) | Contains(a, key) ensures a == t.item {
      assert Overlap(t.item, a);
    }
  }

  /* Unmaps the range that contains `key`, if there is one, and nothing else. */
  function RemoveAt<V>(t: Tree<V>, key: int, base: int, bits: nat): (r: Tree<V>)
    requires Valid(t, base, bits) && base <= key < base + Pow2(bits)
    ensures Valid(r, base, bits)
    ensures Items(r) == set a <- Items(t) | !(a.lo <= key <= a.hi)
    decreases bits
  {
    if t.Empty? then
      t
    else if Contains(t.item, key) then
      OnlyRoot(t, key, base, bits);
      PopAt(t, base, bits)
    else if bits == 0 then
      assert false; t
    else
      var semi := Semi(base, bits);
      OneSide(t, key, base, bits);
      if key < semi then
        t.(min := RemoveAt(t.min, key, base, bits - 1))
      else
        t.(max := RemoveAt(t.max, key, semi, bits - 1))
  }
}
