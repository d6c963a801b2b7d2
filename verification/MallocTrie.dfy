/**
  A treebin: a bitwise trie of chunk sizes.  Each node stands for one size and
  carries the ring of all free chunks of that size; the first chunk of the ring
  is the tree member.  A node's own size is anywhere in the range of its
  subtree; only the two children are ordered.
 */
module MallocTrie {
  import opened MallocBits

  type Addr = nat

  datatype Trie = Nil | Node(size: nat, ring: seq<Addr>, child0: Trie, child1: Trie)
  {
    function Child(bit: nat): Trie
      requires Node?
    {
      if bit == 0 then child0 else child1
    }

    function WithChild(bit: nat, t: Trie): Trie
      requires Node?
    {
      if bit == 0 then Node(size, ring, t, child1) else Node(size, ring, child0, t)
    }

    predicate IsLeaf() {
      Node? && child0.Nil? && child1.Nil?
    }
  }

  predicate HasSize(t: Trie, z: nat) {
    t.Node? && (t.size == z || HasSize(t.child0, z) || HasSize(t.child1, z))
  }

  /** All sizes in t have the leading bits p and differ in the last b bits; each size has one node. */
  predicate IsTrie(t: Trie, b: nat, p: nat)
    decreases t
  {
    t.Node? ==>
      && t.ring != []
      && Prefix(t.size, b) == p
      && (b == 0 ==> t.IsLeaf())
      && (b > 0 ==> IsTrie(t.child0, b - 1, 2 * p) && IsTrie(t.child1, b - 1, 2 * p + 1))
      && !HasSize(t.child0, t.size) && !HasSize(t.child1, t.size)
  }

  /** How often x is in the ring. */
  function RingCount(r: seq<Addr>, x: Addr): nat {
    if r == [] then 0 else (if r[0] == x then 1 else 0) + RingCount(r[1..], x)
  }

  /** How often the bin holds the chunk x with size z. */
  function Count(t: Trie, x: Addr, z: nat): nat {
    match t
    case Nil => 0
    case Node(y, r, l, h) => (if y == z then RingCount(r, x) else 0) + Count(l, x, z) + Count(h, x, z)
  }

  lemma {:induction false} RingCountConcat(a: seq<Addr>, b: seq<Addr>, x: Addr)
    ensures RingCount(a + b, x) == RingCount(a, x) + RingCount(b, x)
  {
    if a == [] {
      assert a + b == b;
    } else {
      assert (a + b)[0] == a[0] && (a + b)[1..] == a[1..] + b;
      RingCountConcat(a[1..], b, x);
    }
  }

  // ---------------------------------------------------------------------
  // Leading bits

  /** One more leading bit. */
  lemma {:induction false} PrefixStep(z: nat, b: nat)
    requires b > 0
    ensures Prefix(z, b - 1) == 2 * Prefix(z, b) + BitAt(z, b - 1)
  {
    if b > 1 {
      PrefixStep(z / 2, b - 1);
    }
  }

  lemma {:induction false} SizeInRange(t: Trie, b: nat, p: nat, z: nat)
    requires IsTrie(t, b, p) && HasSize(t, z)
    ensures Prefix(z, b) == p
  {
    if t.size != z {
      PrefixStep(z, b);
      if HasSize(t.child0, z) {
        SizeInRange(t.child0, b - 1, 2 * p, z);
      } else {
        SizeInRange(t.child1, b - 1, 2 * p + 1, z);
      }
    }
  }

  /** A smaller prefix means a smaller number. */
  lemma {:induction false} PrefixOrder(y: nat, z: nat, b: nat)
    requires Prefix(y, b) < Prefix(z, b)
    ensures y < z
  {
    if b > 0 {
      PrefixOrder(y / 2, z / 2, b - 1);
    }
  }

  /** Everything below child 0 is smaller than everything below child 1. */
  lemma ChildOrder(t: Trie, b: nat, p: nat, y: nat, z: nat)
    requires IsTrie(t, b, p) && t.Node? && HasSize(t.child0, y) && HasSize(t.child1, z)
    ensures y < z
  {
    SizeInRange(t.child0, b - 1, 2 * p, y);
    SizeInRange(t.child1, b - 1, 2 * p + 1, z);
    PrefixOrder(y, z, b - 1);
  }

  lemma ChildrenApart(t: Trie, b: nat, p: nat, y: nat)
    requires IsTrie(t, b, p) && t.Node?
    ensures !HasSize(t.child0, y) || !HasSize(t.child1, y)
  {
    if HasSize(t.child0, y) {
      SizeInRange(t.child0, b - 1, 2 * p, y);
      if HasSize(t.child1, y) {
        SizeInRange(t.child1, b - 1, 2 * p + 1, y);
      }
    }
  }

  lemma {:induction false} CountHasSize(t: Trie, x: Addr, z: nat)
    requires Count(t, x, z) > 0
    ensures HasSize(t, z)
  {
    if t.size != z {
      if Count(t.child0, x, z) > 0 {
        CountHasSize(t.child0, x, z);
      } else {
        CountHasSize(t.child1, x, z);
      }
    }
  }

  // ---------------------------------------------------------------------
  // Insertion

  /** A new chunk goes right behind the tree member. */
  function RingInsert(r: seq<Addr>, x: Addr): seq<Addr>
    requires r != []
  {
    [r[0], x] + r[1..]
  }

  /** insert_large_chunk below a node where b bits are left to decide. */
  function Insert(t: Trie, b: nat, z: nat, x: Addr): Trie
    decreases t
  {
    if t.Nil? then Node(z, [x], Nil, Nil)
    else if t.ring == [] then t
    else if t.size == z then t.(ring := RingInsert(t.ring, x))
    else if b == 0 then t
    else t.WithChild(BitAt(z, b - 1), Insert(t.Child(BitAt(z, b - 1)), b - 1, z, x))
  }

  lemma RingInsertCount(r: seq<Addr>, x: Addr, y: Addr)
    requires r != []
    ensures RingCount(RingInsert(r, x), y) == RingCount(r, y) + if y == x then 1 else 0
  {
    assert RingInsert(r, x) == [r[0]] + ([x] + r[1..]);
    RingCountConcat([r[0]], [x] + r[1..], y);
    RingCountConcat([x], r[1..], y);
  }

  /** Where insertion goes on, the prefix stays right. */
  lemma InsertGoesOn(t: Trie, b: nat, p: nat, z: nat)
    requires IsTrie(t, b, p) && t.Node? && t.size != z && Prefix(z, b) == p
    ensures b > 0 && Prefix(z, b - 1) == 2 * p + BitAt(z, b - 1) && BitAt(z, b - 1) <= 1
    ensures IsTrie(t.Child(BitAt(z, b - 1)), b - 1, 2 * p + BitAt(z, b - 1))
  {
    if b > 0 {
      PrefixStep(z, b);
    }
  }

  lemma {:induction false} InsertSizes(t: Trie, b: nat, p: nat, z: nat, x: Addr, y: nat)
    requires IsTrie(t, b, p) && Prefix(z, b) == p
    ensures HasSize(Insert(t, b, z, x), y) <==> HasSize(t, y) || y == z
  {
    if t.Node? && t.size != z {
      InsertGoesOn(t, b, p, z);
      InsertSizes(t.Child(BitAt(z, b - 1)), b - 1, 2 * p + BitAt(z, b - 1), z, x, y);
    }
  }

  /** Insertion adds exactly the one chunk. */
  lemma {:induction false} InsertCount(t: Trie, b: nat, p: nat, z: nat, x: Addr, y: Addr, w: nat)
    requires IsTrie(t, b, p) && Prefix(z, b) == p
    ensures Count(Insert(t, b, z, x), y, w) == Count(t, y, w) + if (y, w) == (x, z) then 1 else 0
  {
    if t.Nil? {
      assert RingCount([x], y) == if y == x then 1 else 0;
    } else if t.size == z {
      RingInsertCount(t.ring, x, y);
    } else {
      InsertGoesOn(t, b, p, z);
      InsertCount(t.Child(BitAt(z, b - 1)), b - 1, 2 * p + BitAt(z, b - 1), z, x, y, w);
    }
  }

  /** Insertion keeps the trie valid; it never runs out of bits. */
  lemma {:induction false} InsertOk(t: Trie, b: nat, p: nat, z: nat, x: Addr)
    requires IsTrie(t, b, p) && Prefix(z, b) == p
    ensures IsTrie(Insert(t, b, z, x), b, p)
  {
    if t.Node? && t.size != z {
      InsertGoesOn(t, b, p, z);
      var bit := BitAt(z, b - 1);
      InsertOk(t.Child(bit), b - 1, 2 * p + bit, z, x);
      InsertSizes(t.Child(bit), b - 1, 2 * p + bit, z, x, t.size);
    }
  }

  // ---------------------------------------------------------------------
  // Removal

  /** unlink_large_chunk, chained case: x leaves the ring; if it was the tree member, its bk takes over. */
  function RingRemove(r: seq<Addr>, x: Addr): seq<Addr>
    requires |r| > 1
  {
    if r[0] == x then [r[|r| - 1]] + r[1..|r| - 1] else [r[0]] + Without(r[1..], x)
  }

  /** r without the first x. */
  function Without(r: seq<Addr>, x: Addr): seq<Addr> {
    if r == [] then [] else if r[0] == x then r[1..] else [r[0]] + Without(r[1..], x)
  }

  lemma {:induction false} WithoutCount(r: seq<Addr>, x: Addr, y: Addr)
    ensures RingCount(Without(r, x), y) == RingCount(r, y) - if y == x && RingCount(r, x) > 0 then 1 else 0
  {
    if r != [] && r[0] != x {
      WithoutCount(r[1..], x, y);
      RingCountConcat([r[0]], Without(r[1..], x), y);
      assert [r[0]][1..] == [];
    }
  }

  lemma RingRemoveCount(r: seq<Addr>, x: Addr, y: Addr)
    requires |r| > 1 && RingCount(r, x) > 0
    ensures RingRemove(r, x) != []
    ensures RingCount(RingRemove(r, x), y) == RingCount(r, y) - if y == x then 1 else 0
  {
    assert [r[0]][1..] == [];
    if r[0] == x {
      var last, mid := [r[|r| - 1]], r[1..|r| - 1];
      RingCountConcat(last, mid, y);
      RingCountConcat(mid, last, y);
      assert r[1..] == mid + last;
    } else {
      WithoutCount(r[1..], x, y);
      RingCountConcat([r[0]], Without(r[1..], x), y);
    }
  }

  /** The child a walk to the last leaf takes: the right one if there is one. */
  function LastBit(t: Trie): nat
    requires t.Node?
  {
    if t.child1.Node? then 1 else 0
  }

  /** The leaf reached by going right whenever possible. */
  function LastLeaf(t: Trie): (leaf: Trie)
    requires t.Node?
    ensures leaf.IsLeaf()
  {
    if t.IsLeaf() then t else LastLeaf(t.Child(LastBit(t)))
  }

  /** t without that leaf. */
  function DropLast(t: Trie): Trie
    requires t.Node?
  {
    if t.IsLeaf() then Nil else t.WithChild(LastBit(t), DropLast(t.Child(LastBit(t))))
  }

  /** unlink_large_chunk for the last chunk of its size: the last leaf below takes the node's place. */
  function RemoveNode(t: Trie): Trie
    requires t.Node?
  {
    if t.IsLeaf() then Nil else
    var leaf := LastLeaf(t.Child(LastBit(t)));
    DropLast(t).(size := leaf.size, ring := leaf.ring)
  }

  function Unlink(t: Trie, b: nat, z: nat, x: Addr): Trie
    decreases t
  {
    if t.Nil? then t
    else if t.size == z then (if |t.ring| > 1 then t.(ring := RingRemove(t.ring, x)) else RemoveNode(t))
    else if b == 0 then t
    else t.WithChild(BitAt(z, b - 1), Unlink(t.Child(BitAt(z, b - 1)), b - 1, z, x))
  }

  lemma {:induction false} LastLeafOk(t: Trie, b: nat, p: nat)
    requires IsTrie(t, b, p) && t.Node?
    ensures HasSize(t, LastLeaf(t).size) && LastLeaf(t).ring != []
    ensures Prefix(LastLeaf(t).size, b) == p
  {
    if !t.IsLeaf() {
      LastLeafOk(t.Child(LastBit(t)), b - 1, 2 * p + LastBit(t));
    }
    SizeInRange(t, b, p, LastLeaf(t).size);
  }

  lemma {:induction false} DropLastSizes(t: Trie, b: nat, p: nat, y: nat)
    requires IsTrie(t, b, p) && t.Node?
    ensures HasSize(DropLast(t), y) <==> HasSize(t, y) && y != LastLeaf(t).size
  {
    if !t.IsLeaf() {
      var d := LastBit(t);
      DropLastSizes(t.Child(d), b - 1, 2 * p + d, y);
      LastLeafOk(t.Child(d), b - 1, 2 * p + d);
      ChildrenApart(t, b, p, LastLeaf(t).size);
    }
  }

  lemma {:induction false} DropLastOk(t: Trie, b: nat, p: nat)
    requires IsTrie(t, b, p) && t.Node?
    ensures IsTrie(DropLast(t), b, p)
  {
    if !t.IsLeaf() {
      var d := LastBit(t);
      DropLastOk(t.Child(d), b - 1, 2 * p + d);
      DropLastSizes(t.Child(d), b - 1, 2 * p + d, t.size);
    }
  }

  lemma {:induction false} DropLastCount(t: Trie, y: Addr, w: nat)
    requires t.Node?
    ensures Count(t, y, w) == Count(DropLast(t), y, w) + if LastLeaf(t).size == w
      then RingCount(LastLeaf(t).ring, y) else 0
  {
    if !t.IsLeaf() {
      DropLastCount(t.Child(LastBit(t)), y, w);
    }
  }

  /** Replacing a node by the last leaf below it keeps the trie valid. */
  lemma RemoveNodeOk(t: Trie, b: nat, p: nat)
    requires IsTrie(t, b, p) && t.Node?
    ensures IsTrie(RemoveNode(t), b, p)
    ensures forall y :: HasSize(RemoveNode(t), y) <==> HasSize(t, y) && y != t.size
  {
    if !t.IsLeaf() {
      var d := LastBit(t);
      var leaf := LastLeaf(t.Child(d));
      LastLeafOk(t, b, p);
      LastLeafOk(t.Child(d), b - 1, 2 * p + d);
      DropLastOk(t, b, p);
      forall y ensures HasSize(DropLast(t), y) <==> HasSize(t, y) && y != leaf.size {
        DropLastSizes(t, b, p, y);
      }
      forall y ensures HasSize(DropLast(t.Child(d)), y) <==> HasSize(t.Child(d), y) && y != leaf.size {
        DropLastSizes(t.Child(d), b - 1, 2 * p + d, y);
      }
      ChildrenApart(t, b, p, leaf.size);
    }
  }

  lemma RemoveNodeCount(t: Trie, y: Addr, w: nat)
    requires t.Node?
    ensures Count(RemoveNode(t), y, w) == Count(t, y, w) - if t.size == w then RingCount(t.ring, y) else 0
  {
    if !t.IsLeaf() {
      DropLastCount(t.Child(LastBit(t)), y, w);
    }
  }

  /** A chunk is in the ring of the node of its size and nowhere else. */
  lemma CountAtNode(t: Trie, b: nat, p: nat, x: Addr)
    requires IsTrie(t, b, p) && t.Node?
    ensures Count(t, x, t.size) == RingCount(t.ring, x)
  {
    if Count(t.child0, x, t.size) > 0 {
      CountHasSize(t.child0, x, t.size);
    }
    if Count(t.child1, x, t.size) > 0 {
      CountHasSize(t.child1, x, t.size);
    }
  }

  /** Below a node, a size can only be on the side its bit says. */
  lemma SizeOnItsSide(t: Trie, b: nat, p: nat, z: nat)
    requires IsTrie(t, b, p) && t.Node? && t.size != z && HasSize(t, z)
    ensures b > 0 && HasSize(t.Child(BitAt(z, b - 1)), z) && BitAt(z, b - 1) <= 1 && Prefix(z, b) == p
    ensures IsTrie(t.Child(BitAt(z, b - 1)), b - 1, 2 * p + BitAt(z, b - 1))
    ensures !HasSize(t.Child(1 - BitAt(z, b - 1)), z)
  {
    SizeInRange(t, b, p, z);
    ChildrenApart(t, b, p, z);
    PrefixStep(z, b);
    if HasSize(t.child0, z) {
      SizeInRange(t.child0, b - 1, 2 * p, z);
    } else {
      SizeInRange(t.child1, b - 1, 2 * p + 1, z);
    }
  }

  /** Removal takes out exactly the one chunk. */
  lemma {:induction false} UnlinkCount(t: Trie, b: nat, p: nat, z: nat, x: Addr, y: Addr, w: nat)
    requires IsTrie(t, b, p) && Count(t, x, z) > 0
    ensures Count(Unlink(t, b, z, x), y, w) == Count(t, y, w) - if y == x && w == z then 1 else 0
  {
    CountHasSize(t, x, z);
    if t.size == z {
      CountAtNode(t, b, p, x);
      if |t.ring| > 1 {
        RingRemoveCount(t.ring, x, y);
      } else {
        RemoveNodeCount(t, y, w);
        assert t.ring[1..] == [];
      }
    } else {
      SizeOnItsSide(t, b, p, z);
      var bit := BitAt(z, b - 1);
      if Count(t.Child(1 - bit), x, z) > 0 {
        CountHasSize(t.Child(1 - bit), x, z);
      }
      UnlinkCount(t.Child(bit), b - 1, 2 * p + bit, z, x, y, w);
    }
  }

  lemma {:induction false} UnlinkSizes(t: Trie, b: nat, p: nat, z: nat, x: Addr, y: nat)
    requires IsTrie(t, b, p) && HasSize(t, z) && HasSize(Unlink(t, b, z, x), y)
    ensures HasSize(t, y)
  {
    if t.size == z {
      if |t.ring| <= 1 {
        RemoveNodeOk(t, b, p);
      }
    } else {
      SizeOnItsSide(t, b, p, z);
      var bit := BitAt(z, b - 1);
      if HasSize(Unlink(t.Child(bit), b - 1, z, x), y) {
        UnlinkSizes(t.Child(bit), b - 1, 2 * p + bit, z, x, y);
      }
    }
  }

  /** Removal keeps the trie valid, also when an inner node is replaced by a leaf. */
  lemma {:induction false} UnlinkOk(t: Trie, b: nat, p: nat, z: nat, x: Addr)
    requires IsTrie(t, b, p) && Count(t, x, z) > 0
    ensures IsTrie(Unlink(t, b, z, x), b, p)
  {
    CountHasSize(t, x, z);
    if t.size == z {
      CountAtNode(t, b, p, x);
      if |t.ring| > 1 {
        RingRemoveCount(t.ring, x, x);
      } else {
        RemoveNodeOk(t, b, p);
      }
    } else {
      SizeOnItsSide(t, b, p, z);
      var bit := BitAt(z, b - 1);
      if Count(t.Child(1 - bit), x, z) > 0 {
        CountHasSize(t.Child(1 - bit), x, z);
      }
      UnlinkOk(t.Child(bit), b - 1, 2 * p + bit, z, x);
      if HasSize(Unlink(t.Child(bit), b - 1, z, x), t.size) {
        UnlinkSizes(t.Child(bit), b - 1, 2 * p + bit, z, x, t.size);
      }
    }
  }

  // ---------------------------------------------------------------------
  // The smallest size

  /** leftmost_child. */
  function LeftmostChild(t: Trie): Trie
    requires t.Node?
  {
    if t.child0.Node? then t.child0 else t.child1
  }

  /** The smallest size along the walk that goes left whenever possible. */
  function LeastSize(t: Trie): nat
    requires t.Node?
  {
    if t.IsLeaf() then t.size else
    var m := LeastSize(LeftmostChild(t));
    if t.size < m then t.size else m
  }

  /** That walk meets the smallest size of the whole trie. */
  lemma {:induction false} LeastSizeIsLeast(t: Trie, b: nat, p: nat)
    requires IsTrie(t, b, p) && t.Node?
    ensures HasSize(t, LeastSize(t))
    ensures forall z :: HasSize(t, z) ==> LeastSize(t) <= z
  {
    if !t.IsLeaf() {
      if t.child0.Node? {
        var m := LeastSize(t.child0);
        LeastSizeIsLeast(t.child0, b - 1, 2 * p);
        forall z: nat | HasSize(t, z) ensures t.size == z || m <= z {
          if HasSize(t.child0, z) {
            assert m <= z;
          } else if HasSize(t.child1, z) {
            ChildOrder(t, b, p, m, z);
          }
        }
      } else {
        LeastSizeIsLeast(t.child1, b - 1, 2 * p + 1);
      }
    }
  }

  // ---------------------------------------------------------------------
  // Pointers into a trie

  type Path = seq<nat>

  /** The path leads to a slot of the trie, which may be empty. */
  predicate HasPath(t: Trie, p: Path) {
    p == [] || (t.Node? && p[0] <= 1 && HasPath(t.Child(p[0]), p[1..]))
  }

  function AtPath(t: Trie, p: Path): Trie
    requires HasPath(t, p)
  {
    if p == [] then t else AtPath(t.Child(p[0]), p[1..])
  }

  function PutPath(t: Trie, p: Path, x: Trie): (r: Trie)
    requires HasPath(t, p)
    ensures HasPath(r, p) && AtPath(r, p) == x
  {
    if p == [] then x else t.WithChild(p[0], PutPath(t.Child(p[0]), p[1..], x))
  }

  lemma {:induction false} PathStep(t: Trie, p: Path, bit: nat, x: Trie)
    requires HasPath(t, p) && AtPath(t, p).Node? && bit <= 1
    ensures HasPath(t, p + [bit]) && AtPath(t, p + [bit]) == AtPath(t, p).Child(bit)
    ensures PutPath(t, p + [bit], x) == PutPath(t, p, AtPath(t, p).WithChild(bit, x))
  {
    if p == [] {
      assert (p + [bit])[1..] == [];
    } else {
      assert (p + [bit])[1..] == p[1..] + [bit];
      PathStep(t.Child(p[0]), p[1..], bit, x);
    }
  }

  lemma {:induction false} PutTwice(t: Trie, p: Path, x: Trie, y: Trie)
    requires HasPath(t, p)
    ensures PutPath(PutPath(t, p, x), p, y) == PutPath(t, p, y)
    ensures PutPath(t, p, AtPath(t, p)) == t
  {
    if p != [] {
      PutTwice(t.Child(p[0]), p[1..], x, y);
    }
  }

  /** A slot below another slot. */
  lemma {:induction false} PutBelow(t: Trie, p: Path, q: Path, x: Trie)
    requires HasPath(t, p) && HasPath(AtPath(t, p), q)
    ensures HasPath(t, p + q) && AtPath(t, p + q) == AtPath(AtPath(t, p), q)
    ensures PutPath(t, p + q, x) == PutPath(t, p, PutPath(AtPath(t, p), q, x))
  {
    if p == [] {
      assert p + q == q;
    } else {
      assert (p + q)[1..] == p[1..] + q;
      PutBelow(t.Child(p[0]), p[1..], q, x);
    }
  }

  /** Where the tree member of size z hangs. */
  function PathTo(t: Trie, b: nat, z: nat): Path
    decreases t
  {
    if t.Nil? || t.size == z || b == 0 then [] else [BitAt(z, b - 1)] + PathTo(t.Child(BitAt(z, b - 1)), b - 1, z)
  }

  lemma {:induction false} PathToOk(t: Trie, b: nat, p: nat, z: nat, x: Addr)
    requires IsTrie(t, b, p) && HasSize(t, z)
    ensures var q := PathTo(t, b, z);
      && HasPath(t, q) && AtPath(t, q).Node? && AtPath(t, q).size == z
      && |q| <= b && IsTrie(AtPath(t, q), b - |q|, Prefix(z, b - |q|))
      && Unlink(t, b, z, x) == PutPath(t, q, Unlink(AtPath(t, q), b - |q|, z, x))
  {
    SizeInRange(t, b, p, z);
    if t.size != z {
      SizeOnItsSide(t, b, p, z);
      var bit := BitAt(z, b - 1);
      PathToOk(t.Child(bit), b - 1, 2 * p + bit, z, x);
      assert PathTo(t, b, z)[1..] == PathTo(t.Child(bit), b - 1, z);
    }
  }

  lemma {:induction false} CountAtPath(t: Trie, b: nat, p: nat, z: nat, x: Addr)
    requires IsTrie(t, b, p) && HasSize(t, z)
    ensures HasPath(t, PathTo(t, b, z)) && AtPath(t, PathTo(t, b, z)).Node?
    ensures Count(t, x, z) == RingCount(AtPath(t, PathTo(t, b, z)).ring, x)
  {
    PathToOk(t, b, p, z, x);
    if t.size == z {
      CountAtNode(t, b, p, x);
    } else {
      SizeOnItsSide(t, b, p, z);
      var bit := BitAt(z, b - 1);
      if Count(t.Child(1 - bit), x, z) > 0 {
        CountHasSize(t.Child(1 - bit), x, z);
      }
      CountAtPath(t.Child(bit), b - 1, 2 * p + bit, z, x);
      assert PathTo(t, b, z)[1..] == PathTo(t.Child(bit), b - 1, z);
    }
  }

  // ---------------------------------------------------------------------
  // Best fit

  /** All sizes from nb on in root are at least best, or are still to be seen in t, or are no better than the least of
      rst. */
  ghost predicate Covered(root: Trie, nb: nat, found: bool, best: nat, t: Trie, rst: Trie) {
    forall z: nat :: HasSize(root, z) && nb <= z ==>
      (found && best <= z) || HasSize(t, z) || (rst.Node? && LeastSize(rst) <= z)
  }

  /** rst is a subtree to the right of nb's path: its sizes share the bits of nb above rb and then are larger. */
  predicate RightOf(rst: Trie, nb: nat, rb: nat) {
    rst.Node? ==> IsTrie(rst, rb, Prefix(rst.size, rb)) && Prefix(nb, rb) < Prefix(rst.size, rb)
  }

  lemma {:induction false} PrefixCoarser(y: nat, z: nat, b: nat, c: nat)
    requires b <= c && Prefix(y, b) == Prefix(z, b)
    ensures Prefix(y, c) == Prefix(z, c)
  {
    if b < c {
      PrefixCoarser(y, z, b, c - 1);
      PrefixStep(y, c);
      PrefixStep(z, c);
    }
  }

  lemma RightOfIsLarger(rst: Trie, nb: nat, rb: nat, y: nat, z: nat)
    requires RightOf(rst, nb, rb) && HasSize(rst, z) && Prefix(y, rb) <= Prefix(nb, rb)
    ensures y < z
  {
    SizeInRange(rst, rb, Prefix(rst.size, rb), z);
    PrefixOrder(y, z, rb);
  }

  /** One step of the walk along the bits of nb: what the untaken right subtree becomes. */
  function NextRight(t: Trie, bit: nat, rst: Trie): Trie
    requires t.Node?
  {
    if t.child1.Node? && bit == 0 then t.child1 else rst
  }

  lemma NextRightOf(t: Trie, b: nat, nb: nat, rst: Trie, rb: nat) returns (rb': nat)
    requires t.Node? && b > 0 && IsTrie(t, b, Prefix(nb, b)) && RightOf(rst, nb, rb) && b <= rb
    ensures b - 1 <= rb' && RightOf(NextRight(t, BitAt(nb, b - 1), rst), nb, rb')
  {
    PrefixStep(nb, b);
    if t.child1.Node? && BitAt(nb, b - 1) == 0 {
      rb' := b - 1;
    } else {
      rb' := rb;
    }
  }

  /** The walk step keeps everything covered: left of nb's path nothing fits,
      right of it the deepest subtree is best. */
  lemma CoveredStep(root: Trie, nb: nat, found: bool, best: nat, t: Trie, b: nat, rst: Trie, rb: nat)
    requires t.Node? && b > 0 && IsTrie(t, b, Prefix(nb, b)) && RightOf(rst, nb, rb) && b <= rb
    requires Covered(root, nb, found, best, t, rst) && (nb <= t.size ==> found && best <= t.size)
    ensures Covered(root, nb, found, best, t.Child(BitAt(nb, b - 1)), NextRight(t, BitAt(nb, b - 1), rst))
  {
    var bit := BitAt(nb, b - 1);
    var rst' := NextRight(t, bit, rst);
    PrefixStep(nb, b);
    forall z: nat | HasSize(root, z) && nb <= z
      ensures (found && best <= z) || HasSize(t.Child(bit), z) || (rst'.Node? && LeastSize(rst') <= z)
    {
      if found && best <= z {
      } else if HasSize(t, z) {
        SeenOrRight(t, b, nb, z);
      } else if rst' != rst {
        LeastSizeIsLeast(t.child1, b - 1, 2 * Prefix(nb, b) + 1);
        LeastSizeIsLeast(rst, rb, Prefix(rst.size, rb));
        var m := LeastSize(t.child1);
        SizeInRange(t, b, Prefix(nb, b), m);
        PrefixCoarser(m, nb, b, rb);
        RightOfIsLarger(rst, nb, rb, m, LeastSize(rst));
      }
    }
  }

  /** A fitting size below t is t's own, on nb's side, or below the right child next to it. */
  lemma SeenOrRight(t: Trie, b: nat, nb: nat, z: nat)
    requires t.Node? && b > 0 && IsTrie(t, b, Prefix(nb, b)) && HasSize(t, z) && nb <= z
    ensures t.size == z || HasSize(t.Child(BitAt(nb, b - 1)), z) ||
            (BitAt(nb, b - 1) == 0 && t.child1.Node? && LeastSize(t.child1) <= z)
  {
    PrefixStep(nb, b);
    if t.size != z && !HasSize(t.Child(BitAt(nb, b - 1)), z) {
      if BitAt(nb, b - 1) == 0 {
        LeastSizeIsLeast(t.child1, b - 1, 2 * Prefix(nb, b) + 1);
      } else {
        SizeInRange(t.child0, b - 1, 2 * Prefix(nb, b), z);
        PrefixOrder(z, nb, b - 1);
      }
    }
  }
}
