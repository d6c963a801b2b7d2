/**
  The index of free chunks: 32 lists of small chunks, 32 tries of large chunks,
  and one bit map for each.
 */
module MallocBins {
  import opened Options
  import opened MallocBits
  import opened MallocSizes
  import opened MallocTrie

  /** A chunk and its size. */
  datatype Chunk = Chunk(addr: Addr, size: nat)

  predicate Marked(m: nat, i: nat) {
    BitAt(m, i) == 1
  }

  function Mark(m: nat, i: nat): nat {
    Or(m, Idx2Bit(i), MAP_BITS)
  }

  function Clear(m: nat, i: nat): nat
    requires Idx2Bit(i) < MAP_LIMIT
  {
    And(m, MAP_LIMIT - 1 - Idx2Bit(i), MAP_BITS)
  }

  lemma IdxInMap(i: nat)
    requires i < BINS
    ensures Idx2Bit(i) < MAP_LIMIT
  {
    MapLimit();
    Pow2Order(i, MAP_BITS);
  }

  lemma MarkBits(m: nat, i: nat, j: nat)
    requires i < BINS && j < BINS
    ensures Mark(m, i) < MAP_LIMIT && (Marked(Mark(m, i), j) <==> Marked(m, j) || i == j)
  {
    MapLimit();
    OrBits(m, Idx2Bit(i), MAP_BITS, j);
    Pow2Bits(i, j);
  }

  lemma ClearBits(m: nat, i: nat, j: nat)
    requires i < BINS && j < BINS && Idx2Bit(i) < MAP_LIMIT
    ensures Clear(m, i) < MAP_LIMIT && (Marked(Clear(m, i), j) <==> Marked(m, j) && i != j)
  {
    MapLimit();
    AndBits(m, Complement(Idx2Bit(i), MAP_BITS), MAP_BITS, j);
    ComplementBits(Idx2Bit(i), MAP_BITS, j);
    Pow2Bits(i, j);
  }

  /** All sizes in the bin are large and have the bin's index. */
  ghost predicate BinSizes(t: Trie, i: nat) {
    forall z: nat :: HasSize(t, z) ==> MIN_LARGE <= z <= MAX_SIZE && BinOf(z) == i
  }

  ghost predicate TreeBinOk(t: Trie, i: nat) {
    IsTrie(t, BinBits(i), BinPrefix(i)) && BinSizes(t, i)
  }

  /** How often chunk x with size z is in the given bins. */
  function CountIn(small: seq<seq<Addr>>, tree: seq<Trie>, x: Addr, z: nat): nat
    requires |small| == BINS && |tree| == BINS
  {
    if IsSmall(z) then (if Aligned(z) then RingCount(small[z / 8], x) else 0)
    else Count(tree[BinOf(z)], x, z)
  }

  /** The walk variable shows the bits of the size one after the other. */
  lemma WalkVariable(z: nat, b: nat)
    requires 1 <= b <= SIZE_BITS
    ensures TopBit(SizeWord(z, b)) == BitAt(z, b - 1) <= 1
    ensures SizeWord(z, b) * 2 % WORD == SizeWord(z, b - 1)
  {
    WalkBits(z, b);
  }

  /** The effect of replacing one treebin on the counts. */
  lemma CountWithBin(small: seq<seq<Addr>>, tree: seq<Trie>, i: nat, t: Trie, y: Addr, w: nat)
    requires |small| == BINS && |tree| == BINS && i < BINS
    ensures CountIn(small, tree[i := t], y, w) ==
      if !IsSmall(w) && BinOf(w) == i then Count(t, y, w) else CountIn(small, tree, y, w)
  {
  }

  /** A bin stays in order when the chunk is inserted. */
  lemma InsertedBinOk(t: Trie, i: nat, z: nat, x: Addr)
    requires i < BINS && TreeBinOk(t, i) && MIN_LARGE <= z <= MAX_SIZE && BinOf(z) == i
    ensures TreeBinOk(Insert(t, BinBits(i), z, x), i)
    ensures forall y: Addr, w: nat ::
      Count(Insert(t, BinBits(i), z, x), y, w) == Count(t, y, w) + if (y, w) == (x, z) then 1 else 0
  {
    var b, p := BinBits(i), BinPrefix(i);
    SharedPrefix(z);
    InsertOk(t, b, p, z, x);
    forall w: nat | HasSize(Insert(t, b, z, x), w) ensures MIN_LARGE <= w <= MAX_SIZE && BinOf(w) == i {
      InsertSizes(t, b, p, z, x, w);
    }
    forall y: Addr, w: nat
      ensures Count(Insert(t, b, z, x), y, w) == Count(t, y, w) + if (y, w) == (x, z) then 1 else 0
    {
      InsertCount(t, b, p, z, x, y, w);
    }
  }

  lemma UnlinkedBinOk(t: Trie, i: nat, z: nat, x: Addr)
    requires i < BINS && TreeBinOk(t, i) && Count(t, x, z) > 0
    ensures TreeBinOk(Unlink(t, BinBits(i), z, x), i)
    ensures forall y: Addr, w: nat ::
      Count(Unlink(t, BinBits(i), z, x), y, w) == Count(t, y, w) - if y == x && w == z then 1 else 0
  {
    var b, p := BinBits(i), BinPrefix(i);
    CountHasSize(t, x, z);
    UnlinkOk(t, b, p, z, x);
    forall w: nat | HasSize(Unlink(t, b, z, x), w) ensures MIN_LARGE <= w <= MAX_SIZE && BinOf(w) == i {
      UnlinkSizes(t, b, p, z, x, w);
    }
    forall y: Addr, w: nat
      ensures Count(Unlink(t, b, z, x), y, w) == Count(t, y, w) - if y == x && w == z then 1 else 0
    {
      UnlinkCount(t, b, p, z, x, y, w);
    }
  }

  /** The walk of insert_large_chunk goes on below child c. */
  lemma InsertWalk(root: Trie, path: Path, t: Trie, b: nat, z: nat, x: Addr)
    requires HasPath(root, path) && AtPath(root, path) == t && t.Node? && t.size != z && IsTrie(t, b, Prefix(z, b))
    ensures b > 0 && HasPath(root, path + [BitAt(z, b - 1)])
    ensures AtPath(root, path + [BitAt(z, b - 1)]) == t.Child(BitAt(z, b - 1))
    ensures IsTrie(t.Child(BitAt(z, b - 1)), b - 1, Prefix(z, b - 1))
    ensures PutPath(root, path, Insert(t, b, z, x)) ==
            PutPath(root, path + [BitAt(z, b - 1)], Insert(t.Child(BitAt(z, b - 1)), b - 1, z, x))
  {
    InsertGoesOn(t, b, Prefix(z, b), z);
    PathStep(root, path, BitAt(z, b - 1), Insert(t.Child(BitAt(z, b - 1)), b - 1, z, x));
  }

  lemma EmptyCount(small: seq<seq<Addr>>, tree: seq<Trie>, x: Addr, z: nat)
    requires |small| == BINS && |tree| == BINS
    requires (forall i :: 0 <= i < BINS ==> small[i] == []) && forall i :: 0 <= i < BINS ==> tree[i] == Nil
    ensures CountIn(small, tree, x, z) == 0
  {
  }

  /** The initial shift of the walk variable. */
  lemma WalkStart(z: nat, i: nat)
    requires i < BINS
    ensures BinBits(i) <= SIZE_BITS && LeftShift(i) == SIZE_BITS - BinBits(i)
    ensures z * Pow2(LeftShift(i)) % WORD == SizeWord(z, BinBits(i))
  {
  }

  class Bins {
    var smallbins: seq<seq<Addr>>
    var smallmap: nat
    var treebins: seq<Trie>
    var treemap: nat

    ghost predicate Valid()
      reads this
    {
      && |smallbins| == BINS && |treebins| == BINS
      && smallmap < MAP_LIMIT && treemap < MAP_LIMIT
      && (forall i :: 0 <= i < BINS ==> (Marked(smallmap, i) <==> smallbins[i] != []))
      && (forall i :: 0 <= i < BINS ==> (Marked(treemap, i) <==> treebins[i].Node?))
      && (forall i :: 0 <= i < BINS ==> TreeBinOk(treebins[i], i))
    }

    /** How often the index holds chunk x with size z. */
    ghost function Count(x: Addr, z: nat): nat
      reads this
      requires |smallbins| == BINS && |treebins| == BINS
    {
      CountIn(smallbins, treebins, x, z)
    }

    constructor ()
      ensures Valid()
      ensures forall x: Addr, z: nat :: Count(x, z) == 0
    {
      smallbins := seq(BINS, _ => []);
      treebins := seq(BINS, _ => Nil);
      smallmap := 0;
      treemap := 0;
      new;
      forall i: nat | i < BINS ensures !Marked(0, i) {
        ZeroBits(i);
      }
      forall x: Addr, z: nat ensures Count(x, z) == 0 {
        EmptyCount(smallbins, treebins, x, z);
      }
    }

    /** insert_small_chunk: the new chunk becomes the first of its list. */
    method InsertSmall(x: Addr, z: nat)
      requires Valid() && IsSmall(z) && Aligned(z)
      modifies this
      ensures Valid() && treebins == old(treebins) && treemap == old(treemap)
      ensures smallbins == old(smallbins)[z / 8 := [x] + old(smallbins[z / 8])]
      ensures forall y: Addr, w: nat :: Count(y, w) == old(Count(y, w)) + if y == x && w == z then 1 else 0
    {
      var i := z / 8;
      if !Marked(smallmap, i) {
        smallmap := Mark(smallmap, i);
        smallbins := smallbins[i := [x]];
      } else {
        smallbins := smallbins[i := [x] + smallbins[i]];
      }
      forall j | 0 <= j < BINS ensures Marked(smallmap, j) <==> smallbins[j] != [] {
        MarkBits(old(smallmap), i, j);
      }
      MarkBits(old(smallmap), i, i);
      assert smallbins[i] == [x] + old(smallbins[i]);
      forall y: Addr, w: nat ensures Count(y, w) == old(Count(y, w)) + if y == x && w == z then 1 else 0 {
        if IsSmall(w) && Aligned(w) && w / 8 == i {
          assert w == z;
          assert smallbins[i][1..] == old(smallbins[i]);
        }
      }
    }

    /** unlink_small_chunk. */
    method UnlinkSmall(x: Addr, z: nat)
      requires Valid() && IsSmall(z) && Aligned(z) && Count(x, z) > 0
      modifies this
      ensures Valid() && treebins == old(treebins) && treemap == old(treemap)
      ensures smallbins == old(smallbins)[z / 8 := Without(old(smallbins[z / 8]), x)]
      ensures forall y: Addr, w: nat :: Count(y, w) == old(Count(y, w)) - if y == x && w == z then 1 else 0
    {
      var i := z / 8;
      IdxInMap(i);
      var rest := Without(smallbins[i], x);
      if |smallbins[i]| == 1 {
        assert smallbins[i][1..] == [];
        smallmap := Clear(smallmap, i);
      } else {
        WithoutLength(smallbins[i], x);
      }
      smallbins := smallbins[i := rest];
      forall j | 0 <= j < BINS ensures Marked(smallmap, j) <==> smallbins[j] != [] {
        ClearBits(old(smallmap), i, j);
      }
      ClearBits(old(smallmap), i, i);
      forall y: Addr, w: nat ensures Count(y, w) == old(Count(y, w)) - if y == x && w == z then 1 else 0 {
        if IsSmall(w) && Aligned(w) && w / 8 == i {
          assert w == z;
          WithoutCount(old(smallbins[i]), x, y);
        }
      }
    }

    /** insert_large_chunk. */
    method InsertLarge(x: Addr, z: nat)
      requires Valid() && MIN_LARGE <= z <= MAX_SIZE
      modifies this
      ensures Valid() && smallbins == old(smallbins) && smallmap == old(smallmap)
      ensures treebins == old(treebins)[BinOf(z) := Insert(old(treebins[BinOf(z)]), BinBits(BinOf(z)), z, x)]
      ensures forall y: Addr, w: nat :: Count(y, w) == old(Count(y, w)) + if y == x && w == z then 1 else 0
    {
      SharedPrefix(z);
      var i := ComputeTreeIndex(z);
      InsertedBinOk(treebins[i], i, z, x);
      if !Marked(treemap, i) {
        treemap := Mark(treemap, i);
        treebins := treebins[i := Node(z, [x], Nil, Nil)];
      } else {
        var t := InsertByBits(treebins[i], i, z, x);
        treebins := treebins[i := t];
      }
      forall j | 0 <= j < BINS ensures Marked(treemap, j) <==> treebins[j].Node? {
        MarkBits(old(treemap), i, j);
      }
      MarkBits(old(treemap), i, i);
      forall y: Addr, w: nat ensures Count(y, w) == old(Count(y, w)) + if y == x && w == z then 1 else 0 {
        CountWithBin(smallbins, old(treebins), i, treebins[i], y, w);
      }
    }

    /** unlink_large_chunk. */
    method UnlinkLarge(x: Addr, z: nat)
      requires Valid() && !IsSmall(z) && Count(x, z) > 0
      modifies this
      ensures Valid() && smallbins == old(smallbins) && smallmap == old(smallmap)
      ensures treebins == old(treebins)[BinOf(z) := Unlink(old(treebins[BinOf(z)]), BinBits(BinOf(z)), z, x)]
      ensures forall y: Addr, w: nat :: Count(y, w) == old(Count(y, w)) - if y == x && w == z then 1 else 0
    {
      var i := ComputeTreeIndex(z);
      var root := treebins[i];
      assert TreeBinOk(root, i);
      UnlinkedBinOk(root, i, z, x);
      var t := UnlinkNode(root, i, z, x);
      treebins := treebins[i := t];
      IdxInMap(i);
      if t.Nil? {
        treemap := Clear(treemap, i);
      }
      forall j | 0 <= j < BINS ensures Marked(treemap, j) <==> treebins[j].Node? {
        ClearBits(old(treemap), i, j);
      }
      ClearBits(old(treemap), i, i);
      forall y: Addr, w: nat ensures Count(y, w) == old(Count(y, w)) - if y == x && w == z then 1 else 0 {
        CountWithBin(smallbins, old(treebins), i, t, y, w);
      }
    }

    /** unlink_first_small_chunk. */
    method UnlinkFirstSmall(i: nat) returns (x: Addr)
      requires Valid() && i < BINS && smallbins[i] != []
      modifies this
      ensures Valid() && treebins == old(treebins) && treemap == old(treemap)
      ensures x == old(smallbins[i][0]) && old(Count(x, 8 * i)) > 0
      ensures forall y: Addr, w: nat :: Count(y, w) == old(Count(y, w)) - if y == x && w == 8 * i then 1 else 0
    {
      x := smallbins[i][0];
      assert Without(smallbins[i], x) == smallbins[i][1..] && RingCount(smallbins[i], x) > 0;
      assert Count(x, 8 * i) > 0;
      UnlinkSmall(x, 8 * i);
    }

    /** insert_chunk. */
    method InsertChunk(x: Addr, z: nat)
      requires Valid() && Aligned(z) && z <= MAX_SIZE
      modifies this
      ensures Valid()
      ensures forall y: Addr, w: nat :: Count(y, w) == old(Count(y, w)) + if y == x && w == z then 1 else 0
    {
      if IsSmall(z) {
        InsertSmall(x, z);
      } else {
        InsertLarge(x, z);
      }
    }

    /** unlink_chunk. */
    method UnlinkChunk(x: Addr, z: nat)
      requires Valid() && Aligned(z) && Count(x, z) > 0
      modifies this
      ensures Valid()
      ensures forall y: Addr, w: nat :: Count(y, w) == old(Count(y, w)) - if y == x && w == z then 1 else 0
    {
      if IsSmall(z) {
        UnlinkSmall(x, z);
      } else {
        UnlinkLarge(x, z);
      }
    }

    /** A clear treemap means that no large chunk is in the index. */
    lemma NoTrees(x: Addr, z: nat)
      requires Valid() && treemap == 0 && !IsSmall(z)
      ensures Count(x, z) == 0
    {
      ZeroBits(BinOf(z));
    }

    /** The list of a small bin is empty exactly when no chunk of its size is in the index. */
    lemma SmallBin(i: nat)
      requires Valid() && i < BINS
      ensures smallbins[i] == [] <==> forall x: Addr :: Count(x, 8 * i) == 0
    {
      if smallbins[i] != [] {
        assert Count(smallbins[i][0], 8 * i) > 0;
      }
    }

    /** The first test of a small request: a chunk of bin idx or of the one after it. */
    method RemainderlessBin(idx: nat) returns (i: Option<nat>)
      requires Valid() && idx < BINS
      ensures i.Some? ==> i.value in {idx, idx + 1} && i.value < BINS && smallbins[i.value] != []
      ensures i.Some? && i.value == idx + 1 ==> smallbins[idx] == []
      ensures i.None? ==> smallbins[idx] == [] && (idx + 1 < BINS ==> smallbins[idx + 1] == [])
    {
      LowBits(smallmap, idx);
      var smallbits := Prefix(smallmap, idx);
      if smallbits % 4 == 0 {
        return None;
      }
      return Some(idx + 1 - smallbits % 2);
    }

    /** The next small bin that is not empty, when bin idx and the one after it are. */
    method NextSmallBin(idx: nat) returns (i: Option<nat>)
      requires Valid() && idx < BINS && smallbins[idx] == []
      ensures i.Some? ==> idx < i.value < BINS && smallbins[i.value] != [] && forall j ::
        idx <= j < i.value ==> smallbins[j] == []
      ensures i.None? ==> forall j :: idx <= j < BINS ==> smallbins[j] == []
    {
      var smallbits := Prefix(smallmap, idx);
      forall j: nat | idx < j < BINS ensures Marked(smallbits * Pow2(idx), j) <==> Marked(smallmap, j) {
        BitOfMultiple(smallbits, idx, j);
        BitOfPrefix(smallmap, idx, j);
      }
      if smallbits == 0 {
        forall j: nat | idx < j < BINS ensures !Marked(smallmap, j) {
          BitOfPrefix(smallmap, idx, j);
          ZeroBits(j - idx);
        }
        return None;
      }
      i := NextBin(smallbits * Pow2(idx), idx);
    }

    /** The searching part of tmalloc_large: the smallest chunk of all treebins that fits. */
    method BestLarge(nb: nat) returns (v: Option<Chunk>, rsize: nat)
      requires Valid() && MIN_LARGE <= nb <= MAX_SIZE
      ensures Holds(v, rsize, nb)
      ensures v.Some? ==> !IsSmall(v.value.size) && Count(v.value.addr, v.value.size) > 0
      ensures v.Some? ==> forall x: Addr, z: nat :: !IsSmall(z) && nb <= z && Count(x, z) > 0 ==> v.value.size <= z
      ensures v.None? ==> forall x: Addr, z: nat :: !IsSmall(z) && Count(x, z) > 0 ==> z < nb
    {
      ghost var bin: nat;
      v, rsize, bin := BestInTrees(treebins, treemap, nb);
      BinBounded(treebins[bin], bin);
      forall x: Addr, z: nat | !IsSmall(z) && nb <= z && Count(x, z) > 0 ensures v.Some? && v.value.size <= z {
        CountHasSize(treebins[BinOf(z)], x, z);
      }
    }

    /** The searching part of tmalloc_small: the smallest chunk of all treebins. */
    method LeastLarge(nb: nat) returns (v: Chunk, rsize: nat)
      requires Valid() && treemap != 0 && MIN_CHUNK <= nb < MIN_LARGE
      ensures MIN_LARGE <= v.size <= MAX_SIZE && rsize == v.size - nb && Count(v.addr, v.size) > 0
      ensures forall x: Addr, z: nat :: !IsSmall(z) && Count(x, z) > 0 ==> v.size <= z
    {
      FirstMarked(treemap);
      var i := Bit2Idx(LeastBit(treemap, MAP_BITS));
      var root := treebins[i];
      assert TreeBinOk(root, i);
      v, rsize := LeastAlongLeft(root, nb, i);
      CountHasSize(root, v.addr, v.size);
      forall x: Addr, z: nat | !IsSmall(z) && Count(x, z) > 0 ensures v.size <= z {
        CountHasSize(treebins[BinOf(z)], x, z);
        LeastSizeIsLeast(root, BinBits(i), BinPrefix(i));
        BinOrder(v.size, z);
      }
    }
  }

  /** compute_tree_index. */
  method ComputeTreeIndex(z: nat) returns (i: nat)
    requires !IsSmall(z)
    ensures i == BinOf(z)
  {
    TreeIndexIsBin(z);
    i := TreeIndex(z);
  }

  /** The loop of insert_large_chunk: it follows the bits of the size down the trie, at most one node for each bit. */
  method InsertByBits(root: Trie, i: nat, z: nat, x: Addr) returns (r: Trie)
    requires i < BINS && root.Node? && IsTrie(root, BinBits(i), BinPrefix(i)) && Prefix(z, BinBits(i)) == BinPrefix(i)
    ensures r == Insert(root, BinBits(i), z, x)
  {
    var t, path := root, [];
    WalkStart(z, i);
    ghost var b: nat := BinBits(i);
    var k := z * Pow2(LeftShift(i)) % WORD;
    while true
      invariant b <= SIZE_BITS && k == SizeWord(z, b)
      invariant HasPath(root, path) && AtPath(root, path) == t && t.Node?
      invariant IsTrie(t, b, Prefix(z, b))
      invariant Insert(root, BinBits(i), z, x) == PutPath(root, path, Insert(t, b, z, x))
      decreases b
    {
      if t.size != z {
        InsertWalk(root, path, t, b, z, x);
        WalkVariable(z, b);
        var c := TopBit(k);
        k := k * 2 % WORD;
        if t.Child(c).Node? {
          t, path := t.Child(c), path + [c];
          b := b - 1;
        } else {
          return PutPath(root, path + [c], Node(z, [x], Nil, Nil));
        }
      } else {
        return PutPath(root, path, t.(ring := RingInsert(t.ring, x)));
      }
    }
  }

  /** Following the last leaf one step further down. */
  lemma LastLeafWalk(node: Trie, q: Path, r: Trie)
    requires HasPath(node, q) && AtPath(node, q) == r && r.Node? && !r.IsLeaf()
    ensures var q' := q + [LastBit(r)];
      && HasPath(node, q') && AtPath(node, q') == r.Child(LastBit(r))
      && PutPath(node, q, DropLast(r)) == PutPath(node, q', DropLast(r.Child(LastBit(r))))
  {
    PathStep(node, q, LastBit(r), DropLast(r.Child(LastBit(r))));
  }

  /** unlink_large_chunk for a node whose ring has one chunk: a leaf below is cut off and takes its place. */
  method ReplaceByLeaf(root: Trie, path: Path) returns (t: Trie)
    requires HasPath(root, path) && AtPath(root, path).Node?
    ensures t == PutPath(root, path, RemoveNode(AtPath(root, path)))
  {
    var node := AtPath(root, path);
    if node.IsLeaf() {
      return PutPath(root, path, Nil);
    }
    var q := [];
    LastLeafWalk(node, q, node);
    var r := node.Child(LastBit(node));
    q := q + [LastBit(node)];
    while !r.IsLeaf()
      invariant r.Node? && HasPath(node, q) && AtPath(node, q) == r && q != []
      invariant LastLeaf(r) == LastLeaf(node.Child(LastBit(node)))
      invariant PutPath(node, q, DropLast(r)) == DropLast(node)
      decreases r
    {
      LastLeafWalk(node, q, r);
      q := q + [LastBit(r)];
      r := r.Child(LastBit(r));
    }
    PutBelow(root, path, q, Nil);
    var cut := PutPath(root, path + q, Nil);
    var open := AtPath(cut, path);
    PutTwice(root, path, open, RemoveNode(node));
    t := PutPath(cut, path, Node(r.size, r.ring, open.child0, open.child1));
  }

  /** The chunk leaves its ring, or its node is replaced. */
  method UnlinkNode(root: Trie, i: nat, z: nat, x: Addr) returns (t: Trie)
    requires i < BINS && TreeBinOk(root, i) && Count(root, x, z) > 0
    ensures t == Unlink(root, BinBits(i), z, x)
  {
    CountHasSize(root, x, z);
    PathToOk(root, BinBits(i), BinPrefix(i), z, x);
    var path := PathTo(root, BinBits(i), z);
    var node := AtPath(root, path);
    if |node.ring| > 1 {
      t := PutPath(root, path, node.(ring := RingRemove(node.ring, x)));
    } else {
      t := ReplaceByLeaf(root, path);
    }
  }

  // ---------------------------------------------------------------------
  // Searching

  /** The best chunk so far and what it leaves; with none, rsize is the unsigned negation of nb. */
  predicate Holds(v: Option<Chunk>, rsize: nat, nb: nat) {
    match v
    case None => rsize == WORD - nb
    case Some(k) => nb <= k.size <= MAX_SIZE && rsize == k.size - nb
  }

  /** chunksize(t) - nb in size_t arithmetic. */
  function Remainder(size: nat, nb: nat): nat {
    (size as int - nb as int) % WORD
  }

  /** The unsigned comparison finds exactly the chunks that fit better: a too small chunk wraps around. */
  lemma BetterFit(v: Option<Chunk>, rsize: nat, nb: nat, size: nat)
    requires Holds(v, rsize, nb) && 0 < nb <= MAX_SIZE && size <= MAX_SIZE
    ensures Remainder(size, nb) < rsize <==> nb <= size && (v.None? || size < v.value.size)
    ensures nb <= size ==> Remainder(size, nb) == size - nb
  {
  }

  function BestSize(v: Option<Chunk>): nat {
    if v.Some? then v.value.size else 0
  }

  /** Every chunk of t is a chunk of root. */
  ghost predicate PartOf(t: Trie, root: Trie) {
    forall x: Addr, z: nat :: Count(t, x, z) > 0 ==> Count(root, x, z) > 0
  }

  /** v is none, or one of the chunks of root. */
  predicate FromTrie(v: Option<Chunk>, root: Trie) {
    v.Some? ==> Count(root, v.value.addr, v.value.size) > 0
  }

  lemma {:induction false} BitOfPrefix(m: nat, k: nat, j: nat)
    requires k <= j
    ensures BitAt(Prefix(m, k), j - k) == BitAt(m, j)
  {
    if k > 0 {
      BitOfPrefix(m / 2, k - 1, j - 1);
      BitAtShift(m, j - 1);
    }
  }

  /** The two lowest bits of a shifted map; there is no bit above the last bin. */
  lemma LowBits(m: nat, idx: nat)
    requires m < MAP_LIMIT && idx < BINS
    ensures var b := Prefix(m, idx);
      && (Marked(m, idx) <==> b % 2 == 1)
      && (idx + 1 < BINS ==> (Marked(m, idx + 1) <==> b / 2 % 2 == 1))
      && (idx + 1 == BINS ==> b < 2)
  {
    var b := Prefix(m, idx);
    BitOfPrefix(m, idx, idx);
    BitOfPrefix(m, idx, idx + 1);
    BitAtShift(b, 0);
    if idx + 1 == BINS {
      LastBit31(m, idx);
    }
  }

  lemma LastBit31(m: nat, k: nat)
    requires m < MAP_LIMIT && k + 1 == MAP_BITS
    ensures Prefix(m, k) < 2
  {
    MapLimit();
    PrefixIsQuotient(m, k);
    assert Pow2(k + 1) == 2 * Pow2(k);
    SmallQuotient(m, Pow2(k));
  }

  lemma SmallQuotient(m: nat, p: nat)
    requires 0 < p && m < 2 * p
    ensures m / p < 2
  {
  }

  lemma MemberCounts(t: Trie, root: Trie)
    requires t.Node? && t.ring != [] && PartOf(t, root)
    ensures Count(root, t.ring[0], t.size) > 0
  {
  }

  lemma {:induction false} SizeHasChunk(t: Trie, b: nat, p: nat, z: nat) returns (x: Addr)
    requires IsTrie(t, b, p) && HasSize(t, z)
    ensures Count(t, x, z) > 0
  {
    if t.size == z {
      x := t.ring[0];
    } else if HasSize(t.child0, z) {
      x := SizeHasChunk(t.child0, b - 1, 2 * p, z);
    } else {
      x := SizeHasChunk(t.child1, b - 1, 2 * p + 1, z);
    }
  }

  /** First loop of tmalloc_large: along the bits of nb, remembering the best node and the deepest untaken right
      subtree. */
  method BestAlongBits(root: Trie, i: nat, nb: nat) returns (v: Option<Chunk>, rsize: nat, t: Trie, ghost tb: nat)
    requires i < BINS && root.Node? && TreeBinOk(root, i) && MIN_LARGE <= nb <= MAX_SIZE && BinOf(nb) == i
    ensures Holds(v, rsize, nb) && FromTrie(v, root)
    ensures Covered(root, nb, v.Some?, BestSize(v), Nil, t)
    ensures t.Node? ==> IsTrie(t, tb, Prefix(t.size, tb)) && PartOf(t, root)
    ensures t.Node? ==> (v.Some? && v.value.size == nb) || nb < LeastSize(t)
  {
    v, rsize, t := None, WORD - nb, root;
    SharedPrefix(nb);
    WalkStart(nb, i);
    var rst := Nil;
    ghost var b: nat, rb: nat := BinBits(i), BinBits(i);
    var k := nb * Pow2(LeftShift(i)) % WORD;
    while true
      invariant b <= SIZE_BITS && b <= rb && k == SizeWord(nb, b)
      invariant t.Node? && IsTrie(t, b, Prefix(nb, b)) && PartOf(t, root)
      invariant RightOf(rst, nb, rb) && PartOf(rst, root)
      invariant Holds(v, rsize, nb) && FromTrie(v, root) && !(v.Some? && v.value.size == nb)
      invariant Covered(root, nb, v.Some?, BestSize(v), t, rst)
      decreases b
    {
      SizesBounded(root, i, t);
      BetterFit(v, rsize, nb, t.size);
      var trem := Remainder(t.size, nb);
      if trem < rsize {
        MemberCounts(t, root);
        v, rsize := Some(Chunk(t.ring[0], t.size)), trem;
        if rsize == 0 {
          tb := b;
          return;
        }
      }
      if b == 0 {
        LastBitReached(t, nb);
      }
      rb := BitsStep(root, nb, v, t, b, rst, rb);
      var bit := TopBit(k);
      rst := NextRight(t, bit, rst);
      t := t.Child(bit);
      if t.Nil? {
        t := rst;
        tb := rb;
        if t.Node? {
          RightIsLarger(t, nb, tb);
        }
        return;
      }
      k := k * 2 % WORD;
      b := b - 1;
    }
  }

  /** One step along the bits of nb. */
  lemma BitsStep(root: Trie, nb: nat, v: Option<Chunk>, t: Trie, b: nat, rst: Trie, rb: nat) returns (rb': nat)
    requires t.Node? && 0 < b <= SIZE_BITS && b <= rb && IsTrie(t, b, Prefix(nb, b)) && PartOf(t, root)
    requires RightOf(rst, nb, rb) && PartOf(rst, root)
    requires Covered(root, nb, v.Some?, BestSize(v), t, rst) && (nb <= t.size ==> v.Some? && BestSize(v) <= t.size)
    ensures var bit := TopBit(SizeWord(nb, b));
      && bit <= 1 && SizeWord(nb, b) * 2 % WORD == SizeWord(nb, b - 1)
      && b - 1 <= rb' && RightOf(NextRight(t, bit, rst), nb, rb') && PartOf(NextRight(t, bit, rst), root)
      && IsTrie(t.Child(bit), b - 1, Prefix(nb, b - 1)) && PartOf(t.Child(bit), root)
      && Covered(root, nb, v.Some?, BestSize(v), t.Child(bit), NextRight(t, bit, rst))
  {
    WalkVariable(nb, b);
    CoveredStep(root, nb, v.Some?, BestSize(v), t, b, rst, rb);
    rb' := NextRightOf(t, b, nb, rst, rb);
    PrefixStep(nb, b);
  }

  lemma SizesBounded(root: Trie, i: nat, t: Trie)
    requires i < BINS && TreeBinOk(root, i) && t.Node? && t.ring != [] && PartOf(t, root)
    ensures MIN_LARGE <= t.size <= MAX_SIZE
  {
    MemberCounts(t, root);
    CountHasSize(root, t.ring[0], t.size);
  }

  /** When no bit is left, the node has the size looked for. */
  lemma LastBitReached(t: Trie, nb: nat)
    requires t.Node? && IsTrie(t, 0, Prefix(nb, 0))
    ensures t.size == nb
  {
  }

  lemma RightIsLarger(t: Trie, nb: nat, rb: nat)
    requires t.Node? && RightOf(t, nb, rb)
    ensures nb < LeastSize(t)
  {
    LeastSizeIsLeast(t, rb, Prefix(t.size, rb));
    RightOfIsLarger(t, nb, rb, nb, LeastSize(t));
  }

  /** Second loop of tmalloc_large: the walk that goes left whenever possible. */
  method BestAlongLeft(t0: Trie, nb: nat, v0: Option<Chunk>, rsize0: nat, ghost root: Trie, ghost b0: nat)
      returns (v: Option<Chunk>, rsize: nat)
    requires 0 < nb <= MAX_SIZE && Holds(v0, rsize0, nb) && FromTrie(v0, root)
    requires t0.Node? ==> IsTrie(t0, b0, Prefix(t0.size, b0)) && PartOf(t0, root)
    requires forall x: Addr, z: nat :: Count(root, x, z) > 0 ==> z <= MAX_SIZE
    requires t0.Node? ==> (v0.Some? && v0.value.size == nb) || nb <= LeastSize(t0)
    ensures Holds(v, rsize, nb) && FromTrie(v, root)
    ensures v0.Some? ==> v.Some? && v.value.size <= v0.value.size
    ensures t0.Node? ==> v.Some? && (v.value.size == nb || v.value.size <= LeastSize(t0))
    ensures t0.Nil? ==> v == v0
  {
    var t := t0;
    v, rsize := v0, rsize0;
    ghost var b: nat, p: nat := b0, if t0.Node? then Prefix(t0.size, b0) else 0;
    while t.Node?
      invariant t.Node? ==> t0.Node? && IsTrie(t, b, p) && PartOf(t, root)
      invariant Holds(v, rsize, nb) && FromTrie(v, root)
      invariant v0.Some? ==> v.Some? && v.value.size <= v0.value.size
      invariant t0.Node? ==>
        (v.Some? && (v.value.size == nb || v.value.size <= LeastSize(t0))) ||
        (t.Node? && LeastSize(t) == LeastSize(t0))
      invariant t0.Nil? ==> v == v0 && t.Nil?
      decreases t
    {
      MemberCounts(t, root);
      BetterFit(v, rsize, nb, t.size);
      var trem := Remainder(t.size, nb);
      if trem < rsize {
        v, rsize := Some(Chunk(t.ring[0], t.size)), trem;
      }
      if t.child0.Node? {
        b, p := b - 1, 2 * p;
      } else if t.child1.Node? {
        b, p := b - 1, 2 * p + 1;
      }
      t := LeftmostChild(t);
    }
  }

  /** The lowest marked bin above idx. */
  method NextBin(m: nat, idx: nat) returns (i: Option<nat>)
    requires idx < BINS
    ensures i.None? ==> forall j :: idx < j < BINS ==> !Marked(m, j)
    ensures i.Some? ==> idx < i.value < BINS && Marked(m, i.value) && forall j :: idx < j < i.value ==> !Marked(m, j)
  {
    NextMarked(m, idx);
    var left := LeftMarked(m, idx);
    if left == 0 {
      return None;
    }
    return Some(Bit2Idx(LeastBit(left, MAP_BITS)));
  }

  /** The first half of the search of tmalloc_large: where its second loop starts. */
  method SearchStart(tree: seq<Trie>, m: nat, nb: nat)
      returns (v: Option<Chunk>, rsize: nat, t: Trie, ghost tb: nat, ghost bin: nat)
    requires TreesOk(tree, m) && MIN_LARGE <= nb <= MAX_SIZE
    ensures BinOf(nb) <= bin < BINS && Holds(v, rsize, nb) && FromTrie(v, tree[bin])
    ensures Covered(tree[bin], nb, v.Some?, BestSize(v), Nil, t)
    ensures t.Node? ==> IsTrie(t, tb, Prefix(t.size, tb)) && PartOf(t, tree[bin])
    ensures t.Node? ==> (v.Some? && v.value.size == nb) || nb <= LeastSize(t)
    ensures forall j: nat, z: nat :: BinOf(nb) <= j < bin && HasSize(tree[j], z) ==> z < nb
    ensures v.None? && t.Nil? ==> forall j :: bin < j < BINS ==> tree[j].Nil?
  {
    var idx := ComputeTreeIndex(nb);
    v, rsize, t := None, WORD - nb, tree[idx];
    tb, bin := 0, idx;
    if t.Node? {
      v, rsize, t, tb := BestAlongBits(t, idx, nb);
    }
    if t.Nil? && v.None? {
      var next := NextBin(m, idx);
      if next.Some? {
        t := tree[next.value];
        bin := next.value;
        tb := BinBits(bin);
        HigherBinFits(t, bin, nb);
      }
    }
  }

  /** The search of tmalloc_large. */
  method BestInTrees(tree: seq<Trie>, m: nat, nb: nat) returns (v: Option<Chunk>, rsize: nat, ghost bin: nat)
    requires TreesOk(tree, m) && MIN_LARGE <= nb <= MAX_SIZE
    ensures bin < BINS && Holds(v, rsize, nb) && FromTrie(v, tree[bin])
    ensures forall i: nat, z: nat :: i < BINS && HasSize(tree[i], z) && nb <= z ==> v.Some? && v.value.size <= z
  {
    var t;
    ghost var tb;
    v, rsize, t, tb, bin := SearchStart(tree, m, nb);
    BinBounded(tree[bin], bin);
    v, rsize := BestAlongLeft(t, nb, v, rsize, tree[bin], tb);
    if v.Some? {
      CountHasSize(tree[bin], v.value.addr, v.value.size);
    }
    BestOfAll(tree, nb, bin, v);
  }

  ghost predicate TreesOk(tree: seq<Trie>, m: nat) {
    && |tree| == BINS
    && (forall i :: 0 <= i < BINS ==> (Marked(m, i) <==> tree[i].Node?))
    && (forall i :: 0 <= i < BINS ==> TreeBinOk(tree[i], i))
  }

  /** One step down to the leftmost child. */
  lemma LeftStep(root: Trie, i: nat, t: Trie, b: nat, p: nat) returns (p': nat)
    requires i < BINS && TreeBinOk(root, i) && t.Node? && IsTrie(t, b, p) && PartOf(t, root) && LeftmostChild(t).Node?
    ensures var c := LeftmostChild(t);
      && b > 0 && IsTrie(c, b - 1, p') && PartOf(c, root) && c.ring != []
      && MIN_LARGE <= c.size <= MAX_SIZE && Count(root, c.ring[0], c.size) > 0
  {
    var c := LeftmostChild(t);
    p' := if t.child0.Node? then 2 * p else 2 * p + 1;
    SizesBounded(root, i, c);
    MemberCounts(c, root);
  }

  /** The loop of tmalloc_small: it starts with the root as the best chunk. */
  method LeastAlongLeft(root: Trie, nb: nat, ghost i: nat) returns (v: Chunk, rsize: nat)
    requires i < BINS && root.Node? && TreeBinOk(root, i) && MIN_CHUNK <= nb < MIN_LARGE
    ensures v.size == LeastSize(root) && rsize == v.size - nb && Count(root, v.addr, v.size) > 0
  {
    var t := root;
    ghost var b: nat, p: nat := BinBits(i), BinPrefix(i);
    SizesBounded(root, i, root);
    v, rsize := Chunk(t.ring[0], t.size), Remainder(t.size, nb);
    while LeftmostChild(t).Node?
      invariant t.Node? && IsTrie(t, b, p) && PartOf(t, root)
      invariant MIN_LARGE <= v.size <= MAX_SIZE && rsize == v.size - nb && Count(root, v.addr, v.size) > 0
      invariant v.size <= t.size && LeastSize(root) == Min(v.size, LeastSize(t))
      decreases t
    {
      p := LeftStep(root, i, t, b, p);
      b := b - 1;
      t := LeftmostChild(t);
      var trem := Remainder(t.size, nb);
      if trem < rsize {
        v, rsize := Chunk(t.ring[0], t.size), trem;
      }
    }
  }

  function Min(x: nat, y: nat): nat {
    if x <= y then x else y
  }

  /** left_bits(idx2bit(idx)) & map. */
  function LeftMarked(m: nat, idx: nat): nat {
    And(LeftBits(Idx2Bit(idx), MAP_BITS), m, MAP_BITS)
  }

  /** Selecting the bits of m above idx with a word w that has exactly those bits. */
  lemma SelectBits(w: nat, m: nat, idx: nat, j: nat)
    requires j < BINS && (BitAt(w, j) == 1 <==> j > idx)
    ensures And(w, m, MAP_BITS) < MAP_LIMIT
    ensures BitAt(And(w, m, MAP_BITS), j) == if j > idx && Marked(m, j) then 1 else 0
  {
    MapLimit();
    AndBits(w, m, MAP_BITS, j);
  }

  lemma SelectLowest(w: nat, m: nat, idx: nat, left: nat)
    requires idx < BINS && left == And(w, m, MAP_BITS)
    requires forall j: nat :: j < BINS ==> (BitAt(w, j) == 1 <==> j > idx)
    ensures left == 0 ==> forall j :: idx < j < BINS ==> !Marked(m, j)
    ensures left != 0 ==> LeastBit(left, MAP_BITS) > 0
    ensures left != 0 ==>
      var i := Bit2Idx(LeastBit(left, MAP_BITS)); idx < i < BINS && Marked(m, i) && forall j ::
        idx < j < i ==> !Marked(m, j)
  {
    forall j: nat | j < BINS ensures BitAt(left, j) == (if j > idx && Marked(m, j) then 1 else 0) {
      SelectBits(w, m, idx, j);
    }
    if left == 0 {
      forall j: nat | idx < j < BINS ensures !Marked(m, j) {
        ZeroBits(j);
      }
    } else {
      SelectBits(w, m, idx, 0);
      FirstMarked(left);
      var i := Bit2Idx(LeastBit(left, MAP_BITS));
      assert Marked(left, i);
      forall j: nat | idx < j < i ensures !Marked(m, j) {
        assert !Marked(left, j);
      }
    }
  }

  /** The bin map search: the lowest marked bin above idx. */
  lemma NextMarked(m: nat, idx: nat)
    requires idx < BINS
    ensures LeftMarked(m, idx) == 0 ==> forall j :: idx < j < BINS ==> !Marked(m, j)
    ensures LeftMarked(m, idx) != 0 ==> LeastBit(LeftMarked(m, idx), MAP_BITS) > 0
    ensures LeftMarked(m, idx) != 0 ==>
      var i := Bit2Idx(LeastBit(LeftMarked(m, idx), MAP_BITS));
      idx < i < BINS && Marked(m, i) && forall j :: idx < j < i ==> !Marked(m, j)
  {
    var w := LeftBits(Idx2Bit(idx), MAP_BITS);
    forall j: nat | j < BINS ensures BitAt(w, j) == 1 <==> j > idx {
      LeftBitsAbove(idx, MAP_BITS, j);
    }
    SelectLowest(w, m, idx, LeftMarked(m, idx));
  }

  /** The lowest marked bin. */
  lemma FirstMarked(m: nat)
    requires 0 < m < MAP_LIMIT
    ensures LeastBit(m, MAP_BITS) > 0
    ensures var i := Bit2Idx(LeastBit(m, MAP_BITS)); i < BINS && Marked(m, i) && forall j ::
      0 <= j < i ==> !Marked(m, j)
  {
    MapLimit();
    var i := SomeBit(m, MAP_BITS);
    LowestBin(m, i);
  }

  /** In a higher bin everything fits. */
  lemma HigherBinFits(t: Trie, i: nat, nb: nat)
    requires i < BINS && TreeBinOk(t, i) && t.Node? && MIN_LARGE <= nb <= MAX_SIZE && BinOf(nb) < i
    ensures nb <= LeastSize(t) && Prefix(t.size, BinBits(i)) == BinPrefix(i) && PartOf(t, t)
    ensures Covered(t, nb, false, 0, Nil, t)
  {
    LeastSizeIsLeast(t, BinBits(i), BinPrefix(i));
    BinOrder(nb, LeastSize(t));
  }

  /** A best fit of one bin is a best fit of all: nothing below it fits, everything above it is larger. */
  lemma BestOfAll(tree: seq<Trie>, nb: nat, bin: nat, v: Option<Chunk>)
    requires |tree| == BINS && bin < BINS && MIN_LARGE <= nb && BinOf(nb) <= bin
    requires forall i :: 0 <= i < BINS ==> TreeBinOk(tree[i], i)
    requires forall j: nat, z: nat :: BinOf(nb) <= j < bin && HasSize(tree[j], z) ==> z < nb
    requires forall z: nat :: HasSize(tree[bin], z) && nb <= z ==> v.Some? && v.value.size <= z
    requires v.Some? ==> HasSize(tree[bin], v.value.size)
    requires v.None? ==> forall j :: bin < j < BINS ==> tree[j].Nil?
    ensures forall i: nat, z: nat :: i < BINS && HasSize(tree[i], z) && nb <= z ==> v.Some? && v.value.size <= z
  {
    forall i: nat, z: nat | i < BINS && HasSize(tree[i], z) && nb <= z ensures v.Some? && v.value.size <= z {
      assert TreeBinOk(tree[i], i) && TreeBinOk(tree[bin], bin);
      BinOrder(z, nb);
      if v.Some? {
        BinOrder(v.value.size, z);
      }
    }
  }

  lemma BinBounded(t: Trie, i: nat)
    requires i < BINS && TreeBinOk(t, i)
    ensures forall x: Addr, z: nat :: Count(t, x, z) > 0 ==> MIN_LARGE <= z <= MAX_SIZE && BinOf(z) == i
  {
    forall x: Addr, z: nat | Count(t, x, z) > 0 ensures MIN_LARGE <= z <= MAX_SIZE && BinOf(z) == i {
      CountHasSize(t, x, z);
    }
  }

  lemma {:induction false} WithoutLength(r: seq<Addr>, x: Addr)
    ensures |Without(r, x)| == |r| - if RingCount(r, x) > 0 then 1 else 0
  {
    if r != [] && r[0] != x {
      WithoutLength(r[1..], x);
    }
  }
}
