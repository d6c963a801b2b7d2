/**
  The chunks of one segment: how they tile it, what their boundary tags say,
  and what taking a chunk and giving it back do to them.
 */
module MallocLayout {
  import opened MallocSizes
  import opened MallocTrie

  /** A head word. */
  datatype Head = Head(size: nat, pinuse: bool, cinuse: bool)

  /**
    Head and foot words by address, and what a reader of the memory knows
    besides: the addresses at which chunks start, for each chunk the one before
    it, and the ends of the segment.
   */
  datatype Layout = Layout(
    head: map<Addr, Head>,
    foot: map<Addr, nat>,
    starts: set<Addr>,
    prev: map<Addr, Addr>,
    base: Addr,
    top: Addr,
    topsize: nat)
  {
    /** The addresses that have a head: all chunks and top. */
    predicate Heads(a: Addr) {
      a in starts || a == top
    }
  }

  function End(l: Layout, a: Addr): Addr {
    if a in l.head then a + l.head[a].size else a
  }

  ghost predicate FreeChunk(l: Layout, x: Addr, z: nat) {
    x in l.starts && x in l.head && l.head[x].size == z && !l.head[x].cinuse
  }

  ghost predicate LiveChunk(l: Layout, x: Addr, z: nat) {
    x in l.starts && x in l.head && l.head[x].size == z && l.head[x].cinuse
  }

  predicate AlignedChunk(l: Layout, a: Addr) {
    a in l.head && Aligned(a) && Aligned(l.head[a].size)
  }

  /** Chunk a lies in the segment and ends where another one or top starts. */
  predicate Placed(l: Layout, a: Addr) {
    a in l.head && l.base <= a && MIN_CHUNK <= l.head[a].size && End(l, a) <= l.top && l.Heads(End(l, a))
  }

  predicate Apart(l: Layout, a: Addr, b: Addr) {
    a < b ==> End(l, a) <= b
  }

  /** Chunk prev[a] ends at a. */
  predicate Follows(l: Layout, a: Addr) {
    a in l.prev && l.prev[a] in l.starts && End(l, l.prev[a]) == a
  }

  ghost predicate AllAligned(l: Layout) {
    Aligned(l.base) && Aligned(l.top) && forall a {:trigger AlignedChunk(l, a)} :: a in l.starts ==> AlignedChunk(l, a)
  }

  /** The chunks and top cover the segment without gap or overlap. */
  ghost predicate Tiled(l: Layout) {
    && 0 < l.base <= l.top && l.top + l.topsize <= MAX_SIZE && 0 < l.topsize
    && l.Heads(l.base) && l.top !in l.starts
    && (forall a {:trigger Placed(l, a)} :: a in l.starts ==> Placed(l, a))
    && (forall a, b {:trigger Apart(l, a, b)} :: a in l.starts && b in l.starts ==> Apart(l, a, b))
    && (forall a {:trigger Follows(l, a)} :: l.Heads(a) && a != l.base ==> Follows(l, a))
  }

  /** The boundary tags of a: pinuse describes the chunk before it, and so does the foot when that one is free. */
  predicate Tag(l: Layout, a: Addr) {
    && a in l.head
    && (a == l.base ==> l.head[a].pinuse)
    && (a != l.base ==>
          && a in l.prev && l.prev[a] in l.head
          && (l.head[a].pinuse <==> l.head[l.prev[a]].cinuse)
          && (!l.head[a].pinuse ==> a in l.foot && l.foot[a] == l.head[l.prev[a]].size))
  }

  /** A free chunk has no free chunk before it. */
  predicate Coalesced(l: Layout, a: Addr) {
    a in l.head && (l.head[a].pinuse || l.head[a].cinuse)
  }

  ghost predicate Tagged(l: Layout) {
    && l.top in l.head && l.head[l.top] == Head(l.topsize, true, false)
    && (forall a {:trigger Tag(l, a)} :: l.Heads(a) ==> Tag(l, a))
    && (forall a {:trigger Coalesced(l, a)} :: l.Heads(a) ==> Coalesced(l, a))
  }

  ghost predicate Sound(l: Layout) {
    AllAligned(l) && Tiled(l) && Tagged(l)
  }

  // ---------------------------------------------------------------------
  // Taking a chunk

  ghost predicate IsFree(l: Layout, p: Addr) {
    p in l.starts && p in l.head && !l.head[p].cinuse && l.head[p].pinuse && End(l, p) in l.head
  }

  /** set_inuse_and_pinuse on the whole free chunk p. */
  ghost function TakeWhole(l: Layout, p: Addr): Layout
    requires IsFree(l, p)
  {
    var n := End(l, p);
    var head := l.head[p := Head(l.head[p].size, true, true)];
    l.(head := head[n := l.head[n].(pinuse := true)])
  }

  /** The first nb bytes of the free chunk p are taken, the rest is a free chunk. */
  ghost function TakeFront(l: Layout, p: Addr, nb: nat): Layout
    requires IsFree(l, p) && nb <= l.head[p].size
  {
    var r, rsize := p + nb, l.head[p].size - nb;
    l.(head := l.head[r := Head(rsize, true, false)][p := Head(nb, true, true)],
       foot := l.foot[r + rsize := rsize],
       starts := l.starts + {r},
       prev := l.prev[r + rsize := r][r := p])
  }

  /** The first nb bytes of top are taken. */
  ghost function TakeTop(l: Layout, nb: nat): Layout
    requires nb < l.topsize
  {
    var p, r := l.top, l.top + nb;
    l.(head := l.head[r := Head(l.topsize - nb, true, false)][p := Head(nb, true, true)],
       starts := l.starts + {p},
       prev := l.prev[r := p],
       top := r,
       topsize := l.topsize - nb)
  }

  /** Two chunks do not end at the same place, and none starts inside another. */
  lemma EndsOnce(l: Layout, a: Addr, b: Addr)
    requires Tiled(l) && a in l.starts && b in l.starts && End(l, a) == End(l, b)
    ensures a == b
  {
    assert Placed(l, a) && Placed(l, b) && Apart(l, a, b) && Apart(l, b, a);
  }

  lemma FreshInside(l: Layout, p: Addr, r: Addr)
    requires Tiled(l) && p in l.starts && p < r < End(l, p)
    ensures !l.Heads(r)
  {
    assert Placed(l, p) && (r in l.starts ==> Apart(l, p, r));
  }

  lemma FreeIsKnown(l: Layout, p: Addr)
    requires Sound(l) && p in l.starts && p in l.head && !l.head[p].cinuse
    ensures IsFree(l, p) && End(l, p) in l.prev && l.prev[End(l, p)] == p && !l.head[End(l, p)].pinuse
    ensures End(l, p) in l.starts
  {
    var n := End(l, p);
    assert Placed(l, p) && Coalesced(l, p) && Follows(l, n) && Tag(l, n);
    EndsOnce(l, p, l.prev[n]);
  }

  lemma TakeWholeSound(l: Layout, p: Addr)
    requires Sound(l) && p in l.starts && p in l.head && !l.head[p].cinuse
    ensures IsFree(l, p) && Sound(TakeWhole(l, p))
  {
    FreeIsKnown(l, p);
    var l' := TakeWhole(l, p);
    var n := End(l, p);
    forall a | a in l.starts ensures Placed(l', a) && AlignedChunk(l', a) {
      assert a in l.starts ==> Placed(l, a) && AlignedChunk(l, a);
    }
    forall a, b | a in l.starts && b in l.starts ensures Apart(l', a, b) {
      assert Apart(l, a, b) && Placed(l, a);
    }
    forall a | l.Heads(a) && a != l.base ensures Follows(l', a) {
      assert l.Heads(a) ==> Follows(l, a);
    }
    forall a | l.Heads(a) ensures Tag(l', a) && Coalesced(l', a) {
      assert l.Heads(a) ==> Tag(l, a) && Coalesced(l, a) && (a != l.base ==> Follows(l, a));
      if a != l.base && l.prev[a] == p {
        assert a == n;
      }
    }
  }

  lemma TakeFrontApart(l: Layout, p: Addr, nb: nat, a: Addr, b: Addr)
    requires Tiled(l) && IsFree(l, p) && MIN_CHUNK <= nb && nb + MIN_CHUNK <= l.head[p].size
    requires a in l.starts + {p + nb} && b in l.starts + {p + nb}
    ensures Apart(TakeFront(l, p, nb), a, b)
  {
    FreshInside(l, p, p + nb);
    if a in l.starts {
      assert Placed(l, a) && Apart(l, a, p) && Apart(l, p, a);
    }
    if b in l.starts {
      assert Apart(l, p, b) && (a in l.starts ==> Apart(l, a, b));
    }
  }

  lemma TakeFrontFollows(l: Layout, p: Addr, nb: nat, a: Addr)
    requires Tiled(l) && IsFree(l, p) && MIN_CHUNK <= nb && nb + MIN_CHUNK <= l.head[p].size
    requires End(l, p) in l.prev && l.prev[End(l, p)] == p
    requires a in l.starts + {p + nb, l.top} && a != l.base
    ensures Follows(TakeFront(l, p, nb), a)
  {
    FreshInside(l, p, p + nb);
    if a != p + nb && a != End(l, p) {
      assert Follows(l, a);
    }
  }

  lemma TakeFrontTiled(l: Layout, p: Addr, nb: nat)
    requires Tiled(l) && IsFree(l, p) && MIN_CHUNK <= nb && nb + MIN_CHUNK <= l.head[p].size
    requires End(l, p) in l.prev && l.prev[End(l, p)] == p
    ensures Tiled(TakeFront(l, p, nb))
  {
    var l' := TakeFront(l, p, nb);
    FreshInside(l, p, p + nb);
    assert Placed(l, p);
    forall a | a in l'.starts ensures Placed(l', a) {
      assert a in l.starts ==> Placed(l, a);
    }
    forall a, b | a in l'.starts && b in l'.starts ensures Apart(l', a, b) {
      TakeFrontApart(l, p, nb, a, b);
    }
    forall a | l'.Heads(a) && a != l.base ensures Follows(l', a) {
      TakeFrontFollows(l, p, nb, a);
    }
  }

  lemma TakeFrontTagged(l: Layout, p: Addr, nb: nat)
    requires Tiled(l) && Tagged(l) && IsFree(l, p) && MIN_CHUNK <= nb && nb + MIN_CHUNK <= l.head[p].size
    requires End(l, p) in l.prev && l.prev[End(l, p)] == p && !l.head[End(l, p)].pinuse
    ensures Tagged(TakeFront(l, p, nb))
  {
    var l' := TakeFront(l, p, nb);
    var r, n := p + nb, End(l, p);
    FreshInside(l, p, r);
    assert Placed(l, p) && Coalesced(l, p);
    forall a | l'.Heads(a) ensures Tag(l', a) {
      if a != r {
        assert Tag(l, a) && Coalesced(l, a) && (a != l.base ==> Follows(l, a));
        if a != l.base {
          assert l.prev[a] == p ==> a == n;
          assert l.prev[a] != r;
        }
      }
    }
    forall a | l'.Heads(a) ensures Coalesced(l', a) {
      assert l.Heads(a) ==> Coalesced(l, a);
    }
  }

  lemma TakeFrontSound(l: Layout, p: Addr, nb: nat)
    requires Sound(l) && p in l.starts && p in l.head && !l.head[p].cinuse
    requires MIN_CHUNK <= nb && Aligned(nb) && nb + MIN_CHUNK <= l.head[p].size
    ensures IsFree(l, p) && Sound(TakeFront(l, p, nb))
  {
    FreeIsKnown(l, p);
    TakeFrontTiled(l, p, nb);
    TakeFrontTagged(l, p, nb);
    var l' := TakeFront(l, p, nb);
    assert AlignedChunk(l, p);
    forall a | a in l'.starts ensures AlignedChunk(l', a) {
      assert a in l.starts ==> AlignedChunk(l, a);
    }
  }

  lemma TakeTopTiled(l: Layout, nb: nat)
    requires Tiled(l) && nb < l.topsize && MIN_CHUNK <= nb
    ensures Tiled(TakeTop(l, nb))
  {
    var l' := TakeTop(l, nb);
    var p, r := l.top, l.top + nb;
    forall a | a in l.starts ensures a < p && a in l.head {
      assert Placed(l, a);
    }
    forall a | a in l'.starts ensures Placed(l', a) {
      assert a in l.starts ==> Placed(l, a);
    }
    forall a, b | a in l'.starts && b in l'.starts ensures Apart(l', a, b) {
      assert a in l.starts ==> Placed(l, a);
      assert a in l.starts && b in l.starts ==> Apart(l, a, b);
    }
    forall a | l'.Heads(a) && a != l.base ensures Follows(l', a) {
      assert l.Heads(a) ==> Follows(l, a);
    }
  }

  lemma TakeTopSound(l: Layout, nb: nat)
    requires Sound(l) && nb < l.topsize && MIN_CHUNK <= nb && Aligned(nb)
    ensures Sound(TakeTop(l, nb))
  {
    TakeTopTiled(l, nb);
    var l' := TakeTop(l, nb);
    var p, r := l.top, l.top + nb;
    forall a | a in l.starts ensures a < p && a in l.head {
      assert Placed(l, a);
    }
    forall a | a in l'.starts ensures AlignedChunk(l', a) {
      assert a in l.starts ==> AlignedChunk(l, a);
    }
    forall a | l'.Heads(a) ensures Tag(l', a) && Coalesced(l', a) {
      if a != r {
        assert Tag(l, a) && Coalesced(l, a) && (a != l.base ==> Follows(l, a));
      }
    }
  }

  // ---------------------------------------------------------------------
  // Giving a chunk back

  /** The chunks of [q, e) become one free chunk; chunk e is in use. */
  ghost function Merge(l: Layout, q: Addr, e: Addr): Layout
    requires q < e && e in l.head
  {
    l.(head := l.head[q := Head(e - q, true, false)][e := l.head[e].(pinuse := false)],
       foot := l.foot[e := e - q],
       starts := (set x | x in l.starts && !(q < x < e)),
       prev := l.prev[e := q])
  }

  /** The chunks from q on become part of top. */
  ghost function MergeTop(l: Layout, q: Addr): Layout
    requires q < l.top
  {
    var tsize := l.topsize + (l.top - q);
    l.(head := l.head[q := Head(tsize, true, false)],
       starts := (set x | x in l.starts && x < q),
       top := q,
       topsize := tsize)
  }

  /** Where the chunk before a is after the chunks between q and e have gone. */
  lemma PrevOutside(l: Layout, q: Addr, e: Addr, a: Addr)
    requires Tiled(l) && q in l.starts && l.Heads(e) && q < e && l.Heads(a) && a != l.base && !(q < a <= e)
    ensures Follows(l, a) && l.prev[a] in l.starts && !(q <= l.prev[a] < e)
  {
    assert Follows(l, a);
    var b := l.prev[a];
    assert Placed(l, b) && (e in l.starts ==> Apart(l, b, e)) && Apart(l, b, q) && (a in l.starts ==> Apart(l, q, a));
  }

  lemma MergeTiled(l: Layout, q: Addr, e: Addr)
    requires Tiled(l) && q in l.starts && e in l.starts && q < e && e in l.head
    ensures Tiled(Merge(l, q, e))
  {
    var l' := Merge(l, q, e);
    assert Placed(l, q) && Placed(l, e) && Apart(l, q, e);
    forall a | a in l'.starts ensures Placed(l', a) {
      assert Placed(l, a) && Apart(l, a, q) && Apart(l, a, e);
    }
    forall a, b | a in l'.starts && b in l'.starts ensures Apart(l', a, b) {
      assert Placed(l, a) && Apart(l, a, b);
    }
    forall a: Addr | l'.Heads(a) && a != l.base ensures Follows(l', a) {
      if a != e {
        assert a == q ==> !(q < a <= e);
        PrevOutside(l, q, e, a);
      }
    }
  }

  lemma MergeSound(l: Layout, q: Addr, e: Addr)
    requires Sound(l) && q in l.starts && e in l.starts && q < e
    requires q in l.head && l.head[q].pinuse && e in l.head && l.head[e].cinuse
    ensures Sound(Merge(l, q, e))
  {
    MergeTiled(l, q, e);
    var l' := Merge(l, q, e);
    assert AlignedChunk(l, q) && AlignedChunk(l, e) && Placed(l, q) && Placed(l, e);
    forall a | a in l'.starts ensures AlignedChunk(l', a) {
      assert AlignedChunk(l, a);
    }
    forall a | l'.Heads(a) ensures Tag(l', a) && Coalesced(l', a) {
      assert Tag(l, a) && Coalesced(l, a);
      if a != l.base && a != e {
        PrevOutside(l, q, e, a);
      }
    }
  }

  lemma MergeTopTiled(l: Layout, q: Addr)
    requires Tiled(l) && q in l.starts && q < l.top
    ensures Tiled(MergeTop(l, q))
  {
    var l' := MergeTop(l, q);
    assert Placed(l, q);
    forall a | a in l'.starts ensures Placed(l', a) {
      assert Placed(l, a) && Apart(l, a, q);
    }
    forall a, b | a in l'.starts && b in l'.starts ensures Apart(l', a, b) {
      assert Apart(l, a, b);
    }
    forall a | l'.Heads(a) && a != l.base ensures Follows(l', a) {
      PrevOutside(l, q, l.top, a);
      assert Placed(l, l.prev[a]);
    }
  }

  lemma MergeTopSound(l: Layout, q: Addr)
    requires Sound(l) && q in l.starts && q < l.top && q in l.head && l.head[q].pinuse
    ensures Sound(MergeTop(l, q))
  {
    MergeTopTiled(l, q);
    var l' := MergeTop(l, q);
    assert AlignedChunk(l, q);
    forall a | a in l'.starts ensures AlignedChunk(l', a) {
      assert AlignedChunk(l, a);
    }
    forall a | l'.Heads(a) ensures Tag(l', a) && Coalesced(l', a) {
      assert Tag(l, a) && Coalesced(l, a);
      if a != l.base {
        PrevOutside(l, q, l.top, a);
        assert Placed(l, l.prev[a]);
      }
    }
  }

  // ---------------------------------------------------------------------
  // The chunks afterwards

  /** l' has the free chunks of l except the ones that are gone, and in addition the given ones. */
  ghost predicate FreeBecomes(l: Layout, l': Layout, gone: set<Addr>, more: set<(Addr, nat)>) {
    forall x: Addr, z: nat :: FreeChunk(l', x, z) <==> (FreeChunk(l, x, z) && x !in gone) || (x, z) in more
  }

  ghost predicate LiveBecomes(l: Layout, l': Layout, gone: set<Addr>, more: set<(Addr, nat)>) {
    forall x: Addr, z: nat :: LiveChunk(l', x, z) <==> (LiveChunk(l, x, z) && x !in gone) || (x, z) in more
  }

  lemma TakeWholeChunks(l: Layout, p: Addr)
    requires Tiled(l) && IsFree(l, p)
    ensures FreeBecomes(l, TakeWhole(l, p), {p}, {})
    ensures LiveBecomes(l, TakeWhole(l, p), {}, {(p, l.head[p].size)})
  {
    assert Placed(l, p);
  }

  lemma TakeFrontChunks(l: Layout, p: Addr, nb: nat)
    requires Tiled(l) && IsFree(l, p) && 0 < nb < l.head[p].size
    ensures FreeBecomes(l, TakeFront(l, p, nb), {p}, {(p + nb, l.head[p].size - nb)})
    ensures LiveBecomes(l, TakeFront(l, p, nb), {}, {(p, nb)})
  {
    FreshInside(l, p, p + nb);
  }

  lemma TakeTopChunks(l: Layout, nb: nat)
    requires Tiled(l) && 0 < nb < l.topsize
    ensures FreeBecomes(l, TakeTop(l, nb), {}, {})
    ensures LiveBecomes(l, TakeTop(l, nb), {}, {(l.top, nb)})
  {
    forall x | x in l.starts ensures x < l.top {
      assert Placed(l, x);
    }
  }

  /** gone has all chunks that start in [q, e). */
  ghost predicate Spans(l: Layout, q: Addr, e: Addr, gone: set<Addr>) {
    forall x :: x in l.starts ==> (q <= x < e <==> x in gone)
  }

  lemma MergeChunks(l: Layout, q: Addr, e: Addr, gone: set<Addr>)
    requires Tiled(l) && q in l.starts && e in l.starts && q < e && e in l.head && Spans(l, q, e, gone)
    ensures FreeBecomes(l, Merge(l, q, e), gone, {(q, e - q)})
    ensures LiveBecomes(l, Merge(l, q, e), gone, {})
  {
  }

  /** The free chunk before p, and p: what a backward consolidation joins. */
  lemma SpanBack(l: Layout, q: Addr, p: Addr)
    requires Tiled(l) && q in l.starts && p in l.starts && (q == p || End(l, q) == p)
    ensures q <= p < End(l, p) && Spans(l, q, End(l, p), {q, p})
  {
    assert Placed(l, q) && Placed(l, p);
    forall x | x in l.starts ensures q <= x < End(l, p) <==> x in {q, p} {
      assert Apart(l, q, x) && Apart(l, p, x) && Apart(l, x, p) && Apart(l, x, q);
    }
  }

  lemma SpanNext(l: Layout, q: Addr, n: Addr, gone: set<Addr>)
    requires Tiled(l) && q in l.starts && n in l.starts && q < n && Spans(l, q, n, gone)
    ensures q < n < End(l, n) && Spans(l, q, End(l, n), gone + {n})
  {
    assert Placed(l, n);
    forall x | x in l.starts ensures q <= x < End(l, n) <==> x in gone + {n} {
      assert Apart(l, n, x) && Apart(l, x, n);
    }
  }

  /** What the boundary tags of p tell about the chunk before it. */
  lemma PrevFree(l: Layout, p: Addr)
    requires Sound(l) && p in l.starts && p in l.head && !l.head[p].pinuse
    ensures p in l.foot && l.foot[p] <= p
    ensures var q := p - l.foot[p]; FreeChunk(l, q, l.foot[p]) && End(l, q) == p && l.head[q].pinuse
  {
    assert Tag(l, p) && Follows(l, p);
    assert Placed(l, l.prev[p]) && Coalesced(l, l.prev[p]);
  }

  /** What chunk p tells about the one after it. */
  lemma NextHead(l: Layout, p: Addr)
    requires Sound(l) && p in l.starts
    ensures End(l, p) in l.head && l.Heads(End(l, p)) && p < End(l, p)
    ensures p in l.head && l.head[p].cinuse ==> l.head[End(l, p)].pinuse
  {
    var n := End(l, p);
    assert Placed(l, p) && Tag(l, n) && Follows(l, n);
    EndsOnce(l, p, l.prev[n]);
  }

  /** The chunk after a free chunk is in use. */
  lemma AfterFree(l: Layout, n: Addr)
    requires Sound(l) && n in l.starts && n in l.head && !l.head[n].cinuse
    ensures End(l, n) in l.starts && End(l, n) in l.head && l.head[End(l, n)].cinuse && !l.head[End(l, n)].pinuse
  {
    FreeIsKnown(l, n);
    assert Coalesced(l, End(l, n));
  }

  /** Free chunks among the ones that are gone do not matter for the live ones. */
  lemma OnlyLiveGone(l: Layout, l': Layout, gone: set<Addr>, p: Addr)
    requires LiveBecomes(l, l', gone, {}) && p in gone
    requires forall x :: x in gone && x != p ==> x in l.head && !l.head[x].cinuse
    ensures LiveBecomes(l, l', {p}, {})
  {
  }

  lemma MergeTopChunks(l: Layout, q: Addr, gone: set<Addr>)
    requires Tiled(l) && q in l.starts && q < l.top && Spans(l, q, l.top, gone)
    ensures FreeBecomes(l, MergeTop(l, q), gone, {})
    ensures LiveBecomes(l, MergeTop(l, q), gone, {})
  {
    forall x | x in l.starts ensures x < l.top {
      assert Placed(l, x);
    }
  }

  // ---------------------------------------------------------------------
  // What soundness means for the users of the chunks

  lemma NoChunkAtZero(l: Layout)
    requires Tiled(l)
    ensures 0 !in l.starts
  {
    assert 0 in l.starts ==> Placed(l, 0);
  }

  lemma ChunkBounds(l: Layout, x: Addr)
    requires Sound(l) && x in l.starts
    ensures x in l.head && Aligned(l.head[x].size) && MIN_CHUNK <= l.head[x].size < MAX_SIZE
  {
    assert Placed(l, x) && AlignedChunk(l, x);
  }

  lemma ChunkInSegment(l: Layout, x: Addr)
    requires Tiled(l) && x in l.starts
    ensures l.base <= x
  {
    assert Placed(l, x);
  }

  /** No two chunks overlap. */
  lemma ChunksApart(l: Layout, x: Addr, z: nat, y: Addr, w: nat)
    requires Sound(l) && x in l.starts && y in l.starts && x != y
    requires x in l.head && y in l.head && l.head[x].size == z && l.head[y].size == w
    ensures x + z <= y || y + w <= x
    ensures l.base <= x && x + z <= l.top
  {
    assert Apart(l, x, y) && Apart(l, y, x) && Placed(l, x);
  }

  /** Every byte of the segment below top belongs to a chunk. */
  lemma {:induction false} ByteInChunk(l: Layout, a: Addr, x: Addr) returns (c: Addr)
    requires Sound(l) && l.Heads(a) && l.base <= x < a
    ensures c in l.starts && c in l.head && c <= x < c + l.head[c].size
    decreases a
  {
    assert Follows(l, a);
    c := l.prev[a];
    assert Placed(l, c);
    if x < c {
      c := ByteInChunk(l, c, x);
    }
  }

  /** The last chunk before top is in use. */
  lemma LastIsLive(l: Layout) returns (c: Addr)
    requires Sound(l) && l.top != l.base
    ensures c in l.head && LiveChunk(l, c, l.head[c].size)
  {
    assert Follows(l, l.top) && Tag(l, l.top);
    c := l.prev[l.top];
    assert Placed(l, c);
  }

  /** When every chunk has been given back, the segment is one piece again. */
  lemma AllFreeIsTop(l: Layout)
    requires Sound(l)
    ensures (forall x, z :: !LiveChunk(l, x, z)) ==> l.starts == {} && l.top == l.base
  {
    forall a | a in l.starts ensures l.base < l.top {
      assert Placed(l, a);
    }
    if l.top != l.base {
      var c := LastIsLive(l);
    }
  }
}
