/**
  malloc and free over one segment: the index of free chunks, the designated
  victim dv and the top chunk, kept together with the memory layout.
 */
module Malloc {
  import opened Options
  import opened MallocSizes
  import opened MallocTrie
  import opened MallocLayout
  import opened MallocBins

  const CHUNK_TO_MEM := 16   // chunk2mem

  class Heap {
    var head: map<Addr, Head>
    var foot: map<Addr, nat>
    var dv: Addr
    var dvsize: nat
    var top: Addr
    var topsize: nat
    const bins: Bins
    const base: Addr   // least_addr
    ghost var starts: set<Addr>
    ghost var prev: map<Addr, Addr>

    ghost function L(): Layout
      reads this
    {
      Layout(head, foot, starts, prev, base, top, topsize)
    }

    /** The index has exactly the free chunks other than dv and the ones left out. */
    ghost predicate Indexed(out: set<Addr>)
      reads this, bins
      requires bins.Valid()
    {
      forall x: Addr, z: nat :: bins.Count(x, z) == if FreeChunk(L(), x, z) && x != dv && x !in out then 1 else 0
    }

    ghost predicate ValidBut(out: set<Addr>)
      reads this, bins
    {
      && bins.Valid() && Sound(L())
      && (if dvsize == 0 then dv == 0 else FreeChunk(L(), dv, dvsize))
      && Indexed(out)
    }

    ghost predicate Valid()
      reads this, bins
    {
      ValidBut({})
    }

    /** init_top and init_bins on a new segment. */
    constructor (start: Addr, size: nat)
      requires 0 < start && Aligned(start) && 0 < size && start + size <= MAX_SIZE
      ensures Valid() && fresh(bins) && dvsize == 0
      ensures base == start && starts == {} && top == start && topsize == size
    {
      bins := new Bins();
      base, starts, prev := start, {}, map[];
      head, foot := map[start := Head(size, true, false)], map[];
      dv, dvsize, top, topsize := 0, 0, start, size;
    }

    /** set_inuse_and_pinuse. */
    method UseWhole(p: Addr)
      requires ValidBut({p}) && IsFree(L(), p) && p != dv
      modifies this
      ensures Valid() && L() == TakeWhole(old(L()), p) && dv == old(dv) && dvsize == old(dvsize)
      ensures LiveBecomes(old(L()), L(), {}, {(p, old(head[p].size))}) && FreeBecomes(old(L()), L(), {p}, {})
    {
      TakeWholeSound(L(), p);
      TakeWholeChunks(L(), p);
      var n := p + head[p].size;
      head := head[p := Head(head[p].size, true, true)];
      head := head[n := head[n].(pinuse := true)];
      assert L() == TakeWhole(old(L()), p);
      NoChunkAtZero(L());
    }

    /** set_size_and_pinuse_of_inuse_chunk on the front part, set_size_and_pinuse_of_free_chunk on the rest. */
    method UseFront(p: Addr, nb: nat) returns (r: Addr)
      requires ValidBut({p}) && IsFree(L(), p) && p != dv
      requires MIN_CHUNK <= nb && Aligned(nb) && nb + MIN_CHUNK <= head[p].size
      modifies this
      ensures r == p + nb && ValidBut({r}) && L() == TakeFront(old(L()), p, nb) && dv == old(dv)
      ensures dvsize == old(dvsize)
      ensures FreeChunk(L(), r, old(head[p].size) - nb) && r != dv
      ensures LiveBecomes(old(L()), L(), {}, {(p, nb)})
      ensures FreeBecomes(old(L()), L(), {p}, {(r, old(head[p].size) - nb)})
    {
      TakeFrontSound(L(), p, nb);
      TakeFrontChunks(L(), p, nb);
      FreshInside(L(), p, p + nb);
      r := p + nb;
      var rsize := head[p].size - nb;
      starts, prev := starts + {r}, prev[r + rsize := r][r := p];
      head := head[r := Head(rsize, true, false)][p := Head(nb, true, true)];
      foot := foot[r + rsize := rsize];
      assert L() == TakeFront(old(L()), p, nb);
    }

    /** insert_chunk for the chunk left out. */
    method Bin(r: Addr, rsize: nat)
      requires ValidBut({r}) && FreeChunk(L(), r, rsize) && r != dv
      modifies bins
      ensures Valid()
    {
      ChunkBounds(L(), r);
      NoChunkAtZero(L());
      bins.InsertChunk(r, rsize);
    }

    /** replace_dv. */
    method ReplaceDv(r: Addr, rsize: nat)
      requires ValidBut({r}) && FreeChunk(L(), r, rsize) && r != dv && IsSmall(dvsize)
      modifies `dv, `dvsize, bins
      ensures Valid() && dv == r && dvsize == rsize
    {
      ChunkBounds(L(), r);
      NoChunkAtZero(L());
      if dvsize != 0 {
        ChunkBounds(L(), dv);
        bins.InsertSmall(dv, dvsize);
      }
      dv, dvsize := r, rsize;
    }

    /** unlink_chunk. */
    method UnlinkBinned(x: Addr, z: nat, ghost out: set<Addr>)
      requires ValidBut(out) && bins.Count(x, z) > 0
      modifies bins
      ensures ValidBut(out + {x})
    {
      ChunkBounds(L(), x);
      bins.UnlinkChunk(x, z);
    }

    /** The unlinked chunk p serves the request; what is left goes to dv or to the index. */
    method Split(p: Addr, nb: nat, intoDv: bool) returns (ghost z: nat)
      requires ValidBut({p}) && IsFree(L(), p) && p != dv && MIN_CHUNK <= nb <= head[p].size && Aligned(nb)
      requires intoDv ==> IsSmall(dvsize)
      modifies this, bins
      ensures Valid() && Serves(old(L()), L(), nb, p, z) && top == old(top)
      ensures var was := old(head[p].size);
        && Carves(old(L()), L(), nb, p, was)
        && (dv, dvsize) == if intoDv && was >= nb + MIN_CHUNK then (p + nb, was - nb) else (old(dv), old(dvsize))
    {
      ChunkBounds(L(), p);
      var rsize := head[p].size - nb;
      if rsize < MIN_CHUNK {
        z := head[p].size;
        UseWhole(p);
      } else {
        z := nb;
        var r := UseFront(p, nb);
        if intoDv {
          ReplaceDv(r, rsize);
        } else {
          Bin(r, rsize);
        }
      }
    }

    /** The request is served from dv. */
    method UseDv(nb: nat) returns (p: Addr, ghost z: nat)
      requires Valid() && MIN_CHUNK <= nb <= dvsize && Aligned(nb)
      modifies this
      ensures Valid() && p == old(dv) && Serves(old(L()), L(), nb, p, z) && top == old(top)
      ensures Carves(old(L()), L(), nb, p, old(dvsize))
      ensures (dv, dvsize) == Victim(old(dv), old(dvsize), nb, p, old(dvsize))
    {
      var rsize := dvsize - nb;
      p := dv;
      NoChunkAtZero(L());
      FreeIsKnown(L(), p);
      ChunkBounds(L(), p);
      dv, dvsize := 0, 0;
      if rsize >= MIN_CHUNK {
        z := nb;
        var r := UseFront(p, nb);
        dv, dvsize := r, rsize;
      } else {
        z := head[p].size;
        UseWhole(p);
      }
    }

    /** The request is served from top. */
    method UseTop(nb: nat) returns (p: Addr)
      requires Valid() && MIN_CHUNK <= nb < topsize && Aligned(nb)
      modifies this
      ensures Valid() && p == old(top) && Serves(old(L()), L(), nb, p, nb)
      ensures Carves(old(L()), L(), nb, p, 0) && (dv, dvsize) == Victim(old(dv), old(dvsize), nb, p, 0)
    {
      TakeTopSound(L(), nb);
      TakeTopChunks(L(), nb);
      TopIsNoChunk({});
      p := top;
      topsize := topsize - nb;
      starts, prev := starts + {p}, prev[p + nb := p];
      top := p + nb;
      head := head[top := Head(topsize, true, false)][p := Head(nb, true, true)];
      assert L() == TakeTop(old(L()), nb);
    }

    lemma TopIsNoChunk(out: set<Addr>)
      requires ValidBut(out)
      ensures top !in starts && top != dv && top > 0
    {
      NoChunkAtZero(L());
      assert top in starts ==> Placed(L(), top);
    }

    /** The decision of tmalloc_large: the best chunk of the index, unless dv is at least as good. */
    method BestBinned(nb: nat) returns (v: Option<Chunk>)
      requires Valid() && !IsSmall(nb) && nb <= MAX_SIZE
      ensures v.Some? ==> bins.Count(v.value.addr, v.value.size) > 0 && !IsSmall(v.value.size)
      ensures v.Some? ==> Chosen(L(), dv, dvsize, nb, v.value.addr, v.value.size)
      ensures v.None? ==> forall x: Addr, w: nat :: FreeChunk(L(), x, w) && nb <= w ==> nb <= dvsize <= w
    {
      var rsize;
      v, rsize := bins.BestLarge(nb);
      DvBounds();
      if v.None? {
        forall x: Addr, w: nat | FreeChunk(L(), x, w) && nb <= w ensures x == dv && w == dvsize {
          IndexHolds(x, w);
        }
        return;
      }
      IndexFree(v.value.addr, v.value.size);
      forall x: Addr, w: nat | FreeChunk(L(), x, w) && nb <= w && x != dv ensures v.value.size <= w {
        IndexHolds(x, w);
      }
      Decision(L(), dv, dvsize, nb, v.value, rsize);
      if rsize >= Remainder(dvsize, nb) {
        v := None;
      }
    }

    lemma IndexHolds(x: Addr, w: nat)
      requires Valid() && FreeChunk(L(), x, w)
      ensures x != dv ==> bins.Count(x, w) > 0
      ensures x == dv ==> w == dvsize
    {
      NoChunkAtZero(L());
    }

    lemma IndexFree(x: Addr, w: nat)
      requires Valid() && bins.Count(x, w) > 0
      ensures FreeChunk(L(), x, w) && IsFree(L(), x) && x != dv && x != top && bins.Count(x, w) == 1
    {
      FreeIsKnown(L(), x);
    }

    /** tmalloc_large. */
    method TmallocLarge(nb: nat) returns (p: Option<Addr>, ghost z: nat, ghost was: nat)
      requires Valid() && !IsSmall(nb) && nb <= MAX_SIZE && Aligned(nb)
      modifies this, bins
      ensures Valid()
      ensures p.None? ==> L() == old(L()) && dv == old(dv) && dvsize == old(dvsize) && OnlyDv(L(), dv, dvsize, nb)
      ensures p.Some? ==> Serves(old(L()), L(), nb, p.value, z) && p.value != old(top)
      ensures p.Some? ==> Chosen(old(L()), old(dv), old(dvsize), nb, p.value, was)
      ensures p.Some? ==> Carves(old(L()), L(), nb, p.value, was)
      ensures p.Some? ==> (dv, dvsize) == Victim(old(dv), old(dvsize), nb, p.value, was)
    {
      var v := BestBinned(nb);
      z, was := 0, 0;
      if v.None? {
        return None, z, was;
      }
      IndexFree(v.value.addr, v.value.size);
      was := v.value.size;
      UnlinkBinned(v.value.addr, v.value.size, {});
      z := Split(v.value.addr, nb, false);
      return Some(v.value.addr), z, was;
    }

    /** Takes the first chunk out of a small bin. */
    method TakeFirst(i: nat) returns (p: Addr)
      requires Valid() && i < BINS && bins.smallbins[i] != []
      modifies bins
      ensures ValidBut({p}) && IsFree(L(), p) && FreeChunk(L(), p, 8 * i) && p != dv && p != top
    {
      NoChunkAtZero(L());
      p := bins.smallbins[i][0];
      bins.SmallBin(i);
      assert bins.Count(p, 8 * i) > 0;
      IndexFree(p, 8 * i);
      p := bins.UnlinkFirstSmall(i);
    }

    /** When dv is too small and the small bins from the request's up to j are empty, a fit has at least the size of
        bin j. */
    lemma FitsFrom(nb: nat, j: nat)
      requires Valid() && dvsize < nb && Aligned(nb) && nb / 8 <= j <= BINS
      requires forall k :: nb / 8 <= k < j ==> bins.smallbins[k] == []
      ensures forall x: Addr, w: nat :: FreeChunk(L(), x, w) && nb <= w ==> 8 * j <= w && bins.Count(x, w) > 0
    {
      forall x: Addr, w: nat | FreeChunk(L(), x, w) && nb <= w ensures 8 * j <= w && bins.Count(x, w) > 0 {
        IndexHolds(x, w);
        ChunkBounds(L(), x);
        if w < 8 * j {
          bins.SmallBin(w / 8);
        }
      }
    }

    /** tmalloc_small. */
    method TmallocSmall(nb: nat) returns (p: Addr, ghost z: nat, ghost was: nat)
      requires Valid() && IsSmall(nb) && Aligned(nb) && MIN_CHUNK <= nb && dvsize < nb && bins.treemap != 0
      requires forall k :: nb / 8 <= k < BINS ==> bins.smallbins[k] == []
      modifies this, bins
      ensures Valid() && Serves(old(L()), L(), nb, p, z) && p != old(top)
      ensures FreeChunk(old(L()), p, was) && nb <= was && Least(old(L()), nb, was)
      ensures Carves(old(L()), L(), nb, p, was) && (dv, dvsize) == Victim(old(dv), old(dvsize), nb, p, was)
    {
      FitsFrom(nb, BINS);
      var v, rsize := bins.LeastLarge(nb);
      IndexFree(v.addr, v.size);
      p, was := v.addr, v.size;
      UnlinkBinned(v.addr, v.size, {});
      z := Split(v.addr, nb, true);
    }

    /** An empty small bin. */
    lemma NotBinned(i: nat)
      requires Valid() && i < BINS && bins.smallbins[i] == []
      ensures !Binned(L(), dv, 8 * i)
    {
    }

    /** dv is too small: the next small bin that is not empty, or the smallest large chunk. */
    method SmallFromLarger(nb: nat) returns (p: Option<Addr>, ghost z: nat, ghost was: nat)
      requires Valid() && IsSmall(nb) && Aligned(nb) && MIN_CHUNK <= nb && dvsize < nb && bins.smallbins[nb / 8] == []
      modifies this, bins
      ensures Valid()
      ensures p.None? ==> L() == old(L()) && dv == old(dv) && dvsize == old(dvsize)
      ensures p.None? ==> forall x: Addr, w: nat :: FreeChunk(L(), x, w) ==> w < nb
      ensures p.Some? ==> Serves(old(L()), L(), nb, p.value, z) && p.value != old(top)
      ensures p.Some? ==> FreeChunk(old(L()), p.value, was) && nb <= was && Least(old(L()), nb, was)
      ensures p.Some? ==> Carves(old(L()), L(), nb, p.value, was)
      ensures p.Some? ==> (dv, dvsize) == Victim(old(dv), old(dvsize), nb, p.value, was)
    {
      z, was := 0, 0;
      var j := bins.NextSmallBin(nb / 8);
      FitsFrom(nb, if j.Some? then j.value else BINS);
      if j.Some? {
        was := 8 * j.value;
        var q := TakeFirst(j.value);
        z := Split(q, nb, true);
        return Some(q), z, was;
      } else if bins.treemap != 0 {
        var q;
        q, z, was := TmallocSmall(nb);
        return Some(q), z, was;
      }
      forall x: Addr, w: nat | FreeChunk(L(), x, w) ensures w < nb {
        if nb <= w {
          bins.NoTrees(x, w);
        }
      }
      return None, z, was;
    }

    /** A small request: a chunk that leaves no remainder. */
    method Remainderless(nb: nat) returns (p: Option<Addr>, ghost was: nat)
      requires Valid() && IsSmall(nb) && Aligned(nb) && MIN_CHUNK <= nb
      modifies this, bins
      ensures Valid()
      ensures p.None? ==> L() == old(L()) && dv == old(dv) && dvsize == old(dvsize) && bins.smallbins[nb / 8] == []
      ensures p.None? ==> NoExact(L(), dv, nb)
      ensures p.Some? ==> Serves(old(L()), L(), nb, p.value, was) && p.value != old(top)
      ensures p.Some? ==> Chosen(old(L()), old(dv), old(dvsize), nb, p.value, was)
      ensures p.Some? ==> Carves(old(L()), L(), nb, p.value, was)
      ensures p.Some? ==> (dv, dvsize) == Victim(old(dv), old(dvsize), nb, p.value, was)
    {
      var i := FindRemainderless(nb);
      was := 0;
      if i.None? {
        return None, was;
      }
      was := 8 * i.value;
      var q := TakeFirst(i.value);
      ExactChosen(L(), dv, dvsize, nb, q, was);
      UseWhole(q);
      return Some(q), was;
    }

    /** Which of the two bins a small request uses. */
    method FindRemainderless(nb: nat) returns (i: Option<nat>)
      requires Valid() && IsSmall(nb) && Aligned(nb)
      ensures i.None? ==> bins.smallbins[nb / 8] == [] && NoExact(L(), dv, nb)
      ensures i.Some? ==> i.value < BINS && bins.smallbins[i.value] != []
      ensures i.Some? ==> 8 * i.value == nb || (8 * i.value == nb + 8 && !Binned(L(), dv, nb))
    {
      var idx := nb / 8;
      i := bins.RemainderlessBin(idx);
      if bins.smallbins[idx] == [] {
        NotBinned(idx);
      }
      if i.None? && idx + 1 < BINS {
        NotBinned(idx + 1);
      }
    }

    /** A small request up to the point where dv is tried. */
    method SmallRequest(nb: nat) returns (p: Option<Addr>, ghost z: nat, ghost was: nat)
      requires Valid() && IsSmall(nb) && Aligned(nb) && MIN_CHUNK <= nb
      modifies this, bins
      ensures Valid()
      ensures p.None? ==> L() == old(L()) && dv == old(dv) && dvsize == old(dvsize) && OnlyDv(L(), dv, dvsize, nb)
      ensures p.Some? ==> Serves(old(L()), L(), nb, p.value, z) && p.value != old(top)
      ensures p.Some? ==> Chosen(old(L()), old(dv), old(dvsize), nb, p.value, was)
      ensures p.Some? ==> Carves(old(L()), L(), nb, p.value, was)
      ensures p.Some? ==> (dv, dvsize) == Victim(old(dv), old(dvsize), nb, p.value, was)
    {
      p, was := Remainderless(nb);
      z := was;
      if p.None? && nb > dvsize {
        p, z, was := SmallFromLarger(nb);
      }
    }

    /** Heads and foot of the free chunk [q, e), with chunk e in use. */
    method SetFree(q: Addr, e: Addr, ghost out: set<Addr>, ghost gone: set<Addr>)
      requires bins.Valid() && Sound(L()) && Indexed(out)
      requires q in starts && e in starts && q < e && q in head && head[q].pinuse && e in head && head[e].cinuse
      requires Spans(L(), q, e, gone)
      requires forall x :: x in gone ==> x in out || x == dv || x !in starts || (x in head && head[x].cinuse)
      requires out <= gone
      modifies `head, `foot, `starts, `prev
      ensures Sound(L()) && Indexed({q}) && FreeChunk(L(), q, e - q)
      ensures L() == Merge(old(L()), q, e)
      ensures LiveBecomes(old(L()), L(), gone, {}) && FreeBecomes(old(L()), L(), gone, {(q, e - q)})
    {
      MergeSound(L(), q, e);
      MergeChunks(L(), q, e, gone);
      head := head[q := Head(e - q, true, false)][e := head[e].(pinuse := false)];
      foot := foot[e := e - q];
      starts, prev := (set x | x in starts && !(q < x < e)), prev[e := q];
      assert L() == Merge(old(L()), q, e);
    }

    /** The chunks from q on become part of top. */
    method GiveToTop(q: Addr, ghost out: set<Addr>, ghost gone: set<Addr>)
      requires bins.Valid() && Sound(L()) && Indexed(out)
      requires q in starts && q < top && q in head && head[q].pinuse
      requires Spans(L(), q, top, gone)
      requires forall x :: x in gone ==> x in out || x == dv || x !in starts || (x in head && head[x].cinuse)
      requires out <= gone
      modifies `head, `starts, `top, `topsize
      ensures Sound(L()) && Indexed({}) && top == q && top + topsize == old(top + topsize)
      ensures LiveBecomes(old(L()), L(), gone, {}) && FreeBecomes(old(L()), L(), gone, {})
    {
      MergeTopSound(L(), q);
      MergeTopChunks(L(), q, gone);
      topsize := topsize + (top - q);
      top := q;
      head := head[q := Head(topsize, true, false)];
      starts := set x | x in starts && x < q;
      assert L() == MergeTop(old(L()), q);
    }

    /** A live chunk p and, if there is one, the free chunk q before it. */
    ghost predicate Joined(q: Addr, p: Addr)
      reads this
    {
      && p in starts && p in head && head[p].cinuse && q in starts && q in head && head[q].pinuse
      && (q == p || (!head[q].cinuse && End(L(), q) == p))
    }

    /** The second half of free: consolidation with what follows. */
    method FreeForward(q: Addr, next: Addr, ghost p: Addr) returns (ok: bool, ghost e: Addr)
      requires ValidBut({q}) && Joined(q, p) && next == End(L(), p)
      requires q == dv ==> next in head && !head[next].cinuse
      modifies this, bins
      ensures ok && Valid() && LiveBecomes(old(L()), L(), {p}, {}) && top + topsize == old(top + topsize)
      ensures Freed(old(L()), L(), p, q, e)
      ensures (dv, dvsize) == VictimFreed(old(dv), old(dvsize), q, e, top != old(top))
    {
      var psize := next - q;
      e := next;
      NextHead(L(), p);
      SpanBack(L(), q, p);
      TopIsNoChunk({q});
      if !(q < next && head[next].pinuse) {
        return false, e;
      }
      if head[next].cinuse {
        SetFree(q, next, {q}, {q, p});
        OnlyLiveGone(old(L()), L(), {q, p}, p);
        FreedFrom(old(L()), L(), p, q, next, {q, p});
        Bin(q, psize);
      } else if next == top {
        GiveToTop(q, {q}, {q, p});
        OnlyLiveGone(old(L()), L(), {q, p}, p);
        FreedFrom(old(L()), L(), p, q, next, {q, p});
        NoChunkAtZero(L());
        if q == dv {
          dv, dvsize := 0, 0;
        }
      } else {
        e := FreeBetween(q, next, p);
      }
      ok := true;
    }

    /** The chunk after p is free too. */
    method FreeBetween(q: Addr, next: Addr, ghost p: Addr) returns (ghost e: Addr)
      requires ValidBut({q}) && Joined(q, p) && next == End(L(), p) && next in starts && next in head
      requires !head[next].cinuse
      modifies this, bins
      ensures Valid() && LiveBecomes(old(L()), L(), {p}, {}) && top == old(top) && topsize == old(topsize)
      ensures Freed(old(L()), L(), p, q, e) && (dv, dvsize) == VictimFreed(old(dv), old(dvsize), q, e, false)
    {
      NoChunkAtZero(L());
      if next == dv {
        var end := JoinThree(q, next, p, {q});
        e := end;
        assert dvsize != 0 && dv in old(starts);
        dv, dvsize := q, end - q;
      } else {
        UnlinkBinned(next, head[next].size, {q});
        var end := JoinThree(q, next, p, {q} + {next});
        e := end;
        if q == dv {
          dvsize := end - q;
        } else {
          assert dvsize != 0 ==> FreeChunk(old(L()), dv, dvsize) && dv !in {q, p, next};
          Bin(q, end - q);
        }
      }
    }

    /** q, p and next become one free chunk. */
    method JoinThree(q: Addr, next: Addr, ghost p: Addr, ghost out: set<Addr>) returns (e: Addr)
      requires bins.Valid() && Sound(L()) && Indexed(out) && (q == p || q == dv || q in out)
      requires next in out || next == dv
      requires Joined(q, p) && next == End(L(), p) && next in starts && next in head && !head[next].cinuse
      requires out <= {q, p, next}
      modifies `head, `foot, `starts, `prev
      ensures e > q && Sound(L()) && Indexed({q}) && FreeChunk(L(), q, e - q)
      ensures FreeBecomes(old(L()), L(), {q, p, next}, {(q, e - q)}) && LiveBecomes(old(L()), L(), {p}, {})
      ensures Spans(old(L()), q, e, {q, p, next}) && Freed(old(L()), L(), p, q, e)
    {
      ghost var gone := {q, p, next};
      SpanBack(L(), q, p);
      SpanNext(L(), q, next, {q, p});
      assert {q, p} + {next} == gone;
      AfterFree(L(), next);
      e := next + head[next].size;
      SetFree(q, e, out, gone);
      OnlyLiveGone(old(L()), L(), gone, p);
      FreedFrom(old(L()), L(), p, q, e, gone);
    }

    /** dlfree; the result tells whether the checks of the chunk have passed. */
    method Free(mem: Addr) returns (ok: bool, ghost q0: Addr, ghost e: Addr)
      requires Valid() && (mem != 0 ==> mem >= CHUNK_TO_MEM && IsLive(L(), mem - CHUNK_TO_MEM))
      modifies this, bins
      ensures ok && Valid() && top + topsize == old(top + topsize)
      ensures mem == 0 ==> L() == old(L())
      ensures mem != 0 ==> LiveBecomes(old(L()), L(), {mem - CHUNK_TO_MEM}, {})
      ensures mem != 0 ==> Freed(old(L()), L(), mem - CHUNK_TO_MEM, q0, e)
      ensures (dv, dvsize) == if mem == 0 then (old(dv), old(dvsize))
                              else VictimFreed(old(dv), old(dvsize), q0, e, top != old(top))
    {
      q0, e := 0, 0;
      if mem == 0 {
        ok := true;
        return;
      }
      ok, q0, e := FreeLive(mem - CHUNK_TO_MEM);
    }

    /** free of chunk p. */
    method FreeLive(p: Addr) returns (ok: bool, ghost q0: Addr, ghost e: Addr)
      requires Valid() && IsLive(L(), p)
      modifies this, bins
      ensures ok && Valid() && top + topsize == old(top + topsize) && LiveBecomes(old(L()), L(), {p}, {})
      ensures Freed(old(L()), L(), p, q0, e)
      ensures (dv, dvsize) == VictimFreed(old(dv), old(dvsize), q0, e, top != old(top))
    {
      q0, e := p, p;
      ChunkInSegment(L(), p);
      NextHead(L(), p);
      if !(base <= p && (!head[p].pinuse || head[p].cinuse)) {
        return false, q0, e;
      }
      var next := p + head[p].size;
      if head[p].pinuse {
        ok, e := FreeForward(p, next, p);
      } else {
        ok, q0, e := FreeBackward(p, next);
      }
    }

    /** The chunk before p is free. */
    method FreeBackward(p: Addr, next: Addr) returns (ok: bool, ghost q0: Addr, ghost e: Addr)
      requires Valid() && IsLive(L(), p) && !head[p].pinuse && next == End(L(), p)
      modifies this, bins
      ensures ok && Valid() && top + topsize == old(top + topsize) && LiveBecomes(old(L()), L(), {p}, {})
      ensures Freed(old(L()), L(), p, q0, e)
      ensures (dv, dvsize) == VictimFreed(old(dv), old(dvsize), q0, e, top != old(top))
    {
      PrevFree(L(), p);
      NextHead(L(), p);
      var q := p - foot[p];
      q0, e := q, next;
      ChunkInSegment(L(), q);
      if !(base <= q) {
        return false, q0, e;
      }
      if q != dv {
        IndexHolds(q, foot[p]);
        UnlinkBinned(q, foot[p], {});
      } else if head[next].pinuse && head[next].cinuse {
        GrowDv(p, next);
        ok := true;
        return;
      }
      ok, e := FreeForward(q, next, p);
    }

    /** Chunk p lies between dv and a chunk in use. */
    method GrowDv(ghost p: Addr, next: Addr)
      requires Valid() && IsLive(L(), p) && Joined(dv, p) && dv != p && next == End(L(), p)
      requires next in head && head[next].cinuse
      modifies `head, `foot, `starts, `prev, `dvsize
      ensures Valid() && LiveBecomes(old(L()), L(), {p}, {}) && Freed(old(L()), L(), p, dv, next)
      ensures dv < next && dvsize == next - dv && old(dvsize) != 0
    {
      NextHead(L(), p);
      NoChunkAtZero(L());
      SpanBack(L(), dv, p);
      SetFree(dv, next, {}, {dv, p});
      OnlyLiveGone(old(L()), L(), {dv, p}, p);
      FreedFrom(old(L()), L(), p, dv, next, {dv, p});
      dvsize := next - dv;
    }

    /** The request size of malloc: padded, at least a minimal chunk, and the largest number when it is too large. */
    static function RequestSize(bytes: nat): (nb: nat)
      ensures MIN_CHUNK <= nb <= MAX_SIZE
      ensures bytes < MAX_REQUEST ==> Aligned(nb) && bytes + OVERHEAD <= nb
      ensures MIN_REQUEST <= bytes < MAX_REQUEST ==> nb < bytes + OVERHEAD + ALIGN
    {
      if bytes >= MAX_REQUEST then MAX_SIZE
      else if bytes < MIN_REQUEST then MIN_CHUNK
      else PadRequest(bytes)
    }

    /** It is the least aligned size of a chunk that has room for the request. */
    static lemma RequestSizeIsLeast(bytes: nat, m: nat)
      requires bytes < MAX_REQUEST && Aligned(m) && MIN_CHUNK <= m && bytes + OVERHEAD <= m
      ensures RequestSize(bytes) <= m
    {
    }

    /** dlmalloc; 0 means that the segment has no room. */
    method Malloc(bytes: nat) returns (mem: Addr, ghost z: nat, ghost was: nat)
      requires Valid()
      modifies this, bins
      ensures Valid()
      ensures mem == 0 ==> L() == old(L()) && dv == old(dv) && dvsize == old(dvsize)
      ensures mem == 0 <==> NoRoom(old(L()), RequestSize(bytes))
      ensures bytes >= MAX_REQUEST ==> mem == 0
      ensures mem != 0 ==> mem >= CHUNK_TO_MEM && Serves(old(L()), L(), RequestSize(bytes), mem - CHUNK_TO_MEM, z)
      ensures mem != 0 ==>
        if mem - CHUNK_TO_MEM == old(top) then NoFit(old(L()), RequestSize(bytes))
        else Chosen(old(L()), old(dv), old(dvsize), RequestSize(bytes), mem - CHUNK_TO_MEM, was)
      ensures mem != 0 ==> Carves(old(L()), L(), RequestSize(bytes), mem - CHUNK_TO_MEM, was)
      ensures mem != 0 ==>
        (dv, dvsize) == Victim(old(dv), old(dvsize), RequestSize(bytes), mem - CHUNK_TO_MEM, was)
    {
      var nb := RequestSize(bytes);
      var p;
      p, z, was := FromIndex(bytes, nb);
      if p.None? {
        p, z, was := FromDvOrTop(nb);
      }
      mem := if p.Some? then p.value + CHUNK_TO_MEM else 0;
    }

    /** The first part of malloc: what the index offers for the request. */
    method FromIndex(bytes: nat, nb: nat) returns (p: Option<Addr>, ghost z: nat, ghost was: nat)
      requires Valid() && nb == RequestSize(bytes)
      modifies this, bins
      ensures Valid()
      ensures p.None? ==> L() == old(L()) && dv == old(dv) && dvsize == old(dvsize) && OnlyDv(L(), dv, dvsize, nb)
      ensures bytes >= MAX_REQUEST ==> p.None? && NoRoom(L(), nb) && dvsize < nb
      ensures p.Some? ==> Serves(old(L()), L(), nb, p.value, z) && p.value != old(top)
      ensures p.Some? ==> Chosen(old(L()), old(dv), old(dvsize), nb, p.value, was)
      ensures p.Some? ==> Carves(old(L()), L(), nb, p.value, was)
      ensures p.Some? ==> (dv, dvsize) == Victim(old(dv), old(dvsize), nb, p.value, was)
    {
      z, was, p := 0, 0, None;
      if bytes <= MAX_SMALL_REQUEST {
        p, z, was := SmallRequest(nb);
      } else if bytes >= MAX_REQUEST {
        TooLarge(nb);
      } else if bins.treemap != 0 {
        p, z, was := TmallocLarge(nb);
      } else {
        NothingLarge(nb);
      }
    }

    lemma TooLarge(nb: nat)
      requires Valid() && nb == MAX_SIZE
      ensures NoFit(L(), nb) && dvsize < nb && topsize <= nb
    {
      DvBounds();
      forall x: Addr, w: nat | FreeChunk(L(), x, w) ensures w < nb {
        ChunkBounds(L(), x);
      }
    }

    /** The end of malloc, when the index has nothing to offer. */
    method FromDvOrTop(nb: nat) returns (p: Option<Addr>, ghost z: nat, ghost was: nat)
      requires Valid() && MIN_CHUNK <= nb && OnlyDv(L(), dv, dvsize, nb)
      requires Aligned(nb) || (dvsize < nb && topsize <= nb)
      modifies this
      ensures Valid()
      ensures p.None? ==> L() == old(L()) && dv == old(dv) && dvsize == old(dvsize) && NoRoom(L(), nb)
      ensures p.Some? ==> Serves(old(L()), L(), nb, p.value, z) && !NoRoom(old(L()), nb)
      ensures p.Some? && p.value == old(top) ==> NoFit(old(L()), nb)
      ensures p.Some? && p.value != old(top) ==> Chosen(old(L()), old(dv), old(dvsize), nb, p.value, was)
      ensures p.Some? ==> Carves(old(L()), L(), nb, p.value, was)
      ensures p.Some? ==> (dv, dvsize) == Victim(old(dv), old(dvsize), nb, p.value, was)
    {
      z, was := 0, 0;
      if nb <= dvsize {
        var q;
        was := dvsize;
        assert FreeChunk(L(), dv, dvsize);
        q, z := UseDv(nb);
        return Some(q), z, was;
      } else if nb < topsize {
        var q := UseTop(nb);
        return Some(q), nb, 0;
      }
      return None, z, was;
    }

    lemma NothingLarge(nb: nat)
      requires Valid() && !IsSmall(nb) && bins.treemap == 0
      ensures OnlyDv(L(), dv, dvsize, nb)
    {
      forall x: Addr, w: nat | FreeChunk(L(), x, w) && nb <= w ensures x == dv && w == dvsize {
        IndexHolds(x, w);
        bins.NoTrees(x, w);
      }
    }

    lemma DvBounds()
      requires Valid()
      ensures dvsize <= MAX_SIZE
      ensures forall w: nat :: FreeChunk(L(), dv, w) ==> w == dvsize
    {
      NoChunkAtZero(L());
      if dvsize != 0 {
        ChunkBounds(L(), dv);
      }
    }
  }

  /** Layout l' has one more live chunk than l, at p, large enough for the request
      and without room for another chunk. */
  ghost predicate Serves(l: Layout, l': Layout, nb: nat, p: Addr, z: nat) {
    && LiveBecomes(l, l', {}, {(p, z)}) && (forall w: nat :: !LiveChunk(l, p, w))
    && nb <= z < nb + MIN_CHUNK
    && l'.base == l.base && l'.top + l'.topsize == l.top + l.topsize
  }

  /** A free chunk of size was at p is used, and what is left of it, if that is a chunk, is free. */
  ghost predicate Carves(l: Layout, l': Layout, nb: nat, p: Addr, was: nat) {
    FreeBecomes(l, l', {p}, if was >= nb + MIN_CHUNK then {(p + nb, was - nb)} else {})
  }

  /**
    The designated victim after a request of size nb that was served at p, from
    a chunk of size was.  What is left of dv is dv.  A small request that dv is
    too small for makes what it leaves the new dv, and any other leaves dv alone.
   */
  function Victim(dv: Addr, dvsize: nat, nb: nat, p: Addr, was: nat): (Addr, nat) {
    var rest := if was >= nb + MIN_CHUNK then (p + nb, was - nb) else (0, 0);
    if p == dv then rest
    else if IsSmall(nb) && dvsize < nb && rest.1 != 0 then rest
    else (dv, dvsize)
  }

  /** Chunk p has become part of the free chunk [q, e), or of top from q on; no other free chunk has changed. */
  ghost predicate Freed(l: Layout, l': Layout, p: Addr, q: Addr, e: Addr) {
    && p in l.head && q <= p < End(l, p) <= e && (l'.top == l.top || (l'.top == q && e == l.top))
    && forall x: Addr, z: nat :: FreeChunk(l', x, z) <==>
         (FreeChunk(l, x, z) && !(q <= x < e)) || (l'.top == l.top && x == q && z == e - q)
  }

  lemma FreedFrom(l: Layout, l': Layout, p: Addr, q: Addr, e: Addr, gone: set<Addr>)
    requires Spans(l, q, e, gone) && p in l.head && q <= p < End(l, p) <= e
    requires if l'.top == l.top then FreeBecomes(l, l', gone, {(q, e - q)})
             else l'.top == q && e == l.top && FreeBecomes(l, l', gone, {})
    ensures Freed(l, l', p, q, e)
  {
  }

  /** dv after a chunk was freed: the chunk that has swallowed it, nothing if that went to top, or as before. */
  function VictimFreed(dv: Addr, dvsize: nat, q: Addr, e: Addr, toTop: bool): (Addr, nat) {
    if dvsize == 0 || !(q <= dv < e) then (dv, dvsize)
    else if toTop || e <= q then (0, 0)
    else (q, e - q)
  }

  /** Chunk size was is a best fit. */
  ghost predicate Least(l: Layout, nb: nat, was: nat) {
    forall x: Addr, w: nat :: FreeChunk(l, x, w) && nb <= w ==> was <= w
  }

  /** A free chunk of size z is in the index. */
  ghost predicate Binned(l: Layout, dv: Addr, z: nat) {
    exists x: Addr :: x != dv && FreeChunk(l, x, z)
  }

  /**
    Which free chunk serves a request.  Large requests get a best fit, and dv
    in case of a tie.  Small ones prefer a chunk that leaves no remainder, then
    dv, then a best fit.
   */
  ghost predicate Chosen(l: Layout, dv: Addr, dvsize: nat, nb: nat, p: Addr, was: nat) {
    && FreeChunk(l, p, was) && nb <= was
    && if !IsSmall(nb) then Least(l, nb, was) && (was == dvsize ==> p == dv)
       else if Binned(l, dv, nb) then was == nb && p != dv
       else if IsSmall(nb + 8) && Binned(l, dv, nb + 8) then was == nb + 8 && p != dv
       else if nb <= dvsize then p == dv
       else Least(l, nb, was)
  }

  lemma ExactChosen(l: Layout, dv: Addr, dvsize: nat, nb: nat, p: Addr, was: nat)
    requires IsSmall(nb) && FreeChunk(l, p, was) && p != dv && IsSmall(was)
    requires was == nb || (was == nb + 8 && !Binned(l, dv, nb))
    ensures Chosen(l, dv, dvsize, nb, p, was)
  {
  }

  /** The unsigned comparison with what dv would leave: a dv that is too small wraps around. */
  lemma Decision(l: Layout, dv: Addr, dvsize: nat, nb: nat, v: Chunk, rsize: nat)
    requires !IsSmall(nb) && dvsize <= MAX_SIZE && nb <= v.size <= MAX_SIZE && rsize == v.size - nb
    requires FreeChunk(l, v.addr, v.size) && v.addr != dv
    requires forall x: Addr, w: nat :: FreeChunk(l, x, w) && nb <= w && x != dv ==> v.size <= w
    requires forall w: nat :: FreeChunk(l, dv, w) ==> w == dvsize
    ensures rsize < Remainder(dvsize, nb) ==> Chosen(l, dv, dvsize, nb, v.addr, v.size)
    ensures rsize >= Remainder(dvsize, nb) ==> forall x: Addr, w: nat ::
      FreeChunk(l, x, w) && nb <= w ==> nb <= dvsize <= w
  {
  }

  predicate IsLive(l: Layout, p: Addr) {
    p in l.starts && p in l.head && l.head[p].cinuse
  }

  /** No free chunk is large enough. */
  ghost predicate NoFit(l: Layout, nb: nat) {
    forall x: Addr, w: nat :: FreeChunk(l, x, w) ==> w < nb
  }

  /** Neither a free chunk nor top can serve the request; top must not be used up. */
  ghost predicate NoRoom(l: Layout, nb: nat) {
    NoFit(l, nb) && l.topsize <= nb
  }

  /** Nothing in the index that a small request would prefer to dv. */
  ghost predicate NoExact(l: Layout, dv: Addr, nb: nat) {
    !Binned(l, dv, nb) && !(IsSmall(nb + 8) && Binned(l, dv, nb + 8))
  }

  /** The index has nothing to offer: the request goes to dv, or to top if dv is too small. */
  ghost predicate OnlyDv(l: Layout, dv: Addr, dvsize: nat, nb: nat) {
    && (dvsize < nb ==> NoFit(l, nb))
    && (if IsSmall(nb) then NoExact(l, dv, nb) else forall x: Addr, w: nat ::
      FreeChunk(l, x, w) && nb <= w ==> dvsize <= w)
  }
}
