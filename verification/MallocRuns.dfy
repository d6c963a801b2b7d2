/**
  What the users of malloc and free see over whole runs.
 */
module MallocRuns {
  import opened MallocSizes
  import opened MallocTrie
  import opened MallocLayout
  import opened Malloc

  datatype Op = Allocate(bytes: nat) | Release(mem: Addr)

  /** Blocks of user memory by address, with their length. */
  type Blocks = map<Addr, nat>

  /** The block lies in the live chunk that it was cut from: a head and the chunk's own foot before it. */
  predicate InChunk(l: Layout, mem: Addr, bytes: nat) {
    mem >= CHUNK_TO_MEM && IsLive(l, mem - CHUNK_TO_MEM) && bytes + OVERHEAD <= l.head[mem - CHUNK_TO_MEM].size
  }

  /** The live chunks are exactly those of the blocks. */
  ghost predicate Backed(l: Layout, blocks: Blocks) {
    && (forall mem :: mem in blocks ==> InChunk(l, mem, blocks[mem]))
    && (forall x: Addr, z: nat :: LiveChunk(l, x, z) ==> x + CHUNK_TO_MEM in blocks)
  }

  predicate Disjoint(x: Addr, n: nat, y: Addr, m: nat) {
    x + n <= y || y + m <= x
  }

  /** Blocks overlap neither each other nor the head word of any chunk. */
  lemma BlocksApart(l: Layout, mem: Addr, bytes: nat, other: Addr, more: nat)
    requires Sound(l) && InChunk(l, mem, bytes) && InChunk(l, other, more) && mem != other
    ensures Disjoint(mem, bytes, other, more)
    ensures l.base < mem && mem + bytes <= l.top + 8
  {
    var x, y := mem - CHUNK_TO_MEM, other - CHUNK_TO_MEM;
    ChunksApart(l, x, l.head[x].size, y, l.head[y].size);
  }

  lemma BlockApartFromHead(l: Layout, mem: Addr, bytes: nat, x: Addr)
    requires Sound(l) && InChunk(l, mem, bytes) && l.Heads(x)
    ensures Disjoint(mem, bytes, x + 8, 8)
  {
    var p := mem - CHUNK_TO_MEM;
    assert Placed(l, p) && (x in l.starts ==> Apart(l, p, x) && Apart(l, x, p) && Placed(l, x));
  }

  lemma Allocated(l: Layout, l': Layout, blocks: Blocks, bytes: nat, mem: Addr, p: Addr, z: nat)
    requires Backed(l, blocks) && mem == p + CHUNK_TO_MEM && bytes + OVERHEAD <= z
    requires LiveBecomes(l, l', {}, {(p, z)}) && forall w: nat :: !LiveChunk(l, p, w)
    ensures mem !in blocks && Backed(l', blocks[mem := bytes])
  {
    assert LiveChunk(l', p, z);
    assert p in l.head ==> !LiveChunk(l, p, l.head[p].size);
    forall m | m in blocks && m != mem ensures InChunk(l', m, blocks[m]) {
      assert InChunk(l, m, blocks[m]);
      assert LiveChunk(l, m - CHUNK_TO_MEM, l.head[m - CHUNK_TO_MEM].size);
      assert LiveChunk(l', m - CHUNK_TO_MEM, l.head[m - CHUNK_TO_MEM].size);
    }
  }

  lemma Released(l: Layout, l': Layout, blocks: Blocks, mem: Addr)
    requires Backed(l, blocks) && mem in blocks && mem >= CHUNK_TO_MEM && LiveBecomes(l, l', {mem - CHUNK_TO_MEM}, {})
    ensures Backed(l', blocks - {mem})
  {
    forall m | m in blocks && m != mem ensures InChunk(l', m, blocks[m]) {
      assert InChunk(l, m, blocks[m]);
      assert LiveChunk(l, m - CHUNK_TO_MEM, l.head[m - CHUNK_TO_MEM].size);
      assert LiveChunk(l', m - CHUNK_TO_MEM, l.head[m - CHUNK_TO_MEM].size);
    }
  }

  /** The blocks after one operation. */
  function After(blocks: Blocks, op: Op, answer: Addr): Blocks {
    match op
    case Allocate(bytes) => if answer == 0 then blocks else blocks[answer := bytes]
    case Release(mem) => blocks - {mem}
  }

  /** The blocks that a run leaves behind when the allocator answers with the given addresses. */
  function Outstanding(ops: seq<Op>, answers: seq<Addr>): (blocks: Blocks)
    requires |ops| == |answers|
  {
    if ops == [] then map[] else
    var k := |ops| - 1;
    After(Outstanding(ops[..k], answers[..k]), ops[k], answers[k])
  }

  /** A block that is none of the given ones and overlaps none of them. */
  predicate Unused(blocks: Blocks, mem: Addr, bytes: nat) {
    mem !in blocks && forall other :: other in blocks ==> Disjoint(mem, bytes, other, blocks[other])
  }

  /** A request is answered with memory that was in no block at that time. */
  predicate AnsweredApart(ops: seq<Op>, answers: seq<Addr>, i: nat)
    requires i < |ops| == |answers|
  {
    ops[i].Allocate? && answers[i] != 0 ==> Unused(Outstanding(ops[..i], answers[..i]), answers[i], ops[i].bytes)
  }

  predicate AllApart(ops: seq<Op>, answers: seq<Addr>)
    requires |ops| == |answers|
  {
    forall i :: 0 <= i < |ops| ==> AnsweredApart(ops, answers, i)
  }

  lemma AnsweredStep(ops: seq<Op>, answers: seq<Addr>, op: Op, answer: Addr)
    requires |ops| == |answers| && AllApart(ops, answers)
    requires op.Allocate? && answer != 0 ==> Unused(Outstanding(ops, answers), answer, op.bytes)
    ensures AllApart(ops + [op], answers + [answer])
  {
    var ops', answers' := ops + [op], answers + [answer];
    forall j | 0 <= j < |ops'| ensures AnsweredApart(ops', answers', j) {
      assert ops'[..j] == ops[..j] && answers'[..j] == answers[..j];
      assert ops[..|ops|] == ops && answers[..|ops|] == answers;
      assert j < |ops| ==> AnsweredApart(ops, answers, j);
    }
  }

  lemma NewIsUnused(l: Layout, blocks: Blocks, mem: Addr, bytes: nat)
    requires Sound(l) && mem !in blocks && Backed(l, blocks[mem := bytes])
    ensures Unused(blocks, mem, bytes)
  {
    var all := blocks[mem := bytes];
    forall other | other in blocks ensures Disjoint(mem, bytes, other, blocks[other]) {
      assert all[other] == blocks[other];
      BlocksApart(l, mem, all[mem], other, all[other]);
    }
  }

  /** The chunk of a block is live. */
  predicate IsBlock(l: Layout, mem: Addr) {
    mem >= CHUNK_TO_MEM && IsLive(l, mem - CHUNK_TO_MEM)
  }

  /** Chunk p becomes live for the request. */
  ghost predicate Taken(l: Layout, l': Layout, nb: nat, p: Addr) {
    exists z :: Serves(l, l', nb, p, z)
  }

  /** What a request or release does to the memory: a request fails exactly when there is no room. */
  ghost predicate Turn(l: Layout, op: Op, answer: Addr, l': Layout) {
    match op
    case Allocate(bytes) =>
      var nb := Heap.RequestSize(bytes);
      if NoRoom(l, nb) then answer == 0 && l' == l
      else answer >= CHUNK_TO_MEM && Taken(l, l', nb, answer - CHUNK_TO_MEM)
    case Release(mem) => if IsBlock(l, mem) then LiveBecomes(l, l', {mem - CHUNK_TO_MEM}, {}) else l' == l
  }

  /** The memory before and after each operation of a run. */
  ghost predicate Turns(layouts: seq<Layout>, ops: seq<Op>, answers: seq<Addr>) {
    |layouts| == |ops| + 1 && |answers| == |ops| &&
    forall i :: 0 <= i < |ops| ==> Turn(layouts[i], ops[i], answers[i], layouts[i + 1])
  }

  lemma TurnsStep(layouts: seq<Layout>, ops: seq<Op>, answers: seq<Addr>, op: Op, answer: Addr, l: Layout)
    requires Turns(layouts, ops, answers) && Turn(layouts[|ops|], op, answer, l)
    ensures Turns(layouts + [l], ops + [op], answers + [answer])
  {
  }

  lemma BlockIsLive(l: Layout, blocks: Blocks, mem: Addr)
    requires Backed(l, blocks)
    ensures IsBlock(l, mem) <==> mem in blocks
  {
    if IsBlock(l, mem) {
      assert LiveChunk(l, mem - CHUNK_TO_MEM, l.head[mem - CHUNK_TO_MEM].size);
    }
    if mem in blocks {
      assert InChunk(l, mem, blocks[mem]);
    }
  }

  /** One request or release. */
  method Step(h: Heap, op: Op, ghost blocks: Blocks, live: set<Addr>) returns (answer: Addr)
    requires h.Valid() && Backed(h.L(), blocks) && live == blocks.Keys
    modifies h, h.bins
    ensures h.Valid() && h.top + h.topsize == old(h.top + h.topsize)
    ensures Backed(h.L(), After(blocks, op, answer))
    ensures op.Allocate? && answer != 0 ==> Unused(blocks, answer, op.bytes)
    ensures Turn(old(h.L()), op, answer, h.L())
  {
    ghost var l := h.L();
    answer := 0;
    match op {
      case Allocate(bytes) =>
        ghost var z, was;
        answer, z, was := h.Malloc(bytes);
        if answer != 0 {
          Allocated(l, h.L(), blocks, bytes, answer, answer - CHUNK_TO_MEM, z);
          NewIsUnused(h.L(), blocks, answer, bytes);
        }
      case Release(mem) =>
        BlockIsLive(l, blocks, mem);
        if mem in live {
          assert InChunk(l, mem, blocks[mem]);
          var ok;
          ghost var q, e;
          ok, q, e := h.Free(mem);
          Released(l, h.L(), blocks, mem);
        } else {
          assert blocks - {mem} == blocks;
        }
    }
  }

  /** What holds after part of a run. */
  ghost predicate Going(l: Layout, ops: seq<Op>, answers: seq<Addr>, live: set<Addr>, layouts: seq<Layout>) {
    && |ops| == |answers| && AllApart(ops, answers) && Turns(layouts, ops, answers) && layouts[|ops|] == l
    && live == Outstanding(ops, answers).Keys && Backed(l, Outstanding(ops, answers))
  }

  /** The next operation of a run. */
  method Advance(h: Heap, ghost ops: seq<Op>, ghost answers: seq<Addr>, op: Op, live: set<Addr>,
                 ghost layouts: seq<Layout>)
      returns (answer: Addr, live': set<Addr>)
    requires h.Valid() && Going(h.L(), ops, answers, live, layouts)
    modifies h, h.bins
    ensures h.Valid() && h.top + h.topsize == old(h.top + h.topsize)
    ensures Going(h.L(), ops + [op], answers + [answer], live', layouts + [h.L()])
  {
    ghost var blocks := Outstanding(ops, answers);
    answer := Step(h, op, blocks, live);
    live' := live;
    match op {
      case Allocate(_) => if answer != 0 { live' := live + {answer}; }
      case Release(mem) => live' := live - {mem};
    }
    AnsweredStep(ops, answers, op, answer);
    TurnsStep(layouts, ops, answers, op, answer, h.L());
    OutstandingStep(ops, answers, op, answer);
  }

  lemma OutstandingStep(ops: seq<Op>, answers: seq<Addr>, op: Op, answer: Addr)
    requires |ops| == |answers|
    ensures Outstanding(ops + [op], answers + [answer]) == After(Outstanding(ops, answers), op, answer)
  {
    assert (ops + [op])[..|ops|] == ops && (answers + [answer])[..|ops|] == answers;
  }

  /** Any sequence of requests and releases; a release of something that is no block is skipped. */
  method Run(h: Heap, ops: seq<Op>) returns (answers: seq<Addr>, ghost layouts: seq<Layout>)
    requires h.Valid() && h.starts == {}
    modifies h, h.bins
    ensures h.Valid() && |answers| == |ops| && Backed(h.L(), Outstanding(ops, answers))
    ensures Turns(layouts, ops, answers) && layouts[0] == old(h.L()) && layouts[|ops|] == h.L()
    ensures AllApart(ops, answers)
    ensures h.top + h.topsize == old(h.top + h.topsize)
    ensures Outstanding(ops, answers) == map[] ==> h.top == h.base && h.topsize == old(h.topsize)
  {
    var live: set<Addr> := {};
    answers, layouts := [], [h.L()];
    var i := 0;
    AllFreeIsTop(h.L());
    while i < |ops|
      invariant 0 <= i <= |ops| && |answers| == i
      invariant h.Valid() && h.top + h.topsize == old(h.top + h.topsize)
      invariant Going(h.L(), ops[..i], answers, live, layouts) && layouts[0] == old(h.L())
    {
      var answer;
      answer, live := Advance(h, ops[..i], answers, ops[i], live, layouts);
      answers, layouts := answers + [answer], layouts + [h.L()];
      assert ops[..i + 1] == ops[..i] + [ops[i]];
      i := i + 1;
    }
    assert ops[..i] == ops;
    AllFreeIsTop(h.L());
  }
}
