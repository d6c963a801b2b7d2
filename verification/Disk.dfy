/**
  Reading bytes from disks that deliver blocks, and from partitions of them.
 */
module Disk {

  type Byte = b: int | 0 <= b < 256

  /** A disk, with its contents: it has its own driver, or is a partition of another one from a block on. */
  datatype Disk = Disk(size: nat, blocks: nat, data: seq<Byte>, source: Source)

  datatype Source = Driver | Partition(parent: Disk, offset: nat)

  datatype Outcome = Done | Failed | BeyondEnd

  // ---------------------------------------------------------------------
  // Numbers of bytes

  /** The size of n blocks, n * size. */
  function Times(n: nat, size: nat): nat {
    if n == 0 then 0 else Times(n - 1, size) + size
  }

  lemma {:induction false} TimesIsProduct(n: nat, size: nat)
    ensures Times(n, size) == n * size
  {
    if n > 0 {
      TimesIsProduct(n - 1, size);
    }
  }

  lemma {:induction false} TimesSum(a: nat, b: nat, size: nat)
    ensures Times(a + b, size) == Times(a, size) + Times(b, size)
  {
    if b > 0 {
      TimesSum(a, b - 1, size);
    }
  }

  lemma TimesOrder(a: nat, b: nat, size: nat)
    requires size > 0
    ensures a <= b <==> Times(a, size) <= Times(b, size)
    ensures a < b ==> Times(a, size) + size <= Times(b, size)
  {
  }

  /** Quotient and remainder. */
  method DivRem(a: nat, size: nat) returns (q: nat, r: nat)
    requires size > 0
    ensures a == Times(q, size) + r && r < size
  {
    q, r := a / size, a % size;
    TimesIsProduct(q, size);
  }

  // ---------------------------------------------------------------------
  // Disks and their contents

  /** A partition has the block size of its parent. */
  predicate Sane(d: Disk) {
    match d.source
    case Driver => d.size > 0 && |d.data| == Times(d.blocks, d.size)
    case Partition(parent, _) => Sane(parent) && parent.size == d.size
  }

  /** A partition ends inside its parent and has a piece of its contents. */
  predicate Valid(d: Disk) {
    && Sane(d) && |d.data| == Times(d.blocks, d.size)
    && (d.source.Partition? ==>
          var parent, shift := d.source.parent, Times(d.source.offset, d.size);
          Valid(parent) && d.source.offset + d.blocks <= parent.blocks
          && shift + |d.data| <= |parent.data| && d.data == parent.data[shift..shift + |d.data|])
  }

  lemma {:induction false} SaneSize(d: Disk)
    requires Sane(d)
    ensures d.size > 0
  {
    if d.source.Partition? {
      SaneSize(d.source.parent);
    }
  }

  /** The block of the driver's disk where the disk begins. */
  function Route(d: Disk): nat {
    match d.source
    case Driver => 0
    case Partition(parent, offset) => Route(parent) + offset
  }

  lemma Fits(offset: nat, blocks: nat, total: nat, size: nat)
    requires offset + blocks <= total && size > 0
    ensures Times(offset, size) + Times(blocks, size) <= Times(total, size)
  {
  }

  function Min(a: nat, b: nat): nat {
    if a <= b then a else b
  }

  /** add_partition, which does not check the range: the contents go as far as those of the parent. */
  function AddPartition(parent: Disk, lba: nat, blocks: nat): (d: Disk)
    requires Valid(parent)
    ensures Sane(d) && d.size == parent.size && d.blocks == blocks && Route(d) == Route(parent) + lba
    ensures Valid(d) <==> lba + blocks <= parent.blocks
  {
    SaneSize(parent);
    var shift, length := Times(lba, parent.size), Times(blocks, parent.size);
    TimesSum(lba, blocks, parent.size);
    TimesOrder(lba + blocks, parent.blocks, parent.size);
    var total := |parent.data|;
    Disk(parent.size, blocks, parent.data[Min(shift, total)..Min(shift + length, total)], Partition(parent, lba))
  }

  /** The fields of a partition record that matter; both numbers have 32 bits. */
  datatype Record = Record(kind: nat, bootable: nat, startLba: nat, numSects: nat)

  const U32 := 0x1_0000_0000

  predicate WellFormed(r: Record) {
    r.kind < 256 && r.bootable < 256 && r.startLba < U32 && r.numSects < U32
  }

  /** is_valid_partition, which adds the two numbers with 32 bits. */
  predicate IsValidPartition(d: Disk, r: Record) {
    && r.kind != 0 && (r.bootable == 0 || r.bootable == 0x80)
    && r.startLba < d.blocks && (r.startLba + r.numSects) % U32 <= d.blocks
  }

  /** A record that is accepted is a proper partition when its end has 32 bits, and on a disk of that size only then. */
  lemma AcceptedIsInside(d: Disk, r: Record)
    requires Valid(d) && WellFormed(r) && IsValidPartition(d, r)
    ensures r.startLba + r.numSects < U32 ==> Valid(AddPartition(d, r.startLba, r.numSects))
    ensures d.blocks < U32 ==> (Valid(AddPartition(d, r.startLba, r.numSects)) <==> r.startLba + r.numSects < U32)
  {
    var end := r.startLba + r.numSects;
    if end >= U32 {
      assert end % U32 == end - U32;
    }
  }

  /** Without wrap-around the records that are accepted are exactly those of proper partitions that begin inside. */
  lemma AcceptedIff(d: Disk, r: Record)
    requires Valid(d) && WellFormed(r) && r.startLba + r.numSects < U32
    ensures IsValidPartition(d, r) <==>
      && r.kind != 0 && r.bootable in {0, 0x80} && r.startLba < d.blocks
      && Valid(AddPartition(d, r.startLba, r.numSects))
  {
    if IsValidPartition(d, r) {
      AcceptedIsInside(d, r);
    }
  }

  lemma SliceOfSlice(s: seq<Byte>, a: nat, n: nat, offset: nat, count: nat)
    requires a + n <= |s| && offset + count <= n
    ensures s[a..a + n][offset..offset + count] == s[a + offset..a + offset + count]
  {
    var l, r := s[a..a + n][offset..offset + count], s[a + offset..a + offset + count];
    assert |l| == |r|;
    forall i | 0 <= i < count ensures l[i] == r[i] {
      assert l[i] == s[a..a + n][offset + i];
    }
  }

  /** The contents of a partition are those of its parent at the shifted place. */
  lemma ShiftedPiece(d: Disk, offset: nat, count: nat)
    requires Valid(d) && d.source.Partition? && offset + count <= |d.data|
    ensures var parent, shift := d.source.parent, Times(d.source.offset, d.size);
      shift + offset + count <= |parent.data| &&
        d.data[offset..offset + count] == parent.data[shift + offset..shift + offset + count]
  {
    SliceOfSlice(d.source.parent.data, Times(d.source.offset, d.size), |d.data|, offset, count);
  }

  // ---------------------------------------------------------------------
  // Transfers

  /** A block request that a driver has seen, first block and number, and whether it has served it. */
  datatype Request = Request(lba: nat, count: nat, ok: bool)

  /** The request is inside the disk whose driver sees it. */
  predicate Inside(d: Disk, r: Request) {
    match d.source
    case Driver => r.count > 0 && r.lba + r.count <= d.blocks
    case Partition(parent, _) => Inside(parent, r)
  }

  predicate AllInside(d: Disk, requests: seq<Request>) {
    forall i :: 0 <= i < |requests| ==> Inside(d, requests[i])
  }

  predicate Served(requests: seq<Request>) {
    forall i :: 0 <= i < |requests| ==> requests[i].ok
  }

  /** Nothing is requested after a failure. */
  predicate StopsAtFailure(requests: seq<Request>) {
    forall i :: 0 <= i < |requests| - 1 ==> requests[i].ok
  }

  /** The requests are for the blocks from first to end, one after the other. */
  predicate Consecutive(requests: seq<Request>, first: nat, end: nat) {
    if requests == [] then first == end else
    var r := requests[0];
    r.lba == first && r.count > 0 && Consecutive(requests[1..], first + r.count, end)
  }

  lemma {:induction false} ConsecutiveSum(a: seq<Request>, b: seq<Request>, first: nat, middle: nat, end: nat)
    requires Consecutive(a, first, middle) && Consecutive(b, middle, end)
    ensures Consecutive(a + b, first, end)
  {
    if a == [] {
      assert a + b == b;
    } else {
      assert (a + b)[1..] == a[1..] + b;
      ConsecutiveSum(a[1..], b, first + a[0].count, middle, end);
    }
  }

  lemma {:induction false} ConsecutiveRange(requests: seq<Request>, first: nat, end: nat, i: nat)
    requires Consecutive(requests, first, end) && i < |requests|
    ensures requests[i].count > 0 && first <= requests[i].lba && requests[i].lba + requests[i].count <= end
  {
    if i > 0 {
      ConsecutiveRange(requests[1..], first + requests[0].count, end, i - 1);
    } else if |requests| > 1 {
      ConsecutiveRange(requests[1..], first + requests[0].count, end, |requests| - 2);
    }
  }

  /** Blocks of a disk whose partitions are proper are blocks of the driver's disk. */
  lemma {:induction false} RoutedInside(d: Disk, r: Request)
    requires Valid(d) && r.count > 0 && Route(d) <= r.lba && r.lba + r.count <= Route(d) + d.blocks
    ensures Inside(d, r)
  {
    if d.source.Partition? {
      RoutedInside(d.source.parent, r);
    }
  }

  /** The requests of one transfer, from block first of the disk up to end. */
  ghost predicate Sent(d: Disk, requests: seq<Request>, first: nat, end: nat, ok: bool) {
    && Consecutive(requests, Route(d) + first, Route(d) + end) && StopsAtFailure(requests)
    && (ok <==> Served(requests))
  }

  lemma SentSum(d: Disk, a: seq<Request>, b: seq<Request>, first: nat, middle: nat, end: nat, ok: bool)
    requires Sent(d, a, first, middle, true) && Sent(d, b, middle, end, ok)
    ensures Sent(d, a + b, first, end, ok)
  {
    ConsecutiveSum(a, b, Route(d) + first, Route(d) + middle, Route(d) + end);
    if !ok {
      var i :| 0 <= i < |b| && !b[i].ok;
      assert !(a + b)[|a| + i].ok;
    }
  }

  lemma SentInside(d: Disk, requests: seq<Request>, first: nat, end: nat, ok: bool)
    requires Valid(d) && Sent(d, requests, first, end, ok) && end <= d.blocks
    ensures AllInside(d, requests)
  {
    forall i | 0 <= i < |requests| ensures Inside(d, requests[i]) {
      ConsecutiveRange(requests, Route(d) + first, Route(d) + end, i);
      RoutedInside(d, requests[i]);
    }
  }

  /** Nothing has changed but maybe n bytes at the given place. */
  predicate Kept(before: seq<Byte>, after: seq<Byte>, at: nat, n: nat) {
    |after| == |before| && forall i :: 0 <= i < |before| && !(at <= i < at + n) ==> after[i] == before[i]
  }

  /** At the given place there are now these bytes, and nothing else has changed. */
  ghost predicate Copied(before: seq<Byte>, after: seq<Byte>, at: nat, bytes: seq<Byte>) {
    && |after| == |before| && at + |bytes| <= |before|
    && forall i {:trigger CopiedAt(before, after, at, bytes, i)} ::
      0 <= i < |before| ==> CopiedAt(before, after, at, bytes, i)
  }

  predicate CopiedAt(before: seq<Byte>, after: seq<Byte>, at: nat, bytes: seq<Byte>, i: nat)
    requires i < |before| == |after|
  {
    after[i] == if at <= i < at + |bytes| then bytes[i - at] else before[i]
  }

  /** A transfer of n bytes of the disk: all of them if it succeeds, and never anything outside its place. */
  ghost predicate Moved(d: Disk, before: seq<Byte>, after: seq<Byte>, at: nat, from: nat, n: nat, ok: bool) {
    && Kept(before, after, at, n)
    && (Valid(d) ==> from + n <= |d.data| && (ok ==> Copied(before, after, at, d.data[from..from + n])))
  }

  lemma CopiedKeeps(before: seq<Byte>, after: seq<Byte>, at: nat, bytes: seq<Byte>)
    requires Copied(before, after, at, bytes)
    ensures Kept(before, after, at, |bytes|)
  {
    forall i | 0 <= i < |before| && !(at <= i < at + |bytes|) ensures after[i] == before[i] {
      assert CopiedAt(before, after, at, bytes, i);
    }
  }

  /** Two copies one after the other. */
  lemma CopiedTwice(s0: seq<Byte>, s1: seq<Byte>, s2: seq<Byte>, at: nat, data: seq<Byte>, from: nat, n: nat, m: nat)
    requires from + n + m <= |data|
    requires Copied(s0, s1, at, data[from..from + n]) && Copied(s1, s2, at + n, data[from + n..from + n + m])
    ensures Copied(s0, s2, at, data[from..from + n + m])
  {
    var bytes := data[from..from + n + m];
    forall i | 0 <= i < |s0| ensures CopiedAt(s0, s2, at, bytes, i) {
      assert CopiedAt(s0, s1, at, data[from..from + n], i) && CopiedAt(s1, s2, at + n, data[from + n..from + n + m], i);
    }
  }

  /** The copied bytes are where they should be. */
  lemma CopiedIs(before: seq<Byte>, after: seq<Byte>, at: nat, bytes: seq<Byte>)
    requires Copied(before, after, at, bytes)
    ensures after == before[..at] + bytes + before[at + |bytes|..]
  {
    forall i | 0 <= i < |after| ensures after[i] == (before[..at] + bytes + before[at + |bytes|..])[i] {
      assert CopiedAt(before, after, at, bytes, i);
    }
  }

  method Memcpy(buf: array<Byte>, at: nat, bytes: seq<Byte>)
    requires at + |bytes| <= buf.Length
    modifies buf
    ensures Copied(old(buf[..]), buf[..], at, bytes)
  {
    ghost var before := buf[..];
    forall i | 0 <= i < |bytes| {
      buf[at + i] := bytes[i];
    }
    forall i | 0 <= i < |before| ensures CopiedAt(before, buf[..], at, bytes, i) {
    }
  }

  /** Two transfers one after the other. */
  lemma MovedTwice(d: Disk, s0: seq<Byte>, s1: seq<Byte>, s2: seq<Byte>, at: nat, from: nat, n: nat, m: nat, ok: bool)
    requires Moved(d, s0, s1, at, from, n, true) && Moved(d, s1, s2, at + n, from + n, m, ok)
    ensures Moved(d, s0, s2, at, from, n + m, ok)
  {
    if Valid(d) && ok {
      CopiedTwice(s0, s1, s2, at, d.data, from, n, m);
    }
  }

  /** The read operation of a disk's driver, which may fail and then leave anything. */
  method ReadDriver(d: Disk, buf: array<Byte>, at: nat, lba: nat, count: nat, ghost from: nat, ghost length: nat)
      returns (ok: bool)
    requires Sane(d) && d.source.Driver? && at + length <= buf.Length
    requires from == Times(lba, d.size) && length == Times(count, d.size)
    modifies buf
    ensures Kept(old(buf[..]), buf[..], at, length)
    ensures ok && lba + count <= d.blocks ==>
      from + length <= |d.data| && Copied(old(buf[..]), buf[..], at, d.data[from..from + length])
  {
    ok := *;
    var bytes: seq<Byte> := *;
    if ok && lba + count <= d.blocks {
      Fits(lba, count, d.blocks, d.size);
      var start := Times(lba, d.size);
      bytes := d.data[start..start + Times(count, d.size)];
    }
    if |bytes| <= Times(count, d.size) {
      Memcpy(buf, at, bytes);
      CopiedKeeps(old(buf[..]), buf[..], at, bytes);
    }
  }

  /** The read operation of a disk: of the driver or partition_disk_read. */
  method ReadBlocks(d: Disk, buf: array<Byte>, at: nat, lba: nat, count: nat, ghost from: nat, ghost length: nat)
      returns (ok: bool, requests: seq<Request>)
    requires Sane(d) && count > 0 && at + length <= buf.Length
    requires from == Times(lba, d.size) && length == Times(count, d.size)
    modifies buf
    ensures Kept(old(buf[..]), buf[..], at, length)
    ensures lba + count <= d.blocks ==> Moved(d, old(buf[..]), buf[..], at, from, length, ok)
    ensures requests == [Request(Route(d) + lba, count, ok)] && Sent(d, requests, lba, lba + count, ok)
    decreases d
  {
    SaneSize(d);
    if lba + count <= d.blocks {
      Fits(lba, count, d.blocks, d.size);
    }
    match d.source {
      case Driver =>
        ok := ReadDriver(d, buf, at, lba, count, from, length);
        requests := [Request(lba, count, ok)];
      case Partition(parent, offset) =>
        ghost var shift := Times(offset, d.size);
        TimesSum(lba, offset, d.size);
        ok, requests := ReadBlocks(parent, buf, at, lba + offset, count, shift + from, length);
        if Valid(d) && lba + count <= d.blocks {
          ShiftedPiece(d, from, length);
        }
    }
    assert requests[1..] == [];
  }

  /** A transfer through the temporary buffer of one block: count bytes from within the block. */
  method ReadPartial(d: Disk, buf: array<Byte>, at: nat, lba: nat, skip: nat, count: nat, block: array<Byte>,
                     ghost from: nat)
      returns (ok: bool, requests: seq<Request>)
    requires Sane(d) && lba < d.blocks && block.Length == d.size && block != buf
    requires skip + count <= d.size && at + count <= buf.Length && from == Times(lba, d.size) + skip
    modifies buf, block
    ensures Moved(d, old(buf[..]), buf[..], at, from, count, ok)
    ensures Sent(d, requests, lba, lba + 1, ok)
  {
    ghost var size, base := d.size, from - skip;
    assert Times(1, size) == Times(0, size) + size;
    ok, requests := ReadBlocks(d, block, 0, lba, 1, base, size);
    assert buf[..] == old(buf[..]);
    if ok {
      assert block[skip..skip + count] == block[..][skip..skip + count];
      Memcpy(buf, at, block[skip..skip + count]);
      CopiedKeeps(old(buf[..]), buf[..], at, block[skip..skip + count]);
      if Valid(d) {
        CopiedIs(old(block[..]), block[..], 0, d.data[base..base + size]);
        assert block[..] == d.data[base..base + size];
        SliceOfSlice(d.data, base, size, skip, count);
      }
    }
  }

  lemma MovedNothing(d: Disk, s: seq<Byte>, at: nat, from: nat, ok: bool)
    requires at <= |s| && (Valid(d) ==> from <= |d.data|)
    ensures Moved(d, s, s, at, from, 0, ok)
  {
  }

  /** The full blocks, if there are any. */
  method ReadFull(d: Disk, buf: array<Byte>, at: nat, start: nat, full: nat, ghost from: nat, ghost length: nat)
      returns (ok: bool, requests: seq<Request>)
    requires Sane(d) && start + full <= d.blocks && at + length <= buf.Length
    requires from == Times(start, d.size) && length == Times(full, d.size) && from <= Times(d.blocks, d.size)
    modifies buf
    ensures Moved(d, old(buf[..]), buf[..], at, from, length, ok)
    ensures Sent(d, requests, start, start + full, ok) && (full == 0 ==> ok)
  {
    ok, requests := true, [];
    if full > 0 {
      ok, requests := ReadBlocks(d, buf, at, start, full, from, length);
    } else {
      MovedNothing(d, buf[..], at, from, ok);
    }
  }

  /** The bytes after the last full block, if there are any. */
  method ReadTail(d: Disk, buf: array<Byte>, at: nat, start: nat, left: nat, block: array<Byte>, ghost from: nat)
      returns (ok: bool, requests: seq<Request>)
    requires Sane(d) && at + left <= buf.Length && block != buf && left < d.size
    requires left > 0 ==> start < d.blocks && block.Length == d.size
    requires from == Times(start, d.size) && from <= Times(d.blocks, d.size)
    modifies buf, block
    ensures Moved(d, old(buf[..]), buf[..], at, from, left, ok)
    ensures Sent(d, requests, start, if left > 0 then start + 1 else start, ok)
  {
    ok, requests := true, [];
    if left > 0 {
      ok, requests := ReadPartial(d, buf, at, start, 0, left, block, from);
    } else {
      MovedNothing(d, buf[..], at, from, ok);
    }
  }

  /** A transfer that failed has moved none of the bytes behind. */
  lemma MovedLess(d: Disk, before: seq<Byte>, after: seq<Byte>, at: nat, from: nat, n: nat, more: nat)
    requires Moved(d, before, after, at, from, n, false) && (Valid(d) ==> from + n + more <= |d.data|)
    ensures Moved(d, before, after, at, from, n + more, false)
  {
  }

  /** Byte x is in block b. */
  predicate InBlock(x: nat, b: nat, size: nat) {
    Times(b, size) <= x < Times(b, size) + size
  }

  /** The last block before end is that of byte x, or one before it after a failure. */
  predicate EndsWith(x: nat, end: nat, size: nat, ok: bool) {
    end > 0 && Times(end - 1, size) <= x && (ok ==> InBlock(x, end - 1, size))
  }

  /** The transfer from a block boundary on: full blocks, then what is left. */
  method ReadAligned(d: Disk, buf: array<Byte>, at: nat, count: nat, start: nat, block: array<Byte>, ghost from: nat,
                     ghost whole: nat)
      returns (ok: bool, requests: seq<Request>, ghost end: nat)
    requires Sane(d) && from == Times(start, d.size) && from + count <= Times(d.blocks, d.size)
    requires at + count <= buf.Length && block != buf
    requires block.Length == d.size || count == Times(whole, d.size)
    modifies buf, block
    ensures Moved(d, old(buf[..]), buf[..], at, from, count, ok)
    ensures Sent(d, requests, start, end, ok) && end <= d.blocks
    ensures count > 0 ==> start < end && EndsWith(from + (count - 1), end, d.size, ok)
  {
    SaneSize(d);
    var size := d.size;
    var full, left := DivRem(count, size);
    FullBlocks(start, full, left, size, d.blocks);
    if left > 0 {
      NoMultiple(full, left, size, whole);
    }
    var length := Times(full, size);
    end := start + full;
    ok, requests := ReadFull(d, buf, at, start, full, from, length);
    if !ok {
      MovedLess(d, old(buf[..]), buf[..], at, from, length, left);
      AlignedEnd(start, full, left, size, ok);
      return;
    }
    ghost var between := buf[..];
    var more;
    ok, more := ReadTail(d, buf, at + length, start + full, left, block, from + length);
    ghost var middle := end;
    end := if left > 0 then middle + 1 else middle;
    SentSum(d, requests, more, start, middle, end, ok);
    MovedTwice(d, old(buf[..]), between, buf[..], at, from, length, left, ok);
    AlignedEnd(start, full, left, size, ok);
    requests := requests + more;
  }

  /** The last block of a transfer from a block boundary on. */
  lemma AlignedEnd(start: nat, full: nat, left: nat, size: nat, ok: bool)
    requires left < size
    ensures var x, end := Times(start, size) + (Times(full, size) + left - 1), start + full;
      && (full > 0 && left == 0 ==> x >= 0 && EndsWith(x, end, size, ok))
      && (full > 0 ==> x >= 0 && EndsWith(x, end, size, false))
      && (left > 0 ==> x >= 0 && EndsWith(x, end + 1, size, ok))
  {
    TimesSum(start, full, size);
  }

  lemma FullBlocks(start: nat, full: nat, left: nat, size: nat, blocks: nat)
    requires size > 0 && Times(start, size) + Times(full, size) + left <= Times(blocks, size)
    ensures start + full <= blocks && (left > 0 ==> start + full < blocks)
    ensures Times(start + full, size) == Times(start, size) + Times(full, size)
  {
    TimesSum(start, full, size);
    TimesOrder(start + full, blocks, size);
    TimesOrder(blocks, start + full, size);
  }

  lemma NoMultiple(full: nat, left: nat, size: nat, k: nat)
    requires 0 < left < size
    ensures Times(full, size) + left != Times(k, size)
  {
  }

  /** The first, incomplete block: it is the only one, or the transfer goes on behind it. */
  lemma HeadSize(start: nat, skip: nat, end: nat, rest: nat, count: nat, size: nat)
    requires count > 0 && skip < size && rest < size
    requires Times(start, size) + skip + (count - 1) == Times(end, size) + rest
    ensures if start == end then skip + count <= size else start < end && size - skip < count
  {
  }

  /** The partial transfer at the beginning, if it does not start on a block boundary. */
  method ReadHead(d: Disk, buf: array<Byte>, at: nat, count: nat, offset: nat, start: nat, skip: nat,
                  block: array<Byte>)
      returns (ok: bool, requests: seq<Request>, n: nat)
    requires Sane(d) && 0 < count && offset + count <= Times(d.blocks, d.size)
    requires at + count <= buf.Length && block != buf
    requires offset == Times(start, d.size) + skip && skip < d.size && (skip != 0 ==> block.Length == d.size)
    modifies buf, block
    ensures n <= count && (n < count ==> offset + n == Times(if skip != 0 then start + 1 else start, d.size))
    ensures if skip == 0 then n == 0 && ok else n > 0 && InBlock(offset + (n - 1), start, d.size) && start < d.blocks
    ensures Moved(d, old(buf[..]), buf[..], at, offset, n, ok)
    ensures Sent(d, requests, start, if skip != 0 then start + 1 else start, ok)
  {
    if skip == 0 {
      MovedNothing(d, buf[..], at, offset, true);
      return true, [], 0;
    }
    var size := d.size;
    var end, rest := DivRem(offset + (count - 1), size);
    HeadSize(start, skip, end, rest, count, size);
    FullBlocks(start, 0, skip, size, d.blocks);
    n := if start == end then count else size - skip;
    ok, requests := ReadPartial(d, buf, at, start, skip, n, block, offset);
  }

  /** The first block, if it is incomplete, and the transfer from the boundary behind it on. */
  method ReadFrom(d: Disk, buf: array<Byte>, at: nat, count: nat, offset: nat, start: nat, skip: nat,
                  block: array<Byte>, ghost whole: nat)
      returns (ok: bool, requests: seq<Request>, ghost end: nat)
    requires Sane(d) && 0 < count && offset + count <= Times(d.blocks, d.size)
    requires at + count <= buf.Length && block != buf && offset == Times(start, d.size) + skip && skip < d.size
    requires block.Length == d.size || (skip == 0 && count == Times(whole, d.size))
    modifies buf, block
    ensures Moved(d, old(buf[..]), buf[..], at, offset, count, ok)
    ensures Sent(d, requests, start, end, ok) && start < end <= d.blocks
    ensures EndsWith(offset + (count - 1), end, d.size, ok)
  {
    var n;
    ok, requests, n := ReadHead(d, buf, at, count, offset, start, skip, block);
    var next := if skip != 0 then start + 1 else start;
    end := next;
    if !ok {
      MovedLess(d, old(buf[..]), buf[..], at, offset, n, count - n);
    } else if n < count {
      ghost var between := buf[..];
      var more;
      ok, more, end := ReadAligned(d, buf, at + n, count - n, next, block, offset + n, whole);
      SentSum(d, requests, more, start, next, end, ok);
      MovedTwice(d, old(buf[..]), between, buf[..], at, offset, n, count - n, ok);
      requests := requests + more;
    }
  }

  /**
    disk_read into buf at the given place.  The blocks from that of the first
    byte on are requested in order, up to that of the last byte or the first
    failure of the driver.
   */
  method Read(d: Disk, buf: array<Byte>, at: nat, count: nat, offset: nat)
      returns (r: Outcome, requests: seq<Request>, ghost first: nat, ghost end: nat)
    requires Sane(d) && at + count <= buf.Length
    modifies buf
    ensures r == BeyondEnd <==> count > 0 && offset + count > Times(d.blocks, d.size)
    ensures r == Failed <==> !Served(requests)
    ensures Kept(old(buf[..]), buf[..], at, count)
    ensures Valid(d) && r == Done && count > 0 ==>
      offset + count <= |d.data| && Copied(old(buf[..]), buf[..], at, d.data[offset..offset + count])
    ensures Valid(d) ==> AllInside(d, requests)
    ensures if count == 0 || r == BeyondEnd then requests == [] && buf[..] == old(buf[..])
            else && Sent(d, requests, first, end, r == Done) && InBlock(offset, first, d.size)
                 && EndsWith(offset + (count - 1), end, d.size, r == Done) && requests != []
  {
    SaneSize(d);
    requests, first, end := [], 0, 0;
    if count == 0 {
      return Done, requests, first, end;
    }
    var size := d.size;
    if offset + count > Times(d.blocks, size) {
      return BeyondEnd, requests, first, end;
    }
    var start, skip := DivRem(offset, size);
    var whole, odd := DivRem(count, size);
    var block := new Byte[if skip != 0 || odd != 0 then size else 0];
    var ok;
    ok, requests, end := ReadFrom(d, buf, at, count, offset, start, skip, block, whole);
    first := start;
    if Valid(d) {
      SentInside(d, requests, first, end, ok);
    }
    r := if ok then Done else Failed;
  }

  /**
    Reading a partition and reading its parent shifted by the partition's first
    block: when the drivers serve all requests, both deliver the same bytes.
   */
  method ReadShifted(d: Disk, buf: array<Byte>, buf': array<Byte>, count: nat, offset: nat)
      returns (r: Outcome, r': Outcome, requests: seq<Request>, requests': seq<Request>)
    requires Valid(d) && d.source.Partition? && count <= buf.Length && count <= buf'.Length && buf != buf'
    modifies buf, buf'
    ensures r == BeyondEnd <==> count > 0 && offset + count > |d.data|
    ensures r' == BeyondEnd <==>
      count > 0 && Times(d.source.offset, d.size) + offset + count > |d.source.parent.data|
    ensures r != BeyondEnd ==> r' != BeyondEnd
    ensures r != BeyondEnd && Served(requests + requests') ==>
      r == Done && r' == Done && buf[..count] == buf'[..count]
  {
    var shift := Times(d.source.offset, d.size);
    ghost var first, end;
    r, requests, first, end := Read(d, buf, 0, count, offset);
    ghost var bytes := buf[..];
    r', requests', first, end := Read(d.source.parent, buf', 0, count, shift + offset);
    if r != BeyondEnd && count > 0 {
      ShiftedPiece(d, offset, count);
      if Served(requests + requests') {
        ServedBoth(requests, requests');
        CopiedIs(old(buf[..]), bytes, 0, d.data[offset..offset + count]);
        CopiedIs(old(buf'[..]), buf'[..], 0, d.source.parent.data[shift + offset..shift + offset + count]);
      }
    }
  }

  lemma ServedBoth(a: seq<Request>, b: seq<Request>)
    ensures Served(a + b) <==> Served(a) && Served(b)
  {
    forall i | 0 <= i < |a| ensures (a + b)[i] == a[i] {
    }
    forall i | 0 <= i < |b| ensures (a + b)[|a| + i] == b[i] {
    }
  }

  /**
    A record that is accepted although its end wraps around, on any disk of
    more than one and less than 2^32 blocks: a read of one byte of the
    partition asks the driver for the first block behind the disk.
   */
  method ReadWrapped(d: Disk, buf: array<Byte>) returns (requests: seq<Request>)
    requires Valid(d) && d.source.Driver? && 1 < d.blocks < U32 && buf.Length > 0
    modifies buf
    ensures var r := Record(1, 0, 1, U32 - 1);
      WellFormed(r) && IsValidPartition(d, r) && !Valid(AddPartition(d, r.startLba, r.numSects))
    ensures |requests| == 1 && requests[0].lba == d.blocks && !Inside(d, requests[0])
  {
    var part := AddPartition(d, 1, U32 - 1);
    var offset := Times(d.blocks - 1, d.size);
    SaneSize(d);
    TimesOrder(d.blocks - 1, U32 - 1, d.size);
    var r;
    ghost var first, end;
    r, requests, first, end := Read(part, buf, 0, 1, offset);
    assert InBlock(offset, d.blocks - 1, d.size);
    SameBlock(offset, first, d.blocks - 1, d.size);
    ConsecutiveRange(requests, 1 + first, 1 + end, 0);
    TimesOrder(end - 1, first, d.size);
    OneBlock(requests, 1 + first);
  }

  lemma OneBlock(requests: seq<Request>, first: nat)
    requires Consecutive(requests, first, first + 1)
    ensures |requests| == 1 && requests[0].lba == first
  {
    if |requests| > 1 {
      ConsecutiveRange(requests[1..], first + requests[0].count, first + 1, 0);
    }
  }

  lemma SameBlock(x: nat, a: nat, b: nat, size: nat)
    requires size > 0 && InBlock(x, a, size) && InBlock(x, b, size)
    ensures a == b
  {
    TimesOrder(a, b, size);
    TimesOrder(b, a, size);
  }
}
