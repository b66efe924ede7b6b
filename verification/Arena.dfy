/** Arena: a growable bump allocator over a linked list of chunks. */
module Arenas {
  const CHUNK_SIZE := 2048
  const MAX_ALLOC_SIZE := 256
  const MAX_ALIGN := 16
  /** Offset of a chunk's memory, and the size of the chunk header with its padding. */
  const HEADER := 16
  const SIZEOF_CHUNK := 48

  function Align(value: nat): nat {
    var rem := value % MAX_ALIGN;
    if rem == 0 then value else value + (MAX_ALIGN - rem)
  }

  lemma AlignMeaning(value: nat)
    ensures Align(value) % 16 == 0 && value <= Align(value) < value + 16
  {
  }

  /** A block obtained from malloc, linked to the one before it. */
  class Chunk {
    const addr: nat
    const size: nat
    const next: Chunk?

    constructor (addr: nat, size: nat, next: Chunk?)
      ensures this.addr == addr && this.size == size && this.next == next
    {
      this.addr, this.size, this.next := addr, size, next;
    }
  }

  datatype Block = Block(addr: nat, size: nat)

  predicate Apart(a: nat, m: nat, b: nat, n: nat) { a + m <= b || b + n <= a }

  /** The block lies in the memory of the chunk. */
  predicate Inside(b: Block, c: Chunk) { c.addr + HEADER <= b.addr && b.addr + b.size <= c.addr + c.size }

  ghost predicate Held(list: seq<Chunk>, b: Block) { exists i :: 0 <= i < |list| && Inside(b, list[i]) }

  ghost predicate Linked(chunks: Chunk?, list: seq<Chunk>) {
    && (chunks == if list == [] then null else list[0])
    && forall i :: 0 <= i < |list| ==> list[i].next == Follower(list, i)
  }

  /** What comes after position `i`. */
  function Follower(list: seq<Chunk>, i: nat): Chunk? { if i + 1 < |list| then list[i + 1] else null }

  /** The owned chunks do not overlap. */
  ghost predicate ChunksOk(list: seq<Chunk>) {
    && (forall i :: 0 <= i < |list| ==> list[i].addr % MAX_ALIGN == 0 && list[i].size >= SIZEOF_CHUNK)
    && (forall i, j :: 0 <= i < j < |list| ==> Apart(list[i].addr, list[i].size, list[j].addr, list[j].size))
  }

  /** Returned blocks are aligned and each lies inside an owned chunk; non-empty ones do not overlap. */
  ghost predicate BlocksOk(list: seq<Chunk>, blocks: seq<Block>) {
    && (forall k :: 0 <= k < |blocks| ==> blocks[k].addr % MAX_ALIGN == 0 && Held(list, blocks[k]))
    && (forall j, k :: 0 <= j < k < |blocks| && blocks[j].size > 0 && blocks[k].size > 0 ==>
          Apart(blocks[j].addr, blocks[j].size, blocks[k].addr, blocks[k].size))
  }

  /** The bump region [cursor, end) is the unused tail of an ordinary chunk. */
  ghost predicate BumpOk(list: seq<Chunk>, blocks: seq<Block>, cursor: nat, end: nat) {
    && cursor % MAX_ALIGN == 0
    && (end == 0 ==> cursor == 0)
    && (end > 0 ==>
          && cursor < end
          && (exists i :: 0 <= i < |list| && list[i].addr + HEADER <= cursor && list[i].addr + list[i].size == end)
          && forall k :: 0 <= k < |blocks| && blocks[k].size > 0 ==>
              Apart(blocks[k].addr, blocks[k].size, cursor, end - cursor))
  }

  /** What malloc promises: aligned memory that no owned chunk overlaps. */
  ghost predicate Fresh(list: seq<Chunk>, mem: nat, size: nat) {
    mem % MAX_ALIGN == 0 && forall i :: 0 <= i < |list| ==> Apart(list[i].addr, list[i].size, mem, size)
  }

  lemma LinkAdded(chunks: Chunk?, list: seq<Chunk>, c: Chunk)
    requires Linked(chunks, list) && c.next == chunks
    ensures Linked(c, [c] + list)
  {
    var more := [c] + list;
    forall i | 0 <= i < |more| ensures more[i].next == Follower(more, i) {
      if i > 0 { assert more[i] == list[i - 1]; }
    }
  }

  lemma ChunkAdded(list: seq<Chunk>, c: Chunk)
    requires ChunksOk(list) && Fresh(list, c.addr, c.size) && c.size >= SIZEOF_CHUNK
    ensures ChunksOk([c] + list)
  {
  }

  lemma OldBlocks(list: seq<Chunk>, blocks: seq<Block>, c: Chunk)
    requires BlocksOk(list, blocks)
    ensures BlocksOk([c] + list, blocks)
  {
    var list' := [c] + list;
    forall k | 0 <= k < |blocks| ensures Held(list', blocks[k]) {
      var i :| 0 <= i < |list| && Inside(blocks[k], list[i]);
      assert Inside(blocks[k], list'[i + 1]);
    }
  }

  /** Nothing handed out so far overlaps a fresh chunk. */
  lemma FreshIsApart(list: seq<Chunk>, blocks: seq<Block>, mem: nat, size: nat)
    requires BlocksOk(list, blocks) && Fresh(list, mem, size)
    ensures forall k :: 0 <= k < |blocks| ==> Apart(blocks[k].addr, blocks[k].size, mem, size)
  {
    forall k | 0 <= k < |blocks| ensures Apart(blocks[k].addr, blocks[k].size, mem, size) {
      var i :| 0 <= i < |list| && Inside(blocks[k], list[i]);
    }
  }

  lemma BlockAdded(list: seq<Chunk>, blocks: seq<Block>, b: Block, i: nat)
    requires BlocksOk(list, blocks) && b.addr % MAX_ALIGN == 0 && i < |list| && Inside(b, list[i])
    requires b.size > 0 ==> forall k :: 0 <= k < |blocks| && blocks[k].size > 0 ==>
            Apart(blocks[k].addr, blocks[k].size, b.addr, b.size)
    ensures BlocksOk(list, blocks + [b])
  {
    assert Held(list, b);
  }

  /** The bump region survives a new chunk and a block elsewhere. */
  lemma BumpKept(list: seq<Chunk>, blocks: seq<Block>, cursor: nat, end: nat, c: Chunk, b: Block)
    requires BumpOk(list, blocks, cursor, end) && Fresh(list, c.addr, c.size) && Inside(b, c)
    ensures BumpOk([c] + list, blocks + [b], cursor, end)
  {
    if end > 0 {
      var i :| 0 <= i < |list| && list[i].addr + HEADER <= cursor && list[i].addr + list[i].size == end;
      assert ([c] + list)[i + 1] == list[i];
      assert Apart(list[i].addr, list[i].size, c.addr, c.size);
    }
  }

  class Arena {
    var cursor: nat
    var end: nat
    var chunks: Chunk?
    /** The owned chunks, newest first, and all blocks handed out. */
    ghost var list: seq<Chunk>
    ghost var blocks: seq<Block>

    ghost predicate Valid()
      reads this
    {
      Linked(chunks, list) && ChunksOk(list) && BlocksOk(list, blocks) && BumpOk(list, blocks, cursor, end)
    }

    constructor ()
      ensures Valid() && list == [] && blocks == []
    {
      cursor, end, chunks, list, blocks := 0, 0, null, [], [];
    }

    /** A new chunk at the head of the list. */
    method Push(mem: nat, size: nat) returns (newChunk: Chunk)
      requires Linked(chunks, list) && ChunksOk(list) && Fresh(list, mem, size) && size >= SIZEOF_CHUNK
      modifies this`chunks, this`list
      ensures Linked(chunks, list) && ChunksOk(list) && list == [newChunk] + old(list)
      ensures newChunk.addr == mem && newChunk.size == size
    {
      newChunk := new Chunk(mem, size, chunks);
      ChunkAdded(list, newChunk);
      LinkAdded(chunks, list, newChunk);
      chunks := newChunk;
      list := [newChunk] + list;
    }

    /** `mem` is what malloc answers if it is called: a large block gets a chunk of its own and leaves the
        bump region alone, anything else starts a new bump region. */
    method DoAllocateSlow(bytes: nat, mem: nat) returns (r: nat)
      requires Valid() && Fresh(list, mem, if bytes > MAX_ALLOC_SIZE then bytes + SIZEOF_CHUNK else CHUNK_SIZE)
      modifies this
      ensures Valid() && blocks == old(blocks) + [Block(r, bytes)]
      ensures |list| == |old(list)| + 1 && list[1..] == old(list)
      ensures r == mem + 16 && list[0].addr == mem && list[0].size == if bytes > 256 then bytes + 48 else 2048
      ensures bytes > 256 ==> cursor == old(cursor) && end == old(end)
      ensures bytes <= 256 ==> end == mem + 2048 && r + bytes <= cursor < r + bytes + 16
    {
      hide ChunksOk, BlocksOk, Fresh, BumpOk, Linked;
      var size := if bytes > MAX_ALLOC_SIZE then bytes + SIZEOF_CHUNK else CHUNK_SIZE;
      FreshIsApart(list, blocks, mem, size);
      MemAligned(list, mem, size);
      var newChunk := Push(mem, size);
      r := mem + HEADER;
      OldBlocks(old(list), blocks, newChunk);
      BlockAdded(list, blocks, Block(r, bytes), 0);
      if bytes > MAX_ALLOC_SIZE {
        BumpKept(old(list), blocks, cursor, end, newChunk, Block(r, bytes));
      } else {
        AlignMeaning(r + bytes);
        cursor, end := Align(r + bytes), mem + CHUNK_SIZE;
        BumpStarted(list, blocks, cursor, end, Block(r, bytes));
      }
      blocks := blocks + [Block(r, bytes)];
    }

    /** Hands out `bytes` bytes: aligned, inside one owned chunk, and apart from every earlier block. */
    method Allocate(bytes: nat, mem: nat) returns (r: nat)
      requires Valid() && Fresh(list, mem, if bytes > MAX_ALLOC_SIZE then bytes + SIZEOF_CHUNK else CHUNK_SIZE)
      modifies this
      ensures Valid() && blocks == old(blocks) + [Block(r, bytes)]
      ensures list == old(list) || (|list| == |old(list)| + 1 && list[1..] == old(list))
      ensures list == old(list) <==> bytes <= 256 && Align(old(cursor) + bytes) < old(end)
      ensures list == old(list) ==> r == old(cursor) && end == old(end) && cursor == Align(old(cursor) + bytes)
      ensures list != old(list) ==> r == mem + 16
      ensures bytes > 256 ==> cursor == old(cursor) && end == old(end)
    {
      hide ChunksOk, BlocksOk, Fresh, BumpOk, Linked;
      var newCursor := Align(cursor + bytes);
      if newCursor >= end || bytes > MAX_ALLOC_SIZE {
        r := DoAllocateSlow(bytes, mem);
        return;
      }
      r := cursor;
      AlignMeaning(cursor + bytes);
      Bumped(list, blocks, cursor, end, bytes, newCursor);
      cursor := newCursor;
      blocks := blocks + [Block(r, bytes)];
    }

    /** The destructor frees every owned chunk exactly once. */
    method Destroy() returns (freed: seq<Chunk>)
      requires Valid()
      ensures freed == list
      ensures forall i, j :: 0 <= i < j < |freed| ==> freed[i] != freed[j]
    {
      freed := [];
      var chunk := chunks;
      ghost var n := 0;
      while chunk != null
        invariant n <= |list| && freed == list[..n] && chunk == if n < |list| then list[n] else null
        decreases |list| - n
      {
        var next := chunk.next;
        assert chunk == list[n] && next == if n + 1 < |list| then list[n + 1] else null;
        freed := freed + [chunk];
        chunk := next;
        n := n + 1;
      }
    }
  }

  lemma MemAligned(list: seq<Chunk>, mem: nat, size: nat)
    requires Fresh(list, mem, size)
    ensures mem % MAX_ALIGN == 0
  {
  }

  lemma BumpStarted(list: seq<Chunk>, blocks: seq<Block>, cursor: nat, end: nat, b: Block)
    requires list != [] && list[0].size == CHUNK_SIZE && end == list[0].addr + CHUNK_SIZE && cursor % MAX_ALIGN == 0
    requires list[0].addr + HEADER <= cursor < end && b.addr + b.size <= cursor
    requires forall k :: 0 <= k < |blocks| ==> Apart(blocks[k].addr, blocks[k].size, list[0].addr, CHUNK_SIZE)
    ensures BumpOk(list, blocks + [b], cursor, end)
  {
  }

  lemma Bumped(list: seq<Chunk>, blocks: seq<Block>, cursor: nat, end: nat, bytes: nat, newCursor: nat)
    requires BumpOk(list, blocks, cursor, end) && BlocksOk(list, blocks)
    requires newCursor % MAX_ALIGN == 0 && cursor + bytes <= newCursor < end
    ensures BumpOk(list, blocks + [Block(cursor, bytes)], newCursor, end)
    ensures BlocksOk(list, blocks + [Block(cursor, bytes)])
  {
    var i :| 0 <= i < |list| && list[i].addr + HEADER <= cursor && list[i].addr + list[i].size == end;
    BlockAdded(list, blocks, Block(cursor, bytes), i);
    hide BlocksOk;
  }
}
