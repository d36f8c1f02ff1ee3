/** The pooled allocator of nanoflann: chunks are cut from large blocks, blocks are chained
    through their first word and given back all at once. */
module PooledAllocation {
  import opened Wrappers

  const WORDSIZE: nat := 16
  const BLOCKSIZE: nat := 8192
  const POINTERSIZE: nat := 8
  const SIZE_LIMIT: nat := 0x1_0000_0000_0000_0000

  /** A piece of memory: an address and a length. */
  datatype Piece = Piece(addr: nat, size: nat)

  /** A chunk handed out, and the number of the block it was cut from. */
  datatype Chunk = Chunk(piece: Piece, block: nat)

  predicate Apart(a: Piece, b: Piece) {
    a.addr + a.size <= b.addr || b.addr + b.size <= a.addr
  }

  predicate HoldsByte(p: Piece, x: nat) {
    p.addr <= x < p.addr + p.size
  }

  /** Pieces are apart exactly if no byte belongs to both. */
  lemma ApartMeaning(a: Piece, b: Piece)
    requires a.size > 0 && b.size > 0
    ensures Apart(a, b) <==> forall x: nat :: HoldsByte(a, x) ==> !HoldsByte(b, x)
  {
    if !Apart(a, b) {
      assert HoldsByte(a, a.addr) && HoldsByte(b, b.addr);
    }
  }

  /** Addition of size_t values. */
  function Plus(a: nat, b: nat): nat {
    (a + b) % SIZE_LIMIT
  }

  /** (req + (WORDSIZE-1)) & ~(WORDSIZE-1): clearing the low four bits. */
  function ChunkSize(req: nat): nat {
    Plus(req, WORDSIZE - 1) / WORDSIZE * WORDSIZE
  }

  /** What is asked of the system for a chunk that does not fit. */
  function BlockSize(size: nat): nat {
    var whole := Plus(Plus(size, POINTERSIZE), WORDSIZE - 1);
    if whole > BLOCKSIZE then whole else BLOCKSIZE
  }

  /** The block holds the chunk behind the link to the previous block. */
  predicate BlockHolds(size: nat) {
    BlockSize(size) >= size + POINTERSIZE
  }

  /** The chunk covers the request and its block holds the chunk. */
  predicate Covers(req: nat) {
    ChunkSize(req) >= req && BlockHolds(ChunkSize(req))
  }

  lemma RoundedUp(req: nat)
    requires req + WORDSIZE - 1 < SIZE_LIMIT
    ensures req <= ChunkSize(req) < req + WORDSIZE && ChunkSize(req) % WORDSIZE == 0
  {
    assert Plus(req, WORDSIZE - 1) == req + WORDSIZE - 1;
  }

  lemma RoundingWraps(req: nat)
    requires req < SIZE_LIMIT <= req + WORDSIZE - 1
    ensures ChunkSize(req) == 0
  {
    assert Plus(req, WORDSIZE - 1) == req + WORDSIZE - 1 - SIZE_LIMIT;
  }

  lemma BlockWraps(size: nat)
    requires size < SIZE_LIMIT && size % WORDSIZE == 0
    ensures BlockHolds(size) <==> size <= SIZE_LIMIT - 32
  {
    if size <= SIZE_LIMIT - 32 {
      assert Plus(Plus(size, POINTERSIZE), WORDSIZE - 1) == size + 23;
    } else {
      assert size == SIZE_LIMIT - 16;
      assert Plus(Plus(size, POINTERSIZE), WORDSIZE - 1) == 7;
    }
  }

  /** That holds for all requests but those so near the end of the address range that the
      arithmetic wraps; a chunk is then the request rounded up to a multiple of WORDSIZE. */
  lemma CoversUnlessWrapped(req: nat)
    requires req < SIZE_LIMIT
    ensures ChunkSize(req) % WORDSIZE == 0
    ensures Covers(req) <==> req <= SIZE_LIMIT - 32
    ensures Covers(req) ==> req <= ChunkSize(req) < req + WORDSIZE
  {
    hide ChunkSize, BlockHolds;
    if req + WORDSIZE - 1 < SIZE_LIMIT {
      RoundedUp(req);
      BlockWraps(ChunkSize(req));
    } else {
      RoundingWraps(req);
    }
  }

  /** As long as nothing wraps, a block is 8192 bytes, or 23 more than the chunk if that is more. */
  lemma BlockSizeMeaning(size: nat)
    requires size <= SIZE_LIMIT - 32
    ensures BlockSize(size) == if size <= 8169 then 8192 else size + 23
  {
    assert Plus(Plus(size, POINTERSIZE), WORDSIZE - 1) == size + 23;
  }

  /** The largest request wraps around to a chunk of no bytes. */
  lemma LargestRequestWraps()
    ensures ChunkSize(0xffff_ffff_ffff_ffff) == 0 && !Covers(0xffff_ffff_ffff_ffff)
  {
    RoundingWraps(0xffff_ffff_ffff_ffff);
  }

  function TotalSize(blocks: seq<Piece>): nat {
    if |blocks| == 0 then 0 else TotalSize(blocks[..|blocks| - 1]) + blocks[|blocks| - 1].size
  }

  /** Addresses, newest block first: the order in which free_all meets them. */
  function NewestFirst(blocks: seq<Piece>): (a: seq<nat>)
    ensures |a| == |blocks|
    ensures forall i :: 0 <= i < |a| ==> a[i] == blocks[|blocks| - 1 - i].addr
  {
    seq(|blocks|, i requires 0 <= i < |blocks| => blocks[|blocks| - 1 - i].addr)
  }

  /** Every two pieces are apart. */
  ghost predicate AllApart(pieces: seq<Piece>) {
    forall i, j :: 0 <= i < j < |pieces| ==> Apart(pieces[i], pieces[j])
  }

  /** No two chunks overlap. */
  ghost predicate ChunksApart(chunks: seq<Chunk>) {
    forall i, j :: 0 <= i < j < |chunks| ==> Apart(chunks[i].piece, chunks[j].piece)
  }

  /** The chunk lies in its block, behind the word that links the block to the previous one. */
  ghost predicate InBlock(c: Chunk, blocks: seq<Piece>) {
    c.block < |blocks| &&
    var b := blocks[c.block];
    b.addr + POINTERSIZE <= c.piece.addr && c.piece.addr + c.piece.size <= b.addr + b.size
    && (c.piece.addr - b.addr) % WORDSIZE == POINTERSIZE
  }

  /** The chain of blocks: `base` is the newest, and the first word of each holds the address of
      the one before it. */
  ghost predicate ChainOf(base: Option<nat>, headers: map<nat, Option<nat>>, blocks: seq<Piece>)
    decreases |blocks|
  {
    if |blocks| == 0 then base == None && headers == map[]
    else
      var newest := blocks[|blocks| - 1].addr;
      && base == Some(newest) && newest in headers
      && ChainOf(headers[newest], headers - {newest}, blocks[..|blocks| - 1])
  }

  ghost predicate BlocksApart(blocks: seq<Piece>) {
    AllApart(blocks) && forall i :: 0 <= i < |blocks| ==> blocks[i].size >= BLOCKSIZE
  }

  lemma {:induction false} NotYetChained(base: Option<nat>, headers: map<nat, Option<nat>>, blocks: seq<Piece>,
                                         b: Piece)
    requires ChainOf(base, headers, blocks) && BlocksApart(blocks) && b.size > 0
    requires forall i :: 0 <= i < |blocks| ==> Apart(blocks[i], b)
    ensures b.addr !in headers
    decreases |blocks|
  {
    if |blocks| > 0 {
      var n := |blocks| - 1;
      NotYetChained(headers[blocks[n].addr], headers - {blocks[n].addr}, blocks[..n], b);
      assert Apart(blocks[n], b);
    }
  }

  lemma ChainGrows(base: Option<nat>, headers: map<nat, Option<nat>>, blocks: seq<Piece>, b: Piece)
    requires ChainOf(base, headers, blocks) && b.addr !in headers
    ensures ChainOf(Some(b.addr), headers[b.addr := base], blocks + [b])
  {
    var headers', blocks' := headers[b.addr := base], blocks + [b];
    assert headers' - {b.addr} == headers;
    assert blocks'[..|blocks'| - 1] == blocks;
  }

  /** The chunks: apart from each other, inside their blocks, and below the free part of the newest. */
  ghost predicate ChunksOf(chunks: seq<Chunk>, blocks: seq<Piece>, loc: nat) {
    && ChunksApart(chunks)
    && (forall i :: 0 <= i < |chunks| ==> InBlock(chunks[i], blocks))
    && (forall i :: 0 <= i < |chunks| && chunks[i].block == |blocks| - 1 ==>
          chunks[i].piece.addr + chunks[i].piece.size <= loc)
  }

  /** Room for `remaining` bytes from `loc` to the end of the newest block. */
  ghost predicate FreePart(blocks: seq<Piece>, loc: nat, remaining: nat) {
    |blocks| > 0 &&
    var b := blocks[|blocks| - 1];
    b.addr + POINTERSIZE <= loc && loc + remaining == b.addr + b.size && (loc - b.addr) % WORDSIZE == POINTERSIZE
  }

  lemma ChunksKept(chunks: seq<Chunk>, blocks: seq<Piece>, loc: nat, b: Piece, loc': nat)
    requires ChunksOf(chunks, blocks, loc)
    ensures ChunksOf(chunks, blocks + [b], loc')
  {
  }

  lemma ChunkCut(chunks: seq<Chunk>, blocks: seq<Piece>, loc: nat, remaining: nat, size: nat)
    requires ChunksOf(chunks, blocks, loc) && BlocksApart(blocks) && FreePart(blocks, loc, remaining)
    requires size <= remaining && size % WORDSIZE == 0
    ensures ChunksOf(chunks + [Chunk(Piece(loc, size), |blocks| - 1)], blocks, loc + size)
    ensures FreePart(blocks, loc + size, remaining - size)
  {
  }

  class PooledAllocator {
    var remaining: nat
    var base: Option<nat>
    var loc: nat
    var usedMemory: nat
    var wastedMemory: nat
    /** The first word of every block that is not freed. */
    var headers: map<nat, Option<nat>>
    ghost var blocks: seq<Piece>
    ghost var chunks: seq<Chunk>

    ghost predicate Valid()
      reads this
    {
      && ChainOf(base, headers, blocks)
      && BlocksApart(blocks)
      && ChunksOf(chunks, blocks, loc)
      && (if |blocks| == 0 then remaining == 0 else FreePart(blocks, loc, remaining))
    }

    /** Bytes the counters account for beyond those in the blocks: zero unless an allocation failed. */
    ghost function Surplus(): int
      reads this
    {
      usedMemory + wastedMemory + remaining + POINTERSIZE * |blocks| - TotalSize(blocks)
    }

    /** internal_init */
    constructor ()
      ensures Valid() && blocks == [] && chunks == [] && Surplus() == 0
      ensures usedMemory == 0 && wastedMemory == 0
    {
      remaining := 0;
      base := None;
      loc := *;
      usedMemory := 0;
      wastedMemory := 0;
      headers := map[];
      blocks := [];
      chunks := [];
    }

    /** malloc. `system` is what ::malloc answers if it is called: null, or the address of a
        block that overlaps no other one. A request that rounds to nothing gets the current
        location, wherever that is, and changes nothing. */
    method Malloc(reqSize: nat, system: Option<nat>) returns (p: Option<nat>)
      requires Valid()
      requires reqSize < SIZE_LIMIT && BlockHolds(ChunkSize(reqSize))
      requires system.Some? ==>
                 forall i :: 0 <= i < |blocks| ==> Apart(blocks[i], Piece(system.value, BlockSize(ChunkSize(reqSize))))
      modifies this
      ensures Valid()
      ensures p.None? <==> ChunkSize(reqSize) > old(remaining) && system.None?
      ensures p.Some? && ChunkSize(reqSize) > 0 ==>
                && |blocks| > 0
                && chunks == old(chunks) + [Chunk(Piece(p.value, ChunkSize(reqSize)), |blocks| - 1)]
                && usedMemory == old(usedMemory) + ChunkSize(reqSize)
                && Surplus() == old(Surplus())
                && blocks == if ChunkSize(reqSize) > old(remaining)
                             then old(blocks) + [Piece(system.value, BlockSize(ChunkSize(reqSize)))] else old(blocks)
      ensures ChunkSize(reqSize) == 0 ==>
                && p == Some(old(loc)) && chunks == old(chunks) && blocks == old(blocks)
                && usedMemory == old(usedMemory) && Surplus() == old(Surplus()) && remaining == old(remaining)
      ensures p.None? ==>
                && chunks == old(chunks) && blocks == old(blocks) && usedMemory == old(usedMemory)
                && Surplus() == old(Surplus()) + remaining && remaining == old(remaining)
    {
      CoversUnlessWrapped(reqSize);
      hide ChunkSize, BlockSize, BlockHolds;
      var size := ChunkSize(reqSize);
      var ok := MakeRoom(size, system);
      if !ok {
        return None;
      }
      var rloc := Cut(size);
      p := Some(rloc);
    }

    /** The part of malloc that gets a new block if the current one has too little left. */
    method MakeRoom(size: nat, system: Option<nat>) returns (ok: bool)
      requires Valid() && BlockHolds(size)
      requires system.Some? ==>
                 forall i :: 0 <= i < |blocks| ==> Apart(blocks[i], Piece(system.value, BlockSize(size)))
      modifies this
      ensures Valid() && chunks == old(chunks) && usedMemory == old(usedMemory)
      ensures !ok <==> size > old(remaining) && system.None?
      ensures ok ==> size <= remaining && Surplus() == old(Surplus())
      ensures size <= old(remaining) ==> blocks == old(blocks) && loc == old(loc) && remaining == old(remaining)
      ensures size > old(remaining) && ok ==> blocks == old(blocks) + [Piece(system.value, BlockSize(size))]
      ensures !ok ==> blocks == old(blocks) && Surplus() == old(Surplus()) + remaining && remaining == old(remaining)
    {
      ok := true;
      if size > remaining {
        wastedMemory := wastedMemory + remaining;
        var blocksize := BlockSize(size);
        if system.None? {
          return false;
        }
        var m := system.value;
        NewBlock(m, blocksize);
      }
    }

    /** Cuts a chunk off the free part of the newest block, if there is anything to cut. */
    method Cut(size: nat) returns (rloc: nat)
      requires Valid() && size <= remaining && size % WORDSIZE == 0
      modifies this`loc, this`remaining, this`usedMemory, this`chunks
      ensures Valid() && rloc == old(loc)
      ensures size > 0 ==> |blocks| > 0
      ensures chunks == if size > 0 then old(chunks) + [Chunk(Piece(rloc, size), |blocks| - 1)] else old(chunks)
      ensures usedMemory == old(usedMemory) + size && remaining == old(remaining) - size
    {
      rloc := loc;
      if size > 0 {
        ChunkCut(chunks, blocks, loc, remaining, size);
        chunks := chunks + [Chunk(Piece(rloc, size), |blocks| - 1)];
      }
      loc := loc + size;
      remaining := remaining - size;
      usedMemory := usedMemory + size;
    }

    /** Links a fresh block in front of the chain and makes all of it but its first word free. */
    method NewBlock(m: nat, blocksize: nat)
      requires Valid() && blocksize >= BLOCKSIZE
      requires forall i :: 0 <= i < |blocks| ==> Apart(blocks[i], Piece(m, blocksize))
      modifies this`headers, this`base, this`remaining, this`loc, this`blocks
      ensures Valid()
      ensures blocks == old(blocks) + [Piece(m, blocksize)] && remaining == blocksize - POINTERSIZE
      ensures TotalSize(blocks) == TotalSize(old(blocks)) + blocksize
    {
      ghost var b := Piece(m, blocksize);
      NotYetChained(base, headers, blocks, b);
      ChainGrows(base, headers, blocks, b);
      ChunksKept(chunks, blocks, loc, b, m + POINTERSIZE);
      headers := headers[m := base];
      base := Some(m);
      remaining := blocksize - POINTERSIZE;
      loc := m + POINTERSIZE;
      blocks := blocks + [b];
      assert blocks[..|blocks| - 1] == old(blocks);
    }

    /** free_all: every block is released exactly once, newest first, and the pool is empty again. */
    method FreeAll() returns (freed: seq<nat>)
      requires Valid()
      modifies this
      ensures Valid() && blocks == [] && chunks == [] && Surplus() == 0
      ensures usedMemory == 0 && wastedMemory == 0 && headers == map[]
      ensures freed == NewestFirst(old(blocks))
    {
      freed := [];
      ghost var all := blocks;
      while base.Some?
        invariant |blocks| <= |all| && blocks == all[..|blocks|]
        invariant ChainOf(base, headers, blocks) && BlocksApart(blocks)
        invariant |freed| == |all| - |blocks|
        invariant forall i :: 0 <= i < |freed| ==> freed[i] == all[|all| - 1 - i].addr
        decreases |blocks|
      {
        var prev := headers[base.value];
        freed := freed + [base.value];
        headers := headers - {base.value};
        base := prev;
        blocks := blocks[..|blocks| - 1];
      }
      assert freed == NewestFirst(all);
      remaining := 0;
      base := None;
      usedMemory := 0;
      wastedMemory := 0;
      chunks := [];
    }
  }

  /** Every chunk lies in one of the blocks, behind its first word; no two chunks overlap; and no
      chunk overlaps the first word of any block. */
  lemma PoolSafety(pool: PooledAllocator, i: nat, j: nat, b: nat, x: nat)
    requires pool.Valid() && i < |pool.chunks| && j < |pool.chunks| && i != j && b < |pool.blocks|
    ensures Apart(pool.chunks[i].piece, pool.chunks[j].piece)
    ensures Apart(pool.chunks[i].piece, Piece(pool.blocks[b].addr, POINTERSIZE))
    ensures pool.chunks[i].piece.addr <= x < pool.chunks[i].piece.addr + pool.chunks[i].piece.size ==>
              && !(pool.chunks[j].piece.addr <= x < pool.chunks[j].piece.addr + pool.chunks[j].piece.size)
              && !(pool.blocks[b].addr <= x < pool.blocks[b].addr + 8)
              && pool.chunks[i].block < |pool.blocks|
              && pool.blocks[pool.chunks[i].block].addr + 8 <= x
              && x < pool.blocks[pool.chunks[i].block].addr + pool.blocks[pool.chunks[i].block].size
  {
  }

  /** Unless an allocation failed, every byte of every block was handed out, given up, is still free,
      or links the block to the one before it. */
  lemma EveryByteAccounted(pool: PooledAllocator)
    requires pool.Valid() && pool.Surplus() == 0
    ensures pool.usedMemory + pool.wastedMemory + pool.remaining + 8 * |pool.blocks| == TotalSize(pool.blocks)
  {
  }

  lemma {:induction false} TotalOfAll(a: seq<Piece>, b: seq<Piece>, p: Piece)
    ensures TotalSize([p]) == p.size && TotalSize(a + b) == TotalSize(a) + TotalSize(b)
  {
    assert [p][..0] == [];
    if |b| == 0 {
      assert a + b == a;
    } else {
      assert (a + b)[..|a + b| - 1] == a + b[..|b| - 1];
      TotalOfAll(a, b[..|b| - 1], p);
    }
  }

  /** The block that the system hands out with its i-th answer. */
  function BlockOf(requests: seq<nat>, system: seq<Option<nat>>, i: nat): Piece
    requires i < |requests| == |system| && system[i].Some?
  {
    Piece(system[i].value, BlockSize(ChunkSize(requests[i])))
  }

  /** The system never hands out overlapping blocks. */
  ghost predicate SystemBlocksApart(requests: seq<nat>, system: seq<Option<nat>>)
    requires |requests| == |system|
  {
    forall i, j :: 0 <= i < j < |requests| && system[i].Some? && system[j].Some? ==>
      Apart(BlockOf(requests, system, i), BlockOf(requests, system, j))
  }

  /** Which chunk a request was answered with: different ones for different requests. */
  ghost predicate Answered(requests: seq<nat>, given: seq<Option<nat>>, chunks: seq<Chunk>, of: seq<nat>) {
    && |given| == |of| <= |requests|
    && (forall i :: 0 <= i < |given| && given[i].Some? ==>
          of[i] < |chunks| && chunks[of[i]].piece == Piece(given[i].value, ChunkSize(requests[i])))
    && (forall i, j :: 0 <= i < j < |given| && given[i].Some? && given[j].Some? ==> of[i] != of[j])
  }

  /** Which answer of the system a block came from: later ones for later blocks. */
  ghost predicate Obtained(requests: seq<nat>, system: seq<Option<nat>>, blocks: seq<Piece>, from: seq<nat>, n: nat) {
    && |from| == |blocks| && n <= |requests| == |system|
    && (forall b :: 0 <= b < |blocks| ==>
          from[b] < n && system[from[b]].Some? && blocks[b] == BlockOf(requests, system, from[b]))
  }

  lemma NothingYet(requests: seq<nat>, system: seq<Option<nat>>)
    requires |requests| == |system|
    ensures Answered(requests, [], [], []) && Obtained(requests, system, [], [], 0)
  {
  }

  lemma AnsweredNext(requests: seq<nat>, given: seq<Option<nat>>, chunks: seq<Chunk>, of: seq<nat>,
                     p: Option<nat>, chunks': seq<Chunk>)
    requires Answered(requests, given, chunks, of) && |given| < |requests|
    requires if p.None? then chunks' == chunks
             else |chunks'| == |chunks| + 1 && chunks'[..|chunks|] == chunks
                  && chunks'[|chunks|].piece == Piece(p.value, ChunkSize(requests[|given|]))
    ensures Answered(requests, given + [p], chunks', of + [|chunks|])
  {
    hide ChunkSize;
    forall i | 0 <= i < |given| && given[i].Some?
      ensures of[i] < |chunks'| && chunks'[of[i]] == chunks[of[i]]
    {
      assert p.Some? ==> chunks'[..|chunks|][of[i]] == chunks[of[i]];
    }
  }

  lemma ObtainedNext(requests: seq<nat>, system: seq<Option<nat>>, blocks: seq<Piece>, from: seq<nat>, n: nat,
                     blocks': seq<Piece>)
    requires Obtained(requests, system, blocks, from, n) && n < |requests|
    requires blocks' == blocks
             || (system[n].Some? && blocks' == blocks + [BlockOf(requests, system, n)])
    ensures Obtained(requests, system, blocks', if |blocks'| > |blocks| then from + [n] else from, n + 1)
  {
    hide BlockOf;
  }

  /** The block that the system would hand out next overlaps none that is in use. */
  lemma NextBlockApart(requests: seq<nat>, system: seq<Option<nat>>, blocks: seq<Piece>, from: seq<nat>, n: nat)
    requires Obtained(requests, system, blocks, from, n) && n < |requests| && system[n].Some?
    requires SystemBlocksApart(requests, system)
    ensures forall i :: 0 <= i < |blocks| ==> Apart(blocks[i], BlockOf(requests, system, n))
  {
    hide BlockOf, Apart;
  }

  lemma ReleasedOnce(requests: seq<nat>, system: seq<Option<nat>>, blocks: seq<Piece>, from: seq<nat>)
    requires Obtained(requests, system, blocks, from, |requests|) && BlocksApart(blocks)
    ensures var freed := NewestFirst(blocks);
            && (forall i, j :: 0 <= i < j < |freed| ==> freed[i] != freed[j])
            && (forall i :: 0 <= i < |freed| ==> Some(freed[i]) in system)
  {
    var freed := NewestFirst(blocks);
    forall i, j | 0 <= i < j < |freed|
      ensures freed[i] != freed[j]
    {
      assert Apart(blocks[|blocks| - 1 - j], blocks[|blocks| - 1 - i]);
    }
    forall i | 0 <= i < |freed|
      ensures Some(freed[i]) in system
    {
      var b := |blocks| - 1 - i;
      assert blocks[b] == BlockOf(requests, system, from[b]);
      assert system[from[b]] == Some(freed[i]);
    }
  }

  lemma MemoryDistinct(requests: seq<nat>, given: seq<Option<nat>>, chunks: seq<Chunk>, of: seq<nat>)
    requires Answered(requests, given, chunks, of) && ChunksApart(chunks)
    requires forall i :: 0 <= i < |requests| ==> ChunkSize(requests[i]) >= requests[i]
    ensures forall i, j :: 0 <= i < j < |given| && given[i].Some? && given[j].Some? ==>
              Apart(Piece(given[i].value, requests[i]), Piece(given[j].value, requests[j]))
  {
    hide ChunkSize;
    forall i, j | 0 <= i < j < |given| && given[i].Some? && given[j].Some?
      ensures Apart(Piece(given[i].value, requests[i]), Piece(given[j].value, requests[j]))
    {
      assert Apart(chunks[of[i]].piece, chunks[of[j]].piece);
    }
  }

  /** A whole life of a pool: whatever is asked for, and however often the system refuses, the
      memory handed out for different requests never overlaps, each request in full; and in the
      end every block is released once, and nothing but blocks. */
  method PoolRun(requests: seq<nat>, system: seq<Option<nat>>) returns (given: seq<Option<nat>>, freed: seq<nat>)
    requires |requests| == |system| && SystemBlocksApart(requests, system)
    requires forall i :: 0 <= i < |requests| ==> 0 < requests[i] < SIZE_LIMIT && Covers(requests[i])
    ensures |given| == |requests|
    ensures forall i, j :: 0 <= i < j < |given| && given[i].Some? && given[j].Some? ==>
              Apart(Piece(given[i].value, requests[i]), Piece(given[j].value, requests[j]))
    ensures forall i, j :: 0 <= i < j < |freed| ==> freed[i] != freed[j]
    ensures forall i :: 0 <= i < |freed| ==> Some(freed[i]) in system
  {
    hide ChunkSize, BlockSize, Answered, Obtained, SystemBlocksApart, BlockHolds;
    var pool := new PooledAllocator();
    given := [];
    NothingYet(requests, system);
    ghost var of: seq<nat>, from: seq<nat> := [], [];
    for n := 0 to |requests|
      invariant pool.Valid() && fresh(pool) && |given| == n
      invariant Answered(requests, given, pool.chunks, of)
      invariant Obtained(requests, system, pool.blocks, from, n)
    {
      ghost var chunks, blocks := pool.chunks, pool.blocks;
      if system[n].Some? {
        NextBlockApart(requests, system, blocks, from, n);
      }
      var p := pool.Malloc(requests[n], system[n]);
      AnsweredNext(requests, given, chunks, of, p, pool.chunks);
      ObtainedNext(requests, system, blocks, from, n, pool.blocks);
      given := given + [p];
      of := of + [|chunks|];
      from := if |pool.blocks| > |blocks| then from + [n] else from;
    }
    MemoryDistinct(requests, given, pool.chunks, of);
    ghost var blocks := pool.blocks;
    freed := pool.FreeAll();
    ReleasedOnce(requests, system, blocks, from);
  }
}
