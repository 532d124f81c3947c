/** The bump allocator over mapped chunks: every block it ever returns lies in one chunk, clear of all others, and reads
    as zeros. */
module Alloc {
  import opened CText

  const CHUNK: nat := 0x100_0000
  const PAGE: nat := 0x1000
  const TOP: nat := 0x4000_0000_0000_0000     // addresses and sizes stay below this, so that signed sums are exact

  // [base, base + size)
  datatype Region = Region(base: int, size: nat)

  predicate Apart(a: Region, b: Region) {
    a.base + a.size <= b.base || b.base + b.size <= a.base
  }

  predicate Within(a: Region, b: Region) {
    b.base <= a.base && a.base + a.size <= b.base + b.size
  }

  // The two words of the globals page, and what has happened so far.
  datatype Heap = Heap(cursor: nat, limit: nat, chunks: seq<Region>, blocks: seq<Region>)

  const EMPTY := Heap(0, 0, [], [])

  // A request does not fit: no chunk yet, or not enough room in the current one.
  predicate NeedsChunk(h: Heap, bytes: nat) {
    h.cursor == 0 || h.cursor + bytes > h.limit
  }

  // 16 MB, or the request rounded up to whole pages when that is more.
  function ChunkSize(bytes: nat): (s: nat)
    ensures s >= bytes && s >= 0x100_0000 && s % 0x1000 == 0 && (s == 0x100_0000 || s < bytes + 0x1000)
  {
    var rounded := (bytes + (PAGE - 1)) / PAGE * PAGE;
    if rounded >= CHUNK then rounded else CHUNK
  }

  // What the kernel returns for a new mapping of `size` bytes: memory no earlier mapping covers.
  predicate FreshMapping(h: Heap, base: nat, size: nat) {
    && 0 < base && base + size < TOP
    && forall i :: 0 <= i < |h.chunks| ==> Apart(Region(base, size), h.chunks[i])
  }

  function Mapped(h: Heap, base: nat, size: nat): Heap {
    h.(cursor := base, limit := base + size, chunks := h.chunks + [Region(base, size)])
  }

  function Bumped(h: Heap, bytes: nat): Heap {
    h.(cursor := h.cursor + bytes, blocks := h.blocks + [Region(h.cursor, bytes)])
  }

  // One request; base is where a new chunk would be mapped.
  function Allocated(h: Heap, bytes: nat, base: nat): Heap {
    Bumped(if NeedsChunk(h, bytes) then Mapped(h, base, ChunkSize(bytes)) else h, bytes)
  }

  // ---- What every run keeps ----

  predicate ChunksApart(chunks: seq<Region>) {
    forall i, j :: 0 <= i < j < |chunks| ==> Apart(chunks[i], chunks[j])
  }

  predicate BlocksApart(blocks: seq<Region>) {
    forall i, j :: 0 <= i < j < |blocks| ==> Apart(blocks[i], blocks[j])
  }

  predicate InChunk(h: Heap, b: Region) {
    exists i :: 0 <= i < |h.chunks| && Within(b, h.chunks[i])
  }

  // The current chunk is the last one; what is used of it ends at the cursor.
  predicate Current(h: Heap) {
    if h.chunks == [] then h.cursor == 0 && h.blocks == []
    else
      var c := h.chunks[|h.chunks| - 1];
      0 < c.base <= h.cursor <= h.limit && h.limit == c.base + c.size < TOP
  }

  // An old block is below the cursor, or outside the current chunk.
  predicate Below(h: Heap, b: Region) {
    h.chunks != [] && (b.base + b.size <= h.cursor || b.base >= h.limit)
  }

  predicate Safe(h: Heap) {
    && Current(h) && ChunksApart(h.chunks) && BlocksApart(h.blocks)
    && forall i :: 0 <= i < |h.blocks| ==> InChunk(h, h.blocks[i]) && Below(h, h.blocks[i])
  }

  lemma MappedSafe(h: Heap, base: nat, size: nat)
    requires Safe(h) && FreshMapping(h, base, size)
    ensures Safe(Mapped(h, base, size))
  {
    var h' := Mapped(h, base, size);
    forall i | 0 <= i < |h.blocks| ensures InChunk(h', h'.blocks[i]) && Below(h', h'.blocks[i]) {
      var j :| 0 <= j < |h.chunks| && Within(h.blocks[i], h.chunks[j]);
      assert h'.chunks[j] == h.chunks[j];
      assert Apart(Region(base, size), h.chunks[j]);
    }
  }

  lemma BumpedSafe(h: Heap, bytes: nat)
    requires Safe(h) && h.chunks != [] && h.cursor + bytes <= h.limit
    ensures Safe(Bumped(h, bytes))
    ensures Within(Region(h.cursor, bytes), h.chunks[|h.chunks| - 1])
  {
    var h' := Bumped(h, bytes);
    forall i | 0 <= i < |h'.blocks| ensures InChunk(h', h'.blocks[i]) && Below(h', h'.blocks[i]) {
      if i < |h.blocks| {
        assert InChunk(h, h.blocks[i]) && Below(h, h.blocks[i]);
        var j :| 0 <= j < |h.chunks| && Within(h.blocks[i], h.chunks[j]);
        assert h'.chunks[j] == h.chunks[j];
      } else {
        assert h'.chunks[|h.chunks| - 1] == h.chunks[|h.chunks| - 1];
      }
    }
    forall i, j | 0 <= i < j < |h'.blocks| ensures Apart(h'.blocks[i], h'.blocks[j]) {
      if j == |h.blocks| {
        assert Below(h, h.blocks[i]);
      }
    }
  }

  predicate Mappable(h: Heap, bytes: nat, base: nat) {
    NeedsChunk(h, bytes) ==> FreshMapping(h, base, ChunkSize(bytes))
  }

  /** One request keeps everything safe, across chunk switches and for requests of any size. */
  lemma AllocatedSafe(h: Heap, bytes: nat, base: nat)
    requires Safe(h) && Mappable(h, bytes, base)
    ensures Safe(Allocated(h, bytes, base))
  {
    if NeedsChunk(h, bytes) {
      MappedSafe(h, base, ChunkSize(bytes));
      BumpedSafe(Mapped(h, base, ChunkSize(bytes)), bytes);
    } else {
      BumpedSafe(h, bytes);
    }
  }

  /** A new chunk is mapped exactly when the block does not fit behind what is used of the last one. */
  lemma MapsWhenFull(h: Heap, bytes: nat, base: nat)
    requires Safe(h)
    ensures var h' := Allocated(h, bytes, base);
      if h.chunks != [] && Within(Region(h.cursor, bytes), h.chunks[|h.chunks| - 1]) then
        h'.chunks == h.chunks && h'.blocks == h.blocks + [Region(h.cursor, bytes)]
      else
        exists size: nat :: h'.chunks == h.chunks + [Region(base, size)] &&
          h'.blocks == h.blocks + [Region(base, bytes)] &&
          size >= bytes && size % 0x1000 == 0 && (size == 0x100_0000 || 0x100_0000 < size < bytes + 0x1000)
  {
    assert (h.chunks + [Region(base, ChunkSize(bytes))])[|h.chunks|].size == ChunkSize(bytes);
  }

  datatype Request = Request(bytes: nat, base: nat)

  // The heap after a run of requests from the start.
  function After(rs: seq<Request>): Heap {
    if rs == [] then EMPTY else Allocated(After(rs[..|rs| - 1]), rs[|rs| - 1].bytes, rs[|rs| - 1].base)
  }

  // Every mapping of the run was fresh when it was made.
  predicate FreshRun(rs: seq<Request>) {
    rs == [] || (FreshRun(rs[..|rs| - 1]) && Mappable(After(rs[..|rs| - 1]), rs[|rs| - 1].bytes, rs[|rs| - 1].base))
  }

  /** Whole runs: each request has its block, of the size it asked for, inside one mapped chunk,
      and no two blocks of the run overlap. */
  lemma {:induction false} RunSafe(rs: seq<Request>)
    requires FreshRun(rs)
    ensures var h := After(rs);
      && Safe(h) && |h.blocks| == |rs|
      && (forall i :: 0 <= i < |rs| ==> h.blocks[i].size == rs[i].bytes && InChunk(h, h.blocks[i]))
      && forall i, j :: 0 <= i < j < |rs| ==> Apart(h.blocks[i], h.blocks[j])
  {
    if rs != [] {
      var before, last := rs[..|rs| - 1], rs[|rs| - 1];
      RunSafe(before);
      AllocatedSafe(After(before), last.bytes, last.base);
      assert After(rs).blocks == After(before).blocks + [After(rs).blocks[|before|]];
    }
  }

  // ---- What the memory holds ----

  predicate Holds(r: Region, a: int) {
    r.base <= a < r.base + r.size
  }

  predicate InSomeChunk(h: Heap, a: int) {
    exists i :: 0 <= i < |h.chunks| && Holds(h.chunks[i], a)
  }

  predicate Given(h: Heap, a: int) {
    exists i :: 0 <= i < |h.blocks| && Holds(h.blocks[i], a)
  }

  // Every byte that is mapped and was never handed out is zero.
  ghost predicate Clean(h: Heap, mem: seq<Byte>) {
    forall a :: 0 <= a < |mem| && InSomeChunk(h, a) && !Given(h, a) ==> mem[a] == 0
  }

  ghost predicate Zeros(mem: seq<Byte>, r: Region) {
    forall a :: 0 <= a < |mem| && Holds(r, a) ==> mem[a] == 0
  }

  // The kernel maps zero-filled pages.
  function ZeroFilled(mem: seq<Byte>, r: Region): (mem': seq<Byte>)
    ensures |mem'| == |mem|
    ensures forall a :: 0 <= a < |mem| ==> mem'[a] == if Holds(r, a) then 0 else mem[a]
  {
    seq(|mem|, a requires 0 <= a < |mem| => if Holds(r, a) then 0 else mem[a])
  }

  // The memory after one request.
  function MemoryAfter(h: Heap, mem: seq<Byte>, bytes: nat, base: nat): seq<Byte> {
    if NeedsChunk(h, bytes) then ZeroFilled(mem, Region(base, ChunkSize(bytes))) else mem
  }

  lemma MappedClean(h: Heap, mem: seq<Byte>, base: nat, size: nat)
    requires Safe(h) && Clean(h, mem) && FreshMapping(h, base, size)
    ensures Clean(Mapped(h, base, size), ZeroFilled(mem, Region(base, size)))
    ensures forall a :: Given(h, a) ==> !Holds(Region(base, size), a)
  {
    var h', mem' := Mapped(h, base, size), ZeroFilled(mem, Region(base, size));
    forall a | Given(h, a) ensures !Holds(Region(base, size), a) {
      var i :| 0 <= i < |h.blocks| && Holds(h.blocks[i], a);
      var j :| 0 <= j < |h.chunks| && Within(h.blocks[i], h.chunks[j]);
      assert Apart(Region(base, size), h.chunks[j]);
    }
    forall a | 0 <= a < |mem'| && InSomeChunk(h', a) && !Given(h', a) ensures mem'[a] == 0 {
      var i :| 0 <= i < |h'.chunks| && Holds(h'.chunks[i], a);
      if i < |h.chunks| {
        assert h.chunks[i] == h'.chunks[i] && InSomeChunk(h, a) && !Given(h, a);
      }
    }
  }

  // Nothing above the cursor in its chunk was handed out.
  lemma NeverGiven(h: Heap, bytes: nat, a: int)
    requires Safe(h) && h.chunks != [] && h.cursor + bytes <= h.limit && Holds(Region(h.cursor, bytes), a)
    ensures !Given(h, a)
  {
    forall i | 0 <= i < |h.blocks| ensures !Holds(h.blocks[i], a) {
      assert Below(h, h.blocks[i]);
    }
  }

  lemma BumpedClean(h: Heap, mem: seq<Byte>, bytes: nat)
    requires Safe(h) && Clean(h, mem) && h.chunks != [] && h.cursor + bytes <= h.limit
    ensures Clean(Bumped(h, bytes), mem) && Zeros(mem, Region(h.cursor, bytes))
  {
    var h', b := Bumped(h, bytes), Region(h.cursor, bytes);
    forall a | 0 <= a < |mem| && Holds(b, a) ensures mem[a] == 0 {
      assert Holds(h.chunks[|h.chunks| - 1], a);
      NeverGiven(h, bytes, a);
    }
    forall a | Given(h, a) ensures Given(h', a) {
      var i :| 0 <= i < |h.blocks| && Holds(h.blocks[i], a);
      assert h'.blocks[i] == h.blocks[i];
    }
  }

  /** The block of a request is all zeros, whatever was mapped, handed out and written before; the contents of the older
      blocks are as they were. */
  lemma AllocatedZero(h: Heap, mem: seq<Byte>, bytes: nat, base: nat)
    requires Safe(h) && Clean(h, mem) && Mappable(h, bytes, base)
    ensures var h', mem' := Allocated(h, bytes, base), MemoryAfter(h, mem, bytes, base);
      && Clean(h', mem') && Zeros(mem', h'.blocks[|h.blocks|])
      && forall a :: 0 <= a < |mem| && Given(h, a) ==> mem'[a] == mem[a]
  {
    if NeedsChunk(h, bytes) {
      var size := ChunkSize(bytes);
      MappedSafe(h, base, size);
      MappedClean(h, mem, base, size);
      BumpedClean(Mapped(h, base, size), ZeroFilled(mem, Region(base, size)), bytes);
    } else {
      BumpedClean(h, mem, bytes);
    }
  }

  // Writes inside blocks that were returned leave the rest clean.
  lemma WritesKeepClean(h: Heap, mem: seq<Byte>, mem': seq<Byte>)
    requires Clean(h, mem) && |mem'| == |mem| && forall a :: 0 <= a < |mem| && mem'[a] != mem[a] ==> Given(h, a)
    ensures Clean(h, mem')
  {
  }

  // A program's run: requests, and writes to bytes it was given.
  datatype Act = Ask(bytes: nat, base: nat) | Write(a: nat, v: Byte)

  datatype World = World(heap: Heap, mem: seq<Byte>)

  function Done(w: World, act: Act): World {
    match act
    case Ask(bytes, base) => World(Allocated(w.heap, bytes, base), MemoryAfter(w.heap, w.mem, bytes, base))
    case Write(a, v) => if a < |w.mem| then w.(mem := w.mem[a := v]) else w
  }

  predicate Allowed(w: World, act: Act) {
    match act
    case Ask(bytes, base) => Mappable(w.heap, bytes, base)
    case Write(a, _) => Given(w.heap, a)
  }

  function Acted(mem: seq<Byte>, acts: seq<Act>): World {
    if acts == [] then World(EMPTY, mem) else Done(Acted(mem, acts[..|acts| - 1]), acts[|acts| - 1])
  }

  predicate AllAllowed(mem: seq<Byte>, acts: seq<Act>) {
    forall i :: 0 <= i < |acts| ==> Allowed(Acted(mem, acts[..i]), acts[i])
  }

  lemma DoneClean(w: World, act: Act)
    requires Safe(w.heap) && Clean(w.heap, w.mem) && Allowed(w, act)
    ensures Safe(Done(w, act).heap) && Clean(Done(w, act).heap, Done(w, act).mem)
  {
    match act
    case Ask(bytes, base) =>
      AllocatedSafe(w.heap, bytes, base);
      AllocatedZero(w.heap, w.mem, bytes, base);
    case Write(_, _) =>
  }

  lemma {:induction false} ActedClean(mem: seq<Byte>, acts: seq<Act>)
    requires AllAllowed(mem, acts)
    ensures Safe(Acted(mem, acts).heap) && Clean(Acted(mem, acts).heap, Acted(mem, acts).mem)
  {
    if acts != [] {
      var before := acts[..|acts| - 1];
      forall i | 0 <= i < |before| ensures Allowed(Acted(mem, before[..i]), before[i]) {
        assert before[..i] == acts[..i];
      }
      ActedClean(mem, before);
      DoneClean(Acted(mem, before), acts[|acts| - 1]);
    }
  }

  /** Over any run of requests and of writes inside the blocks they returned, from a memory that held anything before,
      the block of the next request is all zeros. */
  lemma EveryBlockZero(mem: seq<Byte>, acts: seq<Act>, bytes: nat, base: nat)
    requires AllAllowed(mem, acts) && Mappable(Acted(mem, acts).heap, bytes, base)
    ensures var w := Acted(mem, acts);
      var w' := Done(w, Ask(bytes, base));
      Zeros(w'.mem, w'.heap.blocks[|w.heap.blocks|])
  {
    ActedClean(mem, acts);
    AllocatedZero(Acted(mem, acts).heap, Acted(mem, acts).mem, bytes, base);
  }

  // ---- The routine ----

  class Allocator {
    var cursor: nat
    var limit: nat
    ghost var chunks: seq<Region>
    ghost var blocks: seq<Region>
    const mem: array<Byte>                    // indexed with addresses

    ghost function View(): Heap
      reads this
    {
      Heap(cursor, limit, chunks, blocks)
    }

    ghost predicate Valid()
      reads this, mem
    {
      && Safe(View()) && Clean(View(), mem[..])
      && forall i :: 0 <= i < |chunks| ==> chunks[i].base + chunks[i].size <= mem.Length
    }

    // base is what the kernel would return for a mapping made now.
    ghost predicate Room(bytes: nat, base: nat)
      reads this
    {
      Mappable(View(), bytes, base) && (NeedsChunk(View(), bytes) ==> base + ChunkSize(bytes) <= mem.Length)
    }

    // Nothing is mapped yet; the memory may hold anything.
    constructor (memory: array<Byte>)
      ensures Valid() && View() == EMPTY && mem == memory
    {
      cursor, limit, chunks, blocks := 0, 0, [], [];
      mem := memory;
    }

    // The kernel's part: the new pages are zero-filled.
    method MapPages(base: nat, size: nat)
      requires base + size <= mem.Length
      modifies mem
      ensures mem[..] == ZeroFilled(old(mem[..]), Region(base, size))
    {
      for a := base to base + size
        invariant forall i :: 0 <= i < mem.Length ==> mem[i] == if base <= i < a then 0 else old(mem[i])
      {
        mem[a] := 0;
      }
    }

    // A new chunk of at least 16 MB, in which the request fits.
    method TakeChunk(x9: nat, base: nat)
      requires base + ChunkSize(x9) <= mem.Length
      modifies this`cursor, this`limit, this`chunks, mem
      ensures View() == Mapped(old(View()), base, ChunkSize(x9))
      ensures mem[..] == ZeroFilled(old(mem[..]), Region(base, ChunkSize(x9)))
    {
      var x1 := (x9 + (PAGE - 1)) / PAGE * PAGE;
      if x1 < CHUNK {
        x1 := CHUNK;
      }
      MapPages(base, x1);
      cursor := base;
      limit := base + x1;
      chunks := chunks + [Region(base, x1)];
    }

    /** The block that is returned is clear of every block returned before and reads as zeros; the bytes of the older
        blocks are as they were. */
    method Alloc(bytes: nat, base: nat) returns (x0: nat)
      requires Valid() && Room(bytes, base) && bytes < TOP
      modifies this, mem
      ensures Valid() && View() == Allocated(old(View()), bytes, base)
      ensures blocks == old(blocks) + [Region(x0, bytes)] && InChunk(View(), Region(x0, bytes))
      ensures forall i :: 0 <= i < |old(blocks)| ==> Apart(old(blocks)[i], Region(x0, bytes))
      ensures x0 + bytes <= mem.Length && forall a :: x0 <= a < x0 + bytes ==> mem[a] == 0
      ensures forall a :: 0 <= a < mem.Length && Given(old(View()), a) ==> mem[a] == old(mem[a])
    {
      ghost var h, before := View(), mem[..];
      AllocatedSafe(h, bytes, base);
      AllocatedZero(h, before, bytes, base);
      var x9, x10 := bytes, cursor;
      assert x10 + x9 < 0x8000_0000_0000_0000;
      if x10 == 0 || x10 + x9 > limit {
        TakeChunk(x9, base);
        x10 := cursor;
      }
      cursor := x10 + x9;
      blocks := blocks + [Region(x10, x9)];
      x0 := x10;
      assert mem[..] == MemoryAfter(h, before, bytes, base);
      NewBlock(h, bytes, base, x0);
    }

    // What the new block is to the others and to the chunks.
    ghost method NewBlock(h: Heap, bytes: nat, base: nat, x0: nat)
      requires Safe(View()) && View() == Allocated(h, bytes, base) && blocks == h.blocks + [Region(x0, bytes)]
      requires forall i :: 0 <= i < |chunks| ==> chunks[i].base + chunks[i].size <= mem.Length
      ensures forall i :: 0 <= i < |h.blocks| ==> Apart(h.blocks[i], Region(x0, bytes))
      ensures InChunk(View(), Region(x0, bytes)) && x0 + bytes <= mem.Length
    {
      assert View().blocks[|blocks| - 1] == Region(x0, bytes);
      forall i | 0 <= i < |h.blocks| ensures Apart(h.blocks[i], Region(x0, bytes)) {
        assert blocks[i] == h.blocks[i];
      }
    }

    // A write inside a block that was returned.
    method Store(a: nat, v: Byte)
      requires Valid() && a < mem.Length && Given(View(), a)
      modifies mem
      ensures Valid() && mem[..] == old(mem[..])[a := v]
    {
      mem[a] := v;
    }
  }
}
