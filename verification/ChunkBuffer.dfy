/** The transmission buffer: a recycled list of fixed-size chunks plus a queue of frames, and
  * the proof that together they are nothing but a FIFO of parcels. */
module ChunkBuffer {
  import opened Protocol
  import opened Fifo
  import opened Reassembly

  const CHUNK_SIZE: nat := 131072
  const MIN_BLOCK_SIZE: nat := 256

  datatype Frame = Frame(size: nat, closeFd: bool, id: FullId)

  /** A piece of writable memory: `size` bytes from offset `at` of `data`. */
  datatype Block = Block(data: array<byte>, at: nat, size: nat)

  /** Memory to transmit and the connection it goes to; `fd` is absent when nothing waits. */
  datatype SendBlock = SendBlock(data: array<byte>, at: nat, size: nat, fd: int)

  function FrameOf(p: Parcel): Frame {
    Frame(|p.bytes|, p.closeFd, p.id)
  }

  function FramesOf(ps: seq<Parcel>): (fs: seq<Frame>)
    ensures |fs| == |ps|
  {
    seq(|ps|, i requires 0 <= i < |ps| => FrameOf(ps[i]))
  }

  lemma FramesAppend(ps: seq<Parcel>, p: Parcel)
    ensures FramesOf(ps + [p]) == FramesOf(ps) + [FrameOf(p)]
  {
  }

  lemma FramesConsume(ps: seq<Parcel>, size: nat)
    requires ps != [] && size <= |ps[0].bytes|
    ensures FramesOf(ps)[0] == FrameOf(ps[0])
    ensures var rest := FramesOf(ps)[1..];
            var front := FrameOf(ps[0]);
            FramesOf(Consume(ps, size))
              == if size == front.size then rest else [front.(size := front.size - size)] + rest
  {
  }

  // ---- Descriptors shared by the buffer and the transceiver ----------------------------------

  /** The poll set, the receive buffers and the order in which connections were closed. */
  datatype Ports = Ports(pollFds: seq<Fd>, fdBuffers: map<Fd, FdBuffer>, closed: seq<Fd>)

  /** The poll set without the first entry for `fd`. */
  function Without(pollFds: seq<Fd>, fd: Fd): seq<Fd> {
    if pollFds == [] then []
    else if pollFds[0] == fd then pollFds[1..]
    else [pollFds[0]] + Without(pollFds[1..], fd)
  }

  /** Closing a connection; a descriptor that is not being polled is left alone. */
  function Freed(p: Ports, fd: Fd): Ports {
    if fd in p.pollFds then
      Ports(Without(p.pollFds, fd), p.fdBuffers - {fd}, p.closed + [fd])
    else p
  }

  /** A new connection is polled and has a receive buffer. */
  function Watched(p: Ports, fd: Fd, buffer: FdBuffer): Ports {
    p.(pollFds := p.pollFds + [fd], fdBuffers := p.fdBuffers[fd := buffer])
  }

  /** A connection that has hung up is no longer polled and has no receive buffer; nobody closes it. */
  function Unwatched(p: Ports, fd: Fd): Ports {
    p.(pollFds := Without(p.pollFds, fd), fdBuffers := p.fdBuffers - {fd})
  }

  lemma {:induction false} WithoutAt(pollFds: seq<Fd>, fd: Fd, i: nat)
    requires i < |pollFds| && pollFds[i] == fd && fd !in pollFds[..i]
    ensures Without(pollFds, fd) == pollFds[..i] + pollFds[i + 1..]
  {
    if i > 0 {
      assert pollFds[0] == pollFds[..i][0];
      assert pollFds[1..][..i - 1] == pollFds[..i][1..];
      WithoutAt(pollFds[1..], fd, i - 1);
      assert pollFds[..i] == [pollFds[0]] + pollFds[1..][..i - 1];
    }
  }

  class Descriptors {
    var pollFds: seq<Fd>
    var fdBuffers: map<Fd, FdBuffer>
    var closed: seq<Fd>

    constructor (polled: seq<Fd>)
      ensures View() == Ports(polled, map[], [])
    {
      pollFds, fdBuffers, closed := polled, map[], [];
    }

    function View(): Ports
      reads this
    {
      Ports(pollFds, fdBuffers, closed)
    }

    method FreeFd(fd: Fd)
      modifies this
      ensures View() == Freed(old(View()), fd)
    {
      var it := 0;
      while it < |pollFds| && pollFds[it] != fd
        invariant it <= |pollFds| && fd !in pollFds[..it]
      {
        it := it + 1;
      }
      if it != |pollFds| {
        WithoutAt(pollFds, fd, it);
        pollFds := pollFds[..it] + pollFds[it + 1..];
        closed := closed + [fd];
        fdBuffers := fdBuffers - {fd};
      }
    }
  }

  // ---- Chunks ---------------------------------------------------------------------------------

  /** A chunk is a list node: a memory block and its write position. */
  datatype Chunk = Chunk(data: array<byte>, end: nat)

  /** The chunk list with its write iterator and its read pointer (a block and an offset). */
  datatype Ring = Ring(chunks: seq<Chunk>, writeIt: nat, readBlock: array<byte>, readAt: nat)

  predicate Distinct(chunks: seq<Chunk>) {
    && (forall i, j :: 0 <= i < j < |chunks| ==> chunks[i].data != chunks[j].data)
    && (forall i :: 0 <= i < |chunks| ==> chunks[i].data.Length == CHUNK_SIZE)
  }

  /** Which chunks are full, which one is being written, which one waits to be reused.  While a
    * write is being committed or a read retired, `settled` is false. */
  predicate Shaped(r: Ring, settled: bool) {
    && Distinct(r.chunks)
    && r.writeIt < |r.chunks| <= r.writeIt + 2
    && r.readBlock == r.chunks[0].data
    && r.readAt <= r.chunks[0].end
    && (forall i :: 0 <= i < r.writeIt ==> CHUNK_SIZE - MIN_BLOCK_SIZE < r.chunks[i].end <= CHUNK_SIZE)
    && r.chunks[r.writeIt].end <= CHUNK_SIZE
    && (forall i :: r.writeIt < i < |r.chunks| ==> r.chunks[i].end == 0)
    && (settled ==>
          && r.chunks[r.writeIt].end <= CHUNK_SIZE - MIN_BLOCK_SIZE
          && (r.readAt < r.chunks[0].end || (r.writeIt == 0 && r.readAt == 0 == r.chunks[0].end)))
  }

  /** From `start` to its end, the chunk contains exactly the bytes of the parcels in `lane`. */
  ghost predicate Holds(c: Chunk, start: nat, lane: seq<Parcel>)
    reads c.data
  {
    && start <= c.end <= c.data.Length
    && c.data[start..c.end] == Bytes(lane)
    && NonEmptyParcels(lane)
  }

  ghost predicate Holding(chunks: seq<Chunk>, readAt: nat, lanes: seq<seq<Parcel>>, memory: set<array<byte>>)
    requires forall i :: 0 <= i < |chunks| ==> chunks[i].data in memory
    reads memory
  {
    && |lanes| == |chunks|
    && (forall i :: 0 <= i < |chunks| ==> Holds(chunks[i], if i == 0 then readAt else 0, lanes[i]))
  }

  /** The chunk list is in shape, its blocks are in `memory`, and the lanes are what its chunks hold. */
  ghost predicate Stored(r: Ring, lanes: seq<seq<Parcel>>, memory: set<array<byte>>, settled: bool)
    reads memory
  {
    && (forall i :: 0 <= i < |r.chunks| ==> r.chunks[i].data in memory)
    && Shaped(r, settled)
    && Holding(r.chunks, r.readAt, lanes, memory)
  }

  lemma Parts(r: Ring, lanes: seq<seq<Parcel>>, memory: set<array<byte>>, settled: bool)
    requires Stored(r, lanes, memory, settled)
    ensures forall i :: 0 <= i < |r.chunks| ==> r.chunks[i].data in memory
    ensures Shaped(r, settled) && Holding(r.chunks, r.readAt, lanes, memory) && r.writeIt < |r.chunks|
    ensures forall i :: 0 <= i < |r.chunks| && i != r.writeIt ==> r.chunks[i].data != r.chunks[r.writeIt].data
    ensures r.chunks[r.writeIt].data.Length == CHUNK_SIZE
  {
  }

  lemma Whole(r: Ring, lanes: seq<seq<Parcel>>, memory: set<array<byte>>, settled: bool)
    requires Shaped(r, settled) && forall i :: 0 <= i < |r.chunks| ==> r.chunks[i].data in memory
    requires Holding(r.chunks, r.readAt, lanes, memory)
    ensures Stored(r, lanes, memory, settled)
  {
  }

  lemma InRange(r: Ring, lanes: seq<seq<Parcel>>, memory: set<array<byte>>, settled: bool)
    requires Stored(r, lanes, memory, settled)
    ensures r.writeIt < |r.chunks| == |lanes| && r.readAt <= r.chunks[0].end
  {
  }

  /** A lane in an empty stretch of a chunk has no parcels. */
  lemma EmptyLane(c: Chunk, start: nat, lane: seq<Parcel>)
    requires Holds(c, start, lane)
    ensures lane == [] <==> start == c.end
  {
    BytesEmpty(lane);
  }

  /** A frame never straddles two chunks, so the oldest parcel starts at the read pointer. */
  lemma FrontLane(r: Ring, lanes: seq<seq<Parcel>>, memory: set<array<byte>>)
    requires Stored(r, lanes, memory, true)
    ensures Flatten(lanes) == [] <==> lanes[0] == []
    ensures Flatten(lanes) != [] ==> Flatten(lanes)[0] == lanes[0][0]
    ensures lanes[0] != [] <==> r.readAt < r.chunks[0].end
  {
    EmptyLane(r.chunks[0], r.readAt, lanes[0]);
    if lanes[0] == [] {
      forall i | 0 <= i < |lanes| ensures lanes[i] == [] {
        EmptyLane(r.chunks[i], if i == 0 then r.readAt else 0, lanes[i]);
      }
      FlattenEmpties(lanes);
    }
  }

  /** Growing the write chunk over freshly written bytes adds one parcel at the back. */
  lemma CommitHolds(c: Chunk, start: nat, lane: seq<Parcel>, parcel: Parcel, size: nat)
    requires Holds(c, start, lane) && 0 < size && c.end + size <= c.data.Length
    requires parcel.bytes == c.data[c.end..][..size]
    ensures Holds(c.(end := c.end + size), start, lane + [parcel])
  {
    BytesAppend(lane, [parcel]);
    assert c.data[start..c.end + size] == c.data[start..c.end] + parcel.bytes;
  }

  lemma GrowLayout(r: Ring, lanes: seq<seq<Parcel>>, memory: set<array<byte>>, parcel: Parcel, size: nat)
    requires Stored(r, lanes, memory, true) && 0 < size <= CHUNK_SIZE - r.chunks[r.writeIt].end
    requires parcel.bytes == r.chunks[r.writeIt].data[r.chunks[r.writeIt].end..][..size]
    ensures var c := r.chunks[r.writeIt];
            var after := r.chunks[r.writeIt := c.(end := c.end + size)];
            && Stored(r.(chunks := after), lanes[r.writeIt := lanes[r.writeIt] + [parcel]], memory, false)
            && r.readAt < after[0].end
  {
    CommitHolds(r.chunks[r.writeIt], if r.writeIt == 0 then r.readAt else 0, lanes[r.writeIt], parcel, size);
  }

  lemma CommitQueue(r: Ring, lanes: seq<seq<Parcel>>, parcel: Parcel, memory: set<array<byte>>)
    requires Stored(r, lanes, memory, true)
    ensures Flatten(lanes[r.writeIt := lanes[r.writeIt] + [parcel]]) == Flatten(lanes) + [parcel]
  {
    forall i | r.writeIt < i < |lanes| ensures lanes[i] == [] {
      EmptyLane(r.chunks[i], 0, lanes[i]);
    }
    FlattenPush(lanes, r.writeIt, parcel);
  }

  /** An empty chunk behind the others changes nothing for them. */
  lemma SpareBehind(r: Ring, lanes: seq<seq<Parcel>>, memory: set<array<byte>>, data: array<byte>)
    requires Stored(r, lanes, memory, false) && r.writeIt + 1 == |r.chunks|
    requires data !in memory && data.Length == CHUNK_SIZE
    ensures Stored(r.(chunks := r.chunks + [Chunk(data, 0)]), lanes + [[]], memory + {data}, false)
    ensures Flatten(lanes + [[]]) == Flatten(lanes)
  {
    assert data[0..0] == [];
    FlattenAppend(lanes, [[]]);
  }

  /** The write iterator moves on from a full chunk. */
  lemma MoveOn(r: Ring, lanes: seq<seq<Parcel>>, memory: set<array<byte>>)
    requires Stored(r, lanes, memory, false) && r.writeIt + 1 < |r.chunks|
    requires r.readAt < r.chunks[0].end && CHUNK_SIZE - r.chunks[r.writeIt].end < MIN_BLOCK_SIZE
    ensures Stored(r.(writeIt := r.writeIt + 1), lanes, memory, true)
  {
  }

  /** Advancing the read pointer inside the head chunk consumes the front parcel. */
  lemma ConsumeHolds(c: Chunk, start: nat, lane: seq<Parcel>, size: nat)
    requires Holds(c, start, lane) && lane != [] && size <= |lane[0].bytes|
    ensures Holds(c, start + size, Consume(lane, size))
  {
    BytesConsume(lane, size);
    assert c.data[start..c.end][size..] == c.data[start + size..c.end];
  }

  lemma ConsumeLanes(chunks: seq<Chunk>, readAt: nat, lanes: seq<seq<Parcel>>, memory: set<array<byte>>, size: nat)
    returns (after: seq<seq<Parcel>>)
    requires forall i :: 0 <= i < |chunks| ==> chunks[i].data in memory
    requires chunks != [] && Holding(chunks, readAt, lanes, memory)
    requires lanes[0] != [] && size <= |lanes[0][0].bytes|
    ensures after == [Consume(lanes[0], size)] + lanes[1..]
    ensures readAt + size <= chunks[0].end && Holding(chunks, readAt + size, after, memory)
    ensures Flatten(after) == Consume(Flatten(lanes), size)
  {
    after := [Consume(lanes[0], size)] + lanes[1..];
    assert Holds(chunks[0], readAt, lanes[0]);
    ConsumeHolds(chunks[0], readAt, lanes[0], size);
    forall i | 0 < i < |chunks| ensures Holds(chunks[i], 0, after[i]) {
      assert Holds(chunks[i], 0, lanes[i]);
    }
    assert after[1..] == lanes[1..];
    ConsumeAppend(lanes[0], Flatten(lanes[1..]), size);
  }

  lemma AdvanceRing(r: Ring, lanes: seq<seq<Parcel>>, memory: set<array<byte>>, size: nat)
    returns (after: seq<seq<Parcel>>)
    requires Stored(r, lanes, memory, true)
    requires Flatten(lanes) != [] && size <= |Flatten(lanes)[0].bytes|
    ensures Stored(r.(readAt := r.readAt + size), after, memory, false)
    ensures Flatten(after) == Consume(Flatten(lanes), size)
  {
    FrontLane(r, lanes, memory);
    after := ConsumeLanes(r.chunks, r.readAt, lanes, memory, size);
  }

  /** What happens to the chunk list when the head chunk has been read to its end: the only
    * chunk is rewound, a used one becomes the spare, and a second spare is given back. */
  function Recycle(r: Ring): Ring
    requires Shaped(r, false)
  {
    if r.writeIt == 0 then
      r.(chunks := r.chunks[0 := r.chunks[0].(end := 0)], readAt := 0)
    else
      var rest := if r.writeIt == |r.chunks| - 1 then r.chunks[1..] + [r.chunks[0].(end := 0)]
                  else r.chunks[1..];
      Ring(rest, r.writeIt - 1, rest[0].data, 0)
  }

  function RecycleLanes<T>(r: Ring, lanes: seq<seq<T>>): seq<seq<T>>
    requires Shaped(r, false) && |lanes| == |r.chunks|
  {
    if r.writeIt == 0 then lanes
    else if r.writeIt == |r.chunks| - 1 then lanes[1..] + [lanes[0]]
    else lanes[1..]
  }

  lemma RecycleShaped(r: Ring)
    requires Shaped(r, false) && r.chunks[r.writeIt].end <= CHUNK_SIZE - MIN_BLOCK_SIZE
    ensures Shaped(Recycle(r), true)
  {
  }

  lemma RecycleHolds(r: Ring, lanes: seq<seq<Parcel>>, memory: set<array<byte>>)
    requires Shaped(r, false) && r.chunks[r.writeIt].end <= CHUNK_SIZE - MIN_BLOCK_SIZE
    requires forall i :: 0 <= i < |r.chunks| ==> r.chunks[i].data in memory
    requires Holding(r.chunks, r.readAt, lanes, memory) && r.readAt == r.chunks[0].end
    ensures forall i :: 0 <= i < |Recycle(r).chunks| ==> Recycle(r).chunks[i].data in memory
    ensures Holding(Recycle(r).chunks, Recycle(r).readAt, RecycleLanes(r, lanes), memory)
    ensures Flatten(RecycleLanes(r, lanes)) == Flatten(lanes)
  {
    EmptyLane(r.chunks[0], r.readAt, lanes[0]);
    var s, t := Recycle(r), RecycleLanes(r, lanes);
    forall i | 0 <= i < |s.chunks|
      ensures s.chunks[i].data in memory && Holds(s.chunks[i], 0, t[i])
    {
      var j := if r.writeIt == 0 then i else if i == |r.chunks| - 1 then 0 else i + 1;
      assert Holds(r.chunks[j], if j == 0 then r.readAt else 0, lanes[j]);
    }
    if r.writeIt == |r.chunks| - 1 {
      FlattenAppend(lanes[1..], [lanes[0]]);
    }
  }

  lemma RecycleCorrect(r: Ring, lanes: seq<seq<Parcel>>, memory: set<array<byte>>)
    returns (after: Ring, moved: seq<seq<Parcel>>)
    requires Stored(r, lanes, memory, false) && r.chunks[r.writeIt].end <= CHUNK_SIZE - MIN_BLOCK_SIZE
    requires r.readAt == r.chunks[0].end
    ensures after == Recycle(r) && Stored(after, moved, memory, true)
    ensures Flatten(moved) == Flatten(lanes)
  {
    RecycleShaped(r);
    RecycleHolds(r, lanes, memory);
    after, moved := Recycle(r), RecycleLanes(r, lanes);
  }

  // ---- Space -----------------------------------------------------------------------------------

  const FULL_CHUNK: nat := CHUNK_SIZE - MIN_BLOCK_SIZE + 1

  lemma {:induction false} HeavyLanes(lanes: seq<seq<Parcel>>, k: nat)
    requires k <= |lanes|
    requires forall i :: 0 <= i < k ==> |Bytes(lanes[i])| >= FULL_CHUNK
    ensures |Bytes(Flatten(lanes))| >= k * FULL_CHUNK
  {
    hide Bytes;
    if k > 0 {
      HeavyLanes(lanes[1..], k - 1);
      assert |Bytes(lanes[0])| >= FULL_CHUNK;
      BytesAppend(lanes[0], Flatten(lanes[1..]));
    }
  }

  /** The chunk list is bounded by what waits to be sent: every chunk between the head and the
    * write chunk is full, and at most one spare follows. */
  lemma SpaceBound(r: Ring, lanes: seq<seq<Parcel>>, memory: set<array<byte>>)
    requires Stored(r, lanes, memory, true)
    ensures |r.chunks| <= |Bytes(Flatten(lanes))| / FULL_CHUNK + 3
  {
    hide Bytes;
    if r.writeIt > 0 {
      BehindHead(r, lanes, memory);
      BytesAppend(lanes[0], Flatten(lanes[1..]));
      Quotient(|Bytes(Flatten(lanes))|, r.writeIt - 1);
    }
  }

  /** The chunks between the head and the write chunk are full. */
  lemma BehindHead(r: Ring, lanes: seq<seq<Parcel>>, memory: set<array<byte>>)
    requires Stored(r, lanes, memory, true) && r.writeIt > 0
    ensures |Bytes(Flatten(lanes[1..]))| >= (r.writeIt - 1) * FULL_CHUNK
  {
    var behind := lanes[1..];
    forall i | 0 <= i < r.writeIt - 1 ensures |Bytes(behind[i])| >= FULL_CHUNK {
      FullLane(r.chunks[i + 1], behind[i]);
    }
    HeavyLanes(behind, r.writeIt - 1);
  }

  lemma FullLane(c: Chunk, lane: seq<Parcel>)
    requires Holds(c, 0, lane) && c.end > CHUNK_SIZE - MIN_BLOCK_SIZE
    ensures |Bytes(lane)| >= FULL_CHUNK
  {
  }

  lemma Quotient(total: nat, k: nat)
    requires total >= k * FULL_CHUNK
    ensures total / FULL_CHUNK >= k
  {
  }

  class Buffer {
    var frames: seq<Frame>
    var chunks: seq<Chunk>
    /** Position of the chunk being written; a list iterator in the program. */
    var writeIt: nat
    /** The read pointer: a memory block and an offset into it. */
    var readBlock: array<byte>
    var readAt: nat
    const fds: Descriptors

    /** The parcels whose unread bytes lie in each chunk, oldest first. */
    ghost var lanes: seq<seq<Parcel>>
    /** The blocks of all chunks, past and present. */
    ghost var Memory: set<array<byte>>

    /** The parcels that wait to be transmitted, oldest first. */
    ghost function Queue(): seq<Parcel>
      reads `lanes
    {
      Flatten(lanes)
    }

    ghost function Layout(): Ring
      reads `chunks, `writeIt, `readBlock, `readAt
    {
      Ring(chunks, writeIt, readBlock, readAt)
    }

    ghost predicate Valid()
      reads this, Memory
    {
      && Stored(Layout(), lanes, Memory, true)
      && frames == FramesOf(Queue())
    }

    constructor (fds: Descriptors)
      ensures Valid() && fresh(Memory) && Queue() == [] && this.fds == fds
    {
      var data := new byte[CHUNK_SIZE];
      frames, chunks, writeIt := [], [Chunk(data, 0)], 0;
      readBlock, readAt := data, 0;
      this.fds := fds;
      lanes := [[]];
      Memory := {data};
    }

    function RequestWrite(size: nat): Block
      requires writeIt < |chunks| && chunks[writeIt].end <= CHUNK_SIZE
      reads this
    {
      var space := CHUNK_SIZE - chunks[writeIt].end;
      Block(chunks[writeIt].data, chunks[writeIt].end, if size < space then size else space)
    }

    function RequestRead(): SendBlock
      reads this
    {
      if frames == [] then SendBlock(readBlock, readAt, 0, -1)
      else SendBlock(readBlock, readAt, frames[0].size, frames[0].id.fd)
    }

    /** Comparing the read pointer with the write pointer. */
    predicate Empty()
      requires writeIt < |chunks|
      reads this
    {
      readBlock == chunks[writeIt].data && readAt == chunks[writeIt].end
    }

    lemma WritesInside()
      requires Valid()
      ensures writeIt < |chunks|
    {
    }

    /** The granted block is never shorter than asked, unless it is at least 256 bytes; it lies
      * behind everything that waits to be sent. */
    lemma RequestWriteGrants(size: nat)
      requires Valid()
      ensures var b := RequestWrite(size);
              && b.size <= size && (b.size == size || b.size >= MIN_BLOCK_SIZE)
              && b.at + b.size <= b.data.Length == CHUNK_SIZE && b.data in Memory
              && b.data == chunks[writeIt].data && b.at == chunks[writeIt].end
    {
    }

    /** The block to send is exactly the unsent part of the oldest parcel, in one piece. */
    lemma RequestReadIsFront()
      requires Valid()
      ensures var b := RequestRead();
              if Queue() == [] then b.size == 0 && b.fd == -1
              else && b.at + b.size <= b.data.Length && b.data == chunks[0].data
                   && b.data[b.at..b.at + b.size] == Queue()[0].bytes
                   && b.fd == Queue()[0].id.fd && b.size > 0
    {
      FrontLane(Layout(), lanes, Memory);
      if Queue() != [] {
        assert Holds(chunks[0], readAt, lanes[0]);
        assert frames[0] == FrameOf(Queue()[0]);
        FrontSlice(chunks[0].data, readAt, chunks[0].end, lanes[0][0].bytes, Bytes(lanes[0][1..]));
      }
    }

    static lemma FrontSlice(data: array<byte>, from: nat, to: nat, front: seq<byte>, rest: seq<byte>)
      requires from <= to <= data.Length && data[from..to] == front + rest
      ensures from + |front| <= to && data[from..from + |front|] == front
    {
      assert data[from..to][..|front|] == front;
    }

    /** `empty` compares two pointers; it is nevertheless exactly emptiness of the queue. */
    lemma EmptyIsEmpty()
      requires Valid()
      ensures Empty() <==> Queue() == []
    {
      FrontLane(Layout(), lanes, Memory);
    }

    /** In every reachable state the next 256 bytes can be written without looking, at most one
      * empty chunk follows the write chunk, and the list is no longer than the pending bytes
      * require. */
    lemma AlwaysRoom()
      requires Valid()
      ensures RequestWrite(MIN_BLOCK_SIZE).size == MIN_BLOCK_SIZE
      ensures writeIt + 1 <= |chunks| <= writeIt + 2
      ensures |chunks| <= |Bytes(Queue())| / FULL_CHUNK + 3
    {
      SpaceBound(Layout(), lanes, Memory);
    }

    /** Storing bytes through the pointer of a granted block. */
    method Poke(block: Block, offset: nat, bytes: seq<byte>)
      requires Valid()
      requires block.data == chunks[writeIt].data && block.at == chunks[writeIt].end
      requires block.at + block.size <= CHUNK_SIZE && offset + |bytes| <= block.size
      modifies block.data
      ensures Valid()
      ensures block.data[block.at + offset..block.at + offset + |bytes|] == bytes
      ensures block.data[..block.at + offset] == old(block.data[..block.at + offset])
      ensures forall i :: block.at + offset + |bytes| <= i < block.data.Length ==>
                            block.data[i] == old(block.data[i])
    {
      hide Stored, Shaped, Distinct, Bytes, NonEmptyParcels, Flatten, FramesOf;
      Parts(Layout(), lanes, Memory, true);
      ghost var start := if writeIt == 0 then readAt else 0;
      ghost var end := chunks[writeIt].end;
      FrontHalf(block.data, start, end, block.at + offset);
      Store(block.data, block.at + offset, bytes);
      FrontHalf(block.data, start, end, block.at + offset);
      forall i | 0 <= i < |chunks|
        ensures Holds(chunks[i], if i == 0 then readAt else 0, lanes[i])
      {
        assert old(Holds(chunks[i], if i == 0 then readAt else 0, lanes[i]));
      }
      Whole(Layout(), lanes, Memory, true);
    }

    static lemma FrontHalf(data: array<byte>, from: nat, to: nat, at: nat)
      requires from <= to <= at <= data.Length
      ensures data[from..to] == data[..at][from..to]
    {
    }

    static method Store(data: array<byte>, at: nat, bytes: seq<byte>)
      requires at + |bytes| <= data.Length
      modifies data
      ensures data[at..at + |bytes|] == bytes
      ensures data[..at] == old(data[..at])
      ensures forall i :: at + |bytes| <= i < data.Length ==> data[i] == old(data[i])
    {
      forall i | 0 <= i < |bytes| {
        data[at + i] := bytes[i];
      }
    }

    /** Committing `size` bytes of the granted block as one frame. */
    method SecureWrite(size: nat, id: FullId, kill: bool)
      requires Valid() && 0 < size <= CHUNK_SIZE - chunks[writeIt].end
      modifies this
      ensures Valid() && fresh(Memory - old(Memory)) && old(Memory) <= Memory
      ensures Queue() == old(Queue())
              + [Parcel(id, kill, old(chunks[writeIt].data[chunks[writeIt].end..][..size]))]
    {
      ghost var parcel := Parcel(id, kill, chunks[writeIt].data[chunks[writeIt].end..][..size]);
      Place(size, parcel);
      FramesAppend(old(Queue()), parcel);
      frames := frames + [Frame(size, kill, id)];
    }

    method Place(size: nat, ghost parcel: Parcel)
      requires Valid() && 0 < size <= CHUNK_SIZE - chunks[writeIt].end
      requires parcel.bytes == chunks[writeIt].data[chunks[writeIt].end..][..size]
      modifies `chunks, `lanes, `Memory, `writeIt
      ensures Stored(Layout(), lanes, Memory, true)
      ensures Queue() == old(Queue()) + [parcel] && fresh(Memory - old(Memory)) && old(Memory) <= Memory
    {
      Grow(size, parcel);
      if CHUNK_SIZE - chunks[writeIt].end < MIN_BLOCK_SIZE {
        NextChunk();
      }
    }

    /** Either the iterator moves on to the spare chunk, or it reaches the end of the list and a
      * new chunk is put exactly where it stands. */
    method NextChunk()
      requires Stored(Layout(), lanes, Memory, false)
      requires readAt < chunks[0].end && CHUNK_SIZE - chunks[writeIt].end < MIN_BLOCK_SIZE
      modifies `chunks, `lanes, `Memory, `writeIt
      ensures Stored(Layout(), lanes, Memory, true)
      ensures Queue() == old(Queue()) && fresh(Memory - old(Memory)) && old(Memory) <= Memory
    {
      hide Stored, Flatten;
      InRange(Layout(), lanes, Memory, false);
      if writeIt + 1 == |chunks| {
        AddChunk();
      }
      MoveOn(Layout(), lanes, Memory);
      writeIt := writeIt + 1;
    }

    method Grow(size: nat, ghost parcel: Parcel)
      requires Valid() && 0 < size <= CHUNK_SIZE - chunks[writeIt].end
      requires parcel.bytes == chunks[writeIt].data[chunks[writeIt].end..][..size]
      modifies `lanes, `chunks
      ensures Stored(Layout(), lanes, Memory, false) && readAt < chunks[0].end
      ensures Queue() == old(Queue()) + [parcel]
    {
      hide Stored, Flatten;
      InRange(Layout(), lanes, Memory, true);
      var c := chunks[writeIt];
      ghost var lane := lanes[writeIt] + [parcel];
      CommitQueue(Layout(), lanes, parcel, Memory);
      GrowLayout(Layout(), lanes, Memory, parcel, size);
      chunks := chunks[writeIt := c.(end := c.end + size)];
      lanes := lanes[writeIt := lane];
    }

    method AddChunk()
      requires Stored(Layout(), lanes, Memory, false)
      requires writeIt + 1 == |chunks|
      modifies `chunks, `lanes, `Memory
      ensures Stored(Layout(), lanes, Memory, false)
      ensures |chunks| == |old(chunks)| + 1 && chunks[..|old(chunks)|] == old(chunks)
      ensures chunks[|old(chunks)|].end == 0
      ensures Queue() == old(Queue()) && fresh(Memory - old(Memory)) && old(Memory) <= Memory
    {
      hide Stored, Flatten;
      var data := new byte[CHUNK_SIZE];
      SpareBehind(Layout(), lanes, Memory, data);
      chunks := chunks + [Chunk(data, 0)];
      lanes := lanes + [[]];
      Memory := Memory + {data};
    }

    /** Marking `size` bytes as transmitted: advance the read pointer, recycle or drop a chunk
      * that is used up, and retire the front frame when nothing of it remains. */
    method FreeRead(size: nat)
      requires Valid() && Queue() != [] && size <= |Queue()[0].bytes|
      modifies this, fds
      ensures Valid() && Memory == old(Memory)
      ensures Queue() == Consume(old(Queue()), size)
      ensures fds.View() == if size == |old(Queue())[0].bytes| && old(Queue())[0].closeFd
                            then Freed(old(fds.View()), old(Queue())[0].id.fd)
                            else old(fds.View())
    {
      ghost var queue := Queue();
      Skip(size);
      RetireFrame(queue, size);
    }

    method Skip(size: nat)
      requires Valid() && Queue() != [] && size <= |Queue()[0].bytes|
      modifies `readAt, `readBlock, `chunks, `lanes, `writeIt
      ensures Stored(Layout(), lanes, Memory, true)
      ensures Queue() == Consume(old(Queue()), size)
    {
      Advance(size);
      if readAt >= chunks[0].end {
        RecycleHead();
      }
    }

    method Advance(size: nat)
      requires Valid() && Queue() != [] && size <= |Queue()[0].bytes|
      modifies `readAt, `lanes
      ensures Stored(Layout(), lanes, Memory, false)
      ensures Queue() == Consume(old(Queue()), size)
    {
      ghost var after := AdvanceRing(Layout(), lanes, Memory, size);
      readAt := readAt + size;
      lanes := after;
    }

    method RecycleHead()
      requires Stored(Layout(), lanes, Memory, false)
      requires chunks[writeIt].end <= CHUNK_SIZE - MIN_BLOCK_SIZE && readAt >= chunks[0].end
      modifies `readAt, `readBlock, `chunks, `lanes, `writeIt
      ensures Stored(Layout(), lanes, Memory, true)
      ensures Queue() == old(Queue())
    {
      hide Stored, Recycle, Flatten;
      InRange(Layout(), lanes, Memory, false);
      ghost var after, moved := RecycleCorrect(Layout(), lanes, Memory);
      ShiftChunks(after);
      lanes := moved;
      assert chunks == after.chunks && readAt == after.readAt;
    }

    method ShiftChunks(ghost after: Ring)
      requires Stored(Layout(), lanes, Memory, false) && after == Recycle(Layout())
      modifies `readAt, `readBlock, `chunks, `writeIt
      ensures Layout() == after
    {
      if writeIt == 0 {
        readAt := 0;
        chunks := chunks[0 := chunks[0].(end := 0)];
      } else {
        if writeIt == |chunks| - 1 {
          chunks := chunks[1..] + [chunks[0].(end := 0)];
        } else {
          chunks := chunks[1..];
        }
        writeIt := writeIt - 1;
        readBlock, readAt := chunks[0].data, 0;
      }
    }

    method RetireFrame(ghost queue: seq<Parcel>, size: nat)
      requires Stored(Layout(), lanes, Memory, true)
      requires queue != [] && size <= |queue[0].bytes| && frames == FramesOf(queue)
      requires Queue() == Consume(queue, size)
      modifies `frames, fds
      ensures Valid()
      ensures fds.View() == if size == |queue[0].bytes| && queue[0].closeFd
                            then Freed(old(fds.View()), queue[0].id.fd)
                            else old(fds.View())
    {
      hide Stored, Consume;
      FramesConsume(queue, size);
      var front := frames[0].(size := frames[0].size - size);
      if front.size == 0 {
        if front.closeFd {
          fds.FreeFd(front.id.fd);
        }
        frames := frames[1..];
      } else {
        frames := [front] + frames[1..];
      }
    }
  }
}
