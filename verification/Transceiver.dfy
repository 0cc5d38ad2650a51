/** The output side in the program's own form: the transmit loop over the chunk buffer, and the
  * sink that cuts stream data into padded records. */
module Transceiver {
  import opened Protocol
  import opened Fifo
  import opened ChunkBuffer
  import opened Wire

  class Transceiver {
    const buffer: Buffer
    const fds: Descriptors
    /** Everything ever committed, and every `write` call that moved or dropped bytes. */
    ghost var committed: seq<Parcel>
    ghost var log: seq<Sent>

    constructor (fds: Descriptors)
      ensures Valid() && fresh(buffer) && fresh(buffer.Memory)
      ensures this.fds == fds && View() == World([], Line([], [], fds.View()))
    {
      this.fds := fds;
      buffer := new Buffer(fds);
      committed, log := [], [];
    }

    ghost predicate Valid()
      reads this, buffer, buffer.Memory
    {
      buffer.Valid() && buffer.fds == fds
    }

    ghost function View(): World
      reads this, buffer, fds
    {
      World(committed, Line(buffer.Queue(), log, fds.View()))
    }

    /** One `write` call on the block at the front, and what follows from its result. */
    method WriteFront(result: WriteResult) returns (whole: bool)
      requires Valid() && View().line.queue != [] && !result.Failed?
      modifies `log, buffer, fds
      ensures Valid() && buffer.Memory == old(buffer.Memory)
      ensures var front := old(View()).line.queue[0].bytes;
              var sent := if result.Gone? then |front| else Min(result.n, |front|);
              && View().line == Take(old(View()).line, sent, result.Gone?)
              && whole == (sent == |front|)
    {
      hide Stored, Consume;
      var sendBlock := buffer.RequestRead();
      buffer.RequestReadIsFront();
      var fd := sendBlock.fd;
      var sent := if result.Gone? then sendBlock.size else Min(result.n, sendBlock.size);
      log := log + [Sent(fd, sendBlock.data[sendBlock.at..sendBlock.at + sent], result.Gone?)];
      PrefixOfBlock(sendBlock.data, sendBlock.at, sendBlock.size, sent);
      if result.Gone? {
        fds.FreeFd(fd);
      }
      buffer.FreeRead(sent);
      whole := sent == sendBlock.size;
    }

    static lemma PrefixOfBlock(data: array<byte>, at: nat, size: nat, sent: nat)
      requires at + size <= data.Length && sent <= size
      ensures data[at..at + sent] == data[at..at + size][..sent]
    {
    }

    /** The transmit loop.  `results` are the outcomes of its `write` calls; the result says
      * whether the buffer is empty afterwards. */
    method Transmit(results: seq<WriteResult>) returns (drained: bool, threw: bool)
      requires Valid()
      modifies `log, buffer, fds
      ensures Valid() && buffer.Memory == old(buffer.Memory)
      ensures View().line == Transmitted(old(View()).line, results).line
      ensures threw == Transmitted(old(View()).line, results).threw
      ensures drained <==> View().line.queue == []
    {
      hide Stored, FramesOf;
      buffer.WritesInside();
      threw := false;
      var i, going := 0, true;
      while going && i < |results| && buffer.RequestRead().size != 0
        invariant i <= |results| && Valid() && buffer.Memory == old(buffer.Memory)
        invariant going ==> Transmitted(View().line, results[i..]) == Transmitted(old(View()).line, results)
        invariant going ==> !threw
        invariant !going ==> Attempt(View().line, threw) == Transmitted(old(View()).line, results)
        decreases |results| - i, going
      {
        buffer.RequestReadIsFront();
        if results[i].Failed? {
          threw, going := true, false;
        } else {
          going := WriteFront(results[i]);
          assert results[i..][1..] == results[i + 1..];
          i := i + 1;
        }
      }
      buffer.RequestReadIsFront();
      buffer.WritesInside();
      drained := buffer.Empty();
      buffer.EmptyIsEmpty();
    }

    /** Storing a record header through the granted block; `reserved` stays as it was. */
    method PutHeader(block: Block, kind: byte, requestId: uint16, contentLength: uint16, paddingLength: byte)
      requires Valid() && block.size >= HEADER_SIZE && block.at + block.size <= CHUNK_SIZE
      requires block.data == buffer.chunks[buffer.writeIt].data
      requires block.at == buffer.chunks[buffer.writeIt].end
      modifies block.data
      ensures Valid()
      ensures block.data[block.at..block.at + HEADER_SIZE]
           == EncodeHeader(Header(VERSION, kind, requestId, contentLength, paddingLength,
                                  old(block.data[block.at + 7])))
      ensures forall i :: 0 <= i < block.at ==> block.data[i] == old(block.data[i])
      ensures forall i :: block.at + HEADER_SIZE <= i < block.data.Length ==>
                            block.data[i] == old(block.data[i])
    {
      var bytes := EncodeHeader(Header(VERSION, kind, requestId, contentLength, paddingLength, 0))[..7];
      buffer.Poke(block, 0, bytes);
      assert block.data[block.at..block.at + 7] == bytes;
    }

    /** Storing content and header of a record; what lies behind the content stays as it was. */
    method PutRecord(block: Block, kind: byte, requestId: uint16, content: seq<byte>, paddingLength: byte)
      requires Valid() && block.at + block.size <= CHUNK_SIZE
      requires HEADER_SIZE + |content| <= block.size && |content| < 0x1_0000
      requires block.data == buffer.chunks[buffer.writeIt].data
      requires block.at == buffer.chunks[buffer.writeIt].end
      modifies block.data
      ensures Valid()
      ensures block.data[block.at..block.at + HEADER_SIZE]
           == EncodeHeader(Header(VERSION, kind, requestId, |content|, paddingLength, block.data[block.at + 7]))
      ensures block.data[block.at + HEADER_SIZE..block.at + HEADER_SIZE + |content|] == content
    {
      buffer.Poke(block, HEADER_SIZE, content);
      label stored:
      PutHeader(block, kind, requestId, |content|, paddingLength);
      assert block.data[block.at + HEADER_SIZE..block.at + HEADER_SIZE + |content|]
          == old@stored(block.data[block.at + HEADER_SIZE..block.at + HEADER_SIZE + |content|]);
    }

    /** Committing a record and transmitting what can be transmitted. */
    method SecureWrite(size: nat, id: FullId, kill: bool, results: seq<WriteResult>, ghost step: Step)
      returns (threw: bool)
      requires Valid() && size <= CHUNK_SIZE - buffer.chunks[buffer.writeIt].end
      requires step.Commit? && Lawful(step) && step.id == id && step.closeFd == kill
      requires buffer.chunks[buffer.writeIt].data[buffer.chunks[buffer.writeIt].end..][..size] == RecordBytes(step)
      modifies this, buffer, fds
      ensures Valid() && fresh(buffer.Memory - old(buffer.Memory)) && old(buffer.Memory) <= buffer.Memory
      ensures View() == Apply(Apply(old(View()), step), Flush(results))
      ensures threw == Transmitted(Apply(old(View()), step).line, results).threw
    {
      hide Stored, FramesOf, Transmitted;
      buffer.SecureWrite(size, id, kill);
      committed := committed + [Parcel(id, kill, RecordBytes(step))];
      assert View() == Apply(old(View()), step);
      var drained;
      drained, threw := Transmit(results);
    }
  }
}
