/** Rebuilding records from a byte stream that the kernel hands over in arbitrary pieces. */
module Reassembly {
  import opened Protocol
  import opened Seqs

  type Fd = uint16

  /** Size of the record whose header starts `b`. */
  function RecordSize(b: seq<byte>): (n: nat)
    requires |b| >= HEADER_SIZE
    ensures n >= HEADER_SIZE
  {
    var h := DecodeHeader(b);
    HEADER_SIZE + h.contentLength + h.paddingLength
  }

  predicate Unfinished(b: seq<byte>) {
    |b| < HEADER_SIZE || |b| < RecordSize(b)
  }

  /** The whole records at the front of a stream, and what is left over. */
  datatype Parsed = Parsed(records: seq<seq<byte>>, tail: seq<byte>)

  function Parse(b: seq<byte>): Parsed
    decreases |b|
  {
    if Unfinished(b) then Parsed([], b)
    else
      var n := RecordSize(b);
      var rest := Parse(b[n..]);
      Parsed([b[..n]] + rest.records, rest.tail)
  }

  /** The header decides a record's size, so appending bytes does not move its end. */
  lemma RecordSizeAppend(a: seq<byte>, b: seq<byte>)
    requires |a| >= HEADER_SIZE
    ensures RecordSize(a + b) == RecordSize(a)
  {
    assert DecodeHeader(a + b) == DecodeHeader(a);
  }

  /** Parsing may be done in two sittings: the leftover of the first is all it has to keep. */
  lemma {:induction false} ParseAppend(a: seq<byte>, b: seq<byte>)
    ensures Parse(a + b).records == Parse(a).records + Parse(Parse(a).tail + b).records
    ensures Parse(a + b).tail == Parse(Parse(a).tail + b).tail
    decreases |a|
  {
    hide Parse, Unfinished;
    if Unfinished(a) {
      ParseUnfinished(a);
    } else {
      ParseStep(a, b);
      var n := RecordSize(a);
      ParseAppend(a[n..], b);
      Regroup([a[..n]], Parse(a[n..]).records, Parse(Parse(a[n..]).tail + b).records);
    }
  }

  lemma ParseUnfinished(b: seq<byte>)
    requires Unfinished(b)
    ensures Parse(b) == Parsed([], b)
  {
  }

  lemma ParseOne(b: seq<byte>)
    requires !Unfinished(b)
    ensures |b| >= HEADER_SIZE && HEADER_SIZE <= RecordSize(b) <= |b|
    ensures var n := RecordSize(b);
            Parse(b) == Parsed([b[..n]] + Parse(b[n..]).records, Parse(b[n..]).tail)
  {
  }

  /** The first record of a stream, with more bytes behind. */
  lemma ParseStep(a: seq<byte>, b: seq<byte>)
    requires !Unfinished(a)
    ensures |a| >= HEADER_SIZE && HEADER_SIZE <= RecordSize(a) <= |a|
    ensures var n := RecordSize(a);
            && Parse(a) == Parsed([a[..n]] + Parse(a[n..]).records, Parse(a[n..]).tail)
            && Parse(a + b) == Parsed([a[..n]] + Parse(a[n..] + b).records, Parse(a[n..] + b).tail)
  {
    hide Parse;
    RecordSizeAppend(a, b);
    ParseOne(a);
    ParseOne(a + b);
    var n := RecordSize(a);
    assert (a + b)[..n] == a[..n];
    assert (a + b)[n..] == a[n..] + b;
  }

  lemma {:induction false} ParseTailUnfinished(b: seq<byte>)
    ensures Unfinished(Parse(b).tail)
    decreases |b|
  {
    if !Unfinished(b) {
      ParseTailUnfinished(b[RecordSize(b)..]);
    }
  }

  function Concat(parts: seq<seq<byte>>): seq<byte> {
    if parts == [] then [] else parts[0] + Concat(parts[1..])
  }

  /** Nothing is lost or invented: the records and the tail are the stream. */
  lemma {:induction false} ParseConserves(b: seq<byte>)
    ensures Concat(Parse(b).records) + Parse(b).tail == b
    decreases |b|
  {
    if !Unfinished(b) {
      var n := RecordSize(b);
      var rest := Parse(b[n..]);
      ParseConserves(b[n..]);
      ConcatHead(b[..n], rest.records);
      Rejoin(b, n, Concat(rest.records), rest.tail);
    }
  }

  lemma Rejoin(b: seq<byte>, n: nat, middle: seq<byte>, tail: seq<byte>)
    requires n <= |b| && b[n..] == middle + tail
    ensures b[..n] + middle + tail == b
  {
    assert b == b[..n] + b[n..];
  }

  lemma ConcatHead(head: seq<byte>, parts: seq<seq<byte>>)
    ensures Concat([head] + parts) == head + Concat(parts)
  {
    assert ([head] + parts)[1..] == parts;
  }

  predicate WholeRecord(b: seq<byte>) {
    |b| >= HEADER_SIZE && |b| == RecordSize(b)
  }

  lemma ParseWhole(b: seq<byte>)
    requires WholeRecord(b)
    ensures Parse(b) == Parsed([b], [])
  {
    assert b[..|b|] == b;
  }

  /** A stream made of whole records and an unfinished rest parses back to exactly those. */
  lemma {:induction false} ParseRecords(records: seq<seq<byte>>, tail: seq<byte>)
    requires forall i :: 0 <= i < |records| ==> WholeRecord(records[i])
    requires Unfinished(tail)
    ensures Parse(Concat(records) + tail) == Parsed(records, tail)
  {
    if records == [] {
      assert Concat(records) + tail == tail;
    } else {
      var r := records[0];
      var rest := Concat(records[1..]) + tail;
      assert Concat(records) + tail == r + rest;
      RecordSizeAppend(r, rest);
      assert (r + rest)[..|r|] == r && (r + rest)[|r|..] == rest;
      ParseRecords(records[1..], tail);
    }
  }

  // ---- The receive buffer of one connection -------------------------------------------------

  /** What one `read` call returns: a byte count, EAGAIN, or another error.  `Count(0)` for a
    * non-empty request is the end of the stream. */
  datatype ReadResult = Count(n: nat) | Again | Error

  datatype Outcome = Closed | Waiting | Delivered(message: seq<byte>) | Threw

  function Messages(o: Outcome): seq<seq<byte>> {
    if o.Delivered? then [o.message] else []
  }

  /** Bytes a `read` of at most `want` bytes moves out of what the peer has sent. */
  function Moved(r: ReadResult, want: nat, available: nat): (k: nat)
    ensures k <= want && k <= available
  {
    if r.Count? then (if r.n <= want && r.n <= available then r.n
                      else if want <= available then want else available)
    else 0
  }

  /** How much one readable event takes, told from the bytes already held: first towards the
    * header, then towards the body of that very record and never beyond it. */
  function Taken(partial: seq<byte>, input: seq<byte>, first: ReadResult, second: ReadResult): (k: nat)
    requires Unfinished(partial)
    ensures k <= |input|
  {
    if |partial| < HEADER_SIZE then
      var k := Moved(first, HEADER_SIZE - |partial|, |input|);
      var header := partial + input[..k];
      if |header| < HEADER_SIZE then k
      else k + Moved(second, RecordSize(header) - HEADER_SIZE, |input| - k)
    else Moved(second, RecordSize(partial) - |partial|, |input|)
  }

  /** A read that is made and fails other than with EAGAIN; a read of no bytes does not fail. */
  predicate Throws(partial: seq<byte>, input: seq<byte>, first: ReadResult, second: ReadResult)
    requires Unfinished(partial)
  {
    if |partial| < HEADER_SIZE then
      var header := partial + input[..Moved(first, HEADER_SIZE - |partial|, |input|)];
      if |header| < HEADER_SIZE then first.Error? else second.Error? && RecordSize(header) > HEADER_SIZE
    else second.Error?
  }

  class FdBuffer {
    const headerBuffer: array<byte>
    var size: nat
    var data: array?<byte>

    ghost predicate Valid()
      reads this, headerBuffer, data
    {
      && headerBuffer.Length == HEADER_SIZE
      && (data == null ==> size < HEADER_SIZE)
      && (data != null ==>
            && data != headerBuffer
            && data.Length == RecordSize(headerBuffer[..])
            && HEADER_SIZE <= size < data.Length
            && data[..HEADER_SIZE] == headerBuffer[..])
    }

    /** The bytes of the record received so far. */
    ghost function Partial(): (b: seq<byte>)
      requires Valid()
      reads this, headerBuffer, data
    {
      if data == null then headerBuffer[..size] else data[..size]
    }

    lemma PartialUnfinished()
      requires Valid()
      ensures Unfinished(Partial())
      ensures data == null <==> |Partial()| < HEADER_SIZE
      ensures data != null ==> RecordSize(Partial()) == data.Length
    {
      if data != null {
        assert Partial()[..HEADER_SIZE] == data[..HEADER_SIZE];
        assert DecodeHeader(Partial()) == DecodeHeader(headerBuffer[..]);
      }
    }

    constructor ()
      ensures Valid() && Partial() == []
      ensures fresh(headerBuffer) && data == null
    {
      headerBuffer := new byte[HEADER_SIZE];
      size := 0;
      data := null;
    }

    /** One readable event on this connection.  `input` is what the peer has sent and nobody has
      * read yet; the results of the (at most two) `read` calls are given. */
    method Receive(input: seq<byte>, first: ReadResult, second: ReadResult)
      returns (outcome: Outcome, used: nat)
      requires Valid()
      modifies this, headerBuffer, data
      ensures Valid() && used <= |input|
      ensures data == null || data == old(data) || fresh(data)
      ensures Unfinished(old(Partial())) && used == Taken(old(Partial()), input, first, second)
      ensures outcome.Closed? <==> old(data) == null && first.Count? && (first.n == 0 || input == [])
      ensures outcome.Closed? ==> used == 0
      ensures outcome.Delivered? ==> WholeRecord(outcome.message)
      ensures outcome.Threw? <==> Throws(old(Partial()), input, first, second)
      ensures Parse(old(Partial()) + input[..used]) == Parsed(Messages(outcome), Partial())
    {
      PartialUnfinished();
      if data == null {
        outcome, used := ReceiveHeader(input, first, second);
      } else {
        ghost var partial := Partial();
        assert partial + input[..0] == partial;
        outcome, used := FillRest(partial, input, 0, second);
      }
    }

    /** An event on a connection whose next header is not complete yet. */
    method ReceiveHeader(input: seq<byte>, first: ReadResult, second: ReadResult)
      returns (outcome: Outcome, used: nat)
      requires Valid() && data == null && Unfinished(Partial())
      modifies this, headerBuffer
      ensures Valid() && used <= |input|
      ensures data == null || fresh(data)
      ensures used == Taken(old(Partial()), input, first, second)
      ensures outcome.Closed? <==> first.Count? && (first.n == 0 || input == [])
      ensures outcome.Closed? ==> used == 0
      ensures outcome.Delivered? ==> WholeRecord(outcome.message)
      ensures outcome.Threw? <==> Throws(old(Partial()), input, first, second)
      ensures Parse(old(Partial()) + input[..used]) == Parsed(Messages(outcome), Partial())
    {
      hide Taken, Throws, Parse, WholeRecord;
      ghost var partial := Partial();
      used := FillHeader(input, first);
      TakenHeader(partial, input, first, second, used);
      if size != HEADER_SIZE {
        PartialUnfinished();
        ParseUnfinished(Partial());
        outcome := if first.Error? then Threw
                   else if first.Count? && used == 0 then Closed
                   else Waiting;
        return;
      }
      StartRecord();
      assert data[..size] == partial + input[..used];
      SameSize(partial + input[..used], headerBuffer[..]);
      outcome, used := FillRest(partial, input, used, second);
    }

    static lemma TakenHeader(partial: seq<byte>, input: seq<byte>, first: ReadResult, second: ReadResult, k: nat)
      requires Unfinished(partial) && |partial| < HEADER_SIZE && k == Moved(first, HEADER_SIZE - |partial|, |input|)
      ensures Taken(partial, input, first, second) ==
                if |partial| + k < HEADER_SIZE then k
                else k + Moved(second, RecordSize(partial + input[..k]) - HEADER_SIZE, |input| - k)
      ensures Throws(partial, input, first, second) <==>
                if |partial| + k < HEADER_SIZE then first.Error?
                else second.Error? && RecordSize(partial + input[..k]) > HEADER_SIZE
    {
    }

    /** The body phase of an event that has already taken `used` bytes. */
    method FillRest(ghost partial: seq<byte>, input: seq<byte>, used: nat, second: ReadResult)
      returns (outcome: Outcome, total: nat)
      requires headerBuffer.Length == HEADER_SIZE && data != null && data != headerBuffer
      requires data.Length == RecordSize(headerBuffer[..]) && HEADER_SIZE <= size <= data.Length
      requires data[..HEADER_SIZE] == headerBuffer[..]
      requires used <= |input| && data[..size] == partial + input[..used]
      modifies this, data
      ensures Valid() && total == used + Moved(second, old(data.Length - size), |input| - used)
      ensures data == old(data) || data == null
      ensures outcome.Waiting? || outcome.Delivered? || outcome.Threw?
      ensures outcome.Delivered? ==> WholeRecord(outcome.message)
      ensures outcome.Threw? <==> second.Error? && old(size < data.Length)
      ensures Parse(partial + input[..total]) == Parsed(Messages(outcome), Partial())
    {
      var more;
      outcome, more := FillBody(partial + input[..used], input[used..], second);
      total := used + more;
      TakeTwice(partial, input, used, more, total);
    }

    static lemma TakeTwice(partial: seq<byte>, input: seq<byte>, used: nat, more: nat, total: nat)
      requires total == used + more <= |input|
      ensures partial + input[..used] + input[used..][..more] == partial + input[..total]
    {
    }

    /** The header phase: at most the missing header bytes are read, after those already there. */
    method FillHeader(input: seq<byte>, result: ReadResult) returns (actual: nat)
      requires Valid() && data == null
      modifies this`size, headerBuffer
      ensures actual == Moved(result, HEADER_SIZE - old(size), |input|)
      ensures size == old(size) + actual
      ensures headerBuffer[..size] == old(headerBuffer[..size]) + input[..actual]
    {
      actual := Moved(result, HEADER_SIZE - size, |input|);
      forall i | 0 <= i < actual {
        headerBuffer[size + i] := input[i];
      }
      size := size + actual;
    }

    /** The header is complete: a block for the whole record is allocated and starts with it. */
    method StartRecord()
      requires headerBuffer.Length == HEADER_SIZE == size && data == null
      modifies this`data
      ensures fresh(data) && data != null && data.Length == RecordSize(headerBuffer[..])
      ensures data[..HEADER_SIZE] == headerBuffer[..]
    {
      var header := DecodeHeader(headerBuffer[..]);
      var record := new byte[HEADER_SIZE + header.contentLength + header.paddingLength];
      forall i | 0 <= i < HEADER_SIZE {
        record[i] := headerBuffer[i];
      }
      data := record;
    }

    /** Puts bytes behind those the record already has. */
    method Store(input: seq<byte>)
      requires data != null && HEADER_SIZE <= size && size + |input| <= data.Length
      modifies this`size, data
      ensures size == old(size) + |input| && data[..size] == old(data[..size]) + input
      ensures data[..HEADER_SIZE] == old(data[..HEADER_SIZE])
    {
      forall i | 0 <= i < |input| {
        data[size + i] := input[i];
      }
      size := size + |input|;
    }

    /** The body phase.  A request for zero bytes returns zero, whatever the kernel's mood. */
    method FillBody(ghost had: seq<byte>, input: seq<byte>, result: ReadResult) returns (outcome: Outcome, actual: nat)
      requires headerBuffer.Length == HEADER_SIZE && data != null && data != headerBuffer
      requires data.Length == RecordSize(headerBuffer[..]) && HEADER_SIZE <= size <= data.Length
      requires data[..HEADER_SIZE] == headerBuffer[..] && data[..size] == had
      modifies this, data
      ensures Valid() && actual == Moved(result, old(data.Length - size), |input|)
      ensures data == old(data) || data == null
      ensures outcome.Waiting? || outcome.Delivered? || outcome.Threw?
      ensures outcome.Delivered? ==> WholeRecord(outcome.message)
      ensures outcome.Threw? <==> result.Error? && old(size < data.Length)
      ensures Parse(had + input[..actual]) == Parsed(Messages(outcome), Partial())
    {
      var needed := data.Length - size;
      actual := Moved(result, needed, |input|);
      Store(input[..actual]);
      ghost var now := data[..size];
      SameSize(now, headerBuffer[..]);
      if needed > 0 && result.Error? {
        return Threw, actual;
      }
      if actual == needed {
        assert data[..] == now;
        ParseWhole(now);
        outcome := Delivered(data[..]);
        size := 0;
        data := null;
        assert Partial() == [];
      } else {
        outcome := Waiting;
      }
    }

    static lemma SameSize(b: seq<byte>, header: seq<byte>)
      requires |b| >= HEADER_SIZE == |header| && b[..HEADER_SIZE] == header
      ensures RecordSize(b) == RecordSize(header)
    {
      assert forall i :: 0 <= i < HEADER_SIZE ==> b[i] == header[i];
    }
  }
}
