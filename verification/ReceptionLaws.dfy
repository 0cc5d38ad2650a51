/** What readable events do to a stream of records when the kernel gives all it is asked for, less, or an
  * error, told on bytes and positions (transceiver.cpp:97-158, protocol.hpp:145-216). */
module ReceptionLaws {
  import opened Protocol
  import opened Reassembly
  import Reception

  // ---- Headers ---------------------------------------------------------------------------------

  /** The place of every field: version, type, request id, content length, padding length. */
  lemma HeaderLayout(h: Header)
    ensures var b := EncodeHeader(h);
      && |b| == 8 && b[0] == h.version && b[1] == h.kind && b[6] == h.paddingLength
      && BigEndianValue(b[2..4]) == h.requestId && BigEndianValue(b[4..6]) == h.contentLength
  {
    var b := EncodeHeader(h);
    TwoBytes(b, 2);
    TwoBytes(b, 4);
  }

  lemma TwoBytes(b: seq<byte>, i: nat)
    requires i + 2 <= |b|
    ensures BigEndianValue(b[i..i + 2]) == b[i] as int * 256 + b[i + 1]
  {
    assert b[i..i + 2] == [b[i], b[i + 1]];
    assert [b[i], b[i + 1]][..1] == [b[i]] && [b[i]][..0] == [];
    assert BigEndianValue([b[i]]) == b[i];
  }

  /** A record is as long as its bytes 4 to 6 say. */
  lemma AnnouncedSize(b: seq<byte>)
    requires |b| >= HEADER_SIZE
    ensures RecordSize(b) == 8 + BigEndianValue([b[4], b[5]]) + b[6]
  {
    TwoBytes([b[4], b[5]], 0);
    assert [b[4], b[5]][0..2] == [b[4], b[5]];
  }

  /** A message is addressed to the request its second and third bytes name, on its connection. */
  lemma AddressedTo(record: seq<byte>, fd: Fd)
    requires WholeRecord(record)
    ensures var ms := Reception.Addressed([record], fd);
      |ms| == 1 && ms[0].record == record && ms[0].id.fd == fd && ms[0].id.fcgiId == BigEndianValue(record[2..4])
  {
    TwoBytes(record, 2);
  }

  // ---- Events ----------------------------------------------------------------------------------

  /** The results of the two reads that an event may make. */
  datatype Event = Event(first: ReadResult, second: ReadResult)

  /** The kernel gives all that is asked for or all there is. */
  predicate Ample(e: Event, record: seq<byte>) {
    && e.first.Count? && e.first.n >= HEADER_SIZE
    && e.second.Count? && e.second.n >= |record|
  }

  /** The stream goes on with the rest of the record of which a part has been read. */
  predicate Completes(partial: seq<byte>, input: seq<byte>, record: seq<byte>, rest: seq<byte>) {
    WholeRecord(record) && |partial| < |record| && partial + input == record + rest
  }

  lemma SplitAt(partial: seq<byte>, input: seq<byte>, record: seq<byte>, rest: seq<byte>, k: nat)
    requires Completes(partial, input, record, rest) && |partial| + k <= |record|
    ensures k <= |input| && partial + input[..k] == record[..|partial| + k]
    ensures |partial| + k == |record| ==> partial + input[..k] == record && input[k..] == rest
  {
    assert partial + input[..k] == (partial + input)[..|partial| + k];
    assert (record + rest)[..|partial| + k] == record[..|partial| + k];
    if |partial| + k == |record| {
      assert input[k..] == (partial + input)[|record|..];
      assert (record + rest)[|record|..] == rest;
      assert record[..|record|] == record;
    }
  }

  lemma FirstPart(partial: seq<byte>, input: seq<byte>, record: seq<byte>, rest: seq<byte>)
    requires Completes(partial, input, record, rest)
    ensures WholeRecord(record) && |record| >= HEADER_SIZE
    ensures |partial| < |record| <= |partial| + |input| && record[..|partial|] == partial
  {
    SplitAt(partial, input, record, rest, 0);
    assert partial + input[..0] == partial;
  }

  lemma PrefixSize(record: seq<byte>, k: nat)
    requires WholeRecord(record) && HEADER_SIZE <= k <= |record|
    ensures RecordSize(record[..k]) == |record|
  {
    assert DecodeHeader(record[..k]) == DecodeHeader(record);
  }

  lemma PartUnfinished(record: seq<byte>, k: nat)
    requires WholeRecord(record) && k < |record|
    ensures Unfinished(record[..k])
  {
    if k >= HEADER_SIZE {
      PrefixSize(record, k);
    }
  }

  lemma TakesRest(partial: seq<byte>, input: seq<byte>, record: seq<byte>, e: Event)
    requires WholeRecord(record) && Ample(e, record) && Unfinished(partial)
    requires |partial| < |record| <= |partial| + |input|
    requires |partial| >= HEADER_SIZE ==> RecordSize(partial) == |record|
    requires |partial| < HEADER_SIZE ==> RecordSize(partial + input[..HEADER_SIZE - |partial|]) == |record|
    ensures Taken(partial, input, e.first, e.second) == |record| - |partial|
    ensures !Throws(partial, input, e.first, e.second)
  {
    hide WholeRecord, RecordSize;
  }

  /** Where a part of a record has been read and the rest has arrived, one event takes exactly the rest,
    * however much has come behind it, and delivers the record. */
  lemma {:induction false} OneEventDelivers(partial: seq<byte>, input: seq<byte>, record: seq<byte>, rest: seq<byte>,
                                            e: Event)
    requires Completes(partial, input, record, rest) && Ample(e, record)
    ensures Unfinished(partial) && |record| - |partial| <= |input|
    ensures Taken(partial, input, e.first, e.second) == |record| - |partial|
    ensures !Throws(partial, input, e.first, e.second)
    ensures Parse(partial + input[..|record| - |partial|]) == Parsed([record], [])
    ensures input[|record| - |partial|..] == rest
  {
    hide Parse, Taken, Throws, RecordSize, Completes, WholeRecord, Unfinished;
    FirstPart(partial, input, record, rest);
    SplitAt(partial, input, record, rest, |record| - |partial|);
    PartUnfinished(record, |partial|);
    ParseWhole(record);
    if |partial| < HEADER_SIZE {
      SplitAt(partial, input, record, rest, HEADER_SIZE - |partial|);
      PrefixSize(record, HEADER_SIZE);
    } else {
      PrefixSize(record, |partial|);
    }
    TakesRest(partial, input, record, e);
  }

  /** How far events get into the stream: what they deliver and the bytes they keep. */
  function Receiving(partial: seq<byte>, input: seq<byte>, events: seq<Event>): Parsed
    decreases |events|
  {
    if events == [] || !Unfinished(partial) then Parsed([], partial)
    else
      var k := Taken(partial, input, events[0].first, events[0].second);
      var now := Parse(partial + input[..k]);
      var later := Receiving(now.tail, input[k..], events[1..]);
      Parsed(now.records + later.records, later.tail)
  }

  /** A stream of whole records is delivered with one event a record, and nothing is left over. */
  lemma {:induction false} EventPerRecord(partial: seq<byte>, input: seq<byte>, records: seq<seq<byte>>,
                                          events: seq<Event>)
    requires |events| == |records| && Unfinished(partial)
    requires forall i :: 0 <= i < |records| ==> WholeRecord(records[i]) && Ample(events[i], records[i])
    requires records == [] ==> partial == []
    requires records != [] ==> |partial| < |records[0]| && partial + input == Concat(records)
    ensures Receiving(partial, input, events) == Parsed(records, [])
    decreases |records|
  {
    hide Taken, Parse, Throws;
    if records != [] {
      var rest := Concat(records[1..]);
      OneEventDelivers(partial, input, records[0], rest, events[0]);
      var k := |records[0]| - |partial|;
      assert [] + input[k..] == rest;
      EventPerRecord([], input[k..], records[1..], events[1..]);
      assert [records[0]] + records[1..] == records;
    }
  }

  /** Where there is something to read and the kernel gives something, the event takes something. */
  lemma TakesSome(partial: seq<byte>, input: seq<byte>, e: Event)
    requires Unfinished(partial) && input != []
    requires e.first.Count? && e.first.n > 0 && e.second.Count? && e.second.n > 0
    ensures 0 < Taken(partial, input, e.first, e.second) <= |input|
    ensures !Throws(partial, input, e.first, e.second)
  {
  }

  /** A read that would block takes nothing and is no error. */
  lemma Blocks(partial: seq<byte>, input: seq<byte>, e: Event)
    requires Unfinished(partial)
    requires if |partial| < HEADER_SIZE then e.first.Again? else e.second.Again?
    ensures Taken(partial, input, e.first, e.second) == 0 && !Throws(partial, input, e.first, e.second)
  {
    assert partial + input[..0] == partial;
  }

  /** A read that fails takes nothing; the event throws. */
  lemma Fails(partial: seq<byte>, input: seq<byte>, e: Event)
    requires Unfinished(partial)
    requires if |partial| < HEADER_SIZE then e.first.Error? else e.second.Error?
    ensures Taken(partial, input, e.first, e.second) == 0 && Throws(partial, input, e.first, e.second)
  {
    assert partial + input[..0] == partial;
  }

  /** The header arrives whole and the read of the body fails: the header is kept and the event throws,
    * unless the record has no body, which is then delivered. */
  lemma BodyFails(partial: seq<byte>, input: seq<byte>, record: seq<byte>, rest: seq<byte>, e: Event)
    requires Completes(partial, input, record, rest) && |partial| < HEADER_SIZE
    requires e.first.Count? && e.first.n >= HEADER_SIZE && e.second.Error?
    ensures Unfinished(partial) && Taken(partial, input, e.first, e.second) == HEADER_SIZE - |partial|
    ensures Throws(partial, input, e.first, e.second) <==> |record| > HEADER_SIZE
  {
    var k := HEADER_SIZE - |partial|;
    SplitAt(partial, input, record, rest, k);
    PrefixSize(record, HEADER_SIZE);
    assert Moved(e.first, k, |input|) == k;
  }
}
