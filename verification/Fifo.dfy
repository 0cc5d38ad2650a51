/** The plain queue that the transmission buffer has to behave like: a list of parcels, each a
  * run of bytes addressed to one connection, consumed from the front by arbitrary amounts. */
module Fifo {
  import opened Protocol
  import opened Seqs

  datatype Parcel = Parcel(id: FullId, closeFd: bool, bytes: seq<byte>)

  function Bytes(ps: seq<Parcel>): seq<byte> {
    if ps == [] then [] else ps[0].bytes + Bytes(ps[1..])
  }

  function Flatten<T>(lanes: seq<seq<T>>): seq<T> {
    if lanes == [] then [] else lanes[0] + Flatten(lanes[1..])
  }

  predicate NonEmptyParcels(ps: seq<Parcel>) {
    forall i :: 0 <= i < |ps| ==> ps[i].bytes != []
  }

  /** Consuming `n` bytes of the front parcel; the parcel leaves when nothing of it is left. */
  function Consume(ps: seq<Parcel>, n: nat): seq<Parcel>
    requires ps != [] && n <= |ps[0].bytes|
  {
    if n == |ps[0].bytes| then ps[1..]
    else [ps[0].(bytes := ps[0].bytes[n..])] + ps[1..]
  }

  lemma {:induction false} BytesAppend(a: seq<Parcel>, b: seq<Parcel>)
    ensures Bytes(a + b) == Bytes(a) + Bytes(b)
  {
    if a == [] {
      assert a + b == b;
    } else {
      BytesAppend(a[1..], b);
      assert (a + b)[0] == a[0] && (a + b)[1..] == a[1..] + b;
      Regroup(a[0].bytes, Bytes(a[1..]), Bytes(b));
    }
  }

  lemma {:induction false} FlattenAppend<T>(a: seq<seq<T>>, b: seq<seq<T>>)
    ensures Flatten(a + b) == Flatten(a) + Flatten(b)
  {
    if a == [] {
      assert a + b == b;
    } else {
      FlattenAppend(a[1..], b);
      assert (a + b)[0] == a[0] && (a + b)[1..] == a[1..] + b;
      Regroup(a[0], Flatten(a[1..]), Flatten(b));
    }
  }

  lemma {:induction false} FlattenEmpties<T>(lanes: seq<seq<T>>)
    requires forall i :: 0 <= i < |lanes| ==> lanes[i] == []
    ensures Flatten(lanes) == []
  {
    if lanes != [] {
      FlattenEmpties(lanes[1..]);
    }
  }

  /** Appending to the last lane in use appends to the whole queue. */
  lemma FlattenPush<T>(lanes: seq<seq<T>>, w: nat, x: T)
    requires w < |lanes|
    requires forall i :: w < i < |lanes| ==> lanes[i] == []
    ensures Flatten(lanes[w := lanes[w] + [x]]) == Flatten(lanes) + [x]
  {
    var pre, post := lanes[..w], lanes[w + 1..];
    assert lanes == pre + ([lanes[w]] + post);
    assert lanes[w := lanes[w] + [x]] == pre + ([lanes[w] + [x]] + post);
    FlattenAppend(pre, [lanes[w]] + post);
    FlattenAppend(pre, [lanes[w] + [x]] + post);
    FlattenEmpties(post);
    assert Flatten([lanes[w]] + post) == lanes[w];
    assert Flatten([lanes[w] + [x]] + post) == lanes[w] + [x];
  }

  lemma {:induction false} BytesConsume(ps: seq<Parcel>, n: nat)
    requires ps != [] && n <= |ps[0].bytes|
    ensures |Bytes(ps)| >= n
    ensures Bytes(Consume(ps, n)) == Bytes(ps)[n..]
  {
    if n < |ps[0].bytes| {
      assert Consume(ps, n)[1..] == ps[1..];
    }
  }

  lemma ConsumeAppend(a: seq<Parcel>, b: seq<Parcel>, n: nat)
    requires a != [] && n <= |a[0].bytes|
    ensures Consume(a + b, n) == Consume(a, n) + b
  {
    assert (a + b)[0] == a[0] && (a + b)[1..] == a[1..] + b;
    if n < |a[0].bytes| {
      Regroup([a[0].(bytes := a[0].bytes[n..])], a[1..], b);
    }
  }

  lemma {:induction false} BytesEmpty(ps: seq<Parcel>)
    requires NonEmptyParcels(ps)
    ensures Bytes(ps) == [] <==> ps == []
  {
  }
}
