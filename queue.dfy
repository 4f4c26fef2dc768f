/** The connection's input queue (session->data_in): the one object shared
    by all streams of a connection. Streams append buckets and end-of-stream
    markers keyed by their id; a consumer outside this model drains it.
    Thread safety is the queue's own concern and is not modelled. */
module Queue {
  import opened Base
  import opened Buckets

  datatype Entry = Data(id: int, bytes: seq<byte>) | Eos(id: int)

  /** The bytes an entry contributes to stream id's request. */
  function BytesFor(e: Entry, id: int): seq<byte> {
    if e.Data? && e.id == id then e.bytes else []
  }

  /** Stream id's request bytes as they stand in the queue, in queue order;
      entries of other streams and markers contribute nothing. */
  function Flatten(q: seq<Entry>, id: int): seq<byte> {
    if q == [] then [] else Flatten(q[..|q| - 1], id) + BytesFor(q[|q| - 1], id)
  }

  lemma {:induction false} FlattenAppend(a: seq<Entry>, b: seq<Entry>, id: int)
    ensures Flatten(a + b, id) == Flatten(a, id) + Flatten(b, id)
    decreases |b|
  {
    if b == [] {
      assert a + b == a;
    } else {
      var init, last := b[..|b| - 1], b[|b| - 1];
      assert b == init + [last];
      assert a + b == (a + init) + [last];
      FlattenAppend(a, init, id);
      FlattenSnoc(a + init, last, id);
      FlattenSnoc(init, last, id);
      Assoc(Flatten(a, id), Flatten(init, id), BytesFor(last, id));
    }
  }

  lemma {:induction false} FlattenSnoc(q: seq<Entry>, e: Entry, id: int)
    ensures Flatten(q + [e], id) == Flatten(q, id) + BytesFor(e, id)
  {
    assert (q + [e])[..|q|] == q;
  }

  /** The queue entries for a sequence of buckets pushed by stream id. */
  function DataEntries(id: int, cs: seq<seq<byte>>): (r: seq<Entry>)
    ensures |r| == |cs|
    ensures forall i :: 0 <= i < |r| ==> r[i] == Data(id, cs[i])
  {
    if cs == [] then [] else DataEntries(id, cs[..|cs| - 1]) + [Data(id, cs[|cs| - 1])]
  }

  lemma {:induction false} DataEntriesSnoc(id: int, cs: seq<seq<byte>>, c: seq<byte>)
    ensures DataEntries(id, cs + [c]) == DataEntries(id, cs) + [Data(id, c)]
  {
    assert (cs + [c])[..|cs|] == cs;
  }

  lemma {:induction false} FlattenDataEntries(id: int, cs: seq<seq<byte>>)
    ensures Flatten(DataEntries(id, cs), id) == Concat(cs)
    decreases |cs|
  {
    if cs != [] {
      var init := cs[..|cs| - 1];
      var last := cs[|cs| - 1];
      FlattenDataEntries(id, init);
      FlattenAppend(DataEntries(id, init), [Data(id, last)], id);
      assert [Data(id, last)][..0] == [];
      ConcatSnoc(init, last);
      assert init + [last] == cs;
    }
  }

  /** Pushing the buckets done after q, with tail still held back, yields
      q's bytes, then the buckets' bytes in order, then tail. */
  lemma {:induction false} FlattenPushed(q: seq<Entry>, id: int, done: seq<seq<byte>>, tail: seq<byte>)
    ensures Flatten(q + DataEntries(id, done), id) + tail == Flatten(q, id) + Concat(done) + tail
  {
    FlattenAppend(q, DataEntries(id, done), id);
    FlattenDataEntries(id, done);
  }

  /** Distributing data over buckets as Chunks does and queueing every full
      bucket loses, duplicates and reorders nothing: the queue followed by
      the bucket kept back holds exactly the bytes it held before, then
      pending, then data. */
  lemma {:induction false} ChunkedPushConserves(q: seq<Entry>, id: int, pending: seq<byte>, data: seq<byte>)
    requires |pending| <= BucketSize
    ensures Flatten(q + DataEntries(id, Chunks(pending, data, BucketSize).0), id) + Chunks(pending, data, BucketSize).1
            == Flatten(q, id) + pending + data
  {
    var c := Chunks(pending, data, BucketSize);
    FlattenPushed(q, id, c.0, c.1);
    ChunksConserve(pending, data, BucketSize);
    Reassociate(Flatten(q, id), Concat(c.0), c.1, pending, data);
  }

  /** Whether the separator after a stream's pending bytes travels in the
      same entry or in an entry of its own, the stream's bytes are the
      same: those queued before, the pending bytes, then the separator. */
  lemma {:induction false} SeparatorConserves(q: seq<Entry>, id: int, pending: seq<byte>, sep: seq<byte>)
    ensures Flatten(q + [Data(id, pending + sep)], id) == Flatten(q, id) + pending + sep
    ensures Flatten(q + [Data(id, pending), Data(id, sep)], id) == Flatten(q, id) + pending + sep
  {
    var a, b := Data(id, pending), Data(id, sep);
    FlattenSnoc(q, Data(id, pending + sep), id);
    FlattenSnoc(q, a, id);
    FlattenSnoc(q + [a], b, id);
    assert q + [a] + [b] == q + [a, b];
    Assoc(Flatten(q, id), pending, sep);
  }

  class BucketQueue {
    var entries: seq<Entry>

    constructor ()
      ensures entries == []
    {
      entries := [];
    }

    /** h2_bucket_queue_append: takes over a bucket for stream id, or
        refuses it and leaves the queue as it was. */
    method Append(b: Bucket, id: int) returns (st: Status)
      modifies this
      ensures st == Success || st == QueueFailed
      ensures st == Success ==> entries == old(entries) + [Data(id, b.data)]
      ensures st == QueueFailed ==> entries == old(entries)
    {
      var accepted: bool := *;
      if accepted {
        entries := entries + [Data(id, b.data)];
        st := Success;
      } else {
        st := QueueFailed;
      }
    }

    /** h2_bucket_queue_append_eos: marks the end of stream id's input, or
        refuses and leaves the queue as it was. */
    method AppendEos(id: int) returns (st: Status)
      modifies this
      ensures st == Success || st == QueueFailed
      ensures st == Success ==> entries == old(entries) + [Eos(id)]
      ensures st == QueueFailed ==> entries == old(entries)
    {
      var accepted: bool := *;
      if accepted {
        entries := entries + [Eos(id)];
        st := Success;
      } else {
        st := QueueFailed;
      }
    }
  }
}
