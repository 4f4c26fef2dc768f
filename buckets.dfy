/** The collaborators a stream writes into: the bounded work bucket
    (h2_bucket_*) and the request-frame encoder (h2_frame_req_add_*).
    Neither implementation is part of this model; both are stated by the
    contract the stream relies on. */
module Buckets {
  import opened Base

  /** Capacity of every work bucket a stream allocates: 16 KiB. */
  const BucketSize: nat := 16 * 1024

  /** A bucket: the bytes written so far and its fixed capacity. */
  datatype Bucket = Bucket(data: seq<byte>, cap: nat)

  predicate WellFormed(b: Bucket) {
    |b.data| <= b.cap
  }

  function Free(b: Bucket): nat
    requires WellFormed(b)
  {
    b.cap - |b.data|
  }

  /** h2_bucket_has_free: room for n more bytes. */
  predicate HasFree(b: Bucket, n: nat)
    requires WellFormed(b)
  {
    n <= Free(b)
  }

  /** h2_bucket_alloc: an empty bucket of the given capacity, or nothing when
      memory is exhausted (which of the two is the allocator's choice). */
  method AllocBucket(cap: nat) returns (b: Option<Bucket>)
    ensures b.Some? ==> b.value == Bucket([], cap)
  {
    var granted: bool := *;
    b := if granted then Some(Bucket([], cap)) else None;
  }

  /** h2_bucket_append (and h2_bucket_cat): copies as many leading bytes of
      d as fit and reports how many it copied; a short count means the
      bucket is now full. */
  function Append(b: Bucket, d: seq<byte>): (r: (Bucket, nat))
    requires WellFormed(b)
    ensures WellFormed(r.0) && r.0.cap == b.cap
    ensures r.1 <= |d| && r.0.data == b.data + d[..r.1]
    ensures r.1 < |d| ==> Free(r.0) == 0
  {
    var n := if |d| <= Free(b) then |d| else Free(b);
    (Bucket(b.data + d[..n], b.cap), n)
  }

  /** The request-frame encoder: the bytes of a request start for a method
      and a path, and the bytes of one header line for a name and a value.
      Its textual format is not part of this model, so it is a parameter. */
  datatype Encoder = Encoder(start: (string, string) -> seq<byte>,
                             header: (string, string) -> seq<byte>)

  /** One encoder write into a bucket: it lands whole when it fits and
      otherwise leaves the bucket untouched and reports ENameTooLong. */
  function Write(b: Bucket, bytes: seq<byte>): (r: (Status, Bucket))
    requires WellFormed(b)
    ensures WellFormed(r.1) && r.1.cap == b.cap
    ensures r.0 == Success || r.0 == ENameTooLong
    ensures r.0 == Success <==> HasFree(b, |bytes|)
    ensures r.0 == Success ==> r.1.data == b.data + bytes
    ensures r.0 == ENameTooLong ==> r.1 == b
  {
    if |bytes| <= Free(b) then (Success, Bucket(b.data + bytes, b.cap))
    else (ENameTooLong, b)
  }

  /** Name of the header synthesized from :authority. */
  const HostName: string := "Host"

  /** What the first regular header of a request is preceded by: the request
      start, then a Host header when an authority is known. */
  function RequestStart(enc: Encoder, meth: string, path: string,
                        authority: Option<string>): seq<byte>
  {
    enc.start(meth, path)
      + (if authority.Some? then enc.header(HostName, authority.value) else [])
  }

  /** The bytes of a sequence of chunks, in order. */
  function Concat(cs: seq<seq<byte>>): seq<byte> {
    if cs == [] then [] else cs[0] + Concat(cs[1..])
  }

  lemma {:induction false} ConcatSnoc(cs: seq<seq<byte>>, c: seq<byte>)
    ensures Concat(cs + [c]) == Concat(cs) + c
  {
    if cs == [] {
      assert [] + [c] == [c];
      assert [c][1..] == [];
    } else {
      assert (cs + [c])[1..] == cs[1..] + [c];
      ConcatSnoc(cs[1..], c);
    }
  }

  /** How add_data distributes data over buckets of capacity cap, starting
      from a bucket that already holds pending: every bucket that fills up
      is handed on (the first component, in order) and the last one stays
      as the current bucket (the second component). Data that fits leaves
      everything in the current bucket. */
  function Chunks(pending: seq<byte>, data: seq<byte>, cap: nat): (r: (seq<seq<byte>>, seq<byte>))
    requires |pending| <= cap && 0 < cap
    ensures |r.1| <= cap
    ensures r.0 == [] <==> |pending| + |data| <= cap
    decreases |data|, |pending|
  {
    var free := cap - |pending|;
    if |data| <= free then
      ([], pending + data)
    else
      var tail := Chunks([], data[free..], cap);
      ([pending + data[..free]] + tail.0, tail.1)
  }

  /** Chunks neither drops, duplicates nor reorders a byte. */
  lemma {:induction false} ChunksConserve(pending: seq<byte>, data: seq<byte>, cap: nat)
    requires |pending| <= cap && 0 < cap
    ensures Concat(Chunks(pending, data, cap).0) + Chunks(pending, data, cap).1 == pending + data
    decreases |data|, |pending|
  {
    var free := cap - |pending|;
    if |data| > free {
      var rest := data[free..];
      var head := pending + data[..free];
      var tail := Chunks([], rest, cap);
      assert Chunks(pending, data, cap) == ([head] + tail.0, tail.1);
      ChunksConserve([], rest, cap);
      ConcatCons(head, tail.0);
      SplitJoin(pending, data, free);
      Reassociate(head, Concat(tail.0), tail.1, [], rest);
    }
  }

  lemma {:induction false} ConcatCons(c: seq<byte>, cs: seq<seq<byte>>)
    ensures Concat([c] + cs) == c + Concat(cs)
  {
    assert ([c] + cs)[1..] == cs;
  }

  lemma {:induction false} Assoc<T>(x: seq<T>, y: seq<T>, z: seq<T>)
    ensures x + y + z == x + (y + z)
  {
  }

  lemma {:induction false} SplitJoin(a: seq<byte>, d: seq<byte>, k: nat)
    requires k <= |d|
    ensures a + d[..k] + d[k..] == a + d
  {
    assert d[..k] + d[k..] == d;
  }

  /** One step of Chunks: when the first w bytes of rest fill the bucket
      holding pending, that bucket is handed on and the rest of rest starts
      a new one. */
  lemma {:induction false} ChunksStep(pending: seq<byte>, rest: seq<byte>, w: nat, cap: nat)
    requires 0 < cap && |pending| + w == cap && w < |rest|
    ensures Chunks(pending, rest, cap).0 == [pending + rest[..w]] + Chunks([], rest[w..], cap).0
    ensures Chunks(pending, rest, cap).1 == Chunks([], rest[w..], cap).1
  {
  }

  /** Data that fits is kept whole in the current bucket, which then has
      nothing more to distribute. */
  lemma {:induction false} ChunksFit(pending: seq<byte>, rest: seq<byte>, cap: nat)
    requires 0 < cap && |pending| + |rest| <= cap
    ensures Chunks(pending, rest, cap) == ([], pending + rest)
    ensures Chunks(pending + rest, [], cap) == ([], pending + rest)
  {
    assert pending + rest + [] == pending + rest;
  }

  /** Where add_data stands: total is the distribution of everything it
      was given, its first pushed buckets have been handed on, and what is
      left of it is the distribution of the pending bytes followed by the
      bytes still to append. */
  ghost predicate Tracks(total: (seq<seq<byte>>, seq<byte>), pushed: nat, pending: seq<byte>, rest: seq<byte>)
  {
    |pending| <= BucketSize && pushed <= |total.0| &&
    total.0[pushed..] == Chunks(pending, rest, BucketSize).0 &&
    total.1 == Chunks(pending, rest, BucketSize).1
  }

  /** A round that fills the current bucket with the first w bytes of rest
      hands on exactly the next bucket of the distribution, and the bytes
      after them, in an empty bucket, account for the rest of it. */
  lemma {:induction false} TracksFill(total: (seq<seq<byte>>, seq<byte>), pushed: nat, pending: seq<byte>, rest: seq<byte>, w: nat)
    requires Tracks(total, pushed, pending, rest)
    requires |pending| + w == BucketSize && w < |rest|
    ensures pushed + 1 <= |total.0| && total.0[pushed] == pending + rest[..w]
    ensures total.0[..pushed + 1] == total.0[..pushed] + [pending + rest[..w]]
    ensures Tracks(total, pushed + 1, [], rest[w..])
  {
    ChunksStep(pending, rest, w, BucketSize);
    Advance(total.0, pushed, pending + rest[..w], Chunks([], rest[w..], BucketSize).0);
  }

  /** A round in which the rest fits keeps it all in the current bucket,
      and the distribution has nothing left to hand on. */
  lemma {:induction false} TracksKeep(total: (seq<seq<byte>>, seq<byte>), pushed: nat, pending: seq<byte>, rest: seq<byte>)
    requires Tracks(total, pushed, pending, rest)
    requires |pending| + |rest| <= BucketSize
    ensures Tracks(total, pushed, pending + rest, [])
  {
    ChunksFit(pending, rest, BucketSize);
  }

  /** Once nothing is left to append, every bucket of the distribution has
      been handed on and the current bucket holds its last part. */
  lemma {:induction false} TracksDone(total: (seq<seq<byte>>, seq<byte>), pushed: nat, pending: seq<byte>)
    requires Tracks(total, pushed, pending, [])
    ensures pushed == |total.0| && total.1 == pending
  {
    ChunksFit(pending, [], BucketSize);
    assert pending + [] == pending;
  }

  /** Handing on the next element of a sequence moves it from the part
      after k to the part before. */
  lemma {:induction false} Advance<T>(whole: seq<T>, k: nat, x: T, tail: seq<T>)
    requires k <= |whole| && whole[k..] == [x] + tail
    ensures k + 1 <= |whole| && whole[..k + 1] == whole[..k] + [x] && whole[k + 1..] == tail
  {
    assert whole == whole[..k] + whole[k..];
  }

  /** Every bucket Chunks hands on is filled to capacity. */
  lemma {:induction false} ChunksFull(pending: seq<byte>, data: seq<byte>, cap: nat)
    requires |pending| <= cap && 0 < cap
    ensures forall i :: 0 <= i < |Chunks(pending, data, cap).0| ==> |Chunks(pending, data, cap).0[i]| == cap
    decreases |data|, |pending|
  {
    var free := cap - |pending|;
    if |data| > free {
      var tail := Chunks([], data[free..], cap);
      var head := pending + data[..free];
      ChunksFull([], data[free..], cap);
      assert Chunks(pending, data, cap).0 == [head] + tail.0;
    }
  }

  /** Equal sums stay equal under the same prefix. */
  lemma {:induction false} Reassociate(f: seq<byte>, a: seq<byte>, b: seq<byte>, c: seq<byte>, d: seq<byte>)
    requires a + b == c + d
    ensures f + a + b == f + c + d
  {
    assert f + a + b == f + (a + b);
    assert f + c + d == f + (c + d);
  }
}
