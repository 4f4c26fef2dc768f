/** Whole request streams, each on a fresh stream of id 1 and a fresh
    connection input queue. Allocation, the queue and the encoder may still
    refuse work, so each scenario states what holds when the operations it
    runs succeed, and what holds whatever they return. */
module Scenarios {
  import opened Base
  import opened Buckets
  import opened Queue
  import opened StreamState
  import opened Headers
  import opened H2Stream

  /** The pseudo-headers of a GET with an authority, on a fresh stream:
      each is accepted, the fields hold them, and nothing has been written
      or queued. */
  method GetPseudo(enc: Encoder) returns (q: BucketQueue, s: Stream)
    ensures fresh(q) && fresh(s) && s.dataIn == q && s.id == 1 && s.Valid()
    ensures s.Pseudo() == PseudoFields(Some("GET"), None, Some("/index.html"), Some("example.com"))
    ensures s.work.None? && q.entries == []
  {
    q := new BucketQueue();
    s := new Stream(1, q);
    var st := s.AddHeader(enc, ":method", "GET");
    st := s.AddHeader(enc, ":path", "/index.html");
    st := s.AddHeader(enc, ":authority", "example.com");
  }

  /** The header block of a GET with an authority and one regular header,
      on a fresh stream: when the regular header is accepted the slot holds
      the request start, the Host header made from :authority and the
      regular header, and nothing has been queued. */
  method GetHead(enc: Encoder) returns (q: BucketQueue, s: Stream, st: Status)
    ensures fresh(q) && fresh(s) && s.dataIn == q && s.id == 1 && s.Valid()
    ensures st == Success || st == ENoMem || st == ENameTooLong || st == QueueFailed || st == NullDeref
    ensures st == Success ==>
      s.Emitted() == RequestStart(enc, "GET", "/index.html", Some("example.com")) + enc.header("accept", "*/*")
  {
    q, s := GetPseudo(enc);
    assert s.Head(enc) == RequestStart(enc, "GET", "/index.html", Some("example.com"));
    st := s.AddHeader(enc, "accept", "*/*");
    assert st == Success ==> s.Emitted() == [] + s.Pending();
  }

  /** A GET with an authority and one regular header, end of headers and
      close of input: the queue ends with the end-of-stream marker, and the
      stream's bytes are the request start, the Host header made from
      :authority, the regular header and the separator, in that order. */
  method GetRequest(enc: Encoder) returns (st: Status, bytes: seq<byte>, last: Option<Entry>)
    ensures st == Success ==>
      bytes == RequestStart(enc, "GET", "/index.html", Some("example.com")) + enc.header("accept", "*/*") + CRLF
    ensures st == Success ==> last == Some(Eos(1))
    ensures st == Success || st == ENoMem || st == ENameTooLong || st == QueueFailed || st == NullDeref
  {
    bytes, last := [], None;
    var q, s;
    q, s, st := GetHead(enc);
    if st != Success {
      return;
    }
    st := s.EndHeaders();
    if st != Success {
      return;
    }
    st := s.CloseInput();
    if st != Success {
      return;
    }
    assert s.Emitted() == Flatten(q.entries, 1) + [];
    bytes := Flatten(q.entries, 1);
    last := Some(q.entries[|q.entries| - 1]);
  }

  /** A request body longer than one bucket and at most two, on a stream
      with an empty slot. As written, add_data never succeeds on it. With a
      fresh bucket after the push, the first 16 KiB reach the queue as one
      entry and the remainder stays in the slot. */
  method LargeBody(data: seq<byte>) returns (asWritten: Status, fixed: Status, queued: seq<Entry>, kept: seq<byte>)
    requires BucketSize < |data| <= 2 * BucketSize
    ensures asWritten != Success
    ensures fixed == Success ==> queued == [Data(1, data[..BucketSize])] && kept == data[BucketSize..]
  {
    var q1 := new BucketQueue();
    var s1 := new Stream(1, q1);
    asWritten := s1.AddData(data);

    var q2 := new BucketQueue();
    var s2 := new Stream(1, q2);
    ghost var pushed;
    fixed, pushed := s2.AddDataFixed(data);
    queued, kept := q2.entries, s2.Pending();
    var tail := data[BucketSize..];
    assert [] + tail == tail && [] + data[..BucketSize] == data[..BucketSize];
    assert [data[..BucketSize]] + [] == [data[..BucketSize]];
    assert Chunks([], tail, BucketSize) == ([], tail);
    assert Chunks([], data, BucketSize) == ([data[..BucketSize]], tail);
  }

  /** End of headers when the pending bytes leave one byte of the bucket
      free. As written, end_headers never succeeds. With a fresh bucket
      after the early push, the pending bytes and the separator reach the
      queue as two entries. */
  method NearlyFullEndHeaders(data: seq<byte>) returns (asWritten: Status, fixed: Status, queued: seq<Entry>)
    requires |data| == BucketSize - 1
    ensures asWritten != Success
    ensures fixed == Success ==> queued == [Data(1, data), Data(1, CRLF)]
  {
    var q1 := new BucketQueue();
    var s1 := new Stream(1, q1);
    asWritten := s1.AddData(data);
    if asWritten == Success {
      asWritten := s1.EndHeaders();
    }

    var q2 := new BucketQueue();
    var s2 := new Stream(1, q2);
    queued := [];
    ghost var pushed;
    fixed, pushed := s2.AddDataFixed(data);
    if fixed == Success {
      assert [] + data == data;
      assert Chunks([], data, BucketSize) == ([], data);
      fixed := s2.EndHeadersFixed();
      queued := q2.entries;
    }
  }

  /** The first regular header of a request whose start leaves one byte
      of the bucket free while the header line needs two. As written,
      add_header pushes the started bucket and then retries on the emptied
      slot, so it ends in NullDeref unless allocation or the queue refuses.
      With a fresh bucket after the push, the line is written and the
      request start is queued on its own. */
  method LongHeader(enc: Encoder) returns (asWritten: Status, fixed: Status, queued: seq<Entry>, kept: seq<byte>)
    requires |enc.start("GET", "/")| == BucketSize - 1 && |enc.header("accept", "*/*")| == 2
    ensures asWritten == NullDeref || asWritten == ENoMem || asWritten == QueueFailed
    ensures fixed == Success || fixed == ENoMem || fixed == QueueFailed
    ensures fixed == Success ==> queued == [Data(1, enc.start("GET", "/"))] && kept == enc.header("accept", "*/*")
  {
    var q1, s1 := GetRoot(enc);
    asWritten := s1.AddHeader(enc, "accept", "*/*");
    var q2, s2 := GetRoot(enc);
    fixed := s2.AddHeaderFixed(enc, "accept", "*/*");
    queued, kept := q2.entries, s2.Pending();
  }

  /** :method GET and :path / on a fresh stream: both are accepted, and the
      request start is due without a Host header. */
  method GetRoot(enc: Encoder) returns (q: BucketQueue, s: Stream)
    ensures fresh(q) && fresh(s) && s.dataIn == q && s.id == 1 && s.Valid()
    ensures s.work.None? && q.entries == [] && s.Head(enc) == enc.start("GET", "/")
  {
    q := new BucketQueue();
    s := new Stream(1, q);
    var st := s.AddHeader(enc, ":method", "GET");
    st := s.AddHeader(enc, ":path", "/");
    assert s.Head(enc) == enc.start("GET", "/") + [];
  }

  /** Once end of headers has pushed the slot empty, a pseudo-header is
      accepted again and overwrites the field it names. */
  method PseudoAfterPush(enc: Encoder) returns (ended: Status, st: Status, path: Option<string>)
    ensures ended == Success ==> st == Success && path == Some("/other")
  {
    var q, s := GetRoot(enc);
    ended := s.EndHeaders();
    assert ended == Success ==> s.work.None?;
    st := s.AddHeader(enc, ":path", "/other");
    path := s.path;
  }

  /** close_input twice, with an observer registered: the observer is
      called once, for the move from IDLE to CLOSED_INPUT, the state stays
      CLOSED_INPUT, and each call that succeeds appends one end-of-stream
      marker. */
  method CloseTwice() returns (first: Status, second: Status, state: State, notices: seq<Notice>, queued: seq<Entry>)
    ensures state == ClosedInput
    ensures notices == [Notice(7, 9, Idle, ClosedInput)]
    ensures first == Success && second == Success ==> queued == [Eos(1), Eos(1)]
  {
    var q := new BucketQueue();
    var s := new Stream(1, q);
    s.SetStateChangeCb(Some(7), 9);
    first := s.CloseInput();
    second := s.CloseInput();
    state, notices, queued := s.state, s.notices, q.entries;
  }
}
