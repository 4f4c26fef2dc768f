/** h2_stream: one request stream of an HTTP/2 connection. It records the
    stream's lifecycle state and pseudo-headers and turns the stream's
    header and data events into request bytes, collected in an exclusively
    owned work bucket that is handed to the connection's input queue. */
module H2Stream {
  import opened Base
  import opened Buckets
  import opened Queue
  import opened StreamState
  import opened Headers

  class Stream {
    const id: int
    /** The connection's input queue (session->data_in), shared by all
        streams of the connection. */
    const dataIn: BucketQueue
    var state: State
    /** The work slot: the bucket being filled, absent between a push and
        the next write that allocates one. */
    var work: Option<Bucket>
    var eoh: bool
    var aborted: bool
    var requestMethod: Option<string>
    var scheme: Option<string>
    var path: Option<string>
    var authority: Option<string>
    var stateChangeCb: Option<CallbackId>
    var stateChangeCtx: Context
    /** The calls made to the state-change callback, in order. */
    var notices: seq<Notice>

    /** Every bucket in the slot came from check_work and respects its
        capacity. */
    ghost predicate Valid()
      reads this
    {
      work.Some? ==> WellFormed(work.value) && work.value.cap == BucketSize
    }

    /** The bytes waiting in the work slot. */
    function Pending(): seq<byte>
      reads this
    {
      if work.Some? then work.value.data else []
    }

    /** The request bytes this stream has produced so far: those handed to
        the queue, in queue order, followed by those still in the slot. */
    ghost function Emitted(): seq<byte>
      reads this, dataIn
    {
      Flatten(dataIn.entries, id) + Pending()
    }

    /** The queue entries a push of the current slot adds. */
    function SlotEntries(): seq<Entry>
      reads this
    {
      if work.Some? then [Data(id, work.value.data)] else []
    }

    function Pseudo(): PseudoFields
      reads this
    {
      PseudoFields(requestMethod, scheme, path, authority)
    }

    /** Both pseudo-headers a request start needs are known. */
    predicate Ready()
      reads this
    {
      requestMethod.Some? && path.Some?
    }

    /** What a regular header is preceded by: with no bucket in the slot it
        counts as the first one of the request and brings the request start
        along; with a bucket present nothing. */
    function Prologue(enc: Encoder): seq<byte>
      reads this
    {
      if work.None? && Ready()
      then RequestStart(enc, requestMethod.value, path.value, authority)
      else []
    }

    /** What a fresh bucket holds when the request start does not fit it
        whole: the request line alone when only the Host header overflows,
        nothing when the request line itself does not fit. */
    function PartialStart(enc: Encoder): (r: seq<byte>)
      reads this
      requires Ready()
      ensures r == [] || r == enc.start(requestMethod.value, path.value)
      ensures |r| <= BucketSize
    {
      var line := enc.start(requestMethod.value, path.value);
      if |line| <= BucketSize then line else []
    }

    /** The request start, when one is due, fits an empty bucket, so a
        regular header gets as far as its own write. */
    predicate StartFits(enc: Encoder)
      reads this
    {
      work.Some? || |Prologue(enc)| <= BucketSize
    }

    /** What the slot holds when a regular header's own write begins:
        the pending bytes, or the request start in a fresh bucket. */
    function Head(enc: Encoder): seq<byte>
      reads this
    {
      Pending() + Prologue(enc)
    }

    /** h2_stream_create: a zero-initialised stream in state IDLE. */
    constructor (id: int, dataIn: BucketQueue)
      ensures this.id == id && this.dataIn == dataIn
      ensures state == Idle && work.None? && !eoh && !aborted
      ensures Pseudo() == PseudoFields(None, None, None, None)
      ensures stateChangeCb.None? && notices == []
      ensures Valid()
    {
      this.id := id;
      this.dataIn := dataIn;
      state := Idle;
      work := None;
      eoh := false;
      aborted := false;
      requestMethod, scheme, path, authority := None, None, None, None;
      stateChangeCb, stateChangeCtx := None, 0;
      notices := [];
    }

    /** h2_stream_destroy: releases any bucket in the slot. */
    method Destroy() returns (st: Status)
      modifies this`work
      ensures st == Success && work.None?
    {
      work := None;
      st := Success;
    }

    /** h2_stream_abort: raises the abort flag; nothing else changes. */
    method Abort()
      modifies this`aborted
      ensures aborted
    {
      if !aborted {
        aborted := true;
      }
    }

    /** h2_stream_set_state_change_cb: registers (or, with None, removes)
        the observer of state changes and its context. */
    method SetStateChangeCb(cb: Option<CallbackId>, ctx: Context)
      modifies this`stateChangeCb, this`stateChangeCtx
      ensures stateChangeCb == cb && stateChangeCtx == ctx
    {
      stateChangeCb, stateChangeCtx := cb, ctx;
    }

    /** set_state: moves to s; the observer, when registered, is called
        with the state left behind exactly when the state really changes. */
    method SetState(s: State)
      modifies this`state, this`notices
      ensures state == s
      ensures notices == old(notices) + Notices(stateChangeCb, stateChangeCtx, old(state), s)
      ensures old(state) == s ==> notices == old(notices)
    {
      if state != s {
        var oldState := state;
        state := s;
        if stateChangeCb.Some? {
          notices := notices + [Notice(stateChangeCb.value, stateChangeCtx, oldState, state)];
        }
      }
    }

    /** h2_stream_check_work: makes sure the slot holds a bucket, allocating
        an empty 16 KiB one when it is absent; ENoMem when that fails. */
    method CheckWork() returns (st: Status)
      requires Valid()
      modifies this`work
      ensures Valid()
      ensures st == Success || st == ENoMem
      ensures st == Success <==> work.Some?
      ensures old(work).Some? ==> work == old(work)
      ensures old(work).None? && work.Some? ==> work.value == Bucket([], BucketSize)
      ensures Pending() == old(Pending())
    {
      if work.None? {
        work := AllocBucket(BucketSize);
        if work.None? {
          return ENoMem;
        }
      }
      st := Success;
    }

    /** h2_stream_push: hands the bucket in the slot to the queue under the
        stream's id. On success the queue gains exactly that one entry at
        its end and the slot is empty; on failure nothing changes. */
    method Push() returns (st: Status)
      requires Valid() && work.Some?
      modifies this`work, dataIn
      ensures Valid()
      ensures st == Success || st == QueueFailed
      ensures st == Success ==> work.None? && dataIn.entries == old(dataIn.entries) + [Data(id, old(work).value.data)]
      ensures st == QueueFailed ==> work == old(work) && dataIn.entries == old(dataIn.entries)
      ensures Emitted() == old(Emitted())
    {
      FlattenSnoc(dataIn.entries, Data(id, work.value.data), id);
      st := dataIn.Append(work.value, id);
      if st == Success {
        work := None;
      }
    }

    /** h2_stream_end_headers, as written. It makes sure a bucket exists
        and sets eoh; when fewer than 2 bytes are free it pushes first, and
        then writes CRLF into the slot that push has emptied. So it
        succeeds only when the separator fits, and then pushes the pending
        bytes with CRLF appended as one entry. */
    method EndHeaders() returns (st: Status)
      requires Valid()
      modifies this`work, this`eoh, dataIn
      ensures Valid()
      ensures st == Success || st == ENoMem || st == QueueFailed || st == NullDeref
      ensures st == ENoMem ==> old(work).None? && work.None? && eoh == old(eoh) && dataIn.entries == old(dataIn.entries)
      ensures st != ENoMem ==> eoh
      ensures st == Success ==> work.None? && dataIn.entries == old(dataIn.entries) + [Data(id, old(Pending()) + CRLF)]
      ensures st == Success ==> Emitted() == old(Emitted()) + CRLF
      ensures st == QueueFailed ==> dataIn.entries == old(dataIn.entries)
      ensures st == QueueFailed && old(work).Some? && !HasFree(old(work).value, 2) ==> work == old(work)
      ensures st == QueueFailed && (old(work).None? || HasFree(old(work).value, 2)) ==>
        work == Some(Bucket(old(Pending()) + CRLF, BucketSize))
      ensures st == NullDeref ==> work.None? && dataIn.entries == old(dataIn.entries) + [Data(id, old(Pending()))]
      ensures old(work).Some? && !HasFree(old(work).value, 2) ==> st != Success
      ensures (old(work).None? || HasFree(old(work).value, 2)) ==> st != NullDeref
    {
      st := CheckWork();
      if st != Success {
        return;
      }
      eoh := true;
      if !HasFree(work.value, 2) {
        st := Push();
      }
      if st == Success {
        if work.None? {
          // line 132 writes the separator into the slot the push emptied
          return NullDeref;
        }
        assert CRLF[..2] == CRLF;
        work := Some(Append(work.value, CRLF).0);
        st := Push();
      }
    }

    /** The early push of the corrected end_headers: when the bucket in the
        slot has no room for n more bytes, it is pushed and a fresh one
        allocated; the stream's bytes stay as they were either way. */
    method MakeRoom(n: nat) returns (st: Status)
      requires Valid() && work.Some? && n <= BucketSize
      modifies this`work, dataIn
      ensures Valid()
      ensures st == Success || st == ENoMem || st == QueueFailed
      ensures st == Success ==> work.Some? && HasFree(work.value, n)
      ensures st == Success ==>
        (HasFree(old(work).value, n) && work == old(work) && dataIn.entries == old(dataIn.entries)) ||
        (!HasFree(old(work).value, n) && work == Some(Bucket([], BucketSize)) &&
         dataIn.entries == old(dataIn.entries) + [Data(id, old(Pending()))])
      ensures st == ENoMem ==>
        !HasFree(old(work).value, n) && work.None? && dataIn.entries == old(dataIn.entries) + [Data(id, old(Pending()))]
      ensures st == QueueFailed ==>
        !HasFree(old(work).value, n) && work == old(work) && dataIn.entries == old(dataIn.entries)
      ensures Emitted() == old(Emitted())
    {
      st := Success;
      if !HasFree(work.value, n) {
        st := Push();
        if st == Success {
          st := CheckWork();
        }
      }
    }

    /** end_headers with a fresh bucket allocated after the early push, so
        that the separator always reaches the queue: as its own entry when
        the pending bucket had no room for it. */
    method EndHeadersFixed() returns (st: Status)
      requires Valid()
      modifies this`work, this`eoh, dataIn
      ensures Valid()
      ensures st == Success || st == ENoMem || st == QueueFailed
      ensures st == Success ==> eoh && work.None?
      ensures st == Success && (old(work).None? || HasFree(old(work).value, 2)) ==>
        dataIn.entries == old(dataIn.entries) + [Data(id, old(Pending()) + CRLF)]
      ensures st == Success && old(work).Some? && !HasFree(old(work).value, 2) ==>
        dataIn.entries == old(dataIn.entries) + [Data(id, old(Pending())), Data(id, CRLF)]
      ensures st == ENoMem && old(work).None? ==>
        work.None? && eoh == old(eoh) && dataIn.entries == old(dataIn.entries)
      ensures st != ENoMem || old(work).Some? ==> eoh
      ensures st == ENoMem && old(work).Some? ==>
        !HasFree(old(work).value, 2) && work.None? && dataIn.entries == old(dataIn.entries) + [Data(id, old(Pending()))]
      ensures st == QueueFailed && (old(work).None? || HasFree(old(work).value, 2)) ==>
        dataIn.entries == old(dataIn.entries) && work == Some(Bucket(old(Pending()) + CRLF, BucketSize))
      ensures st == QueueFailed && old(work).Some? && !HasFree(old(work).value, 2) ==>
        (dataIn.entries == old(dataIn.entries) && work == old(work)) ||
        (dataIn.entries == old(dataIn.entries) + [Data(id, old(Pending()))] && work == Some(Bucket(CRLF, BucketSize)))
    {
      st := CheckWork();
      if st != Success {
        return;
      }
      eoh := true;
      st := MakeRoom(2);
      if st == Success {
        ghost var before := work.value.data;
        ghost var queued := dataIn.entries;
        st := PushSeparator();
        if queued != old(dataIn.entries) {
          assert before == [] && [] + CRLF == CRLF;
          assert queued + [Data(id, CRLF)] == old(dataIn.entries) + [Data(id, old(Pending())), Data(id, CRLF)];
        }
      }
    }

    /** The tail of end_headers once the slot has room: CRLF is appended to
        the bucket, which is then pushed; when the queue refuses, the
        bucket stays in the slot with CRLF in it. */
    method PushSeparator() returns (st: Status)
      requires Valid() && work.Some? && HasFree(work.value, 2)
      modifies this`work, dataIn
      ensures Valid()
      ensures st == Success || st == QueueFailed
      ensures st == Success ==> work.None? && dataIn.entries == old(dataIn.entries) + [Data(id, old(Pending()) + CRLF)]
      ensures st == QueueFailed ==>
        dataIn.entries == old(dataIn.entries) && work == Some(Bucket(old(Pending()) + CRLF, BucketSize))
    {
      assert CRLF[..2] == CRLF;
      work := Some(Append(work.value, CRLF).0);
      st := Push();
    }

    /** The state switch at the head of h2_stream_close_input. */
    method CloseInputTransition()
      modifies this`state, this`notices
      ensures state == CloseInputState(old(state))
      ensures notices == old(notices) + Notices(stateChangeCb, stateChangeCtx, old(state), state)
    {
      match state {
        case ClosedInput =>
        case Closed =>
        case ClosedOutput =>
          SetState(Closed);
        case _ =>
          SetState(ClosedInput);
      }
    }

    /** h2_stream_close_input: closes the input side of the lifecycle
        (notifying the observer on a real change), pushes a pending bucket
        and then, only if that push succeeded, appends an end-of-stream
        marker; a repeated call appends another marker. */
    method CloseInput() returns (st: Status)
      requires Valid()
      modifies this`state, this`notices, this`work, dataIn
      ensures Valid()
      ensures state == CloseInputState(old(state))
      ensures notices == old(notices) + Notices(stateChangeCb, stateChangeCtx, old(state), state)
      ensures st == Success || st == QueueFailed
      ensures st == Success ==> work.None? && dataIn.entries == old(dataIn.entries) + old(SlotEntries()) + [Eos(id)]
      ensures st == QueueFailed ==>
        (work == old(work) && dataIn.entries == old(dataIn.entries)) ||
        (work.None? && dataIn.entries == old(dataIn.entries) + old(SlotEntries()))
      ensures Emitted() == old(Emitted())
    {
      CloseInputTransition();
      st := Success;
      if work.Some? {
        st := Push();
      }
      if st == Success {
        FlattenSnoc(dataIn.entries, Eos(id), id);
        st := dataIn.AppendEos(id);
      }
    }
    /** The pseudo-header branch of h2_stream_add_header. It is refused
        while a bucket is in the slot or when the value is empty, without
        any field changing; otherwise an exact match on one of the four
        names overwrites that field and an unknown name changes nothing. */
    method AddPseudoHeader(name: string, value: string) returns (st: Status)
      requires IsPseudo(name)
      modifies this`requestMethod, this`scheme, this`path, this`authority
      ensures work.Some? || |value| == 0 ==> st == EGeneral && Pseudo() == old(Pseudo())
      ensures work.None? && |value| > 0 ==> st == Success && Pseudo() == ApplyPseudo(old(Pseudo()), name, value)
    {
      if work.Some? {
        return EGeneral;
      }
      st := Success;
      if |value| == 0 {
        st := EGeneral;
      } else if name == FieldName(Method) {
        requestMethod := Some(value);
      } else if name == FieldName(Scheme) {
        scheme := Some(value);
      } else if name == FieldName(Path) {
        path := Some(value);
      } else if name == FieldName(Authority) {
        authority := Some(value);
      }
    }

    /** The part of h2_stream_add_header that runs when a regular header
        finds no bucket in the slot: it checks that :method and :path are
        known (EGeneral otherwise, nothing allocated), obtains a bucket and
        writes the request start and, when an authority is known, a Host
        header into it. With a bucket present it does nothing. */
    method StartRequest(enc: Encoder) returns (st: Status)
      requires Valid()
      modifies this`work
      ensures Valid()
      ensures st == Success || st == EGeneral || st == ENoMem || st == ENameTooLong
      ensures old(work).Some? ==> st == Success && work == old(work)
      ensures st == EGeneral <==> old(work).None? && !Ready()
      ensures st == EGeneral || st == ENoMem ==> work == old(work)
      ensures st == ENoMem ==> old(work).None?
      ensures st != EGeneral && st != ENoMem ==> (st == Success <==> old(StartFits(enc)))
      ensures st == Success ==> work.Some? && work.value.data == old(Head(enc))
      ensures st == ENameTooLong ==>
        old(work).None? && Ready() && work.Some? && work.value.data == PartialStart(enc)
    {
      st := Success;
      if work.None? {
        if requestMethod.None? {
          return EGeneral;
        }
        if path.None? {
          return EGeneral;
        }
        st := CheckWork();
        if st != Success {
          return;
        }
        var r := Write(work.value, enc.start(requestMethod.value, path.value));
        st, work := r.0, Some(r.1);
        if st == Success && authority.Some? {
          r := Write(work.value, enc.header(HostName, authority.value));
          st, work := r.0, Some(r.1);
        }
      }
    }

    /** The regular-header branch of h2_stream_add_header, as written.
        With no bucket in the slot the header counts as the first one: it
        needs :method and :path (EGeneral, nothing allocated, otherwise),
        then a bucket receives the request start, a Host header when an
        authority is known, and the header. A header that fits is written
        without queueing anything; one that does not fit an empty bucket is
        refused; one that does not fit a non-empty bucket pushes it, and the
        retry is made on the slot the push has emptied. */
    method AddRegularHeader(enc: Encoder, name: string, value: string) returns (st: Status)
      requires Valid()
      modifies this`work, dataIn
      ensures Valid()
      ensures st == Success || st == EGeneral || st == ENoMem || st == ENameTooLong || st == QueueFailed || st == NullDeref
      ensures st == EGeneral <==> old(work).None? && !Ready()
      ensures st == EGeneral || st == ENoMem ==> work == old(work) && dataIn.entries == old(dataIn.entries)
      ensures st == ENoMem ==> old(work).None?
      ensures st != EGeneral && st != ENoMem && old(StartFits(enc)) ==>
        (st == Success <==> |old(Head(enc))| + |enc.header(name, value)| <= BucketSize)
      ensures st == ENameTooLong ==> !old(StartFits(enc)) || |old(Head(enc))| == 0
      ensures st == QueueFailed || st == NullDeref ==>
        old(StartFits(enc)) && |old(Head(enc))| > 0 && |old(Head(enc))| + |enc.header(name, value)| > BucketSize
      ensures st != EGeneral && st != ENoMem && old(StartFits(enc)) &&
              |old(Head(enc))| > 0 && |old(Head(enc))| + |enc.header(name, value)| > BucketSize ==>
        st == QueueFailed || st == NullDeref
      ensures st == Success ==> dataIn.entries == old(dataIn.entries) && work.Some?
      ensures st == Success ==> work.value.data == old(Head(enc)) + enc.header(name, value)
      ensures st == ENameTooLong ==> dataIn.entries == old(dataIn.entries) && work.Some?
      ensures st == ENameTooLong && old(StartFits(enc)) ==> work.value.data == old(Head(enc))
      ensures st == ENameTooLong && !old(StartFits(enc)) ==>
        old(work).None? && Ready() && work.value.data == PartialStart(enc)
      ensures st == QueueFailed ==>
        dataIn.entries == old(dataIn.entries) && work == Some(Bucket(old(Head(enc)), BucketSize))
      ensures st == NullDeref ==>
        work.None? && dataIn.entries == old(dataIn.entries) + [Data(id, old(Head(enc)))]
    {
      st := StartRequest(enc);
      if st == Success {
        var r := Write(work.value, enc.header(name, value));
        st, work := r.0, Some(r.1);
        if st == ENameTooLong && |work.value.data| > 0 {
          st := Push();
          if st == Success {
            // line 264 retries on the slot the push has just emptied
            st := NullDeref;
          }
        }
      }
    }

    /** The header write at the end of the corrected regular-header
        branch: a line that fits is written in place; one that does not fit
        an empty bucket is refused; one that does not fit a non-empty bucket
        pushes it, and the write is retried once in a fresh bucket. */
    method WriteHeaderRetrying(enc: Encoder, name: string, value: string) returns (st: Status)
      requires Valid() && work.Some?
      modifies this`work, dataIn
      ensures Valid()
      ensures st == Success || st == ENoMem || st == ENameTooLong || st == QueueFailed
      ensures HasFree(old(work).value, |enc.header(name, value)|) ==>
        st == Success && dataIn.entries == old(dataIn.entries) &&
        work.Some? && work.value.data == old(Pending()) + enc.header(name, value)
      ensures !HasFree(old(work).value, |enc.header(name, value)|) && |old(Pending())| == 0 ==>
        st == ENameTooLong && work == old(work) && dataIn.entries == old(dataIn.entries)
      ensures !HasFree(old(work).value, |enc.header(name, value)|) && |old(Pending())| > 0 ==>
        st == QueueFailed || dataIn.entries == old(dataIn.entries) + [Data(id, old(Pending()))]
      ensures !HasFree(old(work).value, |enc.header(name, value)|) && |old(Pending())| > 0 &&
              st != QueueFailed && st != ENoMem ==>
        work.Some? && (st == Success <==> |enc.header(name, value)| <= BucketSize)
      ensures st == Success && !HasFree(old(work).value, |enc.header(name, value)|) ==>
        work.Some? && work.value.data == enc.header(name, value)
      ensures st == ENameTooLong && |old(Pending())| > 0 ==> work == Some(Bucket([], BucketSize))
      ensures st == QueueFailed ==> work == old(work) && dataIn.entries == old(dataIn.entries)
      ensures st == ENoMem ==> work.None?
      ensures st == Success ==> work.Some? && Emitted() == old(Emitted()) + enc.header(name, value)
      ensures st != Success ==> Emitted() == old(Emitted())
    {
      ghost var line := enc.header(name, value);
      var r := Write(work.value, enc.header(name, value));
      st, work := r.0, Some(r.1);
      if st == ENameTooLong && |work.value.data| > 0 {
        st := Push();
        if st == Success {
          st := CheckWork();
          if st == Success {
            r := Write(work.value, enc.header(name, value));
            st, work := r.0, Some(r.1);
            assert st == Success ==> work.value.data == [] + line;
          }
        }
      }
    }

    /** The regular-header branch with a fresh bucket allocated after the
        push, so that the retry writes the header into it. A header that
        fits is written without queueing anything; one that does not fit
        the started bucket is written after pushing it; only a header that
        fits no bucket at all, or a request start that does not, is
        refused with ENameTooLong. */
    method AddRegularHeaderFixed(enc: Encoder, name: string, value: string) returns (st: Status)
      requires Valid()
      modifies this`work, dataIn
      ensures Valid()
      ensures st == Success || st == EGeneral || st == ENoMem || st == ENameTooLong || st == QueueFailed
      ensures st == EGeneral <==> old(work).None? && !Ready()
      ensures st == EGeneral ==> work == old(work) && dataIn.entries == old(dataIn.entries)
      ensures st != EGeneral && st != ENoMem && old(StartFits(enc)) &&
              |old(Head(enc))| + |enc.header(name, value)| <= BucketSize ==>
        st == Success && dataIn.entries == old(dataIn.entries)
      ensures old(StartFits(enc)) && |enc.header(name, value)| <= BucketSize ==> st != ENameTooLong
      ensures st == ENameTooLong ==> !old(StartFits(enc)) || |enc.header(name, value)| > BucketSize
      ensures st == QueueFailed ==>
        old(StartFits(enc)) && |old(Head(enc))| > 0 && |old(Head(enc))| + |enc.header(name, value)| > BucketSize
      ensures st == Success && |old(Head(enc))| + |enc.header(name, value)| <= BucketSize ==>
        work.Some? && work.value.data == old(Head(enc)) + enc.header(name, value)
      ensures st == Success && |old(Head(enc))| + |enc.header(name, value)| > BucketSize ==>
        dataIn.entries == old(dataIn.entries) + [Data(id, old(Head(enc)))] &&
        work.Some? && work.value.data == enc.header(name, value)
      ensures st == QueueFailed ==>
        dataIn.entries == old(dataIn.entries) && work.Some? && work.value.data == old(Head(enc))
      ensures st == ENoMem ==>
        work.None? && (dataIn.entries == old(dataIn.entries) || dataIn.entries == old(dataIn.entries) + [Data(id, old(Head(enc)))])
      ensures st == ENameTooLong ==> work.Some?
      ensures st == ENameTooLong && !old(StartFits(enc)) ==>
        old(work).None? && Ready() && work.value.data == PartialStart(enc) &&
        dataIn.entries == old(dataIn.entries)
      ensures st == ENameTooLong && old(StartFits(enc)) ==> work.value.data == []
      ensures st == ENameTooLong && old(StartFits(enc)) && |old(Head(enc))| == 0 ==>
        dataIn.entries == old(dataIn.entries)
      ensures st == ENameTooLong && old(StartFits(enc)) && |old(Head(enc))| > 0 ==>
        dataIn.entries == old(dataIn.entries) + [Data(id, old(Head(enc)))]
      ensures !old(StartFits(enc)) ==> st == EGeneral || st == ENoMem || st == ENameTooLong
      ensures st == ENoMem ==>
        (old(work).None? && dataIn.entries == old(dataIn.entries)) ||
        (old(StartFits(enc)) && |old(Head(enc))| > 0 && |old(Head(enc))| + |enc.header(name, value)| > BucketSize &&
         dataIn.entries == old(dataIn.entries) + [Data(id, old(Head(enc)))])
    {
      st := StartRequest(enc);
      if st == Success {
        st := WriteHeaderRetrying(enc, name, value);
      }
    }

    /** h2_stream_add_header, as written: a zero-length name is ignored, a
        name starting with ':' is a pseudo-header, anything else a regular
        header. */
    method AddHeader(enc: Encoder, name: string, value: string) returns (st: Status)
      requires Valid()
      modifies this`work, this`requestMethod, this`scheme, this`path, this`authority, dataIn
      ensures Valid()
      ensures |name| == 0 ==> st == Success && Pseudo() == old(Pseudo())
      ensures !IsRegular(name) ==> work == old(work) && dataIn.entries == old(dataIn.entries)
      ensures IsPseudo(name) && (old(work).Some? || |value| == 0) ==> st == EGeneral && Pseudo() == old(Pseudo())
      ensures IsPseudo(name) && old(work).None? && |value| > 0 ==>
        st == Success && Pseudo() == ApplyPseudo(old(Pseudo()), name, value)
      ensures IsRegular(name) ==> Pseudo() == old(Pseudo())
      ensures IsRegular(name) ==> (st == EGeneral <==> old(work).None? && !old(Ready()))
      ensures IsRegular(name) && old(work).None? && !old(Ready()) ==>
        work.None? && dataIn.entries == old(dataIn.entries)
      ensures IsRegular(name) && st != EGeneral && st != ENoMem && old(StartFits(enc)) ==>
        (st == Success <==> |old(Head(enc))| + |enc.header(name, value)| <= BucketSize)
      ensures IsRegular(name) && st == ENameTooLong ==> !old(StartFits(enc)) || |old(Head(enc))| == 0
      ensures IsRegular(name) && st != EGeneral && st != ENoMem && old(StartFits(enc)) &&
              |old(Head(enc))| > 0 && |old(Head(enc))| + |enc.header(name, value)| > BucketSize ==>
        st == QueueFailed || st == NullDeref
      ensures IsRegular(name) && st == Success ==>
        dataIn.entries == old(dataIn.entries) && work.Some? &&
        work.value.data == old(Head(enc)) + enc.header(name, value)
      ensures IsRegular(name) && st == NullDeref ==>
        work.None? && dataIn.entries == old(dataIn.entries) + [Data(id, old(Head(enc)))]
      ensures IsRegular(name) ==>
        st == Success || st == EGeneral || st == ENoMem || st == ENameTooLong || st == QueueFailed || st == NullDeref
      ensures IsRegular(name) && (st == EGeneral || st == ENoMem) ==>
        work == old(work) && dataIn.entries == old(dataIn.entries)
      ensures IsRegular(name) && st == ENoMem ==> old(work).None?
      ensures IsRegular(name) && (st == QueueFailed || st == NullDeref) ==>
        old(StartFits(enc)) && |old(Head(enc))| > 0 && |old(Head(enc))| + |enc.header(name, value)| > BucketSize
      ensures IsRegular(name) && st == ENameTooLong ==> dataIn.entries == old(dataIn.entries) && work.Some?
      ensures IsRegular(name) && st == ENameTooLong && old(StartFits(enc)) ==> work.value.data == old(Head(enc))
      ensures IsRegular(name) && st == ENameTooLong && !old(StartFits(enc)) ==>
        old(work).None? && Ready() && work.value.data == PartialStart(enc)
      ensures IsRegular(name) && st == QueueFailed ==>
        dataIn.entries == old(dataIn.entries) && work == Some(Bucket(old(Head(enc)), BucketSize))
    {
      if |name| == 0 {
        return Success;
      }
      if name[0] == ':' {
        st := AddPseudoHeader(name, value);
      } else {
        st := AddRegularHeader(enc, name, value);
      }
    }

    /** h2_stream_add_header with the corrected regular-header branch. */
    method AddHeaderFixed(enc: Encoder, name: string, value: string) returns (st: Status)
      requires Valid()
      modifies this`work, this`requestMethod, this`scheme, this`path, this`authority, dataIn
      ensures Valid()
      ensures |name| == 0 ==> st == Success && Pseudo() == old(Pseudo())
      ensures !IsRegular(name) ==> work == old(work) && dataIn.entries == old(dataIn.entries)
      ensures IsPseudo(name) && (old(work).Some? || |value| == 0) ==> st == EGeneral && Pseudo() == old(Pseudo())
      ensures IsPseudo(name) && old(work).None? && |value| > 0 ==>
        st == Success && Pseudo() == ApplyPseudo(old(Pseudo()), name, value)
      ensures IsRegular(name) ==> Pseudo() == old(Pseudo())
      ensures IsRegular(name) ==>
        (st == EGeneral <==> old(work).None? && !old(Ready())) &&
        (st == Success || st == EGeneral || st == ENoMem || st == ENameTooLong || st == QueueFailed)
      ensures IsRegular(name) && old(work).None? && !old(Ready()) ==>
        work.None? && dataIn.entries == old(dataIn.entries)
      ensures IsRegular(name) && st != EGeneral && st != ENoMem && old(StartFits(enc)) &&
              |old(Head(enc))| + |enc.header(name, value)| <= BucketSize ==>
        st == Success && dataIn.entries == old(dataIn.entries)
      ensures IsRegular(name) && old(StartFits(enc)) && |enc.header(name, value)| <= BucketSize ==>
        st != ENameTooLong
      ensures IsRegular(name) && st == Success && |old(Head(enc))| + |enc.header(name, value)| <= BucketSize ==>
        work.Some? && work.value.data == old(Head(enc)) + enc.header(name, value)
      ensures IsRegular(name) && st == Success && |old(Head(enc))| + |enc.header(name, value)| > BucketSize ==>
        dataIn.entries == old(dataIn.entries) + [Data(id, old(Head(enc)))] &&
        work.Some? && work.value.data == enc.header(name, value)
      ensures IsRegular(name) && st == EGeneral ==> work == old(work) && dataIn.entries == old(dataIn.entries)
      ensures IsRegular(name) && st == ENameTooLong ==> !old(StartFits(enc)) || |enc.header(name, value)| > BucketSize
      ensures IsRegular(name) && st == QueueFailed ==>
        old(StartFits(enc)) && |old(Head(enc))| > 0 && |old(Head(enc))| + |enc.header(name, value)| > BucketSize
      ensures IsRegular(name) && st == QueueFailed ==>
        dataIn.entries == old(dataIn.entries) && work.Some? && work.value.data == old(Head(enc))
      ensures IsRegular(name) && st == ENoMem ==>
        work.None? && (dataIn.entries == old(dataIn.entries) || dataIn.entries == old(dataIn.entries) + [Data(id, old(Head(enc)))])
      ensures IsRegular(name) && st == ENameTooLong ==> work.Some?
      ensures IsRegular(name) && st == ENameTooLong && !old(StartFits(enc)) ==>
        old(work).None? && Ready() && work.value.data == PartialStart(enc) &&
        dataIn.entries == old(dataIn.entries)
      ensures IsRegular(name) && st == ENameTooLong && old(StartFits(enc)) ==> work.value.data == []
      ensures IsRegular(name) && st == ENameTooLong && old(StartFits(enc)) && |old(Head(enc))| == 0 ==>
        dataIn.entries == old(dataIn.entries)
      ensures IsRegular(name) && st == ENameTooLong && old(StartFits(enc)) && |old(Head(enc))| > 0 ==>
        dataIn.entries == old(dataIn.entries) + [Data(id, old(Head(enc)))]
      ensures IsRegular(name) && !old(StartFits(enc)) ==> st == EGeneral || st == ENoMem || st == ENameTooLong
      ensures IsRegular(name) && st == ENoMem ==>
        (old(work).None? && dataIn.entries == old(dataIn.entries)) ||
        (old(StartFits(enc)) && |old(Head(enc))| > 0 && |old(Head(enc))| + |enc.header(name, value)| > BucketSize &&
         dataIn.entries == old(dataIn.entries) + [Data(id, old(Head(enc)))])
    {
      if |name| == 0 {
        return Success;
      }
      if name[0] == ':' {
        st := AddPseudoHeader(name, value);
      } else {
        st := AddRegularHeaderFixed(enc, name, value);
      }
    }

    /** h2_bucket_append on the bucket in the slot: as much of d as fits. */
    method AppendToWork(d: seq<byte>) returns (written: nat)
      requires Valid() && work.Some?
      modifies this`work
      ensures Valid() && work.Some?
      ensures written <= |d| && work.value.data == old(work.value.data) + d[..written]
      ensures written < |d| ==> |work.value.data| == BucketSize
      ensures Emitted() == old(Emitted()) + d[..written]
    {
      var r := Append(work.value, d);
      work := Some(r.0);
      written := r.1;
    }

    /** One round of add_data's loop: append as much of rest as fits and,
        when not all of it fit, push the now full bucket. */
    method FillAndPush(rest: seq<byte>) returns (written: nat, st: Status)
      requires Valid() && work.Some?
      modifies this`work, dataIn
      ensures Valid()
      ensures written <= |rest|
      ensures written == |rest| ==>
        st == Success && dataIn.entries == old(dataIn.entries) && work == Some(Bucket(old(Pending()) + rest, BucketSize))
      ensures written < |rest| ==> |old(Pending())| + written == BucketSize
      ensures written < |rest| && st == Success ==>
        work.None? && dataIn.entries == old(dataIn.entries) + [Data(id, old(Pending()) + rest[..written])]
      ensures written < |rest| && st != Success ==>
        st == QueueFailed && dataIn.entries == old(dataIn.entries) &&
        work == Some(Bucket(old(Pending()) + rest[..written], BucketSize))
    {
      written := AppendToWork(rest);
      st := Success;
      if written < |rest| {
        st := Push();
      } else {
        assert rest[..written] == rest;
      }
    }

    /** h2_stream_add_data, as written. It makes sure a bucket exists (so
        even empty data allocates one), then appends as much as fits; data
        that fits causes no push. When it does not fit, the full bucket is
        pushed and the next round appends to the slot that push emptied. */
    method AddData(data: seq<byte>) returns (st: Status)
      requires Valid()
      modifies this`work, dataIn
      ensures Valid()
      ensures st == Success || st == ENoMem || st == QueueFailed || st == NullDeref
      ensures st == ENoMem ==> old(work).None? && work.None? && dataIn.entries == old(dataIn.entries)
      ensures st != ENoMem ==> (st == Success <==> |old(Pending())| + |data| <= BucketSize)
      ensures st == Success ==>
        dataIn.entries == old(dataIn.entries) && work == Some(Bucket(old(Pending()) + data, BucketSize))
      ensures st == QueueFailed ==>
        dataIn.entries == old(dataIn.entries) &&
        work == Some(Bucket(old(Pending()) + data[..BucketSize - |old(Pending())|], BucketSize))
      ensures st == NullDeref ==>
        work.None? &&
        dataIn.entries == old(dataIn.entries) + [Data(id, old(Pending()) + data[..BucketSize - |old(Pending())|])]
    {
      st := CheckWork();
      if st != Success {
        return;
      }
      ghost var p0 := old(Pending());
      ghost var q0 := dataIn.entries;
      var rest := data;
      // The loop never gets past one push: at its head nothing has been
      // appended yet, or everything has and no push happened, or the first
      // full bucket was pushed and the slot is empty.
      while |rest| > 0
        invariant Valid()
        invariant (rest == data && work == Some(Bucket(p0, BucketSize)) && dataIn.entries == q0) ||
                  (rest == [] && work == Some(Bucket(p0 + data, BucketSize)) && dataIn.entries == q0) ||
                  (work.None? && |p0| + |data| > BucketSize && rest == data[BucketSize - |p0|..] &&
                   dataIn.entries == q0 + [Data(id, p0 + data[..BucketSize - |p0|])])
        decreases |rest|, if work.Some? then 1 else 0
      {
        if work.None? {
          // line 284 appends to the slot the push at line 288 emptied
          return NullDeref;
        }
        var written;
        written, st := FillAndPush(rest);
        if written < |rest| {
          rest := rest[written..];
          if st != Success {
            return;
          }
        } else {
          rest := [];
        }
      }
      assert data == [] ==> p0 + data == p0;
      st := Success;
    }

    /** One round of the corrected add_data loop: FillAndPush, and after a
        push a fresh bucket in the slot it emptied. Measured against the
        distribution total of all the data: a round hands on at most the
        next bucket of it and leaves the rest of it to the bytes still to
        append. */
    method FillRound(rest: seq<byte>, ghost total: (seq<seq<byte>>, seq<byte>), ghost q0: seq<Entry>, ghost pushed: nat)
      returns (left: seq<byte>, st: Status, ghost pushedNow: nat)
      requires Valid() && work.Some? && |rest| > 0
      requires Tracks(total, pushed, work.value.data, rest)
      requires dataIn.entries == q0 + DataEntries(id, total.0[..pushed])
      modifies this`work, dataIn
      ensures Valid()
      ensures st == Success || st == QueueFailed || st == ENoMem
      ensures pushed <= pushedNow <= pushed + 1 && pushedNow <= |total.0| && |left| <= |rest|
      ensures dataIn.entries == q0 + DataEntries(id, total.0[..pushedNow])
      ensures st == Success ==>
        work.Some? && Tracks(total, pushedNow, work.value.data, left) && (|left| < |rest| || pushedNow == pushed + 1)
      ensures st == ENoMem ==> pushedNow == pushed + 1 && work.None?
      ensures st == QueueFailed ==>
        pushedNow == pushed && pushed < |total.0| && work == Some(Bucket(total.0[pushed], BucketSize))
    {
      ghost var pending := work.value.data;
      var written;
      written, st := FillAndPush(rest);
      pushedNow := pushed;
      if written < |rest| {
        left := rest[written..];
        TracksFill(total, pushed, pending, rest, written);
        if st == Success {
          DataEntriesSnoc(id, total.0[..pushed], pending + rest[..written]);
          pushedNow := pushed + 1;
          st := CheckWork();
        }
      } else {
        left := [];
        TracksKeep(total, pushed, pending, rest);
        assert rest[..written] == rest;
      }
    }

    /** add_data with a fresh bucket allocated after every push. The data
        is spread over buckets exactly as Chunks describes: on every outcome
        the queue has gained the first `pushed` buckets Chunks hands on (so
        each pushed bucket is full and data that fits pushes nothing), and
        on success all of them, with the last bucket kept in the slot. */
    method AddDataFixed(data: seq<byte>) returns (st: Status, ghost pushed: nat)
      requires Valid()
      modifies this`work, dataIn
      ensures Valid()
      ensures st == Success || st == ENoMem || st == QueueFailed
      ensures pushed <= |Chunks(old(Pending()), data, BucketSize).0|
      ensures dataIn.entries ==
        old(dataIn.entries) + DataEntries(id, Chunks(old(Pending()), data, BucketSize).0[..pushed])
      ensures st == Success ==>
        pushed == |Chunks(old(Pending()), data, BucketSize).0| &&
        work == Some(Bucket(Chunks(old(Pending()), data, BucketSize).1, BucketSize))
      ensures st == QueueFailed ==>
        pushed < |Chunks(old(Pending()), data, BucketSize).0| &&
        work == Some(Bucket(Chunks(old(Pending()), data, BucketSize).0[pushed], BucketSize))
      ensures st == ENoMem ==> work.None? && (old(work).None? || pushed > 0)
    {
      ghost var total := Chunks(Pending(), data, BucketSize);
      ghost var q0 := dataIn.entries;
      pushed := 0;
      assert total.0[..0] == [] && total.0[0..] == total.0;
      st := CheckWork();
      var rest := data;
      while st == Success && |rest| > 0
        invariant Valid()
        invariant st == Success || st == ENoMem || st == QueueFailed
        invariant pushed <= |total.0|
        invariant dataIn.entries == q0 + DataEntries(id, total.0[..pushed])
        invariant st == Success ==> work.Some? && Tracks(total, pushed, work.value.data, rest)
        invariant st == QueueFailed ==> pushed < |total.0| && work == Some(Bucket(total.0[pushed], BucketSize))
        invariant st == ENoMem ==> work.None? && (old(work).None? || pushed > 0)
        decreases |rest|, |total.0| - pushed, if st == Success then 1 else 0
      {
        rest, st, pushed := FillRound(rest, total, q0, pushed);
      }
      if st == Success {
        TracksDone(total, pushed, work.value.data);
      }
    }
  }
}
