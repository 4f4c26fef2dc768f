# h2_stream: a verified model of mod_h2's request stream

This project models `mod_h2/h2_stream.c`, the per-stream core of mod_h2's
HTTP/2 handling. A stream records its lifecycle state (IDLE, OPEN,
CLOSED_INPUT, CLOSED_OUTPUT, CLOSED) and its pseudo-headers (`:method`,
`:scheme`, `:path`, `:authority`). It turns header and data events into
HTTP/1-style request bytes. Those bytes collect in one exclusively owned
16 KiB work bucket, and the bucket is handed ("pushed") to the connection's
shared input queue `data_in`, keyed by the stream id. An end-of-stream
marker follows when the input is closed.

Layout:

- `base.dfy`: bytes, `Option`, and the status codes of the operations.
  `NullDeref` is the outcome the model gives the three places where the
  code hands the emptied work slot to a bucket or encoder routine.
- `buckets.dfy`: the bucket and encoder contracts the stream relies on.
  It also defines `Chunks`, the reference definition of how add_data
  distributes bytes over buckets.
- `queue.dfy`: the shared input queue as a class (`BucketQueue`). `Flatten`
  is one stream's bytes in queue order. This file holds the conservation
  lemmas.
- `state.dfy`: the lifecycle states, the close-input transition and the
  observer notifications.
- `headers.dfy`: pseudo-header classification and the four request
  fields.
- `stream.dfy`: the stream as a class whose methods update its fields in
  place, as the C functions do.
- `scenarios.dfy`: whole request sequences on fresh streams. They include
  concrete inputs on which the as-written code cannot succeed.

Section 8.1.2.3 of RFC 7540 requires all pseudo-header fields to come
before the regular ones, and the comment at `mod_h2/h2_stream.c:181` says
the same. The code enforces this more loosely in two places, and the
model follows the code:

- A pseudo-header is refused only while a bucket is in the work slot
  (`mod_h2/h2_stream.c:182`). After any push has emptied the slot, the
  next pseudo-header is accepted again and overwrites its field. This
  holds even after end of headers (`Scenarios.PseudoAfterPush`).
- Whether a regular header is the request's first, and so brings the
  request start along, is decided by the absence of a bucket in the slot
  (`mod_h2/h2_stream.c:225`), not by a flag.

A duplicate pseudo-header overwrites the field. A second close_input
appends a second end-of-stream marker.

## Model

| member | source | states |
|---|---|---|
| H2Stream.Stream.SetState | mod_h2/h2_stream.c:39-48 | the new state is s; the observer, when registered, is called exactly once with the old and new state when they differ, and not at all otherwise |
| StreamState.CloseInputState | mod_h2/h2_stream.c:144-156 | afterwards the input side is closed; the output side is exactly as closed as before; a stream whose input was already closed keeps its state |
| StreamState.CloseInputIdempotent | mod_h2/h2_stream.c:145-147 | a second close leaves the state where the first put it and notifies nobody |
| H2Stream.Stream.constructor | mod_h2/h2_stream.c:51-62 | a new stream is IDLE with the given id, no work bucket, eoh and aborted cleared, no pseudo-headers and no observer |
| H2Stream.Stream.Destroy | mod_h2/h2_stream.c:64-76 | succeeds and leaves no bucket in the slot |
| H2Stream.Stream.Abort | mod_h2/h2_stream.c:78-83 | the abort flag is set, whatever it was, and nothing else changes |
| H2Stream.Stream.SetStateChangeCb | mod_h2/h2_stream.c:85-91 | the observer and its context are exactly the ones given |
| H2Stream.Stream.CheckWork | mod_h2/h2_stream.c:93-102 | success exactly when the slot then holds a bucket; an existing bucket is kept; otherwise a fresh empty 16 KiB bucket is allocated, or ENoMem is returned; the pending bytes never change |
| Buckets.AllocBucket | mod_h2/h2_stream.c:96 | an allocation, when granted, is an empty bucket of the requested capacity |
| H2Stream.Stream.Push | mod_h2/h2_stream.c:104-117 | on success the queue gains exactly the slot's bucket under the stream id and the slot is empty; on failure nothing changes; the stream's bytes are the same either way |
| Queue.BucketQueue.Append | mod_h2/h2_stream.c:111-112 | the queue takes over the bucket as one entry at its end, or refuses and stays as it was |
| Queue.BucketQueue.AppendEos | mod_h2/h2_stream.c:161-162 | the queue gains one end-of-stream marker at its end, or refuses and stays as it was |
| H2Stream.Stream.EndHeaders | mod_h2/h2_stream.c:119-139 | as written: eoh is set unless no bucket could be allocated; with room for the separator, success pushes pending plus CRLF as one entry; without room it can never succeed; NullDeref (CRLF written to the slot the early push emptied) happens only without room and leaves the pending bytes queued without the separator; QueueFailed keeps the full bucket in the slot when the early push was refused, and the bucket with CRLF appended when the final push was |
| H2Stream.Stream.MakeRoom | mod_h2/h2_stream.c:127-129 | afterwards the slot has room for n bytes: either it already did and nothing changed, or the full bucket was pushed and a fresh one allocated; a failure happens only when the bucket lacked room, and it is either the queue refusing (nothing changed) or the allocation after the push failing (bucket queued, slot empty); the stream's bytes are unchanged |
| H2Stream.Stream.PushSeparator | mod_h2/h2_stream.c:132-133 | with room in the slot, CRLF is appended and the bucket pushed as one entry; when the queue refuses, the bucket stays in the slot with CRLF in it |
| H2Stream.Stream.EndHeadersFixed | mod_h2/h2_stream.c:119-139 | corrected: eoh is set once the first check_work succeeds; success leaves the slot empty, and the queue gains pending plus CRLF as one entry or, when fewer than 2 bytes were free, pending and CRLF as two entries; each failure is tied to its cause: the first allocation (nothing changed), the allocation after the early push, or a queue refusal, with the resulting queue and slot stated |
| H2Stream.Stream.CloseInputTransition | mod_h2/h2_stream.c:144-156 | the state becomes CloseInputState of the old state, with the observer notified only on a real change |
| H2Stream.Stream.CloseInput | mod_h2/h2_stream.c:141-168 | state and notifications as CloseInputState says; on success the queue gains the pending bucket (if any) and then one EOS marker, in that order, and the slot is empty; the marker is never appended when the push failed |
| Headers.PseudoField | mod_h2/h2_stream.c:198-213 | a name sets a field exactly when it equals that field's name; all other names set nothing |
| Headers.PseudoFields.Set | mod_h2/h2_stream.c:200-212 | the chosen field holds the new value, overwriting any earlier one, and every other field is unchanged |
| H2Stream.Stream.AddPseudoHeader | mod_h2/h2_stream.c:180-221 | refused (EGeneral, no field changed) while a bucket is in the slot or when the value is empty; otherwise success, with a known name overwriting its field and an unknown one changing nothing |
| H2Stream.Stream.StartRequest | mod_h2/h2_stream.c:225-254 | EGeneral exactly when there is no bucket and :method or :path is missing (nothing allocated); once a bucket is obtained, success exactly when the request start and Host header fit an empty bucket, and then the bucket holds them; otherwise ENameTooLong, with the fresh bucket holding the request line alone when only Host overflowed and nothing when the request line itself does not fit |
| H2Stream.Stream.AddRegularHeader | mod_h2/h2_stream.c:223-269 | as written: once the start fits, success exactly when the line fits after it, and then the slot holds the start (first header only) and the line with nothing queued; ENameTooLong only when the start does not fit (the slot then holds what of the start fitted) or the line does not fit an empty bucket (the slot then holds the start); a push (then QueueFailed or NullDeref) exactly when the line does not fit a non-empty bucket; QueueFailed keeps exactly the started bucket in the slot with nothing queued; NullDeref leaves the started bucket queued and the slot empty |
| H2Stream.Stream.WriteHeaderRetrying | mod_h2/h2_stream.c:256-268 | corrected retry: a line that fits is written in place with nothing queued; one that does not fit an empty bucket is refused with nothing changed; only one that does not fit a non-empty bucket pushes it, and the retry in a fresh bucket succeeds exactly when the line fits an empty bucket, and a failed retry leaves that bucket empty; the stream's bytes gain exactly the line on success and are unchanged on failure |
| H2Stream.Stream.AddRegularHeaderFixed | mod_h2/h2_stream.c:223-269 | corrected: a request start that does not fit a fresh bucket ends in EGeneral, ENoMem or ENameTooLong, never later; once the start fits, a line that fits after it is written with nothing queued; ENoMem comes only from allocating the first bucket (nothing queued) or the fresh bucket after pushing the started one; a line that fits an empty bucket is never refused with ENameTooLong, and when it does not fit after the start the started bucket is queued and the slot holds the line; QueueFailed only from that push, leaving the started bucket in the slot; ENameTooLong leaves what of the start fitted when the start does not fit, and otherwise an empty bucket with the started bucket queued when it held anything |
| H2Stream.Stream.AddHeader | mod_h2/h2_stream.c:170-273 | as written: an empty name is ignored; a pseudo-header never touches the bucket or queue; a regular header never touches the pseudo fields; EGeneral for a regular header exactly when it is the first and :method or :path is missing; for a regular header the outcome, slot and queue of the regular-header branch: one that fits after the start is written, one that does not fit a non-empty bucket ends in QueueFailed (started bucket kept) or NullDeref (started bucket queued), and ENoMem and EGeneral change nothing |
| H2Stream.Stream.AddHeaderFixed | mod_h2/h2_stream.c:170-273 | the same dispatch with the corrected regular-header branch: a regular header whose request start does not fit a fresh bucket ends in EGeneral, ENoMem or ENameTooLong; one that fits after the start is written with nothing queued; ENoMem comes only from one of the two allocations; one that fits an empty bucket is never refused with ENameTooLong, and when it did not fit after the start the started bucket is queued and the slot holds the line; every failure states the slot and queue as the corrected branch leaves them |
| Buckets.Append | mod_h2/h2_stream.c:284 | appends the longest prefix of the input that fits; a short count means the bucket is now full |
| Buckets.Write | mod_h2/h2_stream.c:246-258 | an encoder write lands whole exactly when it fits, and otherwise leaves the bucket unchanged with ENameTooLong |
| H2Stream.Stream.AppendToWork | mod_h2/h2_stream.c:284 | the slot's bucket gains the longest prefix of d that fits and is full when not all of d fitted |
| H2Stream.Stream.FillAndPush | mod_h2/h2_stream.c:284-291 | data that fits is kept whole and nothing is pushed; otherwise the bucket is filled to exactly 16 KiB and pushed as one entry, or left full when the queue refuses |
| H2Stream.Stream.AddData | mod_h2/h2_stream.c:275-298 | as written: the bucket is allocated even for empty data; success exactly when pending plus data fit, and then the data is kept in the slot with nothing pushed; longer data fills and pushes one bucket and then reaches the emptied slot (NullDeref) |
| H2Stream.Stream.FillRound | mod_h2/h2_stream.c:283-296 | one corrected round pushes at most one bucket, the next of the Chunks distribution, and the rest of that distribution is accounted for by what remains; a queue refusal leaves exactly that next bucket, full, in the slot |
| H2Stream.Stream.AddDataFixed | mod_h2/h2_stream.c:275-298 | corrected: whatever the outcome, the queue gains a prefix of the buckets Chunks hands on, in order; on success it gains all of them and the slot holds the rest; QueueFailed only while a bucket was left to push, which then stays full in the slot; ENoMem only from the first allocation or one after a push |
| Buckets.Chunks | mod_h2/h2_stream.c:283-296 | the distribution of pending plus data over 16 KiB buckets; nothing is handed on exactly when everything fits |
| Buckets.ChunksConserve | mod_h2/h2_stream.c:283-296 | the buckets handed on, followed by the bucket kept, are exactly pending followed by data |
| Buckets.ChunksFull | mod_h2/h2_stream.c:285-288 | every bucket handed on is filled to capacity |
| Buckets.ChunksStep | mod_h2/h2_stream.c:284-288 | a round that fills the bucket hands on exactly that bucket, and the remaining data starts an empty one |
| Buckets.ChunksFit | mod_h2/h2_stream.c:293-294 | data that fits stays whole in the current bucket and nothing is handed on |
| Buckets.TracksFill | mod_h2/h2_stream.c:284-291 | after a round that pushes, the pushed bucket is the next one of the distribution, and the rest is tracked from an empty bucket |
| Buckets.TracksKeep | mod_h2/h2_stream.c:293-294 | after a round in which everything fits, the distribution is tracked with nothing left to append |
| Buckets.TracksDone | mod_h2/h2_stream.c:283-297 | when nothing is left to append, every bucket of the distribution has been pushed and the slot holds its last part |
| Queue.DataEntries | mod_h2/h2_stream.c:111-112 | one queue entry per pushed bucket, in order, under the stream id |
| Queue.FlattenAppend | mod_h2/h2_stream.c:111-112 | a stream's bytes in a concatenated queue are its bytes in each part, in order |
| Queue.FlattenDataEntries | mod_h2/h2_stream.c:111-112 | queueing buckets adds exactly their bytes, in order, to the stream's bytes |
| Queue.ChunkedPushConserves | mod_h2/h2_stream.c:275-298 | add_data loses, duplicates and reorders no byte: the queue then the slot hold the earlier bytes, then pending, then data |
| Queue.SeparatorConserves | mod_h2/h2_stream.c:127-133 | whether CRLF travels with the pending bytes or in an entry of its own, the stream's bytes are pending followed by CRLF |
| Scenarios.GetRoot | mod_h2/h2_stream.c:180-213 | :method GET and :path / on a fresh stream are accepted, nothing is allocated or queued, and the request start is due without a Host header |
| Scenarios.GetPseudo | mod_h2/h2_stream.c:180-213 | :method, :path and :authority on a fresh stream are all accepted and recorded, and nothing is allocated or queued |
| Scenarios.GetHead | mod_h2/h2_stream.c:223-269 | as written: after those pseudo-headers, the first regular header yields the request start, the Host header from :authority and the header line, in that order |
| Scenarios.GetRequest | mod_h2/h2_stream.c:119-168 | as written: a complete GET (headers, end of headers, close input) queues the request start, Host, the header line and CRLF, in order, followed by the EOS marker |
| Scenarios.LargeBody | mod_h2/h2_stream.c:283-291 | as written, add_data never succeeds on data longer than one bucket; corrected, the first 16 KiB are queued as one entry and the remainder is kept |
| Scenarios.NearlyFullEndHeaders | mod_h2/h2_stream.c:127-133 | as written, end_headers never succeeds when one byte is free; corrected, the pending bytes and CRLF are queued as two entries |
| Scenarios.LongHeader | mod_h2/h2_stream.c:256-265 | as written, a header line that overflows a non-empty first bucket ends in NullDeref unless allocation or the queue refuses; corrected, it is never refused with ENameTooLong, and success queues the request start on its own and keeps the line in the slot |
| Scenarios.PseudoAfterPush | mod_h2/h2_stream.c:180-213 | once end_headers has pushed the slot empty, a further :path is accepted and overwrites the earlier one |
| Scenarios.CloseTwice | mod_h2/h2_stream.c:141-168 | two close_input calls notify the observer once (IDLE to CLOSED_INPUT), the state stays CLOSED_INPUT, and two successes queue two EOS markers |

## Left out

- Logging (`ap_log_cerror`) has no effect on the state and is not modelled.
- Memory pools and string copies (`apr_pcalloc`, `apr_pstrndup`) are modelled as plain value assignment.
- The `session` back-pointer and `resp_head` are not modelled. `h2_resp_head_destroy` in destroy and `session = NULL` are outside the model. `mod_h2/h2_stream.h` (the state enum and struct) is not part of this model. The code names four states: IDLE (:56), CLOSED_INPUT (:145, :154), CLOSED (:146, :150) and CLOSED_OUTPUT (:148). `Open` stands for every other state, all of which the `default:` branch at :152-155 treats alike.
- The bucket allocator, the bucket queue and the request-frame encoder are collaborators whose source is not part of this model. Allocation and queue refusal are nondeterministic choices. The encoder is a parameter that either writes a whole line or reports ENameTooLong with the bucket unchanged.
- Each queue error status is collapsed into one value, QueueFailed.
- Thread safety of the shared queue and concurrent streams is not modelled.
- The state-change callback's code is not modelled; the model records each call (callback, context, old state, new state) in `notices`.
- H2Stream.Stream.Push: requires a bucket in the slot. In the code every call site first ensures one, except the three emptied-slot paths, which end in NullDeref before reaching it.
- Lengths are unbounded integers. The `size_t` lengths of the source never wrap for inputs that fit in memory.

## Findings

| source | as written | input that shows it | evidently intended | confidence | as-written member | corrected member |
|---|---|---|---|---|---|---|
| mod_h2/h2_stream.c:127-133 | after the early push at line 128 empties the slot, line 132 appends CRLF to the absent bucket | a stream whose pending bytes leave one byte of the 16 KiB bucket free, then end_headers | allocate a fresh bucket after the push, so the separator is queued as its own entry | high (not executed) | H2Stream.Stream.EndHeaders, Scenarios.NearlyFullEndHeaders | H2Stream.Stream.EndHeadersFixed |
| mod_h2/h2_stream.c:259-265 | after the push at line 262 empties the slot, the retry at line 264 writes the header into the absent bucket | first regular header whose request start leaves one byte free and whose line needs two | allocate a fresh bucket after the push and retry the write in it | high (not executed) | H2Stream.Stream.AddRegularHeader, Scenarios.LongHeader | H2Stream.Stream.AddRegularHeaderFixed |
| mod_h2/h2_stream.c:283-291 | after the push at line 288 empties the slot, the next round at line 284 appends to the absent bucket | add_data with 16385 to 32768 bytes on a stream with an empty slot | allocate a fresh bucket after each push, so data of any length is split into full 16 KiB buckets | high (not executed) | H2Stream.Stream.AddData, Scenarios.LargeBody | H2Stream.Stream.AddDataFixed |
