/** The stream lifecycle of section 5.1 of RFC 7540 as h2_stream.c names
    it: the half-closed states are CLOSED_INPUT (the peer will send no
    more, "half-closed (remote)") and CLOSED_OUTPUT (we will send no more,
    "half-closed (local)"). */
module StreamState {
  import opened Base

  /** Open stands for every state h2_stream.c does not name: close_input
      treats them all alike. */
  datatype State = Idle | Open | ClosedInput | ClosedOutput | Closed

  predicate InputClosed(s: State) {
    s == ClosedInput || s == Closed
  }

  predicate OutputClosed(s: State) {
    s == ClosedOutput || s == Closed
  }

  /** The state h2_stream_close_input moves a stream to: its input side is
      closed afterwards, its output side is as closed as it was before, and
      a stream whose input was already closed keeps its state. */
  function CloseInputState(s: State): (r: State)
    ensures InputClosed(r)
    ensures OutputClosed(r) == OutputClosed(s)
    ensures InputClosed(s) ==> r == s
  {
    match s
    case ClosedInput => s
    case Closed => s
    case ClosedOutput => Closed
    case _ => ClosedInput
  }

  /** A second close_input leaves the state where the first one put it
      and so notifies no observer. */
  lemma CloseInputIdempotent(s: State, cb: Option<CallbackId>, ctx: Context)
    ensures CloseInputState(CloseInputState(s)) == CloseInputState(s)
    ensures Notices(cb, ctx, CloseInputState(s), CloseInputState(CloseInputState(s))) == []
  {
  }

  /** Identity of a registered state-change callback and of its context
      pointer; the callback's code is outside this model. */
  type CallbackId = nat
  type Context = nat

  /** One invocation of the state-change callback: which callback, with
      which context, the state the stream left and the state it is in. */
  datatype Notice = Notice(cb: CallbackId, ctx: Context, from: State, to: State)

  /** The invocations set_state makes when moving from `from` to `to`. */
  function Notices(cb: Option<CallbackId>, ctx: Context, from: State, to: State): seq<Notice> {
    if from != to && cb.Some? then [Notice(cb.value, ctx, from, to)] else []
  }
}
