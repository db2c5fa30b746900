/** The events both device managers send on their channel, and the body of a per-device
    reader thread as a function of the outcomes its successive reads return. The stop flag
    is modelled by the number of loop iterations after which it is seen set; the thread,
    the flag's mutex and the channel itself are not modelled. */
module DeviceReader {
  import opened Common

  /** `RusbHidEvent` and `HidEvent`, which have the same four variants. */
  datatype Event =
    | DeviceConnected(id: DeviceId)
    | DeviceDisconnected(id: DeviceId)
    | InputReport(id: DeviceId, data: seq<byte>)
    | Error(id: DeviceId, error: string)

  /** Both readers read into a 64-byte buffer that is reused across reads. */
  const BufferSize := 64

  type ReadBuffer = b: seq<byte> | |b| == BufferSize witness seq(BufferSize, _ => 0)

  /** A successful read never reports more bytes than the buffer holds. */
  type ReadLength = n: nat | n <= BufferSize

  /** What one blocking read returns: a byte count together with the buffer's contents
      after the read, a timeout error, or any other error. */
  datatype ReadOutcome =
    | ReadOk(buffer: ReadBuffer, len: ReadLength)
    | ReadTimeout
    | ReadFailed

  /** How a reader treats errors. The libusb reader (`read_interrupt`) retries on a
      timeout error; the hidapi reader (`read_timeout`) reports a timeout as `Ok(0)` and
      ends on every error. */
  datatype ErrorPolicy = RetryOnTimeout | EndOnAnyError

  /** The outcome ends the loop with a disconnection. */
  predicate IsFatal(policy: ErrorPolicy, o: ReadOutcome)
  {
    o.ReadFailed? || (o.ReadTimeout? && policy == EndOnAnyError)
  }

  /** The events a reader emits when its stop flag is first seen set before read number
      `stopAfter + 1` and its reads return `outcomes` in turn: one `InputReport` of exactly
      the first `len` buffer bytes per non-empty read, nothing for an empty read or a
      retried timeout, and a `DeviceDisconnected` that ends the loop on a fatal error. */
  function ReaderEvents(id: DeviceId, policy: ErrorPolicy, outcomes: seq<ReadOutcome>, stopAfter: nat): seq<Event>
  {
    EventsFrom(id, policy, outcomes, stopAfter, 0)
  }

  /** The events of the reads from read number `k + 1` on. */
  function EventsFrom(id: DeviceId, policy: ErrorPolicy, outcomes: seq<ReadOutcome>, stopAfter: nat, k: nat): seq<Event>
    decreases |outcomes| - k
  {
    if k >= stopAfter || k >= |outcomes| then []
    else if IsFatal(policy, outcomes[k]) then [DeviceDisconnected(id)]
    else ReportOf(id, outcomes[k]) + EventsFrom(id, policy, outcomes, stopAfter, k + 1)
  }

  /** What a read that does not end the loop sends: the report of the bytes read, if
      there are any. */
  function ReportOf(id: DeviceId, o: ReadOutcome): seq<Event>
  {
    if o.ReadOk? && o.len > 0 then [InputReport(id, o.buffer[..o.len])] else []
  }

  /** The reader thread's loop: check the stop flag, count the read, read, and act on the
      outcome. Returns the events sent and the number of reads made. */
  method RunReader(id: DeviceId, policy: ErrorPolicy, outcomes: seq<ReadOutcome>, stopAfter: nat)
    returns (events: seq<Event>, readCount: nat)
    ensures events == ReaderEvents(id, policy, outcomes, stopAfter)
    ensures readCount <= stopAfter && readCount <= |outcomes|
  {
    events := [];
    readCount := 0;
    while true
      invariant readCount <= stopAfter && readCount <= |outcomes|
      invariant events + EventsFrom(id, policy, outcomes, stopAfter, readCount) == ReaderEvents(id, policy, outcomes, stopAfter)
      decreases |outcomes| - readCount
    {
      if readCount == stopAfter || readCount == |outcomes| {
        // The stop flag is set, or the modelled horizon of reads is exhausted.
        assert events + [] == events;
        break;
      }
      var sent, ended := HandleRead(id, policy, outcomes[readCount]);
      ReadStep(id, policy, outcomes, stopAfter, readCount, events, sent, ended);
      readCount := readCount + 1;
      events := events + sent;
      if ended {
        break;
      }
    }
  }

  /** One read keeps the loop invariant of `RunReader`: what was sent so far, followed by
      what this read sends and then by the events of the later reads unless it ends the
      loop, is the whole run. */
  lemma ReadStep(id: DeviceId, policy: ErrorPolicy, outcomes: seq<ReadOutcome>, stopAfter: nat, k: nat,
                 events: seq<Event>, sent: seq<Event>, ended: bool)
    requires k < stopAfter && k < |outcomes|
    requires events + EventsFrom(id, policy, outcomes, stopAfter, k) == ReaderEvents(id, policy, outcomes, stopAfter)
    requires ended == IsFatal(policy, outcomes[k])
    requires sent == if ended then [DeviceDisconnected(id)] else ReportOf(id, outcomes[k])
    ensures ended ==> events + sent == ReaderEvents(id, policy, outcomes, stopAfter)
    ensures !ended ==> (events + sent) + EventsFrom(id, policy, outcomes, stopAfter, k + 1) == ReaderEvents(id, policy, outcomes, stopAfter)
  {
    if !ended {
      var rest := EventsFrom(id, policy, outcomes, stopAfter, k + 1);
      assert events + (sent + rest) == (events + sent) + rest;
    }
  }

  /** The body of one read: the `match` on its outcome. Returns what it sends and whether
      the loop ends. */
  method HandleRead(id: DeviceId, policy: ErrorPolicy, outcome: ReadOutcome) returns (sent: seq<Event>, ended: bool)
    ensures ended == IsFatal(policy, outcome)
    ensures sent == if ended then [DeviceDisconnected(id)] else ReportOf(id, outcome)
  {
    match outcome {
      case ReadOk(buffer, len) =>
        if len > 0 {
          return [InputReport(id, buffer[..len])], false;
        }
        return [], false;
      case ReadTimeout =>
        if policy == EndOnAnyError {
          return [DeviceDisconnected(id)], true;
        }
        return [], false;
      case ReadFailed =>
        return [DeviceDisconnected(id)], true;
    }
  }

  /** The events from read `k + 1` on carry the reader's identifier, are reports or
      disconnections, and number at most the reads left. */
  lemma {:induction false} EventsFromShape(id: DeviceId, policy: ErrorPolicy, outcomes: seq<ReadOutcome>, stopAfter: nat, k: nat)
    ensures var ev := EventsFrom(id, policy, outcomes, stopAfter, k);
      && (ev == [] || (k + |ev| <= stopAfter && k + |ev| <= |outcomes|))
      && (forall e :: e in ev ==> e.id == id && (e.InputReport? || e.DeviceDisconnected?))
      && (forall e :: e in ev && e.InputReport? ==> 0 < |e.data| <= BufferSize)
    decreases |outcomes| - k
  {
    if k < stopAfter && k < |outcomes| && !IsFatal(policy, outcomes[k]) {
      EventsFromShape(id, policy, outcomes, stopAfter, k + 1);
    }
  }

  /** Every event carries the reader's own identifier; every report is non-empty and fits
      the buffer; there are at most as many events as reads allowed or outcomes given. */
  lemma ReaderEventsShape(id: DeviceId, policy: ErrorPolicy, outcomes: seq<ReadOutcome>, stopAfter: nat)
    ensures var ev := ReaderEvents(id, policy, outcomes, stopAfter);
      && |ev| <= stopAfter && |ev| <= |outcomes|
      && (forall e :: e in ev ==> e.id == id && (e.InputReport? || e.DeviceDisconnected?))
      && (forall e :: e in ev && e.InputReport? ==> 0 < |e.data| <= BufferSize)
  {
    EventsFromShape(id, policy, outcomes, stopAfter, 0);
  }

  /** No event but the last is a disconnection. */
  predicate DisconnectOnlyAtEnd(ev: seq<Event>)
  {
    forall i :: 0 <= i < |ev| - 1 ==> !ev[i].DeviceDisconnected?
  }

  lemma {:induction false} DisconnectOnlyLastFrom(id: DeviceId, policy: ErrorPolicy, outcomes: seq<ReadOutcome>, stopAfter: nat, k: nat)
    ensures DisconnectOnlyAtEnd(EventsFrom(id, policy, outcomes, stopAfter, k))
    decreases |outcomes| - k
  {
    if k < stopAfter && k < |outcomes| && !IsFatal(policy, outcomes[k]) {
      DisconnectOnlyLastFrom(id, policy, outcomes, stopAfter, k + 1);
      var head: seq<Event> := ReportOf(id, outcomes[k]);
      var tail := EventsFrom(id, policy, outcomes, stopAfter, k + 1);
      forall i | 0 <= i < |head + tail| - 1
        ensures !(head + tail)[i].DeviceDisconnected?
      {
        if i >= |head| {
          assert (head + tail)[i] == tail[i - |head|];
        }
      }
    }
  }

  /** A disconnection, if any, is the single last event. */
  lemma DisconnectOnlyLast(id: DeviceId, policy: ErrorPolicy, outcomes: seq<ReadOutcome>, stopAfter: nat)
    ensures DisconnectOnlyAtEnd(ReaderEvents(id, policy, outcomes, stopAfter))
  {
    DisconnectOnlyLastFrom(id, policy, outcomes, stopAfter, 0);
  }

  /** The events end with a disconnection. */
  predicate EndsDisconnected(ev: seq<Event>)
  {
    |ev| > 0 && ev[|ev| - 1].DeviceDisconnected?
  }

  /** One of the reads from number `k + 1` up to the stop point fails fatally. */
  predicate FatalReadFrom(policy: ErrorPolicy, outcomes: seq<ReadOutcome>, stopAfter: nat, k: nat)
  {
    exists i :: k <= i < |outcomes| && i < stopAfter && IsFatal(policy, outcomes[i])
  }

  lemma {:induction false} DisconnectIffFatalFrom(id: DeviceId, policy: ErrorPolicy, outcomes: seq<ReadOutcome>, stopAfter: nat, k: nat)
    ensures EndsDisconnected(EventsFrom(id, policy, outcomes, stopAfter, k)) <==> FatalReadFrom(policy, outcomes, stopAfter, k)
    decreases |outcomes| - k
  {
    if k >= stopAfter || k >= |outcomes| {
      assert !FatalReadFrom(policy, outcomes, stopAfter, k);
    } else if IsFatal(policy, outcomes[k]) {
      assert FatalReadFrom(policy, outcomes, stopAfter, k) by {
        assert k <= k < |outcomes| && k < stopAfter && IsFatal(policy, outcomes[k]);
      }
    } else {
      DisconnectIffFatalFrom(id, policy, outcomes, stopAfter, k + 1);
      var head := ReportOf(id, outcomes[k]);
      var tail := EventsFrom(id, policy, outcomes, stopAfter, k + 1);
      assert EndsDisconnected(head + tail) <==> EndsDisconnected(tail) by {
        if |tail| > 0 {
          assert (head + tail)[|head + tail| - 1] == tail[|tail| - 1];
        }
      }
      assert FatalReadFrom(policy, outcomes, stopAfter, k) <==> FatalReadFrom(policy, outcomes, stopAfter, k + 1) by {
        if FatalReadFrom(policy, outcomes, stopAfter, k) {
          var i :| k <= i < |outcomes| && i < stopAfter && IsFatal(policy, outcomes[i]);
          assert k + 1 <= i;
        }
      }
    }
  }

  /** The reader ends with a disconnection exactly when one of the reads it is allowed
      to make fails fatally. */
  lemma DisconnectIffFatalRead(id: DeviceId, policy: ErrorPolicy, outcomes: seq<ReadOutcome>, stopAfter: nat)
    ensures var ev := ReaderEvents(id, policy, outcomes, stopAfter);
      (|ev| > 0 && ev[|ev| - 1].DeviceDisconnected?) <==>
        exists i :: 0 <= i < |outcomes| && i < stopAfter && IsFatal(policy, outcomes[i])
  {
    DisconnectIffFatalFrom(id, policy, outcomes, stopAfter, 0);
  }

  lemma {:induction false} LaterStopExtendsFrom(id: DeviceId, policy: ErrorPolicy, outcomes: seq<ReadOutcome>, stopAfter: nat, k: nat)
    ensures EventsFrom(id, policy, outcomes, stopAfter, k) <= EventsFrom(id, policy, outcomes, stopAfter + 1, k)
    decreases |outcomes| - k
  {
    if k < stopAfter && k < |outcomes| && !IsFatal(policy, outcomes[k]) {
      LaterStopExtendsFrom(id, policy, outcomes, stopAfter, k + 1);
    }
  }

  /** Raising the stop point only extends what was emitted: a later stop never changes the
      events emitted before it. */
  lemma LaterStopExtends(id: DeviceId, policy: ErrorPolicy, outcomes: seq<ReadOutcome>, stopAfter: nat)
    ensures ReaderEvents(id, policy, outcomes, stopAfter) <= ReaderEvents(id, policy, outcomes, stopAfter + 1)
  {
    LaterStopExtendsFrom(id, policy, outcomes, stopAfter, 0);
  }

  /** Reads behind a prefix of outcomes are the reads of the rest, one stop later. */
  lemma {:induction false} EventsFromShift(id: DeviceId, policy: ErrorPolicy, o: ReadOutcome, outcomes: seq<ReadOutcome>, stopAfter: nat, k: nat)
    ensures EventsFrom(id, policy, [o] + outcomes, stopAfter + 1, k + 1) == EventsFrom(id, policy, outcomes, stopAfter, k)
    decreases |outcomes| - k
  {
    var longer := [o] + outcomes;
    if k < stopAfter && k < |outcomes| {
      assert longer[k + 1] == outcomes[k];
      if !IsFatal(policy, outcomes[k]) {
        EventsFromShift(id, policy, o, outcomes, stopAfter, k + 1);
      }
    }
  }

  /** Under the libusb policy a timeout is indistinguishable from an empty read. Under
      `EndOnAnyError` every error ends the reader; hidapi's own timeout is the empty read
      `ReadOk(_, 0)`. */
  lemma TimeoutHandling(id: DeviceId, outcomes: seq<ReadOutcome>, stopAfter: nat)
    requires stopAfter > 0
    ensures ReaderEvents(id, RetryOnTimeout, [ReadTimeout] + outcomes, stopAfter)
         == ReaderEvents(id, RetryOnTimeout, outcomes, stopAfter - 1)
    ensures ReaderEvents(id, EndOnAnyError, [ReadTimeout] + outcomes, stopAfter) == [DeviceDisconnected(id)]
  {
    EventsFromShift(id, RetryOnTimeout, ReadTimeout, outcomes, stopAfter - 1, 0);
  }

  // ---- Connection events of a discovery step ----

  /** One `DeviceConnected` per identifier, in order. */
  function ConnectedEvents(ids: seq<DeviceId>): (ev: seq<Event>)
    ensures |ev| == |ids| && forall i :: 0 <= i < |ids| ==> ev[i] == DeviceConnected(ids[i])
  {
    seq(|ids|, i requires 0 <= i < |ids| => DeviceConnected(ids[i]))
  }

  /** One `DeviceDisconnected` per identifier, in order. */
  function DisconnectedEvents(ids: seq<DeviceId>): (ev: seq<Event>)
    ensures |ev| == |ids| && forall i :: 0 <= i < |ids| ==> ev[i] == DeviceDisconnected(ids[i])
  {
    seq(|ids|, i requires 0 <= i < |ids| => DeviceDisconnected(ids[i]))
  }

  /** Disconnecting a list of distinct identifiers reports each of them exactly once and
      nothing else. */
  lemma DisconnectedEventsSpec(ids: seq<DeviceId>)
    requires Distinct(ids)
    ensures Distinct(DisconnectedEvents(ids))
    ensures forall e: Event :: e in DisconnectedEvents(ids) <==> e.DeviceDisconnected? && e.id in ids
  {
    var ev := DisconnectedEvents(ids);
    forall e: Event | e.DeviceDisconnected? && e.id in ids
      ensures e in ev
    {
      var i :| 0 <= i < |ids| && ids[i] == e.id;
      assert ev[i] == e;
    }
  }
}
