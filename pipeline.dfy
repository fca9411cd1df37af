/**
  The hand-off from the receive task (core 0) to the render task (core 1) in
  usb_screen/src/main.rs: the one-slot `USB_CHANNEL`, the `DISPLAY_LOCK` busy
  flag and the `frame_received` flag of both `core1_task`s.

  The two cores are not modelled as threads. Each method is one stretch of a
  task between two points where the other core can observe the shared state,
  and a blocking wait (`send().await` on a full channel, `receive().await` on
  an empty one, the 1 ms polling loop on the busy flag) is the precondition
  under which that stretch can run. The end of the polling loop and the send
  that follows it are two stretches: the render task can take the lock and set
  the flag again while the send waits for the slot. A ghost `log` records what happened, and
  `Valid()` states what holds of every log the methods can produce.
 */
module Pipeline {
  import opened Bytes
  import opened Wrappers
  import opened Protocol
  import Receiver

  /** Where the render task is inside one iteration of its loop. */
  datatype Phase =
    | Ready                                   // top of the loop
    | Taken(frame: Frame)                     // a frame taken from the channel
    | Locked(frame: Frame)                    // ST7789: lock held and flag set
    | Decoded(image: seq<u8>, frame: Frame)   // ST7789: lock held, image decompressed

  /** What the log records. */
  datatype Event =
    | Sent(frame: Frame)
    | Received(frame: Frame)
    | IdleRound
    | Observed                                // core 0 read the busy flag as false
    | LockSet(value: bool)
    | DecompressFailed
    | Drawn(image: seq<u8>, x: u16, y: u16, width: u16, height: u16)

  /** The frames sent into the channel, in order. */
  function Sents(log: seq<Event>): (r: seq<Frame>)
    decreases |log|
  {
    if log == [] then []
    else Sents(log[..|log| - 1]) + (if log[|log| - 1].Sent? then [log[|log| - 1].frame] else [])
  }

  /** The frames taken out of the channel, in order. */
  function Receiveds(log: seq<Event>): (r: seq<Frame>)
    decreases |log|
  {
    if log == [] then []
    else Receiveds(log[..|log| - 1]) + (if log[|log| - 1].Received? then [log[|log| - 1].frame] else [])
  }

  /** The value of the busy flag after the log: the last value written, initially false. */
  function Busy(log: seq<Event>): bool
    decreases |log|
  {
    if log == [] then false
    else if log[|log| - 1].LockSet? then log[|log| - 1].value
    else Busy(log[..|log| - 1])
  }

  /** Whether core 0 has seen the flag clear since it last sent a frame. */
  function ObservedSinceSent(log: seq<Event>): bool
    decreases |log|
  {
    if log == [] then false
    else if log[|log| - 1] == Observed then true
    else if log[|log| - 1].Sent? then false
    else ObservedSinceSent(log[..|log| - 1])
  }

  /** What is in the slot: the sent frames are the taken ones followed by the slot. */
  function SlotFrames(slot: Option<Frame>): seq<Frame> {
    if slot.Some? then [slot.value] else []
  }

  /** Appending one event to a log. */
  lemma {:induction false} Extend(log: seq<Event>, e: Event)
    ensures Sents(log + [e]) == Sents(log) + (if e.Sent? then [e.frame] else [])
    ensures Receiveds(log + [e]) == Receiveds(log) + (if e.Received? then [e.frame] else [])
    ensures Busy(log + [e]) == if e.LockSet? then e.value else Busy(log)
    ensures ObservedSinceSent(log + [e]) == if e == Observed then true else if e.Sent? then false else ObservedSinceSent(log)
    ensures forall i :: 0 <= i <= |log| ==> (log + [e])[..i] == log[..i]
  {
    assert (log + [e])[..|log|] == log;
  }

  /** What every event needs of the log before it. */
  predicate Allowed(panel: Receiver.Panel, log: seq<Event>, e: Event) {
    // ST7789: every send comes after the flag was seen clear, with no send in between
    && (e.Sent? ==> panel == Receiver.St7735 || ObservedSinceSent(log))
    // the flag is only ever seen clear when it is
    && (e == Observed ==> !Busy(log))
    // the idle animation runs only before the first frame
    && (e == IdleRound ==> Receiveds(log) == [])
  }

  /** Every event of the log was allowed when it happened. */
  predicate Ordered(panel: Receiver.Panel, log: seq<Event>)
    decreases |log|
  {
    log == [] || (Ordered(panel, log[..|log| - 1]) && Allowed(panel, log[..|log| - 1], log[|log| - 1]))
  }

  /** Appending an allowed event keeps the log ordered. */
  lemma OrderedExtend(panel: Receiver.Panel, log: seq<Event>, e: Event)
    requires Ordered(panel, log) && Allowed(panel, log, e)
    ensures Ordered(panel, log + [e])
  {
    assert (log + [e])[..|log|] == log;
  }

  /** In an ordered log, each event was allowed by the events before it. */
  lemma {:induction false} OrderedAt(panel: Receiver.Panel, log: seq<Event>, i: nat)
    requires Ordered(panel, log) && i < |log|
    ensures Allowed(panel, log[..i], log[i])
    decreases |log|
  {
    var n := |log| - 1;
    if i < n {
      var p := log[..n];
      OrderedAt(panel, p, i);
      assert p[..i] == log[..i] && p[i] == log[i];
    }
  }

  /** The render side of one build. `decompress` is `lz4_flex::decompress_size_prepended`. */
  class Renderer {
    const panel: Receiver.Panel
    const decompress: seq<u8> -> Option<seq<u8>>
    /** `USB_CHANNEL`, capacity 1. */
    var slot: Option<Frame>
    /** The `bool` inside `DISPLAY_LOCK` (ST7789 builds only). */
    var busy: bool
    var frameReceived: bool
    var phase: Phase
    ghost var log: seq<Event>

    ghost predicate Valid()
      reads this
    {
      // the channel neither loses nor reorders nor duplicates frames
      && Sents(log) == Receiveds(log) + SlotFrames(slot)
      // the busy flag is what was last written to it
      && busy == Busy(log)
      // it is set exactly from taking the lock until the image is drawn or dropped
      && (busy <==> phase.Locked? || phase.Decoded?)
      && (panel == Receiver.St7735 ==> !busy)
      // the flag only ever goes from false to true
      && (frameReceived <==> Receiveds(log) != [])
      // the phase holds the frame taken last
      && (!phase.Ready? ==> Receiveds(log) != [] && phase.frame == Receiveds(log)[|Receiveds(log)| - 1])
      // sends follow a clear reading of the flag, and the idle animation precedes the first frame
      && Ordered(panel, log)
    }

    constructor (panel: Receiver.Panel, decompress: seq<u8> -> Option<seq<u8>>)
      ensures Valid() && this.panel == panel && this.decompress == decompress
      ensures slot == None && !busy && !frameReceived && phase == Ready && log == []
    {
      this.panel := panel;
      this.decompress := decompress;
      slot, busy, frameReceived, phase := None, false, false, Ready;
      log := [];
    }

    /** ST7789, core 0 at an end marker: the 1 ms polling loop ends once `try_lock`
        succeeds and the flag reads false. */
    method Poll()
      requires Valid() && panel == Receiver.St7789 && !busy
      modifies this
      ensures Valid() && log == old(log) + [Observed]
      ensures slot == old(slot) && busy == old(busy) && frameReceived == old(frameReceived) && phase == old(phase)
    {
      Extend(log, Observed);
      OrderedExtend(panel, log, Observed);
      log := log + [Observed];
    }

    /** Core 0 at an end marker, after the polling loop on ST7789 builds:
        `USB_CHANNEL.send(...).await` puts the frame in the slot once it is free. The flag
        may have been set again in the meantime. */
    method Deliver(f: Frame)
      requires Valid() && slot == None && (panel == Receiver.St7789 ==> ObservedSinceSent(log))
      modifies this
      ensures Valid() && slot == Some(f) && log == old(log) + [Sent(f)]
      ensures busy == old(busy) && frameReceived == old(frameReceived) && phase == old(phase)
    {
      Extend(log, Sent(f));
      OrderedExtend(panel, log, Sent(f));
      slot := Some(f);
      log := log + [Sent(f)];
    }

    /** Top of the render loop before the first frame: `try_receive`; an empty channel
        runs one round of the idle animation instead (the animation is not modelled). */
    method TryTake() returns (took: bool)
      requires Valid() && phase == Ready && !frameReceived
      modifies this
      ensures Valid() && took == old(slot).Some? && slot == None && busy == old(busy)
      ensures took ==> frameReceived && phase == Taken(old(slot).value) && log == old(log) + [Received(old(slot).value)]
      ensures !took ==> !frameReceived && phase == Ready && log == old(log) + [IdleRound]
    {
      if slot.Some? {
        var f := slot.value;
        Extend(log, Received(f));
        OrderedExtend(panel, log, Received(f));
        slot := None;
        frameReceived := true;
        phase := Taken(f);
        log := log + [Received(f)];
        took := true;
      } else {
        Extend(log, IdleRound);
        OrderedExtend(panel, log, IdleRound);
        log := log + [IdleRound];
        took := false;
      }
    }

    /** Top of the render loop once a frame has arrived: `receive().await`, which
        continues once the slot holds a frame. */
    method Take()
      requires Valid() && phase == Ready && frameReceived && slot.Some?
      modifies this
      ensures Valid() && slot == None && frameReceived && busy == old(busy)
      ensures phase == Taken(old(slot).value) && log == old(log) + [Received(old(slot).value)]
    {
      var f := slot.value;
      Extend(log, Received(f));
      OrderedExtend(panel, log, Received(f));
      slot := None;
      phase := Taken(f);
      log := log + [Received(f)];
    }

    /** ST7789: `DISPLAY_LOCK.lock().await`, then set the flag. */
    method Lock()
      requires Valid() && panel == Receiver.St7789 && phase.Taken?
      modifies this
      ensures Valid() && slot == old(slot) && frameReceived && busy
      ensures phase == Locked(old(phase).frame) && log == old(log) + [LockSet(true)]
    {
      Extend(log, LockSet(true));
      OrderedExtend(panel, log, LockSet(true));
      busy := true;
      phase := Locked(phase.frame);
      log := log + [LockSet(true)];
    }

    /** ST7789: decompress the frame under the lock; on failure clear the flag, drop the
        lock and go back to the top of the loop. */
    method Decompress() returns (ok: bool)
      requires Valid() && phase.Locked?
      modifies this
      ensures Valid() && slot == old(slot) && frameReceived
      ensures ok == decompress(old(phase).frame.data).Some? && busy == ok
      ensures ok ==> phase == Decoded(decompress(old(phase).frame.data).value, old(phase).frame)
                     && log == old(log)
      ensures !ok ==> phase == Ready && log == old(log) + [DecompressFailed, LockSet(false)]
    {
      var f := phase.frame;
      var image := decompress(f.data);
      if image.None? {
        Release(DecompressFailed);
        ok := false;
      } else {
        phase := Decoded(image.value, f);
        ok := true;
      }
    }

    /** ST7789: `draw_rgb565_u8` of the image, then clear the flag and release the lock. */
    method DrawAndUnlock()
      requires Valid() && phase.Decoded?
      modifies this
      ensures Valid() && slot == old(slot) && frameReceived && !busy && phase == Ready
      ensures var f := old(phase).frame;
        log == old(log) + [Drawn(old(phase).image, f.x, f.y, f.width, f.height), LockSet(false)]
    {
      var image, f := phase.image, phase.frame;
      Release(Drawn(image, f.x, f.y, f.width, f.height));
    }

    /** ST7789: the end of a locked stretch, logged as `e`: clear the flag and drop the lock. */
    method Release(e: Event)
      requires Valid() && (phase.Locked? || phase.Decoded?) && (e.DecompressFailed? || e.Drawn?)
      modifies this
      ensures Valid() && slot == old(slot) && frameReceived == old(frameReceived) && !busy && phase == Ready
      ensures log == old(log) + [e, LockSet(false)]
    {
      ghost var log1 := log + [e];
      ghost var log2 := log1 + [LockSet(false)];
      Extend(log, e);
      OrderedExtend(panel, log, e);
      Extend(log1, LockSet(false));
      OrderedExtend(panel, log1, LockSet(false));
      assert log2 == log + [e, LockSet(false)];
      busy := false;
      log := log2;
      phase := Ready;
    }

    /** ST7735: core 0 already decompressed, so the frame's bytes are displayed as they are. */
    method Display()
      requires Valid() && panel == Receiver.St7735 && phase.Taken?
      modifies this
      ensures Valid() && slot == old(slot) && frameReceived && busy == old(busy) && phase == Ready
      ensures var f := old(phase).frame; log == old(log) + [Drawn(f.data, f.x, f.y, f.width, f.height)]
    {
      var f := phase.frame;
      var e := Drawn(f.data, f.x, f.y, f.width, f.height);
      Extend(log, e);
      OrderedExtend(panel, log, e);
      log := log + [e];
      phase := Ready;
    }
  }

  /** Every method keeps `frame_received` once it is set: the set of taken frames only grows. */
  lemma {:induction false} ReceivedsPrefix(log: seq<Event>, k: nat)
    requires k <= |log|
    ensures Receiveds(log[..k]) <= Receiveds(log)
    decreases |log|
  {
    if k < |log| {
      assert log[..|log| - 1][..k] == log[..k];
      ReceivedsPrefix(log[..|log| - 1], k);
    } else {
      assert log[..k] == log;
    }
  }

  /** When the flag was seen clear since the last send, there is such a reading. */
  lemma {:induction false} ObservedWitness(log: seq<Event>)
    requires ObservedSinceSent(log)
    ensures exists j :: 0 <= j < |log| && log[j] == Observed && forall k :: j < k < |log| ==> !log[k].Sent?
    decreases |log|
  {
    var n := |log| - 1;
    if log[n] != Observed {
      var p := log[..n];
      ObservedWitness(p);
      var j :| 0 <= j < |p| && p[j] == Observed && forall k :: j < k < |p| ==> !p[k].Sent?;
      assert log[j] == Observed;
      assert forall k :: j < k < |log| ==> !log[k].Sent? by {
        forall k | j < k < |log| ensures !log[k].Sent? {
          if k < n { assert log[k] == p[k]; }
        }
      }
    }
  }

  /** ST7789: every frame core 0 sends is preceded by a reading of the flag as false
      after its previous send. */
  lemma SentAfterFlagSeenClear(r: Renderer, i: nat)
    requires r.Valid() && r.panel == Receiver.St7789 && i < |r.log| && r.log[i].Sent?
    ensures exists j :: 0 <= j < i && r.log[j] == Observed && !Busy(r.log[..j])
                        && forall k :: j < k < i ==> !r.log[k].Sent?
  {
    SentAfterObserved(r.log, i);
  }

  /** The same, on an ordered log of an ST7789 build. */
  lemma SentAfterObserved(log: seq<Event>, i: nat)
    requires Ordered(Receiver.St7789, log) && i < |log| && log[i].Sent?
    ensures exists j :: 0 <= j < i && log[j] == Observed && !Busy(log[..j])
                        && forall k :: j < k < i ==> !log[k].Sent?
  {
    var p := log[..i];
    OrderedAt(Receiver.St7789, log, i);
    ObservedWitness(p);
    var j :| 0 <= j < |p| && p[j] == Observed && forall k :: j < k < |p| ==> !p[k].Sent?;
    OrderedAt(Receiver.St7789, log, j);
    assert log[j] == p[j] && log[..j] == p[..j];
    assert forall k :: j < k < i ==> log[k] == p[k];
  }

  /** The flag can be set when the send completes: core 1 takes the first frame, core 0
      sees the flag clear, core 1 locks, and the second send goes through. */
  method SendWhileFlagSet(decompress: seq<u8> -> Option<seq<u8>>, a: Frame, b: Frame) returns (r: Renderer)
    ensures r.Valid() && r.panel == Receiver.St7789 && |r.log| > 0
    ensures r.log[|r.log| - 1] == Sent(b) && Busy(r.log[..|r.log| - 1])
  {
    r := new Renderer(Receiver.St7789, decompress);
    r.Poll();
    r.Deliver(a);
    var took := r.TryTake();
    r.Poll();
    r.Lock();
    ghost var before := r.log;
    r.Deliver(b);
    assert r.log[..|r.log| - 1] == before && before[|before| - 1] == LockSet(true);
  }

  /** At every point of a run the channel has delivered a prefix of what was sent, and
      at most one frame more than it delivered. */
  lemma ChannelIsFifo(r: Renderer)
    requires r.Valid()
    ensures Receiveds(r.log) <= Sents(r.log)
    ensures |Sents(r.log)| - |Receiveds(r.log)| <= 1
    ensures |Sents(r.log)| == |Receiveds(r.log)| + 1 <==> r.slot.Some?
  {
  }
}
