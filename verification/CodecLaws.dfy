/**
 What comes out of the codec for what went in: every frame the decoder returns, in order, in a
 buffer that says what the frame was; and that no slot is lost on the way.
 */
module CodecLaws {
  import opened Basics
  import opened Pixels
  import opened Codec

  // ---------------------------------------------------------------- frames become emissions

  ghost predicate Ascends(at: seq<nat>) {
    forall i, j :: 0 <= i < j < |at| ==> at[i] < at[j]
  }

  /** `at` names exactly the frames of a supported format. */
  ghost predicate Marks(at: seq<nat>, frames: seq<Option<Emission>>) {
    forall k :: 0 <= k < |frames| ==> (k in at <==> frames[k].Some?)
  }

  ghost predicate HoldsAt(es: seq<Emission>, frames: seq<Option<Emission>>, at: seq<nat>) {
    |at| == |es| && forall i :: 0 <= i < |at| ==> at[i] < |frames| && frames[at[i]] == Some(es[i])
  }

  /** `at` lists, ascending, exactly the frames of a supported format, and `es` holds them. */
  ghost predicate Selects(es: seq<Emission>, frames: seq<Option<Emission>>, at: seq<nat>) {
    Ascends(at) && Marks(at, frames) && HoldsAt(es, frames, at)
  }

  function Shift(at: seq<nat>): (r: seq<nat>)
    ensures |r| == |at| && forall i :: 0 <= i < |r| ==> r[i] == at[i] + 1
  {
    seq(|at|, i requires 0 <= i < |at| => at[i] + 1)
  }

  lemma ShiftIn(at: seq<nat>, k: nat)
    ensures k in Shift(at) <==> k > 0 && k - 1 in at
    ensures k in [0] + Shift(at) <==> k == 0 || k - 1 in at
  {
    if k > 0 && k - 1 in at {
      var i :| 0 <= i < |at| && at[i] == k - 1;
      assert Shift(at)[i] == k;
    }
  }

  lemma MarksFirst(at: seq<nat>, frames: seq<Option<Emission>>)
    requires frames != [] && Marks(at, frames[1..])
    ensures Marks(if frames[0].Some? then [0] + Shift(at) else Shift(at), frames)
  {
    forall k | 0 <= k < |frames|
      ensures k in (if frames[0].Some? then [0] + Shift(at) else Shift(at)) <==> frames[k].Some?
    {
      ShiftIn(at, k);
      assert k > 0 ==> frames[1..][k - 1] == frames[k];
    }
  }

  lemma HoldsShifted(es: seq<Emission>, frames: seq<Option<Emission>>, at: seq<nat>)
    requires frames != [] && HoldsAt(es, frames[1..], at)
    ensures HoldsAt(es, frames, Shift(at))
  {
    assert forall i :: 0 <= i < |at| ==> frames[1..][at[i]] == frames[at[i] + 1];
  }

  lemma AscendsFirst(at: seq<nat>)
    requires Ascends(at)
    ensures Ascends(Shift(at)) && Ascends([0] + Shift(at))
  {
  }

  lemma HoldsFirst(e: Emission, es: seq<Emission>, frames: seq<Option<Emission>>, at: seq<nat>)
    requires frames != [] && frames[0] == Some(e) && HoldsAt(es, frames, at)
    ensures HoldsAt([e] + es, frames, [0] + at)
  {
  }

  lemma SelectsFirst(es: seq<Emission>, frames: seq<Option<Emission>>, at: seq<nat>)
    requires frames != [] && Selects(es, frames[1..], at)
    ensures if frames[0].Some? then Selects([frames[0].value] + es, frames, [0] + Shift(at))
            else Selects(es, frames, Shift(at))
  {
    MarksFirst(at, frames);
    AscendsFirst(at);
    HoldsShifted(es, frames, at);
    if frames[0].Some? {
      HoldsFirst(frames[0].value, es, frames, Shift(at));
    }
  }

  lemma {:induction false} FramesEmitted(s: State, frames: seq<Option<Emission>>)
    returns (es: seq<Emission>, at: seq<nat>)
    requires BatchOk(Batch(frames, false))
    ensures SameStanding(s, EmitFrames(s, frames)) && EmitFrames(s, frames).emitted == s.emitted + es
    ensures Selects(es, frames, at)
    decreases |frames|
  {
    if frames == [] {
      es, at := [], [];
      assert s.emitted + [] == s.emitted;
    } else {
      RestOk(frames);
      var next := if frames[0].Some? then Emit(s, frames[0].value) else s;
      es, at := FramesEmitted(next, frames[1..]);
      SelectsFirst(es, frames, at);
      if frames[0].Some? {
        Concat(s.emitted, [frames[0].value], es);
        es, at := [frames[0].value] + es, [0] + Shift(at);
      } else {
        at := Shift(at);
      }
    }
  }

  lemma Concat(a: seq<Emission>, b: seq<Emission>, c: seq<Emission>)
    ensures a + b + c == a + (b + c)
  {
  }

  /** `es` are the supported ones of `frames`, in order. */
  ghost predicate Stems(es: seq<Emission>, frames: seq<Option<Emission>>) {
    exists at: seq<nat> :: Selects(es, frames, at)
  }

  /** The decoder has come to its end while being received from. */
  predicate Completed(s: State, b: Batch) {
    s.decoder.Finished? || (s.decoder.Finishing? && !b.fails)
  }

  /** Receiving emits exactly the supported frames, in order, and behind them the end of the
      stream if the decoder has come to its end. */
  lemma ReceivedEmissions(s: State, b: Batch) returns (es: seq<Emission>)
    requires BatchOk(b)
    ensures Receive(s, b).emitted == s.emitted + es + (if Completed(s, b) then [EndOfStream] else [])
    ensures Stems(es, if s.decoder.Finished? then [] else b.frames)
    ensures SameStanding(s, Receive(s, b).(decoder := s.decoder))
    ensures Receive(s, b).decoder == if Completed(s, b) then Finished else s.decoder
  {
    var at;
    if s.decoder.Finished? {
      es, at := FramesEmitted(s, []);
    } else {
      es, at := FramesEmitted(s, b.frames);
    }
    assert Selects(es, if s.decoder.Finished? then [] else b.frames, at);
  }

  /** The call hands bytes to the decoder. */
  predicate Feeds(s: State, size: nat, codecConfig: bool, a: Answers) {
    !s.draining && !codecConfig && size > 0 && a.packetAllocated
  }

  lemma NoneStem()
    ensures Stems([], [])
  {
    assert Selects([], [], []);
  }

  lemma SentEmissions(s: State, a: Answers) returns (first: seq<Emission>, second: seq<Emission>)
    requires AnswersOk(a) && s.decoder.Decoding? && a.packetAllocated
    ensures SameStanding(s, Send(s, a)) && Send(s, a).emitted == s.emitted + first + second
    ensures Stems(first, if a.full then a.beforeRetry.frames else []) && Stems(second, a.afterSend.frames)
  {
    first := [];
    NoneStem();
    var ready := s;
    if a.full {
      first := ReceivedEmissions(s, a.beforeRetry);
      ready := Receive(s, a.beforeRetry);
    }
    second := ReceivedEmissions(ready, a.afterSend);
    assert Send(s, a) == Receive(ready, a.afterSend);
  }

  lemma ConsumedEmissions(s: State, size: nat, codecConfig: bool, a: Answers)
    returns (first: seq<Emission>, second: seq<Emission>)
    requires AnswersOk(a) && s.decoder.Decoding? && !s.draining
    ensures var c := Consume(s, size, codecConfig, a);
            && c.emitted == s.emitted + first + second
            && SameStanding(s.(isOpen := c.isOpen), c)
            && c.isOpen == (if codecConfig && s.audio then a.reopens else s.isOpen)
    ensures var fed := Feeds(s, size, codecConfig, a);
            && Stems(first, if fed && a.full then a.beforeRetry.frames else [])
            && Stems(second, if fed then a.afterSend.frames else [])
  {
    if Feeds(s, size, codecConfig, a) {
      first, second := SentEmissions(s, a);
    } else {
      first, second := [], [];
      NoneStem();
    }
  }

  /** One queued input, from a decoder that takes input: the frames received before the retry,
      those after the send and those after the drain packet are emitted, all of them, in that
      order; then the end of the stream, if the drain completes.  Each is ready to be dequeued,
      behind what was ready before. */
  lemma InputEmissions(s: State, index: nat, fits: bool, size: nat, codecConfig: bool, endOfStream: bool, a: Answers)
    returns (first: seq<Emission>, second: seq<Emission>, third: seq<Emission>, end: seq<Emission>)
    requires StateOk(s) && AnswersOk(a) && s.decoder.Decoding? && !s.draining
    requires index < INPUT_BUFFERS && fits && s.isOpen
    ensures var s' := QueueInput(s, index, fits, size, codecConfig, endOfStream, a);
            && s'.emitted == s.emitted + first + second + third + end
            && s'.delivered == s.delivered
            && |s'.ready| == |s.ready| + |first| + |second| + |third| + |end|
    ensures var fed, drains := Feeds(s, size, codecConfig, a), Drains(s, index, fits, codecConfig, endOfStream, a);
            && Stems(first, if fed && a.full then a.beforeRetry.frames else [])
            && Stems(second, if fed then a.afterSend.frames else [])
            && Stems(third, if drains then a.afterDrain.frames else [])
            && end == if drains && a.drainTaken && !a.afterDrain.fails then [EndOfStream] else []
  {
    first, second := ConsumedEmissions(s, size, codecConfig, a);
    var consumed := Consume(s, size, codecConfig, a);
    third, end := [], [];
    NoneStem();
    if consumed.isOpen && endOfStream {
      third := ReceivedEmissions(DrainPacket(consumed, a.drainTaken), a.afterDrain);
      end := if a.drainTaken && !a.afterDrain.fails then [EndOfStream] else [];
    }
    assert consumed.emitted + third + end == s.emitted + first + second + third + end;
    QueueInputKeeps(s, index, fits, size, codecConfig, endOfStream, a);
  }

  // ---------------------------------------------------------------- what a dequeued buffer says

  /** `o` is the buffer of emission `e`, under the format reported by then. */
  ghost predicate SaysWhatItIs(o: Output, e: Emission, reported: Reported) {
    match e
    case Video(f) =>
      && o.pts == f.pts && o.flags == 0
      && reported.width == f.width && reported.height == f.height
    case Audio(pcm, rate, channels, pts) =>
      && o.data == pcm && o.pts == pts && o.flags == 0
      && reported.sampleRate == rate && reported.channels == channels
    case EndOfStream => o.data == [] && o.flags == 4
  }

  /** In any reachable state, a dequeued buffer is the front one; it holds the next emission's
      time stamp, samples and flags, and the format told last is the emission's. */
  lemma DequeuedBufferIsRight(s: State, acts: seq<Action>)
    requires Initial(s) && IsRun(s, acts) && DequeueOutput(AfterOk(s, acts)).1.Buffer?
    ensures var e := AfterOk(s, acts);
            var (e', r) := DequeueOutput(e);
            && r.slot == e.ready[0] < |e'.outputs| && e'.ready == e.ready[1..]
            && SaysWhatItIs(e'.outputs[r.slot], e.emitted[|e.delivered|], e'.reported)
  {
    var e := AfterOk(s, acts);
    assert e.outputs[e.ready[0]] == e.filled[|e.delivered|] == Render(e.emitted[|e.delivered|]);
  }

  /** Nothing to dequeue exactly when nothing is ready.  A format is announced exactly when the
      front buffer's differs from the one told last, and then only once: the next call hands
      over that buffer. */
  lemma FrontComesOut(s: State)
    requires StateOk(s)
    ensures DequeueOutput(s).1.TryAgain? <==> s.ready == []
    ensures s.ready != [] ==>
              var o := s.outputs[s.ready[0]];
              var (s', r) := DequeueOutput(s);
              && (r.FormatChanged? <==>
                    || (o.width != 0 && (o.width, o.height) != (s.reported.width, s.reported.height))
                    || (o.channels != 0 && (o.sampleRate, o.channels) != (s.reported.sampleRate, s.reported.channels)))
              && (r.FormatChanged? ==> FrontOk(s') && s'.ready == s.ready && DequeueOutput(s').1 == Buffer(s.ready[0]))
              && (!r.FormatChanged? ==> r == Buffer(s.ready[0]))
  {
    if s.ready != [] {
      assert s.outputs[s.ready[0]] == s.filled[|s.delivered|] == Render(s.emitted[|s.delivered|]);
    }
  }

  // ---------------------------------------------------------------- no slot is lost

  /** A slot is in use exactly while it is ready or with the client. */
  ghost predicate NoLeak(s: State) {
    forall i :: 0 <= i < |s.outputs| ==> (s.outputs[i].inUse <==> i in s.ready || i in s.held)
  }

  lemma PlaceLeaksNone(s: State, o: Output)
    requires NoLeak(s) && o.inUse
    ensures NoLeak(Place(s, o))
  {
    var s' := Place(s, o);
    var slot := FirstFree(s.outputs, 0);
    assert s'.ready[|s.ready|] == slot;
    assert forall i :: i in s'.ready <==> i in s.ready || i == slot;
  }

  lemma {:induction false} FramesLeakNone(s: State, frames: seq<Option<Emission>>)
    requires NoLeak(s) && BatchOk(Batch(frames, false))
    ensures NoLeak(EmitFrames(s, frames))
    decreases |frames|
  {
    if frames != [] {
      RestOk(frames);
      if frames[0].Some? {
        PlaceLeaksNone(s, Render(frames[0].value));
      }
      FramesLeakNone(if frames[0].Some? then Emit(s, frames[0].value) else s, frames[1..]);
    }
  }

  lemma EndLeaksNone(s: State)
    requires NoLeak(s)
    ensures NoLeak(Emit(s, EndOfStream))
  {
    PlaceLeaksNone(s, Render(EndOfStream));
  }

  lemma ReceiveLeaksNone(s: State, b: Batch)
    requires NoLeak(s) && BatchOk(b)
    ensures NoLeak(Receive(s, b))
  {
    match s.decoder
    case Decoding => FramesLeakNone(s, b.frames);
    case Finishing =>
      FramesLeakNone(s, b.frames);
      EndLeaksNone(EmitFrames(s, b.frames).(decoder := Finished));
    case Finished => EndLeaksNone(s);
  }

  lemma InputLeaksNone(s: State, index: nat, fits: bool, size: nat, codecConfig: bool, endOfStream: bool, a: Answers)
    requires NoLeak(s) && AnswersOk(a) && |s.inputFree| == INPUT_BUFFERS
    ensures NoLeak(QueueInput(s, index, fits, size, codecConfig, endOfStream, a))
  {
    ReceiveLeaksNone(s, a.beforeRetry);
    ReceiveLeaksNone(if a.full && s.decoder.Decoding? then Receive(s, a.beforeRetry) else s, a.afterSend);
    var consumed := Consume(s, size, codecConfig, a);
    assert NoLeak(consumed);
    ReceiveLeaksNone(DrainPacket(consumed, a.drainTaken), a.afterDrain);
  }

  lemma PopLeaksNone(s: State)
    requires NoLeak(s) && s.ready != [] && FrontOk(s) && Distinct(s.ready)
    ensures NoLeak(Pop(s))
  {
    var s' := Pop(s);
    assert s.ready == [s.ready[0]] + s'.ready;
    assert forall i :: i in s.ready <==> i == s.ready[0] || i in s'.ready;
  }

  lemma DequeueLeaksNone(s: State)
    requires NoLeak(s) && FrontOk(s) && Distinct(s.ready)
    ensures NoLeak(DequeueOutput(s).0)
  {
    if s.ready != [] {
      PopLeaksNone(s);
    }
  }

  lemma ReleaseLeaksNone(s: State, slot: nat)
    requires NoLeak(s) && slot in s.held && slot !in s.ready
    ensures NoLeak(Release(s, slot))
  {
  }

  lemma StepLeaksNone(s: State, a: Action)
    requires StateOk(s) && NoLeak(s) && Enabled(s, a)
    ensures NoLeak(Apply(s, a))
  {
    match a
    case GiveInput(index, fits, size, codecConfig, endOfStream, answers) =>
      InputLeaksNone(s, index, fits, size, codecConfig, endOfStream, answers);
    case TakeOutput => DequeueLeaksNone(s);
    case GiveBack(slot) => ReleaseLeaksNone(s, slot);
    case Configure(_) =>
    case StartCodec =>
    case Flush =>
    case TakeInput =>
  }

  lemma {:induction false} RunLeaksNone(s: State, acts: seq<Action>)
    requires StateOk(s) && NoLeak(s) && IsRun(s, acts)
    ensures NoLeak(After(s, acts))
    decreases |acts|
  {
    if acts != [] {
      StepLeaksNone(s, acts[0]);
      StepKeeps(s, acts[0]);
      RunLeaksNone(Apply(s, acts[0]), acts[1..]);
    }
  }

  /** In every run the slots in use are exactly the ready ones and the client's, so a slot given
      back, and every slot after a reset, is filled again before the list grows. */
  lemma SlotsDoNotLeak(s: State, acts: seq<Action>)
    requires Initial(s) && IsRun(s, acts)
    ensures NoLeak(After(s, acts))
    ensures var e := After(s, acts);
            FirstFree(e.outputs, 0) == |e.outputs| ==> forall i :: 0 <= i < |e.outputs| ==> i in e.ready || i in e.held
  {
    RunLeaksNone(s, acts);
  }

  // ---------------------------------------------------------------- input buffers

  /** An input buffer is handed out exactly when one is free, the codec is not draining and
      fewer than four outputs wait; it was free and is not any more.  Queuing it frees it again,
      on every path.  A closed codec does no more than that, and what does not fit changes
      nothing. */
  lemma InputsComeBack(s: State, index: nat, size: nat, codecConfig: bool, endOfStream: bool, a: Answers)
    requires |s.inputFree| == INPUT_BUFFERS && AnswersOk(a)
    ensures var (s', r) := DequeueInput(s);
            && (r.Some? <==> !s.draining && |s.ready| < 4 && true in s.inputFree)
            && (r.Some? ==> r.value < 4 && s.inputFree[r.value] && s' == s.(inputFree := s.inputFree[r.value := false]))
            && (r.None? ==> s' == s)
    ensures index < 4 ==> QueueInput(s, index, true, size, codecConfig, endOfStream, a).inputFree ==
                          s.inputFree[index := true]
    ensures index < 4 && !s.isOpen ==> QueueInput(s, index, true, size, codecConfig, endOfStream, a) ==
                                       s.(inputFree := s.inputFree[index := true])
    ensures QueueInput(s, index, false, size, codecConfig, endOfStream, a) == s
    ensures index >= 4 ==> QueueInput(s, index, true, size, codecConfig, endOfStream, a) == s
  {
  }

  /** A reset frees every input and output buffer, drops what was ready, and ends draining; a
      flush also has an open decoder take input again, and a start forgets the formats told, so
      the first picture or sound after it is announced. */
  lemma ResetStartsOver(s: State)
    ensures forall s' | s' == Flushed(s) || (s.isOpen && s' == Start(s)) ::
              && s'.inputFree == [true, true, true, true] && !s'.draining && s'.ready == [] && s'.held == map[]
              && (forall i :: 0 <= i < |s'.outputs| ==> !s'.outputs[i].inUse)
    ensures s.isOpen ==> Flushed(s).decoder == Decoding
    ensures s.isOpen ==> forall o: Output ::
              && (VideoChanged(o, Start(s).reported) <==> o.width != 0)
              && (AudioChanged(o, Start(s).reported) <==> o.channels != 0)
    ensures !s.isOpen ==> Start(s) == s
  {
  }
}
