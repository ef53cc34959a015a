/**
 The MediaCodec buffer protocol: output slots pass from the decoder to the ready queue, to
 the client and back.  The FFmpeg decoder is the environment: what it returns is an input.
 */
module Codec {
  import opened Basics
  import opened Pixels

  const INPUT_BUFFERS := 4
  const MAX_READY_OUTPUTS := 4
  const FLAG_END_OF_STREAM := 4

  /** What one output buffer stands for. */
  datatype Emission =
    | Video(frame: Frame)
    | Audio(pcm: seq<Byte>, sampleRate: int, channels: int, pts: int)
    | EndOfStream

  predicate EmissionOk(e: Emission) {
    (e.Video? ==> FrameOk(e.frame)) && (e.Audio? ==> e.channels > 0)
  }

  datatype Output = Output(data: seq<Byte>, pts: int, flags: int, width: int, height: int,
                           sampleRate: int, channels: int, inUse: bool)

  /** The filled slot of an emission. */
  function Render(e: Emission): Output
    requires EmissionOk(e)
  {
    match e
    case Video(f) => Output(I420(f), f.pts, 0, f.width, f.height, 0, 0, true)
    case Audio(pcm, rate, channels, pts) => Output(pcm, pts, 0, 0, 0, rate, channels, true)
    case EndOfStream => Output([], 0, FLAG_END_OF_STREAM, 0, 0, 0, 0, true)
  }

  /** Where the FFmpeg context stands.  The drain packet takes it from `Decoding` to
      `Finishing`; having returned its last frame it is `Finished`, and reports end-of-file from
      then on until it is flushed or replaced. */
  datatype Decoder = Decoding | Finishing | Finished

  /** What the decoder returns until it stops: frames, None where the format is unsupported,
      and whether an error stopped it. */
  datatype Batch = Batch(frames: seq<Option<Emission>>, fails: bool)

  predicate BatchOk(b: Batch) {
    forall i :: 0 <= i < |b.frames| && b.frames[i].Some? ==>
      EmissionOk(b.frames[i].value) && !b.frames[i].value.EndOfStream?
  }

  datatype Reported = Reported(width: int, height: int, sampleRate: int, channels: int)

  /** `emitted`, `filled`, `delivered` and `held` are history since the last reset: the
      emissions, the buffers they filled, the buffers handed to the client, and which of the
      filled ones the client still holds in which slot.  `unfed` says that no input reached the
      decoder since it was last configured or flushed. */
  datatype State = State(
    audio: bool,
    isOpen: bool,
    draining: bool,
    decoder: Decoder,
    unfed: bool,
    inputFree: seq<bool>,
    outputs: seq<Output>,
    ready: seq<nat>,
    reported: Reported,
    emitted: seq<Emission>,
    filled: seq<Output>,
    delivered: seq<Output>,
    held: map<nat, nat>)

  // ---------------------------------------------------------------- the operations on values

  /** The first slot not in use, or a new one behind the last. */
  function FirstFree(outputs: seq<Output>, from: nat): (slot: nat)
    requires from <= |outputs|
    ensures from <= slot <= |outputs|
    ensures forall i :: from <= i < slot ==> outputs[i].inUse
    ensures slot < |outputs| ==> !outputs[slot].inUse
    decreases |outputs| - from
  {
    if from == |outputs| || !outputs[from].inUse then from else FirstFree(outputs, from + 1)
  }

  function Put(outputs: seq<Output>, slot: nat, o: Output): (r: seq<Output>)
    requires slot <= |outputs|
  {
    if slot < |outputs| then outputs[slot := o] else outputs + [o]
  }

  /** Fills the first free slot and queues it. */
  function Place(s: State, o: Output): State {
    var slot := FirstFree(s.outputs, 0);
    s.(outputs := Put(s.outputs, slot, o), ready := s.ready + [slot], filled := s.filled + [o])
  }

  function Emit(s: State, e: Emission): State
    requires EmissionOk(e)
  {
    Place(s, Render(e)).(emitted := s.emitted + [e])
  }

  function EmitFrames(s: State, frames: seq<Option<Emission>>): State
    requires forall i :: 0 <= i < |frames| && frames[i].Some? ==> EmissionOk(frames[i].value)
    decreases |frames|
  {
    if frames == [] then s
    else EmitFrames(if frames[0].Some? then Emit(s, frames[0].value) else s, frames[1..])
  }

  /** `ReceiveFrames`: every frame, then the end-of-stream buffer if the decoder reports
      end-of-file. */
  function Receive(s: State, b: Batch): State
    requires BatchOk(b)
  {
    match s.decoder
    case Decoding => EmitFrames(s, b.frames)
    case Finishing =>
      var filled := EmitFrames(s, b.frames);
      if b.fails then filled else Emit(filled.(decoder := Finished), EndOfStream)
    case Finished => Emit(s, EndOfStream)
  }

  /** How the decoder answers one queued input buffer. */
  datatype Answers = Answers(
    reopens: bool,         // OpenContext succeeds
    packetAllocated: bool,
    full: bool,            // a decoder that takes input reports EAGAIN first
    beforeRetry: Batch,
    afterSend: Batch,
    drainTaken: bool,      // the drain packet is accepted
    afterDrain: Batch)

  predicate AnswersOk(a: Answers) {
    BatchOk(a.beforeRetry) && BatchOk(a.afterSend) && BatchOk(a.afterDrain)
  }

  function Send(s: State, a: Answers): State
    requires AnswersOk(a)
  {
    if !a.packetAllocated then s
    else Receive(if a.full && s.decoder.Decoding? then Receive(s, a.beforeRetry) else s, a.afterSend)
  }

  /** The drain packet ends the input of a decoder that accepts it. */
  function DrainPacket(s: State, taken: bool): State {
    s.(draining := true, decoder := if taken && s.decoder.Decoding? then Finishing else s.decoder)
  }

  function Drain(s: State, a: Answers): State
    requires AnswersOk(a)
  {
    Receive(DrainPacket(s, a.drainTaken), a.afterDrain)
  }

  /** What the flags make of the buffer's bytes, before any end-of-stream flag. */
  function Consume(s: State, size: nat, codecConfig: bool, a: Answers): State
    requires AnswersOk(a)
  {
    if s.draining then s
    else if codecConfig && s.audio then s.(isOpen := a.reopens, decoder := Decoding)
    else if codecConfig then s
    else if size > 0 then Send(s, a) else s
  }

  function QueueInput(s: State, index: nat, fits: bool, size: nat, codecConfig: bool, endOfStream: bool, a: Answers)
    : State
    requires AnswersOk(a) && |s.inputFree| == INPUT_BUFFERS
  {
    if index >= INPUT_BUFFERS || !fits then s
    else if !s.isOpen then s.(inputFree := s.inputFree[index := true])
    else
      var consumed := Consume(s, size, codecConfig, a);
      var drained := if consumed.isOpen && endOfStream && !consumed.draining then Drain(consumed, a) else consumed;
      drained.(inputFree := s.inputFree[index := true], unfed := false)
  }

  datatype Dequeued = TryAgain | FormatChanged | Buffer(slot: nat)

  predicate VideoChanged(o: Output, r: Reported) {
    o.width != 0 && (o.width != r.width || o.height != r.height)
  }

  predicate AudioChanged(o: Output, r: Reported) {
    o.channels != 0 && (o.sampleRate != r.sampleRate || o.channels != r.channels)
  }

  /** The slot at the front of the queue exists. */
  predicate FrontOk(s: State) {
    s.ready != [] ==> s.ready[0] < |s.outputs|
  }

  function DequeueOutput(s: State): (State, Dequeued)
    requires FrontOk(s)
  {
    if s.ready == [] then (s, TryAgain)
    else
      var slot := s.ready[0];
      var o := s.outputs[slot];
      if VideoChanged(o, s.reported) then
        (s.(reported := s.reported.(width := o.width, height := o.height)), FormatChanged)
      else if AudioChanged(o, s.reported) then
        (s.(reported := s.reported.(sampleRate := o.sampleRate, channels := o.channels)), FormatChanged)
      else (Pop(s), Buffer(slot))
  }

  /** Slots out of range are ignored. */
  function Release(s: State, slot: nat): State {
    if slot < |s.outputs| then
      s.(outputs := s.outputs[slot := s.outputs[slot].(inUse := false)], held := s.held - {slot})
    else s
  }

  function AllFree(outputs: seq<Output>): (r: seq<Output>)
    ensures |r| == |outputs| && forall i :: 0 <= i < |r| ==> r[i] == outputs[i].(inUse := false)
  {
    seq(|outputs|, i requires 0 <= i < |outputs| => outputs[i].(inUse := false))
  }

  function ResetBuffers(s: State): State {
    s.(inputFree := [true, true, true, true], outputs := AllFree(s.outputs), ready := [],
       draining := false, held := map[], emitted := [], filled := [], delivered := [])
  }

  /** `flush` also resets an open decoder. */
  function Flushed(s: State): State {
    ResetBuffers(s).(decoder := if s.isOpen then Decoding else s.decoder, unfed := true)
  }

  /** `start` leaves the decoder as it is. */
  function Start(s: State): State {
    if s.isOpen then ResetBuffers(s).(reported := Reported(0, 0, 0, 0)) else s
  }

  /** The first free input buffer, unless draining or too many outputs wait. */
  function DequeueInput(s: State): (r: (State, Option<nat>))
    requires |s.inputFree| == INPUT_BUFFERS
  {
    if s.draining || |s.ready| >= MAX_READY_OUTPUTS || !(exists i :: 0 <= i < INPUT_BUFFERS && s.inputFree[i])
    then (s, None)
    else
      var i := FirstTrue(s.inputFree, 0);
      (s.(inputFree := s.inputFree[i := false]), Some(i))
  }

  function FirstTrue(flags: seq<bool>, from: nat): (i: nat)
    requires exists k :: from <= k < |flags| && flags[k]
    ensures from <= i < |flags| && flags[i] && forall k :: from <= k < i ==> !flags[k]
    decreases |flags| - from
  {
    if from < |flags| && flags[from] then from else FirstTrue(flags, from + 1)
  }

  // ---------------------------------------------------------------- invariant

  /** Ready slots are distinct and hold, in order, the filled buffers not yet delivered;
      the delivered ones are those before, in order. */
  ghost predicate QueueOk(s: State) {
    && |s.delivered| + |s.ready| == |s.filled| && s.delivered <= s.filled
    && Distinct(s.ready)
    && (forall i :: 0 <= i < |s.ready| ==>
          s.ready[i] < |s.outputs| && s.outputs[s.ready[i]] == s.filled[|s.delivered| + i])
    && (forall i :: 0 <= i < |s.filled| ==> s.filled[i].inUse)
  }

  /** A slot the client holds keeps what was delivered in it, and is not in the queue. */
  ghost predicate HeldOk(s: State) {
    forall h :: h in s.held ==>
      h < |s.outputs| && h !in s.ready && s.held[h] < |s.filled| && s.outputs[h] == s.filled[s.held[h]]
  }

  /** Each filled buffer is the picture, sound or end its emission stands for. */
  ghost predicate FilledOk(s: State) {
    && |s.filled| == |s.emitted|
    && forall i :: 0 <= i < |s.emitted| ==> EmissionOk(s.emitted[i]) && s.filled[i] == Render(s.emitted[i])
  }

  ghost predicate SlotsOk(s: State) {
    QueueOk(s) && HeldOk(s)
  }

  /** What every run keeps. */
  ghost predicate StateOk(s: State) {
    |s.inputFree| == INPUT_BUFFERS && SlotsOk(s) && FilledOk(s)
  }

  /** What runs keep whose client starts the codec only after configuring or flushing it: the
      end of the stream is emitted while draining only, and last. */
  ghost predicate EndOk(s: State) {
    && (forall i :: 0 <= i < |s.emitted| && s.emitted[i].EndOfStream? ==> s.draining && i == |s.emitted| - 1)
    && (!s.decoder.Decoding? ==> s.draining && !s.unfed && s.isOpen)
  }

  /** A draining codec has emitted the end of the stream. */
  ghost predicate Ended(s: State) {
    s.draining ==> s.emitted != [] && s.emitted[|s.emitted| - 1].EndOfStream?
  }

  ghost predicate Initial(s: State) {
    && |s.inputFree| == INPUT_BUFFERS && s.outputs == [] && s.ready == [] && !s.draining
    && !s.isOpen && s.decoder == Decoding && !s.unfed
    && s.held == map[] && s.emitted == [] && s.filled == [] && s.delivered == []
  }

  // ---------------------------------------------------------------- what each operation keeps

  lemma PlaceKeeps(s: State, o: Output)
    requires SlotsOk(s) && o.inUse
    ensures SlotsOk(Place(s, o))
  {
    var slot := FirstFree(s.outputs, 0);
    forall i | 0 <= i < |s.ready|
      ensures s.ready[i] != slot
    {
      assert s.filled[|s.delivered| + i].inUse;
    }
    assert slot !in s.ready;
    forall h | h in s.held
      ensures h != slot
    {
      assert s.filled[s.held[h]].inUse;
    }
  }

  lemma EmitKeeps(s: State, e: Emission)
    requires SlotsOk(s) && FilledOk(s) && EmissionOk(e)
    ensures SlotsOk(Emit(s, e)) && FilledOk(Emit(s, e))
  {
    PlaceKeeps(s, Render(e));
    SameSlots(Place(s, Render(e)), Emit(s, e));
    FilledOneMore(s, e);
  }

  lemma SameSlots(s: State, s': State)
    requires SlotsOk(s) && s' == s.(emitted := s'.emitted, decoder := s'.decoder)
    ensures SlotsOk(s')
  {
  }

  lemma FilledOneMore(s: State, e: Emission)
    requires FilledOk(s) && EmissionOk(e)
    ensures FilledOk(Emit(s, e))
  {
    var s' := Emit(s, e);
    forall i | 0 <= i < |s'.emitted|
      ensures EmissionOk(s'.emitted[i]) && s'.filled[i] == Render(s'.emitted[i])
    {
      assert i < |s.emitted| ==> s'.emitted[i] == s.emitted[i] && s'.filled[i] == s.filled[i];
    }
  }

  lemma {:induction false} EmitFramesKeeps(s: State, frames: seq<Option<Emission>>)
    requires SlotsOk(s) && FilledOk(s) && BatchOk(Batch(frames, false))
    ensures SlotsOk(EmitFrames(s, frames)) && FilledOk(EmitFrames(s, frames))
    decreases |frames|
  {
    if frames != [] {
      if frames[0].Some? {
        EmitKeeps(s, frames[0].value);
      }
      RestOk(frames);
      EmitFramesKeeps(if frames[0].Some? then Emit(s, frames[0].value) else s, frames[1..]);
    }
  }

  lemma RestOk(frames: seq<Option<Emission>>)
    requires frames != [] && BatchOk(Batch(frames, false))
    ensures BatchOk(Batch(frames[1..], false))
  {
    assert forall i :: 0 <= i < |frames[1..]| ==> frames[1..][i] == frames[i + 1];
  }

  lemma ReceiveKeeps(s: State, b: Batch)
    requires SlotsOk(s) && FilledOk(s) && BatchOk(b)
    ensures SlotsOk(Receive(s, b)) && FilledOk(Receive(s, b))
  {
    EmitFramesKeeps(s, b.frames);
    var filled := EmitFrames(s, b.frames);
    match s.decoder
    case Decoding =>
    case Finishing =>
      SameSlots(filled, filled.(decoder := Finished));
      EmitKeeps(filled.(decoder := Finished), EndOfStream);
    case Finished => EmitKeeps(s, EndOfStream);
  }

  lemma SendKeeps(s: State, a: Answers)
    requires SlotsOk(s) && FilledOk(s) && AnswersOk(a)
    ensures SlotsOk(Send(s, a)) && FilledOk(Send(s, a))
  {
    if a.packetAllocated {
      ReceiveKeeps(s, a.beforeRetry);
      ReceiveKeeps(if a.full && s.decoder.Decoding? then Receive(s, a.beforeRetry) else s, a.afterSend);
    }
  }

  /** Flags, formats and the decoder's standing do not touch the buffers. */
  lemma SameBuffers(s: State, s': State)
    requires SlotsOk(s) && FilledOk(s) && |s'.inputFree| == INPUT_BUFFERS
    requires s' == s.(inputFree := s'.inputFree, reported := s'.reported, isOpen := s'.isOpen,
                      draining := s'.draining, decoder := s'.decoder, unfed := s'.unfed)
    ensures StateOk(s')
  {
  }

  lemma ConsumeKeeps(s: State, size: nat, codecConfig: bool, a: Answers)
    requires StateOk(s) && AnswersOk(a)
    ensures var c := Consume(s, size, codecConfig, a); SlotsOk(c) && FilledOk(c)
  {
    if !s.draining && codecConfig && s.audio {
      SameBuffers(s, Consume(s, size, codecConfig, a));
    } else if !s.draining && !codecConfig && size > 0 {
      SendKeeps(s, a);
    }
  }

  lemma DrainKeeps(s: State, a: Answers)
    requires SlotsOk(s) && FilledOk(s) && AnswersOk(a)
    ensures SlotsOk(Drain(s, a)) && FilledOk(Drain(s, a))
  {
    SameBuffers(s, DrainPacket(s, a.drainTaken).(inputFree := [true, true, true, true]));
    ReceiveKeeps(DrainPacket(s, a.drainTaken), a.afterDrain);
  }

  lemma QueueInputKeeps(s: State, index: nat, fits: bool, size: nat, codecConfig: bool, endOfStream: bool, a: Answers)
    requires StateOk(s) && AnswersOk(a)
    ensures StateOk(QueueInput(s, index, fits, size, codecConfig, endOfStream, a))
  {
    if index < INPUT_BUFFERS && fits && s.isOpen {
      ConsumeKeeps(s, size, codecConfig, a);
      var consumed := Consume(s, size, codecConfig, a);
      DrainKeeps(consumed, a);
      var drained := if consumed.isOpen && endOfStream && !consumed.draining then Drain(consumed, a) else consumed;
      SameBuffers(drained, QueueInput(s, index, fits, size, codecConfig, endOfStream, a));
    }
  }

  /** The front slot passes to the client. */
  function Pop(s: State): State
    requires FrontOk(s) && s.ready != []
  {
    s.(ready := s.ready[1..], held := s.held[s.ready[0] := |s.delivered|],
       delivered := s.delivered + [s.outputs[s.ready[0]]])
  }

  lemma PopKeeps(s: State)
    requires SlotsOk(s) && s.ready != []
    ensures SlotsOk(Pop(s))
  {
    var s' := Pop(s);
    assert forall i :: 0 <= i < |s'.ready| ==> s'.ready[i] == s.ready[i + 1];
    assert s.ready[0] !in s'.ready;
    assert s.outputs[s.ready[0]] == s.filled[|s.delivered|];
    assert s'.delivered <= s'.filled;
  }

  lemma DequeueOutputKeeps(s: State)
    requires StateOk(s)
    ensures StateOk(DequeueOutput(s).0)
  {
    if s.ready != [] {
      var o := s.outputs[s.ready[0]];
      if VideoChanged(o, s.reported) || AudioChanged(o, s.reported) {
        SameBuffers(s, DequeueOutput(s).0);
      } else {
        PopKeeps(s);
      }
    }
  }

  /** Releasing a slot the client holds. */
  lemma ReleaseKeeps(s: State, slot: nat)
    requires StateOk(s) && slot in s.held
    ensures StateOk(Release(s, slot))
  {
    assert slot < |s.outputs| && slot !in s.ready;
  }

  lemma ResetKeeps(s: State)
    ensures StateOk(ResetBuffers(s))
  {
  }

  // ---------------------------------------------------------------- runs

  /** The calls of a client that releases only what it holds. */
  datatype Action =
    | Configure(succeeds: bool)
    | StartCodec
    | Flush
    | TakeInput
    | GiveInput(index: nat, fits: bool, size: nat, codecConfig: bool, endOfStream: bool, answers: Answers)
    | TakeOutput
    | GiveBack(slot: nat)

  /** Outputs can be taken at any time: that the front slot exists is part of what `RunKeeps`
      keeps. */
  ghost predicate Enabled(s: State, a: Action) {
    match a
    case GiveInput(_, _, _, _, _, answers) => |s.inputFree| == INPUT_BUFFERS && AnswersOk(answers)
    case GiveBack(slot) => slot in s.held
    case TakeOutput => FrontOk(s)
    case TakeInput => |s.inputFree| == INPUT_BUFFERS
    case _ => true
  }

  ghost function Apply(s: State, a: Action): State
    requires Enabled(s, a)
  {
    match a
    case Configure(succeeds) => s.(isOpen := succeeds, decoder := Decoding, unfed := true)
    case StartCodec => Start(s)
    case Flush => Flushed(s)
    case TakeInput => DequeueInput(s).0
    case GiveInput(index, fits, size, codecConfig, endOfStream, answers) =>
      QueueInput(s, index, fits, size, codecConfig, endOfStream, answers)
    case TakeOutput => DequeueOutput(s).0
    case GiveBack(slot) => Release(s, slot)
  }

  lemma StepKeeps(s: State, a: Action)
    requires StateOk(s) && Enabled(s, a)
    ensures StateOk(Apply(s, a))
  {
    match a
    case GiveInput(index, fits, size, codecConfig, endOfStream, answers) =>
      QueueInputKeeps(s, index, fits, size, codecConfig, endOfStream, answers);
    case TakeOutput => DequeueOutputKeeps(s);
    case GiveBack(slot) => ReleaseKeeps(s, slot);
    case Flush => ResetKeeps(s);
    case StartCodec => ResetKeeps(s);
    case Configure(_) => SameBuffers(s, Apply(s, a));
    case TakeInput => SameBuffers(s, Apply(s, a));
  }

  ghost predicate IsRun(s: State, acts: seq<Action>)
    decreases |acts|
  {
    acts == [] || (Enabled(s, acts[0]) && IsRun(Apply(s, acts[0]), acts[1..]))
  }

  ghost function After(s: State, acts: seq<Action>): State
    requires IsRun(s, acts)
    decreases |acts|
  {
    if acts == [] then s else After(Apply(s, acts[0]), acts[1..])
  }

  lemma {:induction false} RunKeeps(s: State, acts: seq<Action>)
    requires StateOk(s) && IsRun(s, acts)
    ensures StateOk(After(s, acts))
    decreases |acts|
  {
    if acts != [] {
      StepKeeps(s, acts[0]);
      RunKeeps(Apply(s, acts[0]), acts[1..]);
    }
  }

  // ---------------------------------------------------------------- what every run guarantees

  /** Ready slots are distinct, in use and apart from the client's; the buffers delivered
      since the last reset are those of the first emissions, in order. */
  lemma SlotsNeverShared(s: State, acts: seq<Action>)
    requires Initial(s) && IsRun(s, acts)
    ensures var e := After(s, acts);
            && Distinct(e.ready)
            && (forall i :: 0 <= i < |e.ready| ==>
                  e.ready[i] < |e.outputs| && e.outputs[e.ready[i]].inUse && e.ready[i] !in e.held)
            && (forall h :: h in e.held ==> h < |e.outputs| && e.outputs[h].inUse)
    ensures var e := After(s, acts);
            && |e.delivered| <= |e.emitted|
            && (forall i :: 0 <= i < |e.delivered| ==>
                  EmissionOk(e.emitted[i]) && e.delivered[i] == Render(e.emitted[i]))
  {
    RunKeeps(s, acts);
    var e := After(s, acts);
    assert forall i :: 0 <= i < |e.delivered| ==> e.delivered[i] == e.filled[i];
    forall i | 0 <= i < |e.ready|
      ensures e.outputs[e.ready[i]].inUse
    {
      assert e.filled[|e.delivered| + i].inUse;
    }
    forall h | h in e.held
      ensures e.outputs[h].inUse
    {
      assert e.filled[e.held[h]].inUse;
    }
  }

  // ---------------------------------------------------------------- the end of the stream

  ghost predicate NoEnd(es: seq<Emission>) {
    forall i :: 0 <= i < |es| ==> !es[i].EndOfStream?
  }

  /** The end of the stream is there, once and last. */
  ghost predicate EndsOnce(es: seq<Emission>) {
    es != [] && forall i :: 0 <= i < |es| ==> (es[i].EndOfStream? <==> i == |es| - 1)
  }

  /** Only buffers, queue and histories differ. */
  ghost predicate SameStanding(s: State, s': State) {
    s' == s.(outputs := s'.outputs, ready := s'.ready, filled := s'.filled, emitted := s'.emitted)
  }

  lemma {:induction false} FramesAddNoEnd(s: State, frames: seq<Option<Emission>>)
    requires BatchOk(Batch(frames, false)) && NoEnd(s.emitted)
    ensures SameStanding(s, EmitFrames(s, frames)) && NoEnd(EmitFrames(s, frames).emitted)
    decreases |frames|
  {
    if frames != [] {
      RestOk(frames);
      FramesAddNoEnd(if frames[0].Some? then Emit(s, frames[0].value) else s, frames[1..]);
    }
  }

  /** A decoder that is finishing and does not fail ends the stream; before, it does not. */
  lemma ReceiveEnds(s: State, b: Batch)
    requires BatchOk(b) && NoEnd(s.emitted) && !s.decoder.Finished?
    ensures var s' := Receive(s, b);
            && SameStanding(s, s'.(decoder := s.decoder))
            && (if s.decoder.Finishing? && !b.fails then s'.decoder.Finished? && EndsOnce(s'.emitted)
                else s'.decoder == s.decoder && NoEnd(s'.emitted))
  {
    FramesAddNoEnd(s, b.frames);
  }

  lemma SendAddsNoEnd(s: State, a: Answers)
    requires AnswersOk(a) && NoEnd(s.emitted) && s.decoder.Decoding?
    ensures SameStanding(s, Send(s, a)) && NoEnd(Send(s, a).emitted)
  {
    ReceiveEnds(s, a.beforeRetry);
    ReceiveEnds(if a.full then Receive(s, a.beforeRetry) else s, a.afterSend);
  }

  /** The call reaches the drain packet. */
  predicate Drains(s: State, index: nat, fits: bool, codecConfig: bool, endOfStream: bool, a: Answers) {
    && index < INPUT_BUFFERS && fits && s.isOpen && !s.draining && endOfStream
    && (codecConfig && s.audio ==> a.reopens)
  }

  lemma ConsumeAddsNoEnd(s: State, size: nat, codecConfig: bool, a: Answers)
    requires AnswersOk(a) && !s.draining && NoEnd(s.emitted) && s.decoder.Decoding?
    ensures var c := Consume(s, size, codecConfig, a);
            && NoEnd(c.emitted) && c.decoder.Decoding? && !c.draining && c.inputFree == s.inputFree
            && c.isOpen == (if codecConfig && s.audio then a.reopens else s.isOpen)
  {
    if !codecConfig && size > 0 {
      SendAddsNoEnd(s, a);
    }
  }

  /** A drain ends the stream, once and last, exactly when the decoder takes the drain packet
      and reaches its end without an error; no other input ends it. */
  lemma DrainCompletes(s: State, index: nat, fits: bool, size: nat, codecConfig: bool, endOfStream: bool, a: Answers)
    requires EndOk(s) && !s.draining && AnswersOk(a) && |s.inputFree| == INPUT_BUFFERS
    ensures var s' := QueueInput(s, index, fits, size, codecConfig, endOfStream, a);
            && EndOk(s')
            && (s'.draining <==> Drains(s, index, fits, codecConfig, endOfStream, a))
            && (if s'.draining && a.drainTaken && !a.afterDrain.fails then EndsOnce(s'.emitted) else NoEnd(s'.emitted))
  {
    if index < INPUT_BUFFERS && fits && s.isOpen {
      ConsumeAddsNoEnd(s, size, codecConfig, a);
      var consumed := Consume(s, size, codecConfig, a);
      if consumed.isOpen && endOfStream {
        ReceiveEnds(DrainPacket(consumed, a.drainTaken), a.afterDrain);
      }
    }
  }

  /** The client starts the codec only if no input reached the decoder since it was configured
      or flushed. */
  ghost predicate Orderly(s: State, acts: seq<Action>)
    requires IsRun(s, acts)
    decreases |acts|
  {
    acts == [] || ((acts[0].StartCodec? ==> s.unfed) && Orderly(Apply(s, acts[0]), acts[1..]))
  }

  /** Whenever this input drains the decoder, the decoder completes the drain. */
  predicate Completes(a: Action) {
    a.GiveInput? ==> a.answers.drainTaken && !a.answers.afterDrain.fails
  }

  lemma InputEnds(s: State, index: nat, fits: bool, size: nat, codecConfig: bool, endOfStream: bool, a: Answers)
    requires EndOk(s) && AnswersOk(a) && |s.inputFree| == INPUT_BUFFERS
    ensures var s' := QueueInput(s, index, fits, size, codecConfig, endOfStream, a);
            EndOk(s') && (a.drainTaken && !a.afterDrain.fails && Ended(s) ==> Ended(s'))
  {
    if !s.draining {
      DrainCompletes(s, index, fits, size, codecConfig, endOfStream, a);
    }
  }

  /** The other calls emit nothing. */
  lemma OtherCallEnds(s: State, a: Action)
    requires EndOk(s) && Enabled(s, a) && !a.GiveInput? && (a.StartCodec? ==> s.unfed)
    ensures EndOk(Apply(s, a)) && (Ended(s) ==> Ended(Apply(s, a)))
  {
  }

  lemma StepEnds(s: State, a: Action)
    requires EndOk(s) && Enabled(s, a) && (a.StartCodec? ==> s.unfed)
    ensures EndOk(Apply(s, a))
    ensures Completes(a) && Ended(s) ==> Ended(Apply(s, a))
  {
    if a.GiveInput? {
      InputEnds(s, a.index, a.fits, a.size, a.codecConfig, a.endOfStream, a.answers);
    } else {
      OtherCallEnds(s, a);
    }
  }

  lemma {:induction false} RunEnds(s: State, acts: seq<Action>)
    requires EndOk(s) && IsRun(s, acts) && Orderly(s, acts)
    ensures EndOk(After(s, acts))
    ensures Ended(s) && (forall i :: 0 <= i < |acts| ==> Completes(acts[i])) ==> Ended(After(s, acts))
    decreases |acts|
  {
    if acts != [] {
      StepEnds(s, acts[0]);
      RunEnds(Apply(s, acts[0]), acts[1..]);
    }
  }

  /** In every orderly run an end-of-stream buffer is emitted only while draining, and last, so
      once per drain at most; where the decoder completes its drains, a draining codec has
      emitted it. */
  lemma OneEndPerDrain(s: State, acts: seq<Action>)
    requires Initial(s) && IsRun(s, acts) && Orderly(s, acts)
    ensures var e := After(s, acts);
            if e.draining && (forall i :: 0 <= i < |acts| ==> Completes(acts[i])) then EndsOnce(e.emitted)
            else NoEnd(e.emitted) || (e.draining && EndsOnce(e.emitted))
  {
    RunEnds(s, acts);
  }

  /** Once draining, no call but a reset adds to the stream, in any run. */
  lemma {:induction false} NothingAfterEnd(s: State, acts: seq<Action>)
    requires s.draining && IsRun(s, acts)
    requires forall i :: 0 <= i < |acts| ==> !acts[i].Flush? && !acts[i].StartCodec?
    ensures After(s, acts).emitted == s.emitted && After(s, acts).draining
    decreases |acts|
  {
    if acts != [] {
      NothingAfterEnd(Apply(s, acts[0]), acts[1..]);
    }
  }

  /** Starting without a flush clears `draining` but leaves the decoder where it is: input
      then makes a codec that is not draining emit an end of stream exactly when the decoder
      had taken a drain packet and does not fail before its end. */
  lemma RestartEndsAgain(s: State, index: nat, size: nat, a: Answers)
    requires s.isOpen && |s.inputFree| == INPUT_BUFFERS && index < INPUT_BUFFERS && size > 0
    requires AnswersOk(a) && a.packetAllocated
    ensures var s' := QueueInput(Start(s), index, true, size, false, false, a);
            && !s'.draining
            && (NoEnd(s'.emitted) <==> s.decoder.Decoding? || (s.decoder.Finishing? && a.afterSend.fails))
  {
    var restarted := Start(s);
    if s.decoder.Decoding? {
      SendAddsNoEnd(restarted, a);
    } else if s.decoder.Finishing? {
      ReceiveEnds(restarted, a.afterSend);
      var emitted := Receive(restarted, a.afterSend).emitted;
      assert EndsOnce(emitted) ==> emitted[|emitted| - 1].EndOfStream?;
    } else {
      assert Receive(restarted, a.afterSend).emitted[0].EndOfStream?;
    }
  }

  /** A decoder that returns no frames and does as it is asked. */
  function Silent(): Answers {
    Answers(true, true, false, Batch([], false), Batch([], false), true, Batch([], false))
  }

  /** Draining, starting again without a flush and queuing one byte: a second end of stream,
      from a codec that is not draining. */
  lemma RestartWithoutFlush(s: State) returns (acts: seq<Action>)
    requires Initial(s)
    ensures IsRun(s, acts) && !Orderly(s, acts)
    ensures !After(s, acts).draining && After(s, acts).emitted == [EndOfStream]
  {
    var data := GiveInput(0, true, 1, false, false, Silent());
    var last := GiveInput(0, true, 0, false, true, Silent());
    var configured := Apply(s, Configure(true));
    var drained := Apply(configured, last);
    var restarted := Apply(drained, StartCodec);
    var fed := Apply(restarted, data);
    assert drained.decoder.Finished? && drained.isOpen && !drained.unfed;
    assert fed.emitted == [EndOfStream] && !fed.draining;
    acts := [Configure(true), last, StartCodec, data];
    assert acts[1..] == [last, StartCodec, data] && acts[1..][1..] == [StartCodec, data];
    assert acts[1..][1..][1..] == [data] && [data][1..] == [];
    assert IsRun(restarted, [data]) && After(restarted, [data]) == fed;
    assert IsRun(drained, [StartCodec, data]) && After(drained, [StartCodec, data]) == fed;
    assert !Orderly(drained, [StartCodec, data]);
    assert IsRun(configured, [last, StartCodec, data]) && After(configured, [last, StartCodec, data]) == fed;
  }

  // ---------------------------------------------------------------- the format a client is told

  datatype Format = Format(width: int, height: int, stride: int, sliceHeight: int)

  function OutputFormat(s: State): Format
    requires s.reported.width >= 0 && s.reported.height >= 0
  {
    Format(s.reported.width, s.reported.height, Even(s.reported.width), Even(s.reported.height))
  }

  /** From the first call to the last pixel: in any reachable state, a video buffer just
      dequeued holds the next emitted frame, and reading it with the stride and slice height
      of the output format gives exactly that frame's samples. */
  lemma DequeuedPictureIsRight(s: State, acts: seq<Action>, plane: nat, y: int, x: int)
    requires Initial(s) && IsRun(s, acts)
    requires DequeueOutput(AfterOk(s, acts)).1.Buffer?
    requires var e := AfterOk(s, acts); e.emitted[|e.delivered|].Video?
    requires var f := AfterOk(s, acts).emitted[|AfterOk(s, acts).delivered|].frame;
             FrameOk(f) && plane < 3 && 0 <= y < PlaneHeight(f, plane) && 0 <= x < PlaneWidth(f, plane)
    ensures var e := AfterOk(s, acts);
            var (e', r) := DequeueOutput(e);
            var f := e.emitted[|e.delivered|].frame;
            && e'.reported.width == f.width && e'.reported.height == f.height
            && var fmt := OutputFormat(e');
               var p := PlaneBase(fmt.stride, fmt.sliceHeight, plane) + y * PlaneStride(fmt.stride, plane) + x;
               && r.slot < |e'.outputs| && 0 <= p < |e'.outputs[r.slot].data|
               && e'.outputs[r.slot].data[p] == f.planes[plane][y][x]
  {
    var e := AfterOk(s, acts);
    var f := e.emitted[|e.delivered|].frame;
    assert e.outputs[e.ready[0]] == e.filled[|e.delivered|] == Render(e.emitted[|e.delivered|]);
    ClientSeesSample(f, plane, y, x);
  }

  ghost function AfterOk(s: State, acts: seq<Action>): (e: State)
    requires Initial(s) && IsRun(s, acts)
    ensures StateOk(e) && e == After(s, acts)
    ensures DequeueOutput(e).1.Buffer? ==> |e.delivered| < |e.emitted|
  {
    RunKeeps(s, acts);
    After(s, acts)
  }

  lemma HeldStep(s: State, a: Action, slot: nat)
    requires StateOk(s) && Enabled(s, a) && slot in s.held
    requires !a.Flush? && !a.StartCodec? && a != GiveBack(slot)
    ensures slot in Apply(s, a).held && slot < |s.outputs| && slot < |Apply(s, a).outputs|
    ensures Apply(s, a).outputs[slot] == s.outputs[slot]
  {
    StepKeeps(s, a);
    HeldStays(s, a, slot);
  }

  lemma {:induction false} HeldRun(s: State, acts: seq<Action>, slot: nat)
    requires StateOk(s) && IsRun(s, acts) && slot in s.held
    requires forall i :: 0 <= i < |acts| ==> !acts[i].Flush? && !acts[i].StartCodec? && acts[i] != GiveBack(slot)
    ensures slot in After(s, acts).held && slot < |s.outputs| && slot < |After(s, acts).outputs|
    ensures After(s, acts).outputs[slot] == s.outputs[slot]
    decreases |acts|
  {
    if acts != [] {
      HeldStep(s, acts[0], slot);
      StepKeeps(s, acts[0]);
      HeldRun(Apply(s, acts[0]), acts[1..], slot);
    }
  }

  /** What the client holds after any run stays in its slot through every further run in which
      it neither gives the slot back nor resets the codec. */
  lemma HeldBufferIsStable(s: State, before: seq<Action>, acts: seq<Action>, slot: nat)
    requires Initial(s) && IsRun(s, before) && slot in After(s, before).held
    requires IsRun(After(s, before), acts)
    requires forall i :: 0 <= i < |acts| ==> !acts[i].Flush? && !acts[i].StartCodec? && acts[i] != GiveBack(slot)
    ensures var e, e' := After(s, before), After(After(s, before), acts);
            && slot in e'.held && slot < |e.outputs| && slot < |e'.outputs|
            && e'.outputs[slot] == e.outputs[slot]
  {
    RunKeeps(s, before);
    HeldRun(After(s, before), acts, slot);
  }

  lemma HeldStays(s: State, a: Action, slot: nat)
    requires StateOk(s) && Enabled(s, a) && slot in s.held
    requires !a.Flush? && !a.StartCodec? && a != GiveBack(slot)
    ensures slot in Apply(s, a).held && Apply(s, a).held[slot] == s.held[slot]
    ensures s.filled <= Apply(s, a).filled
  {
    if a.GiveInput? {
      QueueKeepsHeld(s, a.index, a.fits, a.size, a.codecConfig, a.endOfStream, a.answers);
    } else {
      OtherCallKeepsHeld(s, a, slot);
    }
  }

  lemma OtherCallKeepsHeld(s: State, a: Action, slot: nat)
    requires (s.ready != [] ==> s.ready[0] !in s.held) && Enabled(s, a) && slot in s.held
    requires !a.GiveInput? && !a.Flush? && !a.StartCodec? && a != GiveBack(slot)
    ensures slot in Apply(s, a).held && Apply(s, a).held[slot] == s.held[slot]
    ensures Apply(s, a).filled == s.filled
  {
  }

  lemma {:induction false} EmitFramesGrows(s: State, frames: seq<Option<Emission>>)
    requires forall i :: 0 <= i < |frames| && frames[i].Some? ==> EmissionOk(frames[i].value)
    ensures s.filled <= EmitFrames(s, frames).filled && EmitFrames(s, frames).held == s.held
    decreases |frames|
  {
    if frames != [] {
      var next := if frames[0].Some? then Emit(s, frames[0].value) else s;
      assert s.filled <= next.filled;
      assert forall i :: 0 <= i < |frames[1..]| ==> frames[1..][i] == frames[i + 1];
      EmitFramesGrows(next, frames[1..]);
    }
  }

  lemma ReceiveGrows(s: State, b: Batch)
    requires BatchOk(b)
    ensures s.filled <= Receive(s, b).filled && Receive(s, b).held == s.held
  {
    EmitFramesGrows(s, b.frames);
  }

  lemma QueueKeepsHeld(s: State, index: nat, fits: bool, size: nat, codecConfig: bool, endOfStream: bool, a: Answers)
    requires AnswersOk(a) && |s.inputFree| == INPUT_BUFFERS
    ensures var s' := QueueInput(s, index, fits, size, codecConfig, endOfStream, a);
            s'.held == s.held && s.filled <= s'.filled
  {
    if index < INPUT_BUFFERS && fits && s.isOpen {
      ReceiveGrows(s, a.beforeRetry);
      ReceiveGrows(if a.full && s.decoder.Decoding? then Receive(s, a.beforeRetry) else s, a.afterSend);
      var consumed := Consume(s, size, codecConfig, a);
      assert consumed.held == s.held && s.filled <= consumed.filled;
      ReceiveGrows(DrainPacket(consumed, a.drainTaken), a.afterDrain);
    }
  }
}
