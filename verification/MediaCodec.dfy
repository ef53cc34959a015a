/** The codec object: the buffer protocol performed in place. */
module MediaCodec {
  import opened Basics
  import opened Pixels
  import opened Codec

  class AMediaCodec {
    const audio: bool
    const inputFree: array<bool>
    var isOpen: bool
    var draining: bool
    var decoder: Decoder
    var outputs: seq<Output>
    var ready: seq<nat>
    var reported: Reported
    ghost var emitted: seq<Emission>
    ghost var filled: seq<Output>
    ghost var delivered: seq<Output>
    ghost var held: map<nat, nat>
    ghost var unfed: bool

    ghost predicate Valid()
      reads this
    {
      inputFree.Length == INPUT_BUFFERS
    }

    ghost function View(): State
      reads this, inputFree
    {
      State(audio, isOpen, draining, decoder, unfed, inputFree[..], outputs, ready, reported, emitted, filled, delivered, held)
    }

    constructor (audio: bool)
      ensures Valid() && Initial(View()) && fresh(inputFree) && this.audio == audio
    {
      this.audio := audio;
      inputFree := new bool[INPUT_BUFFERS](_ => false);
      isOpen, draining, decoder, unfed := false, false, Decoding, false;
      outputs, ready := [], [];
      reported := Reported(0, 0, 0, 0);
      emitted, filled, delivered, held := [], [], [], map[];
    }

    /** Marks the first free slot as used, growing the list when there is none. */
    method TakeOutputSlot() returns (slot: nat)
      modifies `outputs
      ensures slot == FirstFree(old(outputs), 0) && slot < |outputs|
      ensures forall o: Output :: outputs[slot := o] == Put(old(outputs), slot, o)
    {
      for i := 0 to |outputs|
        invariant outputs == old(outputs) && FirstFree(outputs, 0) == FirstFree(outputs, i)
      {
        if !outputs[i].inUse {
          outputs := outputs[i := outputs[i].(inUse := true)];
          return i;
        }
      }
      outputs := outputs + [Output([], 0, 0, 0, 0, 0, 0, true)];
      return |outputs| - 1;
    }

    /** Fills a slot with a decoded picture, sound or the end of the stream. */
    method EmitOutput(e: Emission)
      requires EmissionOk(e)
      modifies `outputs, `ready, `filled, `emitted
      ensures View() == Emit(old(View()), e)
    {
      var slot := TakeOutputSlot();
      var o: Output;
      match e {
        case Video(f) =>
          var data := FillI420(f);
          o := Output(data[..], f.pts, 0, f.width, f.height, 0, 0, true);
        case Audio(pcm, rate, channels, pts) =>
          o := Output(pcm, pts, 0, 0, 0, rate, channels, true);
        case EndOfStream =>
          o := Output([], 0, FLAG_END_OF_STREAM, 0, 0, 0, 0, true);
      }
      assert o == Render(e);
      outputs := outputs[slot := o];
      ready := ready + [slot];
      filled, emitted := filled + [o], emitted + [e];
    }

    method ReceiveFrames(b: Batch)
      requires BatchOk(b)
      modifies `outputs, `ready, `filled, `emitted, `decoder
      ensures View() == Receive(old(View()), b)
    {
      if decoder.Finished? {
        EmitOutput(EndOfStream);
        return;
      }
      ghost var goal := EmitFrames(View(), b.frames);
      for i := 0 to |b.frames|
        invariant decoder == old(decoder) && EmitFrames(View(), b.frames[i..]) == goal
      {
        assert b.frames[i..][0] == b.frames[i] && b.frames[i..][1..] == b.frames[i + 1..];
        if b.frames[i].Some? {
          EmitOutput(b.frames[i].value);
        }
      }
      if decoder.Finishing? && !b.fails {
        decoder := Finished;
        EmitOutput(EndOfStream);
      }
    }

    method SendPacket(a: Answers)
      requires AnswersOk(a)
      modifies `outputs, `ready, `filled, `emitted, `decoder
      ensures View() == Send(old(View()), a)
    {
      if !a.packetAllocated {
        return;
      }
      if a.full && decoder.Decoding? {
        ReceiveFrames(a.beforeRetry);
      }
      ReceiveFrames(a.afterSend);
    }

    /** What a queued buffer's bytes do before any end-of-stream flag is looked at. */
    method ConsumeInput(size: nat, codecConfig: bool, a: Answers)
      requires AnswersOk(a)
      modifies `outputs, `ready, `filled, `emitted, `decoder, `isOpen
      ensures View() == Consume(old(View()), size, codecConfig, a)
    {
      if draining {
      } else if codecConfig && audio {
        isOpen, decoder := a.reopens, Decoding;
      } else if codecConfig {
      } else if size > 0 {
        SendPacket(a);
      }
    }

    method DrainDecoder(a: Answers)
      requires AnswersOk(a)
      modifies `outputs, `ready, `filled, `emitted, `decoder, `draining
      ensures View() == Drain(old(View()), a)
    {
      draining := true;
      if a.drainTaken && decoder.Decoding? {
        decoder := Finishing;
      }
      ReceiveFrames(a.afterDrain);
    }

    method QueueInputBuffer(index: nat, fits: bool, size: nat, codecConfig: bool, endOfStream: bool, a: Answers)
      returns (ok: bool)
      requires Valid() && AnswersOk(a)
      modifies this, inputFree
      ensures Valid()
      ensures View() == QueueInput(old(View()), index, fits, size, codecConfig, endOfStream, a)
      ensures ok <==> index < INPUT_BUFFERS && fits && old(isOpen) && isOpen
    {
      if index >= INPUT_BUFFERS || !fits {
        return false;
      }
      if !isOpen {
        inputFree[index] := true;
        return false;
      }
      ConsumeInput(size, codecConfig, a);
      if isOpen && endOfStream && !draining {
        DrainDecoder(a);
      }
      inputFree[index] := true;
      unfed := false;
      return isOpen;
    }

    method DequeueInputBuffer() returns (index: Option<nat>)
      requires Valid()
      modifies inputFree
      ensures Valid() && (View(), index) == DequeueInput(old(View()))
    {
      if draining || |ready| >= MAX_READY_OUTPUTS {
        return None;
      }
      for i := 0 to INPUT_BUFFERS
        invariant forall k :: 0 <= k < i ==> !inputFree[k]
        invariant inputFree[..] == old(inputFree[..])
      {
        if inputFree[i] {
          inputFree[i] := false;
          return Some(i);
        }
      }
      return None;
    }

    method DequeueOutputBuffer() returns (r: Dequeued)
      requires FrontOk(View())
      modifies `ready, `reported, `held, `delivered
      ensures (View(), r) == DequeueOutput(old(View()))
    {
      if ready == [] {
        return TryAgain;
      }
      var slot := ready[0];
      var o := outputs[slot];
      if o.width != 0 && (o.width != reported.width || o.height != reported.height) {
        reported := reported.(width := o.width, height := o.height);
        return FormatChanged;
      }
      if o.channels != 0 && (o.sampleRate != reported.sampleRate || o.channels != reported.channels) {
        reported := reported.(sampleRate := o.sampleRate, channels := o.channels);
        return FormatChanged;
      }
      held := held[slot := |delivered|];
      ready := ready[1..];
      delivered := delivered + [o];
      return Buffer(slot);
    }

    method ReleaseOutputBuffer(index: nat)
      modifies `outputs, `held
      ensures View() == Release(old(View()), index)
    {
      if index < |outputs| {
        outputs := outputs[index := outputs[index].(inUse := false)];
        held := held - {index};
      }
    }

    method ResetAll()
      requires Valid()
      modifies this, inputFree
      ensures Valid() && View() == ResetBuffers(old(View()))
    {
      for i := 0 to INPUT_BUFFERS
        invariant forall k :: 0 <= k < i ==> inputFree[k]
        modifies inputFree
      {
        inputFree[i] := true;
      }
      for i := 0 to |outputs|
        invariant |outputs| == |old(outputs)|
        invariant forall k :: 0 <= k < |outputs| ==>
                    outputs[k] == if k < i then old(outputs)[k].(inUse := false) else old(outputs)[k]
        modifies `outputs
      {
        outputs := outputs[i := outputs[i].(inUse := false)];
      }
      ready, draining := [], false;
      emitted, filled, delivered, held := [], [], [], map[];
      assert inputFree[..] == [true, true, true, true];
      assert outputs == AllFree(old(outputs));
    }

    method FlushCodec()
      requires Valid()
      modifies this, inputFree
      ensures Valid() && View() == Flushed(old(View()))
    {
      if isOpen {
        decoder := Decoding;
      }
      ResetAll();
      unfed := true;
    }

    method StartCodec() returns (ok: bool)
      requires Valid()
      modifies this, inputFree
      ensures Valid() && ok == old(isOpen) && View() == Start(old(View()))
    {
      if !isOpen {
        return false;
      }
      ResetAll();
      reported := Reported(0, 0, 0, 0);
      return true;
    }
  }
}
