/** The parts of an ELF image the deriver consults: load segments and their permissions. */
module Elf {
  import opened Basics

  datatype Segment = Segment(virtualAddress: int, fileSize: int, memorySize: int, flags: nat) {
    predicate ContainsMemory(rva: int, size: int) {
      size >= 0 && virtualAddress <= rva && rva + size <= virtualAddress + memorySize
    }

    predicate ContainsFileData(rva: int, size: int) {
      size >= 0 && virtualAddress <= rva && rva + size <= virtualAddress + fileSize
    }

    // PF_EXECUTE, PF_WRITE and PF_READ are bits 0, 1 and 2.
    predicate Executable() { flags % 2 == 1 }

    predicate Writable() { flags / 2 % 2 == 1 }

    predicate Readable() { flags / 4 % 2 == 1 }
  }

  function Containing(segments: seq<Segment>, rva: int, size: int): (found: seq<Segment>) {
    if segments == [] then []
    else
      var rest := Containing(segments[1..], rva, size);
      if segments[0].ContainsMemory(rva, size) then [segments[0]] + rest else rest
  }

  /** The one segment holding the bytes, if exactly one does. */
  function SegmentForRva(segments: seq<Segment>, rva: int, size: int): Option<Segment> {
    var found := Containing(segments, rva, size);
    if |found| == 1 then Some(found[0]) else None
  }

  /** `k` is the only segment that holds the bytes. */
  ghost predicate OnlySegment(segments: seq<Segment>, rva: int, size: int, k: nat) {
    && size >= 0 && k < |segments| && Spans(segments[k], rva, size)
    && forall j :: 0 <= j < |segments| && Spans(segments[j], rva, size) ==> j == k
  }

  /** The bytes lie in the segment's memory. */
  predicate Spans(s: Segment, rva: int, size: int) {
    s.virtualAddress <= rva && rva + size <= s.virtualAddress + s.memorySize
  }

  lemma {:induction false} NoneContaining(segments: seq<Segment>, rva: int, size: int)
    ensures Containing(segments, rva, size) == [] <==>
            forall j :: 0 <= j < |segments| ==> !segments[j].ContainsMemory(rva, size)
  {
    if segments != [] {
      NoneContaining(segments[1..], rva, size);
      assert forall j :: 0 < j < |segments| ==> segments[j] == segments[1..][j - 1];
      assert (forall j :: 0 <= j < |segments| - 1 ==> !segments[1..][j].ContainsMemory(rva, size)) <==>
             forall j :: 0 < j < |segments| ==> !segments[j].ContainsMemory(rva, size);
    }
  }

  /** A segment is returned exactly when it is the only one that holds the bytes. */
  lemma {:induction false} SegmentExactly(segments: seq<Segment>, rva: int, size: int, k: nat)
    requires k < |segments| && segments[k].ContainsMemory(rva, size)
    ensures SegmentForRva(segments, rva, size).Some? <==> OnlySegment(segments, rva, size, k)
    ensures OnlySegment(segments, rva, size, k) ==> SegmentForRva(segments, rva, size) == Some(segments[k])
    decreases |segments|
  {
    var rest := segments[1..];
    NoneContaining(rest, rva, size);
    assert forall j :: 0 < j < |segments| ==> segments[j] == rest[j - 1];
    assert forall j :: 0 <= j < |rest| ==> rest[j] == segments[j + 1];
    if k > 0 {
      SegmentExactly(rest, rva, size, k - 1);
      assert OnlySegment(segments, rva, size, k) <==>
             OnlySegment(rest, rva, size, k - 1) && !segments[0].ContainsMemory(rva, size);
    }
  }

  /** The low three flag bits of a code segment are execute and read, without write. */
  lemma CodeFlags(s: Segment)
    ensures s.Readable() && s.Executable() && !s.Writable() <==> s.flags % 8 == 5
  {
    var high, low := s.flags / 8, s.flags % 8;
    assert s.flags == 8 * high + low;
    assert s.flags / 2 == 4 * high + low / 2 && s.flags / 4 == 2 * high + low / 4;
    assert low in {0, 1, 2, 3, 4, 5, 6, 7};
  }

  /** An address is code exactly when one segment alone spans it, is readable, executable and
      not writable, and holds it in its file data. */
  lemma CodeExactly(segments: seq<Segment>, rva: int)
    ensures IsCode(segments, rva) <==>
            exists k: nat :: && OnlySegment(segments, rva, 1, k) && segments[k].flags % 8 == 5
                             && rva < segments[k].virtualAddress + segments[k].fileSize
  {
    NoneContaining(segments, rva, 1);
    if k: nat :| k < |segments| && segments[k].ContainsMemory(rva, 1) {
      SegmentExactly(segments, rva, 1, k);
      CodeFlags(segments[k]);
    }
  }

  /** The address lies in a readable, executable, unwritable segment's file data. */
  predicate IsCode(segments: seq<Segment>, rva: int) {
    var s := SegmentForRva(segments, rva, 1);
    && s.Some? && s.value.Readable() && s.value.Executable() && !s.value.Writable()
    && s.value.ContainsFileData(rva, 1)
  }
}
