/**
 Searching `.text` for a masked code signature.  Instead of testing every offset, the search
 jumps between occurrences of the signature's longest unmasked run.
 */
module SignatureSearch {
  import opened Basics
  import opened Elf

  /** Instruction bytes; those whose mask is off vary between builds. */
  datatype Signature = Signature(encoded: seq<Byte>, mask: seq<bool>)

  datatype Text = Text(offset: nat, size: nat, address: int)

  datatype Image = Image(data: seq<Byte>, text: Text, segments: seq<Segment>)

  predicate WellFormed(sig: Signature) {
    |sig.encoded| == |sig.mask|
  }

  /** The text section lies inside the file. */
  predicate Parsed(image: Image) {
    image.text.offset + image.text.size <= |image.data|
  }

  // ---------------------------------------------------------------- the anchor

  /** Bytes a to b of the signature are all unmasked. */
  ghost predicate Fixed(mask: seq<bool>, a: int, b: int) {
    0 <= a <= b <= |mask| && forall i :: a <= i < b ==> mask[i]
  }

  /** Unmasked intervals that end by `limit` are shorter than `length`, or as long but no
      earlier than `offset`. */
  ghost predicate FirstLongest(mask: seq<bool>, limit: int, offset: int, length: int) {
    forall a, b :: a < b <= limit && Fixed(mask, a, b) ==> b - a < length || (b - a == length && offset <= a)
  }

  /** Some run of unmasked bytes is long enough to search by. */
  ghost predicate Selective(sig: Signature, minimumBytes: int) {
    exists a, b :: a < b && b - a >= minimumBytes && Fixed(sig.mask, a, b)
  }

  method LongestFixedAnchor(sig: Signature, minimumBytes: int) returns (r: Option<(nat, seq<Byte>)>)
    requires WellFormed(sig)
    ensures r.Some? ==>
              var (offset, length) := (r.value.0, |r.value.1|);
              && length >= 1 && length >= minimumBytes
              && Fixed(sig.mask, offset, offset + length)
              && FirstLongest(sig.mask, |sig.mask|, offset, length)
              && r.value.1 == sig.encoded[offset..offset + length]
    ensures r.Some? <==> Selective(sig, minimumBytes)
  {
    var mask := sig.mask;
    var bestOffset, bestLength := -1, 0;
    var start: Option<int> := None;
    for index := 0 to |mask| + 1
      invariant start.Some? ==>
                  && 0 <= start.value < index <= |mask| && Fixed(mask, start.value, index)
                  && (start.value > 0 ==> !mask[start.value - 1])
      invariant start.None? && 0 < index <= |mask| ==> !mask[index - 1]
      invariant bestOffset < 0 <==> bestLength == 0
      invariant bestLength >= 0
      invariant bestOffset >= 0 ==> Fixed(mask, bestOffset, bestOffset + bestLength)
      invariant bestOffset >= 0 && start.Some? ==> bestOffset < start.value
      invariant bestOffset >= 0 ==> bestOffset < index
      invariant FirstLongest(mask, if start.Some? then start.value else index, bestOffset, bestLength)
    {
      var enabled := index < |mask| && mask[index];
      if enabled && start.None? {
        start := Some(index);
      } else if !enabled && start.Some? {
        if index - start.value > bestLength {
          bestOffset, bestLength := start.value, index - start.value;
        }
        start := None;
      }
    }
    if bestOffset < 0 || bestLength < minimumBytes {
      return None;
    }
    return Some((bestOffset, sig.encoded[bestOffset..bestOffset + bestLength]));
  }

  // ---------------------------------------------------------------- the naive scan

  /** `needle` occurs at `position` and ends by `end`. */
  predicate OccursAt(data: seq<Byte>, needle: seq<Byte>, position: int, end: int) {
    0 <= position && position + |needle| <= end <= |data| && data[position..position + |needle|] == needle
  }

  /** `bytes.find`: the first occurrence from `from` on, or -1. */
  method Find(data: seq<Byte>, needle: seq<Byte>, from: nat, end: nat) returns (p: int)
    requires end <= |data|
    ensures p == -1 || (from <= p && OccursAt(data, needle, p, end))
    ensures forall q :: from <= q && (p == -1 || q < p) ==> !OccursAt(data, needle, q, end)
  {
    p := from;
    while p + |needle| <= end
      invariant from <= p
      invariant forall q :: from <= q < p ==> !OccursAt(data, needle, q, end)
    {
      if data[p..p + |needle|] == needle {
        return;
      }
      p := p + 1;
    }
    return -1;
  }

  /** The signature fits at file offset `s`: it lies in the text section, every unmasked byte
      agrees, and its address range is executable and not writable. */
  predicate Accepts(image: Image, sig: Signature, s: int)
    requires WellFormed(sig) && Parsed(image)
  {
    && image.text.offset <= s && s + |sig.encoded| <= image.text.offset + image.text.size
    && (forall i :: 0 <= i < |sig.encoded| ==> sig.mask[i] ==> image.data[s + i] == sig.encoded[i])
    && var segment := SegmentForRva(image.segments, image.text.address + s - image.text.offset, |sig.encoded|);
       segment.Some? && segment.value.Executable() && !segment.value.Writable()
  }

  /** An offset is accepted exactly when the bytes lie in the text section, agree wherever the
      mask is on, and lie in one segment alone that may be executed and not written. */
  lemma AcceptsExactly(image: Image, sig: Signature, s: int)
    requires WellFormed(sig) && Parsed(image)
    ensures var n, rva := |sig.encoded|, image.text.address + (s - image.text.offset);
            Accepts(image, sig, s) <==>
            && image.text.offset <= s && s + n <= image.text.offset + image.text.size
            && (forall i :: 0 <= i < n && sig.mask[i] ==> image.data[s + i] == sig.encoded[i])
            && exists k: nat :: OnlySegment(image.segments, rva, n, k)
                                && image.segments[k].flags % 2 == 1 && image.segments[k].flags / 2 % 2 == 0
  {
    var n, rva := |sig.encoded|, image.text.address + (s - image.text.offset);
    NoneContaining(image.segments, rva, n);
    if k: nat :| k < |image.segments| && image.segments[k].ContainsMemory(rva, n) {
      SegmentExactly(image.segments, rva, n, k);
    }
  }

  /** Testing every offset in turn. */
  function Naive(image: Image, sig: Signature, low: int, high: int): (found: seq<int>)
    requires WellFormed(sig) && Parsed(image)
    decreases high - low
  {
    if low >= high then []
    else
      var before := Naive(image, sig, low, high - 1);
      if Accepts(image, sig, high - 1) then before + [high - 1] else before
  }

  /** The scan lists, in ascending order without repeats, exactly the accepted offsets. */
  lemma {:induction false} NaiveIsExact(image: Image, sig: Signature, low: int, high: int)
    requires WellFormed(sig) && Parsed(image)
    ensures forall s :: s in Naive(image, sig, low, high) <==> low <= s < high && Accepts(image, sig, s)
    ensures forall i, j :: 0 <= i < j < |Naive(image, sig, low, high)| ==>
              Naive(image, sig, low, high)[i] < Naive(image, sig, low, high)[j]
    decreases high - low
  {
    if low < high {
      NaiveIsExact(image, sig, low, high - 1);
      var before := Naive(image, sig, low, high - 1);
      assert forall i :: 0 <= i < |before| ==> before[i] in before;
    }
  }

  lemma {:induction false} NaiveSkips(image: Image, sig: Signature, low: int, middle: int, high: int)
    requires WellFormed(sig) && Parsed(image) && middle <= high
    requires forall s :: middle <= s < high ==> s < low || !Accepts(image, sig, s)
    ensures Naive(image, sig, low, high) == Naive(image, sig, low, middle)
    decreases high - middle
  {
    if middle < high {
      NaiveSkips(image, sig, low, middle, high - 1);
      assert high - 1 < low || !Accepts(image, sig, high - 1);
    }
  }

  // ---------------------------------------------------------------- the anchored search

  ghost predicate IsAnchor(sig: Signature, offset: nat, anchor: seq<Byte>) {
    && anchor != [] && Fixed(sig.mask, offset, offset + |anchor|)
    && |sig.encoded| == |sig.mask| && anchor == sig.encoded[offset..offset + |anchor|]
  }

  lemma AcceptedHasAnchor(image: Image, sig: Signature, offset: nat, anchor: seq<Byte>, s: int)
    requires WellFormed(sig) && Parsed(image) && IsAnchor(sig, offset, anchor) && Accepts(image, sig, s)
    ensures OccursAt(image.data, anchor, s + offset, image.text.offset + image.text.size)
  {
    var found := image.data[s + offset..s + offset + |anchor|];
    forall k | 0 <= k < |anchor|
      ensures found[k] == anchor[k]
    {
      assert sig.mask[offset + k];
      assert image.data[s + (offset + k)] == sig.encoded[offset + k];
    }
  }

  /** Jumping from one occurrence of the anchor to the next finds what the naive scan of the
      whole section finds. */
  method SearchByAnchor(image: Image, sig: Signature, anchorOffset: nat, anchor: seq<Byte>)
    returns (matches: seq<int>)
    requires WellFormed(sig) && Parsed(image) && IsAnchor(sig, anchorOffset, anchor)
    ensures matches == Naive(image, sig, image.text.offset, image.text.offset + image.text.size)
  {
    var begin, end := image.text.offset, image.text.offset + image.text.size;
    matches := [];
    var searchOffset := begin;
    while true
      invariant begin <= searchOffset <= end + 1
      invariant matches == Naive(image, sig, begin, searchOffset - anchorOffset)
      decreases end + 1 - searchOffset
    {
      var position := Find(image.data, anchor, searchOffset, end);
      if position < 0 {
        break;
      }
      var s := position - anchorOffset;
      SkipTo(image, sig, anchorOffset, anchor, searchOffset, position, end);
      if begin <= s && s + |sig.encoded| <= end {
        var candidate := image.data[s..s + |sig.encoded|];
        if forall i | 0 <= i < |sig.encoded| :: !sig.mask[i] || candidate[i] == sig.encoded[i] {
          var segment := SegmentForRva(image.segments, image.text.address + s - image.text.offset, |sig.encoded|);
          if segment.Some? && segment.value.Executable() && !segment.value.Writable() {
            matches := matches + [s];
          }
        }
      }
      searchOffset := position + 1;
    }
    SkipTo(image, sig, anchorOffset, anchor, searchOffset, end + anchorOffset + 1, end);
    NaiveSkips(image, sig, begin, end, end + 1);
  }

  /** No offset whose anchor would start in [searchOffset, position) is accepted. */
  lemma SkipTo(image: Image, sig: Signature, anchorOffset: nat, anchor: seq<Byte>, searchOffset: int, position: int,
               end: nat)
    requires WellFormed(sig) && Parsed(image) && IsAnchor(sig, anchorOffset, anchor)
    requires searchOffset <= position && end == image.text.offset + image.text.size
    requires forall q :: searchOffset <= q < position ==> !OccursAt(image.data, anchor, q, end)
    ensures Naive(image, sig, image.text.offset, position - anchorOffset) ==
            Naive(image, sig, image.text.offset, searchOffset - anchorOffset)
  {
    forall s | searchOffset - anchorOffset <= s < position - anchorOffset
      ensures !Accepts(image, sig, s)
    {
      if Accepts(image, sig, s) {
        AcceptedHasAnchor(image, sig, anchorOffset, anchor, s);
      }
    }
    NaiveSkips(image, sig, image.text.offset, searchOffset - anchorOffset, position - anchorOffset);
  }

  /** The search part of `find_signature_matches`: refused without a selective anchor, without
      a match, or with several where one is wanted. */
  method FindSignature(image: Image, sig: Signature, minimumAnchorBytes: int, allowMultiple: bool)
    returns (r: Option<seq<int>>)
    requires WellFormed(sig) && Parsed(image)
    ensures var all := Naive(image, sig, image.text.offset, image.text.offset + image.text.size);
            r == if Selective(sig, minimumAnchorBytes) && all != [] && (allowMultiple || |all| == 1)
                 then Some(all) else None
  {
    var anchor := LongestFixedAnchor(sig, minimumAnchorBytes);
    if anchor.None? {
      return None;
    }
    var matches := SearchByAnchor(image, sig, anchor.value.0, anchor.value.1);
    if matches == [] || (!allowMultiple && |matches| != 1) {
      return None;
    }
    return Some(matches);
  }
}
