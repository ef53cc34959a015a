/** Resolving `.init_array` from the decoded relocations. */
module InitArray {
  import opened Basics
  import opened Aps2
  import opened Elf

  const RELATIVE := 8
  const TWO_32 := 0x1_0000_0000

  datatype Section = Section(address: int, size: nat)

  predicate Hits(s: Section, r: Relocation) {
    s.address <= r.offset < s.address + s.size
  }

  /** The relocations that patch the array, in stream order. */
  function HitsOf(s: Section, rs: seq<Relocation>): (hits: seq<Relocation>)
    ensures forall h :: h in hits <==> h in rs && Hits(s, h)
  {
    if rs == [] then []
    else
      var before := HitsOf(s, rs[..|rs| - 1]);
      if Hits(s, rs[|rs| - 1]) then before + [rs[|rs| - 1]] else before
  }

  predicate Relative(r: Relocation) {
    r.info % TWO_32 == RELATIVE && r.info / TWO_32 == 0
  }

  predicate Acceptable(segments: seq<Segment>, r: Relocation) {
    r.offset % 8 == 0 && Relative(r) && IsCode(segments, r.addend)
  }

  function Slot(s: Section, r: Relocation): int {
    (r.offset - s.address) / 8
  }

  /** Each relocation that hits the array is a relative one to code at an aligned offset, and
      no two hit one slot. */
  ghost predicate Consistent(s: Section, segments: seq<Segment>, hits: seq<Relocation>) {
    && (forall i :: 0 <= i < |hits| ==> Acceptable(segments, hits[i]))
    && (forall i, j :: 0 <= i < j < |hits| ==> Slot(s, hits[i]) != Slot(s, hits[j]))
  }

  ghost predicate Covered(s: Section, hits: seq<Relocation>, slot: int) {
    exists i :: 0 <= i < |hits| && Slot(s, hits[i]) == slot
  }

  /** The array's relocations are consistent and hit its slots, all of them and no others. */
  ghost predicate Resolvable(s: Section, segments: seq<Segment>, hits: seq<Relocation>) {
    && Consistent(s, segments, hits)
    && (forall slot :: 0 <= slot < s.size / 8 <==> Covered(s, hits, slot))
  }

  /** Each entry is the addend of the relocation that hits its slot. */
  ghost predicate HoldsAddends(s: Section, hits: seq<Relocation>, entries: seq<int>) {
    && |entries| == s.size / 8
    && (forall i :: 0 <= i < |hits| ==>
          0 <= Slot(s, hits[i]) < |entries| && entries[Slot(s, hits[i])] == hits[i].addend)
  }

  method InitArrayRelocations(s: Section, segments: seq<Segment>, relocations: seq<Relocation>)
    returns (r: Option<seq<int>>)
    ensures r.Some? <==> Resolvable(s, segments, HitsOf(s, relocations))
    ensures r.Some? ==> HoldsAddends(s, HitsOf(s, relocations), r.value)
  {
    var collected := Collect(s, segments, relocations);
    if collected.None? {
      return None;
    }
    var selected, count := collected.value, s.size / 8;
    ghost var hits := HitsOf(s, relocations);
    if !(forall k | k in selected.Keys :: 0 <= k < count) {
      var k :| k in selected.Keys && !(0 <= k < count);
      assert Covered(s, hits, k);
      return None;
    }
    if !(forall k | 0 <= k < count :: k in selected.Keys) {
      var k :| 0 <= k < count && k !in selected.Keys;
      assert !Covered(s, hits, k);
      return None;
    }
    return Some(seq(count, i requires 0 <= i < count => assert i in selected.Keys; selected[i]));
  }

  /** The dictionary after the relocations `hits`. */
  ghost predicate Selects(s: Section, hits: seq<Relocation>, selected: map<int, int>) {
    && (forall i :: 0 <= i < |hits| ==> Slot(s, hits[i]) in selected && selected[Slot(s, hits[i])] == hits[i].addend)
    && (forall k :: k in selected <==> Covered(s, hits, k))
  }

  method Collect(s: Section, segments: seq<Segment>, relocations: seq<Relocation>)
    returns (r: Option<map<int, int>>)
    ensures r.Some? <==> Consistent(s, segments, HitsOf(s, relocations))
    ensures r.Some? ==> Selects(s, HitsOf(s, relocations), r.value)
  {
    var selected: map<int, int> := map[];
    for n := 0 to |relocations|
      invariant Consistent(s, segments, HitsOf(s, relocations[..n]))
      invariant Selects(s, HitsOf(s, relocations[..n]), selected)
    {
      var relocation := relocations[n];
      ghost var before, after := HitsOf(s, relocations[..n]), HitsOf(s, relocations[..n + 1]);
      assert relocations[..n + 1][..n] == relocations[..n];
      if !Hits(s, relocation) {
        continue;
      }
      assert after == before + [relocation];
      var index := Slot(s, relocation);
      if relocation.offset % 8 != 0 || relocation.info % TWO_32 != RELATIVE || relocation.info / TWO_32 != 0
         || index in selected || !IsCode(segments, relocation.addend) {
        assert after[|before|] == relocation;
        if index in selected {
          assert Covered(s, before, index);
          ghost var i :| 0 <= i < |before| && Slot(s, before[i]) == index;
          assert Slot(s, after[i]) == Slot(s, after[|before|]);
        }
        InconsistentPrefix(s, segments, relocations, n + 1);
        return None;
      }
      OneMore(s, before, relocation, selected);
      selected := selected[index := relocation.addend];
    }
    assert relocations[..|relocations|] == relocations;
    return Some(selected);
  }

  lemma OneMore(s: Section, hits: seq<Relocation>, r: Relocation, selected: map<int, int>)
    requires Selects(s, hits, selected) && Slot(s, r) !in selected
    ensures Selects(s, hits + [r], selected[Slot(s, r) := r.addend])
  {
    var more := hits + [r];
    assert more[|hits|] == r;
    forall k
      ensures Covered(s, more, k) <==> Covered(s, hits, k) || k == Slot(s, r)
    {
      if Covered(s, hits, k) {
        var i :| 0 <= i < |hits| && Slot(s, hits[i]) == k;
        assert Slot(s, more[i]) == k;
      }
    }
    forall i | 0 <= i < |hits|
      ensures Slot(s, hits[i]) != Slot(s, r)
    {
      assert Covered(s, hits, Slot(s, hits[i]));
    }
  }

  lemma InconsistentPrefix(s: Section, segments: seq<Segment>, rs: seq<Relocation>, n: nat)
    requires n <= |rs| && !Consistent(s, segments, HitsOf(s, rs[..n]))
    ensures !Consistent(s, segments, HitsOf(s, rs))
  {
    HitsGrow(s, rs, n);
  }

  lemma {:induction false} HitsGrow(s: Section, rs: seq<Relocation>, n: nat)
    requires n <= |rs|
    ensures HitsOf(s, rs[..n]) <= HitsOf(s, rs)
    decreases |rs| - n
  {
    if n < |rs| {
      HitsGrow(s, rs, n + 1);
      assert rs[..n + 1][..n] == rs[..n];
    } else {
      assert rs[..n] == rs;
    }
  }

  // ---------------------------------------------------------------- order does not matter

  lemma {:induction false} TwoPlaces<T>(s: seq<T>, x: T) returns (i: nat, j: nat)
    requires multiset(s)[x] >= 2
    ensures i < j < |s| && s[i] == x && s[j] == x
  {
    var n := |s| - 1;
    assert s == s[..n] + [s[n]];
    if s[n] == x {
      assert x in s[..n];
      i :| i < n && s[..n][i] == x;
      j := n;
    } else {
      i, j := TwoPlaces(s[..n], x);
    }
  }

  lemma {:induction false} Multiplicity<T>(s: seq<T>, i: nat, j: nat)
    requires i < j < |s| && s[i] == s[j]
    ensures multiset(s)[s[i]] >= 2
  {
    assert s == s[..j] + [s[j]] + s[j + 1..];
    assert s[..j][i] == s[i];
    assert s[i] in multiset(s[..j]);
  }

  lemma ConsistentPermutes(s: Section, segments: seq<Segment>, a: seq<Relocation>, b: seq<Relocation>)
    requires multiset(a) == multiset(b) && Consistent(s, segments, a)
    ensures Consistent(s, segments, b)
  {
    forall i | 0 <= i < |b|
      ensures Acceptable(segments, b[i])
    {
      assert b[i] in multiset(a);
    }
    forall i, j | 0 <= i < j < |b|
      ensures Slot(s, b[i]) != Slot(s, b[j])
    {
      assert b[i] in multiset(a) && b[j] in multiset(a);
      if b[i] == b[j] {
        Multiplicity(b, i, j);
        var k, l := TwoPlaces(a, b[i]);
      } else {
        var k :| 0 <= k < |a| && a[k] == b[i];
        var l :| 0 <= l < |a| && a[l] == b[j];
        assert Slot(s, a[k]) != Slot(s, a[l]) || k == l;
      }
    }
  }

  lemma CoveredPermutes(s: Section, a: seq<Relocation>, b: seq<Relocation>, slot: int)
    requires multiset(a) == multiset(b) && Covered(s, a, slot)
    ensures Covered(s, b, slot)
  {
    var i :| 0 <= i < |a| && Slot(s, a[i]) == slot;
    assert a[i] in multiset(b);
    var j :| 0 <= j < |b| && b[j] == a[i];
  }

  /** The resolved array depends only on which relocations hit it: neither their order nor
      the relocations elsewhere matter. */
  lemma OrderIrrelevant(s: Section, segments: seq<Segment>, a: seq<Relocation>, b: seq<Relocation>,
                        entries: seq<int>, entries': seq<int>)
    requires multiset(HitsOf(s, a)) == multiset(HitsOf(s, b))
    ensures Resolvable(s, segments, HitsOf(s, a)) <==> Resolvable(s, segments, HitsOf(s, b))
    ensures Resolvable(s, segments, HitsOf(s, a))
            && HoldsAddends(s, HitsOf(s, a), entries) && HoldsAddends(s, HitsOf(s, b), entries')
            ==> entries == entries'
  {
    var x, y := HitsOf(s, a), HitsOf(s, b);
    if Resolvable(s, segments, x) || Resolvable(s, segments, y) {
      if Consistent(s, segments, x) {
        ConsistentPermutes(s, segments, x, y);
      } else {
        ConsistentPermutes(s, segments, y, x);
      }
      forall slot
        ensures Covered(s, x, slot) <==> Covered(s, y, slot)
      {
        if Covered(s, x, slot) {
          CoveredPermutes(s, x, y, slot);
        }
        if Covered(s, y, slot) {
          CoveredPermutes(s, y, x, slot);
        }
      }
    }
    if Resolvable(s, segments, x) && HoldsAddends(s, x, entries) && HoldsAddends(s, y, entries') {
      forall k | 0 <= k < |entries|
        ensures entries[k] == entries'[k]
      {
        assert Covered(s, x, k);
        var i :| 0 <= i < |x| && Slot(s, x[i]) == k;
        assert x[i] in multiset(y);
        var j :| 0 <= j < |y| && y[j] == x[i];
      }
    }
  }

  /** A relative relocation is type 8 without a symbol. */
  lemma RelativeExactly(r: Relocation)
    requires Fits(r)
    ensures Relative(r) <==> r.info == 8
  {
  }

  /** The hits are the relocations inside the array, with their multiplicities. */
  lemma {:induction false} HitsExactly(s: Section, rs: seq<Relocation>, r: Relocation)
    ensures multiset(HitsOf(s, rs))[r] ==
            if s.address <= r.offset < s.address + s.size then multiset(rs)[r] else 0
  {
    if rs != [] {
      var n := |rs| - 1;
      assert rs == rs[..n] + [rs[n]];
      HitsExactly(s, rs[..n], r);
    }
  }

  /** Exactly one of the hits patches the 8 bytes at `address`. */
  ghost predicate PatchedOnce(hits: seq<Relocation>, address: int) {
    && (exists i :: 0 <= i < |hits| && hits[i].offset == address)
    && (forall i, j :: 0 <= i < j < |hits| && hits[i].offset == address ==> hits[j].offset != address)
  }

  /** The hits are aligned relative relocations to code, one for each of the array's slots. */
  ghost predicate PatchesArray(s: Section, segments: seq<Segment>, hits: seq<Relocation>) {
    && (forall i :: 0 <= i < |hits| ==>
          && hits[i].offset % 8 == 0 && Relative(hits[i]) && IsCode(segments, hits[i].addend)
          && hits[i].offset < s.address + s.size / 8 * 8)
    && (forall slot :: 0 <= slot < s.size / 8 ==> PatchedOnce(hits, s.address + 8 * slot))
  }

  lemma SlotOfAddress(s: Section, r: Relocation)
    requires s.address % 8 == 0 && r.offset % 8 == 0
    ensures r.offset == s.address + 8 * Slot(s, r)
  {
  }

  lemma AddressOfSlot(s: Section, r: Relocation, k: int)
    requires r.offset == s.address + 8 * k
    ensures Slot(s, r) == k
  {
  }

  /** An 8-aligned array is resolvable exactly when its hits patch its slots, each once. */
  lemma ResolvableExactly(s: Section, segments: seq<Segment>, hits: seq<Relocation>)
    requires s.address % 8 == 0 && forall i :: 0 <= i < |hits| ==> Hits(s, hits[i])
    ensures Resolvable(s, segments, hits) <==> PatchesArray(s, segments, hits)
  {
    if forall i :: 0 <= i < |hits| ==> Acceptable(segments, hits[i]) {
      forall i | 0 <= i < |hits|
        ensures hits[i].offset == s.address + 8 * Slot(s, hits[i])
      {
        assert Acceptable(segments, hits[i]);
        SlotOfAddress(s, hits[i]);
      }
      if Resolvable(s, segments, hits) {
        ResolvablePatches(s, segments, hits);
      }
      if PatchesArray(s, segments, hits) {
        PatchedResolves(s, segments, hits);
      }
    }
  }

  lemma ResolvablePatches(s: Section, segments: seq<Segment>, hits: seq<Relocation>)
    requires Resolvable(s, segments, hits)
    requires forall i :: 0 <= i < |hits| ==> hits[i].offset == s.address + 8 * Slot(s, hits[i])
    ensures PatchesArray(s, segments, hits)
  {
    forall i | 0 <= i < |hits|
      ensures Acceptable(segments, hits[i]) && hits[i].offset < s.address + s.size / 8 * 8
    {
      assert Covered(s, hits, Slot(s, hits[i]));
    }
    forall slot | 0 <= slot < s.size / 8
      ensures PatchedOnce(hits, s.address + 8 * slot)
    {
      assert Covered(s, hits, slot);
    }
  }

  /** Hit `i` is the only one of its slot, which is one of the array's. */
  lemma HitAlone(s: Section, segments: seq<Segment>, hits: seq<Relocation>, i: nat)
    requires PatchesArray(s, segments, hits) && i < |hits| && Hits(s, hits[i])
    requires hits[i].offset == s.address + 8 * Slot(s, hits[i])
    ensures 0 <= Slot(s, hits[i]) < s.size / 8 && Acceptable(segments, hits[i])
    ensures forall j :: i < j < |hits| ==> hits[j].offset != hits[i].offset
  {
    assert PatchedOnce(hits, s.address + 8 * Slot(s, hits[i]));
  }

  lemma PatchedResolves(s: Section, segments: seq<Segment>, hits: seq<Relocation>)
    requires PatchesArray(s, segments, hits)
    requires forall i :: 0 <= i < |hits| ==> Hits(s, hits[i]) && hits[i].offset == s.address + 8 * Slot(s, hits[i])
    ensures Resolvable(s, segments, hits)
  {
    forall i | 0 <= i < |hits|
      ensures Acceptable(segments, hits[i]) && 0 <= Slot(s, hits[i]) < s.size / 8
      ensures forall j :: i < j < |hits| ==> Slot(s, hits[j]) != Slot(s, hits[i])
    {
      HitAlone(s, segments, hits, i);
    }
    forall slot | 0 <= slot < s.size / 8
      ensures Covered(s, hits, slot)
    {
      PatchedCovered(s, hits, slot);
    }
  }

  lemma PatchedCovered(s: Section, hits: seq<Relocation>, slot: int)
    requires PatchedOnce(hits, s.address + 8 * slot)
    ensures Covered(s, hits, slot)
  {
    var i :| 0 <= i < |hits| && hits[i].offset == s.address + 8 * slot;
    assert Slot(s, hits[i]) == slot;
  }

  /** For an 8-aligned array, entry `k` is the addend of the one relocation at its address. */
  lemma AlignedEntry(s: Section, segments: seq<Segment>, hits: seq<Relocation>, entries: seq<int>, k: nat)
    returns (i: nat)
    requires s.address % 8 == 0 && Resolvable(s, segments, hits) && HoldsAddends(s, hits, entries)
    requires k < |entries|
    ensures i < |hits| && hits[i].offset == s.address + 8 * k && entries[k] == hits[i].addend
    ensures forall j :: 0 <= j < |hits| && hits[j].offset == s.address + 8 * k ==> j == i
  {
    assert Covered(s, hits, k);
    i :| i < |hits| && Slot(s, hits[i]) == k;
    assert Acceptable(segments, hits[i]);
    SlotOfAddress(s, hits[i]);
    forall j | 0 <= j < |hits| && hits[j].offset == s.address + 8 * k
      ensures j == i
    {
      AddressOfSlot(s, hits[j], k);
    }
  }
}
