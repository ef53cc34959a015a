/**
 Android's packed relocation format APS2: groups of delta-encoded relocations over SLEB128.
 */
module Aps2 {
  import opened Basics
  import opened Sleb128

  const MAX_RELOCATIONS := 4 * 1024 * 1024
  const MAGIC: seq<Byte> := [0x41, 0x50, 0x53, 0x32]

  datatype Relocation = Relocation(offset: int, info: int, addend: int)

  /** A group's flag bits, lowest first. */
  datatype Flags = Flags(byInfo: bool, byOffsetDelta: bool, byAddend: bool, hasAddend: bool) {
    /** The number the stream holds for these flags. */
    function Number(): (n: int)
      ensures 0 <= n < 16 && FlagsOf(n) == this
    {
      (if byInfo then 1 else 0) + (if byOffsetDelta then 2 else 0)
      + (if byAddend then 4 else 0) + (if hasAddend then 8 else 0)
    }

    predicate SharedAddend() { hasAddend && byAddend }

    predicate OwnAddends() { hasAddend && !byAddend }
  }

  function FlagsOf(n: int): Flags {
    Flags(n % 2 == 1, n / 2 % 2 == 1, n / 4 % 2 == 1, n / 8 % 2 == 1)
  }

  predicate Fits(r: Relocation) {
    0 <= r.offset < TWO_64 && 0 <= r.info < TWO_64 && 0 <= r.addend < TWO_64
  }

  // ---------------------------------------------------------------- decoding

  /** Where the decoder stands: the numbers still to pop and the running relocation. */
  datatype Cursor = Cursor(rest: seq<int>, last: Relocation)

  datatype Header = Header(cursor: Cursor, size: int, flags: Flags, offsetDelta: int)

  function PopIf(rest: seq<int>, present: bool, otherwise: int): (r: Option<(int, seq<int>)>) {
    if !present then Some((otherwise, rest))
    else if rest == [] then None else Some((rest[0], rest[1..]))
  }

  /** The fields a group shares: the offset delta, and the relocation its items start from. */
  function ReadShared(c: Cursor, flags: Flags): (r: Option<(Cursor, int)>) {
    var delta := PopIf(c.rest, flags.byOffsetDelta, 0);
    if delta.None? then None else
    var info := PopIf(delta.value.1, flags.byInfo, c.last.info);
    if info.None? then None else
    var addend := PopIf(info.value.1, flags.SharedAddend(), 0);
    if addend.None? then None else
    var base := if flags.hasAddend then c.last.addend + addend.value.0 else 0;
    Some((Cursor(addend.value.1, Relocation(c.last.offset, info.value.0, base)), delta.value.0))
  }

  /** A group's size, flags and shared fields. */
  function ReadHeader(c: Cursor, remaining: nat): (r: Option<Header>)
    ensures r.Some? ==> 0 < r.value.size <= remaining
  {
    if |c.rest| < 2 then None else
    var size, flags := c.rest[0], c.rest[1];
    if !(0 < size <= remaining) || !(0 <= flags < 16) then None else
    var shared := ReadShared(Cursor(c.rest[2..], c.last), FlagsOf(flags));
    if shared.None? then None
    else Some(Header(shared.value.0, size, FlagsOf(flags), shared.value.1))
  }

  /** One relocation of a group. */
  function ReadItem(c: Cursor, flags: Flags, offsetDelta: int): (r: Option<Cursor>)
    ensures r.Some? ==> Fits(r.value.last)
  {
    var delta := PopIf(c.rest, !flags.byOffsetDelta, offsetDelta);
    if delta.None? then None else
    var info := PopIf(delta.value.1, !flags.byInfo, c.last.info);
    if info.None? then None else
    var addend := PopIf(info.value.1, flags.OwnAddends(), 0);
    if addend.None? then None else
    var next := Relocation(c.last.offset + delta.value.0, info.value.0, c.last.addend + addend.value.0);
    if Fits(next) then Some(Cursor(addend.value.1, next)) else None
  }

  function ReadItems(c: Cursor, flags: Flags, offsetDelta: int, count: nat, done: seq<Relocation>)
    : (r: Option<(Cursor, seq<Relocation>)>)
    decreases count
  {
    if count == 0 then Some((c, done))
    else
      var item := ReadItem(c, flags, offsetDelta);
      if item.None? then None
      else ReadItems(item.value, flags, offsetDelta, count - 1, done + [item.value.last])
  }

  /** One whole group: where it leaves the decoder, its size, and the list so far. */
  function ReadGroup(c: Cursor, remaining: nat, done: seq<Relocation>): (r: Option<(Cursor, int, seq<Relocation>)>)
    ensures r.Some? ==> 0 < r.value.1 <= remaining
  {
    var h := ReadHeader(c, remaining);
    if h.None? then None
    else
      var items := ReadItems(h.value.cursor, h.value.flags, h.value.offsetDelta, h.value.size, done);
      if items.None? then None else Some((items.value.0, h.value.size, items.value.1))
  }

  /** The groups still to come, then the end of the stream. */
  function ReadGroups(c: Cursor, clean: bool, remaining: nat, done: seq<Relocation>)
    : (r: Option<seq<Relocation>>)
    decreases remaining
  {
    if remaining == 0 then (if c.rest == [] && clean then Some(done) else None)
    else
      var g := ReadGroup(c, remaining, done);
      if g.None? then None
      else ReadGroups(g.value.0, clean, remaining - g.value.1, g.value.2)
  }

  lemma AfterGroup(c: Cursor, clean: bool, remaining: nat, done: seq<Relocation>,
                   next: Cursor, left: nat, more: seq<Relocation>)
    requires remaining > 0 && ReadGroup(c, remaining, done).Some?
    requires var g := ReadGroup(c, remaining, done).value; g.0 == next && g.1 == remaining - left && g.2 == more
    ensures ReadGroups(c, clean, remaining, done) == ReadGroups(next, clean, left, more)
  {
  }

  function DecodeStream(s: Stream): (r: Option<seq<Relocation>>) {
    if |s.numbers| < 2 || !(0 <= s.numbers[0] <= MAX_RELOCATIONS) then None
    else ReadGroups(Cursor(s.numbers[2..], Relocation(s.numbers[1], 0, 0)), s.clean, s.numbers[0], [])
  }

  /** A section's relocations, or None where the decoder refuses. */
  function Decode(encoded: seq<Byte>): (r: Option<seq<Relocation>>) {
    if MAGIC <= encoded then DecodeStream(StreamAt(encoded[4..], 0)) else None
  }

  method DecodeAps2Relocations(encoded: seq<Byte>) returns (r: Option<seq<Relocation>>)
    ensures r == Decode(encoded)
  {
    if !(MAGIC <= encoded) {
      return None;
    }
    var reader := new Reader(encoded[4..]);
    var start := PopPair(reader);
    if start.None? || start.value.0 < 0 || start.value.0 > MAX_RELOCATIONS {
      return None;
    }
    r := ReadAllGroups(reader, Relocation(start.value.1, 0, 0), start.value.0);
  }

  method ReadAllGroups(reader: Reader, base: Relocation, count: nat) returns (r: Option<seq<Relocation>>)
    requires reader.Valid()
    modifies reader`position, reader`left
    ensures r == ReadGroups(old(At(reader, base)), old(reader.left).clean, count, [])
  {
    ghost var clean := reader.left.clean;
    ghost var goal := ReadGroups(At(reader, base), clean, count, []);
    var last, result := base, [];
    var remaining: nat := count;
    ghost var c := At(reader, last);
    while remaining > 0
      invariant reader.Valid() && reader.left.clean == clean && c == At(reader, last)
      invariant ReadGroups(c, clean, remaining, result) == goal
    {
      ghost var before, from, wanted := result, c, remaining;
      var items := ReadOneGroup(reader, last, remaining, result);
      if items.None? {
        return None;
      }
      remaining := remaining - (|items.value.1| - |result|);
      last, result := items.value.0, items.value.1;
      c := At(reader, last);
      AfterGroup(from, clean, wanted, before, c, remaining, result);
    }
    var atEnd := reader.AtEnd();
    return if atEnd then Some(result) else None;
  }

  method ReadOneGroup(reader: Reader, last: Relocation, remaining: nat, done: seq<Relocation>)
    returns (r: Option<(Relocation, seq<Relocation>)>)
    requires reader.Valid()
    modifies reader`position, reader`left
    ensures r.Some? ==> reader.Valid() && reader.left.clean == old(reader.left).clean
    ensures var g := ReadGroup(old(At(reader, last)), remaining, done);
            if g.None? then r.None?
            else r.Some? && g.value == (At(reader, r.value.0), |r.value.1| - |done|, r.value.1)
  {
    var header, size, flags, delta := ReadGroupHeader(reader, last, remaining);
    if header.None? {
      return None;
    }
    r := ReadGroupItems(reader, header.value, flags, delta, size, done);
  }

  method ReadGroupItems(reader: Reader, base: Relocation, flags: Flags, offsetDelta: int, size: nat,
                        done: seq<Relocation>)
    returns (r: Option<(Relocation, seq<Relocation>)>)
    requires reader.Valid()
    modifies reader`position, reader`left
    ensures r.Some? ==> reader.Valid() && reader.left.clean == old(reader.left).clean
    ensures r.Some? ==> |r.value.1| == |done| + size
    ensures var items := ReadItems(old(At(reader, base)), flags, offsetDelta, size, done);
            if items.None? then r.None?
            else r.Some? && items.value == (At(reader, r.value.0), r.value.1)
  {
    ghost var items := ReadItems(At(reader, base), flags, offsetDelta, size, done);
    var last, result := base, done;
    for index := 0 to size
      invariant reader.Valid() && |result| == |done| + index
      invariant reader.left.clean == old(reader.left).clean
      invariant ReadItems(At(reader, last), flags, offsetDelta, size - index, result) == items
    {
      var item := ReadRelocation(reader, last, flags, offsetDelta);
      if item.None? {
        return None;
      }
      last := item.value;
      result := result + [last];
    }
    return Some((last, result));
  }

  /** What the reader still holds, as a cursor. */
  ghost function At(reader: Reader, last: Relocation): Cursor
    reads reader
  {
    Cursor(reader.left.numbers, last)
  }

  method PopWhen(reader: Reader, present: bool, otherwise: int) returns (r: Option<int>)
    requires reader.Valid()
    modifies reader`position, reader`left
    ensures r.Some? ==> reader.Valid() && reader.left.clean == old(reader.left).clean
    ensures var popped := PopIf(old(reader.left).numbers, present, otherwise);
            if popped.None? then r.None? else r.Some? && popped.value == (r.value, reader.left.numbers)
  {
    if present {
      r := reader.Pop();
    } else {
      r := Some(otherwise);
    }
  }

  method PopPair(reader: Reader) returns (r: Option<(int, int)>)
    requires reader.Valid()
    modifies reader`position, reader`left
    ensures r.Some? ==> reader.Valid() && reader.left.clean == old(reader.left).clean
    ensures var numbers := old(reader.left).numbers;
            if |numbers| < 2 then r.None?
            else r == Some((numbers[0], numbers[1])) && reader.left.numbers == numbers[2..]
  {
    var first := reader.Pop();
    if first.None? { return None; }
    var second := reader.Pop();
    if second.None? { return None; }
    return Some((first.value, second.value));
  }

  method ReadGroupHeader(reader: Reader, last: Relocation, remaining: nat)
    returns (r: Option<Relocation>, size: int, flags: Flags, offsetDelta: int)
    requires reader.Valid()
    modifies reader`position, reader`left
    ensures r.Some? ==> reader.Valid() && reader.left.clean == old(reader.left).clean
    ensures var h := ReadHeader(old(At(reader, last)), remaining);
            if h.None? then r.None?
            else r.Some? && h.value == Header(At(reader, r.value), size, flags, offsetDelta)
  {
    r, size, flags, offsetDelta := None, 0, FlagsOf(0), 0;
    var pair := PopPair(reader);
    if pair.None? || pair.value.0 <= 0 || pair.value.0 > remaining || pair.value.1 < 0 || pair.value.1 >= 16 {
      return;
    }
    size, flags := pair.value.0, FlagsOf(pair.value.1);
    r, offsetDelta := ReadSharedFields(reader, last, flags);
  }

  method ReadSharedFields(reader: Reader, last: Relocation, flags: Flags)
    returns (r: Option<Relocation>, offsetDelta: int)
    requires reader.Valid()
    modifies reader`position, reader`left
    ensures r.Some? ==> reader.Valid() && reader.left.clean == old(reader.left).clean
    ensures var shared := ReadShared(old(At(reader, last)), flags);
            if shared.None? then r.None?
            else r.Some? && shared.value == (At(reader, r.value), offsetDelta)
  {
    r, offsetDelta := None, 0;
    var delta := PopWhen(reader, flags.byOffsetDelta, 0);
    if delta.None? { return; }
    var info := PopWhen(reader, flags.byInfo, last.info);
    if info.None? { return; }
    var addend := last.addend;
    if flags.SharedAddend() {
      var popped := reader.Pop();
      if popped.None? { return; }
      addend := addend + popped.value;
    } else if !flags.OwnAddends() {
      addend := 0;
    }
    r, offsetDelta := Some(Relocation(last.offset, info.value, addend)), delta.value;
  }

  method ReadRelocation(reader: Reader, last: Relocation, flags: Flags, offsetDelta: int)
    returns (r: Option<Relocation>)
    requires reader.Valid()
    modifies reader`position, reader`left
    ensures r.Some? ==> reader.Valid() && reader.left.clean == old(reader.left).clean
    ensures var item := ReadItem(old(At(reader, last)), flags, offsetDelta);
            if item.None? then r.None? else r.Some? && item.value == At(reader, r.value)
  {
    var delta := PopWhen(reader, !flags.byOffsetDelta, offsetDelta);
    if delta.None? { return None; }
    var info := PopWhen(reader, !flags.byInfo, last.info);
    if info.None? { return None; }
    var addend := PopWhen(reader, flags.OwnAddends(), 0);
    if addend.None? { return None; }
    var next := Relocation(last.offset + delta.value, info.value, last.addend + addend.value);
    return if Fits(next) then Some(next) else None;
  }

  // ---------------------------------------------------------------- what a decoded list is like

  ghost predicate AllFit(rs: seq<Relocation>) {
    forall i :: 0 <= i < |rs| ==> Fits(rs[i])
  }

  lemma {:induction false} ItemsFit(c: Cursor, flags: Flags, offsetDelta: int, count: nat, done: seq<Relocation>)
    requires AllFit(done)
    ensures var r := ReadItems(c, flags, offsetDelta, count, done);
            r.Some? ==> |r.value.1| == |done| + count && AllFit(r.value.1)
    decreases count
  {
    if count > 0 {
      var item := ReadItem(c, flags, offsetDelta);
      if item.Some? {
        ItemsFit(item.value, flags, offsetDelta, count - 1, done + [item.value.last]);
      }
    }
  }

  lemma GroupFits(c: Cursor, remaining: nat, done: seq<Relocation>, next: Cursor, size: int, all: seq<Relocation>)
    requires AllFit(done) && ReadGroup(c, remaining, done) == Some((next, size, all))
    ensures |all| == |done| + size && AllFit(all)
  {
    var h := ReadHeader(c, remaining).value;
    ItemsFit(h.cursor, h.flags, h.offsetDelta, h.size, done);
  }

  lemma {:induction false} GroupsFit(c: Cursor, clean: bool, remaining: nat, done: seq<Relocation>,
                                     result: seq<Relocation>)
    requires AllFit(done) && ReadGroups(c, clean, remaining, done) == Some(result)
    ensures |result| == |done| + remaining && AllFit(result) && clean
    decreases remaining
  {
    if remaining > 0 {
      var (next, size, all) := ReadGroup(c, remaining, done).value;
      var left := remaining - size;
      GroupFits(c, remaining, done, next, size, all);
      AfterGroup(c, clean, remaining, done, next, left, all);
      GroupsFit(next, clean, left, all, result);
    }
  }

  /** Every successful decode yields exactly the declared number of relocations, each of
      unsigned 64-bit fields, and leaves no byte over. */
  lemma DecodedListFits(encoded: seq<Byte>)
    requires Decode(encoded).Some?
    ensures MAGIC <= encoded && StreamAt(encoded[4..], 0).numbers != [] && StreamAt(encoded[4..], 0).clean
    ensures |Decode(encoded).value| == StreamAt(encoded[4..], 0).numbers[0] <= 4 * 1024 * 1024
    ensures AllFit(Decode(encoded).value)
  {
    var s := StreamAt(encoded[4..], 0);
    GroupsFit(Cursor(s.numbers[2..], Relocation(s.numbers[1], 0, 0)), s.clean, s.numbers[0], [],
              Decode(encoded).value);
  }

  // ---------------------------------------------------------------- encoding

  /** A run of relocations packed under one set of flags. */
  datatype Group = Group(flags: Flags, items: seq<Relocation>)

  function Field(present: bool, number: int): seq<int> {
    if present then [number] else []
  }

  function ItemNumbers(flags: Flags, last: Relocation, r: Relocation): seq<int> {
    Field(!flags.byOffsetDelta, r.offset - last.offset)
    + (Field(!flags.byInfo, r.info)
    + Field(flags.OwnAddends(), r.addend - last.addend))
  }

  /** The running relocation once `items` have followed `last`. */
  function Last(last: Relocation, items: seq<Relocation>): Relocation {
    if items == [] then last else items[|items| - 1]
  }

  function First(last: Relocation, items: seq<Relocation>): Relocation {
    if items == [] then last else items[0]
  }

  function ItemsNumbers(flags: Flags, last: Relocation, items: seq<Relocation>): seq<int>
    decreases |items|
  {
    if items == [] then [] else ItemNumbers(flags, last, items[0]) + ItemsNumbers(flags, items[0], items[1..])
  }

  function SharedNumbers(last: Relocation, g: Group): seq<int>
  {
    Field(g.flags.byOffsetDelta, First(last, g.items).offset - last.offset)
    + (Field(g.flags.byInfo, First(last, g.items).info)
    + Field(g.flags.SharedAddend(), First(last, g.items).addend - last.addend))
  }

  function HeaderNumbers(last: Relocation, g: Group): seq<int>
  {
    [|g.items|, g.flags.Number()] + SharedNumbers(last, g)
  }

  function SharedDelta(last: Relocation, g: Group): int
  {
    if g.flags.byOffsetDelta then First(last, g.items).offset - last.offset else 0
  }

  /** The relocation a group's own items start from, once its shared fields are read. */
  function GroupBase(last: Relocation, g: Group): Relocation
  {
    Relocation(last.offset,
               if g.flags.byInfo then First(last, g.items).info else last.info,
               if g.flags.SharedAddend() then First(last, g.items).addend
               else if g.flags.OwnAddends() then last.addend else 0)
  }

  function GroupNumbers(last: Relocation, g: Group): seq<int>
  {
    HeaderNumbers(last, g) + ItemsNumbers(g.flags, GroupBase(last, g), g.items)
  }

  ghost predicate LegalItem(flags: Flags, offsetDelta: int, last: Relocation, r: Relocation) {
    && Fits(r)
    && (flags.byOffsetDelta ==> r.offset == last.offset + offsetDelta)
    && (flags.byInfo ==> r.info == last.info)
    && (!flags.OwnAddends() ==> r.addend == last.addend)
  }

  /** The flags tell the truth about the items: what they declare shared is shared. */
  ghost predicate LegalItems(flags: Flags, offsetDelta: int, last: Relocation, items: seq<Relocation>)
    decreases |items|
  {
    items == [] ||
    (LegalItem(flags, offsetDelta, last, items[0]) && LegalItems(flags, offsetDelta, items[0], items[1..]))
  }

  ghost predicate LegalGroup(last: Relocation, g: Group) {
    && g.items != []
    && LegalItems(g.flags, SharedDelta(last, g), GroupBase(last, g), g.items)
  }

  ghost predicate LegalGroups(last: Relocation, groups: seq<Group>)
    decreases |groups|
  {
    groups == [] ||
    (LegalGroup(last, groups[0]) && LegalGroups(Last(last, groups[0].items), groups[1..]))
  }

  function AllNumbers(last: Relocation, groups: seq<Group>): seq<int>
    decreases |groups|
  {
    if groups == [] then []
    else GroupNumbers(last, groups[0]) + AllNumbers(Last(last, groups[0].items), groups[1..])
  }

  function AllItems(groups: seq<Group>): seq<Relocation> {
    if groups == [] then [] else groups[0].items + AllItems(groups[1..])
  }

  /** The numbers of a stream that starts from `initialOffset`. */
  function StreamNumbers(initialOffset: int, groups: seq<Group>): seq<int> {
    [|AllItems(groups)|, initialOffset] + AllNumbers(Relocation(initialOffset, 0, 0), groups)
  }

  /** The packed form of a grouped relocation list whose deltas start from `initialOffset`. */
  function EncodeAps2(initialOffset: int, groups: seq<Group>): seq<Byte>
  {
    MAGIC + EncodeNumbers(StreamNumbers(initialOffset, groups))
  }

  // ---------------------------------------------------------------- decoding inverts encoding

  lemma PopField(rest: seq<int>, present: bool, number: int, otherwise: int, more: seq<int>)
    requires rest == Field(present, number) + more
    ensures PopIf(rest, present, otherwise) == Some((if present then number else otherwise, more))
  {
    assert rest[if present then 1 else 0..] == more;
  }

  /** A relocation read from its three fields. */
  lemma ReadItemFields(c: Cursor, flags: Flags, offsetDelta: int, r: Relocation,
                       second: seq<int>, third: seq<int>, more: seq<int>)
    requires Fits(r)
    requires PopIf(c.rest, !flags.byOffsetDelta, offsetDelta) == Some((r.offset - c.last.offset, second))
    requires PopIf(second, !flags.byInfo, c.last.info) == Some((r.info, third))
    requires PopIf(third, flags.OwnAddends(), 0) == Some((r.addend - c.last.addend, more))
    ensures ReadItem(c, flags, offsetDelta) == Some(Cursor(more, r))
  {
  }

  lemma ItemFieldsInvert(flags: Flags, offsetDelta: int, last: Relocation, r: Relocation,
                         first: seq<int>, second: seq<int>, third: seq<int>, more: seq<int>)
    requires LegalItem(flags, offsetDelta, last, r)
    requires third == Field(flags.OwnAddends(), r.addend - last.addend) + more
    requires second == Field(!flags.byInfo, r.info) + third
    requires first == Field(!flags.byOffsetDelta, r.offset - last.offset) + second
    ensures ReadItem(Cursor(first, last), flags, offsetDelta) == Some(Cursor(more, r))
  {
    PopField(first, !flags.byOffsetDelta, r.offset - last.offset, offsetDelta, second);
    PopField(second, !flags.byInfo, r.info, last.info, third);
    PopField(third, flags.OwnAddends(), r.addend - last.addend, 0, more);
    ReadItemFields(Cursor(first, last), flags, offsetDelta, r, second, third, more);
  }

  lemma ReadItemInverts(flags: Flags, offsetDelta: int, last: Relocation, r: Relocation, more: seq<int>)
    requires LegalItem(flags, offsetDelta, last, r)
    ensures ReadItem(Cursor(ItemNumbers(flags, last, r) + more, last), flags, offsetDelta) == Some(Cursor(more, r))
  {
    var third := Field(flags.OwnAddends(), r.addend - last.addend) + more;
    var second := Field(!flags.byInfo, r.info) + third;
    var first := Field(!flags.byOffsetDelta, r.offset - last.offset) + second;
    assert ItemNumbers(flags, last, r) + more == first;
    ItemFieldsInvert(flags, offsetDelta, last, r, first, second, third, more);
  }

  lemma LastOfRest(last: Relocation, items: seq<Relocation>)
    requires items != []
    ensures Last(last, items) == Last(items[0], items[1..])
  {
  }

  lemma AfterItem(flags: Flags, offsetDelta: int, last: Relocation, items: seq<Relocation>, more: seq<int>,
                  later: seq<int>, count: nat, done: seq<Relocation>)
    requires LegalItems(flags, offsetDelta, last, items) && items != [] && count > 0
    requires later == ItemsNumbers(flags, items[0], items[1..]) + more
    ensures ReadItems(Cursor(ItemsNumbers(flags, last, items) + more, last), flags, offsetDelta, count, done) ==
            ReadItems(Cursor(later, items[0]), flags, offsetDelta, count - 1, done + [items[0]])
  {
    assert ItemsNumbers(flags, last, items) + more == ItemNumbers(flags, last, items[0]) + later;
    ReadItemInverts(flags, offsetDelta, last, items[0], later);
  }

  lemma {:induction false} ReadItemsInverts(flags: Flags, offsetDelta: int, last: Relocation, items: seq<Relocation>,
                                            more: seq<int>, count: nat, done: seq<Relocation>)
    requires LegalItems(flags, offsetDelta, last, items) && count == |items|
    ensures ReadItems(Cursor(ItemsNumbers(flags, last, items) + more, last), flags, offsetDelta, count, done) ==
            Some((Cursor(more, Last(last, items)), done + items))
    decreases count
  {
    if items == [] {
      assert ItemsNumbers(flags, last, items) + more == more && done + items == done;
    } else {
      var later := ItemsNumbers(flags, items[0], items[1..]) + more;
      AfterItem(flags, offsetDelta, last, items, more, later, count, done);
      ReadItemsInverts(flags, offsetDelta, items[0], items[1..], more, count - 1, done + [items[0]]);
      FirstThenRest(done, items);
      LastOfRest(last, items);
    }
  }

  lemma SharedFieldsInvert(last: Relocation, g: Group, first: seq<int>, second: seq<int>, third: seq<int>, more: seq<int>)
    requires third == Field(g.flags.SharedAddend(), First(last, g.items).addend - last.addend) + more
    requires second == Field(g.flags.byInfo, First(last, g.items).info) + third
    requires first == Field(g.flags.byOffsetDelta, First(last, g.items).offset - last.offset) + second
    ensures ReadShared(Cursor(first, last), g.flags) == Some((Cursor(more, GroupBase(last, g)), SharedDelta(last, g)))
  {
    var f, item := g.flags, First(last, g.items);
    PopField(first, f.byOffsetDelta, item.offset - last.offset, 0, second);
    PopField(second, f.byInfo, item.info, last.info, third);
    PopField(third, f.SharedAddend(), item.addend - last.addend, 0, more);
  }

  lemma ReadSharedInverts(last: Relocation, g: Group, more: seq<int>)
    ensures ReadShared(Cursor(SharedNumbers(last, g) + more, last), g.flags) ==
            Some((Cursor(more, GroupBase(last, g)), SharedDelta(last, g)))
  {
    var f, item := g.flags, First(last, g.items);
    var third := Field(f.SharedAddend(), item.addend - last.addend) + more;
    var second := Field(f.byInfo, item.info) + third;
    var first := Field(f.byOffsetDelta, item.offset - last.offset) + second;
    assert SharedNumbers(last, g) + more == first;
    SharedFieldsInvert(last, g, first, second, third, more);
  }

  lemma ReadHeaderInverts(last: Relocation, g: Group, remaining: nat, more: seq<int>)
    requires LegalGroup(last, g) && |g.items| <= remaining
    ensures ReadHeader(Cursor(HeaderNumbers(last, g) + more, last), remaining) ==
            Some(Header(Cursor(more, GroupBase(last, g)), |g.items|, g.flags, SharedDelta(last, g)))
  {
    assert (HeaderNumbers(last, g) + more)[2..] == SharedNumbers(last, g) + more;
    ReadSharedInverts(last, g, more);
  }

  lemma ReadGroupInverts(last: Relocation, g: Group, later: seq<int>, clean: bool, remaining: nat,
                         left: nat, done: seq<Relocation>)
    requires LegalGroup(last, g) && remaining == |g.items| + left
    ensures ReadGroups(Cursor(GroupNumbers(last, g) + later, last), clean, remaining, done) ==
            ReadGroups(Cursor(later, Last(last, g.items)), clean, left, done + g.items)
  {
    var items := ItemsNumbers(g.flags, GroupBase(last, g), g.items) + later;
    assert GroupNumbers(last, g) + later == HeaderNumbers(last, g) + items;
    ReadHeaderInverts(last, g, remaining, items);
    ReadItemsInverts(g.flags, SharedDelta(last, g), GroupBase(last, g), g.items, later, |g.items|, done);
    AfterGroup(Cursor(GroupNumbers(last, g) + later, last), clean, remaining, done,
               Cursor(later, Last(last, g.items)), left, done + g.items);
  }

  lemma {:induction false} ReadGroupsInverts(last: Relocation, groups: seq<Group>, done: seq<Relocation>)
    requires LegalGroups(last, groups)
    ensures ReadGroups(Cursor(AllNumbers(last, groups), last), true, |AllItems(groups)|, done) ==
            Some(done + AllItems(groups))
    decreases |groups|
  {
    if groups == [] {
      assert done + AllItems(groups) == done;
    } else {
      var g, later := groups[0], groups[1..];
      ReadGroupInverts(last, g, AllNumbers(Last(last, g.items), later), true, |AllItems(groups)|, |AllItems(later)|, done);
      ReadGroupsInverts(Last(last, g.items), later, done + g.items);
      assert done + g.items + AllItems(later) == done + AllItems(groups);
    }
  }

  /** A stream that does not end cleanly is refused. */
  lemma {:induction false} UncleanRefused(c: Cursor, remaining: nat, done: seq<Relocation>)
    ensures ReadGroups(c, false, remaining, done) == None
    decreases remaining
  {
    if remaining > 0 {
      var g := ReadGroup(c, remaining, done);
      if g.Some? {
        UncleanRefused(g.value.0, remaining - g.value.1, g.value.2);
      }
    }
  }

  /** Decoding the numbers of any legal grouping gives its list back. */
  lemma DecodeNumbers(initialOffset: int, groups: seq<Group>)
    requires LegalGroups(Relocation(initialOffset, 0, 0), groups)
    ensures DecodeStream(Stream(StreamNumbers(initialOffset, groups), true)) ==
            if |AllItems(groups)| <= MAX_RELOCATIONS then Some(AllItems(groups)) else None
  {
    var start := Relocation(initialOffset, 0, 0);
    assert StreamNumbers(initialOffset, groups)[2..] == AllNumbers(start, groups);
    ReadGroupsInverts(start, groups, []);
    assert [] + AllItems(groups) == AllItems(groups);
  }

  lemma DecodeUnclean(s: Stream)
    requires !s.clean
    ensures DecodeStream(s) == None
  {
    if |s.numbers| >= 2 && 0 <= s.numbers[0] <= MAX_RELOCATIONS {
      UncleanRefused(Cursor(s.numbers[2..], Relocation(s.numbers[1], 0, 0)), s.numbers[0], []);
    }
  }

  /** Decoding the packed form of any legally grouped relocation list gives exactly that list
      and consumes every byte, exactly when the list is not too long and every number of its
      stream can be popped; otherwise it is refused. */
  lemma DecodeInvertsEncode(initialOffset: int, groups: seq<Group>)
    requires LegalGroups(Relocation(initialOffset, 0, 0), groups)
    ensures Decode(EncodeAps2(initialOffset, groups)) ==
            if |AllItems(groups)| <= 4 * 1024 * 1024 && Poppable(StreamNumbers(initialOffset, groups))
            then Some(AllItems(groups)) else None
  {
    var numbers := StreamNumbers(initialOffset, groups);
    var body := EncodeAps2(initialOffset, groups)[4..];
    assert body[0..] == EncodeNumbers(numbers);
    StreamInverts(body, 0, numbers);
    if Poppable(numbers) {
      DecodeNumbers(initialOffset, groups);
    } else {
      DecodeUnclean(StreamAt(body, 0));
    }
  }

  // ---------------------------------------------------------------- the decoder accepts nothing else

  lemma TwoParts(whole: seq<int>, a: seq<int>, b: seq<int>, behindA: seq<int>, behindB: seq<int>)
    requires whole == a + behindA && behindA == b + behindB
    ensures whole == a + b + behindB
  {
  }

  lemma FieldPopped(rest: seq<int>, present: bool, otherwise: int, number: int, behind: seq<int>)
    requires PopIf(rest, present, otherwise) == Some((number, behind))
    ensures rest == Field(present, number) + behind && (!present ==> number == otherwise)
  {
  }

  lemma ItemIsLegal(c: Cursor, flags: Flags, offsetDelta: int, next: Cursor)
    requires ReadItem(c, flags, offsetDelta) == Some(next)
    ensures LegalItem(flags, offsetDelta, c.last, next.last)
    ensures c.rest == ItemNumbers(flags, c.last, next.last) + next.rest
  {
    var delta := PopIf(c.rest, !flags.byOffsetDelta, offsetDelta).value;
    var info := PopIf(delta.1, !flags.byInfo, c.last.info).value;
    var addend := PopIf(info.1, flags.OwnAddends(), 0).value;
    FieldPopped(c.rest, !flags.byOffsetDelta, offsetDelta, delta.0, delta.1);
    FieldPopped(delta.1, !flags.byInfo, c.last.info, info.0, info.1);
    FieldPopped(info.1, flags.OwnAddends(), 0, addend.0, addend.1);
    var second, third := Field(!flags.byInfo, info.0), Field(flags.OwnAddends(), addend.0);
    TwoParts(delta.1, second, third, info.1, addend.1);
    TwoParts(c.rest, Field(!flags.byOffsetDelta, delta.0), second + third, delta.1, addend.1);
  }

  lemma {:induction false} ItemsAreLegal(c: Cursor, flags: Flags, offsetDelta: int, count: nat, done: seq<Relocation>,
                                         next: Cursor, all: seq<Relocation>) returns (items: seq<Relocation>)
    requires ReadItems(c, flags, offsetDelta, count, done) == Some((next, all))
    ensures |items| == count && all == done + items && next.last == Last(c.last, items)
    ensures LegalItems(flags, offsetDelta, c.last, items)
    ensures c.rest == ItemsNumbers(flags, c.last, items) + next.rest
    decreases count
  {
    if count == 0 {
      items := [];
    } else {
      var item := ReadItem(c, flags, offsetDelta).value;
      ItemIsLegal(c, flags, offsetDelta, item);
      var later := ItemsAreLegal(item, flags, offsetDelta, count - 1, done + [item.last], next, all);
      items := [item.last] + later;
      OneMoreItem(c, flags, offsetDelta, item, later, next.rest, done);
    }
  }

  lemma OneMoreItem(c: Cursor, flags: Flags, offsetDelta: int, item: Cursor, later: seq<Relocation>,
                    behind: seq<int>, done: seq<Relocation>)
    requires LegalItem(flags, offsetDelta, c.last, item.last)
    requires LegalItems(flags, offsetDelta, item.last, later)
    requires c.rest == ItemNumbers(flags, c.last, item.last) + item.rest
    requires item.rest == ItemsNumbers(flags, item.last, later) + behind
    ensures LegalItems(flags, offsetDelta, c.last, [item.last] + later)
    ensures c.rest == ItemsNumbers(flags, c.last, [item.last] + later) + behind
    ensures Last(c.last, [item.last] + later) == Last(item.last, later)
    ensures done + [item.last] + later == done + ([item.last] + later)
  {
    assert ([item.last] + later)[1..] == later;
    TwoParts(c.rest, ItemNumbers(flags, c.last, item.last), ItemsNumbers(flags, item.last, later), item.rest, behind);
  }

  lemma SharedIsLegal(c: Cursor, g: Group, next: Cursor, offsetDelta: int)
    requires ReadShared(c, g.flags) == Some((next, offsetDelta))
    requires g.items != [] && LegalItem(g.flags, offsetDelta, next.last, g.items[0])
    ensures next.last == GroupBase(c.last, g) && offsetDelta == SharedDelta(c.last, g)
    ensures c.rest == SharedNumbers(c.last, g) + next.rest
  {
    var flags := g.flags;
    var delta := PopIf(c.rest, flags.byOffsetDelta, 0).value;
    var info := PopIf(delta.1, flags.byInfo, c.last.info).value;
    var addend := PopIf(info.1, flags.SharedAddend(), 0).value;
    FieldPopped(c.rest, flags.byOffsetDelta, 0, delta.0, delta.1);
    FieldPopped(delta.1, flags.byInfo, c.last.info, info.0, info.1);
    FieldPopped(info.1, flags.SharedAddend(), 0, addend.0, addend.1);
    var second, third := Field(flags.byInfo, info.0), Field(flags.SharedAddend(), addend.0);
    TwoParts(delta.1, second, third, info.1, addend.1);
    TwoParts(c.rest, Field(flags.byOffsetDelta, delta.0), second + third, delta.1, addend.1);
  }

  lemma FlagsRoundTrip(n: int)
    requires 0 <= n < 16
    ensures FlagsOf(n).Number() == n
  {
  }

  /** A header read is two numbers followed by the shared fields. */
  lemma HeaderParts(c: Cursor, remaining: nat, h: Header)
    requires ReadHeader(c, remaining) == Some(h)
    ensures |c.rest| >= 2 && c.rest == [h.size, h.flags.Number()] + c.rest[2..]
    ensures ReadShared(Cursor(c.rest[2..], c.last), h.flags) == Some((h.cursor, h.offsetDelta))
  {
    FlagsRoundTrip(c.rest[1]);
    assert c.rest == [c.rest[0], c.rest[1]] + c.rest[2..];
  }

  lemma HeaderIsLegal(c: Cursor, remaining: nat, h: Header, g: Group)
    requires ReadHeader(c, remaining) == Some(h)
    requires g.flags == h.flags && |g.items| == h.size && LegalItem(h.flags, h.offsetDelta, h.cursor.last, g.items[0])
    ensures h.cursor.last == GroupBase(c.last, g) && h.offsetDelta == SharedDelta(c.last, g)
    ensures c.rest == HeaderNumbers(c.last, g) + h.cursor.rest
  {
    HeaderParts(c, remaining, h);
    var fields := c.rest[2..];
    SharedIsLegal(Cursor(fields, c.last), g, h.cursor, h.offsetDelta);
    TwoParts(c.rest, [h.size, h.flags.Number()], SharedNumbers(c.last, g), fields, h.cursor.rest);
  }

  /** `g` is what the decoder read from `c` up to `next`. */
  ghost predicate Reads(c: Cursor, g: Group, next: Cursor) {
    && LegalGroup(c.last, g)
    && next.last == Last(c.last, g.items)
    && c.rest == GroupNumbers(c.last, g) + next.rest
  }

  lemma ItemsThenGroup(c: Cursor, remaining: nat, h: Header, g: Group, next: Cursor)
    requires ReadHeader(c, remaining) == Some(h)
    requires g.flags == h.flags && |g.items| == h.size
    requires LegalItems(h.flags, h.offsetDelta, h.cursor.last, g.items)
    requires next.last == Last(h.cursor.last, g.items)
    requires h.cursor.rest == ItemsNumbers(h.flags, h.cursor.last, g.items) + next.rest
    ensures Reads(c, g, next)
  {
    HeaderIsLegal(c, remaining, h, g);
    TwoParts(c.rest, HeaderNumbers(c.last, g), ItemsNumbers(g.flags, GroupBase(c.last, g), g.items),
             h.cursor.rest, next.rest);
  }

  lemma GroupIsLegal(c: Cursor, remaining: nat, done: seq<Relocation>, next: Cursor, size: int, all: seq<Relocation>)
    returns (g: Group)
    requires ReadGroup(c, remaining, done) == Some((next, size, all))
    ensures Reads(c, g, next) && |g.items| == size && all == done + g.items
  {
    var h := ReadHeader(c, remaining).value;
    var items := ItemsAreLegal(h.cursor, h.flags, h.offsetDelta, h.size, done, next, all);
    g := Group(h.flags, items);
    ItemsThenGroup(c, remaining, h, g, next);
  }

  lemma OneMoreGroup(c: Cursor, g: Group, next: Cursor, later: seq<Group>, done: seq<Relocation>)
    requires Reads(c, g, next) && LegalGroups(next.last, later) && next.rest == AllNumbers(next.last, later)
    ensures LegalGroups(c.last, [g] + later) && c.rest == AllNumbers(c.last, [g] + later)
    ensures AllItems([g] + later) == g.items + AllItems(later)
    ensures done + g.items + AllItems(later) == done + AllItems([g] + later)
  {
    assert ([g] + later)[1..] == later;
  }

  /** Whatever the decoder accepts is the stream of a legal grouping of its result. */
  lemma {:induction false} GroupsAreLegal(c: Cursor, clean: bool, remaining: nat, done: seq<Relocation>,
                                          result: seq<Relocation>) returns (groups: seq<Group>)
    requires ReadGroups(c, clean, remaining, done) == Some(result)
    ensures LegalGroups(c.last, groups) && |AllItems(groups)| == remaining
    ensures c.rest == AllNumbers(c.last, groups) && result == done + AllItems(groups)
    decreases remaining
  {
    if remaining == 0 {
      groups := [];
    } else {
      var (next, size, all) := ReadGroup(c, remaining, done).value;
      var left := remaining - size;
      AfterGroup(c, clean, remaining, done, next, left, all);
      var g := GroupIsLegal(c, remaining, done, next, size, all);
      var later := GroupsAreLegal(next, clean, left, all, result);
      groups := [g] + later;
      OneMoreGroup(c, g, next, later, done);
    }
  }

  /** A decode succeeds only on the numbers of some legal grouping of what it returns. */
  lemma DecodedComesFromGroups(encoded: seq<Byte>) returns (initialOffset: int, groups: seq<Group>)
    requires Decode(encoded).Some?
    ensures LegalGroups(Relocation(initialOffset, 0, 0), groups)
    ensures StreamAt(encoded[4..], 0) == Stream(StreamNumbers(initialOffset, groups), true)
    ensures Decode(encoded).value == AllItems(groups)
  {
    var s := StreamAt(encoded[4..], 0);
    initialOffset := s.numbers[1];
    var c := Cursor(s.numbers[2..], Relocation(initialOffset, 0, 0));
    GroupsFit(c, s.clean, s.numbers[0], [], Decode(encoded).value);
    groups := GroupsAreLegal(c, s.clean, s.numbers[0], [], Decode(encoded).value);
    assert s.numbers == [s.numbers[0], initialOffset] + s.numbers[2..];
    assert [] + AllItems(groups) == AllItems(groups);
  }
}
