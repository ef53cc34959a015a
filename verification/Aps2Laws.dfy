/**
 What the numbers of a packed relocation stream mean, stated on the numbers themselves: the
 flag number's bits, the places of the shared fields and of each relocation's own fields.
 */
module Aps2Laws {
  import opened Basics
  import opened Sleb128
  import opened Aps2

  // ---------------------------------------------------------------- one group

  /** Bit 0 of a flag number: the group has one info. */
  predicate OneInfo(n: int) { n % 2 == 1 }

  /** Bit 1: the relocations are a constant stride apart. */
  predicate OneStride(n: int) { n / 2 % 2 == 1 }

  /** Bits 3 and 2: the group has one addend, by which the running one changes once. */
  predicate OneAddend(n: int) { n / 8 % 2 == 1 && n / 4 % 2 == 1 }

  /** Bit 3 without bit 2: each relocation changes the running addend. */
  predicate OwnAddend(n: int) { n / 8 % 2 == 1 && n / 4 % 2 == 0 }

  function One(present: bool): nat {
    if present then 1 else 0
  }

  /** Size, flag number, and the shared fields that are there: stride, info, addend. */
  function HeaderLength(n: int): nat {
    2 + One(OneStride(n)) + One(OneInfo(n)) + One(OneAddend(n))
  }

  /** How many numbers each relocation has of its own: offset delta, info, addend delta. */
  function Width(n: int): nat {
    One(!OneStride(n)) + One(!OneInfo(n)) + One(OwnAddend(n))
  }

  /** `r` follows `before` in a group that starts with the numbers `group`, when the running
      addend is `addend`; `own` starts with the relocation's own numbers. */
  ghost predicate ItemMeans(group: seq<int>, addend: int, own: seq<int>, before: Relocation, r: Relocation)
    requires |group| >= 2 && |group| >= HeaderLength(group[1]) && |own| >= Width(group[1])
  {
    var n := group[1];
    && r.offset == before.offset + (if OneStride(n) then group[2] else own[0])
    && r.info == (if OneInfo(n) then group[2 + One(OneStride(n))] else own[One(!OneStride(n))])
    && r.addend == (if OneAddend(n) then addend + group[2 + One(OneStride(n)) + One(OneInfo(n))]
                    else if OwnAddend(n) then before.addend + own[One(!OneStride(n)) + One(!OneInfo(n))]
                    else 0)
  }

  /** The relocation ahead of item `i`: for the first, the last one of the group before. */
  function Before(last: Relocation, items: seq<Relocation>, i: nat): Relocation
    requires i <= |items|
  {
    if i == 0 then last else items[i - 1]
  }

  /** `items` is what a group of numbers means that starts at `c` and ends at `next`; `rests`
      says where each item's own numbers start, one behind the other. */
  ghost predicate GroupMeans(c: Cursor, next: Cursor, items: seq<Relocation>, rests: seq<seq<int>>) {
    && |c.rest| >= 2 && 0 <= c.rest[1] < 16 && |c.rest| >= HeaderLength(c.rest[1])
    && |items| == c.rest[0] > 0 && next.last == items[|items| - 1]
    && |rests| == |items| + 1
    && rests[0] == c.rest[HeaderLength(c.rest[1])..] && rests[|items|] == next.rest
    && forall i :: 0 <= i < |items| ==>
         && |rests[i]| >= Width(c.rest[1]) && rests[i + 1] == rests[i][Width(c.rest[1])..]
         && ItemMeans(c.rest, c.last.addend, rests[i], Before(c.last, items, i), items[i])
  }

  /** The decoder stands at `at` inside a group that started at `c`, behind `before`. */
  ghost predicate InsideGroup(c: Cursor, before: Relocation, at: Cursor)
    requires |c.rest| >= 2 && |c.rest| >= HeaderLength(c.rest[1])
  {
    var n := c.rest[1];
    && at.last.offset == before.offset
    && (OneInfo(n) ==> at.last.info == c.rest[2 + One(OneStride(n))])
    && at.last.addend == (if OneAddend(n) then c.last.addend + c.rest[2 + One(OneStride(n)) + One(OneInfo(n))]
                          else if OwnAddend(n) then before.addend else 0)
  }

  lemma HeaderMeans(c: Cursor, remaining: nat, h: Header)
    requires ReadHeader(c, remaining) == Some(h)
    ensures |c.rest| >= 2 && 0 <= c.rest[1] < 16 && |c.rest| >= HeaderLength(c.rest[1])
    ensures h.size == c.rest[0] && h.flags == FlagsOf(c.rest[1])
    ensures h.cursor.rest == c.rest[HeaderLength(c.rest[1])..] && InsideGroup(c, c.last, h.cursor)
    ensures OneStride(c.rest[1]) ==> h.offsetDelta == c.rest[2]
  {
    var n := c.rest[1];
    var delta := PopIf(c.rest[2..], OneStride(n), 0).value;
    assert delta.1 == c.rest[2 + One(OneStride(n))..];
    var info := PopIf(delta.1, OneInfo(n), c.last.info).value;
    assert info.1 == c.rest[2 + One(OneStride(n)) + One(OneInfo(n))..];
    var addend := PopIf(info.1, OneAddend(n), 0).value;
    assert addend.1 == c.rest[HeaderLength(n)..];
  }

  lemma ItemRead(c: Cursor, before: Relocation, at: Cursor, offsetDelta: int, next: Cursor)
    requires |c.rest| >= 2 && |c.rest| >= HeaderLength(c.rest[1]) && InsideGroup(c, before, at)
    requires OneStride(c.rest[1]) ==> offsetDelta == c.rest[2]
    requires ReadItem(at, FlagsOf(c.rest[1]), offsetDelta) == Some(next)
    ensures |at.rest| >= Width(c.rest[1]) && next.rest == at.rest[Width(c.rest[1])..]
    ensures ItemMeans(c.rest, c.last.addend, at.rest, before, next.last)
    ensures InsideGroup(c, next.last, next)
  {
    var n := c.rest[1];
    var delta := PopIf(at.rest, !OneStride(n), offsetDelta).value;
    assert delta.1 == at.rest[One(!OneStride(n))..];
    var info := PopIf(delta.1, !OneInfo(n), at.last.info).value;
    assert info.1 == at.rest[One(!OneStride(n)) + One(!OneInfo(n))..];
    var addend := PopIf(info.1, OwnAddend(n), 0).value;
    assert addend.1 == at.rest[Width(n)..];
  }

  /** The items of a group from `at` on. */
  ghost predicate ItemsMean(c: Cursor, before: Relocation, at: Cursor, next: Cursor, items: seq<Relocation>,
                            rests: seq<seq<int>>)
    requires |c.rest| >= 2 && |c.rest| >= HeaderLength(c.rest[1])
  {
    && |rests| == |items| + 1 && rests[0] == at.rest && rests[|items|] == next.rest
    && (items != [] ==> next.last == items[|items| - 1])
    && forall i :: 0 <= i < |items| ==>
         && |rests[i]| >= Width(c.rest[1]) && rests[i + 1] == rests[i][Width(c.rest[1])..]
         && ItemMeans(c.rest, c.last.addend, rests[i], Before(before, items, i), items[i])
  }

  lemma FirstItemMeans(c: Cursor, before: Relocation, at: Cursor, item: Cursor, next: Cursor,
                       items: seq<Relocation>, rests: seq<seq<int>>)
    requires |c.rest| >= 2 && |c.rest| >= HeaderLength(c.rest[1])
    requires |at.rest| >= Width(c.rest[1]) && item.rest == at.rest[Width(c.rest[1])..]
    requires ItemMeans(c.rest, c.last.addend, at.rest, before, item.last)
    requires ItemsMean(c, item.last, item, next, items, rests) && (items == [] ==> next == item)
    ensures ItemsMean(c, before, at, next, [item.last] + items, [at.rest] + rests)
  {
    var items', rests' := [item.last] + items, [at.rest] + rests;
    forall i | 0 <= i < |items'|
      ensures |rests'[i]| >= Width(c.rest[1]) && rests'[i + 1] == rests'[i][Width(c.rest[1])..]
      ensures ItemMeans(c.rest, c.last.addend, rests'[i], Before(before, items', i), items'[i])
    {
      if i > 0 {
        assert Before(before, items', i) == Before(item.last, items, i - 1);
      }
    }
  }

  lemma {:induction false} ItemsRead(c: Cursor, before: Relocation, at: Cursor, offsetDelta: int, count: nat,
                                     done: seq<Relocation>, next: Cursor, all: seq<Relocation>)
    returns (items: seq<Relocation>, rests: seq<seq<int>>)
    requires |c.rest| >= 2 && |c.rest| >= HeaderLength(c.rest[1]) && InsideGroup(c, before, at)
    requires OneStride(c.rest[1]) ==> offsetDelta == c.rest[2]
    requires ReadItems(at, FlagsOf(c.rest[1]), offsetDelta, count, done) == Some((next, all))
    ensures all == done + items && |items| == count && (count == 0 ==> next == at)
    ensures ItemsMean(c, before, at, next, items, rests)
    decreases count
  {
    if count == 0 {
      items, rests := [], [at.rest];
    } else {
      var item := NextItem(at, FlagsOf(c.rest[1]), offsetDelta, count, done, next, all);
      ItemRead(c, before, at, offsetDelta, item);
      var later, behind := ItemsRead(c, item.last, item, offsetDelta, count - 1, done + [item.last], next, all);
      FirstItemMeans(c, before, at, item, next, later, behind);
      Concat(done, [item.last], later);
      items, rests := [item.last] + later, [at.rest] + behind;
    }
  }

  lemma NextItem(at: Cursor, flags: Flags, offsetDelta: int, count: nat, done: seq<Relocation>,
                 next: Cursor, all: seq<Relocation>) returns (item: Cursor)
    requires count > 0 && ReadItems(at, flags, offsetDelta, count, done) == Some((next, all))
    ensures ReadItem(at, flags, offsetDelta) == Some(item)
    ensures ReadItems(item, flags, offsetDelta, count - 1, done + [item.last]) == Some((next, all))
  {
    item := ReadItem(at, flags, offsetDelta).value;
  }

  /** An accepted group means what its own numbers say. */
  lemma AcceptedGroupMeans(c: Cursor, remaining: nat, done: seq<Relocation>, next: Cursor, size: int,
                           all: seq<Relocation>) returns (items: seq<Relocation>, rests: seq<seq<int>>)
    requires ReadGroup(c, remaining, done) == Some((next, size, all))
    ensures all == done + items && |items| == size && GroupMeans(c, next, items, rests)
  {
    var h := ReadHeader(c, remaining).value;
    HeaderMeans(c, remaining, h);
    items, rests := ItemsRead(c, c.last, h.cursor, h.offsetDelta, h.size, done, next, all);
  }

  // ---------------------------------------------------------------- a whole stream

  /** One group of a stream: where it starts and ends, and the relocations it stands for. */
  datatype Piece = Piece(from: Cursor, next: Cursor, items: seq<Relocation>, rests: seq<seq<int>>)

  function AllPieces(pieces: seq<Piece>): (items: seq<Relocation>) {
    if pieces == [] then [] else pieces[0].items + AllPieces(pieces[1..])
  }

  /** The pieces are groups that follow one another from `c` to `end`. */
  ghost predicate PiecesMean(c: Cursor, pieces: seq<Piece>, end: Cursor) {
    && (if pieces == [] then end == c else pieces[0].from == c && pieces[|pieces| - 1].next == end)
    && (forall k :: 0 <= k < |pieces| ==>
          GroupMeans(pieces[k].from, pieces[k].next, pieces[k].items, pieces[k].rests))
    && (forall k :: 0 < k < |pieces| ==> pieces[k].from == pieces[k - 1].next)
  }

  lemma FirstPiece(c: Cursor, first: Piece, later: seq<Piece>, end: Cursor)
    requires first.from == c && GroupMeans(first.from, first.next, first.items, first.rests)
    requires PiecesMean(first.next, later, end)
    ensures PiecesMean(c, [first] + later, end)
    ensures AllPieces([first] + later) == first.items + AllPieces(later)
  {
    var pieces := [first] + later;
    assert pieces[1..] == later;
    forall k | 0 < k < |pieces|
      ensures pieces[k].from == pieces[k - 1].next
    {
      assert k > 1 ==> pieces[k] == later[k - 1] && pieces[k - 1] == later[k - 2];
    }
  }

  lemma {:induction false} AcceptedGroupsMean(c: Cursor, clean: bool, remaining: nat, done: seq<Relocation>,
                                              result: seq<Relocation>) returns (pieces: seq<Piece>, end: Cursor)
    requires ReadGroups(c, clean, remaining, done) == Some(result)
    ensures PiecesMean(c, pieces, end) && end.rest == [] && clean
    ensures result == done + AllPieces(pieces) && |AllPieces(pieces)| == remaining
    decreases remaining
  {
    if remaining == 0 {
      pieces, end := [], c;
    } else {
      var (next, size, all) := ReadGroup(c, remaining, done).value;
      var items, rests := AcceptedGroupMeans(c, remaining, done, next, size, all);
      var left := remaining - size;
      AfterGroup(c, clean, remaining, done, next, left, all);
      pieces, end := AcceptedGroupsMean(next, clean, left, all, result);
      var first := Piece(c, next, items, rests);
      FirstPiece(c, first, pieces, end);
      Concat(done, items, AllPieces(pieces));
      pieces := [first] + pieces;
    }
  }

  lemma Concat(a: seq<Relocation>, b: seq<Relocation>, c: seq<Relocation>)
    ensures a + b + c == a + (b + c)
  {
  }

  /** Whatever the decoder accepts starts with the bytes A, P, S and 2; the numbers behind them
      are the length of the result, the offset the first delta is taken from, and one group
      after another to the very end, each meaning what its own numbers say. */
  lemma AcceptedStreamMeans(encoded: seq<Byte>, result: seq<Relocation>)
    returns (numbers: seq<int>, pieces: seq<Piece>, end: Cursor)
    requires Decode(encoded) == Some(result)
    ensures |encoded| >= 4 && encoded[..4] == [0x41, 0x50, 0x53, 0x32]
    ensures StreamAt(encoded[4..], 0) == Stream(numbers, true)
    ensures |numbers| >= 2 && numbers[0] == |result|
    ensures PiecesMean(Cursor(numbers[2..], Relocation(numbers[1], 0, 0)), pieces, end) && end.rest == []
    ensures result == AllPieces(pieces)
  {
    var s := StreamAt(encoded[4..], 0);
    numbers := s.numbers;
    var start := Cursor(numbers[2..], Relocation(numbers[1], 0, 0));
    pieces, end := AcceptedGroupsMean(start, s.clean, numbers[0], [], result);
    assert [] + AllPieces(pieces) == AllPieces(pieces);
  }

  // ---------------------------------------------------------------- concrete streams

  /** SLEB128 examples: a byte of seven value bits, lowest group first, sign in the last. */
  lemma EncodedExamples()
    ensures Encode(2) == [2] && Encode(-2) == [0x7e]
    ensures Encode(127) == [0xff, 0] && Encode(-127) == [0x81, 0x7f]
    ensures Encode(128) == [0x80, 1] && Encode(-128) == [0x80, 0x7f]
    ensures Encode(129) == [0x81, 1] && Encode(-129) == [0xff, 0x7e]
    ensures Encode(0x1000) == [0x80, 0x20] && Encode(0x2000) == [0x80, 0xc0, 0]
  {
    assert Encode(0x2000 / 128) == [0xc0] + Encode(0);
  }

  /** Decoding the bytes of a list of numbers is reading the numbers. */
  lemma DecodedNumbers(encoded: seq<Byte>, body: seq<Byte>, numbers: seq<int>)
    requires encoded == MAGIC + body && body == EncodeNumbers(numbers) && Poppable(numbers)
    ensures Decode(encoded) == DecodeStream(Stream(numbers, true))
  {
    assert encoded[4..] == body && body[0..] == body;
    StreamInverts(body, 0, numbers);
  }

  /** One relocation with a shared info (flags 9): offset 0x1000 + 16, info 8, addend 0x2000. */
  lemma DecodedExample(encoded: seq<Byte>)
    requires encoded == [0x41, 0x50, 0x53, 0x32, 1, 0x80, 0x20, 1, 9, 8, 16, 0x80, 0xc0, 0]
    ensures Decode(encoded) == Some([Relocation(0x1010, 8, 0x2000)])
  {
    var numbers := [1, 0x1000, 1, 9, 8, 16, 0x2000];
    var body := encoded[4..];
    ExampleBytes(numbers, body);
    DecodedNumbers(encoded, body, numbers);
    ExampleNumbers(numbers);
  }

  lemma ExampleNumbers(numbers: seq<int>)
    requires numbers == [1, 0x1000, 1, 9, 8, 16, 0x2000]
    ensures DecodeStream(Stream(numbers, true)) == Some([Relocation(0x1010, 8, 0x2000)])
  {
    assert numbers[2..] == [1, 9, 8, 16, 0x2000];
    var c := Cursor([1, 9, 8, 16, 0x2000], Relocation(0x1000, 0, 0));
    assert ReadHeader(c, 1) == Some(Header(Cursor([16, 0x2000], Relocation(0x1000, 8, 0)), 1, FlagsOf(9), 0));
    var item := Cursor([], Relocation(0x1010, 8, 0x2000));
    assert [16, 0x2000][1..] == [0x2000] && [0x2000][1..] == [];
    assert ReadItem(Cursor([16, 0x2000], Relocation(0x1000, 8, 0)), FlagsOf(9), 0) == Some(item);
    assert ReadItems(item, FlagsOf(9), 0, 0, [item.last]) == Some((item, [item.last]));
    assert [] + [item.last] == [item.last];
    assert ReadItems(Cursor([16, 0x2000], Relocation(0x1000, 8, 0)), FlagsOf(9), 0, 1, []) == Some((item, [item.last]));
    assert ReadGroup(c, 1, []) == Some((item, 1, [item.last]));
    AfterGroup(c, true, 1, [], item, 0, [item.last]);
  }

  lemma ExampleBytes(numbers: seq<int>, body: seq<Byte>)
    requires numbers == [1, 0x1000, 1, 9, 8, 16, 0x2000]
    requires body == [1, 0x80, 0x20, 1, 9, 8, 16, 0x80, 0xc0, 0]
    ensures EncodeNumbers(numbers) == body
  {
    EncodedExamples();
    assert numbers[6..] == [0x2000] && EncodeNumbers(numbers[6..]) == [0x80, 0xc0, 0];
    assert numbers[5..][1..] == numbers[6..] && EncodeNumbers(numbers[5..]) == [16, 0x80, 0xc0, 0];
    assert numbers[4..][1..] == numbers[5..] && EncodeNumbers(numbers[4..]) == [8, 16, 0x80, 0xc0, 0];
    assert numbers[3..][1..] == numbers[4..] && EncodeNumbers(numbers[3..]) == [9, 8, 16, 0x80, 0xc0, 0];
    assert numbers[2..][1..] == numbers[3..] && EncodeNumbers(numbers[2..]) == [1, 9, 8, 16, 0x80, 0xc0, 0];
    assert numbers[1..][1..] == numbers[2..];
  }
}
