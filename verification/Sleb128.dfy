/** Signed LEB128 numbers (section 7.6 of DWARF Version 5) as the relocation reader pops them. */
module Sleb128 {
  import opened Basics

  const TWO_62 := 0x4000_0000_0000_0000
  const TWO_63 := 0x8000_0000_0000_0000
  const TWO_64 := 0x1_0000_0000_0000_0000

  /** 2 to the 7k. */
  function Power128(k: nat): (p: nat)
    ensures p >= 1
  {
    if k == 0 then 1 else 128 * Power128(k - 1)
  }

  /** What one number's bytes amount to: the unsigned value of their seven-bit groups, how
      many there are, and the sign bit of the last one. */
  datatype Groups = Groups(value: int, count: nat, negative: bool)

  /** Continues reading a number of which `count` groups, worth `value`, are already read.
      A number ends at the first byte without the continuation bit and has ten at most. */
  function Scan(encoded: seq<Byte>, position: nat, count: nat, value: int): (r: Option<Groups>)
    requires position <= |encoded| && count <= 10
    ensures r.Some? ==> count < r.value.count <= 10 && position + r.value.count - count <= |encoded|
    decreases 10 - count
  {
    if position == |encoded| || count == 10 then None
    else
      var byte := encoded[position];
      var read := value + byte % 128 * Power128(count);
      if byte < 128 then Some(Groups(read, count + 1, byte >= 64))
      else Scan(encoded, position + 1, count + 1, read)
  }

  /** One more byte of a number. */
  lemma ScanByte(encoded: seq<Byte>, position: nat, count: nat, value: int, scale: int, read: int)
    requires position < |encoded| && count < 10 && scale == Power128(count)
    requires read == value + encoded[position] % 128 * scale
    ensures Power128(count + 1) == 128 * scale
    ensures Scan(encoded, position, count, value) ==
            if encoded[position] < 128 then Some(Groups(read, count + 1, encoded[position] >= 64))
            else Scan(encoded, position + 1, count + 1, read)
  {
  }

  /** The number at `position` and where the next one starts.  Only numbers shorter than ten
      bytes are sign-extended. */
  function PopAt(encoded: seq<Byte>, position: nat): (r: Option<(int, nat)>)
    requires position <= |encoded|
    ensures r.Some? ==> position < r.value.1 <= |encoded| && -TWO_63 <= r.value.0 < TWO_64
  {
    var groups := Scan(encoded, position, 0, 0);
    if groups.None? then None
    else
      var g := groups.value;
      var value := if 7 * g.count < 64 && g.negative then g.value - Power128(g.count) else g.value;
      if -TWO_63 <= value < TWO_64 then Some((value, position + g.count)) else None
  }

  /** The numbers popped one after another, and whether the last one ends the bytes exactly. */
  datatype Stream = Stream(numbers: seq<int>, clean: bool)

  function StreamAt(encoded: seq<Byte>, position: nat): (s: Stream)
    requires position <= |encoded|
    decreases |encoded| - position
  {
    if position == |encoded| then Stream([], true)
    else
      var popped := PopAt(encoded, position);
      if popped.None? then Stream([], false)
      else
        var rest := StreamAt(encoded, popped.value.1);
        Stream([popped.value.0] + rest.numbers, rest.clean)
  }

  class Reader {
    const encoded: seq<Byte>
    var position: nat
    /** What is still to be popped. */
    ghost var left: Stream

    ghost predicate Valid()
      reads this
    {
      // The bound variable keeps a field read out of `StreamAt`'s arguments, so that the
      // verifier unfolds it only where a method names the position.
      && position <= |encoded|
      && forall p: nat | p == position :: left == StreamAt(encoded, p)
    }

    constructor (encoded: seq<Byte>)
      ensures this.encoded == encoded && position == 0 && Valid()
      ensures left == StreamAt(encoded, 0)
    {
      this.encoded := encoded;
      position := 0;
      left := StreamAt(encoded, 0);
    }

    /** Reads bytes up to one without the continuation bit, ten at most. */
    method ReadGroups() returns (r: Option<Groups>)
      requires position <= |encoded|
      modifies `position
      ensures position <= |encoded| && r == Scan(encoded, old(position), 0, 0)
      ensures r.Some? ==> position == old(position) + r.value.count
    {
      var value, count, shift, scale := 0, 0, 0, 1;
      while true
        invariant position == old(position) + count <= |encoded|
        invariant count <= 10 && shift == 7 * count && scale == Power128(count)
        invariant Scan(encoded, position, count, value) == Scan(encoded, old(position), 0, 0)
        decreases 70 - shift
      {
        if position >= |encoded| || shift >= 70 {
          return None;
        }
        var byte: int := encoded[position];
        position := position + 1;
        ghost var before := value;
        value := value + byte % 128 * scale;
        ScanByte(encoded, position - 1, count, before, scale, value);
        count, shift, scale := count + 1, shift + 7, 128 * scale;
        if byte < 128 {
          return Some(Groups(value, count, byte >= 64));
        }
      }
    }

    method Pop() returns (r: Option<int>)
      requires Valid()
      modifies `position, `left
      ensures r.Some? ==> Valid()
      ensures r.None? <==> old(left).numbers == []
      ensures r.Some? ==> old(left) == Stream([r.value] + left.numbers, left.clean)
    {
      ghost var popped := PopAt(encoded, position);
      assert left == StreamAt(encoded, position);
      var groups := ReadGroups();
      if groups.None? {
        return None;
      }
      var g := groups.value;
      var value := g.value;
      if 7 * g.count < 64 && g.negative {
        value := value - Power128(g.count);
      }
      if !(-TWO_63 <= value < TWO_64) {
        return None;
      }
      left := StreamAt(encoded, position);
      return Some(value);
    }

    method AtEnd() returns (r: bool)
      requires Valid()
      ensures r <==> left == Stream([], true)
    {
      assert left == StreamAt(encoded, position);
      r := position == |encoded|;
    }
  }

  // ---------------------------------------------------------------- encoding

  /** The shortest SLEB128 form of `v`. */
  function Encode(v: int): (bytes: seq<Byte>)
    ensures bytes != []
    decreases if v < 0 then -v else v
  {
    if -64 <= v < 64 then [v % 128] else [128 + v % 128] + Encode(v / 128)
  }

  /** The groups of a number's shortest form, read as unsigned: off by the sign extension. */
  ghost function Unsigned(v: int): int {
    if v < 0 then v + Power128(|Encode(v)|) else v
  }

  lemma UnsignedStep(v: int)
    requires !(-64 <= v < 64)
    ensures Unsigned(v) == v % 128 + 128 * Unsigned(v / 128)
  {
  }

  /** Moving the lowest group of a number into what is already read. */
  lemma MoveGroup(v: int, count: nat, read: int, total: int)
    requires !(-64 <= v < 64) && total == read + Power128(count) * Unsigned(v)
    ensures total == read + v % 128 * Power128(count) + Power128(count + 1) * Unsigned(v / 128)
  {
    UnsignedStep(v);
    Distribute(Power128(count), v % 128, Unsigned(v / 128));
  }

  lemma Distribute(p: int, digit: int, rest: int)
    ensures p * (digit + 128 * rest) == digit * p + 128 * p * rest
  {
  }

  /** `bytes` holds the shortest form of `v` at `position`. */
  predicate Holds(bytes: seq<Byte>, position: nat, v: int) {
    position <= |bytes| && Encode(v) <= bytes[position..]
  }

  lemma HoldsStep(bytes: seq<Byte>, position: nat, v: int)
    requires Holds(bytes, position, v)
    ensures position < |bytes| && bytes[position] == Encode(v)[0]
    ensures !(-64 <= v < 64) ==> Holds(bytes, position + 1, v / 128)
  {
    assert bytes[position..][0] == Encode(v)[0];
    if !(-64 <= v < 64) {
      assert Encode(v)[1..] == Encode(v / 128);
      assert bytes[position + 1..] == bytes[position..][1..];
    }
  }

  /** Scanning an encoded number reads exactly its bytes and finds its unsigned value. */
  lemma {:induction false} ScanEncoded(bytes: seq<Byte>, position: nat, v: int, count: nat, read: int, total: int)
    requires Holds(bytes, position, v) && count + |Encode(v)| <= 10
    requires total == read + Power128(count) * Unsigned(v)
    ensures Scan(bytes, position, count, read) == Some(Groups(total, count + |Encode(v)|, v < 0))
    decreases if v < 0 then -v else v
  {
    HoldsStep(bytes, position, v);
    if -64 <= v < 64 {
      ScanEnds(bytes, position, v, count, read, total);
    } else {
      var scale := Power128(count);
      var read' := read + v % 128 * scale;
      ScanByte(bytes, position, count, read, scale, read');
      MoveGroup(v, count, read, total);
      ScanEncoded(bytes, position + 1, v / 128, count + 1, read', total);
    }
  }

  lemma ScanEnds(bytes: seq<Byte>, position: nat, v: int, count: nat, read: int, total: int)
    requires position < |bytes| && count < 10
    requires -64 <= v < 64 && bytes[position] == v % 128
    requires total == read + Power128(count) * Unsigned(v)
    ensures Scan(bytes, position, count, read) == Some(Groups(total, count + 1, v < 0))
  {
    assert Power128(1) == 128 * Power128(0) == 128;
    assert Unsigned(v) == v % 128;
    ScanByte(bytes, position, count, read, Power128(count), total);
  }

  /** How long the shortest form is. */
  lemma {:induction false} EncodedLength(v: int, k: nat)
    requires k >= 1
    ensures |Encode(v)| <= k <==> -64 * Power128(k - 1) <= v < 64 * Power128(k - 1)
    decreases k
  {
    if k > 1 {
      EncodedLength(v / 128, k - 1);
      assert 64 * Power128(k - 1) == 128 * (64 * Power128(k - 2));
    }
  }

  lemma PowersOfInterest()
    ensures Power128(8) == 0x100_0000_0000_0000 && Power128(9) == TWO_63
    ensures Power128(10) == 0x40_0000_0000_0000_0000
  {
    assert Power128(2) == 128 * Power128(1) == 128 * 128;
    assert Power128(4) == 128 * Power128(3) == 128 * 128 * Power128(2);
    assert Power128(6) == 128 * Power128(5) == 128 * 128 * Power128(4);
    assert Power128(8) == 128 * Power128(7) == 128 * 128 * Power128(6);
    assert Power128(10) == 128 * Power128(9) == 128 * 128 * Power128(8);
  }

  /** The shortest form has at most nine bytes from -2^62 up to 2^62, and at most ten from
      -2^69 up to 2^69. */
  lemma EncodedLengthBounds(v: int) returns (count: nat)
    ensures count == |Encode(v)| && 1 <= count
    ensures count <= 9 <==> -TWO_62 <= v < TWO_62
    ensures count <= 10 <==> -0x20_0000_0000_0000_0000 <= v < 0x20_0000_0000_0000_0000
  {
    count := |Encode(v)|;
    PowersOfInterest();
    EncodedLength(v, 9);
    EncodedLength(v, 10);
  }

  lemma ScanWhole(bytes: seq<Byte>, position: nat, v: int)
    requires Holds(bytes, position, v) && |Encode(v)| <= 10
    ensures Scan(bytes, position, 0, 0) ==
            Some(Groups(if v < 0 then v + Power128(|Encode(v)|) else v, |Encode(v)|, v < 0))
  {
    assert Power128(0) == 1;
    ScanEncoded(bytes, position, v, 0, 0, Unsigned(v));
  }

  /** A number of more than ten bytes is not read. */
  lemma {:induction false} ScanTooLong(bytes: seq<Byte>, position: nat, v: int, count: nat, read: int)
    requires Holds(bytes, position, v) && count <= 10 < count + |Encode(v)|
    ensures Scan(bytes, position, count, read) == None
    decreases 10 - count
  {
    if count < 10 {
      HoldsStep(bytes, position, v);
      var scale := Power128(count);
      var read' := read + bytes[position] % 128 * scale;
      ScanByte(bytes, position, count, read, scale, read');
      ScanTooLong(bytes, position + 1, v / 128, count + 1, read');
    }
  }

  lemma PopScanned(encoded: seq<Byte>, position: nat, v: int, count: nat)
    requires position <= |encoded|
    requires Scan(encoded, position, 0, 0) ==
             Some(Groups(if v < 0 then v + Power128(count) else v, count, v < 0))
    requires count <= 10 && -0x20_0000_0000_0000_0000 <= v < 0x20_0000_0000_0000_0000
    requires count <= 9 <==> -TWO_62 <= v < TWO_62
    ensures PopAt(encoded, position) == if -TWO_62 <= v < TWO_64 then Some((v, position + count)) else None
  {
    if v < -TWO_62 {
      PowersOfInterest();
    }
  }

  /** Popping the shortest form of a number, anywhere in a stream, gives the number back and
      stops right behind it exactly when the number is in [-2^62, 2^64).  Below that, a form of
      ten bytes is not sign-extended and is refused, like every longer one. */
  lemma PopEncoded(v: int, before: seq<Byte>, after: seq<Byte>)
    ensures PopAt(before + Encode(v) + after, |before|) ==
            if -TWO_62 <= v < TWO_64 then Some((v, |before| + |Encode(v)|)) else None
  {
    var encoded := before + Encode(v) + after;
    assert encoded[|before|..] == Encode(v) + after;
    PopHolds(encoded, |before|, v);
  }

  lemma PopHolds(bytes: seq<Byte>, position: nat, v: int)
    requires Holds(bytes, position, v)
    ensures PopAt(bytes, position) == if -TWO_62 <= v < TWO_64 then Some((v, position + |Encode(v)|)) else None
  {
    var count := EncodedLengthBounds(v);
    if count <= 10 {
      ScanWhole(bytes, position, v);
      PopScanned(bytes, position, v, count);
    } else {
      ScanTooLong(bytes, position, v, 0, 0);
    }
  }

  /** A list of numbers, each in its shortest form. */
  function EncodeNumbers(numbers: seq<int>): seq<Byte> {
    if numbers == [] then [] else Encode(numbers[0]) + EncodeNumbers(numbers[1..])
  }

  /** The numbers whose shortest form can be popped back. */
  ghost predicate Poppable(numbers: seq<int>) {
    forall i :: 0 <= i < |numbers| ==> -TWO_62 <= numbers[i] < TWO_64
  }

  lemma StreamStep(encoded: seq<Byte>, position: nat, number: int, next: nat)
    requires position < |encoded| && PopAt(encoded, position) == Some((number, next))
    ensures var rest := StreamAt(encoded, next);
            StreamAt(encoded, position) == Stream([number] + rest.numbers, rest.clean)
  {
  }

  lemma PopHeld(encoded: seq<Byte>, position: nat, v: int, next: nat)
    requires position <= next <= |encoded| && encoded[position..next] == Encode(v)
    ensures PopAt(encoded, position) == if -TWO_62 <= v < TWO_64 then Some((v, next)) else None
  {
    assert encoded[position..] == encoded[position..next] + encoded[next..];
    PopHolds(encoded, position, v);
  }

  /** Splits an encoded list behind its first number. */
  lemma FirstHeld(encoded: seq<Byte>, position: nat, numbers: seq<int>) returns (next: nat)
    requires position <= |encoded| && encoded[position..] == EncodeNumbers(numbers) && numbers != []
    ensures position < next <= |encoded|
    ensures encoded[position..next] == Encode(numbers[0])
    ensures encoded[next..] == EncodeNumbers(numbers[1..])
  {
    var first := Encode(numbers[0]);
    next := position + |first|;
    assert encoded[position..] == first + EncodeNumbers(numbers[1..]);
    assert encoded[position..next] == encoded[position..][..|first|];
    assert encoded[next..] == encoded[position..][|first|..];
  }

  /** Popping an encoded list gives the list back and ends with the bytes, exactly when every
      number of it can be popped; otherwise popping fails before the end. */
  lemma {:induction false} StreamInverts(encoded: seq<Byte>, position: nat, numbers: seq<int>)
    requires position <= |encoded| && encoded[position..] == EncodeNumbers(numbers)
    ensures Poppable(numbers) ==> StreamAt(encoded, position) == Stream(numbers, true)
    ensures !Poppable(numbers) ==> !StreamAt(encoded, position).clean
    decreases |numbers|
  {
    if numbers != [] {
      var next := FirstHeld(encoded, position, numbers);
      PopHeld(encoded, position, numbers[0], next);
      PoppableRest(numbers);
      if -TWO_62 <= numbers[0] < TWO_64 {
        StreamInverts(encoded, next, numbers[1..]);
        StreamStep(encoded, position, numbers[0], next);
      }
    }
  }

  lemma PoppableRest(numbers: seq<int>)
    requires numbers != []
    ensures Poppable(numbers) <==> -TWO_62 <= numbers[0] < TWO_64 && Poppable(numbers[1..])
  {
    if Poppable(numbers[1..]) {
      assert forall i :: 0 < i < |numbers| ==> numbers[i] == numbers[1..][i - 1];
    }
  }

  // ---------------------------------------------------------------- any bytes at all

  /** The value of seven-bit digits, lowest first. */
  function ValueOf(digits: seq<int>): int {
    if digits == [] then 0 else digits[0] + 128 * ValueOf(digits[1..])
  }

  /** At `position` stand these digits: all but the last with the continuation bit. */
  ghost predicate Stand(encoded: seq<Byte>, position: nat, digits: seq<int>) {
    && digits != [] && position + |digits| <= |encoded|
    && (forall i :: 0 <= i < |digits| ==> 0 <= digits[i] < 128)
    && (forall i :: 0 <= i < |digits| - 1 ==> encoded[position + i] == 128 + digits[i])
    && encoded[position + |digits| - 1] == digits[|digits| - 1]
  }

  lemma StandRest(encoded: seq<Byte>, position: nat, digits: seq<int>)
    requires Stand(encoded, position, digits) && |digits| > 1
    ensures Stand(encoded, position + 1, digits[1..])
  {
    var next := position + 1;
    forall i | 0 <= i < |digits| - 2
      ensures encoded[next + i] == 128 + digits[1..][i]
    {
      assert encoded[position + (i + 1)] == 128 + digits[i + 1];
    }
  }

  lemma {:induction false} ScanDigits(encoded: seq<Byte>, position: nat, digits: seq<int>, count: nat, read: int, total: int)
    requires Stand(encoded, position, digits) && count + |digits| <= 10
    requires total == read + Power128(count) * ValueOf(digits)
    ensures Scan(encoded, position, count, read) ==
            Some(Groups(total, count + |digits|, digits[|digits| - 1] >= 64))
    decreases |digits|
  {
    var scale, digit, rest := Power128(count), digits[0], digits[1..];
    var read' := read + digit * scale;
    Distribute(scale, digit, ValueOf(rest));
    if |digits| == 1 {
      assert ValueOf(rest) == 0;
      assert encoded[position] == digit;
      ScanByte(encoded, position, count, read, scale, read');
    } else {
      assert encoded[position] == 128 + digit;
      ScanByte(encoded, position, count, read, scale, read');
      StandRest(encoded, position, digits);
      ScanDigits(encoded, position + 1, rest, count + 1, read', total);
    }
  }

  /** Up to ten digits pop as their value; with fewer than ten, a last digit from 64 on makes
      it negative.  A value outside [-2^63, 2^64) is refused. */
  lemma DigitsPop(encoded: seq<Byte>, position: nat, digits: seq<int>)
    requires Stand(encoded, position, digits) && |digits| <= 10
    ensures var unsigned, n := ValueOf(digits), |digits|;
            var value := if n < 10 && digits[n - 1] >= 64 then unsigned - Power128(n) else unsigned;
            PopAt(encoded, position) == if -TWO_63 <= value < TWO_64 then Some((value, position + n)) else None
  {
    assert Power128(0) == 1;
    ScanDigits(encoded, position, digits, 0, 0, ValueOf(digits));
  }

  lemma {:induction false} UnendedScan(encoded: seq<Byte>, position: nat, count: nat, read: int)
    requires position <= |encoded| && count <= 10
    requires forall i :: position <= i < |encoded| && i < position + 10 - count ==> encoded[i] >= 128
    ensures Scan(encoded, position, count, read) == None
    decreases 10 - count
  {
    if position < |encoded| && count < 10 {
      assert encoded[position] >= 128;
      UnendedScan(encoded, position + 1, count + 1, read + encoded[position] % 128 * Power128(count));
    }
  }

  /** Bytes that do not end a number, within ten and before they run out, are refused. */
  lemma UnendedRefused(encoded: seq<Byte>, position: nat)
    requires position <= |encoded|
    requires forall i :: position <= i < |encoded| && i < position + 10 ==> encoded[i] >= 128
    ensures PopAt(encoded, position) == None
  {
    UnendedScan(encoded, position, 0, 0);
  }
}
