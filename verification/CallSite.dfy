/**
 Finding the getter call in AArch64 code: exactly one window of four instructions that
 loads a stack slot address, calls, reloads the slot and follows the returned holder.
 */
module CallSite {
  import opened Basics

  const SCAN_BYTES := 128
  const TWO_64 := 0x1_0000_0000_0000_0000
  const TWO_26 := 0x400_0000
  const TWO_25 := 0x200_0000

  /** Instructions are little-endian words. */
  function Word(code: seq<Byte>, index: nat): (w: int)
    requires 4 * index + 4 <= |code|
    ensures 0 <= w < 0x1_0000_0000
  {
    code[4 * index] as int + 0x100 * (code[4 * index + 1] as int)
    + 0x1_0000 * (code[4 * index + 2] as int) + 0x100_0000 * (code[4 * index + 3] as int)
  }

  /** add x8, sp, #slot: bits 22 to 31 and 0 to 9 are fixed. */
  predicate IsSlotAddress(w: int) {
    w / 0x40_0000 == 0x244 && w % 0x400 == 0x3e8
  }

  /** bl: the top six bits are fixed. */
  predicate IsCall(w: int) {
    w / TWO_26 == 0x25
  }

  /** ldr xN, [sp, #slot]: bits 22 to 31 and 5 to 9 are fixed. */
  predicate IsStackLoad(w: int) {
    w / 0x40_0000 == 0x3e5 && w / 0x20 % 0x20 == 0x1f
  }

  function Immediate12(w: int): int {
    w / 0x400 % 0x1000
  }

  /** ldr x8, [xN, #0x18] */
  function HolderLoad(register: int): int {
    0xf940_0c08 + 0x20 * register
  }

  /** The four words starting at `index` are the call site. */
  predicate IsSite(code: seq<Byte>, index: nat)
    requires 4 * (index + 4) <= |code|
  {
    var load := Word(code, index + 2);
    && IsSlotAddress(Word(code, index)) && IsCall(Word(code, index + 1)) && IsStackLoad(load)
    && Immediate12(load) * 8 == Immediate12(Word(code, index))
    && Word(code, index + 3) == HolderLoad(load % 0x20)
  }

  function ScannedWords(code: seq<Byte>): (n: nat)
    ensures 4 * n <= |code| && n <= SCAN_BYTES / 4
  {
    (if |code| < SCAN_BYTES then |code| else SCAN_BYTES) / 4
  }

  /** A call site among the scanned words. */
  predicate SiteAt(code: seq<Byte>, index: nat) {
    index + 4 <= ScannedWords(code) && IsSite(code, index)
  }

  function Signed26(imm: int): int {
    if imm >= TWO_25 then imm - TWO_26 else imm
  }

  /** The branch target: the bl address plus its signed word offset times four. */
  function Target(code: seq<Byte>, address: int, index: nat): int
    requires 4 * (index + 2) <= |code|
  {
    (address + 4 * (index + 1) + 4 * Signed26(Word(code, index + 1) % TWO_26)) % TWO_64
  }

  /** Which of the scanned positions are call sites. */
  ghost function Sites(code: seq<Byte>): (sites: seq<bool>)
    ensures |sites| == if ScannedWords(code) < 4 then 0 else ScannedWords(code) - 3
    ensures forall i: nat :: i < |sites| ==> sites[i] == IsSite(code, i)
    ensures forall i: nat :: SiteAt(code, i) <==> i < |sites| && sites[i]
  {
    seq(if ScannedWords(code) < 4 then 0 else ScannedWords(code) - 3,
        i requires 0 <= i && i + 4 <= ScannedWords(code) => IsSite(code, i))
  }

  method FindGetterCall(code: seq<Byte>, address: int) returns (r: Option<int>)
    ensures r.Some? <==> exists i: nat :: i < |Sites(code)| && OnlyAt(Sites(code), i)
    ensures forall i: nat :: r.Some? && i < |Sites(code)| && OnlyAt(Sites(code), i) ==>
              r.value == Target(code, address, i)
  {
    ghost var sites := Sites(code);
    var words := ScannedWords(code);
    var getter: Option<int> := None;
    ghost var first: nat := 0;
    for index := 0 to if words < 4 then 0 else words - 3
      invariant getter.Some? ==> first < index && sites[first] && getter.value == Target(code, address, first)
      invariant forall j: nat :: j < index && sites[j] ==> getter.Some? && j == first
    {
      var found := IsSite(code, index);
      assert sites[index] == found;
      if found {
        if getter.Some? {
          return None;
        }
        getter, first := Some(Target(code, address, index)), index;
      }
    }
    if getter.Some? {
      assert OnlyAt(sites, first);
    }
    return getter;
  }

  ghost predicate OnlyAt(sites: seq<bool>, i: nat)
    requires i < |sites|
  {
    sites[i] && forall j: nat :: j < |sites| && sites[j] ==> j == i
  }

  /** Matching windows never overlap: no instruction of one fits another place of it. */
  lemma SitesDoNotOverlap(code: seq<Byte>, i: nat, j: nat)
    requires SiteAt(code, i) && SiteAt(code, j) && i < j
    ensures j >= i + 4
  {
    CallIsNoSlotAddress(Word(code, i + 1));
    HolderLoadIsNoSlotAddress(Word(code, i + 2) % 0x20);
    assert !IsSlotAddress(Word(code, i + 1)) && !IsSlotAddress(Word(code, i + 2)) && !IsSlotAddress(Word(code, i + 3));
  }

  lemma CallIsNoSlotAddress(w: int)
    requires IsCall(w)
    ensures !IsSlotAddress(w)
  {
    assert w >= 0x25 * TWO_26;
  }

  lemma HolderLoadIsNoSlotAddress(register: int)
    requires 0 <= register < 0x20
    ensures !IsSlotAddress(HolderLoad(register))
  {
    assert HolderLoad(register) >= 0xf940_0000;
  }

  // ---------------------------------------------------------------- inverting the encoding

  /** The bl instruction that branches `words` instructions away. */
  function EncodeCall(words: int): (w: int)
    requires -TWO_25 <= words < TWO_25
    ensures 0 <= w < 0x1_0000_0000
  {
    0x9400_0000 + (if words < 0 then words + TWO_26 else words)
  }

  /** Decoding a call's offset inverts encoding it. */
  lemma CallRoundTrip(words: int)
    requires -TWO_25 <= words < TWO_25
    ensures IsCall(EncodeCall(words)) && Signed26(EncodeCall(words) % TWO_26) == words
  {
    var imm := if words < 0 then words + TWO_26 else words;
    assert EncodeCall(words) == 0x25 * TWO_26 + imm;
  }

  /** A found call encoded for a getter within reach of its bl gives that getter's address. */
  lemma TargetInvertsCall(code: seq<Byte>, address: int, index: nat, getter: int)
    requires 4 * (index + 2) <= |code| && 0 <= getter < TWO_64
    requires (getter - (address + 4 * (index + 1))) % 4 == 0
    requires -TWO_25 <= (getter - (address + 4 * (index + 1))) / 4 < TWO_25
    requires Word(code, index + 1) == EncodeCall((getter - (address + 4 * (index + 1))) / 4)
    ensures Target(code, address, index) == getter
  {
    CallRoundTrip((getter - (address + 4 * (index + 1))) / 4);
  }

  // ---------------------------------------------------------------- what a call site is

  /** A word in memory, lowest byte first. */
  function Bytes(w: int): (bytes: seq<Byte>)
    requires 0 <= w < 0x1_0000_0000
  {
    [w % 0x100, w / 0x100 % 0x100, w / 0x1_0000 % 0x100, w / 0x100_0000]
  }

  /** Words are read lowest byte first. */
  lemma WordRoundTrip(before: seq<Byte>, w: int, after: seq<Byte>, index: nat)
    requires 0 <= w < 0x1_0000_0000 && |before| == 4 * index
    ensures Word(before + Bytes(w) + after, index) == w
  {
    var code := before + Bytes(w) + after;
    assert code[4 * index] == Bytes(w)[0] && code[4 * index + 1] == Bytes(w)[1];
    assert code[4 * index + 2] == Bytes(w)[2] && code[4 * index + 3] == Bytes(w)[3];
    assert w / 0x1_0000 == w / 0x100 / 0x100 && w / 0x100_0000 == w / 0x1_0000 / 0x100;
  }

  /** add x8, sp, #slot */
  function AddSlot(slot: int): int {
    0x9100_03e8 + 0x400 * slot
  }

  /** bl, to a place `offset` words away modulo 2^26 */
  function Call(offset: int): int {
    0x9400_0000 + offset
  }

  /** ldr xN, [sp, #8 * slot] */
  function LoadSlot(register: int, slot: int): int {
    0xf940_03e0 + 0x400 * slot + register
  }

  lemma SlotAddressFields(w: int)
    requires 0 <= w < 0x1_0000_0000 && IsSlotAddress(w)
    ensures 0 <= Immediate12(w) < 0x1000 && w == AddSlot(Immediate12(w))
  {
    assert w / 0x40_0000 == w / 0x400 / 0x1000;
  }

  lemma AddSlotFields(slot: int)
    requires 0 <= slot < 0x1000
    ensures IsSlotAddress(AddSlot(slot)) && Immediate12(AddSlot(slot)) == slot
  {
    var w := AddSlot(slot);
    assert w == 0x400 * (0x24_4000 + slot) + 0x3e8;
    assert w / 0x400 == 0x24_4000 + slot;
    assert w / 0x40_0000 == w / 0x400 / 0x1000;
  }

  lemma StackLoadFields(w: int)
    requires 0 <= w < 0x1_0000_0000 && IsStackLoad(w)
    ensures 0 <= Immediate12(w) < 0x1000 && w == LoadSlot(w % 0x20, Immediate12(w))
  {
    assert w / 0x40_0000 == w / 0x400 / 0x1000;
    assert w / 0x400 == w / 0x20 / 0x20;
  }

  lemma LoadSlotFields(register: int, slot: int)
    requires 0 <= register < 0x20 && 0 <= slot < 0x1000
    ensures var w := LoadSlot(register, slot);
            IsStackLoad(w) && Immediate12(w) == slot && w % 0x20 == register
  {
    var w := LoadSlot(register, slot);
    assert w == 0x20 * (0x7ca_001f + 0x20 * slot) + register;
    assert w / 0x20 == 0x7ca_001f + 0x20 * slot;
    assert w / 0x400 == w / 0x20 / 0x20 == 0x3e_5000 + slot;
    assert w / 0x40_0000 == w / 0x400 / 0x1000;
  }

  lemma CallExactly(w: int, offset: int)
    requires 0 <= w < 0x1_0000_0000 && 0 <= offset < TWO_26
    ensures IsCall(w) ==> w == Call(w % TWO_26)
    ensures w == Call(offset) ==> IsCall(w) && w % TWO_26 == offset
  {
  }

  /** At `index` stand, for some stack slot, branch offset and register, the instructions
        add x8, sp, #slot;  bl getter;  ldr xN, [sp, #slot];  ldr x8, [xN, #0x18]. */
  ghost predicate Encodes(code: seq<Byte>, index: nat, slot: int, offset: int, register: int)
    requires 4 * (index + 4) <= |code|
  {
    && 0 <= slot < 0x200 && 0 <= offset < TWO_26 && 0 <= register < 0x20
    && Word(code, index) == AddSlot(8 * slot) && Word(code, index + 1) == Call(offset)
    && Word(code, index + 2) == LoadSlot(register, slot) && Word(code, index + 3) == 0xf940_0c08 + 0x20 * register
  }

  /** A window matches exactly when it is the encoding of a call site. */
  lemma SiteExactly(code: seq<Byte>, index: nat)
    requires 4 * (index + 4) <= |code|
    ensures IsSite(code, index) <==> exists slot, offset, register :: Encodes(code, index, slot, offset, register)
  {
    var first, call, load := Word(code, index), Word(code, index + 1), Word(code, index + 2);
    if IsSite(code, index) {
      SlotAddressFields(first);
      CallExactly(call, 0);
      StackLoadFields(load);
      assert Encodes(code, index, Immediate12(load), call % TWO_26, load % 0x20);
    }
    if slot, offset, register :| Encodes(code, index, slot, offset, register) {
      AddSlotFields(8 * slot);
      CallExactly(call, offset);
      LoadSlotFields(register, slot);
    }
  }

  /** The scan covers exactly the windows that lie in the code and in its first 128 bytes. */
  lemma ScannedExactly(code: seq<Byte>, index: nat)
    ensures SiteAt(code, index) <==> 4 * index + 16 <= |code| && 4 * index + 16 <= 128 && IsSite(code, index)
  {
  }
}
