/** The hash that places a key in a vbucket: a table-driven CRC-32, against the definition of the
    CRC bit by bit (section 8 of RFC 1952). */
module Crc32 {
  import opened BitWords

  const ONES: nat := 0xffffffff

  // ----- the definition, bit by bit

  /** One bit of the message enters the register. */
  function Shift(c: nat, bit: nat): nat {
    if c % 2 != bit then Xor(c / 2, 0xedb88320) else c / 2
  }

  function ShiftAll(c: nat, bits: seq<nat>): nat
    decreases |bits|
  {
    if bits == [] then c else ShiftAll(Shift(c, bits[0]), bits[1..])
  }

  /** The lowest `count` bits of a byte, least significant first. */
  function Bits(b: nat, count: nat): seq<nat>
    decreases count
  {
    if count == 0 then [] else [b % 2] + Bits(b / 2, count - 1)
  }

  function Message(bytes: seq<nat>): seq<nat> {
    if bytes == [] then [] else Bits(bytes[0], 8) + Message(bytes[1..])
  }

  /** The CRC-32 of a byte string, as `zlib.crc32` computes it. */
  function Crc(bytes: seq<nat>): nat {
    Xor(ShiftAll(ONES, Message(bytes)), ONES)
  }

  // ----- the table

  const ROW0: seq<bv32> := [
    0x00000000, 0x77073096, 0xee0e612c, 0x990951ba, 0x076dc419, 0x706af48f, 0xe963a535, 0x9e6495a3,
    0x0edb8832, 0x79dcb8a4, 0xe0d5e91e, 0x97d2d988, 0x09b64c2b, 0x7eb17cbd, 0xe7b82d07, 0x90bf1d91]
  const ROW1: seq<bv32> := [
    0x1db71064, 0x6ab020f2, 0xf3b97148, 0x84be41de, 0x1adad47d, 0x6ddde4eb, 0xf4d4b551, 0x83d385c7,
    0x136c9856, 0x646ba8c0, 0xfd62f97a, 0x8a65c9ec, 0x14015c4f, 0x63066cd9, 0xfa0f3d63, 0x8d080df5]
  const ROW2: seq<bv32> := [
    0x3b6e20c8, 0x4c69105e, 0xd56041e4, 0xa2677172, 0x3c03e4d1, 0x4b04d447, 0xd20d85fd, 0xa50ab56b,
    0x35b5a8fa, 0x42b2986c, 0xdbbbc9d6, 0xacbcf940, 0x32d86ce3, 0x45df5c75, 0xdcd60dcf, 0xabd13d59]
  const ROW3: seq<bv32> := [
    0x26d930ac, 0x51de003a, 0xc8d75180, 0xbfd06116, 0x21b4f4b5, 0x56b3c423, 0xcfba9599, 0xb8bda50f,
    0x2802b89e, 0x5f058808, 0xc60cd9b2, 0xb10be924, 0x2f6f7c87, 0x58684c11, 0xc1611dab, 0xb6662d3d]
  const ROW4: seq<bv32> := [
    0x76dc4190, 0x01db7106, 0x98d220bc, 0xefd5102a, 0x71b18589, 0x06b6b51f, 0x9fbfe4a5, 0xe8b8d433,
    0x7807c9a2, 0x0f00f934, 0x9609a88e, 0xe10e9818, 0x7f6a0dbb, 0x086d3d2d, 0x91646c97, 0xe6635c01]
  const ROW5: seq<bv32> := [
    0x6b6b51f4, 0x1c6c6162, 0x856530d8, 0xf262004e, 0x6c0695ed, 0x1b01a57b, 0x8208f4c1, 0xf50fc457,
    0x65b0d9c6, 0x12b7e950, 0x8bbeb8ea, 0xfcb9887c, 0x62dd1ddf, 0x15da2d49, 0x8cd37cf3, 0xfbd44c65]
  const ROW6: seq<bv32> := [
    0x4db26158, 0x3ab551ce, 0xa3bc0074, 0xd4bb30e2, 0x4adfa541, 0x3dd895d7, 0xa4d1c46d, 0xd3d6f4fb,
    0x4369e96a, 0x346ed9fc, 0xad678846, 0xda60b8d0, 0x44042d73, 0x33031de5, 0xaa0a4c5f, 0xdd0d7cc9]
  const ROW7: seq<bv32> := [
    0x5005713c, 0x270241aa, 0xbe0b1010, 0xc90c2086, 0x5768b525, 0x206f85b3, 0xb966d409, 0xce61e49f,
    0x5edef90e, 0x29d9c998, 0xb0d09822, 0xc7d7a8b4, 0x59b33d17, 0x2eb40d81, 0xb7bd5c3b, 0xc0ba6cad]
  const ROW8: seq<bv32> := [
    0xedb88320, 0x9abfb3b6, 0x03b6e20c, 0x74b1d29a, 0xead54739, 0x9dd277af, 0x04db2615, 0x73dc1683,
    0xe3630b12, 0x94643b84, 0x0d6d6a3e, 0x7a6a5aa8, 0xe40ecf0b, 0x9309ff9d, 0x0a00ae27, 0x7d079eb1]
  const ROW9: seq<bv32> := [
    0xf00f9344, 0x8708a3d2, 0x1e01f268, 0x6906c2fe, 0xf762575d, 0x806567cb, 0x196c3671, 0x6e6b06e7,
    0xfed41b76, 0x89d32be0, 0x10da7a5a, 0x67dd4acc, 0xf9b9df6f, 0x8ebeeff9, 0x17b7be43, 0x60b08ed5]
  const ROW10: seq<bv32> := [
    0xd6d6a3e8, 0xa1d1937e, 0x38d8c2c4, 0x4fdff252, 0xd1bb67f1, 0xa6bc5767, 0x3fb506dd, 0x48b2364b,
    0xd80d2bda, 0xaf0a1b4c, 0x36034af6, 0x41047a60, 0xdf60efc3, 0xa867df55, 0x316e8eef, 0x4669be79]
  const ROW11: seq<bv32> := [
    0xcb61b38c, 0xbc66831a, 0x256fd2a0, 0x5268e236, 0xcc0c7795, 0xbb0b4703, 0x220216b9, 0x5505262f,
    0xc5ba3bbe, 0xb2bd0b28, 0x2bb45a92, 0x5cb36a04, 0xc2d7ffa7, 0xb5d0cf31, 0x2cd99e8b, 0x5bdeae1d]
  const ROW12: seq<bv32> := [
    0x9b64c2b0, 0xec63f226, 0x756aa39c, 0x026d930a, 0x9c0906a9, 0xeb0e363f, 0x72076785, 0x05005713,
    0x95bf4a82, 0xe2b87a14, 0x7bb12bae, 0x0cb61b38, 0x92d28e9b, 0xe5d5be0d, 0x7cdcefb7, 0x0bdbdf21]
  const ROW13: seq<bv32> := [
    0x86d3d2d4, 0xf1d4e242, 0x68ddb3f8, 0x1fda836e, 0x81be16cd, 0xf6b9265b, 0x6fb077e1, 0x18b74777,
    0x88085ae6, 0xff0f6a70, 0x66063bca, 0x11010b5c, 0x8f659eff, 0xf862ae69, 0x616bffd3, 0x166ccf45]
  const ROW14: seq<bv32> := [
    0xa00ae278, 0xd70dd2ee, 0x4e048354, 0x3903b3c2, 0xa7672661, 0xd06016f7, 0x4969474d, 0x3e6e77db,
    0xaed16a4a, 0xd9d65adc, 0x40df0b66, 0x37d83bf0, 0xa9bcae53, 0xdebb9ec5, 0x47b2cf7f, 0x30b5ffe9]
  const ROW15: seq<bv32> := [
    0xbdbdf21c, 0xcabac28a, 0x53b39330, 0x24b4a3a6, 0xbad03605, 0xcdd70693, 0x54de5729, 0x23d967bf,
    0xb3667a2e, 0xc4614ab8, 0x5d681b02, 0x2a6f2b94, 0xb40bbe37, 0xc30c8ea1, 0x5a05df1b, 0x2d02ef8d]

  const ROWS: seq<seq<bv32>> := [
    ROW0, ROW1, ROW2, ROW3, ROW4, ROW5, ROW6, ROW7,
    ROW8, ROW9, ROW10, ROW11, ROW12, ROW13, ROW14, ROW15]

  function LastDigit(x: bv32): bv4 {
    (x & 15) as bv4
  }

  function OtherDigits(x: bv32): bv32 {
    x >> 4
  }

  /** The value of the last hexadecimal digits of a table word. */
  function Digits(x: bv32, count: nat): nat
    decreases count
  {
    if count == 0 then 0 else 16 * Digits(OtherDigits(x), count - 1) + LastDigit(x) as nat
  }

  function Crc32Tab(i: nat): nat
    requires i < 256
  {
    Digits(ROWS[i / 16][i % 16], 8)
  }

  /** The register after `count` steps without input. */
  function Steps(c: nat, count: nat): nat
    decreases count
  {
    if count == 0 then c else Steps(Shift(c, 0), count - 1)
  }

  function XorWord(x: bv32, y: bv32): bv32 {
    x ^ y
  }

  /** `s` is `t` with `x` added to every word. */
  predicate Adds(s: seq<bv32>, x: bv32, t: seq<bv32>) {
    |s| == |t| && forall j :: 0 <= j < |s| ==> s[j] == XorWord(x, t[j])
  }

  // A row is an earlier row with the entry at its top bit added.

  lemma {:induction false} Row1()
    ensures Adds(ROW1, 0x1db71064, ROW0)
  {
  }

  lemma {:induction false} Row2()
    ensures Adds(ROW2, 0x3b6e20c8, ROW0)
  {
  }

  lemma {:induction false} Row3()
    ensures Adds(ROW3, 0x3b6e20c8, ROW1)
  {
  }

  lemma {:induction false} Row4()
    ensures Adds(ROW4, 0x76dc4190, ROW0)
  {
  }

  lemma {:induction false} Row5()
    ensures Adds(ROW5, 0x76dc4190, ROW1)
  {
  }

  lemma {:induction false} Row6()
    ensures Adds(ROW6, 0x76dc4190, ROW2)
  {
  }

  lemma {:induction false} Row7()
    ensures Adds(ROW7, 0x76dc4190, ROW3)
  {
  }

  lemma {:induction false} Row8()
    ensures Adds(ROW8, 0xedb88320, ROW0)
  {
  }

  lemma {:induction false} Row9()
    ensures Adds(ROW9, 0xedb88320, ROW1)
  {
  }

  lemma {:induction false} Row10()
    ensures Adds(ROW10, 0xedb88320, ROW2)
  {
  }

  lemma {:induction false} Row11()
    ensures Adds(ROW11, 0xedb88320, ROW3)
  {
  }

  lemma {:induction false} Row12()
    ensures Adds(ROW12, 0xedb88320, ROW4)
  {
  }

  lemma {:induction false} Row13()
    ensures Adds(ROW13, 0xedb88320, ROW5)
  {
  }

  lemma {:induction false} Row14()
    ensures Adds(ROW14, 0xedb88320, ROW6)
  {
  }

  lemma {:induction false} Row15()
    ensures Adds(ROW15, 0xedb88320, ROW7)
  {
  }

  function TopRow(r: nat): (t: nat)
    requires 0 < r < 16
    ensures t <= r < 2 * t
  {
    if r >= 8 then 8 else if r >= 4 then 4 else if r >= 2 then 2 else 1
  }

  function TopWord(r: nat): bv32
    requires 0 < r < 16
  {
    if r >= 8 then 0xedb88320 else if r >= 4 then 0x76dc4190 else if r >= 2 then 0x3b6e20c8 else 0x1db71064
  }

  ghost predicate RowsAdd(rows: seq<seq<bv32>>) {
    && |rows| == 16
    && (forall r :: 0 <= r < 16 ==> |rows[r]| == 16)
    && RowsAddIn(rows, 1, 16)
  }

  ghost predicate RowsAddIn(rows: seq<seq<bv32>>, from: nat, below: nat)
    requires 0 < from <= below <= 16 && |rows| == 16
  {
    forall r :: from <= r < below ==> Adds(rows[r], TopWord(r), rows[r - TopRow(r)])
  }

  lemma {:induction false} LowRowsAdd()
    ensures RowsAddIn(ROWS, 1, 8)
  {
    Row1(); Row2(); Row3(); Row4(); Row5(); Row6(); Row7();
  }

  lemma {:induction false} HighRowsAdd()
    ensures RowsAddIn(ROWS, 8, 16)
  {
    Row8(); Row9(); Row10(); Row11(); Row12(); Row13(); Row14(); Row15();
  }

  lemma {:induction false} JoinRows(rows: seq<seq<bv32>>)
    requires |rows| == 16 && RowsAddIn(rows, 1, 8) && RowsAddIn(rows, 8, 16)
    ensures RowsAddIn(rows, 1, 16)
  {
  }

  lemma {:induction false} TheRowsAdd()
    ensures RowsAdd(ROWS)
  {
    LowRowsAdd();
    HighRowsAdd();
    JoinRows(ROWS);
  }

  // ----- exclusive or of table words, digit by digit

  lemma {:induction false} HalfDigit(x: bv4)
    ensures (x >> 1) as nat == (x as nat) / 2
    ensures x & 1 == 1 <==> (x as nat) % 2 == 1
  {
  }

  lemma {:induction false} DigitStep(a: bv4, b: bv4)
    requires ((a >> 1) ^ (b >> 1)) as nat == Xor((a >> 1) as nat, (b >> 1) as nat)
    ensures (a ^ b) as nat == Xor(a as nat, b as nat)
  {
    HalfDigit(a);
    HalfDigit(b);
    HalfDigit(a ^ b);
    assert (a ^ b) >> 1 == (a >> 1) ^ (b >> 1);
    assert ((a ^ b) & 1 == 1) == ((a & 1 == 1) != (b & 1 == 1));
    XorFromHalves(a as nat, b as nat, (a ^ b) as nat);
  }

  lemma {:induction false} DigitXor(a: bv4, b: bv4)
    ensures (a ^ b) as nat == Xor(a as nat, b as nat)
  {
    var a1, b1 := a >> 1, b >> 1;
    var a2, b2 := a1 >> 1, b1 >> 1;
    var a3, b3 := a2 >> 1, b2 >> 1;
    assert a3 <= 1 && b3 <= 1;
    assert (a3 ^ b3) as nat == Xor(a3 as nat, b3 as nat);
    DigitStep(a2, b2);
    DigitStep(a1, b1);
    DigitStep(a, b);
  }

  lemma {:induction false} WordParts(x: bv32, y: bv32)
    ensures OtherDigits(XorWord(x, y)) == XorWord(OtherDigits(x), OtherDigits(y))
    ensures LastDigit(XorWord(x, y)) as nat == Xor(LastDigit(x) as nat, LastDigit(y) as nat)
  {
    assert (x ^ y) >> 4 == (x >> 4) ^ (y >> 4);
    assert (x ^ y) & 15 == (x & 15) ^ (y & 15);
    DigitXor(LastDigit(x), LastDigit(y));
  }

  lemma {:induction false} WordXor(x: bv32, y: bv32, count: nat)
    ensures Digits(XorWord(x, y), count) == Xor(Digits(x, count), Digits(y, count))
    decreases count
  {
    if count > 0 {
      WordParts(x, y);
      WordXor(OtherDigits(x), OtherDigits(y), count - 1);
      XorHex(Digits(OtherDigits(x), count - 1), LastDigit(x) as nat, Digits(OtherDigits(y), count - 1), LastDigit(y) as nat);
    }
  }

  // ----- the table is eight steps of its index

  /** A step is linear, and so are several. */
  lemma {:induction false} ShiftXor(a: nat, b: nat)
    ensures Shift(Xor(a, b), 0) == Xor(Shift(a, 0), Shift(b, 0))
  {
    XorBit(a, b);
    var x, y := a / 2, b / 2;
    if a % 2 != 0 && b % 2 != 0 {
      XorCancels(x, y, 0xedb88320);
    } else if a % 2 != 0 {
      XorSwaps(x, 0xedb88320, y);
    } else if b % 2 != 0 {
      XorAssociates(x, y, 0xedb88320);
    }
  }

  lemma {:induction false} StepsXor(a: nat, b: nat, count: nat)
    ensures Steps(Xor(a, b), count) == Xor(Steps(a, count), Steps(b, count))
    decreases count
  {
    if count > 0 {
      ShiftXor(a, b);
      StepsXor(Shift(a, 0), Shift(b, 0), count - 1);
    }
  }

  lemma {:induction false} StepsLast(c: nat, count: nat)
    ensures Steps(c, count + 1) == Shift(Steps(c, count), 0)
    decreases count
  {
    if count > 0 {
      StepsLast(Shift(c, 0), count - 1);
    }
  }

  /** As many steps of `i` are one step more than of `2 * i`. */
  lemma {:induction false} DoubleIndex(i: nat, count: nat)
    requires count > 0
    ensures Steps(i, count) == Shift(Steps(2 * i, count), 0)
  {
    StepsLast(i, count - 1);
    assert Shift(2 * i, 0) == i;
  }

  // The values of the table words at the powers of two.

  lemma {:induction false} Value1()
    ensures Digits(0x77073096, 8) == 0x77073096
  {
  }

  lemma {:induction false} Value2()
    ensures Digits(0xee0e612c, 8) == 0xee0e612c
  {
  }

  lemma {:induction false} Value4()
    ensures Digits(0x076dc419, 8) == 0x076dc419
  {
  }

  lemma {:induction false} Value8()
    ensures Digits(0x0edb8832, 8) == 0x0edb8832
  {
  }

  lemma {:induction false} Value16()
    ensures Digits(0x1db71064, 8) == 0x1db71064
  {
  }

  lemma {:induction false} Value32()
    ensures Digits(0x3b6e20c8, 8) == 0x3b6e20c8
  {
  }

  lemma {:induction false} Value64()
    ensures Digits(0x76dc4190, 8) == 0x76dc4190
  {
  }

  lemma {:induction false} Value128()
    ensures Digits(0xedb88320, 8) == 0xedb88320
  {
  }

  lemma {:induction false} ValueOfHalf()
    ensures Digits(0x03b6e20c, 8) == 0x03b6e20c
  {
  }

  lemma {:induction false} PowerSteps(k: nat)
    ensures Steps(Pow2(k), k) == 1
  {
    if k > 0 {
      PowerSteps(k - 1);
    }
  }

  lemma {:induction false} LastEntry(n: nat)
    requires n == 8
    ensures Steps(128, n) == 0xedb88320
  {
    Powers();
    PowerSteps(n);
    DoubleIndex(128, n);
    assert Shift(1, 0) == Xor(0, 0xedb88320);
  }

  lemma {:induction false} OddEntry()
    ensures Shift(0x076dc419, 0) == 0xee0e612c
  {
    WordXor(0x03b6e20c, 0xedb88320, 8);
    ValueOfHalf();
    Value128();
    Value2();
    assert XorWord(0x03b6e20c, 0xedb88320) == 0xee0e612c;
    assert 0x076dc419 / 2 == 0x03b6e20c;
  }

  lemma {:induction false} HighPowers(n: nat)
    requires n == 8
    ensures Steps(128, n) == 0xedb88320 && Steps(64, n) == 0x76dc4190
    ensures Steps(32, n) == 0x3b6e20c8 && Steps(16, n) == 0x1db71064
  {
    LastEntry(n);
    DoubleIndex(64, n);
    DoubleIndex(32, n);
    DoubleIndex(16, n);
  }

  /** The entries at the powers of two, each one step from the next. */
  lemma {:induction false} PowerEntries(n: nat)
    requires n == 8
    ensures Steps(128, n) == 0xedb88320 && Steps(64, n) == 0x76dc4190
    ensures Steps(32, n) == 0x3b6e20c8 && Steps(16, n) == 0x1db71064
    ensures Steps(8, n) == 0x0edb8832 && Steps(4, n) == 0x076dc419
    ensures Steps(2, n) == 0xee0e612c && Steps(1, n) == 0x77073096
  {
    HighPowers(n);
    DoubleIndex(8, n);
    DoubleIndex(4, n);
    OddEntry();
    DoubleIndex(2, n);
    DoubleIndex(1, n);
  }

  lemma {:induction false} PowerWord(x: bv32, t: nat, n: nat)
    requires n == 8
    requires (t == 1 && x == 0x77073096) || (t == 2 && x == 0xee0e612c) || (t == 4 && x == 0x076dc419)
          || (t == 8 && x == 0x0edb8832) || (t == 16 && x == 0x1db71064) || (t == 32 && x == 0x3b6e20c8)
          || (t == 64 && x == 0x76dc4190) || (t == 128 && x == 0xedb88320)
    ensures Digits(x, n) == Steps(t, n)
  {
    PowerEntries(n);
    Value1(); Value2(); Value4(); Value8(); Value16(); Value32(); Value64(); Value128();
  }

  /** `x` is the table entry at `i`; both its digits and the steps are eight, and `n` stands for both. */
  ghost predicate Entry(i: nat, x: bv32, n: nat) {
    Digits(x, n) == Steps(i, n)
  }

  /** From the entry at a power of two and one below it to the entry at their sum. */
  lemma {:induction false} AddEntries(k: nat, i: nat, x: bv32, y: bv32, n: nat)
    requires i < Pow2(k) && Entry(Pow2(k), x, n) && Entry(i, y, n)
    ensures Entry(Pow2(k) + i, XorWord(x, y), n)
  {
    TopBitAdds(k, i);
    StepsXor(Pow2(k), i, n);
    WordXor(x, y, n);
  }

  lemma {:induction false} Powers()
    ensures Pow2(0) == 1 && Pow2(1) == 2 && Pow2(2) == 4 && Pow2(3) == 8
    ensures Pow2(4) == 16 && Pow2(5) == 32 && Pow2(6) == 64 && Pow2(7) == 128 && Pow2(8) == 256
  {
  }

  /** The words of `s` are the entries from index `base` on. */
  ghost predicate Entries(s: seq<bv32>, base: nat, n: nat) {
    forall j :: 0 <= j < |s| ==> Entry(base + j, s[j], n)
  }

  lemma {:induction false} AddToAll(s: seq<bv32>, x: bv32, t: seq<bv32>, k: nat, base: nat, base': nat, n: nat)
    requires Adds(s, x, t) && Entries(t, base, n) && base + |t| <= Pow2(k) && Entry(Pow2(k), x, n)
    requires base' == Pow2(k) + base
    ensures Entries(s, base', n)
  {
    forall j | 0 <= j < |s|
      ensures Entry(base' + j, s[j], n)
    {
      AddEntries(k, base + j, x, t[j], n);
    }
  }

  lemma {:induction false} EntryAt(s: seq<bv32>, base: nat, j: nat, i: nat, n: nat)
    requires j < |s| && i == base + j && Entries(s, base, n)
    ensures Entry(i, s[j], n)
  {
    assert Entry(base + j, s[j], n);
  }

  lemma {:induction false} JoinEntries(s: seq<bv32>, t: seq<bv32>, base: nat, n: nat)
    requires Entries(s, base, n) && Entries(t, base + |s|, n)
    ensures Entries(s + t, base, n)
  {
  }

  lemma {:induction false} NoEntry(n: nat)
    ensures Entry(0, 0, n)
  {
    ZeroSteps(n);
    ZeroDigits(n);
  }

  lemma {:induction false} ZeroSteps(n: nat)
    ensures Steps(0, n) == 0
  {
    if n > 0 {
      ZeroSteps(n - 1);
    }
  }

  lemma {:induction false} ZeroDigits(count: nat)
    ensures Digits(0, count) == 0
  {
    if count > 0 {
      assert OtherDigits(0) == 0 && LastDigit(0) == 0;
      ZeroDigits(count - 1);
    }
  }

  // The first row, doubled from its first entry.

  const FIRST: seq<bv32> := [0x00000000]
  const SECOND: seq<bv32> := [0x77073096]
  const THIRD: seq<bv32> := [0xee0e612c, 0x990951ba]
  const FOURTH: seq<bv32> := [0x076dc419, 0x706af48f, 0xe963a535, 0x9e6495a3]
  const FIFTH: seq<bv32> := [0x0edb8832, 0x79dcb8a4, 0xe0d5e91e, 0x97d2d988, 0x09b64c2b, 0x7eb17cbd, 0xe7b82d07, 0x90bf1d91]

  lemma {:induction false} FirstTwo(n: nat)
    requires n == 8
    ensures Entries(FIRST + SECOND, 0, n)
  {
    NoEntry(n);
    OneEntry(0, 0, n);
    PowerWord(0x77073096, 1, n);
    OneEntry(1, 0x77073096, n);
    JoinEntries(FIRST, SECOND, 0, n);
  }

  lemma {:induction false} OneEntry(i: nat, x: bv32, n: nat)
    requires Entry(i, x, n)
    ensures Entries([x], i, n)
  {
  }

  lemma {:induction false} Doubled(s: seq<bv32>, x: bv32, t: seq<bv32>, k: nat, n: nat)
    requires Entries(t, 0, n) && Adds(s, x, t) && |t| == Pow2(k) && Entry(Pow2(k), x, n)
    ensures Entries(t + s, 0, n)
  {
    AddToAll(s, x, t, k, 0, Pow2(k), n);
    JoinEntries(t, s, 0, n);
  }

  lemma {:induction false} FirstRow(n: nat)
    requires n == 8
    ensures Entries(FIRST + SECOND + THIRD + FOURTH + FIFTH, 0, n)
  {
    Powers();
    FirstTwo(n);
    PowerWord(0xee0e612c, 2, n);
    AddsThird();
    Doubled(THIRD, 0xee0e612c, FIRST + SECOND, 1, n);
    PowerWord(0x076dc419, 4, n);
    AddsFourth();
    Doubled(FOURTH, 0x076dc419, FIRST + SECOND + THIRD, 2, n);
    PowerWord(0x0edb8832, 8, n);
    AddsFifth();
    Doubled(FIFTH, 0x0edb8832, FIRST + SECOND + THIRD + FOURTH, 3, n);
  }

  lemma {:induction false} AddsThird()
    ensures Adds(THIRD, 0xee0e612c, FIRST + SECOND)
  {
    assert FIRST + SECOND == [0x00000000, 0x77073096];
  }

  lemma {:induction false} AddsFourth()
    ensures Adds(FOURTH, 0x076dc419, FIRST + SECOND + THIRD)
  {
    assert FIRST + SECOND + THIRD == [0x00000000, 0x77073096, 0xee0e612c, 0x990951ba];
  }

  lemma {:induction false} AddsFifth()
    ensures Adds(FIFTH, 0x0edb8832, FIRST + SECOND + THIRD + FOURTH)
  {
    assert FIRST + SECOND + THIRD + FOURTH == [0x00000000, 0x77073096, 0xee0e612c, 0x990951ba, 0x076dc419, 0x706af48f, 0xe963a535, 0x9e6495a3];
  }

  lemma {:induction false} FirstRowIs()
    ensures ROW0 == FIRST + SECOND + THIRD + FOURTH + FIFTH
  {
  }

  lemma {:induction false} TopWordEntry(r: nat, n: nat) returns (k: nat)
    requires 0 < r < 16 && n == 8
    ensures Pow2(k) == 16 * TopRow(r) && Entry(Pow2(k), TopWord(r), n)
  {
    Powers();
    k := if r >= 8 then 7 else if r >= 4 then 6 else if r >= 2 then 5 else 4;
    PowerWord(TopWord(r), 16 * TopRow(r), n);
  }

  lemma {:induction false} RowEntries(rows: seq<seq<bv32>>, r: nat, n: nat)
    requires RowsAdd(rows) && Entries(rows[0], 0, n) && r < 16 && n == 8
    ensures Entries(rows[r], 16 * r, n)
  {
    if r > 0 {
      var rest := r - TopRow(r);
      RowEntries(rows, rest, n);
      var k := TopWordEntry(r, n);
      AddToAll(rows[r], TopWord(r), rows[rest], k, 16 * rest, 16 * r, n);
    }
  }

  lemma {:induction false} EveryEntry(rows: seq<seq<bv32>>, i: nat, n: nat)
    requires RowsAdd(rows) && Entries(rows[0], 0, n) && i < 256 && n == 8
    ensures Entry(i, rows[i / 16][i % 16], n)
  {
    RowEntries(rows, i / 16, n);
    EntryAt(rows[i / 16], 16 * (i / 16), i % 16, i, n);
  }

  /** Every entry of the table is eight steps of its index. */
  lemma {:induction false} TableIsSteps(i: nat)
    requires i < 256
    ensures Crc32Tab(i) == Steps(i, 8)
  {
    FirstRow(8);
    FirstRowIs();
    TheRowsAdd();
    EveryEntry(ROWS, i, 8);
  }

  // ----- a byte at a time

  lemma {:induction false} ShiftFirst(c: nat, bit: nat, bits: seq<nat>)
    ensures ShiftAll(c, [bit] + bits) == ShiftAll(Shift(c, bit), bits)
  {
    assert ([bit] + bits)[1..] == bits;
  }

  /** Adding a byte to the register beforehand and then stepping is feeding its bits one by one,
      up to the bits not yet fed. */
  lemma {:induction false} FeedIsSteps(c: nat, b: nat, count: nat)
    ensures ShiftAll(c, Bits(b, count)) == Xor(Steps(Xor(c, b), count), Shr(b, count))
    decreases count
  {
    if count == 0 {
      XorAssociates(c, b, b);
      XorSelf(b);
    } else {
      ShiftFirst(c, b % 2, Bits(b / 2, count - 1));
      FeedIsSteps(Shift(c, b % 2), b / 2, count - 1);
      ShiftAdded(c, b);
    }
  }

  lemma {:induction false} ShiftAdded(c: nat, b: nat)
    ensures Xor(Shift(c, b % 2), b / 2) == Shift(Xor(c, b), 0)
  {
    XorBit(c, b);
    XorSwaps(c / 2, 0xedb88320, b / 2);
  }

  lemma {:induction false} StepsHigh(x: nat, count: nat)
    ensures Steps(High(x, count), count) == Shr(x, count)
    decreases count
  {
    if count > 0 {
      StepsHigh(x / 2, count - 1);
      PartHalves(x, count);
    }
  }

  /** Stepping `count` times drops the bits above and reduces the `count` lowest. */
  lemma {:induction false} StepsSplit(x: nat, count: nat)
    ensures Steps(x, count) == Xor(Shr(x, count), Steps(Low(x, count), count))
  {
    HighAndLow(x, count);
    StepsXor(High(x, count), Low(x, count), count);
    StepsHigh(x, count);
  }

  /** The register after one byte, by the table. */
  function TableShift(c: nat, b: nat): nat
    requires b < 256
  {
    Powers();
    Xor(Shr(c, 8), Crc32Tab(Low(Xor(c, b), 8)))
  }

  /** Eight bits of the definition are one look-up in the table. */
  lemma {:induction false} TableByte(c: nat, b: nat)
    requires b < 256
    ensures ShiftAll(c, Bits(b, 8)) == TableShift(c, b)
  {
    Powers();
    var n := 8;
    FeedIsSteps(c, b, n);
    ShrOfSmall(b, n);
    StepsSplit(Xor(c, b), n);
    XorShr(c, b, n);
    TableIsSteps(Low(Xor(c, b), n));
  }

  lemma {:induction false} ShiftAllAppend(c: nat, p: seq<nat>, q: seq<nat>)
    ensures ShiftAll(c, p + q) == ShiftAll(ShiftAll(c, p), q)
    decreases |p|
  {
    if p == [] {
      assert p + q == q;
    } else {
      assert (p + q)[1..] == p[1..] + q;
      ShiftAllAppend(Shift(c, p[0]), p[1..], q);
    }
  }

  lemma {:induction false} MessageAppend(p: seq<nat>, b: nat)
    ensures Message(p + [b]) == Message(p) + Bits(b, 8)
  {
    if p == [] {
      assert p + [b] == [b];
      assert Message([b]) == Bits(b, 8) + Message([b][1..]);
    } else {
      assert (p + [b])[1..] == p[1..] + [b];
      MessageAppend(p[1..], b);
    }
  }

  /** One byte at the end of a message moves the register by one table look-up. */
  lemma {:induction false} FeedByte(p: seq<nat>, b: nat)
    requires b < 256
    ensures ShiftAll(ONES, Message(p + [b])) == TableShift(ShiftAll(ONES, Message(p)), b)
  {
    MessageAppend(p, b);
    ShiftAllAppend(ONES, Message(p), Bits(b, 8));
    TableByte(ShiftAll(ONES, Message(p)), b);
  }

  lemma {:induction false} RegisterFits(c: nat, bits: seq<nat>, k: nat)
    requires c < Pow2(k) && 0xedb88320 < Pow2(k)
    ensures ShiftAll(c, bits) < Pow2(k)
    decreases |bits|
  {
    if bits != [] {
      XorBelow(c / 2, 0xedb88320, k);
      RegisterFits(Shift(c, bits[0]), bits[1..], k);
    }
  }

  // ----- the hash

  /** Bits 16 to 30. */
  function Middle(c: nat): nat {
    And(Shr(c, 16), 0x7fff)
  }

  /** What the hash looks at: the low byte of every code point. */
  function LowBytes(key: string): (bytes: seq<nat>)
    ensures |bytes| == |key| && forall i :: 0 <= i < |key| ==> bytes[i] < 256
  {
    seq(|key|, i requires 0 <= i < |key| => key[i] as int % 256)
  }

  lemma {:induction false} Powers32()
    ensures Pow2(15) == 0x8000 && Pow2(16) == 0x1_0000 && Pow2(32) == 0x1_0000_0000
  {
    Powers();
    assert Pow2(12) == 16 * Pow2(8) && Pow2(16) == 16 * Pow2(12) && Pow2(15) == 8 * Pow2(12);
    assert Pow2(20) == 16 * Pow2(16) && Pow2(24) == 16 * Pow2(20) && Pow2(28) == 16 * Pow2(24) && Pow2(32) == 16 * Pow2(28);
  }

  lemma {:induction false} MiddleIs(c: nat)
    ensures Middle(c) == c / 0x1_0000 % 0x8000
  {
    Powers32();
    Shr16(c);
    var d, k := c / 0x1_0000, 15;
    AndOnes(d, k);
    LowIsMod(d, k, d / 0x8000, d % 0x8000);
  }

  lemma {:induction false} ComplementQuotient(register: nat)
    requires register < 0x1_0000_0000
    ensures (ONES - register) / 0x1_0000 % 0x8000 == (0 - register - 1) / 0x1_0000 % 0x8000
  {
    assert (ONES - register) / 0x1_0000 == (0 - register - 1) / 0x1_0000 + 0x1_0000;
  }

  /** The masked shift of the complement, on the register. */
  lemma {:induction false} MiddleOfComplement(register: nat)
    requires register < 0x1_0000_0000
    ensures Middle(Xor(register, ONES)) == (0 - register - 1) / 0x1_0000 % 0x8000
  {
    ComplementIs(register);
    MiddleIs(Xor(register, ONES));
    ComplementQuotient(register);
  }

  lemma {:induction false} ComplementIs(register: nat)
    requires register < 0x1_0000_0000
    ensures Xor(register, ONES) == ONES - register
  {
    Powers32();
    var k := 32;
    XorOnes(register, k);
  }

  lemma {:induction false} LowOfByte(code: nat, k: nat)
    requires k == 8
    ensures Low(code, k) == Low(code % 256, k)
  {
    Powers();
    LowIsMod(code, k, code / 256, code % 256);
    LowIsMod(code % 256, k, 0, code % 256);
  }

  /** The step of the loop, on a character of any code. */
  function HashShift(crc: nat, code: nat): nat {
    Powers();
    Xor(Shr(crc, 8), Crc32Tab(Low(Xor(crc, code), 8)))
  }

  lemma {:induction false} HashShiftIs(crc: nat, code: nat)
    ensures HashShift(crc, code) == TableShift(crc, code % 256)
  {
    var k := 8;
    XorLow(crc, code, k);
    XorLow(crc, code % 256, k);
    LowOfByte(code, k);
  }

  lemma {:induction false} CrcIs(bytes: seq<nat>)
    ensures ShiftAll(ONES, Message(bytes)) < 0x1_0000_0000
    ensures Middle(Crc(bytes)) == (0 - ShiftAll(ONES, Message(bytes)) - 1) / 0x1_0000 % 0x8000
  {
    Powers32();
    var k := 32;
    RegisterFits(ONES, Message(bytes), k);
    MiddleOfComplement(ShiftAll(ONES, Message(bytes)));
  }

  /** The register after a message. */
  ghost function Register(bytes: seq<nat>): nat {
    ShiftAll(ONES, Message(bytes))
  }

  lemma {:induction false} HashStep(key: string, i: nat)
    requires i < |key|
    ensures HashShift(Register(LowBytes(key)[..i]), key[i] as int) == Register(LowBytes(key)[..i + 1])
  {
    var bytes := LowBytes(key);
    var b := bytes[i];
    HashShiftIs(Register(bytes[..i]), key[i] as int);
    FeedByte(bytes[..i], b);
    PrefixGrows(bytes, i);
  }

  lemma {:induction false} PrefixGrows(s: seq<nat>, i: nat)
    requires i < |s|
    ensures s[..i + 1] == s[..i] + [s[i]]
  {
  }

  /** The loop over the characters computes the middle bits of the CRC-32 of their low bytes. */
  method Hash(key: string) returns (h: nat)
    ensures h == Middle(Crc(LowBytes(key)))
  {
    var crc := ONES;
    for i := 0 to |key|
      invariant crc == Register(LowBytes(key)[..i])
    {
      HashStep(key, i);
      crc := HashShift(crc, key[i] as int);
    }
    assert LowBytes(key)[..|key|] == LowBytes(key);
    CrcIs(LowBytes(key));
    var complement: int := -1 - (crc as int);
    h := complement / 0x1_0000 % 0x8000;
  }

  // ----- vbucket ids

  /** The UTF-8 encoding of a character. */
  function Utf8(c: char): (bytes: seq<nat>)
    ensures |bytes| >= 1 && (|bytes| == 1 <==> c as int < 128)
  {
    var p := c as int;
    if p < 0x80 then [p]
    else if p < 0x800 then [0xc0 + p / 64, 0x80 + p % 64]
    else if p < 0x1_0000 then [0xe0 + p / 4096, 0x80 + p / 64 % 64, 0x80 + p % 64]
    else [0xf0 + p / 262144, 0x80 + p / 4096 % 64, 0x80 + p / 64 % 64, 0x80 + p % 64]
  }

  function Encode(key: string): (bytes: seq<nat>)
    ensures |bytes| >= |key|
  {
    if key == [] then [] else Utf8(key[0]) + Encode(key[1..])
  }

  predicate Ascii(key: string) {
    forall i :: 0 <= i < |key| ==> key[i] as int < 128
  }

  lemma {:induction false} EncodeLength(key: string)
    ensures |Encode(key)| == |key| <==> Ascii(key)
  {
    if key != [] {
      EncodeLength(key[1..]);
      assert Ascii(key) <==> key[0] as int < 128 && Ascii(key[1..]);
    }
  }

  lemma {:induction false} EncodeAscii(key: string)
    requires Ascii(key)
    ensures Encode(key) == LowBytes(key)
  {
    if key != [] {
      EncodeAscii(key[1..]);
      assert LowBytes(key) == [key[0] as int] + LowBytes(key[1..]);
    }
  }

  /** The hash reads the same bytes as the client's CRC exactly for ASCII keys. */
  lemma {:induction false} SameBytesIffAscii(key: string)
    ensures LowBytes(key) == Encode(key) <==> Ascii(key)
  {
    EncodeLength(key);
    if Ascii(key) {
      EncodeAscii(key);
    }
  }

  /** The vbucket a command is sent to: a positive id as given, otherwise, also for an explicit 0,
      the one the key hashes to. */
  function SetVbucket(key: string, vbucket: int, count: nat): nat
    requires count > 0
  {
    Masked(Middle(Crc(Encode(key))), vbucket, count)
  }

  function Masked(hash: nat, vbucket: int, count: nat): nat
    requires count > 0
  {
    if vbucket <= 0 then And(hash, count - 1) else vbucket
  }

  lemma {:induction false} MaskedHash(hash: nat, k: nat)
    ensures And(hash, Pow2(k) - 1) == Masked(hash, -1, Pow2(k)) < Pow2(k)
  {
    AndOnes(hash, k);
  }

  /** For every ASCII key and every power of two buckets, the hash masked by its caller is the id
      the client computes, and it is one of the buckets. */
  lemma {:induction false} VbucketAgreement(key: string, k: nat)
    requires Ascii(key)
    ensures And(Middle(Crc(LowBytes(key))), Pow2(k) - 1) == SetVbucket(key, -1, Pow2(k)) < Pow2(k)
  {
    EncodeAscii(key);
    MaskedHash(Middle(Crc(LowBytes(key))), k);
  }

  lemma {:induction false} DivMod(a: nat, p: nat) returns (q: nat, r: nat)
    requires p > 0
    ensures a == p * q + r && r < p && r == a % p
  {
    q, r := a / p, a % p;
  }

  lemma {:induction false} LowIsRemainder(a: nat, k: nat, p: nat)
    requires p == Pow2(k)
    ensures Low(a, k) == a % p
  {
    var q, r := DivMod(a, p);
    LowIsMod(a, k, q, r);
  }

  lemma {:induction false} MaskedIs(hash: nat, vbucket: int, k: nat, p: nat)
    requires p == Pow2(k)
    ensures Masked(hash, vbucket, p) == if vbucket > 0 then vbucket else hash % p
  {
    AndOnes(hash, k);
    LowIsRemainder(hash, k, p);
  }

  /** Written out: bits 16 to 30 of the CRC, reduced to the number of vbuckets. */
  lemma {:induction false} VbucketIs(key: string, vbucket: int, k: nat)
    ensures SetVbucket(key, vbucket, Pow2(k)) ==
            if vbucket > 0 then vbucket else Crc(Encode(key)) / 0x1_0000 % 0x8000 % Pow2(k)
  {
    MiddleIs(Crc(Encode(key)));
    MaskedIs(Middle(Crc(Encode(key))), vbucket, k, Pow2(k));
  }

  /** A code point from the bytes of its encoding (section 3 of RFC 3629). */
  ghost predicate Encodes(b: seq<int>, p: int) {
    && (forall i :: 1 <= i < |b| ==> 0x80 <= b[i] < 0xc0)
    && if |b| == 1 then b[0] == p < 0x80
       else if |b| == 2 then 0x80 <= p < 0x800 && p == 64 * (b[0] - 0xc0) + (b[1] - 0x80)
       else if |b| == 3 then 0x800 <= p < 0x1_0000 && p == 4096 * (b[0] - 0xe0) + 64 * (b[1] - 0x80) + (b[2] - 0x80)
       else
         && |b| == 4 && p >= 0x1_0000
         && p == 262144 * (b[0] - 0xf0) + 4096 * (b[1] - 0x80) + 64 * (b[2] - 0x80) + (b[3] - 0x80)
  }

  lemma {:induction false} SixBits(p: nat)
    ensures p == 64 * (p / 64) + p % 64 && p / 64 == 64 * (p / 4096) + p / 64 % 64
    ensures p / 4096 == 64 * (p / 262144) + p / 4096 % 64
  {
  }

  lemma {:induction false} Utf8Is(c: char)
    ensures Encodes(Utf8(c), c as int)
  {
    SixBits(c as int);
    var b, p := Utf8(c), c as int;
    if p < 0x800 {
    } else if p < 0x1_0000 {
      Sums(p / 4096, p / 64 % 64, p % 64, p / 64);
    } else {
      Sums(p / 262144, p / 4096 % 64, p / 64 % 64, p / 4096);
    }
  }

  lemma {:induction false} Sums(x: nat, y: nat, z: nat, q: nat)
    requires q == 64 * x + y
    ensures 64 * q + z == 4096 * x + 64 * y + z && 64 * (64 * q + z) == 262144 * x + 4096 * y + 64 * z
  {
  }

  // ----- where the ids differ

  predicate IsEntry(i: nat, y: bv32) {
    i < 256 && ROWS[i / 16][i % 16] == y
  }

  lemma {:induction false} TableOnWords(c: nat, b: nat, i: nat, x: bv32, y: bv32)
    requires b < 256 && IsEntry(i, y) && Low(Xor(c, b), 8) == i && Shr(c, 8) == Digits(x, 8)
    ensures TableShift(c, b) == Digits(XorWord(x, y), 8)
  {
    var n := 8;
    WordXor(x, y, n);
  }

  lemma {:induction false} FirstIndex(b: nat, k: nat)
    requires b < 256 && k == 8
    ensures Low(Xor(ONES, b), k) == 255 - b
  {
    XorCommutes(ONES, b);
    ComplementIs(b);
    Powers();
    LowIsMod(ONES - b, k, 0xffffff, 255 - b);
  }

  lemma {:induction false} OnesShifted()
    ensures Shr(ONES, 8) == Digits(0x00ffffff, 8)
  {
  }

  lemma {:induction false} WordA()
    ensures XorWord(0x00ffffff, 0x17b7be43) == 0x174841bc && Digits(0x174841bc, 8) == 0x174841bc
  {
  }

  lemma {:induction false} Word80()
    ensures XorWord(0x00ffffff, 0xc0ba6cad) == 0xc0459352 && Digits(0xc0459352, 8) == 0xc0459352
  {
  }

  lemma {:induction false} WordC2()
    ensures XorWord(0x00ffffff, 0x58684c11) == 0x5897b3ee && Digits(0x5897b3ee, 8) == 0x5897b3ee
  {
  }

  lemma {:induction false} WordC280()
    ensures XorWord(0x005897b3, 0xaa0a4c5f) == 0xaa52dbec && Digits(0xaa52dbec, 8) == 0xaa52dbec
  {
  }

  lemma {:induction false} LastShift(c: nat)
    requires c == 0x5897b3ee
    ensures Shr(c, 8) == Digits(0x005897b3, 8)
  {
  }

  lemma {:induction false} LastIndex(c: nat, b: nat, k: nat)
    requires c == 0x5897b3ee && b == 0x80 && k == 8
    ensures Low(Xor(c, b), k) == 0x6e
  {
    Powers();
    XorLow(c, b, k);
    LowIsMod(c, k, 0x5897b3, 0xee);
    LowIsMod(b, k, 0, 0x80);
    TopBitTwice(7, 0x6e);
  }

  lemma {:induction false} LastWord()
    ensures IsEntry(0x6e, 0xaa0a4c5f)
  {
  }

  /** Adding the top bit twice. */
  lemma {:induction false} TopBitTwice(k: nat, i: nat)
    requires i < Pow2(k)
    ensures Xor(Pow2(k) + i, Pow2(k)) == i
  {
    TopBitAdds(k, i);
    XorCommutes(Pow2(k), i);
    XorAssociates(i, Pow2(k), Pow2(k));
    XorSelf(Pow2(k));
  }

  lemma {:induction false} RegisterOne(b: nat)
    requires b < 256
    ensures Register([b]) == TableShift(ONES, b)
  {
    FeedByte([], b);
    assert [] + [b] == [b];
  }

  lemma {:induction false} RegisterTwo(a: nat, b: nat)
    requires a < 256 && b < 256
    ensures Register([a, b]) == TableShift(Register([a]), b)
  {
    FeedByte([a], b);
    assert [a] + [b] == [a, b];
  }

  /** The register after one byte, by the table entry `y`. */
  lemma {:induction false} RegisterWord(b: nat, i: nat, y: bv32, register: nat)
    requires b + i == 255 && IsEntry(i, y) && Digits(XorWord(0x00ffffff, y), 8) == register
    ensures Register([b]) == register
  {
    RegisterOne(b);
    FirstIndex(b, 8);
    OnesShifted();
    TableOnWords(ONES, b, i, 0x00ffffff, y);
  }

  lemma {:induction false} MiddleOf(bytes: seq<nat>, register: nat, middle: nat)
    requires Register(bytes) == register && (0 - register - 1) / 0x1_0000 % 0x8000 == middle
    ensures Middle(Crc(bytes)) == middle && Middle(Crc(bytes)) % 2 == middle % 2
  {
    CrcIs(bytes);
  }

  /** The hash of one byte, by the table entry `y`. */
  lemma {:induction false} HashWord(b: nat, i: nat, y: bv32, register: nat, middle: nat)
    requires b + i == 255 && IsEntry(i, y) && Digits(XorWord(0x00ffffff, y), 8) == register
    requires (0 - register - 1) / 0x1_0000 % 0x8000 == middle
    ensures Middle(Crc([b])) == middle && Middle(Crc([b])) % 2 == middle % 2
  {
    RegisterWord(b, i, y, register);
    MiddleOf([b], register, middle);
  }

  lemma {:induction false} RegisterC2(a: nat)
    requires a == 0xc2
    ensures Register([a]) == 0x5897b3ee
  {
    WordC2();
    RegisterWord(a, 255 - a, 0x58684c11, 0x5897b3ee);
  }

  lemma {:induction false} SecondByte(c: nat, b: nat)
    requires c == 0x5897b3ee && b == 0x80
    ensures TableShift(c, b) == 0xaa52dbec
  {
    LastIndex(c, b, 8);
    LastShift(c);
    WordC280();
    LastWord();
    TableOnWords(c, b, 0x6e, 0x005897b3, 0xaa0a4c5f);
  }

  lemma {:induction false} RegisterC280(a: nat, b: nat, bytes: seq<nat>)
    requires a == 0xc2 && b == 0x80 && bytes == [a, b]
    ensures Register(bytes) == 0xaa52dbec
  {
    RegisterC2(a);
    RegisterTwo(a, b);
    SecondByte(Register([a]), b);
  }

  lemma {:induction false} EncodeOne(key: string)
    requires |key| == 1
    ensures Encode(key) == Utf8(key[0]) && LowBytes(key) == [key[0] as int % 256]
  {
    assert Encode(key[1..]) == [];
    assert LowBytes(key)[0] == key[0] as int % 256;
  }

  lemma {:induction false} HashOfByte61(b: nat)
    requires b == 0x61
    ensures Middle(Crc([b])) == 0x68b7 && Middle(Crc([b])) % 2 == 1
  {
    WordA();
    HashWord(b, 255 - b, 0x17b7be43, 0x174841bc, 0x68b7);
  }

  lemma {:induction false} HashOfByte80(b: nat)
    requires b == 0x80
    ensures Middle(Crc([b])) == 0x3fba && Middle(Crc([b])) % 2 == 0
  {
    Word80();
    HashWord(b, 255 - b, 0xc0ba6cad, 0xc0459352, 0x3fba);
  }

  /** The hash of the key "a". */
  lemma {:induction false} HashOfA(key: string)
    requires |key| == 1 && key[0] == 'a'
    ensures Middle(Crc(Encode(key))) == 0x68b7 && Middle(Crc(Encode(key))) % 2 == 1
  {
    EncodeOne(key);
    HashOfByte61(key[0] as int);
  }

  lemma {:induction false} HashOfBytesC280(bytes: seq<nat>, register: nat)
    requires Register(bytes) == register && register == 0xaa52dbec
    ensures Middle(Crc(bytes)) == 0x55ad && Middle(Crc(bytes)) % 2 == 1
  {
    MiddleOf(bytes, register, 0x55ad);
  }

  /** The two hashes of the key that consists of the character U+0080. */
  lemma {:induction false} HashesOfPad(key: string)
    requires |key| == 1 && key[0] as int == 0x80
    ensures Middle(Crc(LowBytes(key))) == 0x3fba && Middle(Crc(Encode(key))) == 0x55ad
    ensures Middle(Crc(LowBytes(key))) % 2 != Middle(Crc(Encode(key))) % 2
  {
    var b := key[0] as int;
    EncodeOne(key);
    HashOfByte80(b % 256);
    RegisterC280(0xc0 + b / 64, 0x80 + b % 64, Encode(key));
    HashOfBytesC280(Encode(key), Register(Encode(key)));
  }

  /** Masking keeps the last bit, unless there is one bucket only. */
  lemma {:induction false} MaskParity(hash: nat, k: nat)
    ensures And(hash, Pow2(k) - 1) % 2 == (if k == 0 then 0 else hash % 2)
    ensures k == 0 ==> And(hash, Pow2(k) - 1) == 0
  {
    AndOnes(hash, k);
  }

  lemma {:induction false} OddIsReplaced(hash: nat, k: nat)
    requires hash % 2 == 1 && k > 0
    ensures Masked(hash, 0, Pow2(k)) != 0
  {
    MaskParity(hash, k);
  }

  /** An explicit vbucket 0 is replaced by another one for the key "a", if there is another one. */
  lemma {:induction false} ZeroIsReplaced(key: string, k: nat)
    requires |key| == 1 && key[0] == 'a' && k > 0
    ensures SetVbucket(key, 0, Pow2(k)) != 0
  {
    HashOfA(key);
    OddIsReplaced(Middle(Crc(Encode(key))), k);
  }

  lemma {:induction false} OneBucket(key: string, vbucket: int)
    requires vbucket <= 0
    ensures SetVbucket(key, vbucket, Pow2(0)) == 0
  {
    MaskParity(Middle(Crc(Encode(key))), 0);
  }

  /** A vbucket given by the caller is used for every key if and only if it is positive, or it is 0
      and there is no other. */
  lemma {:induction false} GivenVbucketIff(vbucket: int, k: nat)
    ensures (forall key :: SetVbucket(key, vbucket, Pow2(k)) == vbucket) <==> vbucket > 0 || (vbucket == 0 && k == 0)
  {
    if vbucket == 0 {
      if k == 0 {
        forall key ensures SetVbucket(key, vbucket, Pow2(k)) == vbucket {
          OneBucket(key, vbucket);
        }
      } else {
        ZeroIsReplaced("a", k);
        assert SetVbucket("a", vbucket, Pow2(k)) != vbucket;
      }
    } else if vbucket < 0 {
      assert SetVbucket("", vbucket, Pow2(k)) != vbucket;
    }
  }

  lemma {:induction false} ParityDisagrees(hash: nat, other: nat, k: nat)
    requires hash % 2 != other % 2 && k > 0
    ensures And(hash, Pow2(k) - 1) != Masked(other, -1, Pow2(k))
  {
    MaskParity(hash, k);
    MaskParity(other, k);
  }

  /** The masked hash of the key U+0080 is not the client's id, if there is more than one bucket. */
  lemma {:induction false} PadDisagrees(key: string, k: nat)
    requires |key| == 1 && key[0] as int == 0x80 && k > 0
    ensures And(Middle(Crc(LowBytes(key))), Pow2(k) - 1) != SetVbucket(key, -1, Pow2(k))
  {
    HashesOfPad(key);
    ParityDisagrees(Middle(Crc(LowBytes(key))), Middle(Crc(Encode(key))), k);
  }

  /** The masked hash is the client's id for every key if and only if there is one bucket only. */
  lemma {:induction false} AllKeysAgreeIff(k: nat)
    ensures (forall key :: And(Middle(Crc(LowBytes(key))), Pow2(k) - 1) == SetVbucket(key, -1, Pow2(k))) <==> k == 0
  {
    if k == 0 {
      forall key ensures And(Middle(Crc(LowBytes(key))), Pow2(k) - 1) == SetVbucket(key, -1, Pow2(k)) {
        MaskParity(Middle(Crc(LowBytes(key))), k);
        OneBucket(key, -1);
      }
    } else {
      PadDisagrees([0x80 as char], k);
    }
  }
}
