/**
 * CRC-16 checksum of a byte string (security.checksum.CRC16).
 *
 * The accumulator starts at 0xFFFF; every byte is XORed into it and followed
 * by eight rounds of "shift right, XOR 0xA001 if the bit shifted out was 1".
 * There is no final XOR.  This is the CRC-16 of section 2.5.1.2 of the
 * MODBUS over Serial Line Specification V1.02 (reflected polynomial 0x8005).
 *
 * The accumulator is a PHP integer; it is modelled as a 64-bit vector and
 * the model proves that it never leaves the range 0..0xFFFF.
 */
module Crc16 {

  /** A PHP integer as used by the accumulator. */
  type Word = bv64

  const Initial: Word := 0xFFFF
  /** Rounds per byte: one per bit. */
  const BitsPerByte: nat := 8

  /** The accumulator stays a 16-bit quantity. */
  predicate Fits(sum: Word) { sum <= 0xFFFF }

  /** One round of the inner loop; it keeps a 16-bit accumulator within 16 bits. */
  function Round(sum: Word): (r: Word)
    ensures Fits(sum) ==> Fits(r)
  {
    if sum & 1 == 1 then (sum >> 1) ^ 0xA001 else sum >> 1
  }

  /** k rounds of the inner loop. */
  function Rounds(sum: Word, k: nat): (r: Word)
    ensures Fits(sum) ==> Fits(r)
    decreases k
  {
    if k == 0 then sum else Round(Rounds(sum, k - 1))
  }

  /** Unfolds Round for the loop of FromString, which spells the round out. */
  lemma RoundIs(sum: Word)
    ensures Round(sum) == if sum & 1 == 1 then (sum >> 1) ^ 0xA001 else sum >> 1
  {
  }

  /**
   * The work done for one byte: XOR it in, then exactly eight rounds.
   * XORing a byte into a 16-bit accumulator and running the rounds stays
   * within 16 bits.
   */
  function Step(sum: Word, b: bv8): (r: Word)
    ensures Fits(sum) ==> Fits(r)
  {
    assert Fits(sum) ==> Fits(sum ^ (b as Word));
    Rounds(sum ^ (b as Word), BitsPerByte)
  }

  /** Left fold of Step over the bytes, in order, starting from acc; it keeps the accumulator within 16 bits. */
  function Fold(acc: Word, s: seq<bv8>): (r: Word)
    ensures Fits(acc) ==> Fits(r)
    ensures s == [] ==> r == acc
    decreases |s|
  {
    if s == [] then acc else Fold(Step(acc, s[0]), s[1..])
  }

  /** The checksum of a byte string; it always lies in 0..0xFFFF. */
  function Crc(s: seq<bv8>): (r: Word)
    ensures r <= 0xFFFF
  {
    Fold(Initial, s)
  }

  /** The checksum of the empty string is the initial value 0xFFFF. */
  lemma CrcEmpty()
    ensures Crc([]) == 0xFFFF
  {
  }

  /** Incrementality: the CRC of s + t continues from the accumulator reached after s. */
  lemma {:induction false} FoldAppend(acc: Word, s: seq<bv8>, t: seq<bv8>)
    ensures Fold(acc, s + t) == Fold(Fold(acc, s), t)
    decreases |s|
  {
    if s == [] {
      assert s + t == t;
    } else {
      assert (s + t)[0] == s[0];
      assert (s + t)[1..] == s[1..] + t;
      FoldAppend(Step(acc, s[0]), s[1..], t);
    }
  }

  lemma CrcAppend(s: seq<bv8>, t: seq<bv8>)
    ensures Crc(s + t) == Fold(Crc(s), t)
  {
    FoldAppend(Initial, s, t);
  }

  /** Folding one more byte is one more Step. */
  lemma FoldSnoc(acc: Word, s: seq<bv8>, b: bv8)
    ensures Fold(acc, s + [b]) == Step(Fold(acc, s), b)
  {
    FoldAppend(acc, s, [b]);
    assert [b][1..] == [];
  }

  lemma NextByte(str: seq<bv8>, x: nat)
    requires x < |str|
    ensures Crc(str[..x + 1]) == Step(Crc(str[..x]), str[x])
  {
    assert str[..x + 1] == str[..x] + [str[x]];
    FoldSnoc(Initial, str[..x], str[x]);
  }

  /** The body of the outer loop of CRC16::fromString: XOR the byte in, then the inner loop of eight rounds. */
  method MixByte(sum: Word, b: bv8) returns (r: Word)
    ensures r == Step(sum, b)
  {
    r := sum ^ (b as Word);
    ghost var mixed := r;
    for i := 0 to 8
      invariant r == Rounds(mixed, i)
    {
      RoundIs(r);
      r := if r & 1 == 1 then (r >> 1) ^ 0xA001 else r >> 1;
    }
  }

  /** The loop of CRC16::fromString. */
  method FromString(str: seq<bv8>) returns (sum: Word)
    ensures sum == Crc(str)
    ensures sum <= 0xFFFF
  {
    sum := 0xFFFF;
    var x := 0;
    while x < |str|
      invariant 0 <= x <= |str|
      invariant sum == Crc(str[..x])
    {
      sum := MixByte(sum, str[x]);
      NextByte(str, x);
      x := x + 1;
    }
    assert str[..x] == str;
  }

  /** Folding follows any trace whose every entry is the Step of the one before. */
  lemma {:induction false} FoldTrace(s: seq<bv8>, trace: seq<Word>)
    requires |trace| == |s| + 1
    requires forall i :: 0 <= i < |s| ==> Step(trace[i], s[i]) == trace[i + 1]
    ensures Fold(trace[0], s) == trace[|s|]
    decreases |s|
  {
    if s != [] {
      FoldTrace(s[1..], trace[1..]);
    }
  }

  /** One entry of a trace of the accumulator over the digits 1 to 3: the step from sum over byte b gives next. */
  lemma StepValueLow(sum: Word, b: bv8, next: Word)
    requires (sum, b, next) in {(0xFFFF, 0x31, 0x947E), (0x947E, 0x32, 0xF595), (0xF595, 0x33, 0x7A75)}
    ensures Step(sum, b) == next
  {
    if (sum, b) == (0xFFFF, 0x31) {
      assert Step(0xFFFF, 0x31) == 0x947E;
    } else if (sum, b) == (0x947E, 0x32) {
      assert Step(0x947E, 0x32) == 0xF595;
    } else {
      assert Step(0xF595, 0x33) == 0x7A75;
    }
  }

  /** The same over the digits 4 to 6. */
  lemma StepValueMid(sum: Word, b: bv8, next: Word)
    requires (sum, b, next) in {(0x7A75, 0x34, 0x30BA), (0x30BA, 0x35, 0xA471), (0xA471, 0x36, 0x32E4)}
    ensures Step(sum, b) == next
  {
    if (sum, b) == (0x7A75, 0x34) {
      assert Step(0x7A75, 0x34) == 0x30BA;
    } else if (sum, b) == (0x30BA, 0x35) {
      assert Step(0x30BA, 0x35) == 0xA471;
    } else {
      assert Step(0xA471, 0x36) == 0x32E4;
    }
  }

  /** The same over the digits 7 to 9. */
  lemma StepValueHigh(sum: Word, b: bv8, next: Word)
    requires (sum, b, next) in {(0x32E4, 0x37, 0x9D73), (0x9D73, 0x38, 0x37DD), (0x37DD, 0x39, 0x4B37)}
    ensures Step(sum, b) == next
  {
    if (sum, b) == (0x32E4, 0x37) {
      assert Step(0x32E4, 0x37) == 0x9D73;
    } else if (sum, b) == (0x9D73, 0x38) {
      assert Step(0x9D73, 0x38) == 0x37DD;
    } else {
      assert Step(0x37DD, 0x39) == 0x4B37;
    }
  }

  /** The standard check value of CRC-16/MODBUS: the CRC of the ASCII digits "123456789" is 0x4B37. */
  lemma CheckValue(s: seq<bv8>)
    requires s == [0x31, 0x32, 0x33, 0x34, 0x35, 0x36, 0x37, 0x38, 0x39]
    ensures Crc(s) == 0x4B37
  {
    var trace: seq<Word> := [0xFFFF, 0x947E, 0xF595, 0x7A75, 0x30BA, 0xA471, 0x32E4, 0x9D73, 0x37DD, 0x4B37];
    forall i | 0 <= i < |s| ensures Step(trace[i], s[i]) == trace[i + 1] {
      if i < 3 {
        StepValueLow(trace[i], s[i], trace[i + 1]);
      } else if i < 6 {
        StepValueMid(trace[i], s[i], trace[i + 1]);
      } else {
        StepValueHigh(trace[i], s[i], trace[i + 1]);
      }
    }
    FoldTrace(s, trace);
  }
}
