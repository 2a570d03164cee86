/**
  * The four v6 filler generators. Each in-place loop is proved equal to a rule
  * that gives byte `i` of the output from byte `i` of the key stream alone.
  */
module Generators {
  import opened Arithmetic
  import opened Bits
  import opened Protocol
  import opened Profile
  import opened Words

  function LowByte(n: nat): byte { (n % 256) as byte }

  // ---- Generator 1: three byte classes by weighted remainder ----

  const SHIFT := 0x100_0000

  /** `b % d` by multiplication: the quotient is the top of `b * magic`. */
  function Remainder(b: nat, divisor: nat): int
    requires divisor >= 1
  {
    b - ((b * (SHIFT / divisor + 1)) / SHIFT) * divisor
  }

  /** The reciprocal overshoots `SHIFT` by at most one divisor. */
  lemma MagicExcess(divisor: nat)
    requires 1 <= divisor
    ensures
      var magic := SHIFT / divisor + 1;
      1 <= divisor * magic - SHIFT <= divisor && magic <= SHIFT + 1
  {
    var q := SHIFT / divisor;
    assert SHIFT == divisor * q + SHIFT % divisor;
    assert divisor * (q + 1) == divisor * q + divisor;
    MulMonotone(1, q, divisor, q);
  }

  /** With that overshoot the product's low part stays below `SHIFT`, so its top is the quotient. */
  lemma QuotientExact(b: nat, divisor: nat, magic: nat, excess: nat)
    requires b < 256
    requires 1 <= divisor < 0x1_0000
    requires divisor * magic == SHIFT + excess
    requires excess <= divisor
    ensures (b * magic) / SHIFT == b / divisor
  {
    var q, r := b / divisor, b % divisor;
    var low := b * magic - q * SHIFT;
    assert b == q * divisor + r;
    ScaledLow(b, divisor, magic, excess, q, r);
    MulMonotone(b, excess, 255, 0xffff);
    MulMonotone(0, 0, b, excess);
    LowInRange(divisor, low, r, b * excess);
    DivModUnique(b * magic, SHIFT, q, low);
  }

  lemma LowInRange(divisor: nat, low: int, r: nat, rest: nat)
    requires 1 <= divisor && r < divisor && rest < SHIFT
    requires divisor * low == r * SHIFT + rest
    ensures 0 <= low < SHIFT
  {
    assert (divisor - 1 - r) * SHIFT == divisor * SHIFT - SHIFT - r * SHIFT;
    MulBounded(divisor, low, SHIFT);
  }

  lemma ScaledLow(b: nat, divisor: nat, magic: nat, excess: nat, q: nat, r: nat)
    requires b == q * divisor + r
    requires divisor * magic == SHIFT + excess
    ensures divisor * (b * magic - q * SHIFT) == r * SHIFT + b * excess
  {
    assert divisor * (b * magic) == b * (divisor * magic);
    assert b * (SHIFT + excess) == b * SHIFT + b * excess;
    assert divisor * (q * SHIFT) == (q * divisor) * SHIFT;
    assert divisor * (b * magic - q * SHIFT) == divisor * (b * magic) - divisor * (q * SHIFT);
  }

  /** The reciprocal is exact for every byte and every divisor below 2^16, without leaving 32 bits. */
  lemma RemainderExact(b: nat, divisor: nat)
    requires b < 256
    requires 1 <= divisor < 0x1_0000
    ensures Remainder(b, divisor) == b % divisor
    ensures b * (SHIFT / divisor + 1) <= 0xffff_ffff
  {
    var magic := SHIFT / divisor + 1;
    MagicExcess(divisor);
    QuotientExact(b, divisor, magic, divisor * magic - SHIFT);
    MulMonotone(b, magic, 255, SHIFT + 1);
  }

  function ClassByte(p: Profile, b: byte, i: nat, remainder: int): byte
  {
    if remainder < p.g1 then 0x20 + LowByte(b as nat + i) % 0x5f
    else if remainder < p.g1 + p.g2 then 0x80 + Xor(b, LowByte(i)) % 0x40
    else 0xc0 + LowByte(b as nat + 7 * i) % 0x40
  }

  function Rule1(p: Profile, b: byte, i: nat): byte
    requires GeneratorsInRange(p)
  {
    ClassByte(p, b, i, b as nat % (p.g1 + p.g2 + p.g3))
  }

  method Generator1(p: Profile, out: array<byte>)
    requires GeneratorsInRange(p)
    modifies out
    ensures forall i :: 0 <= i < out.Length ==> out[i] == Rule1(p, old(out[i]), i)
  {
    var divisor := p.g1 + p.g2 + p.g3;
    for i := 0 to out.Length
      invariant forall k :: 0 <= k < i ==> out[k] == Rule1(p, old(out[k]), k)
      invariant forall k :: i <= k < out.Length ==> out[k] == old(out[k])
    {
      RemainderExact(out[i] as nat, divisor);
      out[i] := ClassByte(p, out[i], i, Remainder(out[i] as nat, divisor));
    }
  }

  // ---- Generator 0: exact population count ----

  function BitOrder(orig: byte, index: nat, k: nat): (bit: nat)
    ensures bit < 8
  {
    (orig as nat + index + 3 * k) % 8
  }

  /** Bits visited from step `k` on, in steps of three, until the count is right. */
  function Adjust(orig: byte, index: nat, target: nat, b: byte, k: nat): byte
    decreases 8 - k
  {
    if k >= 8 || PopCount(b) == target then b
    else Adjust(orig, index, target, PutBit(b, BitOrder(orig, index, k), PopCount(b) < target), k + 1)
  }

  function Rule0(b: byte, index: nat, target: nat): byte
  {
    Adjust(b, index, target, b, 0)
  }

  /** Eight steps of three visit every bit. */
  lemma EveryBitVisited(orig: byte, index: nat, bit: nat) returns (k: nat)
    requires bit < 8
    ensures k < 8
    ensures BitOrder(orig, index, k) == bit
  {
    var n := orig as nat + index;
    var base, turns := n % 8, n / 8;
    var d := bit + 8 - base;
    k := (3 * d) % 8;
    DivModUnique(n + 3 * k, 8, turns + 1 + d - 3 * (3 * d / 8), bit);
  }

  /** All bits visited so far hold the wanted value while the count is still off. */
  ghost predicate Visited(orig: byte, index: nat, target: nat, b: byte, k: nat) {
    PopCount(b) != target ==> forall j :: 0 <= j < k ==> ByteBit(b, BitOrder(orig, index, j)) == (PopCount(b) < target)
  }

  lemma UniformPopCount(b: byte, on: bool)
    requires forall k :: 0 <= k < 8 ==> ByteBit(b, k) == on
    ensures PopCount(b) == if on then 8 else 0
  {
    var n := b as nat;
    assert forall k :: 0 <= k < 8 ==> Bit(n, k) == ByteBit(b, k);
    OnesUniform(n, 8, on);
  }

  lemma OffCountStops(orig: byte, index: nat, target: nat, b: byte)
    requires Visited(orig, index, target, b, 8)
    requires 1 <= target <= 7
    ensures PopCount(b) == target
  {
    if PopCount(b) != target {
      var on := PopCount(b) < target;
      forall bit | 0 <= bit < 8
        ensures ByteBit(b, bit) == on
      {
        var k := EveryBitVisited(orig, index, bit);
        assert ByteBit(b, BitOrder(orig, index, k)) == on;
      }
      UniformPopCount(b, on);
    }
  }

  lemma {:induction false} AdjustCounts(orig: byte, index: nat, target: nat, b: byte, k: nat)
    requires 1 <= target <= 7
    requires k <= 8
    requires Visited(orig, index, target, b, k)
    ensures
      var r := Adjust(orig, index, target, b, k);
      && PopCount(r) == target
      && (PopCount(b) <= target ==> forall j :: 0 <= j < 8 && ByteBit(b, j) ==> ByteBit(r, j))
      && (PopCount(b) >= target ==> forall j :: 0 <= j < 8 && ByteBit(r, j) ==> ByteBit(b, j))
    decreases 8 - k
  {
    if k == 8 {
      OffCountStops(orig, index, target, b);
    } else if PopCount(b) != target {
      AdjustCounts(orig, index, target, PutBit(b, BitOrder(orig, index, k), PopCount(b) < target), k + 1);
    }
  }

  /**
    * The transformed byte has exactly `target` set bits, and bits moved one way
    * only, so it differs from the original in as few bits as possible.
    */
  lemma Rule0Exact(b: byte, index: nat, target: nat)
    requires 1 <= target <= 7
    ensures
      var r := Rule0(b, index, target);
      && PopCount(r) == target
      && (PopCount(b) <= target ==> forall j :: 0 <= j < 8 && ByteBit(b, j) ==> ByteBit(r, j))
      && (PopCount(b) >= target ==> forall j :: 0 <= j < 8 && ByteBit(r, j) ==> ByteBit(b, j))
  {
    AdjustCounts(b, index, target, b, 0);
  }

  /** The compile-time transform, with the count kept in a variable. */
  method TransformByte(orig: byte, index: nat, target: nat) returns (b: byte)
    ensures b == Rule0(orig, index, target)
  {
    b := orig;
    var ones := PopCount(b);
    var k := 0;
    while k < 8 && ones != target
      invariant k <= 8
      invariant ones == PopCount(b)
      invariant Adjust(orig, index, target, b, k) == Rule0(orig, index, target)
    {
      var bit := BitOrder(orig, index, k);
      if ByteBit(b, bit) == (ones < target) {
        SameBit(b, bit);
      }
      if ones < target {
        if !ByteBit(b, bit) {
          b := PutBit(b, bit, true);
          ones := ones + 1;
        }
      } else if ByteBit(b, bit) {
        b := PutBit(b, bit, false);
        ones := ones - 1;
      }
      k := k + 1;
    }
  }

  lemma SameBit(b: byte, k: nat)
    requires k < 8
    ensures PutBit(b, k, ByteBit(b, k)) == b
  {
    SameWithBit(b as nat, k);
  }

  lemma {:induction false} SameWithBit(b: nat, k: nat)
    ensures WithBit(b, k, Bit(b, k)) == b
  {
    if k > 0 {
      SameWithBit(b / 2, k - 1);
    }
  }

  /** Eighths of a percentage, kept away from all-clear and all-set bytes. */
  function PercentBits(percent: nat): (n: nat)
    ensures 1 <= n <= 7
  {
    var scaled := 8 * percent;
    if scaled <= 49 then 1 else if scaled > 749 then 7 else (scaled + 50) / 100
  }

  function TargetBits(p: Profile, sequence: nat): (n: nat)
    ensures 1 <= n <= 7
  {
    PercentBits(Pick(p.prf.word(BitPercent, sequence, 0), p.bitMin, p.bitMax))
  }

  /** What a byte becomes, by its position modulo eight. */
  type Rule = (nat, byte) -> byte

  function RuleFor(target: nat): Rule { (index: nat, b: byte) => Rule0(b, index, target) }

  /** A table row: the rule's byte for every byte. */
  ghost predicate IsRow(row: Bytes, rule: Rule, index: nat)
  {
    |row| == 256 && forall b: byte :: row[b] == rule(index, b)
  }

  /** One row per position modulo eight. */
  ghost predicate AreRows(rows: seq<Bytes>, rule: Rule)
  {
    |rows| == 8 && forall index :: 0 <= index < 8 ==> IsRow(rows[index], rule, index)
  }

  /** Rows for every target population. */
  ghost predicate IsTable(table: seq<seq<Bytes>>)
  {
    |table| == 7 && forall t :: 0 <= t < 7 ==> AreRows(table[t], RuleFor(t + 1))
  }

  method BuildRow(index: nat, target: nat) returns (row: Bytes)
    ensures IsRow(row, RuleFor(target), index)
  {
    row := [];
    ghost var rule := RuleFor(target);
    for b := 0 to 256
      invariant |row| == b
      invariant forall k: byte :: k as int < b ==> row[k] == rule(index, k)
    {
      var transformed := TransformByte(b as byte, index, target);
      row := row + [transformed];
    }
  }

  method BuildRows(target: nat) returns (rows: seq<Bytes>)
    ensures AreRows(rows, RuleFor(target))
  {
    rows := [];
    ghost var rule := RuleFor(target);
    for index := 0 to 8
      invariant |rows| == index
      invariant forall k :: 0 <= k < index ==> IsRow(rows[k], rule, k)
    {
      var row := BuildRow(index, target);
      rows := rows + [row];
    }
  }

  /** The table every profile shares. */
  method BuildTable() returns (table: seq<seq<Bytes>>)
    ensures IsTable(table)
  {
    table := [];
    for t := 0 to 7
      invariant |table| == t
      invariant forall k :: 0 <= k < t ==> AreRows(table[k], RuleFor(k + 1))
    {
      var rows := BuildRows(t + 1);
      table := table + [rows];
    }
  }

  /** Up to eight bytes, each through its position's row. */
  method LookupBlock(rows: seq<Bytes>, ghost rule: Rule, out: array<byte>, start: nat)
    requires AreRows(rows, rule)
    requires start < out.Length
    requires start % 8 == 0
    modifies out
    ensures forall i :: start <= i < out.Length && i < start + 8 ==> out[i] == rule(i % 8, old(out[i]))
    ensures forall i :: 0 <= i < out.Length && !(start <= i < start + 8) ==> out[i] == old(out[i])
  {
    var end := Min(start + 8, out.Length);
    for i := start to end
      invariant forall k :: start <= k < i ==> out[k] == rule(k % 8, old(out[k]))
      invariant forall k :: 0 <= k < out.Length && !(start <= k < i) ==> out[k] == old(out[k])
    {
      var index := i - start;
      assert i % 8 == index && IsRow(rows[index], rule, index);
      out[i] := rows[index][out[i]];
    }
  }

  /** Eight bytes at a time through the table. */
  method LookupAll(rows: seq<Bytes>, ghost rule: Rule, out: array<byte>)
    requires AreRows(rows, rule)
    modifies out
    ensures forall i :: 0 <= i < out.Length ==> out[i] == rule(i % 8, old(out[i]))
  {
    var start := 0;
    while start < out.Length
      invariant start % 8 == 0
      invariant forall i :: 0 <= i < out.Length && i < start ==> out[i] == rule(i % 8, old(out[i]))
      invariant forall i :: start <= i < out.Length ==> out[i] == old(out[i])
    {
      LookupBlock(rows, rule, out, start);
      start := start + 8;
    }
  }

  /** Every byte goes through the table, and comes out with the record's number of set bits. */
  method Generator0(p: Profile, sequence: nat, table: seq<seq<Bytes>>, out: array<byte>)
    requires IsTable(table)
    modifies out
    ensures forall i :: 0 <= i < out.Length ==> out[i] == Rule0(old(out[i]), i % 8, TargetBits(p, sequence))
    ensures forall i :: 0 <= i < out.Length ==> PopCount(out[i]) == TargetBits(p, sequence)
  {
    var target := TargetBits(p, sequence);
    ghost var rule := RuleFor(target);
    LookupAll(table[target - 1], rule, out);
    forall i | 0 <= i < out.Length
      ensures out[i] == Rule0(old(out[i]), i % 8, target) && PopCount(out[i]) == target
    {
      assert out[i] == rule(i % 8, old(out[i]));
      Rule0Exact(old(out[i]), i % 8, target);
    }
  }

  // ---- Generator 2: two packed digits ----

  /** A raised high digit over a decimal low one. */
  function Digits(b: nat, four: nat, two: nat, g4: nat): (n: nat)
    ensures n < 256
  {
    ((b / 16 + four + 3) % 16) * 16 + (b % 16 + g4 + two) % 10
  }

  function Rule2(p: Profile, b: byte, i: nat): byte
    requires GeneratorsInRange(p)
  {
    Digits(b as nat, i % 4, i % 2, p.g4) as byte
  }

  /** Shifting a byte left by four drops its high digit. */
  lemma ShiftedLeft(n: nat)
    ensures (16 * n) % 256 == 16 * (n % 16)
  {
    assert n == n / 16 * 16 + n % 16;
    DivModUnique(16 * n, 256, n / 16, 16 * (n % 16));
  }

  /** A byte index keeps the residues the digits use. */
  lemma ByteIndex(i: nat)
    ensures (i % 256) % 4 == i % 4 && (i % 256) % 2 == i % 2
  {
    var q, r := i / 256, i % 256;
    assert i == 256 * q + r;
    DivModUnique(i, 4, 64 * q + r / 4, r % 4);
    DivModUnique(i, 2, 128 * q + r / 2, r % 2);
  }

  /** The masks of the loop, as residues. */
  lemma Masks(b: byte, index: byte)
    ensures And(index, 3) as nat == index as nat % 4
    ensures And(index, 1) as nat == index as nat % 2
    ensures And(b, 15) as nat == b as nat % 16
  {
    assert Pow2(1) == 2 && Pow2(2) == 4 && Pow2(4) == 16;
    AndLow(index as nat, 2, 8);
    AndLow(index as nat, 1, 8);
    AndLow(b as nat, 4, 8);
  }

  method MaskDigits(b: byte, index: byte) returns (four: nat, two: nat, low: nat)
    ensures four == index as nat % 4 && two == index as nat % 2 && low == b as nat % 16
  {
    Masks(b, index);
    four, two, low := And(index, 3) as nat, And(index, 1) as nat, And(b, 15) as nat;
  }

  method ShiftAndJoin(raised: byte, low: nat) returns (r: nat)
    requires low < 16
    ensures r == 16 * (raised as nat % 16) + low
  {
    var hi := LowByte(16 * raised as nat) as nat;
    ShiftedLeft(raised as nat);
    JoinDigits(raised as nat % 16, low);
    r := OrBits(hi, low, 8);
  }

  lemma ByteDigit(n: nat, k: nat)
    ensures n % 256 % 16 == n % 16 && (n % 256 + k) % 16 == (n + k) % 16
  {
    var q, r := n / 256, n % 256;
    DivModUnique(n, 16, 16 * q + r / 16, r % 16);
    DivModUnique(n + k, 16, 16 * q + (r + k) / 16, (r + k) % 16);
  }

  lemma RaisedDigit(n: nat)
    ensures LowByte(LowByte(n) as nat + 3) as nat % 16 == (n + 3) % 16
  {
    ByteDigit(n, 3);
    ByteDigit(n % 256 + 3, 0);
  }

  /** The two digits by shifts and masks on wrapping bytes. */
  method PackDigits(b: byte, index: byte, g4: nat) returns (r: nat)
    ensures r == Digits(b as nat, index as nat % 4, index as nat % 2, g4)
  {
    var four, two, low := MaskDigits(b, index);
    var raised := LowByte(LowByte(b as nat / 16 + four) as nat + 3);
    RaisedDigit(b as nat / 16 + four);
    r := ShiftAndJoin(raised, (low + g4 + two) % 10);
  }

  lemma JoinDigits(high: nat, low: nat)
    requires high < 16 && low < 16
    ensures OrBits(16 * high, low, 8) == 16 * high + low
  {
    assert Pow2(4) == 16;
    OrInParts(low, high, 4, 4);
  }

  method Generator2(p: Profile, out: array<byte>)
    requires GeneratorsInRange(p)
    modifies out
    ensures forall i :: 0 <= i < out.Length ==> out[i] == Rule2(p, old(out[i]), i)
  {
    for i := 0 to out.Length
      invariant forall k :: 0 <= k < i ==> out[k] == Rule2(p, old(out[k]), k)
      invariant forall k :: i <= k < out.Length ==> out[k] == old(out[k])
    {
      ByteIndex(i);
      var packed := PackDigits(out[i], LowByte(i), p.g4);
      out[i] := packed as byte;
    }
  }

  // ---- Generator 3: a motif with digits ----

  const MOTIF_LEN := 32

  function Patterned(p: Profile, motif: Bytes, i: nat): byte
    requires GeneratorsInRange(p)
    requires |motif| == MOTIF_LEN
  {
    Xor(LowByte((p.g5 + 3) * i), motif[i % (4 * p.g5)])
  }

  function Rule3(p: Profile, motif: Bytes, b: byte, i: nat): byte
    requires GeneratorsInRange(p)
    requires |motif| == MOTIF_LEN
  {
    var at := i % p.g6;
    if at < p.g6 - 3 then Patterned(p, motif, i)
    else if at < p.g6 - 1 then 0x30 + b % 10
    else b
  }

  /** The motif laid end to end over 64 bytes. */
  method RepeatMotif(motif: Bytes, len: nat) returns (repeated: Bytes)
    requires 1 <= len <= |motif|
    ensures |repeated| == 64
    ensures forall i :: 0 <= i < 64 ==> repeated[i] == motif[i % len]
  {
    repeated := [];
    while |repeated| < 64
      invariant |repeated| <= 64
      invariant |repeated| % len == 0 || |repeated| == 64
      invariant forall i :: 0 <= i < |repeated| ==> repeated[i] == motif[i % len]
    {
      var n := Min(len, 64 - |repeated|);
      var before := |repeated|;
      repeated := repeated + motif[..n];
      forall i | before <= i < before + n
        ensures repeated[i] == motif[i % len]
      {
        StepMod(before, i - before, len);
      }
      StepMod(before, n, len);
    }
  }

  /** One byte of a period. */
  method PeriodByte(p: Profile, ghost motif: Bytes, repeated: Bytes, b: byte, start: nat, motifAt: nat, k: nat) returns (r: byte)
    requires GeneratorsInRange(p) && k < p.g6
    requires |motif| == MOTIF_LEN && |repeated| == 64
    requires forall i :: 0 <= i < 64 ==> repeated[i] == motif[i % (4 * p.g5)]
    requires start % p.g6 == 0 && motifAt == start % (4 * p.g5)
    ensures r == Rule3(p, motif, b, start + k)
  {
    StepMod(start, k, p.g6);
    if k < p.g6 - 3 {
      ModIdempotent(start, k, 4 * p.g5);
      r := Xor(LowByte((p.g5 + 3) * (start + k)), repeated[motifAt + k]);
    } else if k < p.g6 - 1 {
      r := 0x30 + b % 10;
    } else {
      r := b;
    }
  }

  /** One period: a run read straight off the repeated motif, two digits, one kept byte. */
  method Period(p: Profile, motif: Bytes, repeated: Bytes, out: array<byte>, start: nat, motifAt: nat)
    requires GeneratorsInRange(p)
    requires |motif| == MOTIF_LEN && |repeated| == 64
    requires forall i :: 0 <= i < 64 ==> repeated[i] == motif[i % (4 * p.g5)]
    requires start % p.g6 == 0 && motifAt == start % (4 * p.g5)
    requires start < out.Length
    modifies out
    ensures forall i :: start <= i < out.Length && i < start + p.g6 ==> out[i] == Rule3(p, motif, old(out[i]), i)
    ensures forall i :: 0 <= i < out.Length && !(start <= i < start + p.g6) ==> out[i] == old(out[i])
  {
    var end := Min(start + p.g6, out.Length);
    for i := start to end
      invariant forall k :: start <= k < i ==> out[k] == Rule3(p, motif, old(out[k]), k)
      invariant forall k :: 0 <= k < out.Length && !(start <= k < i) ==> out[k] == old(out[k])
    {
      out[i] := PeriodByte(p, motif, repeated, out[i], start, motifAt, i - start);
    }
  }

  method Generator3(p: Profile, motif: Bytes, out: array<byte>)
    requires GeneratorsInRange(p)
    requires |motif| == MOTIF_LEN
    modifies out
    ensures forall i :: 0 <= i < out.Length ==> out[i] == Rule3(p, motif, old(out[i]), i)
  {
    var len, period := 4 * p.g5, p.g6;
    var repeated := RepeatMotif(motif, len);
    var advance := period % len;
    var start, motifAt := 0, 0;
    while start < out.Length
      invariant start % period == 0 && motifAt == start % len
      invariant forall i :: 0 <= i < out.Length && i < start ==> out[i] == Rule3(p, motif, old(out[i]), i)
      invariant forall i :: start <= i < out.Length ==> out[i] == old(out[i])
    {
      Period(p, motif, repeated, out, start, motifAt);
      AddMod(start, period, len);
      StepMod(start, period, period);
      motifAt := motifAt + advance;
      if motifAt >= len {
        motifAt := motifAt - len;
      }
      start := start + period;
    }
  }

  // ---- The filler all four serve ----

  function MotifOf(p: Profile, sequence: nat): (m: Bytes)
    ensures |m| == MOTIF_LEN
  {
    seq(MOTIF_LEN, i requires 0 <= i < MOTIF_LEN => p.prf.stream(Motif, sequence, MOTIF_LEN, i))
  }

  function RuleByte(p: Profile, sequence: nat, b: byte, i: nat): byte
    requires GeneratorsInRange(p)
  {
    if p.generator == 1 then Rule1(p, b, i)
    else if p.generator == 2 then Rule2(p, b, i)
    else if p.generator == 3 then Rule3(p, MotifOf(p, sequence), b, i)
    else Rule0(b, i % 8, TargetBits(p, sequence))
  }

  /** `n` filler bytes; the length is part of the key stream's seed. */
  function Official(p: Profile, sequence: nat, n: nat): (r: Bytes)
    requires GeneratorsInRange(p)
    ensures |r| == n
  {
    seq(n, i requires 0 <= i < n => RuleByte(p, sequence, p.prf.stream(Padding, sequence, n, i), i))
  }

  method FillOfficial(p: Profile, sequence: nat, table: seq<seq<Bytes>>, out: array<byte>)
    requires GeneratorsInRange(p) && IsTable(table)
    modifies out
    ensures out[..] == Official(p, sequence, out.Length)
  {
    var n := out.Length;
    forall i | 0 <= i < n { out[i] := p.prf.stream(Padding, sequence, n, i); }
    if p.generator == 1 {
      Generator1(p, out);
    } else if p.generator == 2 {
      Generator2(p, out);
    } else if p.generator == 3 {
      Generator3(p, MotifOf(p, sequence), out);
    } else {
      Generator0(p, sequence, table, out);
    }
  }
}
