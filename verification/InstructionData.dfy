/** The bytes of a payout's instruction (workers/solana_sync.go): the amount packed behind a discriminator, and the check that
    reads it back (solana/solana_client.go). */
module InstructionData {
  import opened Arithmetic

  type byte = b: int | 0 <= b < 256

  /** The n low bytes of a number, lowest first. */
  function LittleEndian(v: nat, n: nat): (bs: seq<byte>)
    ensures |bs| == n
  {
    if n == 0 then [] else [v % 256] + LittleEndian(v / 256, n - 1)
  }

  function Decode(bs: seq<byte>): nat {
    if bs == [] then 0 else bs[0] + 256 * Decode(bs[1..])
  }

  /** Byte i is the i-th digit to the base 256. */
  lemma {:induction false} ByteAt(v: nat, n: nat, i: nat)
    requires i < n
    ensures LittleEndian(v, n)[i] == (v / Pow256(i)) % 256
  {
    if i > 0 {
      ByteAt(v / 256, n - 1, i - 1);
      DivTwice(v, Pow256(i - 1));
    }
  }

  lemma DivTwice(v: nat, p: nat)
    requires p > 0
    ensures v / 256 / p == v / (256 * p)
  {
    var q := v / 256;
    assert v == 256 * q + v % 256 && q == p * (q / p) + q % p;
    Regroup(p, q / p);
    DivModUnique(v, 256 * p, q / p, v % 256 + 256 * (q % p));
  }

  /** Packing and reading back is the identity on uint64, and on wider numbers keeps the low 64 bits. */
  lemma {:induction false} DecodeOfEncode(v: nat, n: nat)
    ensures Decode(LittleEndian(v, n)) == v % Pow256(n)
  {
    if n > 0 {
      DecodeOfEncode(v / 256, n - 1);
      LowDigits(v, Pow256(n - 1));
    }
  }

  function Pow256(n: nat): (p: nat)
    ensures p > 0
  {
    if n == 0 then 1 else 256 * Pow256(n - 1)
  }

  lemma LowDigits(v: nat, p: nat)
    requires p > 0
    ensures v % (256 * p) == v % 256 + 256 * ((v / 256) % p)
  {
    var q := v / 256;
    assert v == 256 * q + v % 256;
    assert q == p * (q / p) + q % p;
    Regroup(p, q / p);
    DivModUnique(v, 256 * p, q / p, v % 256 + 256 * (q % p));
  }

  lemma Regroup(p: nat, q: int)
    ensures 256 * (p * q) == (256 * p) * q
  {}

  /** No two byte strings of one length mean the same number. */
  lemma {:induction false} EncodeOfDecode(bs: seq<byte>)
    ensures LittleEndian(Decode(bs), |bs|) == bs
  {
    if bs != [] {
      EncodeOfDecode(bs[1..]);
      assert bs == [bs[0]] + bs[1..];
      DivModUnique(bs[0] + 256 * Decode(bs[1..]), 256, Decode(bs[1..]), bs[0]);
    }
  }

  /** Fills the instruction buffer: eight bytes of discriminator, then the amount, in place. */
  method PackData(discriminator: seq<byte>, amountRaw: nat) returns (data: array<byte>)
    requires |discriminator| == 8
    ensures data.Length == 16 && fresh(data)
    ensures data[..8] == discriminator && data[8..] == LittleEndian(amountRaw, 8)
  {
    data := new byte[16](_ => 0);
    for i := 0 to 8
      invariant data[..i] == discriminator[..i]
    {
      data[i] := discriminator[i];
    }
    PutUint64(data, amountRaw);
  }

  method PutUint64(data: array<byte>, amountRaw: nat)
    requires data.Length == 16
    modifies data
    ensures data[..8] == old(data[..8]) && data[8..] == LittleEndian(amountRaw, 8)
  {
    var rest := amountRaw;
    for i := 0 to 8
      invariant data[..8] == old(data[..8])
      invariant data[8..8 + i] + LittleEndian(rest, 8 - i) == LittleEndian(amountRaw, 8)
    {
      NextByte(data[8..8 + i], rest, 8 - i);
      hide LittleEndian;
      ghost var before := data[8..8 + i];
      data[8 + i] := rest % 256;
      assert data[8..8 + i + 1] == before + [rest % 256];
      rest := rest / 256;
    }
    assert data[8..16] == data[8..];
  }

  lemma NextByte(done: seq<byte>, rest: nat, n: nat)
    requires n > 0
    ensures done + LittleEndian(rest, n) == (done + [rest % 256]) + LittleEndian(rest / 256, n - 1)
  {}

  datatype Check = Valid | NoInstructions | TooShort | Mismatch(found: nat)

  /** What the integrity check says of a fetched transaction's instructions. */
  function ValidateOnChainAmount(instructions: seq<seq<byte>>, expected: nat): Check {
    if instructions == [] then NoInstructions
    else if |instructions[0]| < 16 then TooShort
    else if Decode(instructions[0][8..16]) != expected then Mismatch(Decode(instructions[0][8..16]))
    else Valid
  }

  /** The check accepts exactly transactions whose first instruction carries the amount, lowest byte first, behind its first
      eight bytes. */
  lemma ValidIff(instructions: seq<seq<byte>>, expected: nat)
    ensures ValidateOnChainAmount(instructions, expected) == Valid
            <==> |instructions| > 0 && |instructions[0]| >= 16 && expected < 0x1_0000_0000_0000_0000
                 && instructions[0][8..16] == LittleEndian(expected, 8)
  {
    if |instructions| > 0 && |instructions[0]| >= 16 {
      var bytes := instructions[0][8..16];
      EncodeOfDecode(bytes);
      DecodeBound(bytes);
      if expected < 0x1_0000_0000_0000_0000 {
        Packed64(expected);
      }
      assert Pow256(8) == 0x1_0000_0000_0000_0000;
      hide Decode, LittleEndian, Pow256;
    }
  }

  lemma {:induction false} DecodeBound(bs: seq<byte>)
    ensures Decode(bs) < Pow256(|bs|)
  {
    if bs != [] {
      DecodeBound(bs[1..]);
    }
  }

  lemma Packed64(v: nat)
    requires v < 0x1_0000_0000_0000_0000
    ensures Decode(LittleEndian(v, 8)) == v
  {
    DecodeOfEncode(v, 8);
    assert Pow256(8) == 0x1_0000_0000_0000_0000;
    hide Decode, LittleEndian, Pow256;
  }

  /** The check accepts a packed instruction exactly for the amount that was packed. */
  lemma PackedAmountValidates(data: seq<byte>, amountRaw: nat, expected: nat, more: seq<seq<byte>>)
    requires |data| == 16 && data[8..] == LittleEndian(amountRaw, 8) && amountRaw < 0x1_0000_0000_0000_0000
    ensures ValidateOnChainAmount([data] + more, expected) == Valid <==> expected == amountRaw
    ensures expected != amountRaw ==> ValidateOnChainAmount([data] + more, expected) == Mismatch(amountRaw)
  {
    hide Decode, LittleEndian;
    Packed64(amountRaw);
    assert data[8..16] == data[8..];
    assert ([data] + more)[0] == data;
  }
}
