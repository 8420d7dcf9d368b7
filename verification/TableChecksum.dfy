/** Checksums of the synthetic ACPI tables: every byte of a table adds up to zero modulo 256. */
module TableChecksum {
  import opened FlatMemory

  /** `unsigned` arithmetic wraps here. */
  const UNSIGNED: nat := 0x1_0000_0000

  const RSDP_PREFIX: nat := 20
  const RSDP_SIZE: nat := 36

  function Sum(bs: seq<byte>): nat {
    if bs == [] then 0 else Sum(bs[..|bs| - 1]) + bs[|bs| - 1]
  }

  predicate Balanced(bs: seq<byte>) { Sum(bs) % 256 == 0 }

  lemma {:induction false} SumUpdate(bs: seq<byte>, at: nat, b: byte)
    requires at < |bs|
    ensures Sum(bs[at := b]) == Sum(bs) - bs[at] + b
  {
    var n := |bs| - 1;
    if at < n {
      SumUpdate(bs[..n], at, b);
      assert bs[at := b][..n] == bs[..n][at := b];
    } else {
      assert bs[at := b][..n] == bs[..n];
    }
  }

  /** The unsigned running sum of the first `n` bytes. */
  method Total(b: array<byte>, n: nat) returns (sum: nat)
    requires n <= b.Length
    ensures sum == Sum(b[..n]) % UNSIGNED
  {
    sum := 0;
    for i := 0 to n
      invariant sum == Sum(b[..i]) % UNSIGNED
    {
      assert b[..i + 1][..i] == b[..i];
      sum := (sum + b[i]) % UNSIGNED;
    }
  }

  lemma Remainder(x: nat, k: nat, r: nat)
    requires x == 256 * k + r && r < 256
    ensures x % 256 == r
  {}

  lemma LowByteOf(sum: nat, m: nat, k: nat)
    requires m == 256 * k && k > 0
    ensures sum % m % 256 == sum % 256
  {
    var q, r := sum / m, sum % m;
    assert sum == m * q + r;
    assert m * q == 256 * (k * q);
    var t: nat := k * q + r / 256;
    assert sum == 256 * t + r % 256;
    Remainder(sum, t, r % 256);
  }

  lemma LowByte(sum: nat)
    ensures sum % UNSIGNED % 256 == sum % 256
  {
    LowByteOf(sum, UNSIGNED, 0x100_0000);
  }

  /** The byte that negates a wrapped sum balances the true one. */
  lemma Complement(sum: nat)
    ensures (sum + (UNSIGNED - sum % UNSIGNED) % UNSIGNED % 256) % 256 == 0
  {
    LowByte(sum);
    var r := sum % UNSIGNED;
    LowByte(UNSIGNED - r);
  }

  /** `checksum`: whatever the bytes held, the first `n` are balanced by the one at `at`, and no other byte changes. */
  method Checksum(b: array<byte>, n: nat, at: nat)
    requires at < n <= b.Length
    modifies b
    ensures Balanced(b[..n])
    ensures b[..] == old(b[..])[at := b[at]]
  {
    ghost var was := b[..];
    b[at] := 0;
    assert b[..] == was[at := 0];
    ghost var zeroed := b[..n];
    var sum := Total(b, n);
    Complement(Sum(zeroed));
    b[at] := (UNSIGNED - sum) % UNSIGNED % 256;
    SumUpdate(zeroed, at, b[at]);
    assert b[..n] == zeroed[at := b[at]];
  }

  /** Only one value of the checksum byte balances a table. */
  lemma ChecksumUnique(bs: seq<byte>, at: nat, b: byte)
    requires at < |bs| && Balanced(bs) && Balanced(bs[at := b])
    ensures bs[at] == b
  {
    SumUpdate(bs, at, b);
  }

  /** The two checksums of the root pointer: the second leaves the first intact. */
  method SealRsdp(b: array<byte>)
    requires b.Length == RSDP_SIZE
    modifies b
    ensures Balanced(b[..RSDP_PREFIX]) && Balanced(b[..])
    ensures b[..] == old(b[..])[8 := b[8]][32 := b[32]]
  {
    Checksum(b, RSDP_PREFIX, 8);
    ghost var prefix, was := b[..RSDP_PREFIX], b[..];
    Checksum(b, RSDP_SIZE, 32);
    assert b[..RSDP_PREFIX] == prefix;
    assert b[..RSDP_SIZE] == b[..];
  }

  /** The loader's own test of a table read from a file. */
  method Accepts(b: array<byte>) returns (ok: bool)
    ensures ok <==> Balanced(b[..])
  {
    var sum := Total(b, b.Length);
    assert b[..b.Length] == b[..];
    LowByte(Sum(b[..]));
    ok := sum % 256 == 0;
  }
}
