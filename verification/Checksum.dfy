// The packet checksum (src/common/protocol.c): the fold and complement of section 1 of
// RFC 1071, taken over single bytes rather than 16-bit words.
module Checksum {
  import opened Bytes

  const UINT32: int := 0x1_0000_0000
  const MAX_BODY: nat := 1024

  function ByteSum(data: seq<byte>): nat {
    if data == [] then 0 else ByteSum(data[..|data| - 1]) + data[|data| - 1]
  }

  function Fold(sum: nat): (r: nat)
    ensures r < 0x1_0000
  {
    if sum < 0x1_0000 then sum else Fold(sum % 0x1_0000 + sum / 0x1_0000)
  }

  // The sum is kept in 32 bits, folded to 16, and complemented.
  function ChecksumOf(data: seq<byte>): (c: int)
    ensures 0 <= c <= 0xFFFF
  {
    0xFFFF - Fold(ByteSum(data) % UINT32)
  }

  method CalculateChecksum(data: array<byte>, len: nat) returns (c: int)
    requires len <= data.Length
    ensures c == ChecksumOf(data[..len])
  {
    var sum: nat := 0;
    for i := 0 to len
      invariant sum == ByteSum(data[..i]) % UINT32
    {
      assert data[..i + 1][..i] == data[..i];
      WrapIsModular(ByteSum(data[..i]), data[i]);
      sum := (sum + data[i]) % UINT32;
    }
    ghost var total := sum;
    while sum / 0x1_0000 != 0
      invariant Fold(sum) == Fold(total)
      decreases sum
    {
      FoldStep(sum);
      sum := sum % 0x1_0000 + sum / 0x1_0000;
    }
    c := 0xFFFF - sum;
  }

  lemma WrapIsModular(a: nat, b: nat)
    ensures (a % UINT32 + b) % UINT32 == (a + b) % UINT32
  {}

  // ---------------------------------------------------------------------------
  // What the checksum says about the data
  // ---------------------------------------------------------------------------

  lemma FoldStep(s: nat)
    requires s >= 0x1_0000
    ensures var s' := s % 0x1_0000 + s / 0x1_0000;
            0 < s' < s && (s' - 1) % 0xFFFF == (s - 1) % 0xFFFF
  {
    var s' := s % 0x1_0000 + s / 0x1_0000;
    assert s - 1 == (s' - 1) + (s / 0x1_0000) * 0xFFFF;
  }

  // The sum modulo 65535, with zero kept apart from its multiples.
  function Residue(s: nat): nat {
    if s == 0 then 0 else (s - 1) % 0xFFFF + 1
  }

  // The fold ends, and gives the residue.
  lemma {:induction false} FoldIsResidue(s: nat)
    ensures Fold(s) == Residue(s)
  {
    if s >= 0x1_0000 {
      FoldStep(s);
      FoldIsResidue(s % 0x1_0000 + s / 0x1_0000);
    }
  }

  lemma {:induction false} ByteSumIsSmall(data: seq<byte>)
    ensures ByteSum(data) <= 255 * |data|
  {
    if data != [] {
      ByteSumIsSmall(data[..|data| - 1]);
    }
  }

  lemma ChecksumIsResidue(data: seq<byte>)
    requires |data| <= MAX_BODY
    ensures ChecksumOf(data) == 0xFFFF - Residue(ByteSum(data))
  {
    ByteSumIsSmall(data);
    assert ByteSum(data) % UINT32 == ByteSum(data);
    FoldIsResidue(ByteSum(data));
  }

  // Sum and checksum together are 0 modulo 65535. Of the two values that this leaves for a
  // multiple of 65535, bytes that are all zero get 65535 and any others 0.
  lemma ChecksumCompletesSum(data: seq<byte>)
    requires |data| <= MAX_BODY
    ensures (ByteSum(data) + ChecksumOf(data)) % 65535 == 0
    ensures ChecksumOf(data) == 65535 <==> forall i :: 0 <= i < |data| ==> data[i] == 0
  {
    ChecksumIsResidue(data);
    SumIsZeroIff(data);
    ResidueLeavesMultiple(ByteSum(data));
    hide Residue;
  }

  lemma ResidueLeavesMultiple(s: nat)
    ensures (s + (65535 - Residue(s))) % 65535 == 0 && (Residue(s) == 0 <==> s == 0)
  {
    if s > 0 {
      assert s + (65535 - Residue(s)) == 65535 * ((s - 1) / 65535 + 1);
    }
  }

  lemma {:induction false} SumIsZeroIff(data: seq<byte>)
    ensures ByteSum(data) == 0 <==> forall i :: 0 <= i < |data| ==> data[i] == 0
  {
    if data != [] {
      var n := |data| - 1;
      SumIsZeroIff(data[..n]);
      if ByteSum(data) == 0 {
        forall i | 0 <= i < |data|
          ensures data[i] == 0
        {
          assert i < n ==> data[i] == data[..n][i];
        }
      }
    }
  }

  predicate Indistinct(a: nat, b: nat) {
    (a - b) % 0xFFFF == 0 && (a == 0 <==> b == 0)
  }

  lemma SameResidue(a: nat, b: nat)
    ensures Residue(a) == Residue(b) <==> Indistinct(a, b)
  {}

  // Two buffers get the same checksum exactly when their byte sums agree modulo 65535
  // and are both zero or both not.
  lemma ChecksumsAgreeIff(a: seq<byte>, b: seq<byte>)
    requires |a| <= MAX_BODY && |b| <= MAX_BODY
    ensures ChecksumOf(a) == ChecksumOf(b) <==> Indistinct(ByteSum(a), ByteSum(b))
  {
    ChecksumIsResidue(a);
    ChecksumIsResidue(b);
    SameResidue(ByteSum(a), ByteSum(b));
  }

  lemma {:induction false} ByteSumAfterUpdate(data: seq<byte>, i: nat, v: byte)
    requires i < |data|
    ensures ByteSum(data[i := v]) == ByteSum(data) - data[i] + v
  {
    var n := |data| - 1;
    if i < n {
      ByteSumAfterUpdate(data[..n], i, v);
      assert data[i := v][..n] == data[..n][i := v];
    } else {
      assert data[i := v][..n] == data[..n];
    }
  }

  lemma CloseSumsAreDistinct(a: nat, b: nat)
    requires a != b && -256 < a - b < 256
    ensures !Indistinct(a, b)
  {}

  lemma OneByteShiftsTheSum(data: seq<byte>, i: nat, v: byte)
    requires i < |data| && v != data[i]
    ensures var a, b := ByteSum(data[i := v]), ByteSum(data);
            a != b && -256 < a - b < 256
  {
    ByteSumAfterUpdate(data, i, v);
  }

  // Changing one byte always changes the checksum.
  lemma SingleByteChangeIsSeen(data: seq<byte>, i: nat, v: byte)
    requires i < |data| <= MAX_BODY && v != data[i]
    ensures ChecksumOf(data[i := v]) != ChecksumOf(data)
  {
    var changed := data[i := v];
    OneByteShiftsTheSum(data, i, v);
    CloseSumsAreDistinct(ByteSum(changed), ByteSum(data));
    ChecksumsAgreeIff(changed, data);
  }

  // Moving value from one byte to another never does: in particular, swapping two bytes
  // goes unseen.
  lemma BalancedChangeIsNotSeen(data: seq<byte>, i: nat, j: nat, v: byte, w: byte)
    requires i < |data| && j < |data| && i != j
    requires v as int + w as int == data[i] as int + data[j] as int
    ensures ChecksumOf(data[i := v][j := w]) == ChecksumOf(data)
  {
    ByteSumAfterUpdate(data, i, v);
    ByteSumAfterUpdate(data[i := v], j, w);
  }
}
