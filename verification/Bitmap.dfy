/** The bitmap block as bytes: how balloc and bfree in fs.c, and balloc in mkfs.c, keep one bit for each
    data block. */
module Bitmap {
  import opened Blocks

  /** The mask for bit `i` of a bitmap: `1 << (i % 8)`. */
  function Mask(i: nat): bv8 {
    1 << (i % 8)
  }

  lemma MaskIs(i: nat)
    ensures Mask(i) == [1, 2, 4, 8, 16, 32, 64, 128][i % 8]
  {
    var j := i % 8;
    if j == 0 { assert Mask(i) == 1; }
    else if j == 1 { assert Mask(i) == 2; }
    else if j == 2 { assert Mask(i) == 4; }
    else if j == 3 { assert Mask(i) == 8; }
    else if j == 4 { assert Mask(i) == 16; }
    else if j == 5 { assert Mask(i) == 32; }
    else if j == 6 { assert Mask(i) == 64; }
    else { assert Mask(i) == 128; }
  }

  /** One of the eight masks. */
  predicate OneBit(m: bv8) {
    m == 1 || m == 2 || m == 4 || m == 8 || m == 16 || m == 32 || m == 64 || m == 128
  }

  lemma SetMask(x: bv8, m: bv8, k: bv8)
    requires OneBit(m) && OneBit(k)
    ensures (x | m) & k != 0 <==> m == k || x & k != 0
    ensures (x & !m) & k != 0 <==> m != k && x & k != 0
  {
  }

  function IsSet(data: seq<bv8>, i: nat): bool
    requires i / 8 < |data|
  {
    data[i / 8] & Mask(i) != 0
  }

  /** The first `n` bits. */
  function Bits(data: seq<bv8>, n: nat): (r: seq<bool>)
    requires n <= 8 * |data|
    ensures |r| == n && forall i :: 0 <= i < n ==> r[i] == IsSet(data, i)
  {
    seq(n, i requires 0 <= i < n => IsSet(data, i))
  }

  /** Masks of two bits of the same byte are the same only if the bits are. */
  lemma MaskTells(i: nat, k: nat)
    ensures OneBit(Mask(i)) && OneBit(Mask(k))
    ensures i / 8 == k / 8 ==> (Mask(i) == Mask(k) <==> i == k)
  {
    MaskIs(i);
    MaskIs(k);
  }

  lemma BitAfter(data: seq<bv8>, i: nat, k: nat)
    requires i / 8 < |data| && k / 8 < |data|
    ensures IsSet(data[i / 8 := data[i / 8] | Mask(i)], k) == (k == i || IsSet(data, k))
    ensures IsSet(data[i / 8 := data[i / 8] & !Mask(i)], k) == (k != i && IsSet(data, k))
  {
    MaskTells(i, k);
    SetMask(data[i / 8], Mask(i), Mask(k));
  }

  /** Setting or clearing bit `i` in its byte does just that to the bitmap. */
  lemma OneBitChanges(data: seq<bv8>, n: nat, i: nat)
    requires n <= 8 * |data| && i < n
    ensures Bits(data[i / 8 := data[i / 8] | Mask(i)], n) == Bits(data, n)[i := true]
    ensures Bits(data[i / 8 := data[i / 8] & !Mask(i)], n) == Bits(data, n)[i := false]
  {
    var on, off, d := Bits(data[i / 8 := data[i / 8] | Mask(i)], n), Bits(data[i / 8 := data[i / 8] & !Mask(i)], n),
      Bits(data, n);
    forall k | 0 <= k < n ensures on[k] == d[i := true][k] && off[k] == d[i := false][k] {
      BitAfter(data, i, k);
    }
  }

  predicate Full(bits: seq<bool>) {
    forall i :: 0 <= i < |bits| ==> bits[i]
  }

  /** The scan of `balloc` in fs.c over one bitmap block: the first clear bit below `size` is set. */
  method FindAndSet(data: array<bv8>, size: nat) returns (ok: bool, bi: nat)
    requires size <= 8 * data.Length
    modifies data
    ensures ok <==> !Full(old(Bits(data[..], size)))
    ensures ok ==> bi < size && !old(Bits(data[..], size))[bi] && Full(old(Bits(data[..], size))[..bi])
    ensures ok ==> Bits(data[..], size) == old(Bits(data[..], size))[bi := true]
    ensures !ok ==> Full(Bits(data[..], size)) && data[..] == old(data[..])
  {
    bi := 0;
    ghost var bits := Bits(data[..], size);
    while bi < size
      invariant bi <= size && data[..] == old(data[..])
      invariant forall i :: 0 <= i < bi ==> bits[i]
    {
      var m := Mask(bi);
      assert bits[bi] == IsSet(data[..], bi) == (data[bi / 8] & m != 0);
      if data[bi / 8] & m == 0 {
        SetBit(data, size, bi, m);
        return true, bi;
      }
      bi := bi + 1;
    }
    ok := false;
  }

  /** `bp->data[bi/8] |= m`. */
  method SetBit(data: array<bv8>, ghost n: nat, bi: nat, m: bv8)
    requires n <= 8 * data.Length && bi < n && m == Mask(bi)
    modifies data
    ensures Bits(data[..], n) == old(Bits(data[..], n))[bi := true]
  {
    OneBitChanges(data[..], n, bi);
    data[bi / 8] := data[bi / 8] | m;
    assert data[..] == old(data[..])[bi / 8 := old(data[..])[bi / 8] | m];
  }

  /** `bfree` in fs.c; false stands for its panic, "freeing free block". */
  method Clear(data: array<bv8>, size: nat, bi: nat) returns (ok: bool)
    requires size <= 8 * data.Length && bi < size
    modifies data
    ensures ok == old(Bits(data[..], size))[bi]
    ensures Bits(data[..], size) == old(Bits(data[..], size))[bi := false]
  {
    var m := Mask(bi);
    assert IsSet(data[..], bi) == (data[bi / 8] & m != 0);
    if data[bi / 8] & m == 0 {
      return false;
    }
    OneBitChanges(data[..], size, bi);
    data[bi / 8] := data[bi / 8] & !m;
    assert data[..] == old(data[..])[bi / 8 := old(data[..])[bi / 8] & !m];
    ok := true;
  }

  /** The loop of `balloc` in mkfs.c: exactly the first `used` bits of a zeroed block are set. */
  method MarkUsed(data: array<bv8>, used: nat)
    requires used <= 8 * data.Length && forall i :: 0 <= i < data.Length ==> data[i] == 0
    modifies data
    ensures forall i :: 0 <= i < 8 * data.Length ==> (Bits(data[..], 8 * data.Length)[i] <==> i < used)
  {
    ghost var n := 8 * data.Length;
    NoneSet(data[..], n);
    for i := 0 to used
      invariant forall k :: 0 <= k < n ==> (Bits(data[..], n)[k] <==> k < i)
    {
      SetBit(data, n, i, Mask(i));
    }
  }

  lemma NoneSet(data: seq<bv8>, n: nat)
    requires n <= 8 * |data| && forall i :: 0 <= i < |data| ==> data[i] == 0
    ensures forall k :: 0 <= k < n ==> !Bits(data, n)[k]
  {
  }

  // ------------------------------------------------------------------ the block on the disk

  function ToBlock(data: seq<bv8>): Block
    requires |data| == BSIZE
  {
    seq(BSIZE, i requires 0 <= i < BSIZE => data[i] as int)
  }

  function FromBlock(b: Block): (data: seq<bv8>)
    ensures |data| == BSIZE
  {
    seq(BSIZE, i requires 0 <= i < BSIZE => b[i] as bv8)
  }

  lemma FromToBlock(data: seq<bv8>)
    requires |data| == BSIZE
    ensures FromBlock(ToBlock(data)) == data
  {
    forall i | 0 <= i < BSIZE ensures FromBlock(ToBlock(data))[i] == data[i] {
      SameByte(data[i]);
    }
  }

  lemma SameByte(x: bv8)
    ensures (x as int) as bv8 == x
  {
  }
}
