/** Disk blocks as the kernel sees them: 512 bytes (fs.h), which log.c and fs.c also
    reinterpret as 128 little-endian 32-bit words. */
module Blocks {
  const BSIZE: nat := 512
  const WORDS: nat := 128

  type byte = x: int | 0 <= x < 256
  type word = x: int | 0 <= x < 0x1_0000_0000
  type Block = b: seq<byte> | |b| == 512 witness seq(512, _ => 0)

  function ZeroBlock(): Block {
    seq(512, _ => 0)
  }

  function ZeroBytes(n: nat): (z: seq<byte>)
    ensures |z| == n && forall i :: 0 <= i < n ==> z[i] == 0
  {
    seq(n, _ => 0)
  }

  function WordOf(b0: byte, b1: byte, b2: byte, b3: byte): word {
    b0 + 0x100 * b1 + 0x1_0000 * b2 + 0x100_0000 * b3
  }

  /** The `i`-th word of a block, as `((uint*)bp->data)[i]` reads it. */
  function GetWord(b: Block, i: nat): word
    requires i < WORDS
  {
    WordOf(b[4 * i], b[4 * i + 1], b[4 * i + 2], b[4 * i + 3])
  }

  /** The four bytes of a word, least significant first. */
  function BytesOf(w: word): (r: seq<byte>)
    ensures |r| == 4 && WordOf(r[0], r[1], r[2], r[3]) == w
  {
    var h := w / 0x100;
    var g := h / 0x100;
    [w % 0x100, h % 0x100, g % 0x100, g / 0x100]
  }

  /** The block with its `i`-th word replaced, as `((uint*)bp->data)[i] = w` leaves it. */
  function PutWord(b: Block, i: nat, w: word): Block
    requires i < WORDS
  {
    b[..4 * i] + BytesOf(w) + b[4 * i + 4..]
  }

  lemma PutGetWord(b: Block, i: nat, w: word)
    requires i < WORDS
    ensures GetWord(PutWord(b, i, w), i) == w
    ensures forall j: nat :: j < WORDS && j != i ==> GetWord(PutWord(b, i, w), j) == GetWord(b, j)
  {
    var r := PutWord(b, i, w);
    forall j: nat | j < WORDS && j != i ensures GetWord(r, j) == GetWord(b, j) {
      assert r[4 * j] == b[4 * j] && r[4 * j + 3] == b[4 * j + 3];
    }
  }

  lemma ZeroWord(i: nat)
    requires i < WORDS
    ensures GetWord(ZeroBlock(), i) == 0
  {
  }
}
