/** The bytes of the log header block (log.c, struct logheader). */
module LogHeader {
  import opened Blocks
  import opened LogBook
  import opened LogTrace

  /** `hb->n` read as a C int. */
  function HeadCount(h: Block): int {
    var w := GetWord(h, 0);
    if w < 0x8000_0000 then w else w - 0x1_0000_0000
  }

  /** The first `k` block numbers stored in a header block. */
  function FirstEntries(h: Block, k: nat): (r: seq<nat>)
    requires k < WORDS
    ensures |r| == k
  {
    if k == 0 then [] else FirstEntries(h, k - 1) + [GetWord(h, k)]
  }

  lemma {:induction false} FirstEntriesAt(h: Block, k: nat, i: nat)
    requires i < k < WORDS
    ensures FirstEntries(h, k)[i] == GetWord(h, i + 1)
  {
    if i < k - 1 {
      FirstEntriesAt(h, k - 1, i);
    }
  }

  /** The block numbers `read_head` finds; a count of zero or less means none. (A count beyond the
      block itself never passes `GoodEntries`.) */
  function HeadEntries(h: Block): seq<nat> {
    if HeadCount(h) <= 0 then [] else FirstEntries(h, if HeadCount(h) < WORDS then HeadCount(h) else WORDS - 1)
  }

  /** The header block after `write_head` has stored the count and the first `k` block numbers over
      whatever it held before. */
  function HeadPrefix(h: Block, entries: seq<nat>, k: nat): Block
    requires Storable(entries) && k <= |entries|
  {
    if k == 0 then PutWord(h, 0, |entries|) else PutWord(HeadPrefix(h, entries, k - 1), k, entries[k - 1])
  }

  lemma {:induction false} HeadPrefixWords(h: Block, entries: seq<nat>, k: nat)
    requires Storable(entries) && k <= |entries|
    ensures GetWord(HeadPrefix(h, entries, k), 0) == |entries|
    ensures forall i :: 0 <= i < k ==> GetWord(HeadPrefix(h, entries, k), i + 1) == entries[i]
  {
    if k == 0 {
      PutGetWord(h, 0, |entries|);
    } else {
      HeadPrefixWords(h, entries, k - 1);
      PutGetWord(HeadPrefix(h, entries, k - 1), k, entries[k - 1]);
    }
  }

  /** What `write_head` stores, `read_head` reads back, whatever older words the block still holds. */
  lemma HeadRoundTrip(h: Block, entries: seq<nat>)
    requires Storable(entries)
    ensures HeadEntries(HeadPrefix(h, entries, |entries|)) == entries
  {
    var r := HeadPrefix(h, entries, |entries|);
    HeadPrefixWords(h, entries, |entries|);
    forall i | 0 <= i < |entries| ensures FirstEntries(r, |entries|)[i] == entries[i] {
      FirstEntriesAt(r, |entries|, i);
    }
    assert FirstEntries(r, |entries|) == entries;
  }

  /** The header format, as the rest of the log uses it. */
  function ByteFormat(): Format<Block> {
    Format(HeadEntries, (h, entries) => if Storable(entries) then HeadPrefix(h, entries, |entries|) else h, ZeroBlock())
  }

  /** The loop of `read_head`, on the bytes: what Log.ReadHead does with this format. */
  method ParseHead(h: Block, block: array<nat>) returns (n: nat)
    requires block.Length == LOGSIZE && HeadCount(h) <= LOGSIZE
    modifies block
    ensures n <= LOGSIZE && block[..n] == HeadEntries(h) == ByteFormat().read(h)
  {
    n := if HeadCount(h) < 0 then 0 else HeadCount(h);
    var i := 0;
    while i < n
      invariant 0 <= i <= n <= LOGSIZE
      invariant block[..i] == FirstEntries(h, i)
    {
      block[i] := GetWord(h, i + 1);
      i := i + 1;
      assert block[..i] == block[..i - 1] + [GetWord(h, i)];
    }
  }

  /** The loop of `write_head`, on the bytes: what Log.WriteHead does with this format. */
  method FillHead(h0: Block, block: array<nat>, n: nat) returns (h: Block)
    requires n <= block.Length && Storable(block[..n])
    ensures h == HeadPrefix(h0, block[..n], n) == ByteFormat().write(h0, block[..n])
    ensures HeadEntries(h) == block[..n]
  {
    h := PutWord(h0, 0, n);
    var i := 0;
    while i < n
      invariant 0 <= i <= n
      invariant h == HeadPrefix(h0, block[..n], i)
    {
      h := PutWord(h, i + 1, block[i]);
      i := i + 1;
    }
    HeadRoundTrip(h0, block[..n]);
  }

  lemma ByteFormatRoundTrips()
    ensures RoundTrips(ByteFormat())
  {
    forall h: Block, entries: seq<nat> | Storable(entries)
      ensures ByteFormat().read(ByteFormat().write(h, entries)) == entries
    {
      HeadRoundTrip(h, entries);
    }
  }
}
