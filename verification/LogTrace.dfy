/** Raw disks, before the header is decoded, and the sequences of them that `write_log` and
    `install_trans` leave behind. */
module LogTrace {
  import opened LogBook
  import opened LogDisk

  predicate Storable(entries: seq<nat>) {
    |entries| <= LOGSIZE && forall i :: 0 <= i < |entries| ==> entries[i] < 0x1_0000_0000
  }

  /** How block numbers are kept in a header block: `write` stores them over an older header, `read`
      finds them again. `blank` stands for a header slot whose content is known some other way. */
  datatype Format<!B> = Format(read: B -> seq<nat>, write: (B, seq<nat>) -> B, blank: B)

  ghost predicate RoundTrips<B(!new)>(f: Format<B>) {
    forall h: B, entries: seq<nat> :: Storable(entries) ==> f.read(f.write(h, entries)) == entries
  }

  ghost function Decode<B>(f: Format<B>, raw: seq<B>, g: Region): (d: Disk<B>)
    requires g.start < |raw|
    ensures |d.blocks| == |raw|
  {
    Disk(f.read(raw[g.start]), raw[g.start := f.blank])
  }

  lemma DecodeBlock<B>(f: Format<B>, raw: seq<B>, g: Region, b: nat, data: B)
    requires g.start < |raw| && b < |raw| && b != g.start
    ensures Decode(f, raw[b := data], g) == Decode(f, raw, g).(blocks := Decode(f, raw, g).blocks[b := data])
  {
    assert raw[b := data][g.start := f.blank] == raw[g.start := f.blank][b := data];
  }

  lemma DecodeHead<B>(f: Format<B>, raw: seq<B>, g: Region, h: B)
    requires g.start < |raw|
    ensures Decode(f, raw[g.start := h], g) == Decode(f, raw, g).(head := f.read(h))
  {
    assert raw[g.start := h][g.start := f.blank] == raw[g.start := f.blank];
  }

  lemma {:induction false} DecodeCopied<B>(f: Format<B>, raw: seq<B>, g: Region, data: seq<B>, k: nat)
    requires g.start + g.size <= |raw| && k <= |data| < g.size
    ensures Decode(f, Copied(raw, g, data, k), g)
      == Decode(f, raw, g).(blocks := Copied(Decode(f, raw, g).blocks, g, data, k))
  {
    if k > 0 {
      DecodeCopied(f, raw, g, data, k - 1);
      DecodeBlock(f, Copied(raw, g, data, k - 1), g, g.start + k, data[k - 1]);
    }
  }

  lemma {:induction false} DecodeInstalled<B>(f: Format<B>, raw: seq<B>, g: Region, entries: seq<nat>, k: nat)
    requires GoodEntries(|raw|, g, entries) && k <= |entries|
    ensures Decode(f, Installed(raw, g, entries, k), g)
      == Decode(f, raw, g).(blocks := Installed(Decode(f, raw, g).blocks, g, entries, k))
  {
    if k > 0 {
      var r := Installed(raw, g, entries, k - 1);
      DecodeInstalled(f, raw, g, entries, k - 1);
      DecodeBlock(f, r, g, entries[k - 1], r[g.start + k]);
    }
  }

  /** The disks `write_log` goes through. */
  ghost function CopyTrace<B>(raw: seq<B>, g: Region, data: seq<B>, k: nat): (t: seq<seq<B>>)
    requires g.start + g.size <= |raw| && k <= |data| < g.size
    ensures |t| == k
    ensures forall j :: 0 <= j < k ==> t[j] == Copied(raw, g, data, j + 1)
  {
    if k == 0 then [] else CopyTrace(raw, g, data, k - 1) + [Copied(raw, g, data, k)]
  }

  /** The disks `install_trans` goes through. */
  ghost function InstallTrace<B>(raw: seq<B>, g: Region, entries: seq<nat>, k: nat): (t: seq<seq<B>>)
    requires GoodEntries(|raw|, g, entries) && k <= |entries|
    ensures |t| == k
    ensures forall j :: 0 <= j < k ==> t[j] == Installed(raw, g, entries, j + 1)
  {
    if k == 0 then [] else InstallTrace(raw, g, entries, k - 1) + [Installed(raw, g, entries, k)]
  }

  /** The disks from a written header on, through installing, to the cleared header `last`. */
  ghost function InstallAndClear<B>(raw: seq<B>, g: Region, entries: seq<nat>, last: seq<B>): (t: seq<seq<B>>)
    requires GoodEntries(|raw|, g, entries)
    ensures |t| == |entries| + 2
  {
    [raw] + InstallTrace(raw, g, entries, |entries|) + [last]
  }

  lemma InstallAndClearDecodes<B>(f: Format<B>, raw: seq<B>, g: Region, last: seq<B>, j: nat)
    requires g.start < |raw| && Recoverable(Decode(f, raw, g), g)
    requires g.start < |last| && Decode(f, last, g) == Recovered(Decode(f, raw, g), g)
    requires j <= |Decode(f, raw, g).head| + 1
    ensures Decode(f, InstallAndClear(raw, g, Decode(f, raw, g).head, last)[j], g)
      == RecoveryState(Decode(f, raw, g), g, j)
  {
    var e := Decode(f, raw, g).head;
    if j <= |e| {
      DecodeInstalled(f, raw, g, e, j);
    }
  }

  /** Each disk of a commit's trace decodes to the state of the same number. */
  lemma CommitTraceDecodes<B>(f: Format<B>, raw: seq<B>, g: Region, e: seq<nat>, data: seq<B>, raw2: seq<B>,
                              last: seq<B>, j: nat)
    requires GoodEntries(|raw|, g, e) && |data| == |e| && |raw2| == |raw| == |last|
    requires Decode(f, raw2, g) == HeadWritten(Decode(f, raw, g), g, e, data)
    requires Decode(f, last, g) == Recovered(Decode(f, raw2, g), g)
    requires j < 2 * |e| + 2
    ensures var t := CommitTrace(raw, g, e, data, raw2, last);
      |t[j]| == |raw| && Decode(f, t[j], g) == CommitState(Decode(f, raw, g), g, e, data, j + 1)
  {
    if j < |e| {
      DecodeCopied(f, raw, g, data, j + 1);
    } else {
      InstallAndClearDecodes(f, raw2, g, last, j - |e|);
    }
  }

  ghost function CommitTrace<B>(raw: seq<B>, g: Region, e: seq<nat>, data: seq<B>, raw2: seq<B>,
                                last: seq<B>): (t: seq<seq<B>>)
    requires GoodEntries(|raw|, g, e) && |data| == |e| && |raw2| == |raw|
    ensures |t| == 2 * |e| + 2 && t[2 * |e| + 1] == last
  {
    CopyTrace(raw, g, data, |e|) + InstallAndClear(raw2, g, e, last)
  }

  lemma CommitTraceExtends<B>(h: seq<seq<B>>, raw: seq<B>, g: Region, e: seq<nat>, data: seq<B>, raw2: seq<B>,
                              last: seq<B>)
    requires GoodEntries(|raw|, g, e) && |data| == |e| && |raw2| == |raw|
    ensures h + CopyTrace(raw, g, data, |e|) + [raw2] + InstallAndClear(raw2, g, e, last)[1..]
         == h + CommitTrace(raw, g, e, data, raw2, last)
  {
    assert [raw2] + InstallAndClear(raw2, g, e, last)[1..] == InstallAndClear(raw2, g, e, last);
  }
}
