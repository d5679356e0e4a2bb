/** A plugin read from its first byte: where the walk starts, what each number in it stands for, and what ends it. */
module HeadpartLaws {
  import opened Frames
  import opened Headparts

  // Numbers, lowest byte first.

  function U16Bytes(n: nat): (bytes: Bytes)
    requires n < 0x1_0000
    ensures |bytes| == 2
  {
    [n % 0x100, n / 0x100]
  }

  function U32Bytes(n: nat): (bytes: Bytes)
    requires n < 0x1_0000_0000
    ensures |bytes| == 4
  {
    U16Bytes(n % 0x1_0000) + U16Bytes(n / 0x1_0000)
  }

  lemma {:induction false} U16IsRead(before: Bytes, n: nat, after: Bytes)
    requires n < 0x1_0000
    ensures U16At(before + U16Bytes(n) + after, |before|) == n
  {
    var bytes := before + U16Bytes(n) + after;
    assert bytes[|before|] == n % 0x100 && bytes[|before| + 1] == n / 0x100;
  }

  /** A number written lowest byte first is read back, wherever it stands. */
  lemma {:induction false} U32IsRead(before: Bytes, n: nat, after: Bytes)
    requires n < 0x1_0000_0000
    ensures U32At(before + U32Bytes(n) + after, |before|) == n
  {
    var low, high := U16Bytes(n % 0x1_0000), U16Bytes(n / 0x1_0000);
    var bytes := before + U32Bytes(n) + after;
    U16IsRead(before, n % 0x1_0000, high + after);
    U16IsRead(before + low, n / 0x1_0000, after);
    assert bytes == before + low + (high + after) && bytes == (before + low) + high + after;
  }

  /** A field's frame: its signature, its size in two bytes, then its data. */
  lemma {:induction false} FieldFrames(signature: Bytes, data: Bytes)
    requires |signature| == 4 && |data| < 0x1_0000
    ensures IsFrame(FieldFrame, Frame(signature + U16Bytes(|data|), data))
  {
    U16IsRead(signature, |data|, []);
    assert signature + U16Bytes(|data|) + [] == signature + U16Bytes(|data|);
  }

  /** A record's: its signature, its size in four bytes, sixteen bytes more, then its data. */
  lemma {:induction false} RecordFrames(signature: Bytes, data: Bytes, more: Bytes)
    requires |signature| == 4 && |data| < 0x1_0000_0000 && |more| == 16
    ensures IsFrame(RecordFrame, Frame(signature + U32Bytes(|data|) + more, data))
  {
    U32IsRead(signature, |data|, more);
  }

  function Ascii(text: string): (bytes: Bytes)
    requires forall i :: 0 <= i < |text| ==> text[i] < 128 as char
    ensures |bytes| == |text|
  {
    seq(|text|, i requires 0 <= i < |text| => text[i] as int)
  }

  lemma {:induction false} SignaturesAreNames()
    ensures TES4 == Ascii("TES4") && GRUP == Ascii("GRUP") && HDPT == Ascii("HDPT") && MODL == Ascii("MODL")
  {
  }

  // Compressed records.

  lemma {:induction false} FlagIsRead(low: nat, flag: nat, high: nat)
    requires low < 0x4_0000 && flag < 2
    ensures (high * 0x8_0000 + flag * 0x4_0000 + low) / 0x4_0000 % 2 == flag
  {
    assert high * 0x8_0000 + flag * 0x4_0000 + low == (2 * high + flag) * 0x4_0000 + low;
    assert ((2 * high + flag) * 0x4_0000 + low) / 0x4_0000 == 2 * high + flag;
  }

  /** A record is compressed exactly when the nineteenth bit of its flags, behind its size, is set. */
  lemma {:induction false} CompressedWhenFlagged(record: Frame, signed: Bytes, flags: nat, more: Bytes, low: nat,
                                                 flag: nat, high: nat)
    requires IsFrame(RecordFrame, record) && |signed| == 8 && flags < 0x1_0000_0000
    requires record.header == signed + U32Bytes(flags) + more
    requires low < 0x4_0000 && flag < 2 && flags == high * 0x8_0000 + flag * 0x4_0000 + low
    ensures IsCompressed(record) <==> flag == 1
  {
    U32IsRead(signed, flags, more);
    FlagIsRead(low, flag, high);
  }

  /** A compressed record's fields are the first bytes its stream inflates to, as many as it declares. */
  lemma {:induction false} CompressedFields(record: Frame, size: nat, stream: Bytes, codec: Codec)
    requires IsFrame(RecordFrame, record) && IsCompressed(record) && size < 0x1_0000_0000
    requires record.data == U32Bytes(size) + stream
    ensures FieldBytes(record, codec)
         == if size <= 16 * 1024 * 1024 && size <= |codec.inflate(stream)| then Ok(codec.inflate(stream)[..size])
            else Corrupt
  {
    U32IsRead([], size, stream);
    assert [] + U32Bytes(size) + stream == record.data;
    assert record.data[4..] == stream;
  }

  lemma {:induction false} OtherFields(record: Frame, codec: Codec)
    requires IsFrame(RecordFrame, record)
    ensures !IsCompressed(record) ==> FieldBytes(record, codec) == Ok(record.data)
    ensures IsCompressed(record) && |record.data| < 4 ==> FieldBytes(record, codec) == TruncatedData
  {
  }

  // Whole plugins.

  /** The record that every plugin starts with. */
  predicate IsFileHeader(header: Frame) {
    IsFrame(RecordFrame, header) && IsSigned(header, TES4)
  }

  lemma {:induction false} WalkStarts(plugin: Bytes, header: Frame, rest: Bytes, codec: Codec)
    requires IsFileHeader(header) && plugin == header.header + header.data + rest
    ensures var at := |header.header| + |header.data|;
            && at <= |plugin| && plugin[at..] == rest
            && PluginModels(plugin, codec) == Contents(FindGroup(plugin, at), codec)
  {
    assert forall k :: 0 <= k < HEADER ==> plugin[k] == header.header[k];
    assert U32At(plugin, 4) == U32At(header.header, 4) == |header.data|;
  }

  /** Behind the file's header, and any other groups, the first HDPT group is read, whatever follows it. */
  lemma {:induction false} HdptGroupIsReadFrom(plugin: Bytes, header: Frame, groups: seq<Frame>, hdpt: Frame,
                                               after: Bytes, codec: Codec)
    requires IsFileHeader(header) && AreOtherGroups(groups) && IsHdpt(hdpt)
    requires plugin == header.header + header.data + (Serialize(groups) + (hdpt.header + (hdpt.data + after)))
    ensures PluginModels(plugin, codec) == GroupFrom(hdpt.data, 0, codec)
  {
    WalkStarts(plugin, header, Serialize(groups) + (hdpt.header + (hdpt.data + after)), codec);
    FirstHdptGroupIsRead(plugin, |header.header| + |header.data|, groups, hdpt, after);
  }

  /** Without one nothing is named, and so it is when the file is no plugin. */
  lemma {:induction false} NothingIsNamed(plugin: Bytes, header: Frame, groups: seq<Frame>, after: Bytes, codec: Codec)
    requires IsFileHeader(header) && AreOtherGroups(groups)
    requires plugin == header.header + header.data + (Serialize(groups) + after)
    requires |after| < HEADER || !StandsAt(GRUP, after, 0)
    ensures PluginModels(plugin, codec) == Ok([])
  {
    WalkStarts(plugin, header, Serialize(groups) + after, codec);
    NoHdptGroupNamesNothing(plugin, |header.header| + |header.data|, groups, after);
  }

  lemma {:induction false} NoPlugin(plugin: Bytes, codec: Codec)
    requires |plugin| < HEADER || plugin[..4] != TES4
    ensures PluginModels(plugin, codec) == Ok([])
  {
  }

  /** An HDPT group that is smaller than its header, or runs past the end, cuts the reading short. */
  lemma {:induction false} CutGroupFails(plugin: Bytes, header: Frame, groups: seq<Frame>, cut: Bytes, codec: Codec)
    requires IsFileHeader(header) && AreOtherGroups(groups)
    requires plugin == header.header + header.data + (Serialize(groups) + cut)
    requires |cut| >= HEADER && StandsAt(GRUP, cut, 0) && StandsAt(HDPT, cut, 8)
    requires U32At(cut, 4) < HEADER || U32At(cut, 4) > |cut|
    ensures PluginModels(plugin, codec) == TruncatedData
  {
    var at := |header.header| + |header.data|;
    WalkStarts(plugin, header, Serialize(groups) + cut, codec);
    CutShortAt(plugin, at, groups, cut);
  }

  lemma {:induction false} CutShortAt(plugin: Bytes, at: nat, groups: seq<Frame>, cut: Bytes)
    requires AreOtherGroups(groups) && at <= |plugin| && plugin[at..] == Serialize(groups) + cut
    requires |cut| >= HEADER && StandsAt(GRUP, cut, 0) && StandsAt(HDPT, cut, 8)
    requires U32At(cut, 4) < HEADER || U32At(cut, 4) > |cut|
    ensures FindGroup(plugin, at) == CutShort
    decreases |groups|
  {
    if groups == [] {
      assert plugin[at..] == cut;
      assert cut == cut[..HEADER] + cut[HEADER..];
      HeaderIsAt(plugin, at, cut[..HEADER], cut[HEADER..]);
    } else {
      var next := OtherGroupIsSkipped(plugin, at, groups, cut);
      CutShortAt(plugin, next, groups[1..], cut);
    }
  }
}
