/** The HDPT reader: the Headpart Meshes that the records of a plugin's HDPT group name. */
module Headparts {
  import opened Frames

  const MODL: Bytes := [0x4D, 0x4F, 0x44, 0x4C]
  const TES4: Bytes := [0x54, 0x45, 0x53, 0x34]
  const GRUP: Bytes := [0x47, 0x52, 0x55, 0x50]
  const HDPT: Bytes := [0x48, 0x44, 0x50, 0x54]

  const HEADER: nat := 24
  const MAX_DECOMPRESSED: nat := 16 * 1024 * 1024

  /** The bytes a stream inflates to before it ends or fails, and what a MODL field's bytes become. */
  datatype Codec = Codec(inflate: Bytes -> Bytes, path: Bytes -> string)

  /** Whether four bytes stand at `at`. */
  predicate StandsAt(four: Bytes, bytes: Bytes, at: nat)
    requires |four| == 4
  {
    && at + 4 <= |bytes|
    && bytes[at] == four[0] && bytes[at + 1] == four[1] && bytes[at + 2] == four[2] && bytes[at + 3] == four[3]
  }

  predicate IsSigned(frame: Frame, signature: Bytes)
    requires |signature| == 4
  {
    StandsAt(signature, frame.header, 0)
  }

  predicate IsCompressed(record: Frame)
    requires IsFrame(RecordFrame, record)
  {
    U32At(record.header, 8) / 0x0004_0000 % 2 == 1
  }

  /** A compressed record's fields: exactly the size it declares, and no more than the cap. */
  function Decompress(data: Bytes, codec: Codec): Read<Bytes> {
    if |data| < 4 then TruncatedData
    else
      var size := U32At(data, 0);
      if size > MAX_DECOMPRESSED then Corrupt
      else
        var inflated := codec.inflate(data[4..]);
        if |inflated| < size then Corrupt else Ok(inflated[..size])
  }

  function FieldBytes(record: Frame, codec: Codec): Read<Bytes>
    requires IsFrame(RecordFrame, record)
  {
    if IsCompressed(record) then Decompress(record.data, codec) else Ok(record.data)
  }

  /** The paths of the MODL fields, in order. */
  function Models(fields: seq<Frame>, codec: Codec): seq<string> {
    if fields == [] then []
    else (if IsSigned(fields[0], MODL) then [codec.path(fields[0].data)] else []) + Models(fields[1..], codec)
  }

  /** The MODL paths of the fields from `at`, or why the fields cannot be read. */
  function ModelsFrom(fields: Bytes, at: nat, codec: Codec): Read<seq<string>>
    decreases |fields| - at
  {
    if at >= |fields| then Ok([])
    else
      match FrameAt(FieldFrame, fields, at)
      case Ok(field) => After(Own(field, codec), ModelsFrom(fields, at + HeaderSize(FieldFrame) + |field.data|, codec))
      case TruncatedHeader => TruncatedHeader
      case TruncatedData => TruncatedData
      case Corrupt => Corrupt
  }

  function Own(field: Frame, codec: Codec): seq<string> {
    if IsSigned(field, MODL) then [codec.path(field.data)] else []
  }

  /** Puts what was read before what is still to be read. */
  function After(before: seq<string>, read: Read<seq<string>>): Read<seq<string>> {
    if read.Ok? then Ok(before + read.value) else read
  }

  lemma {:induction false} AfterBoth(a: seq<string>, b: seq<string>, read: Read<seq<string>>)
    ensures After(a, After(b, read)) == After(a + b, read) && After([], read) == read
  {
    if read.Ok? { assert a + (b + read.value) == a + b + read.value && [] + read.value == read.value; }
  }

  lemma {:induction false} NextField(fields: Bytes, at: nat, found: seq<string>, rest: Read<seq<string>>, field: Frame,
                                     codec: Codec)
    returns (next: Read<seq<string>>, to: nat)
    requires at < |fields| && FrameAt(FieldFrame, fields, at) == Ok(field) && rest == ModelsFrom(fields, at, codec)
    ensures to == at + HeaderSize(FieldFrame) + |field.data| <= |fields| && next == ModelsFrom(fields, to, codec)
    ensures After(found, rest) == After(found + Own(field, codec), next)
  {
    to := at + HeaderSize(FieldFrame) + |field.data|;
    next := ModelsFrom(fields, to, codec);
    AfterBoth(found, Own(field, codec), next);
  }

  lemma {:induction false} NoNextField(fields: Bytes, at: nat, found: seq<string>, codec: Codec)
    requires at < |fields| && !FrameAt(FieldFrame, fields, at).Ok?
    ensures After(found, ModelsFrom(fields, at, codec))
         == if FrameAt(FieldFrame, fields, at).TruncatedHeader? then TruncatedHeader
            else if FrameAt(FieldFrame, fields, at).TruncatedData? then TruncatedData else Corrupt
  {
  }

  method RecordHeadparts(fields: Bytes, codec: Codec) returns (headparts: Read<seq<string>>)
    ensures headparts == ModelsFrom(fields, 0, codec)
  {
    var found: seq<string> := [];
    var at := 0;
    ghost var whole := ModelsFrom(fields, 0, codec);
    ghost var rest := whole;
    AfterBoth([], [], whole);
    while at < |fields|
      invariant at <= |fields|
      invariant rest == ModelsFrom(fields, at, codec) && After(found, rest) == whole
      decreases |fields| - at
    {
      var read := FrameAt(FieldFrame, fields, at);
      if !read.Ok? {
        NoNextField(fields, at, found, codec);
        return if read.TruncatedHeader? then TruncatedHeader
               else if read.TruncatedData? then TruncatedData else Corrupt;
      }
      ghost var to;
      rest, to := NextField(fields, at, found, rest, read.value, codec);
      found := found + if IsSigned(read.value, MODL) then [codec.path(read.value.data)] else [];
      at := at + HeaderSize(FieldFrame) + |read.value.data|;
      assert at == to;
    }
    assert found + [] == found;
    headparts := Ok(found);
  }

  /** The paths read are the MODL payloads of the bytes' one decomposition into fields; without one, reading fails. */
  lemma {:induction false} ModelsOfFields(fields: Bytes, at: nat, codec: Codec)
    requires at <= |fields|
    ensures ReadFrames(FieldFrame, fields, at).Ok? <==> ModelsFrom(fields, at, codec).Ok?
    ensures ReadFrames(FieldFrame, fields, at).Ok? ==>
              ModelsFrom(fields, at, codec) == Ok(Models(ReadFrames(FieldFrame, fields, at).value, codec))
    decreases |fields| - at
  {
    if at < |fields| && FrameAt(FieldFrame, fields, at).Ok? {
      var field := FrameAt(FieldFrame, fields, at).value;
      var next := at + HeaderSize(FieldFrame) + |field.data|;
      ModelsOfFields(fields, next, codec);
      if ReadFrames(FieldFrame, fields, next).Ok? {
        var rest := ReadFrames(FieldFrame, fields, next).value;
        assert ([field] + rest)[0] == field && ([field] + rest)[1..] == rest;
      }
    }
  }

  // The group.

  function RecordModels(record: Frame, codec: Codec): Read<seq<string>>
    requires IsFrame(RecordFrame, record)
  {
    match FieldBytes(record, codec)
    case Ok(fields) => ModelsFrom(fields, 0, codec)
    case TruncatedHeader => TruncatedHeader
    case TruncatedData => TruncatedData
    case Corrupt => Corrupt
  }

  /** The MODL paths of the records from `at`; the first thing wrong, in reading order, is the failure. */
  function GroupFrom(group: Bytes, at: nat, codec: Codec): Read<seq<string>>
    decreases |group| - at
  {
    if at >= |group| then Ok([])
    else
      match FrameAt(RecordFrame, group, at)
      case Ok(record) =>
        var models := RecordModels(record, codec);
        if models.Ok? then After(models.value, GroupFrom(group, at + HEADER + |record.data|, codec)) else models
      case TruncatedHeader => TruncatedHeader
      case TruncatedData => TruncatedData
      case Corrupt => Corrupt
  }

  method RecordGroupHeadparts(record: Frame, codec: Codec) returns (headparts: Read<seq<string>>)
    requires IsFrame(RecordFrame, record)
    ensures headparts == RecordModels(record, codec)
  {
    var fields := FieldBytes(record, codec);
    match fields {
      case Ok(bytes) => headparts := RecordHeadparts(bytes, codec);
      case TruncatedHeader => headparts := TruncatedHeader;
      case TruncatedData => headparts := TruncatedData;
      case Corrupt => headparts := Corrupt;
    }
  }

  lemma {:induction false} NextRecord(group: Bytes, at: nat, found: seq<string>, rest: Read<seq<string>>, record: Frame,
                                      models: Read<seq<string>>, codec: Codec)
    returns (next: Read<seq<string>>, to: nat)
    requires at < |group| && FrameAt(RecordFrame, group, at) == Ok(record)
    requires rest == GroupFrom(group, at, codec) && models == RecordModels(record, codec)
    ensures to == at + HEADER + |record.data| <= |group| && next == GroupFrom(group, to, codec)
    ensures After(found, rest) == if models.Ok? then After(found + models.value, next) else models
  {
    to := at + HEADER + |record.data|;
    next := GroupFrom(group, to, codec);
    if models.Ok? { AfterBoth(found, models.value, next); }
  }

  lemma {:induction false} NoNextRecord(group: Bytes, at: nat, found: seq<string>, codec: Codec)
    requires at < |group| && !FrameAt(RecordFrame, group, at).Ok?
    ensures After(found, GroupFrom(group, at, codec))
         == if FrameAt(RecordFrame, group, at).TruncatedHeader? then TruncatedHeader
            else if FrameAt(RecordFrame, group, at).TruncatedData? then TruncatedData else Corrupt
  {
  }

  method GroupHeadparts(group: Bytes, codec: Codec) returns (headparts: Read<seq<string>>)
    ensures headparts == GroupFrom(group, 0, codec)
  {
    var found: seq<string> := [];
    var at := 0;
    ghost var whole := GroupFrom(group, 0, codec);
    ghost var rest := whole;
    AfterBoth([], [], whole);
    while at < |group|
      invariant at <= |group|
      invariant rest == GroupFrom(group, at, codec) && After(found, rest) == whole
      decreases |group| - at
    {
      var read := FrameAt(RecordFrame, group, at);
      if !read.Ok? {
        NoNextRecord(group, at, found, codec);
        return if read.TruncatedHeader? then TruncatedHeader
               else if read.TruncatedData? then TruncatedData else Corrupt;
      }
      var models := RecordGroupHeadparts(read.value, codec);
      ghost var to;
      rest, to := NextRecord(group, at, found, rest, read.value, models, codec);
      if !models.Ok? { return models; }
      found := found + models.value;
      at := at + HEADER + |read.value.data|;
      assert at == to;
    }
    assert found + [] == found;
    headparts := Ok(found);
  }

  /** A record with the fields it holds. */
  datatype Record = Record(frame: Frame, fields: seq<Frame>)

  ghost predicate IsRecord(record: Record, codec: Codec) {
    && IsFrame(RecordFrame, record.frame) && AreFrames(FieldFrame, record.fields)
    && FieldBytes(record.frame, codec) == Ok(Serialize(record.fields))
  }

  ghost predicate AreRecords(records: seq<Record>, codec: Codec) {
    forall i :: 0 <= i < |records| ==> IsRecord(records[i], codec)
  }

  function SerializeRecords(records: seq<Record>): Bytes {
    if records == [] then []
    else records[0].frame.header + records[0].frame.data + SerializeRecords(records[1..])
  }

  function AllModels(records: seq<Record>, codec: Codec): seq<string> {
    if records == [] then [] else Models(records[0].fields, codec) + AllModels(records[1..], codec)
  }

  lemma {:induction false} RecordIsRead(record: Record, codec: Codec)
    requires IsRecord(record, codec)
    ensures RecordModels(record.frame, codec) == Ok(Models(record.fields, codec))
  {
    var bytes := Serialize(record.fields);
    ReadsWholeDecompositions(FieldFrame, bytes);
    ModelsOfFields(bytes, 0, codec);
  }

  lemma {:induction false} GroupIsComplete(group: Bytes, at: nat, records: seq<Record>, codec: Codec)
    requires AreRecords(records, codec) && at <= |group| && group[at..] == SerializeRecords(records)
    ensures GroupFrom(group, at, codec) == Ok(AllModels(records, codec))
    decreases |records|
  {
    if records != [] {
      var frame := records[0].frame;
      assert IsRecord(records[0], codec);
      FrameIsRead(RecordFrame, group, at, frame, SerializeRecords(records[1..]));
      assert |group[at..]| > 0;
      GroupIsComplete(group, at + HEADER + |frame.data|, records[1..], codec);
      RecordIsRead(records[0], codec);
      var rest := GroupFrom(group, at, codec);
      var next, _ := NextRecord(group, at, [], rest, frame, RecordModels(frame, codec), codec);
      AfterNothing(rest, next, Models(records[0].fields, codec));
    }
  }

  lemma {:induction false} AfterNothing(rest: Read<seq<string>>, next: Read<seq<string>>, models: seq<string>)
    requires next.Ok? && After([], rest) == After([] + models, next)
    ensures rest == Ok(models + next.value)
  {
    AfterBoth([], [], rest);
    assert [] + models == models;
  }

  lemma {:induction false} RecordIsSound(frame: Frame, codec: Codec) returns (record: Record)
    requires IsFrame(RecordFrame, frame) && RecordModels(frame, codec).Ok?
    ensures IsRecord(record, codec) && record.frame == frame
  {
    var bytes := FieldBytes(frame, codec).value;
    ModelsOfFields(bytes, 0, codec);
    ReadIsSound(FieldFrame, bytes, 0);
    record := Record(frame, ReadFrames(FieldFrame, bytes, 0).value);
    assert bytes[0..] == bytes;
  }

  lemma {:induction false} GroupIsSound(group: Bytes, at: nat, codec: Codec) returns (records: seq<Record>)
    requires at <= |group| && GroupFrom(group, at, codec).Ok?
    ensures AreRecords(records, codec) && SerializeRecords(records) == group[at..]
    decreases |group| - at
  {
    if at >= |group| {
      records := [];
    } else {
      var frame := FrameAt(RecordFrame, group, at).value;
      var record := RecordIsSound(frame, codec);
      var rest := GroupIsSound(group, at + HEADER + |frame.data|, codec);
      records := [record] + rest;
      RecordsGrow(group, at, record, rest, codec);
    }
  }

  lemma {:induction false} RecordsGrow(group: Bytes, at: nat, record: Record, rest: seq<Record>, codec: Codec)
    requires FrameAt(RecordFrame, group, at) == Ok(record.frame) && IsRecord(record, codec) && AreRecords(rest, codec)
    requires SerializeRecords(rest) == group[at + HEADER + |record.frame.data|..]
    ensures AreRecords([record] + rest, codec) && SerializeRecords([record] + rest) == group[at..]
  {
    FrameLeads(RecordFrame, group, at);
    assert ([record] + rest)[1..] == rest;
  }

  /**
   * The group reads exactly when its bytes decompose wholly into records, and their fields' bytes wholly into fields;
   * what is read is then precisely the MODL payloads, in record and field order.
   */
  lemma {:induction false} GroupReadsWholeDecompositions(group: Bytes, codec: Codec)
    ensures GroupFrom(group, 0, codec).Ok? <==>
            exists records :: AreRecords(records, codec) && SerializeRecords(records) == group
    ensures forall records :: AreRecords(records, codec) && SerializeRecords(records) == group ==>
              GroupFrom(group, 0, codec) == Ok(AllModels(records, codec))
  {
    assert group[0..] == group;
    if GroupFrom(group, 0, codec).Ok? { var records := GroupIsSound(group, 0, codec); }
    forall records | AreRecords(records, codec) && SerializeRecords(records) == group
      ensures GroupFrom(group, 0, codec) == Ok(AllModels(records, codec))
    {
      GroupIsComplete(group, 0, records, codec);
    }
  }

  // The plugin.

  predicate HasHeader(plugin: Bytes, at: nat) {
    at + HEADER <= |plugin|
  }

  datatype Walk = NoGroup | CutShort | Found(contents: Bytes)

  /** The walk over top-level groups, to the first HDPT group or the first entry that is no whole group header. */
  function FindGroup(plugin: Bytes, at: nat): Walk
    decreases |plugin| - at
  {
    if !HasHeader(plugin, at) || !StandsAt(GRUP, plugin, at) then NoGroup
    else
      var size := U32At(plugin, at + 4);
      if !StandsAt(HDPT, plugin, at + 8) then
        if size < HEADER then NoGroup else FindGroup(plugin, at + size)
      else if size < HEADER || at + size > |plugin| then CutShort
      else Found(plugin[at + HEADER..at + size])
  }

  function Contents(walk: Walk, codec: Codec): Read<seq<string>> {
    match walk
    case NoGroup => Ok([])
    case CutShort => TruncatedData
    case Found(contents) => GroupFrom(contents, 0, codec)
  }

  function PluginModels(plugin: Bytes, codec: Codec): Read<seq<string>> {
    if !HasHeader(plugin, 0) || !StandsAt(TES4, plugin, 0) then Ok([])
    else Contents(FindGroup(plugin, HEADER + U32At(plugin, 4)), codec)
  }

  method ReadHeadparts(plugin: Bytes, codec: Codec) returns (headparts: Read<seq<string>>)
    ensures headparts == PluginModels(plugin, codec)
  {
    if !HasHeader(plugin, 0) || !StandsAt(TES4, plugin, 0) { return Ok([]); }
    var at := HEADER + U32At(plugin, 4);
    while HasHeader(plugin, at) && StandsAt(GRUP, plugin, at)
      invariant Contents(FindGroup(plugin, at), codec) == PluginModels(plugin, codec)
      decreases |plugin| - at
    {
      var size := U32At(plugin, at + 4);
      if !StandsAt(HDPT, plugin, at + 8) {
        if size < HEADER { break; }
        at := at + size;
        continue;
      }
      if size < HEADER || at + size > |plugin| { return TruncatedData; }
      headparts := GroupHeadparts(plugin[at + HEADER..at + size], codec);
      return;
    }
    headparts := Ok([]);
  }

  /** A top-level group: its header counts itself in its size, and names what it holds. */
  predicate IsGroup(group: Frame) {
    |group.header| == HEADER && StandsAt(GRUP, group.header, 0) && U32At(group.header, 4) == HEADER + |group.data|
  }

  predicate IsHdpt(group: Frame) {
    IsGroup(group) && StandsAt(HDPT, group.header, 8)
  }

  predicate AreOtherGroups(groups: seq<Frame>) {
    groups == [] || (IsGroup(groups[0]) && !IsHdpt(groups[0]) && AreOtherGroups(groups[1..]))
  }

  lemma {:induction false} HeaderIsAt(plugin: Bytes, at: nat, header: Bytes, after: Bytes)
    requires at <= |plugin| && plugin[at..] == header + after && |header| == HEADER
    ensures HasHeader(plugin, at)
    ensures StandsAt(GRUP, plugin, at) == StandsAt(GRUP, header, 0)
    ensures StandsAt(HDPT, plugin, at + 8) == StandsAt(HDPT, header, 8)
    ensures U32At(plugin, at + 4) == U32At(header, 4)
  {
    var rest := plugin[at..];
    assert forall k :: 0 <= k < HEADER ==> plugin[at + k] == rest[k] == header[k];
  }

  lemma {:induction false} DataIsAt(plugin: Bytes, at: nat, group: Frame, after: Bytes)
    requires |group.header| == HEADER && at <= |plugin| && plugin[at..] == group.header + (group.data + after)
    ensures at + HEADER + |group.data| <= |plugin|
    ensures plugin[at + HEADER..at + HEADER + |group.data|] == group.data
    ensures plugin[at + HEADER + |group.data|..] == after
  {
    var rest, end := plugin[at..], HEADER + |group.data|;
    assert plugin[at + HEADER..at + end] == rest[HEADER..end];
    assert plugin[at + end..] == rest[end..];
  }

  lemma {:induction false} SkipStep(plugin: Bytes, at: nat) returns (next: nat)
    requires HasHeader(plugin, at) && StandsAt(GRUP, plugin, at) && !StandsAt(HDPT, plugin, at + 8)
    requires U32At(plugin, at + 4) >= HEADER
    ensures next == at + U32At(plugin, at + 4) && FindGroup(plugin, at) == FindGroup(plugin, next)
  {
    next := at + U32At(plugin, at + 4);
  }

  lemma {:induction false} ReadStep(plugin: Bytes, at: nat, contents: Bytes)
    requires HasHeader(plugin, at) && StandsAt(GRUP, plugin, at) && StandsAt(HDPT, plugin, at + 8)
    requires U32At(plugin, at + 4) == HEADER + |contents| && at + HEADER + |contents| <= |plugin|
    requires plugin[at + HEADER..at + HEADER + |contents|] == contents
    ensures FindGroup(plugin, at) == Found(contents)
  {
  }

  lemma {:induction false} NoGroupStep(plugin: Bytes, at: nat)
    requires at <= |plugin| && (|plugin[at..]| < HEADER || !StandsAt(GRUP, plugin[at..], 0))
    ensures FindGroup(plugin, at) == NoGroup
  {
  }

  lemma {:induction false} LeadingGroup(groups: seq<Frame>, after: Bytes)
    requires groups != []
    ensures Serialize(groups) + after == groups[0].header + (groups[0].data + (Serialize(groups[1..]) + after))
  {
  }

  lemma {:induction false} OtherGroupIsAt(plugin: Bytes, at: nat, groups: seq<Frame>, after: Bytes) returns (next: nat)
    requires groups != [] && AreOtherGroups(groups) && at <= |plugin| && plugin[at..] == Serialize(groups) + after
    ensures HasHeader(plugin, at) && StandsAt(GRUP, plugin, at) && !StandsAt(HDPT, plugin, at + 8)
    ensures U32At(plugin, at + 4) >= HEADER && next == at + U32At(plugin, at + 4)
    ensures next <= |plugin| && plugin[next..] == Serialize(groups[1..]) + after
  {
    next := at + HEADER + |groups[0].data|;
    var group, more := groups[0], Serialize(groups[1..]) + after;
    LeadingGroup(groups, after);
    HeaderIsAt(plugin, at, group.header, group.data + more);
    DataIsAt(plugin, at, group, more);
  }

  lemma {:induction false} OtherGroupIsSkipped(plugin: Bytes, at: nat, groups: seq<Frame>, after: Bytes)
    returns (next: nat)
    requires groups != [] && AreOtherGroups(groups) && at <= |plugin| && plugin[at..] == Serialize(groups) + after
    ensures next <= |plugin| && plugin[next..] == Serialize(groups[1..]) + after
    ensures FindGroup(plugin, at) == FindGroup(plugin, next)
  {
    next := OtherGroupIsAt(plugin, at, groups, after);
    var skipped := SkipStep(plugin, at);
    assert skipped == next;
  }

  lemma {:induction false} HdptGroupIsRead(plugin: Bytes, at: nat, hdpt: Frame, after: Bytes)
    requires IsHdpt(hdpt) && at <= |plugin| && plugin[at..] == hdpt.header + (hdpt.data + after)
    ensures FindGroup(plugin, at) == Found(hdpt.data)
  {
    HeaderIsAt(plugin, at, hdpt.header, hdpt.data + after);
    DataIsAt(plugin, at, hdpt, after);
    ReadStep(plugin, at, hdpt.data);
  }

  /** The first HDPT group is the one that is read, wherever it stands and whatever follows it. */
  lemma {:induction false} FirstHdptGroupIsRead(plugin: Bytes, at: nat, groups: seq<Frame>, hdpt: Frame, after: Bytes)
    requires AreOtherGroups(groups) && IsHdpt(hdpt) && at <= |plugin|
    requires plugin[at..] == Serialize(groups) + (hdpt.header + (hdpt.data + after))
    ensures FindGroup(plugin, at) == Found(hdpt.data)
    decreases |groups|
  {
    if groups == [] {
      assert plugin[at..] == hdpt.header + (hdpt.data + after);
      HdptGroupIsRead(plugin, at, hdpt, after);
    } else {
      var next := OtherGroupIsSkipped(plugin, at, groups, hdpt.header + (hdpt.data + after));
      FirstHdptGroupIsRead(plugin, next, groups[1..], hdpt, after);
    }
  }

  /** Without an HDPT group a plugin names no Headpart Mesh: the walk ends quietly where no group header follows. */
  lemma {:induction false} NoHdptGroupNamesNothing(plugin: Bytes, at: nat, groups: seq<Frame>, after: Bytes)
    requires AreOtherGroups(groups) && at <= |plugin| && plugin[at..] == Serialize(groups) + after
    requires |after| < HEADER || !StandsAt(GRUP, after, 0)
    ensures FindGroup(plugin, at) == NoGroup
    decreases |groups|
  {
    if groups == [] {
      assert plugin[at..] == after;
      NoGroupStep(plugin, at);
    } else {
      var next := OtherGroupIsSkipped(plugin, at, groups, after);
      NoHdptGroupNamesNothing(plugin, next, groups[1..], after);
    }
  }
}
