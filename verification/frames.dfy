/**
 * Length-framed bytes: a fixed header that holds its data's size, then the data; one after another, to the very end.
 */
module Frames {
  type Byte = b: nat | b < 256

  type Bytes = seq<Byte>

  datatype Read<T> = Ok(value: T) | TruncatedHeader | TruncatedData | Corrupt

  /** A plugin's two framings: a field's six-byte header with a 16-bit size, and a record's of 24 with a 32-bit one. */
  datatype Kind = FieldFrame | RecordFrame

  datatype Frame = Frame(header: Bytes, data: Bytes)

  function HeaderSize(kind: Kind): nat {
    match kind case FieldFrame => 6 case RecordFrame => 24
  }

  function U16At(bytes: Bytes, at: nat): nat
    requires at + 2 <= |bytes|
  {
    var low: nat, high: nat := bytes[at], bytes[at + 1];
    low + 0x100 * high
  }

  function U32At(bytes: Bytes, at: nat): nat
    requires at + 4 <= |bytes|
  {
    U16At(bytes, at) + 0x1_0000 * U16At(bytes, at + 2)
  }

  /** The size a header declares: after its four-byte signature, little-endian. */
  function SizeIn(kind: Kind, header: Bytes): nat
    requires |header| == HeaderSize(kind)
  {
    match kind case FieldFrame => U16At(header, 4) case RecordFrame => U32At(header, 4)
  }

  predicate IsFrame(kind: Kind, frame: Frame) {
    |frame.header| == HeaderSize(kind) && SizeIn(kind, frame.header) == |frame.data|
  }

  predicate AreFrames(kind: Kind, frames: seq<Frame>) {
    forall i :: 0 <= i < |frames| ==> IsFrame(kind, frames[i])
  }

  function Serialize(frames: seq<Frame>): Bytes {
    if frames == [] then [] else frames[0].header + frames[0].data + Serialize(frames[1..])
  }

  /** The bytes from `at`, or nothing when they run past the end. */
  function Slice(bytes: Bytes, at: nat, length: nat): (slice: Read<Bytes>)
    ensures slice.Ok? ==> |slice.value| == length
  {
    if at + length <= |bytes| then Ok(bytes[at..at + length]) else TruncatedData
  }

  function FrameAt(kind: Kind, bytes: Bytes, at: nat): (read: Read<Frame>)
    ensures read.Ok? ==> IsFrame(kind, read.value) && at + HeaderSize(kind) + |read.value.data| <= |bytes|
  {
    var header := Slice(bytes, at, HeaderSize(kind));
    if !header.Ok? then TruncatedHeader
    else
      var data := Slice(bytes, at + HeaderSize(kind), SizeIn(kind, header.value));
      if !data.Ok? then TruncatedData else Ok(Frame(header.value, data.value))
  }

  function ReadFrames(kind: Kind, bytes: Bytes, at: nat): (read: Read<seq<Frame>>)
    decreases |bytes| - at
  {
    if at >= |bytes| then Ok([])
    else
      match FrameAt(kind, bytes, at)
      case Ok(frame) =>
        (match ReadFrames(kind, bytes, at + HeaderSize(kind) + |frame.data|)
         case Ok(frames) => Ok([frame] + frames)
         case TruncatedHeader => TruncatedHeader
         case TruncatedData => TruncatedData
         case Corrupt => Corrupt)
      case TruncatedHeader => TruncatedHeader
      case TruncatedData => TruncatedData
      case Corrupt => Corrupt
  }

  lemma {:induction false} FrameLeads(kind: Kind, bytes: Bytes, at: nat)
    requires FrameAt(kind, bytes, at).Ok?
    ensures var frame := FrameAt(kind, bytes, at).value;
            bytes[at..] == frame.header + frame.data + bytes[at + HeaderSize(kind) + |frame.data|..]
  {
    var h := at + HeaderSize(kind);
    assert bytes[at..] == bytes[at..h] + bytes[h..];
  }

  /** What is read is what the bytes hold, all of it. */
  lemma {:induction false} ReadIsSound(kind: Kind, bytes: Bytes, at: nat)
    requires at <= |bytes| && ReadFrames(kind, bytes, at).Ok?
    ensures AreFrames(kind, ReadFrames(kind, bytes, at).value)
    ensures Serialize(ReadFrames(kind, bytes, at).value) == bytes[at..]
    decreases |bytes| - at
  {
    if at < |bytes| {
      var frame := FrameAt(kind, bytes, at).value;
      ReadIsSound(kind, bytes, at + HeaderSize(kind) + |frame.data|);
      FrameLeads(kind, bytes, at);
    }
  }

  lemma {:induction false} FrameIsRead(kind: Kind, bytes: Bytes, at: nat, frame: Frame, after: Bytes)
    requires IsFrame(kind, frame) && at <= |bytes| && bytes[at..] == frame.header + frame.data + after
    ensures FrameAt(kind, bytes, at) == Ok(frame)
    ensures bytes[at + HeaderSize(kind) + |frame.data|..] == after
  {
    var rest, h := bytes[at..], HeaderSize(kind);
    assert bytes[at..at + h] == rest[..h] == frame.header;
    assert bytes[at + h..at + h + |frame.data|] == rest[h..h + |frame.data|] == frame.data;
    assert bytes[at + h + |frame.data|..] == rest[h + |frame.data|..];
  }

  lemma {:induction false} ReadOneMore(kind: Kind, bytes: Bytes, at: nat, next: nat, frames: seq<Frame>)
    requires frames != [] && FrameAt(kind, bytes, at) == Ok(frames[0])
    requires next == at + HeaderSize(kind) + |frames[0].data| && ReadFrames(kind, bytes, next) == Ok(frames[1..])
    ensures ReadFrames(kind, bytes, at) == Ok(frames)
  {
    assert frames == [frames[0]] + frames[1..];
  }

  lemma {:induction false} NothingToRead(kind: Kind, bytes: Bytes, at: nat)
    requires at <= |bytes| && bytes[at..] == Serialize([])
    ensures ReadFrames(kind, bytes, at) == Ok([])
  {
  }

  lemma {:induction false} FirstFrameIsRead(kind: Kind, bytes: Bytes, at: nat, frames: seq<Frame>)
    returns (next: nat, rest: seq<Frame>)
    requires AreFrames(kind, frames) && frames != [] && at <= |bytes| && bytes[at..] == Serialize(frames)
    ensures FrameAt(kind, bytes, at) == Ok(frames[0]) && rest == frames[1..] && AreFrames(kind, rest)
    ensures next == at + HeaderSize(kind) + |frames[0].data| <= |bytes| && bytes[next..] == Serialize(rest)
  {
    rest := frames[1..];
    assert IsFrame(kind, frames[0]);
    FrameIsRead(kind, bytes, at, frames[0], Serialize(rest));
    next := at + HeaderSize(kind) + |frames[0].data|;
  }

  /** Frames one after another are read back, and nothing else is. */
  lemma {:induction false} ReadIsComplete(kind: Kind, bytes: Bytes, at: nat, frames: seq<Frame>)
    requires AreFrames(kind, frames) && at <= |bytes| && bytes[at..] == Serialize(frames)
    ensures ReadFrames(kind, bytes, at) == Ok(frames)
    decreases |frames|
  {
    if frames == [] {
      NothingToRead(kind, bytes, at);
    } else {
      var next, rest := FirstFrameIsRead(kind, bytes, at, frames);
      ReadIsComplete(kind, bytes, next, rest);
      ReadOneMore(kind, bytes, at, next, frames);
    }
  }

  /** Reading succeeds exactly on bytes that decompose wholly into frames, and then there is one decomposition. */
  lemma {:induction false} ReadsWholeDecompositions(kind: Kind, bytes: Bytes)
    ensures ReadFrames(kind, bytes, 0).Ok? <==> exists frames :: AreFrames(kind, frames) && Serialize(frames) == bytes
    ensures forall frames :: AreFrames(kind, frames) && Serialize(frames) == bytes ==>
              ReadFrames(kind, bytes, 0) == Ok(frames)
  {
    if ReadFrames(kind, bytes, 0).Ok? { ReadIsSound(kind, bytes, 0); }
    forall frames | AreFrames(kind, frames) && Serialize(frames) == bytes
      ensures ReadFrames(kind, bytes, 0) == Ok(frames)
    {
      ReadIsComplete(kind, bytes, 0, frames);
    }
  }
}
