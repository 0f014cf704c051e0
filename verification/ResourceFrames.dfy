/**
 Delivery of one resource record: small ones as a single frame, larger ones as a start frame, base64
 chunks and a commit frame, which the browser assembles again.
 */
module ResourceFrames {
  import opened Prelude
  import opened Aliases
  import opened Base64
  import EventStream

  const RESOURCE_FRAME_BYTES: nat := 512 * 1024
  const RESOURCE_ASSEMBLY_BYTES: nat := 16 * 1024 * 1024
  const MAX_PARTS: nat := 64
  const MAX_SAFE_INTEGER: nat := 9007199254740991

  datatype Binding = Binding(generation: string, viewId: string, epoch: nat, revision: nat, sequence: nat)

  datatype WireFrame =
    | Ordinary(json: seq<Byte>)
    | Start(binding: Binding, id: string, totalBytes: nat, parts: nat)
    | Chunk(binding: Binding, id: string, index: nat, data: string)
    | Commit(binding: Binding, id: string, totalBytes: nat)

  function FrameId(b: Binding): string {
    b.viewId + ":" + Decimal(b.epoch) + ":" + Decimal(b.sequence)
  }

  function Min(a: nat, b: nat): nat { if a < b then a else b }

  /** Chunks hold 256 KiB each. */
  function Offset(index: nat): nat {
    index * 262144
  }

  function PartsOf(total: nat): nat {
    (total + 262143) / 262144
  }

  function Slice(json: seq<Byte>, index: nat): seq<Byte>
    requires Offset(index) <= |json|
  {
    json[Offset(index)..Min(Offset(index) + 262144, |json|)]
  }

  function ChunkAt(b: Binding, json: seq<Byte>, index: nat): WireFrame
    requires Offset(index) <= |json|
  {
    Chunk(b, FrameId(b), index, Encode(Slice(json, index)))
  }

  function ChunkFrames(b: Binding, json: seq<Byte>, index: nat): seq<WireFrame>
    decreases |json| - Offset(index)
  {
    if Offset(index) >= |json| then [] else [ChunkAt(b, json, index)] + ChunkFrames(b, json, index + 1)
  }

  /** The frames of one record, or none when it is over the assembly limit. */
  function FramesOf(b: Binding, json: seq<Byte>): Option<seq<WireFrame>> {
    if |json| > RESOURCE_ASSEMBLY_BYTES then None
    else if |json| + 24 <= RESOURCE_FRAME_BYTES then Some([Ordinary(json)])
    else Some([Start(b, FrameId(b), |json|, PartsOf(|json|))] + ChunkFrames(b, json, 0) + [Commit(b, FrameId(b), |json|)])
  }

  /** The generator, as a loop over offsets. */
  method Frames(b: Binding, json: seq<Byte>) returns (frames: Option<seq<WireFrame>>)
    ensures frames == FramesOf(b, json)
  {
    if |json| > RESOURCE_ASSEMBLY_BYTES { return None; }
    if |json| + 24 <= RESOURCE_FRAME_BYTES { return Some([Ordinary(json)]); }
    var out := [Start(b, FrameId(b), |json|, PartsOf(|json|))];
    var offset, index := 0, 0;
    while offset < |json|
      invariant offset == Offset(index)
      invariant out + ChunkFrames(b, json, index) == [Start(b, FrameId(b), |json|, PartsOf(|json|))] + ChunkFrames(b, json, 0)
      decreases |json| - offset
    {
      var next := ChunkAt(b, json, index);
      assert out + ([next] + ChunkFrames(b, json, index + 1)) == (out + [next]) + ChunkFrames(b, json, index + 1);
      out := out + [next];
      offset, index := offset + 262144, index + 1;
    }
    assert out + [] == out;
    return Some(out + [Commit(b, FrameId(b), |json|)]);
  }

  // ----- The browser's side ------------------------------------------------------------------------

  datatype Assembly = Idle | Assembling(id: string, totalBytes: nat, parts: nat, chunks: seq<seq<Byte>>, bytes: nat, binding: Binding)

  datatype Received = Failed | Waiting(assembly: Assembly) | Delivered(json: seq<Byte>)

  function Concat(chunks: seq<seq<Byte>>): (r: seq<Byte>) {
    if chunks == [] then [] else Concat(chunks[..|chunks| - 1]) + chunks[|chunks| - 1]
  }

  function TakeBytes(a: Assembly, decoded: Option<seq<Byte>>): Received
    requires a.Assembling?
  {
    if decoded.None? || a.bytes + |decoded.value| > a.totalBytes || |a.chunks| >= a.parts then Failed
    else Waiting(a.(chunks := a.chunks + [decoded.value], bytes := a.bytes + |decoded.value|))
  }

  /** `parse` is the JSON parser, as far as the binding fields of the record go. */
  function Receive(a: Assembly, f: WireFrame, parse: seq<Byte> -> Option<Binding>): Received {
    match f
    case Ordinary(json) => if a.Idle? then Delivered(json) else Failed
    case Start(b, id, total, parts) =>
      if a.Assembling? || total == 0 || total > RESOURCE_ASSEMBLY_BYTES || parts == 0 || parts > MAX_PARTS then Failed
      else Waiting(Assembling(id, total, parts, [], 0, b))
    case Chunk(b, id, index, data) =>
      if a.Idle? || id != a.id || b != a.binding || index != |a.chunks| then Failed else TakeBytes(a, Decode(data))
    case Commit(b, id, total) =>
      if a.Idle? || id != a.id || b != a.binding || a.bytes != a.totalBytes || total != a.totalBytes || |a.chunks| != a.parts then Failed
      else
        var json := Concat(a.chunks);
        if parse(json) != Some(a.binding) then Failed else Delivered(json)
  }

  class Assembler {
    var assembly: Assembly

    ghost predicate Valid()
      reads this
    {
      assembly.Assembling? ==>
        && assembly.bytes == |Concat(assembly.chunks)| <= assembly.totalBytes <= RESOURCE_ASSEMBLY_BYTES
        && |assembly.chunks| <= assembly.parts <= MAX_PARTS
    }

    constructor ()
      ensures Valid() && assembly == Idle
    {
      assembly := Idle;
    }

    /** One frame; a failure ends the whole connection, and the assembly with it. */
    method Take(f: WireFrame, parse: seq<Byte> -> Option<Binding>) returns (r: Received)
      requires Valid()
      modifies this
      ensures r == Receive(old(assembly), f, parse)
      ensures Valid() && assembly == (if r.Waiting? then r.assembly else Idle)
      ensures r.Delivered? && f.Commit? ==> |r.json| == f.totalBytes <= RESOURCE_ASSEMBLY_BYTES && parse(r.json) == Some(f.binding)
    {
      r := Receive(assembly, f, parse);
      if r.Waiting? && f.Chunk? {
        ConcatGrows(assembly.chunks, Decode(f.data).value);
      }
      assembly := if r.Waiting? then r.assembly else Idle;
    }
  }

  lemma {:induction false} ConcatGrows(chunks: seq<seq<Byte>>, more: seq<Byte>)
    ensures Concat(chunks + [more]) == Concat(chunks) + more
  {
    assert (chunks + [more])[..|chunks|] == chunks;
  }

  /** What the browser has delivered after a whole list of frames, if nothing failed on the way. */
  function ReceiveAll(a: Assembly, frames: seq<WireFrame>, parse: seq<Byte> -> Option<Binding>): Option<(Assembly, seq<seq<Byte>>)>
    decreases |frames|
  {
    if frames == [] then Some((a, []))
    else
      match Receive(a, frames[0], parse)
      case Failed => None
      case Waiting(next) => ReceiveAll(next, frames[1..], parse)
      case Delivered(json) =>
        match ReceiveAll(Idle, frames[1..], parse)
        case None => None
        case Some(later) => Some((later.0, [json] + later.1))
  }

  // ----- The round trip ------------------------------------------------------------------------------

  lemma PartsBound(total: nat, index: nat)
    requires 0 < total <= RESOURCE_ASSEMBLY_BYTES
    ensures 0 < PartsOf(total) <= MAX_PARTS
    ensures Offset(index) < total ==> index < PartsOf(total)
    ensures Offset(index) >= total && (index == 0 || Offset(index - 1) < total) ==> index == PartsOf(total)
  {
  }

  /** The state of the assembly after the first `index` chunks. */
  function Halfway(b: Binding, id: string, json: seq<Byte>, chunks: seq<seq<Byte>>): Assembly {
    Assembling(id, |json|, PartsOf(|json|), chunks, |Concat(chunks)|, b)
  }

  /** The chunks taken so far are the whole 256 KiB slices at the front of the record. */
  ghost predicate Prefix(json: seq<Byte>, chunks: seq<seq<Byte>>) {
    && Concat(chunks) == json[..Min(Offset(|chunks|), |json|)]
    && (chunks == [] || Offset(|chunks| - 1) < |json|)
  }

  lemma PrefixGrows(json: seq<Byte>, chunks: seq<seq<Byte>>)
    requires Prefix(json, chunks) && Offset(|chunks|) < |json|
    ensures Prefix(json, chunks + [Slice(json, |chunks|)])
  {
    var offset, bytes := Offset(|chunks|), Slice(json, |chunks|);
    var end := Min(offset + 262144, |json|);
    ConcatGrows(chunks, bytes);
    assert bytes == json[offset..end];
    JoinsUp(json, offset, end);
    assert Offset(|chunks| + 1) == offset + 262144;
  }

  lemma JoinsUp(json: seq<Byte>, offset: nat, end: nat)
    requires offset <= end <= |json|
    ensures json[..offset] + json[offset..end] == json[..end]
  {
  }

  lemma {:induction false} ReadsChunk(a: Assembly, data: string, parse: seq<Byte> -> Option<Binding>)
    requires a.Assembling?
    ensures Receive(a, Chunk(a.binding, a.id, |a.chunks|, data), parse) == TakeBytes(a, Decode(data))
  {
  }

  lemma {:induction false} OneMoreChunk(b: Binding, json: seq<Byte>, chunks: seq<seq<Byte>>, id: string, data: string,
                                      parse: seq<Byte> -> Option<Binding>)
    requires 0 < |json| <= RESOURCE_ASSEMBLY_BYTES && Prefix(json, chunks) && Offset(|chunks|) < |json|
    requires Decode(data) == Some(Slice(json, |chunks|))
    ensures Receive(Halfway(b, id, json, chunks), Chunk(b, id, |chunks|, data), parse)
      == Waiting(Halfway(b, id, json, chunks + [Slice(json, |chunks|)]))
  {
    SliceFits(json, chunks);
    PartsBound(|json|, |chunks|);
    ReadsChunk(Halfway(b, id, json, chunks), data, parse);
    HalfwayTakes(b, id, json, chunks, Slice(json, |chunks|));
  }

  lemma {:induction false} HalfwayTakes(b: Binding, id: string, json: seq<Byte>, chunks: seq<seq<Byte>>, bytes: seq<Byte>)
    requires |Concat(chunks)| + |bytes| <= |json| && |chunks| < PartsOf(|json|)
    ensures TakeBytes(Halfway(b, id, json, chunks), Some(bytes)) == Waiting(Halfway(b, id, json, chunks + [bytes]))
  {
    ConcatGrows(chunks, bytes);
  }

  lemma {:induction false} SliceFits(json: seq<Byte>, chunks: seq<seq<Byte>>)
    requires Prefix(json, chunks) && Offset(|chunks|) < |json|
    ensures |Concat(chunks)| + |Slice(json, |chunks|)| <= |json|
  {
  }

  lemma {:induction false} ReceiveFirst(a: Assembly, next: Assembly, f: WireFrame, rest: seq<WireFrame>, last: seq<WireFrame>,
                                      parse: seq<Byte> -> Option<Binding>)
    requires Receive(a, f, parse) == Waiting(next)
    ensures ReceiveAll(a, [f] + rest + last, parse) == ReceiveAll(next, rest + last, parse)
  {
    assert ([f] + rest + last)[1..] == rest + last;
  }

  lemma CommitDelivers(b: Binding, id: string, json: seq<Byte>, chunks: seq<seq<Byte>>, parse: seq<Byte> -> Option<Binding>)
    requires 0 < |json| <= RESOURCE_ASSEMBLY_BYTES && Prefix(json, chunks) && Offset(|chunks|) >= |json| && parse(json) == Some(b)
    ensures ReceiveAll(Halfway(b, id, json, chunks), [Commit(b, id, |json|)], parse) == Some((Idle, [json]))
  {
    PartsBound(|json|, |chunks|);
    assert json[..|json|] == json;
    assert [Commit(b, id, |json|)][1..] == [] && [json] + [] == [json];
  }

  lemma ChunkTaken(b: Binding, json: seq<Byte>, chunks: seq<seq<Byte>>, parse: seq<Byte> -> Option<Binding>)
    requires 0 < |json| <= RESOURCE_ASSEMBLY_BYTES && Prefix(json, chunks) && Offset(|chunks|) < |json|
    ensures Prefix(json, chunks + [Slice(json, |chunks|)])
    ensures Receive(Halfway(b, FrameId(b), json, chunks), ChunkAt(b, json, |chunks|), parse)
      == Waiting(Halfway(b, FrameId(b), json, chunks + [Slice(json, |chunks|)]))
  {
    RoundTrip(Slice(json, |chunks|));
    OneMoreChunk(b, json, chunks, FrameId(b), Encode(Slice(json, |chunks|)), parse);
    PrefixGrows(json, chunks);
  }

  lemma {:induction false} ChunksAssemble(b: Binding, json: seq<Byte>, chunks: seq<seq<Byte>>, parse: seq<Byte> -> Option<Binding>)
    requires 0 < |json| <= RESOURCE_ASSEMBLY_BYTES && Prefix(json, chunks) && parse(json) == Some(b)
    ensures ReceiveAll(Halfway(b, FrameId(b), json, chunks), ChunkFrames(b, json, |chunks|) + [Commit(b, FrameId(b), |json|)], parse)
      == Some((Idle, [json]))
    decreases |json| - Offset(|chunks|)
  {
    var id, index := FrameId(b), |chunks|;
    var commit := [Commit(b, id, |json|)];
    if Offset(index) >= |json| {
      CommitDelivers(b, id, json, chunks, parse);
      assert ChunkFrames(b, json, index) + commit == commit;
    } else {
      ChunkTaken(b, json, chunks, parse);
      ChunksAssemble(b, json, chunks + [Slice(json, index)], parse);
      StepForward(b, json, chunks, commit, parse);
    }
  }

  lemma {:induction false} StepForward(b: Binding, json: seq<Byte>, chunks: seq<seq<Byte>>, commit: seq<WireFrame>,
                                      parse: seq<Byte> -> Option<Binding>)
    requires Offset(|chunks|) < |json|
    requires Receive(Halfway(b, FrameId(b), json, chunks), ChunkAt(b, json, |chunks|), parse)
      == Waiting(Halfway(b, FrameId(b), json, chunks + [Slice(json, |chunks|)]))
    ensures ReceiveAll(Halfway(b, FrameId(b), json, chunks), ChunkFrames(b, json, |chunks|) + commit, parse)
      == ReceiveAll(Halfway(b, FrameId(b), json, chunks + [Slice(json, |chunks|)]), ChunkFrames(b, json, |chunks| + 1) + commit, parse)
  {
    var now, next := Halfway(b, FrameId(b), json, chunks), Halfway(b, FrameId(b), json, chunks + [Slice(json, |chunks|)]);
    var f, rest := ChunkAt(b, json, |chunks|), ChunkFrames(b, json, |chunks| + 1);
    ReceiveFirst(now, next, f, rest, commit, parse);
    FirstChunk(b, json, |chunks|);
  }

  lemma FirstChunk(b: Binding, json: seq<Byte>, index: nat)
    requires Offset(index) < |json|
    ensures ChunkFrames(b, json, index) == [ChunkAt(b, json, index)] + ChunkFrames(b, json, index + 1)
  {
  }

  /** For every record within 16 MiB, the browser gets back exactly the bytes that were written. */
  lemma ReassemblyRoundTrip(b: Binding, json: seq<Byte>, parse: seq<Byte> -> Option<Binding>)
    requires 0 < |json| <= RESOURCE_ASSEMBLY_BYTES && parse(json) == Some(b)
    ensures FramesOf(b, json).Some? && ReceiveAll(Idle, FramesOf(b, json).value, parse) == Some((Idle, [json]))
  {
    var frames := FramesOf(b, json).value;
    if |json| + 24 <= RESOURCE_FRAME_BYTES {
      assert frames[1..] == [] && [json] + [] == [json];
    } else {
      PartsBound(|json|, 0);
      ChunksAssemble(b, json, [], parse);
      assert frames[1..] == ChunkFrames(b, json, 0) + [Commit(b, FrameId(b), |json|)];
    }
  }

  // ----- Sizes ----------------------------------------------------------------------------------------

  function BindingNames(b: Binding, id: string): string {
    "{\"protocolVersion\":1,\"id\":\"" + id + "\",\"producerGeneration\":\"" + b.generation + "\",\"viewId\":\"" + b.viewId
  }

  function BindingNumbers(b: Binding): string {
    "\",\"subscriptionEpoch\":" + Decimal(b.epoch) + ",\"revision\":" + Decimal(b.revision) + ",\"sequence\":" + Decimal(b.sequence)
  }

  function BindingJson(b: Binding, id: string): string {
    BindingNames(b, id) + BindingNumbers(b)
  }

  /** What a chunked frame says after its binding. */
  function Tail(f: WireFrame): string
    requires !f.Ordinary?
  {
    match f
    case Start(b, id, total, parts) => ",\"type\":\"start\",\"totalBytes\":" + Decimal(total) + ",\"parts\":" + Decimal(parts) + "}"
    case Chunk(b, id, index, data) => ",\"type\":\"chunk\",\"index\":" + Decimal(index) + ",\"data\":\"" + data + "\"}"
    case Commit(b, id, total) => ",\"type\":\"commit\",\"totalBytes\":" + Decimal(total) + "}"
  }

  /** The data line of a chunked frame; an ordinary frame carries the record itself. */
  function DataText(f: WireFrame): string
    requires !f.Ordinary?
  {
    BindingJson(f.binding, f.id) + Tail(f)
  }

  /** The bytes a frame takes on the wire. */
  function FrameSize(f: WireFrame): nat {
    if f.Ordinary? then |"event: resource\ndata: "| + |f.json| + |"\n\n"|
    else |EventStream.Text(EventStream.Event("resource-chunk", DataText(f)))|
  }

  /** What registration and generation admit into a binding. */
  predicate BindingBounded(b: Binding) {
    && |b.generation| == 36 && |b.viewId| <= 128 && '\n' !in b.generation && '\n' !in b.viewId
    && b.epoch <= MAX_SAFE_INTEGER && b.revision <= MAX_SAFE_INTEGER && b.sequence <= MAX_SAFE_INTEGER
  }

  function PowerOfTen(k: nat): nat {
    if k == 0 then 1 else 10 * PowerOfTen(k - 1)
  }

  lemma {:induction false} DecimalLength(n: nat, k: nat)
    requires n < PowerOfTen(k) && k > 0
    ensures |Decimal(n)| <= k && '\n' !in Decimal(n)
    decreases k
  {
    if n >= 10 {
      assert k > 1;
      DecimalLength(n / 10, k - 1);
    }
  }

  lemma {:induction false} SafeIntegerLength(n: nat)
    requires n <= MAX_SAFE_INTEGER
    ensures |Decimal(n)| <= 16 && '\n' !in Decimal(n)
  {
    assert PowerOfTen(4) == 10_000;
    assert PowerOfTen(8) == 10_000 * PowerOfTen(4);
    assert PowerOfTen(12) == 10_000 * PowerOfTen(8);
    assert PowerOfTen(16) == 10_000 * PowerOfTen(12);
    DecimalLength(n, 16);
  }

  lemma BindingJsonIsShort(b: Binding)
    requires BindingBounded(b)
    ensures |BindingJson(b, FrameId(b))| <= 600 && '\n' !in BindingJson(b, FrameId(b))
  {
    FrameIdIsShort(b);
    BindingNamesAreShort(b, FrameId(b));
    BindingNumbersAreShort(b);
  }

  lemma FrameIdIsShort(b: Binding)
    requires BindingBounded(b)
    ensures |FrameId(b)| <= 162 && '\n' !in FrameId(b)
  {
    SafeIntegerLength(b.epoch);
    SafeIntegerLength(b.sequence);
  }

  lemma BindingNamesAreShort(b: Binding, id: string)
    requires BindingBounded(b) && |id| <= 162 && '\n' !in id
    ensures |BindingNames(b, id)| <= 450 && '\n' !in BindingNames(b, id)
  {
  }

  lemma BindingNumbersAreShort(b: Binding)
    requires BindingBounded(b)
    ensures |BindingNumbers(b)| <= 150 && '\n' !in BindingNumbers(b)
  {
    SafeIntegerLength(b.epoch);
    SafeIntegerLength(b.revision);
    SafeIntegerLength(b.sequence);
  }

  lemma FitsWhenShort(f: WireFrame)
    requires !f.Ordinary? && f.id == FrameId(f.binding) && BindingBounded(f.binding)
    requires |Tail(f)| <= 400_000 && '\n' !in Tail(f)
    ensures FitsOneLine(f)
  {
    BindingJsonIsShort(f.binding);
  }

  lemma ChunkTailIsShort(b: Binding, id: string, index: nat, data: string)
    requires index <= MAX_SAFE_INTEGER && |data| <= 349_528 && '\n' !in data
    ensures |Tail(Chunk(b, id, index, data))| <= 400_000 && '\n' !in Tail(Chunk(b, id, index, data))
  {
    SafeIntegerLength(index);
  }

  lemma ChunkFits(b: Binding, json: seq<Byte>, index: nat)
    requires BindingBounded(b) && |json| <= RESOURCE_ASSEMBLY_BYTES && Offset(index) <= |json|
    ensures FitsOneLine(ChunkAt(b, json, index))
  {
    EncodedLength(Slice(json, index));
    EncodedIsPlain(Slice(json, index));
    ChunkTailIsShort(b, FrameId(b), index, Encode(Slice(json, index)));
    FitsWhenShort(ChunkAt(b, json, index));
  }

  lemma {:induction false} ChunksFit(b: Binding, json: seq<Byte>, index: nat)
    requires BindingBounded(b) && |json| <= RESOURCE_ASSEMBLY_BYTES
    ensures forall f :: f in ChunkFrames(b, json, index) ==> FitsOneLine(f)
    decreases |json| - Offset(index)
  {
    if Offset(index) < |json| {
      ChunkFits(b, json, index);
      ChunksFit(b, json, index + 1);
      OneMoreFits(ChunkAt(b, json, index), ChunkFrames(b, json, index + 1));
    }
  }

  lemma OneMoreFits(f: WireFrame, frames: seq<WireFrame>)
    requires FitsOneLine(f) && forall g :: g in frames ==> FitsOneLine(g)
    ensures forall g :: g in [f] + frames ==> FitsOneLine(g)
  {
  }

  lemma LastOffset(total: nat, index: nat)
    requires total <= Offset(index) <= total + 262143
    ensures PartsOf(total) == index
  {
  }

  lemma {:induction false} ChunkCount(b: Binding, json: seq<Byte>, index: nat)
    requires Offset(index) <= |json| + 262143
    ensures |ChunkFrames(b, json, index)| == PartsOf(|json|) - index
    decreases |json| - Offset(index)
  {
    if Offset(index) < |json| {
      ChunkCount(b, json, index + 1);
    } else {
      LastOffset(|json|, index);
    }
  }

  predicate FitsOneLine(f: WireFrame) {
    !f.Ordinary? && FrameSize(f) <= RESOURCE_FRAME_BYTES && '\n' !in DataText(f)
  }

  /** At most 64 parts, no frame over 512 KiB, and no chunked frame that the line framing could tear apart. */
  lemma EveryFrameFits(b: Binding, json: seq<Byte>)
    requires BindingBounded(b) && 0 < |json| <= RESOURCE_ASSEMBLY_BYTES
    ensures var frames := FramesOf(b, json).value;
      && (forall f :: f in frames ==> FrameSize(f) <= RESOURCE_FRAME_BYTES)
      && (forall f :: f in frames && !f.Ordinary? ==> FitsOneLine(f))
      && (frames == [Ordinary(json)] || (|frames| == PartsOf(|json|) + 2 && PartsOf(|json|) <= MAX_PARTS))
  {
    if |json| + 24 <= RESOURCE_FRAME_BYTES {
      assert FrameSize(Ordinary(json)) == |json| + 24;
    } else {
      PartsBound(|json|, 0);
      ChunkCount(b, json, 0);
      ChunkedFrameFits(b, json);
    }
  }

  lemma {:induction false} ChunkedFrameFits(b: Binding, json: seq<Byte>)
    requires BindingBounded(b) && |json| <= RESOURCE_ASSEMBLY_BYTES
    ensures forall f :: f in [Start(b, FrameId(b), |json|, PartsOf(|json|))] + ChunkFrames(b, json, 0) + [Commit(b, FrameId(b), |json|)] ==>
      FitsOneLine(f)
  {
    ChunksFit(b, json, 0);
    EndsFit(b, |json|, PartsOf(|json|));
  }

  lemma EndsFit(b: Binding, total: nat, parts: nat)
    requires BindingBounded(b) && total <= MAX_SAFE_INTEGER && parts <= MAX_SAFE_INTEGER
    ensures FitsOneLine(Start(b, FrameId(b), total, parts)) && FitsOneLine(Commit(b, FrameId(b), total))
  {
    SafeIntegerLength(total);
    SafeIntegerLength(parts);
    FitsWhenShort(Start(b, FrameId(b), total, parts));
    FitsWhenShort(Commit(b, FrameId(b), total));
  }
}
