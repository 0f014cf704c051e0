/**
 Framing of the event stream, section 9.2 of the WHATWG HTML standard: one blank line ends a frame.
 The reader gets the text in pieces of any size and cuts frames off the front of its buffer.
 */
module EventStream {
  import opened Prelude

  datatype Event = Event(event: string, data: string)

  datatype Cut = Cut(frames: seq<string>, rest: string)

  function Text(e: Event): string {
    Body(e) + "\n\n"
  }

  function Body(e: Event): string {
    "event: " + e.event + "\ndata: " + e.data
  }

  function TextOf(events: seq<Event>): string {
    if events == [] then "" else Text(events[0]) + TextOf(events[1..])
  }

  predicate BreakAt(s: string, i: nat) {
    i + 1 < |s| && s[i] == '\n' && s[i + 1] == '\n'
  }

  /** The first blank line at or after `from`: `indexOf('\n\n')`. */
  function FindBreak(s: string, from: nat): (r: Option<nat>)
    ensures r.Some? ==> from <= r.value && BreakAt(s, r.value)
    decreases |s| - from
  {
    if from + 1 >= |s| then None else if BreakAt(s, from) then Some(from) else FindBreak(s, from + 1)
  }

  lemma {:induction false} FindsFirst(s: string, from: nat, i: nat)
    requires from <= i && BreakAt(s, i) && forall k: nat :: from <= k < i ==> !BreakAt(s, k)
    ensures FindBreak(s, from) == Some(i)
    decreases i - from
  {
    if from < i { FindsFirst(s, from + 1, i); }
  }

  lemma {:induction false} NoneBefore(s: string, from: nat, k: nat)
    requires from <= k && BreakAt(s, k)
    ensures FindBreak(s, from).Some? && FindBreak(s, from).value <= k
    decreases k - from
  {
    if from < k { NoneBefore(s, from + 1, k); }
  }

  /** Cut off every complete frame. */
  function CutFrames(buffer: string): (r: Cut)
    decreases |buffer|
  {
    match FindBreak(buffer, 0)
    case None => Cut([], buffer)
    case Some(i) =>
      var later := CutFrames(buffer[i + 2..]);
      Cut([buffer[..i]] + later.frames, later.rest)
  }

  const MAX_INPUT_BYTES: nat := 8 * 1024 * 1024
  const MAX_FRAME_BYTES: nat := 512 * 1024

  predicate IsComment(frame: string) {
    ":" <= frame
  }

  /** The frames that carry an event, in order. */
  function Events(frames: seq<string>): (r: seq<string>)
    ensures forall f :: f in r <==> f in frames && (f == "" || f[0] != ':')
  {
    if frames == [] then []
    else
      assert frames == frames[..|frames| - 1] + [frames[|frames| - 1]];
      Events(frames[..|frames| - 1]) + if IsComment(frames[|frames| - 1]) then [] else [frames[|frames| - 1]]
  }

  predicate AllFit(frames: seq<string>, size: string -> nat) {
    forall f :: f in frames ==> size(f) <= MAX_FRAME_BYTES
  }

  /** The connection ends over the whole input, or over its first frame that is too large. */
  predicate FailsAt(input: string, size: string -> nat, n: nat) {
    var frames := CutFrames(input).frames;
    if size(input) > MAX_INPUT_BYTES then n == 0
    else n < |frames| && size(frames[n]) > MAX_FRAME_BYTES && AllFit(frames[..n], size)
  }

  class Reader {
    var buffer: string
    /** The length of a text once encoded. */
    const size: string -> nat

    constructor (encoded: string -> nat)
      ensures buffer == "" && size == encoded
    {
      buffer, size := "", encoded;
    }

    /**
     One read: the piece is added to the buffer, then frames are cut off until none is complete. Comments
     are passed over; an oversized buffer or frame ends the connection, after the frames before it.
     */
    method Feed(piece: string) returns (frames: seq<string>, ok: bool)
      modifies this
      ensures ok <==> size(old(buffer) + piece) <= MAX_INPUT_BYTES && AllFit(CutFrames(old(buffer) + piece).frames, size)
      ensures ok ==> frames == Events(CutFrames(old(buffer) + piece).frames) && buffer == CutFrames(old(buffer) + piece).rest
      ensures !ok ==> exists n: nat ::
        FailsAt(old(buffer) + piece, size, n) && frames == Events(CutFrames(old(buffer) + piece).frames[..n])
    {
      buffer := buffer + piece;
      frames := [];
      ghost var whole, cut := CutFrames(buffer), [];
      Within([], whole.frames);
      if size(buffer) > MAX_INPUT_BYTES {
        assert FailsAt(old(buffer) + piece, size, 0);
        return [], false;
      }
      while true
        invariant whole == Cut(cut + CutFrames(buffer).frames, CutFrames(buffer).rest)
        invariant frames == Events(cut) && AllFit(cut, size)
        decreases |buffer|
      {
        Within(cut, CutFrames(buffer).frames);
        var end := FindBreak(buffer, 0);
        if end.None? { return frames, true; }
        var frame := buffer[..end.value];
        OneMore(cut, frame, CutFrames(buffer[end.value + 2..]).frames);
        if size(frame) > MAX_FRAME_BYTES {
          assert FailsAt(old(buffer) + piece, size, |cut|);
          return frames, false;
        }
        if !IsComment(frame) { frames := frames + [frame]; }
        cut := cut + [frame];
        buffer := buffer[end.value + 2..];
      }
    }
  }

  lemma Within(cut: seq<string>, later: seq<string>)
    ensures (cut + later)[..|cut|] == cut && |cut| <= |cut + later| && (later == [] ==> cut + later == cut)
  {
  }

  lemma {:induction false} OneMore(cut: seq<string>, frame: string, later: seq<string>)
    ensures cut + ([frame] + later) == (cut + [frame]) + later && frame in cut + ([frame] + later)
    ensures Events(cut + [frame]) == Events(cut) + if IsComment(frame) then [] else [frame]
  {
    assert (cut + [frame])[..|cut|] == cut;
    assert (cut + ([frame] + later))[|cut|] == frame;
  }

  /** No frame that carries an event is taken for a comment. */
  lemma {:induction false} WrittenFramesAreEvents(events: seq<Event>)
    ensures Events(Bodies(events)) == Bodies(events)
    decreases |events|
  {
    if events != [] {
      var init, last := events[..|events| - 1], events[|events| - 1];
      WrittenFramesAreEvents(init);
      BodiesLast(events);
      assert !IsComment(Body(last)) by { assert Body(last)[0] == 'e'; }
    }
  }

  lemma {:induction false} BodiesLast(events: seq<Event>)
    requires events != []
    ensures Bodies(events) == Bodies(events[..|events| - 1]) + [Body(events[|events| - 1])]
  {
    if |events| > 1 {
      BodiesLast(events[1..]);
      assert events[1..][..|events| - 2] == events[..|events| - 1][1..];
    }
  }

  /** Cutting `a` first and the remainder together with `b` later gives what cutting all at once gives. */
  ghost predicate SameFrames(a: string, b: string) {
    var first, second := CutFrames(a), CutFrames(CutFrames(a).rest + b);
    CutFrames(a + b) == Cut(first.frames + second.frames, second.rest)
  }

  /** How the text is split into reads makes no difference to the frames. */
  lemma {:induction false} SegmentationIrrelevant(a: string, b: string)
    ensures SameFrames(a, b)
    decreases |a|
  {
    var end := FindBreak(a, 0);
    if end.None? {
      assert [] + CutFrames(a + b).frames == CutFrames(a + b).frames;
    } else {
      SegmentationIrrelevant(a[end.value + 2..], b);
      OneFrameEarlier(a, b, end.value);
    }
  }

  lemma {:induction false} OneFrameEarlier(a: string, b: string, i: nat)
    requires FindBreak(a, 0) == Some(i) && SameFrames(a[i + 2..], b)
    ensures SameFrames(a, b)
  {
    BreakStays(a, b, i);
    SlicesOfSum(a, b, i);
    CutOne(a, i);
    CutOne(a + b, i);
    var later := CutFrames(a[i + 2..]);
    Joined(CutFrames(a), later, CutFrames(a + b), CutFrames(a[i + 2..] + b), CutFrames(later.rest + b), [a[..i]]);
  }

  lemma SlicesOfSum(a: string, b: string, i: nat)
    requires i + 2 <= |a|
    ensures (a + b)[i + 2..] == a[i + 2..] + b && (a + b)[..i] == a[..i]
  {
  }

  lemma Joined(a: Cut, tail: Cut, whole: Cut, tailAndMore: Cut, second: Cut, head: seq<string>)
    requires a == Cut(head + tail.frames, tail.rest) && whole == Cut(head + tailAndMore.frames, tailAndMore.rest)
    requires tailAndMore == Cut(tail.frames + second.frames, second.rest)
    ensures whole == Cut(a.frames + second.frames, second.rest)
  {
    assert head + (tail.frames + second.frames) == (head + tail.frames) + second.frames;
  }

  lemma {:induction false} CutOne(s: string, i: nat)
    requires FindBreak(s, 0) == Some(i)
    ensures CutFrames(s) == Cut([s[..i]] + CutFrames(s[i + 2..]).frames, CutFrames(s[i + 2..]).rest)
  {
  }

  lemma {:induction false} BreakStays(a: string, b: string, i: nat)
    requires FindBreak(a, 0) == Some(i)
    ensures FindBreak(a + b, 0) == Some(i)
  {
    forall k: nat | k < i ensures !BreakAt(a + b, k) {
      if BreakAt(a, k) { NoneBefore(a, 0, k); }
    }
    FindsFirst(a + b, 0, i);
  }

  /** What a writer must avoid so that its frame cannot be cut elsewhere. */
  predicate OneLine(e: Event) {
    '\n' !in e.event && '\n' !in e.data
  }

  lemma {:induction false} BodyHasNoBreak(e: Event, after: string)
    requires OneLine(e)
    ensures FindBreak(Text(e) + after, 0) == Some(|Body(e)|)
    ensures (Text(e) + after)[..|Body(e)|] == Body(e) && (Text(e) + after)[|Body(e)| + 2..] == after
  {
    var s, head := Text(e) + after, "event: " + e.event;
    assert s == head + "\n" + "data: " + e.data + "\n\n" + after;
    assert BreakAt(s, |Body(e)|);
    forall k: nat | k < |Body(e)| ensures !BreakAt(s, k) {
      if k < |head| {
        assert s[k] == head[k] && s[k] != '\n';
      } else if k == |head| {
        assert s[k + 1] == 'd';
      } else {
        assert s[k] == ("data: " + e.data)[k - |head| - 1] && s[k] != '\n';
      }
    }
    FindsFirst(s, 0, |Body(e)|);
  }

  function Bodies(events: seq<Event>): seq<string> {
    if events == [] then [] else [Body(events[0])] + Bodies(events[1..])
  }

  lemma {:induction false} CutFirst(e: Event, after: string)
    requires OneLine(e)
    ensures CutFrames(Text(e) + after) == Cut([Body(e)] + CutFrames(after).frames, CutFrames(after).rest)
  {
    BodyHasNoBreak(e, after);
    CutOne(Text(e) + after, |Body(e)|);
  }

  /** A stream of one-line frames is cut back into exactly those frames, with nothing left over. */
  lemma {:induction false} WrittenFramesComeBack(events: seq<Event>)
    requires forall e :: e in events ==> OneLine(e)
    ensures CutFrames(TextOf(events)) == Cut(Bodies(events), "")
  {
    if events != [] {
      CutFirst(events[0], TextOf(events[1..]));
      WrittenFramesComeBack(events[1..]);
    }
  }

  function Lines(s: string): seq<string> {
    if '\n' !in s then [s] else
      var i := NewlineAt(s);
      [s[..i]] + Lines(s[i + 1..])
  }

  function NewlineAt(s: string): (i: nat)
    requires '\n' in s
    ensures i < |s| && s[i] == '\n' && '\n' !in s[..i]
  {
    if s[0] == '\n' then 0 else
      var i := 1 + NewlineAt(s[1..]);
      assert s[..i] == [s[0]] + s[1..][..i - 1];
      i
  }

  lemma {:induction false} FirstNewline(s: string, n: nat)
    requires n < |s| && s[n] == '\n' && '\n' !in s[..n]
    ensures NewlineAt(s) == n
  {
    if n > 0 {
      assert s[..n][0] == s[0] && s[1..][n - 1] == s[n] && s[1..][..n - 1] == s[..n][1..];
      FirstNewline(s[1..], n - 1);
    }
  }

  function Field(lines: seq<string>, name: string): Option<string> {
    if lines == [] then None
    else if name <= lines[0] then Some(lines[0][|name|..])
    else Field(lines[1..], name)
  }

  /** What every line of that name says, joined by line breaks. */
  function JoinedField(lines: seq<string>, name: string): Option<string> {
    if lines == [] then None
    else
      var rest := JoinedField(lines[1..], name);
      if !(name <= lines[0]) then rest
      else if rest.None? then Some(lines[0][|name|..])
      else Some(lines[0][|name|..] + "\n" + rest.value)
  }

  /** The first event line names the event, all data lines together are its data. */
  function ParseEvent(frame: string): Option<Event> {
    var event, data := Field(Lines(frame), "event: "), JoinedField(Lines(frame), "data: ");
    if event.None? || data.None? then None else Some(Event(event.value, data.value))
  }

  /** The two lines of a frame are read back as they were written. */
  lemma BodyParsesBack(e: Event)
    requires OneLine(e)
    ensures ParseEvent(Body(e)) == Some(e)
  {
    var head, tail := "event: " + e.event, "data: " + e.data;
    var s := Body(e);
    assert s == head + "\n" + tail && s[|head|] == '\n';
    var i := NewlineAt(s);
    assert s[..|head|] == head;
    FirstNewline(s, |head|);
    assert s[..i] == head && s[i + 1..] == tail;
    var lines := [head, tail];
    assert Lines(tail) == [tail] && Lines(s) == lines;
    assert "event: " <= head && "data: " <= tail && head[0] == 'e' && !("data: " <= head);
    assert head[7..] == e.event && tail[6..] == e.data;
    assert lines[1..] == [tail] && JoinedField([], "data: ") == None && JoinedField([tail], "data: ") == Some(e.data);
    assert Field(lines, "event: ") == Some(e.event) && JoinedField(lines, "data: ") == Some(e.data);
  }
}
