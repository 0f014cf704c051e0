/**
 Paged history of a room view. A large or incremental capture is sent as an opening unit and history
 pages under one revision; the browser merges them and only the last page makes the record whole.
 */
module ResourceHistory {
  import opened Prelude

  const PAGE_BYTES: nat := 3 * 1024 * 1024

  datatype Record = Record(pos: nat, body: string)

  /** What one envelope carries: `rest` is everything of a capture except its history. */
  datatype Part =
    | Whole(rest: string, history: seq<Record>)
    | Opening(rest: string)
    | Update(rest: string, after: nat)
    | Page(records: seq<Record>, complete: bool)
    | Ready(position: nat)

  datatype Message = Message(part: Part, revision: nat, source: Option<nat>)

  // ----- The daemon's side -----------------------------------------------------------------------------

  /** Pages that continue `current`, which already holds `bytes` bytes; the last one is always sent. */
  function PagesFrom(records: seq<Record>, current: seq<Record>, bytes: nat, size: Record -> nat): seq<seq<Record>>
    decreases |records|
  {
    if records == [] then [current]
    else
      var next := size(records[0]);
      if current != [] && bytes + next > PAGE_BYTES then [current] + PagesFrom(records[1..], [records[0]], next, size)
      else PagesFrom(records[1..], current + [records[0]], bytes + next, size)
  }

  /** The messages of the pages: only the last is complete and carries the source. */
  function PageMessages(pages: seq<seq<Record>>, revision: nat, source: Option<nat>): seq<Message> {
    if pages == [] then []
    else if |pages| == 1 then [Message(Page(pages[0], true), revision, source)]
    else [Message(Page(pages[0], false), revision, None)] + PageMessages(pages[1..], revision, source)
  }

  /** A capture sent from scratch: whole when it fits, else an opening unit and pages. */
  function Captured(rest: string, history: seq<Record>, large: bool, revision: nat, source: Option<nat>, size: Record -> nat)
    : seq<Message>
  {
    if large then [Message(Opening(rest), revision, None)] + PageMessages(PagesFrom(history, [], 0, size), revision, source)
    else [Message(Whole(rest, history), revision, source)]
  }

  /** Only what was added after the cursor. */
  function Increment(rest: string, after: nat, added: seq<Record>, revision: nat, source: Option<nat>, size: Record -> nat): seq<Message> {
    [Message(Update(rest, after), revision, None)] + PageMessages(PagesFrom(added, [], 0, size), revision, source)
  }

  /** The paging loop of the refresh. */
  method EmitPages(records: seq<Record>, revision: nat, source: Option<nat>, size: Record -> nat) returns (out: seq<Message>)
    ensures out == PageMessages(PagesFrom(records, [], 0, size), revision, source)
  {
    out := [];
    var page: seq<Record>, bytes: nat := [], 0;
    ghost var all := PageMessages(PagesFrom(records, [], 0, size), revision, source);
    assert records[0..] == records && [] + all == all;
    for k := 0 to |records|
      invariant all == out + PageMessages(PagesFrom(records[k..], page, bytes, size), revision, source)
    {
      var record := records[k];
      assert records[k..][0] == record && records[k..][1..] == records[k + 1..];
      if page != [] && bytes + size(record) > PAGE_BYTES {
        FullPage(out, records[k..], page, bytes, revision, source, size);
        out := out + [Message(Page(page, false), revision, None)];
        page, bytes := [], 0;
        assert page + [record] == [record];
      }
      page, bytes := page + [record], bytes + size(record);
    }
    out := out + [Message(Page(page, true), revision, source)];
  }

  lemma {:induction false} FullPage(out: seq<Message>, rest: seq<Record>, page: seq<Record>, bytes: nat, revision: nat, source: Option<nat>,
                 size: Record -> nat)
    requires rest != [] && page != [] && bytes + size(rest[0]) > PAGE_BYTES
    ensures out + PageMessages(PagesFrom(rest, page, bytes, size), revision, source)
      == (out + [Message(Page(page, false), revision, None)])
         + PageMessages(PagesFrom(rest[1..], [rest[0]], size(rest[0]), size), revision, source)
  {
    var later := PagesFrom(rest[1..], [rest[0]], size(rest[0]), size);
    PagesHoldEverything(rest[1..], [rest[0]], size(rest[0]), size);
    PageOut(page, later, revision, source);
    var full, tail := [Message(Page(page, false), revision, None)], PageMessages(later, revision, source);
    assert PagesFrom(rest, page, bytes, size) == [page] + later;
    assert out + (full + tail) == (out + full) + tail;
  }

  lemma {:induction false} PageOut(page: seq<Record>, later: seq<seq<Record>>, revision: nat, source: Option<nat>)
    requires later != []
    ensures PageMessages([page] + later, revision, source)
      == [Message(Page(page, false), revision, None)] + PageMessages(later, revision, source)
  {
    assert ([page] + later)[1..] == later;
  }

  function Flatten(pages: seq<seq<Record>>): seq<Record> {
    if pages == [] then [] else pages[0] + Flatten(pages[1..])
  }

  function Bytes(records: seq<Record>, size: Record -> nat): nat {
    if records == [] then 0 else Bytes(records[..|records| - 1], size) + size(records[|records| - 1])
  }

  lemma {:induction false} PagesHoldEverything(records: seq<Record>, current: seq<Record>, bytes: nat, size: Record -> nat)
    ensures PagesFrom(records, current, bytes, size) != [] && Flatten(PagesFrom(records, current, bytes, size)) == current + records
    decreases |records|
  {
    if records == [] {
      assert current + [] == current;
    } else if current != [] && bytes + size(records[0]) > PAGE_BYTES {
      PagesHoldEverything(records[1..], [records[0]], size(records[0]), size);
      var later := PagesFrom(records[1..], [records[0]], size(records[0]), size);
      assert ([current] + later)[1..] == later;
      assert current + ([records[0]] + records[1..]) == current + records;
    } else {
      PagesHoldEverything(records[1..], current + [records[0]], bytes + size(records[0]), size);
      assert current + [records[0]] + records[1..] == current + records;
    }
  }

  /** No page is over the budget unless it holds one record alone. */
  lemma {:induction false} PagesFit(records: seq<Record>, current: seq<Record>, bytes: nat, size: Record -> nat)
    requires bytes == Bytes(current, size) && (bytes <= PAGE_BYTES || |current| == 1)
    ensures forall page :: page in PagesFrom(records, current, bytes, size) ==> Bytes(page, size) <= PAGE_BYTES || |page| == 1
    decreases |records|
  {
    if records != [] {
      var next := records[0];
      assert (current + [next])[..|current|] == current && [next][..0] == [];
      if current != [] && bytes + size(next) > PAGE_BYTES {
        PagesFit(records[1..], [next], size(next), size);
      } else {
        PagesFit(records[1..], current + [next], bytes + size(next), size);
      }
    }
  }

  // ----- The browser's side ----------------------------------------------------------------------------

  /** A record being received; `open` while pages are missing, `after` the cursor of an increment. */
  datatype Pending = Pending(rest: string, history: seq<Record>, open: bool, after: Option<nat>)

  datatype Payload = Payload(rest: string, history: seq<Record>)

  datatype View = View(
    pending: Option<Pending>, ready: bool, revision: nat, completed: nat, source: Option<nat>, delivered: seq<Payload>)

  function LastPos(history: seq<Record>): nat {
    if history == [] then 0 else history[|history| - 1].pos
  }

  predicate Consecutive(records: seq<Record>, from: nat) {
    forall k :: 0 <= k < |records| ==> records[k].pos == from + k + 1
  }

  /** Evidence of a source may only move forward. */
  predicate Evidence(v: View, source: Option<nat>) {
    source.Some? && v.source.Some? ==> v.source.value <= source.value
  }

  function Deliver(v: View, p: Pending): View {
    if v.ready then v.(delivered := v.delivered + [Payload(p.rest, p.history)]) else v
  }

  /** A whole record advances the source if it is new, and completes its revision. */
  function Complete(v: View, source: Option<nat>): View {
    v.(source := if v.ready && v.revision > v.completed && source.Some? then source else v.source, completed := v.revision)
  }

  /** One message of the view's own binding; none when the connection is lost over it. */
  function Apply(before: View, m: Message): Option<View> {
    if m.revision < before.revision then None
    else
      var v := before.(revision := m.revision);
      var newer := m.revision > v.completed;
      match m.part
      case Whole(rest, history) =>
        if newer && !Evidence(v, m.source) then None
        else
          var p := Pending(rest, history, false, None);
          Some(Complete(Deliver(v.(pending := Some(p)), p), m.source))
      case Opening(rest) => Some(v.(pending := Some(Pending(rest, [], true, None))))
      case Update(rest, after) =>
        if !v.ready || v.pending.None? || v.pending.value.open || after != LastPos(v.pending.value.history) then None
        else Some(v.(pending := Some(Pending(rest, v.pending.value.history, true, Some(after)))))
      case Page(records, complete) =>
        if v.pending.None? || !v.pending.value.open then None
        else
          var p := v.pending.value;
          if p.after.Some? && !Consecutive(records, LastPos(p.history)) then None
          else if complete && newer && !Evidence(v, m.source) then None
          else
            var q := p.(history := p.history + records, open := !complete, after := if complete then None else p.after);
            var w := v.(pending := Some(q));
            Some(if complete then Complete(Deliver(w, q), m.source) else w)
      case Ready(position) =>
        if v.pending.None? || v.pending.value.open || !Evidence(v, Some(position)) then None
        else
          var p := v.pending.value;
          Some(Deliver(v.(source := Some(position), ready := true, completed := v.revision), p))
  }

  function ApplyAll(v: View, messages: seq<Message>): Option<View>
    decreases |messages|
  {
    if messages == [] then Some(v)
    else match Apply(v, messages[0])
      case None => None
      case Some(w) => ApplyAll(w, messages[1..])
  }

  lemma {:induction false} ApplyInTurn(v: View, a: seq<Message>, b: seq<Message>)
    requires ApplyAll(v, a).Some?
    ensures ApplyAll(v, a + b) == ApplyAll(ApplyAll(v, a).value, b)
    decreases |a|
  {
    if a == [] {
      assert a + b == b;
    } else {
      ApplyInTurn(Apply(v, a[0]).value, a[1..], b);
      assert (a + b)[1..] == a[1..] + b;
    }
  }

  /** The view once every page of an open record is in. */
  function Merged(v: View, records: seq<Record>, revision: nat, source: Option<nat>): View
    requires v.pending.Some?
  {
    var q := v.pending.value.(history := v.pending.value.history + records, open := false, after := None);
    Complete(Deliver(v.(revision := revision, pending := Some(q)), q), source)
  }

  ghost predicate ExpectsPages(v: View, records: seq<Record>, revision: nat, source: Option<nat>) {
    && v.pending.Some? && v.pending.value.open && v.revision <= revision && Evidence(v, source)
    && (v.pending.value.after.Some? ==> Consecutive(records, LastPos(v.pending.value.history)))
  }

  /** The pages of an open record, however they were cut, add up to it; nothing is shown or certified before the last. */
  lemma {:induction false} PagesMerge(v: View, pages: seq<seq<Record>>, revision: nat, source: Option<nat>)
    requires pages != [] && ExpectsPages(v, Flatten(pages), revision, source)
    ensures ApplyAll(v, PageMessages(pages, revision, source)) == Some(Merged(v, Flatten(pages), revision, source))
    decreases |pages|
  {
    var page := pages[0];
    assert Flatten(pages) == page + Flatten(pages[1..]);
    if |pages| == 1 {
      assert pages == [page] && page + [] == page;
      LastPageTaken(v, page, revision, source);
      assert PageMessages([page], revision, source)[1..] == [];
    } else {
      var later := Flatten(pages[1..]);
      FirstPageTaken(v, page, later, revision, source);
      PagesMerge(AfterPage(v, page, revision), pages[1..], revision, source);
      assert PageMessages(pages, revision, source)[1..] == PageMessages(pages[1..], revision, source);
      MergedLater(v, page, later, revision, source);
    }
  }

  /** The view once a page that is not the last is in. */
  function AfterPage(v: View, page: seq<Record>, revision: nat): View
    requires v.pending.Some?
  {
    v.(revision := revision, pending := Some(v.pending.value.(history := v.pending.value.history + page)))
  }

  lemma LastPageTaken(v: View, page: seq<Record>, revision: nat, source: Option<nat>)
    requires ExpectsPages(v, page, revision, source)
    ensures Apply(v, Message(Page(page, true), revision, source)) == Some(Merged(v, page, revision, source))
  {
  }

  lemma MergedLater(v: View, page: seq<Record>, later: seq<Record>, revision: nat, source: Option<nat>)
    requires v.pending.Some?
    ensures Merged(AfterPage(v, page, revision), later, revision, source) == Merged(v, page + later, revision, source)
  {
    var p := v.pending.value;
    assert p.history + page + later == p.history + (page + later);
  }

  lemma FirstPageTaken(v: View, page: seq<Record>, later: seq<Record>, revision: nat, source: Option<nat>)
    requires ExpectsPages(v, page + later, revision, source)
    ensures var w := AfterPage(v, page, revision);
      Apply(v, Message(Page(page, false), revision, None)) == Some(w) && ExpectsPages(w, later, revision, source)
  {
    if v.pending.value.after.Some? { StillConsecutive(v.pending.value.history, page, later); }
  }

  lemma StillConsecutive(history: seq<Record>, page: seq<Record>, later: seq<Record>)
    requires Consecutive(page + later, LastPos(history))
    ensures Consecutive(page, LastPos(history)) && Consecutive(later, LastPos(history + page))
  {
    var from, joined := LastPos(history), page + later;
    forall k | 0 <= k < |page| ensures page[k].pos == from + k + 1 { assert joined[k] == page[k]; }
    assert LastPos(history + page) == from + |page|;
    forall k | 0 <= k < |later| ensures later[k].pos == from + |page| + k + 1 { assert joined[|page| + k] == later[k]; }
  }

  /** A first capture, whole or paged, and its ready message: delivered once, with exactly the captured history. */
  lemma {:induction false} CaptureRoundTrip(v: View, rest: string, history: seq<Record>, large: bool, revision: nat, source: Option<nat>,
                         position: nat, size: Record -> nat)
    requires !v.ready && v.revision <= revision && Evidence(v, source) && Evidence(v, Some(position))
    ensures ApplyAll(v, Captured(rest, history, large, revision, source, size) + [Message(Ready(position), revision, None)])
      == Some(View(Some(Pending(rest, history, false, None)), true, revision, revision, Some(position),
                   v.delivered + [Payload(rest, history)]))
  {
    var messages, ready := Captured(rest, history, large, revision, source, size), [Message(Ready(position), revision, None)];
    var received := v.(revision := revision, completed := revision, pending := Some(Pending(rest, history, false, None)));
    CaptureReceived(v, rest, history, large, revision, source, size);
    ApplyInTurn(v, messages, ready);
    assert ready[1..] == [];
    assert Apply(received, ready[0]).Some?;
  }

  lemma {:induction false} CaptureReceived(v: View, rest: string, history: seq<Record>, large: bool, revision: nat, source: Option<nat>,
                                      size: Record -> nat)
    requires !v.ready && v.revision <= revision && Evidence(v, source)
    ensures ApplyAll(v, Captured(rest, history, large, revision, source, size))
      == Some(v.(revision := revision, completed := revision, pending := Some(Pending(rest, history, false, None))))
  {
    var messages := Captured(rest, history, large, revision, source, size);
    if large {
      var pages := PagesFrom(history, [], 0, size);
      PagesHoldEverything(history, [], 0, size);
      var begun := v.(revision := revision, pending := Some(Pending(rest, [], true, None)));
      assert [] + history == history;
      PagesMerge(begun, pages, revision, source);
      assert messages[1..] == PageMessages(pages, revision, source);
    } else {
      assert messages[1..] == [];
    }
  }

  /**
   An increment on a ready view: the browser ends with the old history followed by what was added,
   shows it once, and moves its source only if the revision is new.
   */
  lemma {:induction false} IncrementRoundTrip(v: View, rest: string, added: seq<Record>, revision: nat, source: Option<nat>, size: Record -> nat)
    requires v.ready && v.pending.Some? && !v.pending.value.open && v.revision <= revision && Evidence(v, source)
    requires Consecutive(added, LastPos(v.pending.value.history))
    ensures var history := v.pending.value.history + added;
      ApplyAll(v, Increment(rest, LastPos(v.pending.value.history), added, revision, source, size))
      == Some(View(Some(Pending(rest, history, false, None)), true, revision, revision,
                   if revision > v.completed && source.Some? then source else v.source, v.delivered + [Payload(rest, history)]))
  {
    var after := LastPos(v.pending.value.history);
    var pages, begun := PagesFrom(added, [], 0, size), Begun(v, rest, revision);
    PagesHoldEverything(added, [], 0, size);
    assert [] + added == added;
    PagesMerge(begun, pages, revision, source);
    UpdateThenPages(v, rest, pages, revision, source);
    MergedIncrement(v, rest, added, revision, source);
  }

  lemma MergedIncrement(v: View, rest: string, added: seq<Record>, revision: nat, source: Option<nat>)
    requires v.ready && v.pending.Some?
    ensures var history := v.pending.value.history + added;
      Merged(Begun(v, rest, revision), added, revision, source)
      == View(Some(Pending(rest, history, false, None)), true, revision, revision,
              if revision > v.completed && source.Some? then source else v.source, v.delivered + [Payload(rest, history)])
  {
  }

  /** A ready view that has taken the opening of an increment. */
  function Begun(v: View, rest: string, revision: nat): View
    requires v.pending.Some?
  {
    var shown := v.pending.value.history;
    v.(revision := revision, pending := Some(Pending(rest, shown, true, Some(LastPos(shown)))))
  }

  lemma {:induction false} UpdateThenPages(v: View, rest: string, pages: seq<seq<Record>>, revision: nat, source: Option<nat>)
    requires v.ready && v.pending.Some? && !v.pending.value.open && v.revision <= revision
    ensures ApplyAll(v, [Message(Update(rest, LastPos(v.pending.value.history)), revision, None)] + PageMessages(pages, revision, source))
      == ApplyAll(Begun(v, rest, revision), PageMessages(pages, revision, source))
  {
    var update := Message(Update(rest, LastPos(v.pending.value.history)), revision, None);
    assert Apply(v, update) == Some(Begun(v, rest, revision));
    assert ([update] + PageMessages(pages, revision, source))[1..] == PageMessages(pages, revision, source);
  }

  /** Whatever arrives, the source never moves back, and a record that is still open shows nothing. */
  lemma ApplyIsCautious(v: View, m: Message)
    requires Apply(v, m).Some? && (v.source.Some? ==> v.completed <= v.revision)
    ensures var w := Apply(v, m).value;
      && v.delivered <= w.delivered && (v.source.Some? ==> w.source.Some? && v.source.value <= w.source.value)
      && (w.pending.Some? && w.pending.value.open ==> w.delivered == v.delivered && w.source == v.source && w.completed == v.completed)
  {
  }

  /** A capture sent again to a view that is ready, whole or paged: shown once, at the end, and certified if it is new. */
  lemma {:induction false} RecaptureRoundTrip(v: View, rest: string, history: seq<Record>, large: bool, revision: nat, source: Option<nat>,
                                      size: Record -> nat)
    requires v.ready && v.revision <= revision && Evidence(v, source)
    ensures ApplyAll(v, Captured(rest, history, large, revision, source, size))
      == Some(View(Some(Pending(rest, history, false, None)), true, revision, revision,
                   if revision > v.completed && source.Some? then source else v.source, v.delivered + [Payload(rest, history)]))
  {
    var messages := Captured(rest, history, large, revision, source, size);
    if large {
      var pages := PagesFrom(history, [], 0, size);
      PagesHoldEverything(history, [], 0, size);
      var begun := v.(revision := revision, pending := Some(Pending(rest, [], true, None)));
      assert [] + history == history;
      PagesMerge(begun, pages, revision, source);
      assert messages[1..] == PageMessages(pages, revision, source);
    } else {
      assert messages[1..] == [];
    }
  }

  /** The source a record brings is older than the one certified. */
  predicate GoesBack(v: View, source: Option<nat>) {
    v.source.Some? && source.Some? && source.value < v.source.value
  }

  /** Something is there, and all of it. */
  predicate HoldsWhole(v: View) {
    v.pending.Some? && !v.pending.value.open
  }

  function Cursor(v: View): nat
    requires v.pending.Some?
  {
    var history := v.pending.value.history;
    if history == [] then 0 else history[|history| - 1].pos
  }

  /** The connection is given up over exactly these messages. */
  predicate Breaks(v: View, m: Message) {
    || m.revision < v.revision
    || match m.part
       case Opening(_) => false
       case Whole(_, _) => m.revision > v.completed && GoesBack(v, m.source)
       case Update(_, after) => !v.ready || !HoldsWhole(v) || after != Cursor(v)
       case Page(records, complete) =>
         || v.pending.None? || !v.pending.value.open
         || (v.pending.value.after.Some? && exists k :: 0 <= k < |records| && records[k].pos != Cursor(v) + k + 1)
         || (complete && m.revision > v.completed && GoesBack(v, m.source))
       case Ready(position) => !HoldsWhole(v) || GoesBack(v, Some(position))
  }

  lemma RefusesExactly(v: View, m: Message)
    ensures Apply(v, m).None? <==> Breaks(v, m)
  {
  }
}
