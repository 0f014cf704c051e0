/**
 Closing a room. Every contact removal is preceded by a durable intent and followed by a durable
 result; a crash or a throw may stop the close anywhere, and closing again resumes it.
 */
module CloseRoom {
  import opened Prelude
  import opened Rooms

  const CLOSE_BATCH_SIZE: nat := 64

  datatype CloseRow =
    | NoticeIntent(pos: nat, recipient: Cid)
    | NoticeResult(pos: nat, intent: nat, recipient: Cid, queued: bool, notified: bool, uncertain: bool)

  /** What `removeContact` answered; a throw leaves open whether the contact was removed. */
  datatype RemoveOutcome = RemoveThrew | RemoveReturned(queued: bool, notified: bool)

  datatype CloseOutcome = RoomClosed | CloseInterrupted

  predicate Unresolved(rows: seq<CloseRow>, r: CloseRow) {
    r in rows && r.NoticeIntent? && forall x :: x in rows && x.NoticeResult? ==> x.intent != r.pos
  }

  ghost predicate InOrder(rows: seq<CloseRow>, next: nat) {
    && (forall i, j :: 0 <= i < j < |rows| ==> rows[i].pos < rows[j].pos)
    && (forall r :: r in rows ==> 0 < r.pos < next)
  }

  /** At most one intent per recipient is open, every result answers an intent, and none is answered twice. */
  ghost predicate NoticesValid(rows: seq<CloseRow>, returned: set<nat>) {
    && (forall x, y :: Unresolved(rows, x) && Unresolved(rows, y) && x.recipient == y.recipient ==> x == y)
    && (forall x, y :: x in rows && y in rows && x.NoticeResult? && y.NoticeResult? && x.intent == y.intent ==> x == y)
    && (forall x :: x in rows && x.NoticeResult? ==> NoticeIntent(x.intent, x.recipient) in rows && (x.notified ==> x.intent in returned))
  }

  lemma SamePlaceSameRow(rows: seq<CloseRow>, next: nat, x: CloseRow, y: CloseRow)
    requires InOrder(rows, next) && x in rows && y in rows && x.pos == y.pos
    ensures x == y
  {
    var i :| 0 <= i < |rows| && rows[i] == x;
    var j :| 0 <= j < |rows| && rows[j] == y;
    assert i == j;
  }

  lemma IntentKeepsNotices(rows: seq<CloseRow>, next: nat, returned: set<nat>, recipient: Cid)
    requires InOrder(rows, next) && NoticesValid(rows, returned) && next > 0
    requires forall x :: Unresolved(rows, x) ==> x.recipient != recipient
    ensures var intent := NoticeIntent(next, recipient); var more := rows + [intent];
      && InOrder(more, next + 1) && NoticesValid(more, returned)
      && forall x :: Unresolved(more, x) <==> Unresolved(rows, x) || x == intent
  {
    var intent := NoticeIntent(next, recipient);
    var more := rows + [intent];
    OpenAfterIntent(rows, next, returned, intent);
    assert forall x :: x in more <==> x in rows || x == intent;
    forall x, y | Unresolved(more, x) && Unresolved(more, y) && x.recipient == y.recipient ensures x == y {
      assert Unresolved(rows, x) || x == intent;
      assert Unresolved(rows, y) || y == intent;
    }
  }

  lemma OpenAfterIntent(rows: seq<CloseRow>, next: nat, returned: set<nat>, intent: CloseRow)
    requires InOrder(rows, next) && NoticesValid(rows, returned) && intent.NoticeIntent? && intent.pos == next
    ensures forall x :: Unresolved(rows + [intent], x) <==> Unresolved(rows, x) || x == intent
  {
    var more := rows + [intent];
    assert forall y :: y in more <==> y in rows || y == intent;
    forall x | x in rows && x.NoticeResult? ensures x.intent != next {
      assert NoticeIntent(x.intent, x.recipient) in rows;
    }
    forall x ensures Unresolved(more, x) <==> Unresolved(rows, x) || x == intent {
      if x in rows && x != intent { assert x.pos != next; }
    }
  }

  lemma ResultKeepsNotices(rows: seq<CloseRow>, next: nat, returned: set<nat>, intent: CloseRow, result: CloseRow)
    requires InOrder(rows, next) && NoticesValid(rows, returned) && Unresolved(rows, intent) && next > 0
    requires result.NoticeResult? && result.pos == next && result.intent == intent.pos && result.recipient == intent.recipient
    requires result.notified ==> intent.pos in returned
    ensures var more := rows + [result];
      && InOrder(more, next + 1) && NoticesValid(more, returned) && !Unresolved(more, intent)
      && forall x :: Unresolved(more, x) <==> Unresolved(rows, x) && x != intent
  {
    var more := rows + [result];
    assert result in more;
    forall x ensures Unresolved(more, x) <==> Unresolved(rows, x) && x != intent {
      if Unresolved(more, x) { assert forall y :: y in rows ==> y in more; }
      if Unresolved(rows, x) && x.pos == intent.pos { SamePlaceSameRow(rows, next, x, intent); }
    }
  }

  predicate Waits(rows: seq<CloseRow>, after: nat, r: CloseRow) {
    Unresolved(rows, r) && r.pos > after
  }

  /** The first open intents after the cursor. */
  ghost predicate IsBatch(rows: seq<CloseRow>, after: nat, batch: seq<CloseRow>) {
    && batch != []
    && (forall i :: 0 <= i < |batch| ==> Waits(rows, after, batch[i]))
    && (forall i, j :: 0 <= i < j < |batch| ==> batch[i].pos < batch[j].pos)
    && (forall r :: Waits(rows, after, r) && r.pos <= batch[|batch| - 1].pos ==> r in batch)
  }

  lemma {:induction false} FilterInOrder(rows: seq<CloseRow>, next: nat, p: CloseRow -> bool)
    requires InOrder(rows, next)
    ensures InOrder(Filter(rows, p), next)
  {
    if rows != [] {
      var init := rows[..|rows| - 1];
      FilterInOrder(init, next, p);
      var kept := Filter(init, p);
      forall i | 0 <= i < |kept| ensures kept[i].pos < rows[|rows| - 1].pos { assert kept[i] in init; }
    }
  }

  lemma FirstOfAll(rows: seq<CloseRow>, next: nat, after: nat, all: seq<CloseRow>, n: nat)
    requires InOrder(all, next) && 0 < n <= |all| && forall r :: r in all <==> Waits(rows, after, r)
    ensures IsBatch(rows, after, all[..n])
  {
    forall i | 0 <= i < n ensures Waits(rows, after, all[..n][i]) { assert all[i] in all; }
    forall r | Waits(rows, after, r) && r.pos <= all[n - 1].pos ensures r in all[..n] {
      var j :| 0 <= j < |all| && all[j] == r;
      assert j < n && all[..n][j] == r;
    }
  }

  class CloseJournal {
    var rows: seq<CloseRow>
    var next: nat
    var closed: bool
    /** The intents for which `removeContact` returned a delivered notice. */
    ghost var returned: set<nat>

    ghost predicate Valid()
      reads this
    {
      && next > 0 && InOrder(rows, next) && NoticesValid(rows, returned)
      && (closed ==> forall r :: !Unresolved(rows, r))
    }

    constructor ()
      ensures Valid() && rows == [] && !closed
    {
      rows, next, closed, returned := [], 1, false, {};
    }

    method AppendIntent(recipient: Cid) returns (intent: CloseRow)
      requires Valid() && !closed && forall x :: Unresolved(rows, x) ==> x.recipient != recipient
      modifies this
      ensures Valid() && !closed && returned == old(returned) && next == old(next) + 1
      ensures intent == NoticeIntent(old(next), recipient) && rows == old(rows) + [intent]
      ensures forall x :: Unresolved(rows, x) <==> Unresolved(old(rows), x) || x == intent
    {
      IntentKeepsNotices(rows, next, returned, recipient);
      intent := NoticeIntent(next, recipient);
      rows, next := rows + [intent], next + 1;
    }

    method AppendResult(intent: CloseRow, queued: bool, notified: bool, uncertain: bool)
      requires Valid() && !closed && Unresolved(rows, intent) && (notified ==> intent.pos in returned)
      modifies this
      ensures Valid() && !closed && returned == old(returned) && next == old(next) + 1
      ensures rows == old(rows) + [NoticeResult(old(next), intent.pos, intent.recipient, queued, notified, uncertain)]
      ensures forall x :: Unresolved(rows, x) <==> Unresolved(old(rows), x) && x != intent
    {
      var result := NoticeResult(next, intent.pos, intent.recipient, queued, notified, uncertain);
      ResultKeepsNotices(rows, next, returned, intent, result);
      rows, next := rows + [result], next + 1;
    }

    method OpenIntents(after: nat, limit: nat) returns (batch: seq<CloseRow>)
      requires Valid() && limit > 0
      ensures batch != [] ==> IsBatch(rows, after, batch)
      ensures batch == [] ==> forall r :: !Waits(rows, after, r)
    {
      var saved := rows;
      var all := Filter(saved, (r: CloseRow) => Waits(saved, after, r));
      FilterInOrder(saved, next, (r: CloseRow) => Waits(saved, after, r));
      batch := if |all| <= limit then all else all[..limit];
      assert forall r :: r in all <==> Waits(saved, after, r);
      if all == [] {
        forall r ensures !Waits(rows, after, r) { assert r !in all; }
      } else {
        FirstOfAll(saved, next, after, all, |batch|);
      }
    }

    method ResolveOne(intent: CloseRow, spared: set<Cid>, steady: bool) returns (ok: bool)
      requires Valid() && !closed && Unresolved(rows, intent) && intent.recipient !in spared
      modifies this
      ensures Valid() && !closed && returned == old(returned) && GrewUncertain(old(rows), rows, spared)
      ensures forall x :: Unresolved(rows, x) <==> Unresolved(old(rows), x) && (ok ==> x != intent)
      ensures steady ==> ok
    {
      var stop := Interrupted(steady);
      if stop { return false; }
      AppendResult(intent, false, false, true);
      return true;
    }

    /** One batch of uncertain results: for every open intent of it whose contact is not in `spared`. */
    method ResolveBatch(batch: seq<CloseRow>, from: nat, spared: set<Cid>, steady: bool) returns (ok: bool)
      requires Valid() && !closed && IsBatch(rows, from, batch)
      modifies this
      ensures Valid() && !closed && returned == old(returned) && GrewUncertain(old(rows), rows, spared)
      ensures forall x :: Unresolved(rows, x) ==> Unresolved(old(rows), x)
      ensures steady ==> ok
      ensures ok ==> forall i :: 0 <= i < |batch| && batch[i].recipient !in spared ==> !Unresolved(rows, batch[i])
    {
      ghost var start := rows;
      ok := true;
      for k := 0 to |batch|
        invariant Valid() && !closed && returned == old(returned) && GrewUncertain(start, rows, spared)
        invariant ok && LeavesOpen(start, rows, batch, k, spared)
      {
        ghost var before := rows;
        StillOpen(start, rows, from, batch, k, spared);
        if batch[k].recipient !in spared {
          ok := ResolveOne(batch[k], spared, steady);
          UncertainCompose(start, before, rows, spared);
        }
        OneMoreClosed(start, before, rows, batch, k, spared, ok);
        if !ok { break; }
      }
    }

    /** Exactly the open intents whose contact is gone are recorded, as uncertain and never as a delivered notice. */
    method ResolveUncertain(spared: set<Cid>, steady: bool) returns (ok: bool)
      requires Valid() && !closed
      modifies this
      ensures Valid() && !closed && returned == old(returned) && GrewUncertain(old(rows), rows, spared)
      ensures steady ==> ok
      ensures ok ==> forall x :: Unresolved(rows, x) <==> Unresolved(old(rows), x) && x.recipient in spared
    {
      var after := 0;
      ghost var start, limit := rows, next;
      while true
        invariant Valid() && !closed && returned == old(returned) && after <= limit && GrewUncertain(start, rows, spared)
        invariant forall x :: Unresolved(rows, x) ==> Unresolved(start, x) && (x.pos > after || x.recipient in spared)
        decreases limit - after
      {
        var batch := OpenIntents(after, CLOSE_BATCH_SIZE);
        if |batch| == 0 {
          forall x | Unresolved(rows, x) ensures x.recipient in spared { assert !Waits(rows, after, x); }
          SparedStayOpen(start, rows, next, spared);
          return true;
        }
        ghost var before := rows;
        assert Waits(rows, after, batch[|batch| - 1]);
        ok := ResolveBatch(batch, after, spared, steady);
        if !ok { UncertainCompose(start, before, rows, spared); return; }
        BatchDone(before, rows, after, batch, spared);
        UncertainCompose(start, before, rows, spared);
        after := batch[|batch| - 1].pos;
      }
    }

    /** The open intent of a contact, or a new one: never two. */
    method IntentFor(recipient: Cid) returns (intent: CloseRow)
      requires Valid() && !closed
      modifies this
      ensures Valid() && !closed && returned == old(returned)
      ensures Unresolved(rows, intent) && intent.recipient == recipient
      ensures forall x :: Unresolved(rows, x) <==> Unresolved(old(rows), x) || x == intent
      ensures forall x :: Unresolved(rows, x) && x.recipient == recipient ==> x == intent
      ensures rows == old(rows) || (rows == old(rows) + [intent] && forall x :: Unresolved(old(rows), x) ==> x.recipient != recipient)
    {
      var saved := rows;
      var open := Filter(saved, (r: CloseRow) => Unresolved(saved, r) && r.recipient == recipient);
      if open != [] {
        intent := open[|open| - 1];
        assert intent in open;
      } else {
        forall x | Unresolved(rows, x) ensures x.recipient != recipient { assert x !in open; }
        intent := AppendIntent(recipient);
      }
    }

    /** Record what the removal of one contact returned; the answer is known before the result is durable. */
    method SettleIntent(intent: CloseRow, outcome: RemoveOutcome, steady: bool) returns (ok: bool)
      requires Valid() && !closed && Unresolved(rows, intent) && outcome.RemoveReturned?
      modifies this
      ensures Valid() && !closed
      ensures returned == old(returned) || (outcome.notified && returned == old(returned) + {intent.pos})
      ensures rows == old(rows)
        || rows == old(rows) + [NoticeResult(old(next), intent.pos, intent.recipient, outcome.queued, outcome.notified, false)]
      ensures ok <==> rows != old(rows)
      ensures forall x :: Unresolved(rows, x) <==> Unresolved(old(rows), x) && (ok ==> x != intent)
      ensures steady ==> ok
    {
      if outcome.notified { returned := returned + {intent.pos}; }
      var stop := Interrupted(steady);
      if stop { return false; }
      AppendResult(intent, outcome.queued, outcome.notified, false);
      return true;
    }

    /** One contact: take its intent, ask the SDK, record exactly what it returned. */
    method RemoveContact(recipient: Cid, outcome: RemoveOutcome, steady: bool) returns (ok: bool)
      requires Valid() && !closed
      modifies this
      ensures Valid() && !closed && GrewByOne(old(rows), rows, recipient, outcome)
      ensures ReturnedFor(old(returned), returned, rows, recipient, outcome)
      ensures ok ==> outcome.RemoveReturned? && Records(old(rows), rows, recipient, outcome)
      ensures ok ==> forall x :: Unresolved(rows, x) ==> x.recipient != recipient
      ensures forall x :: Unresolved(rows, x) ==> Unresolved(old(rows), x) || x.recipient == recipient
      ensures steady && outcome.RemoveReturned? ==> ok
    {
      var stop := Interrupted(steady);
      if stop { return false; }
      var intent := IntentFor(recipient);
      stop := Interrupted(steady);
      if stop || outcome.RemoveThrew? { return false; }
      ok := FinishRemoval(intent, outcome, steady, old(rows));
    }

    /** What is left once the SDK has answered; `start` is the journal before the contact's intent. */
    method FinishRemoval(intent: CloseRow, outcome: RemoveOutcome, steady: bool, ghost start: seq<CloseRow>) returns (ok: bool)
      requires Valid() && !closed && Unresolved(rows, intent) && outcome.RemoveReturned? && (rows == start || rows == start + [intent])
      requires forall x :: Unresolved(rows, x) && x.recipient == intent.recipient ==> x == intent
      modifies this
      ensures Valid() && !closed && GrewByOne(start, rows, intent.recipient, outcome)
      ensures ReturnedFor(old(returned), returned, rows, intent.recipient, outcome)
      ensures ok ==> Records(start, rows, intent.recipient, outcome)
      ensures ok ==> forall x :: Unresolved(rows, x) ==> x.recipient != intent.recipient
      ensures forall x :: Unresolved(rows, x) ==> Unresolved(old(rows), x)
      ensures steady ==> ok
    {
      ghost var middle := rows;
      ok := SettleIntent(intent, outcome, steady);
      OneRemoval(start, middle, rows, intent, outcome);
    }

    /** Every contact in turn; a throw ends the loop, and closing again resumes it. */
    method RemoveContacts(contacts: seq<Cid>, answers: Cid -> RemoveOutcome, steady: bool) returns (ok: bool)
      requires Valid() && !closed
      modifies this
      ensures Valid() && !closed && GrewByRemovals(old(rows), rows, contacts, answers)
      ensures ReturnedBy(old(returned), returned, rows, contacts, answers)
      ensures ok ==> AllReturned(contacts, answers) && AllRecorded(old(rows), rows, contacts, answers)
      ensures ok ==> forall x :: Unresolved(rows, x) ==> x.recipient !in contacts
      ensures steady && AllReturned(contacts, answers) ==> ok
    {
      ghost var start, was := rows, returned;
      ok := true;
      for k := 0 to |contacts|
        invariant Valid() && !closed && GrewByRemovals(start, rows, contacts, answers)
        invariant ReturnedBy(was, returned, rows, contacts, answers)
        invariant ok && RemovedSoFar(start, rows, contacts, k, answers)
      {
        ok := RemoveNext(contacts, k, answers, steady, start, was);
        if !ok { break; }
      }
      assert contacts[..|contacts|] == contacts;
    }

    method RemoveNext(contacts: seq<Cid>, k: nat, answers: Cid -> RemoveOutcome, steady: bool, ghost start: seq<CloseRow>, ghost was: set<nat>)
      returns (ok: bool)
      requires Valid() && !closed && k < |contacts| && GrewByRemovals(start, rows, contacts, answers)
      requires ReturnedBy(was, returned, rows, contacts, answers) && RemovedSoFar(start, rows, contacts, k, answers)
      modifies this
      ensures Valid() && !closed && GrewByRemovals(start, rows, contacts, answers)
      ensures ReturnedBy(was, returned, rows, contacts, answers)
      ensures ok ==> RemovedSoFar(start, rows, contacts, k + 1, answers)
      ensures steady && answers(contacts[k]).RemoveReturned? ==> ok
    {
      ghost var middle, before := rows, returned;
      ok := RemoveContact(contacts[k], answers(contacts[k]), steady);
      RemovalsCompose(start, middle, rows, contacts, contacts[k], answers);
      ReturnsCompose(was, before, returned, middle, rows, contacts, contacts[k], answers);
      if ok { RecordedSoFar(start, middle, rows, contacts, k, answers); }
    }

    /**
     `closeUnlocked`. `contacts` is what the packet lists, if there still is a packet, and `answers`
     what removing each of them returns; `empty` whether it lists nothing afterwards, and `purged`
     whether destroying it left no residue. The journal only grows, by uncertain results and by what the
     removals returned, and a notice counts as delivered only if its own removal said so.
     */
    method Close(contacts: Option<seq<Cid>>, answers: Cid -> RemoveOutcome, empty: bool, purged: bool, steady: bool)
      returns (outcome: CloseOutcome)
      requires Valid()
      modifies this
      ensures Valid() && (old(closed) ==> closed && rows == old(rows))
      ensures GrewByClose(old(rows), rows, Listed(contacts), answers)
      ensures ReturnedBy(old(returned), returned, rows, Listed(contacts), answers)
      ensures outcome.RoomClosed? ==> closed && forall r :: !Unresolved(rows, r)
      ensures outcome.CloseInterrupted? ==> closed == old(closed)
      ensures outcome.RoomClosed? && !old(closed) ==> purged && (contacts.Some? ==> empty && AllReturned(contacts.value, answers))
      ensures outcome.RoomClosed? && !old(closed) ==> AllRecorded(old(rows), rows, Listed(contacts), answers)
      ensures steady && purged && (contacts.Some? ==> empty && AllReturned(contacts.value, answers)) ==> outcome.RoomClosed?
    {
      if closed { return RoomClosed; }
      if contacts.Some? {
        var removed := CloseContacts(contacts.value, answers, steady);
        if !removed || !empty { return CloseInterrupted; }
      }
      if !purged { return CloseInterrupted; }
      var resolved := CloseRest(old(rows), old(returned), Listed(contacts), answers, steady);
      if !resolved { return CloseInterrupted; }
      var stop := Interrupted(steady);
      if stop { return CloseInterrupted; }
      closed := true;
      return RoomClosed;
    }

    /** While the packet is there: settle what an earlier attempt left open, then remove every contact. */
    method CloseContacts(contacts: seq<Cid>, answers: Cid -> RemoveOutcome, steady: bool) returns (ok: bool)
      requires Valid() && !closed
      modifies this
      ensures Valid() && !closed && GrewByClose(old(rows), rows, contacts, answers)
      ensures ReturnedBy(old(returned), returned, rows, contacts, answers)
      ensures ok ==> AllReturned(contacts, answers) && AllRecorded(old(rows), rows, contacts, answers)
      ensures steady && AllReturned(contacts, answers) ==> ok
    {
      ok := ResolveUncertain((set c | c in contacts), steady);
      if !ok { return; }
      ghost var middle := rows;
      ok := RemoveContacts(contacts, answers, steady);
      CloseCompose(old(rows), middle, rows, contacts, answers);
      if ok { StillRecorded(old(rows), middle, rows, rows, contacts, answers); }
    }

    /** After the purge: whatever is still open is recorded as uncertain. */
    method CloseRest(ghost start: seq<CloseRow>, ghost was: set<nat>, ghost listed: seq<Cid>, ghost answers: Cid -> RemoveOutcome, steady: bool)
      returns (ok: bool)
      requires Valid() && !closed && GrewByClose(start, rows, listed, answers) && ReturnedBy(was, returned, rows, listed, answers)
      requires AllRecorded(start, rows, listed, answers)
      modifies this
      ensures Valid() && !closed && GrewByClose(start, rows, listed, answers) && ReturnedBy(was, returned, rows, listed, answers)
      ensures AllRecorded(start, rows, listed, answers)
      ensures (ok ==> forall r :: !Unresolved(rows, r)) && (steady ==> ok)
    {
      ghost var before := rows;
      ok := ResolveUncertain({}, steady);
      CloseCompose(start, before, rows, listed, answers);
      ReturnsStay(was, returned, before, rows, listed, answers);
      StillRecorded(start, start, before, rows, listed, answers);
    }
  }

  function Listed(contacts: Option<seq<Cid>>): seq<Cid> {
    if contacts.Some? then contacts.value else []
  }

  ghost predicate AllReturned(contacts: seq<Cid>, answers: Cid -> RemoveOutcome) {
    forall k :: 0 <= k < |contacts| ==> answers(contacts[k]).RemoveReturned?
  }

  predicate IsUncertain(r: CloseRow) {
    r.NoticeResult? && !r.queued && !r.notified && r.uncertain
  }

  /** Of the open intents exactly those among the first `k` of the batch that are not spared got their result. */
  ghost predicate LeavesOpen(start: seq<CloseRow>, rows: seq<CloseRow>, batch: seq<CloseRow>, k: nat, spared: set<Cid>)
    requires k <= |batch|
  {
    forall x :: Unresolved(rows, x) <==> Unresolved(start, x) && (x.recipient in spared || x !in batch[..k])
  }

  lemma StillOpen(start: seq<CloseRow>, rows: seq<CloseRow>, from: nat, batch: seq<CloseRow>, k: nat, spared: set<Cid>)
    requires IsBatch(start, from, batch) && k < |batch| && LeavesOpen(start, rows, batch, k, spared)
    ensures Unresolved(rows, batch[k])
  {
    assert Waits(start, from, batch[k]);
    forall i | 0 <= i < k ensures batch[i] != batch[k] { assert batch[i].pos < batch[k].pos; }
  }

  lemma OneMoreClosed(start: seq<CloseRow>, before: seq<CloseRow>, rows: seq<CloseRow>, batch: seq<CloseRow>, k: nat, spared: set<Cid>, ok: bool)
    requires k < |batch| && LeavesOpen(start, before, batch, k, spared)
    requires forall x :: Unresolved(rows, x) <==> Unresolved(before, x) && (ok && batch[k].recipient !in spared ==> x != batch[k])
    ensures ok ==> LeavesOpen(start, rows, batch, k + 1, spared)
    ensures forall x :: Unresolved(rows, x) ==> Unresolved(start, x)
  {
    assert batch[..k + 1] == batch[..k] + [batch[k]];
  }

  ghost predicate GrewUncertain(before: seq<CloseRow>, rows: seq<CloseRow>, spared: set<Cid>) {
    before <= rows && forall k :: |before| <= k < |rows| ==> IsUncertain(rows[k]) && rows[k].recipient !in spared
  }

  /** An intent for the contact, or a result that says what removing it returned. */
  predicate StepFor(r: CloseRow, c: Cid, outcome: RemoveOutcome) {
    r.recipient == c && (r.NoticeResult? ==> !r.uncertain && outcome == RemoveReturned(r.queued, r.notified))
  }

  ghost predicate GrewByOne(before: seq<CloseRow>, rows: seq<CloseRow>, c: Cid, outcome: RemoveOutcome) {
    before <= rows && forall k :: |before| <= k < |rows| ==> StepFor(rows[k], c, outcome)
  }

  predicate Removal(r: CloseRow, contacts: seq<Cid>, answers: Cid -> RemoveOutcome) {
    r.recipient in contacts && StepFor(r, r.recipient, answers(r.recipient))
  }

  ghost predicate GrewByRemovals(before: seq<CloseRow>, rows: seq<CloseRow>, contacts: seq<Cid>, answers: Cid -> RemoveOutcome) {
    before <= rows && forall k :: |before| <= k < |rows| ==> Removal(rows[k], contacts, answers)
  }

  ghost predicate GrewByClose(before: seq<CloseRow>, rows: seq<CloseRow>, contacts: seq<Cid>, answers: Cid -> RemoveOutcome) {
    before <= rows && forall k :: |before| <= k < |rows| ==> IsUncertain(rows[k]) || Removal(rows[k], contacts, answers)
  }

  /** Since `before` there is a result of this contact, and it says what the removal returned. */
  ghost predicate Records(before: seq<CloseRow>, rows: seq<CloseRow>, c: Cid, outcome: RemoveOutcome) {
    exists k :: |before| <= k < |rows| && rows[k].NoticeResult? && StepFor(rows[k], c, outcome)
  }

  ghost predicate AllRecorded(before: seq<CloseRow>, rows: seq<CloseRow>, contacts: seq<Cid>, answers: Cid -> RemoveOutcome) {
    forall c :: c in contacts ==> Records(before, rows, c, answers(c))
  }

  /** The first `n` contacts are removed, their answers recorded and none of their intents left open. */
  ghost predicate RemovedSoFar(start: seq<CloseRow>, rows: seq<CloseRow>, contacts: seq<Cid>, n: nat, answers: Cid -> RemoveOutcome)
    requires n <= |contacts|
  {
    && AllReturned(contacts[..n], answers) && AllRecorded(start, rows, contacts[..n], answers)
    && forall x :: Unresolved(rows, x) ==> x.recipient !in contacts[..n]
  }

  /** Only the intent of this contact may have joined, and only if its removal returned a delivered notice. */
  ghost predicate ReturnedFor(before: set<nat>, after: set<nat>, rows: seq<CloseRow>, c: Cid, outcome: RemoveOutcome) {
    before <= after && forall n :: n in after - before ==> NoticeIntent(n, c) in rows && outcome.RemoveReturned? && outcome.notified
  }

  ghost predicate Delivered(n: nat, rows: seq<CloseRow>, contacts: seq<Cid>, answers: Cid -> RemoveOutcome) {
    exists c :: c in contacts && NoticeIntent(n, c) in rows && answers(c).RemoveReturned? && answers(c).notified
  }

  ghost predicate ReturnedBy(before: set<nat>, after: set<nat>, rows: seq<CloseRow>, contacts: seq<Cid>, answers: Cid -> RemoveOutcome) {
    before <= after && forall n :: n in after - before ==> Delivered(n, rows, contacts, answers)
  }

  lemma UncertainCompose(start: seq<CloseRow>, middle: seq<CloseRow>, rows: seq<CloseRow>, spared: set<Cid>)
    requires GrewUncertain(start, middle, spared) && GrewUncertain(middle, rows, spared)
    ensures GrewUncertain(start, rows, spared)
  {
    assert forall k :: 0 <= k < |middle| ==> rows[k] == middle[k];
  }

  /** Uncertain results for other contacts leave the intents of the spared ones open. */
  lemma SparedStayOpen(start: seq<CloseRow>, rows: seq<CloseRow>, next: nat, spared: set<Cid>)
    requires InOrder(rows, next) && GrewUncertain(start, rows, spared)
    requires forall x :: x in rows && x.NoticeResult? ==> NoticeIntent(x.intent, x.recipient) in rows
    ensures forall x :: Unresolved(start, x) && x.recipient in spared ==> Unresolved(rows, x)
  {
    forall x, y | Unresolved(start, x) && x.recipient in spared && y in rows && y.NoticeResult? ensures y.intent != x.pos {
      var k :| 0 <= k < |rows| && rows[k] == y;
      if k < |start| {
        assert start[k] == y;
      } else if y.intent == x.pos {
        assert x in rows;
        SamePlaceSameRow(rows, next, NoticeIntent(y.intent, y.recipient), x);
      }
    }
    assert forall x :: x in start ==> x in rows;
  }

  lemma OneRemoval(start: seq<CloseRow>, middle: seq<CloseRow>, rows: seq<CloseRow>, intent: CloseRow, outcome: RemoveOutcome)
    requires intent.NoticeIntent? && (middle == start || middle == start + [intent]) && intent in middle && middle <= rows
    requires rows == middle || (|rows| == |middle| + 1 && rows[|middle|].NoticeResult? && StepFor(rows[|middle|], intent.recipient, outcome))
    ensures GrewByOne(start, rows, intent.recipient, outcome) && intent in rows
    ensures rows != middle ==> Records(start, rows, intent.recipient, outcome)
  {
    forall k | |start| <= k < |rows| ensures StepFor(rows[k], intent.recipient, outcome) {
      if k < |middle| { assert rows[k] == middle[k]; }
    }
  }

  lemma RemovalsCompose(start: seq<CloseRow>, middle: seq<CloseRow>, rows: seq<CloseRow>, contacts: seq<Cid>, c: Cid,
                        answers: Cid -> RemoveOutcome)
    requires GrewByRemovals(start, middle, contacts, answers) && GrewByOne(middle, rows, c, answers(c)) && c in contacts
    ensures GrewByRemovals(start, rows, contacts, answers)
  {
    forall k | |start| <= k < |rows| ensures Removal(rows[k], contacts, answers) {
      if k < |middle| { assert rows[k] == middle[k]; }
    }
  }

  lemma ReturnsStay(before: set<nat>, after: set<nat>, middle: seq<CloseRow>, rows: seq<CloseRow>, contacts: seq<Cid>,
                    answers: Cid -> RemoveOutcome)
    requires ReturnedBy(before, after, middle, contacts, answers) && middle <= rows
    ensures ReturnedBy(before, after, rows, contacts, answers)
  {
    forall n | n in after - before ensures Delivered(n, rows, contacts, answers) {
      var c :| c in contacts && NoticeIntent(n, c) in middle && answers(c).RemoveReturned? && answers(c).notified;
      assert NoticeIntent(n, c) in rows;
    }
  }

  lemma ReturnsCompose(was: set<nat>, before: set<nat>, after: set<nat>, middle: seq<CloseRow>, rows: seq<CloseRow>,
                       contacts: seq<Cid>, c: Cid, answers: Cid -> RemoveOutcome)
    requires ReturnedBy(was, before, middle, contacts, answers) && middle <= rows && c in contacts
    requires ReturnedFor(before, after, rows, c, answers(c))
    ensures ReturnedBy(was, after, rows, contacts, answers)
  {
    ReturnsStay(was, before, middle, rows, contacts, answers);
    forall n | n in after - was ensures Delivered(n, rows, contacts, answers) {
      if n in before { assert n in before - was; } else { assert n in after - before; }
    }
  }

  lemma RecordedSoFar(start: seq<CloseRow>, middle: seq<CloseRow>, rows: seq<CloseRow>, contacts: seq<Cid>, n: nat,
                      answers: Cid -> RemoveOutcome)
    requires n < |contacts| && start <= middle <= rows
    requires RemovedSoFar(start, middle, contacts, n, answers) && Records(middle, rows, contacts[n], answers(contacts[n]))
    requires answers(contacts[n]).RemoveReturned?
    requires forall x :: Unresolved(rows, x) ==> x.recipient != contacts[n] && Unresolved(middle, x)
    ensures RemovedSoFar(start, rows, contacts, n + 1, answers)
  {
    assert contacts[..n + 1] == contacts[..n] + [contacts[n]];
    StillRecorded(start, start, middle, rows, contacts[..n], answers);
  }

  lemma StillRecorded(start: seq<CloseRow>, from: seq<CloseRow>, middle: seq<CloseRow>, rows: seq<CloseRow>,
                      contacts: seq<Cid>, answers: Cid -> RemoveOutcome)
    requires AllRecorded(from, middle, contacts, answers) && start <= from && middle <= rows
    ensures AllRecorded(start, rows, contacts, answers)
  {
    forall c | c in contacts ensures Records(start, rows, c, answers(c)) {
      var k :| |from| <= k < |middle| && middle[k].NoticeResult? && StepFor(middle[k], c, answers(c));
      assert rows[k] == middle[k];
    }
  }

  lemma CloseCompose(start: seq<CloseRow>, middle: seq<CloseRow>, rows: seq<CloseRow>, contacts: seq<Cid>, answers: Cid -> RemoveOutcome)
    requires GrewByClose(start, middle, contacts, answers)
    requires middle <= rows && forall k :: |middle| <= k < |rows| ==> IsUncertain(rows[k]) || Removal(rows[k], contacts, answers)
    ensures GrewByClose(start, rows, contacts, answers)
  {
    forall k | |start| <= k < |rows| ensures IsUncertain(rows[k]) || Removal(rows[k], contacts, answers) {
      if k < |middle| { assert rows[k] == middle[k]; }
    }
  }

  lemma BatchDone(before: seq<CloseRow>, rows: seq<CloseRow>, after: nat, batch: seq<CloseRow>, spared: set<Cid>)
    requires IsBatch(before, after, batch)
    requires forall x :: Unresolved(before, x) ==> x.pos > after || x.recipient in spared
    requires forall x :: Unresolved(rows, x) ==> Unresolved(before, x)
    requires forall i :: 0 <= i < |batch| && batch[i].recipient !in spared ==> !Unresolved(rows, batch[i])
    ensures forall x :: Unresolved(rows, x) ==> x.pos > batch[|batch| - 1].pos || x.recipient in spared
  {
    forall x | Unresolved(rows, x) && x.recipient !in spared ensures x.pos > batch[|batch| - 1].pos {
      if x.pos <= batch[|batch| - 1].pos {
        assert Waits(before, after, x);
      }
    }
  }
}
