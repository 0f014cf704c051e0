/**
 The relay journal of one room: every archived message or file owes each of its recipients one relay
 intent, every intent gets at most one result, and `relay_intent_work` is the table of what is owed.
 A crash may stop any operation between two commits.
 */
module RelayLedger {
  import opened Prelude
  import opened Rooms
  import opened ReplyThreading
  import opened Threads
  import opened ThreadRouting
  import opened ThreadRuns

  const JOURNAL_WORK_BATCH_SIZE: nat := 64

  datatype RelayOutcome = Relayed | DeliveryFailed | Stopped

  predicate DistinctCids(cids: seq<Cid>) {
    forall i, j :: 0 <= i < j < |cids| ==> cids[i] != cids[j]
  }

  predicate Intended(rows: seq<Row>, key: Key, recipient: Cid) {
    exists x :: x in rows && x.Intent? && x.subject == key && x.recipient == recipient
  }

  /** What a full scan of the archive finds still owed. */
  ghost function Owed(rows: seq<Row>): set<(nat, Cid)> {
    set r, c | r in rows && r.IsItem() && c in r.recipients && !Intended(rows, r.KeyOf(), c) :: (r.pos, c)
  }

  predicate HasResult(rows: seq<Row>, intent: RecordId) {
    exists r :: r in rows && r.Result? && r.intent == intent
  }

  ghost predicate OneIntentEach(rows: seq<Row>) {
    forall x, y :: x in rows && y in rows && x.Intent? && y.Intent? && x.subject == y.subject && x.recipient == y.recipient
      ==> x == y
  }

  ghost predicate OneResultEach(rows: seq<Row>) {
    forall x, y :: x in rows && y in rows && x.Result? && y.Result? && x.intent == y.intent ==> x == y
  }

  ghost predicate JournalValid(rows: seq<Row>, next: nat, room: RoomId) {
    && Ordered(rows, next) && UniqueKeys(rows) && OneIntentEach(rows) && OneResultEach(rows)
    && forall r :: r in rows ==> r.room == room && r.pos > 0
  }

  predicate IsIntentFor(x: Row, item: Row, recipient: Cid) {
    x.Intent? && item.IsItem() && x.subject == item.KeyOf() && x.recipient == recipient
  }

  /** At a commit point every recipient of every archived item is in exactly one place. */
  lemma ExactlyOnePlace(rows: seq<Row>, next: nat, room: RoomId, item: Row, recipient: Cid)
    requires JournalValid(rows, next, room) && item in rows && item.IsItem() && recipient in item.recipients
    ensures (item.pos, recipient) in Owed(rows) <==> !Intended(rows, item.KeyOf(), recipient)
    ensures forall x, y :: x in rows && y in rows && IsIntentFor(x, item, recipient) && IsIntentFor(y, item, recipient) ==> x == y
  {
    if (item.pos, recipient) in Owed(rows) {
      var r :| r in rows && r.IsItem() && recipient in r.recipients && !Intended(rows, r.KeyOf(), recipient) && r.pos == item.pos;
      SamePosition(rows, next, r, item);
    }
  }

  lemma SamePosition(rows: seq<Row>, next: nat, x: Row, y: Row)
    requires Ordered(rows, next) && x in rows && y in rows && x.pos == y.pos
    ensures x == y
  {
    var i :| 0 <= i < |rows| && rows[i] == x;
    var j :| 0 <= j < |rows| && rows[j] == y;
    assert i == j;
  }

  lemma IntendedAfter(rows: seq<Row>, r: Row, key: Key, c: Cid)
    ensures Intended(rows + [r], key, c) == (Intended(rows, key, c) || (r.Intent? && r.subject == key && r.recipient == c))
  {
    assert forall x :: x in rows + [r] <==> x in rows || x == r;
  }

  lemma OwedAfterItem(rows: seq<Row>, item: Row)
    requires item.IsItem() && forall x :: x in rows ==> !MentionsKey(x, item.KeyOf())
    ensures Owed(rows + [item]) == Owed(rows) + (set c | c in item.recipients :: (item.pos, c))
  {
    var all := rows + [item];
    forall key, c ensures Intended(all, key, c) == Intended(rows, key, c) { IntendedAfter(rows, item, key, c); }
    forall c | c in item.recipients ensures (item.pos, c) in Owed(all) {
      assert item in all && !Intended(rows, item.KeyOf(), c);
    }
    forall p | p in Owed(rows) ensures p in Owed(all) {
      var r, c :| r in rows && r.IsItem() && c in r.recipients && !Intended(rows, r.KeyOf(), c) && p == (r.pos, c);
      assert r in all;
    }
  }

  /** What the index deletes when an intent is committed. */
  function Discharged(rows: seq<Row>, key: Key, recipient: Cid): set<(nat, Cid)> {
    set r | r in rows && r.IsItem() && r.KeyOf() == key :: (r.pos, recipient)
  }

  lemma OwedAfterIntent(rows: seq<Row>, next: nat, intent: Row)
    requires intent.Intent? && Ordered(rows, next)
    ensures Owed(rows + [intent]) == Owed(rows) - Discharged(rows, intent.subject, intent.recipient)
  {
    var all := rows + [intent];
    forall key, c ensures Intended(all, key, c) == (Intended(rows, key, c) || (key == intent.subject && c == intent.recipient)) {
      IntendedAfter(rows, intent, key, c);
    }
    forall p | p in Owed(all) ensures p in Owed(rows) && p !in Discharged(rows, intent.subject, intent.recipient) {
      var r, c :| r in all && r.IsItem() && c in r.recipients && !Intended(all, r.KeyOf(), c) && p == (r.pos, c);
      assert r in rows;
      if p in Discharged(rows, intent.subject, intent.recipient) {
        var q :| q in rows && q.IsItem() && q.KeyOf() == intent.subject && p == (q.pos, intent.recipient);
        SamePosition(rows, next, q, r);
        assert false;
      }
    }
    forall p | p in Owed(rows) && p !in Discharged(rows, intent.subject, intent.recipient) ensures p in Owed(all) {
      var r, c :| r in rows && r.IsItem() && c in r.recipients && !Intended(rows, r.KeyOf(), c) && p == (r.pos, c);
      assert r in all;
    }
  }

  lemma OwedAfterResult(rows: seq<Row>, result: Row)
    requires result.Result?
    ensures Owed(rows + [result]) == Owed(rows)
  {
    var all := rows + [result];
    forall key, c ensures Intended(all, key, c) == Intended(rows, key, c) { IntendedAfter(rows, result, key, c); }
    forall p | p in Owed(rows) ensures p in Owed(all) {
      var r, c :| r in rows && r.IsItem() && c in r.recipients && !Intended(rows, r.KeyOf(), c) && p == (r.pos, c);
      assert r in all;
    }
  }

  // ----- What the relay writes -----------------------------------------------------------------------

  /** What one send answers, as far as the room can know: a thrown call leaves acceptance unknown. */
  datatype SendOutcome = SendThrew | SendAnswered(queued: bool, wire: Option<Wire>)

  /** What the sends of one intent would answer: the body (for a file, its notice), then the file's bytes. */
  datatype Answers = Answers(body: SendOutcome, bytes: SendOutcome)

  function KeptWire(wire: Option<Wire>): Option<Wire> {
    if wire == Some("") then None else wire
  }

  /** A throw of any send made leaves the attempt ambiguous; a refused file notice is final. */
  function Observe(file: bool, a: Answers): Outcome {
    if a.body.SendThrew? then Threw
    else if !file then Observed(a.body.queued, KeptWire(a.body.wire), None)
    else if !a.body.queued then Observed(false, None, None)
    else if a.bytes.SendThrew? then Threw
    else Observed(a.bytes.queued, KeptWire(a.bytes.wire), KeptWire(a.body.wire))
  }

  /** What becomes of one intent when its turn comes. */
  datatype Fate =
    | PassedOver
    | Skipped(status: Status)
    | Ambiguous(source: Row)
    | Answered(source: Row, status: Status, wire: Option<Wire>, metadataWire: Option<Wire>)

  function FateOf(w: World, intent: Row, answers: RecordId -> Answers): Fate
    requires intent.Intent?
  {
    match DecideRelay(w.room, w.rows, intent)
    case Skip(status) => Skipped(status)
    case Send(source, _, _) =>
      (match Observe(source.File?, answers(intent.Name()))
       case Threw => Ambiguous(source)
       case Observed(queued, wire, metadataWire) =>
         Answered(source, if queued then Queued else SendFailed, wire, metadataWire))
    case _ => PassedOver
  }

  type Fates = (World, Row) -> Fate

  function FatesBy(answers: RecordId -> Answers): Fates {
    (w: World, r: Row) => if r.Intent? then FateOf(w, r, answers) else PassedOver
  }

  ghost predicate Follow(fates: Fates, answers: RecordId -> Answers) {
    forall w: World, r: Row {:trigger FateOf(w, r, answers)} :: r.Intent? ==> fates(w, r) == FateOf(w, r, answers)
  }

  lemma FatesFollow(answers: RecordId -> Answers)
    ensures Follow(FatesBy(answers), answers)
  {
  }

  /** A relay pass so far: the room's world and the intents whose own send threw. */
  datatype Pass = Pass(world: World, ambiguous: set<RecordId>)

  function Logged(w: World, source: Row, intent: Row): World
    requires intent.Intent?
  {
    w.(sent := w.sent + [Delivery(source, intent.recipient, w.room)])
  }

  function Recorded(w: World, intent: Row, status: Status, wire: Option<Wire>, metadataWire: Option<Wire>): World
    requires intent.Intent?
  {
    w.(rows := w.rows + [ResultRow(w, intent, status, wire, metadataWire)], next := w.next + 1)
  }

  function After(p: Pass, intent: Row, fate: Fate): Pass
    requires intent.Intent?
  {
    match fate
    case PassedOver => p
    case Skipped(status) => p.(world := Recorded(p.world, intent, status, None, None))
    case Ambiguous(source) => Pass(Logged(p.world, source, intent), p.ambiguous + {intent.Name()})
    case Answered(source, status, wire, metadataWire) =>
      p.(world := Recorded(Logged(p.world, source, intent), intent, status, wire, metadataWire))
  }

  /** The first `n` intents in order, each decided against the world the earlier ones left. */
  function Upto(start: World, intents: seq<Row>, fates: Fates, n: nat): Pass
    requires n <= |intents| && AllIntents(intents)
  {
    if n == 0 then Pass(start, {}) else
      var p := Upto(start, intents, fates, n - 1);
      After(p, intents[n - 1], fates(p.world, intents[n - 1]))
  }

  type Plan = nat -> Pass

  function PlanOf(start: World, intents: seq<Row>, fates: Fates): Plan {
    (n: nat) => if n <= |intents| && AllIntents(intents) then Upto(start, intents, fates, n) else Pass(start, {})
  }

  predicate AllIntents(intents: seq<Row>) {
    forall k :: 0 <= k < |intents| ==> intents[k].Intent?
  }

  /** The pass over everything that is pending in this world, attempt by attempt; the last entry is the outcome. */
  function RelayPlan(start: World, fates: Fates): Plan {
    PlanOf(start, PendingAfter(start.rows, 0), fates)
  }

  function RelayAll(start: World, fates: Fates): Pass {
    RelayPlan(start, fates)(|PendingAfter(start.rows, 0)|)
  }

  /** Unless it stopped short, the pass from `start` ended here, and an error surfaced exactly if some send threw. */
  ghost predicate Passed(start: World, answers: RecordId -> Answers, finish: World, outcome: RelayOutcome) {
    var pass := RelayAll(start, FatesBy(answers));
    !outcome.Stopped? ==> finish == pass.world && (outcome.DeliveryFailed? <==> pass.ambiguous != {})
  }

  predicate Awaits(rows: seq<Row>, after: nat, r: Row) {
    r.Intent? && r.pos > after && !HasResult(rows, r.Name())
  }

  /** The unresolved intents after the cursor, in sequence order. */
  function PendingAfter(rows: seq<Row>, after: nat): (r: seq<Row>)
    ensures forall x :: x in r <==> x in rows && Awaits(rows, after, x)
    ensures forall i :: 0 <= i < |r| ==> r[i].Intent?
  {
    var r := Filter(rows, (r: Row) => Awaits(rows, after, r));
    assert forall i :: 0 <= i < |r| ==> r[i] in r;
    r
  }

  /** Only intents were added, each for an item archived before and one of its recipients. */
  ghost predicate GrewByIntents(before: seq<Row>, rows: seq<Row>) {
    before <= rows && forall k :: |before| <= k < |rows| ==> Names(before, rows[k])
  }

  lemma IntentsCompose(start: seq<Row>, middle: seq<Row>, rows: seq<Row>)
    requires GrewByIntents(start, middle) && GrewByIntents(middle, rows)
    ensures GrewByIntents(start, rows)
  {
    forall r | r in middle && r.IsItem() ensures r in start {
      var k :| 0 <= k < |middle| && middle[k] == r;
    }
    forall k | |start| <= k < |rows| ensures Names(start, rows[k]) {
      if k < |middle| { assert rows[k] == middle[k]; } else { assert Names(middle, rows[k]); }
    }
  }

  /** The intent's source is archived and lists its recipient. */
  predicate Names(rows: seq<Row>, intent: Row) {
    intent.Intent? && exists r :: r in rows && r.IsItem() && r.KeyOf() == intent.subject && intent.recipient in r.recipients
  }

  /** Only an intent that names no archived source and recipient is passed over without a result. */
  lemma NamedIntentIsDecided(room: Room, rows: seq<Row>, next: nat, intent: Row)
    requires UniqueKeys(rows) && Names(rows, intent)
    ensures DecideRelay(room, rows, intent).Skip? || DecideRelay(room, rows, intent).Send?
  {
    var r :| r in rows && r.IsItem() && r.KeyOf() == intent.subject && intent.recipient in r.recipients;
    assert FirstItem(rows, intent.subject) == Some(r);
  }

  lemma OwedForItem(rows: seq<Row>, next: nat, room: RoomId, item: Row, c: Cid)
    requires JournalValid(rows, next, room) && item in rows && item.IsItem() && (item.pos, c) in Owed(rows)
    ensures c in item.recipients && !Intended(rows, item.KeyOf(), c)
    ensures Discharged(rows, item.KeyOf(), c) == {(item.pos, c)}
  {
    var r :| r in rows && r.IsItem() && c in r.recipients && !Intended(rows, r.KeyOf(), c) && r.pos == item.pos;
    SamePosition(rows, next, r, item);
  }

  lemma OwedHasItem(rows: seq<Row>, p: (nat, Cid))
    requires p in Owed(rows)
    ensures exists r :: r in rows && r.IsItem() && r.pos == p.0
  {
    var r, c :| r in rows && r.IsItem() && c in r.recipients && !Intended(rows, r.KeyOf(), c) && p == (r.pos, c);
  }

  function OwedAt(work: set<(nat, Cid)>, pos: nat): set<(nat, Cid)> {
    set p | p in work && p.0 == pos
  }

  ghost function WorkWithout(work: set<(nat, Cid)>, pos: nat, gone: seq<Cid>): set<(nat, Cid)> {
    set p | p in work && !(p.0 == pos && p.1 in gone)
  }

  lemma OneMoreGone(work: set<(nat, Cid)>, pos: nat, batch: seq<Cid>, k: nat)
    requires k < |batch| && DistinctCids(batch) && forall c :: c in batch ==> (pos, c) in work
    ensures (pos, batch[k]) in WorkWithout(work, pos, batch[..k])
    ensures WorkWithout(work, pos, batch[..k + 1]) == WorkWithout(work, pos, batch[..k]) - {(pos, batch[k])}
  {
    assert batch[..k + 1] == batch[..k] + [batch[k]] && batch[k] !in batch[..k];
  }

  lemma NewWorkGone(work: set<(nat, Cid)>, pos: nat, batch: seq<Cid>)
    requires forall c :: (pos, c) !in work
    ensures WorkWithout(work + (set c | c in batch :: (pos, c)), pos, batch) == work
  {
    forall p | p in work ensures !(p.0 == pos && p.1 in batch) { assert p == (p.0, p.1); }
  }

  lemma FewerGone(work: set<(nat, Cid)>, pos: nat, batch: seq<Cid>, k: nat)
    requires k <= |batch|
    ensures WorkWithout(work, pos, batch) <= WorkWithout(work, pos, batch[..k]) <= work
    ensures k == 0 ==> WorkWithout(work, pos, batch[..k]) == work
    ensures k == |batch| ==> WorkWithout(work, pos, batch[..k]) == WorkWithout(work, pos, batch)
  {
    assert batch[..|batch|] == batch;
  }

  predicate IsDue(work: set<(nat, Cid)>, r: Row) {
    r.IsItem() && exists p :: p in work && p.0 == r.pos
  }

  function ItemsDue(rows: seq<Row>, work: set<(nat, Cid)>): (r: seq<Row>)
    ensures forall x :: x in r <==> x in rows && IsDue(work, x)
  {
    Filter(rows, (r: Row) => IsDue(work, r))
  }

  /** The first `limit` items with work left, in sequence order. */
  ghost predicate IsWorkBatch(rows: seq<Row>, work: set<(nat, Cid)>, limit: nat, batch: seq<Row>) {
    && |batch| <= limit && (forall i, j :: 0 <= i < j < |batch| ==> batch[i].pos < batch[j].pos)
    && (forall r :: r in batch ==> r in rows && IsDue(work, r))
    && (forall r :: r in rows && IsDue(work, r) && r !in batch ==> |batch| == limit && forall q :: q in batch ==> q.pos < r.pos)
  }

  lemma DueIffWork(rows: seq<Row>, work: set<(nat, Cid)>)
    requires work == Owed(rows)
    ensures ItemsDue(rows, work) == [] <==> work == {}
  {
    if work != {} {
      var p :| p in work;
      OwedHasItem(rows, p);
      var r :| r in rows && r.IsItem() && r.pos == p.0;
      assert r in ItemsDue(rows, work);
    } else {
      forall r ensures r !in ItemsDue(rows, work) { assert !IsDue(work, r); }
      NonemptyHasSome(ItemsDue(rows, work));
    }
  }

  lemma NonemptyHasSome(s: seq<Row>)
    ensures s != [] ==> exists r :: r in s
  {
    if s != [] { assert s[0] in s; }
  }

  function AtMost(s: seq<Row>, n: nat): seq<Row> {
    if |s| <= n then s else s[..n]
  }

  lemma FirstAreBatch(rows: seq<Row>, next: nat, work: set<(nat, Cid)>, limit: nat)
    requires Ordered(rows, next) && limit > 0
    ensures IsWorkBatch(rows, work, limit, AtMost(ItemsDue(rows, work), limit))
  {
    var due := ItemsDue(rows, work);
    assert Ordered(due, next) by { FilterOrdered(rows, next, (r: Row) => IsDue(work, r)); }
    FirstInOrder(due, next, limit);
  }

  lemma FirstInOrder(due: seq<Row>, next: nat, limit: nat)
    requires Ordered(due, next)
    ensures var first := AtMost(due, limit);
      && |first| <= limit && (forall i, j :: 0 <= i < j < |first| ==> first[i].pos < first[j].pos)
      && (forall r :: r in first ==> r in due)
      && (forall r :: r in due && r !in first ==> |first| == limit && forall q :: q in first ==> q.pos < r.pos)
  {
    var first := AtMost(due, limit);
    forall r | r in due && r !in first ensures |first| == limit && forall q :: q in first ==> q.pos < r.pos {
      var k :| 0 <= k < |due| && due[k] == r;
      FirstOrLater(due, next, limit, k);
    }
  }

  lemma FirstOrLater(due: seq<Row>, next: nat, limit: nat, k: nat)
    requires Ordered(due, next) && k < |due|
    ensures var first := AtMost(due, limit);
      if k < limit then due[k] in first else |first| == limit && forall q :: q in first ==> q.pos < due[k].pos
  {
    if k < limit {
      assert due[k] == AtMost(due, limit)[k];
    }
  }

  /** The order of the database index on recipients. */
  predicate Precedes(a: Cid, b: Cid) {
    b != "" && (a == "" || a[0] < b[0] || (a[0] == b[0] && Precedes(a[1..], b[1..])))
  }

  lemma {:induction false} PrecedesIsTotal(a: Cid, b: Cid)
    ensures a == b || Precedes(a, b) || Precedes(b, a)
  {
    if a != "" && b != "" && a[0] == b[0] {
      PrecedesIsTotal(a[1..], b[1..]);
      assert a[1..] == b[1..] ==> a == [a[0]] + a[1..] == [b[0]] + b[1..] == b;
    }
  }

  lemma {:induction false} PrecedesIsTransitive(a: Cid, b: Cid, c: Cid)
    requires Precedes(a, b) && Precedes(b, c)
    ensures Precedes(a, c)
  {
    if a != "" && a[0] == b[0] && b[0] == c[0] { PrecedesIsTransitive(a[1..], b[1..], c[1..]); }
  }

  method Least(cids: set<Cid>) returns (least: Cid)
    requires cids != {}
    ensures least in cids && forall c :: c in cids && c != least ==> Precedes(least, c)
  {
    least :| least in cids;
    var left := cids - {least};
    while left != {}
      invariant left <= cids && least in cids
      invariant forall c :: c in cids && c !in left && c != least ==> Precedes(least, c)
    {
      var c :| c in left;
      PrecedesIsTotal(c, least);
      if Precedes(c, least) {
        forall d | d in cids && d !in left && d != least ensures Precedes(c, d) { PrecedesIsTransitive(c, least, d); }
        least := c;
      }
      left := left - {c};
    }
  }

  class Journal {
    const room: RoomId
    var rows: seq<Row>
    var next: nat
    var work: set<(nat, Cid)>
    /** Every send the relay made. */
    ghost var sent: seq<Delivery>

    ghost predicate Valid()
      reads this
    {
      JournalValid(rows, next, room) && next > 0 && work == Owed(rows)
    }

    constructor (id: RoomId)
      ensures Valid() && room == id && rows == [] && work == {}
    {
      room, rows, next, work, sent := id, [], 1, {}, [];
      new;
      assert Owed([]) == {};
    }

    /** Any other kind of record only takes a sequence number. */
    method AppendOther()
      requires Valid()
      modifies `rows, `next, `work
      ensures Valid() && rows == old(rows) && work == old(work) && next == old(next) + 1
    {
      next := next + 1;
    }

    /** A message or file is committed together with one work row per recipient; repeated recipients are refused. */
    method AppendItem(draft: Row) returns (ok: bool)
      requires Valid() && draft.IsItem() && draft.room == room
      requires forall x :: x in rows ==> !MentionsKey(x, draft.KeyOf())
      modifies `rows, `next, `work
      ensures Valid() && ok == DistinctCids(draft.recipients)
      ensures if ok then
          && rows == old(rows) + [draft.At(old(next))] && next == old(next) + 1
          && work == old(work) + (set c | c in draft.recipients :: (old(next), c))
        else rows == old(rows) && next == old(next) && work == old(work)
    {
      if !DistinctCids(draft.recipients) { return false; }
      var item := draft.At(next);
      var queued := work;
      for k := 0 to |item.recipients|
        invariant queued == work + (set c | c in item.recipients[..k] :: (next, c))
      {
        assert item.recipients[..k + 1] == item.recipients[..k] + [item.recipients[k]];
        queued := queued + {(next, item.recipients[k])};
      }
      assert item.recipients[..|item.recipients|] == item.recipients;
      OwedAfterItem(rows, item);
      ItemKeepsJournal(rows, next, room, item);
      rows, next, work := rows + [item], next + 1, queued;
      return true;
    }

    /** An intent is committed together with the removal of the work it discharges. */
    method AppendIntent(key: Key, recipient: Cid)
      requires Valid() && !Intended(rows, key, recipient)
      modifies `rows, `next, `work
      ensures Valid() && next == old(next) + 1
      ensures rows == old(rows) + [Intent(room, old(next), key, recipient)]
      ensures work == old(work) - Discharged(old(rows), key, recipient)
    {
      var intent := Intent(room, next, key, recipient);
      OwedAfterIntent(rows, next, intent);
      IntentKeepsJournal(rows, next, room, intent);
      rows, next, work := rows + [intent], next + 1, work - Discharged(rows, key, recipient);
    }

    method AppendResult(intent: Row, status: Status, wire: Option<Wire>, metadataWire: Option<Wire>)
      requires Valid() && intent in rows && intent.Intent? && !HasResult(rows, intent.Name())
      modifies `rows, `next, `work
      ensures Valid() && next == old(next) + 1 && work == old(work)
      ensures rows == old(rows) + [Result(room, old(next), intent.Name(), intent.subject, intent.recipient, status, wire, metadataWire)]
    {
      var result := Result(room, next, intent.Name(), intent.subject, intent.recipient, status, wire, metadataWire);
      OwedAfterResult(rows, result);
      ResultKeepsJournal(rows, next, room, result);
      rows, next := rows + [result], next + 1;
    }

    /** The first `limit` items with work left, in sequence order. */
    method RecordsNeedingIntents(limit: nat) returns (records: seq<Row>)
      requires Valid() && limit > 0
      ensures IsWorkBatch(rows, work, limit, records)
      ensures records == [] <==> work == {}
    {
      records := AtMost(ItemsDue(rows, work), limit);
      FirstAreBatch(rows, next, work, limit);
      DueIffWork(rows, work);
    }

    /** The first `limit` of the recipients still owed an intent for the item at `pos`, in index order. */
    method RecipientsNeedingIntent(pos: nat, limit: nat) returns (recipients: seq<Cid>)
      ensures DistinctCids(recipients) && |recipients| <= limit
      ensures forall i, j :: 0 <= i < j < |recipients| ==> Precedes(recipients[i], recipients[j])
      ensures forall c :: c in recipients ==> (pos, c) in work
      ensures forall c, d :: (pos, d) in work && d !in recipients && c in recipients ==> Precedes(c, d)
      ensures |recipients| < limit ==> forall c :: (pos, c) in work ==> c in recipients
    {
      recipients := [];
      var owed := set p | p in work && p.0 == pos :: p.1;
      assert forall c :: (pos, c) in work ==> c in owed by {
        forall c | (pos, c) in work ensures c in owed { assert (pos, c).0 == pos; }
      }
      while |recipients| < limit && owed != {}
        invariant DistinctCids(recipients) && |recipients| <= limit
        invariant forall i, j :: 0 <= i < j < |recipients| ==> Precedes(recipients[i], recipients[j])
        invariant forall c, d :: c in recipients && d in owed ==> Precedes(c, d)
        invariant forall c :: c in recipients ==> c !in owed && (pos, c) in work
        invariant forall c :: c in owed ==> (pos, c) in work
        invariant forall c :: (pos, c) in work ==> c in owed || c in recipients
        decreases owed
      {
        var c := Least(owed);
        recipients, owed := recipients + [c], owed - {c};
      }
    }

    method DischargeOne(item: Row, c: Cid)
      requires Valid() && item in rows && item.IsItem() && (item.pos, c) in work
      modifies `rows, `next, `work
      ensures Valid() && next == old(next) + 1
      ensures rows == old(rows) + [Intent(room, old(next), item.KeyOf(), c)]
      ensures work == old(work) - {(item.pos, c)} && GrewByIntents(old(rows), rows)
    {
      OwedForItem(rows, next, room, item, c);
      AppendIntent(item.KeyOf(), c);
    }

    /** One append per recipient of the batch; a crash may end it before any of them. */
    method DischargeBatch(item: Row, batch: seq<Cid>, steady: bool) returns (ok: bool)
      requires Valid() && item in rows && item.IsItem() && DistinctCids(batch)
      requires forall c :: c in batch ==> (item.pos, c) in work
      modifies `rows, `next, `work
      ensures Valid() && GrewByIntents(old(rows), rows)
      ensures WorkWithout(old(work), item.pos, batch) <= work <= old(work)
      ensures steady ==> ok
      ensures ok ==> work == WorkWithout(old(work), item.pos, batch)
    {
      ghost var before, start := work, rows;
      FewerGone(before, item.pos, batch, 0);
      for k := 0 to |batch|
        invariant Valid() && GrewByIntents(start, rows) && item in rows
        invariant work == WorkWithout(before, item.pos, batch[..k])
        invariant WorkWithout(before, item.pos, batch) <= work <= before
      {
        var stop := Interrupted(steady);
        if stop { return false; }
        OneMoreGone(before, item.pos, batch, k);
        ghost var middle := rows;
        DischargeOne(item, batch[k]);
        IntentsCompose(start, middle, rows);
        FewerGone(before, item.pos, batch, k + 1);
      }
      return true;
    }

    /** `completeMessageIntents` and `completeFileIntents`: one batch; `ok` is false after a crash. */
    method CompleteItem(item: Row, steady: bool) returns (ok: bool)
      requires Valid() && item in rows && item.IsItem()
      modifies `rows, `next, `work
      ensures Valid() && GrewByIntents(old(rows), rows) && work <= old(work)
      ensures steady ==> ok
      ensures forall p :: p in old(work) && p.0 != item.pos ==> p in work
      ensures ok && (exists c :: (item.pos, c) in old(work)) ==> work < old(work)
      ensures ok && |OwedAt(old(work), item.pos)| < JOURNAL_WORK_BATCH_SIZE ==> forall c :: (item.pos, c) !in work
    {
      var batch := RecipientsNeedingIntent(item.pos, JOURNAL_WORK_BATCH_SIZE);
      BatchFits(batch, item.pos, OwedAt(work, item.pos));
      ok := DischargeBatch(item, batch, steady);
      assert batch != [] ==> (item.pos, batch[0]) in old(work) && (item.pos, batch[0]) !in WorkWithout(old(work), item.pos, batch);
    }

    /** One round: a batch of intents for each of the listed items, discharging something. */
    method CompleteRound(records: seq<Row>, steady: bool) returns (ok: bool)
      requires Valid() && IsWorkBatch(rows, work, JOURNAL_WORK_BATCH_SIZE, records) && records != []
      modifies `rows, `next, `work
      ensures Valid() && GrewByIntents(old(rows), rows)
      ensures steady ==> ok
      ensures ok ==> work < old(work)
    {
      ghost var before, start := work, rows;
      assert records[0] in records;
      for k := 0 to |records|
        invariant Valid() && GrewByIntents(start, rows) && work <= before
        invariant forall r :: r in records ==> r in rows && r.IsItem()
        invariant k == 0 ==> work == before
        invariant k > 0 ==> work < before
      {
        ghost var middle := rows;
        assert records[k] in records;
        ok := CompleteItem(records[k], steady);
        IntentsCompose(start, middle, rows);
        if !ok { return; }
      }
      return true;
    }

    /** `completeSnapshotIntents`: round after round until nothing is owed. */
    method CompleteSnapshot(steady: bool) returns (ok: bool)
      requires Valid()
      modifies `rows, `next, `work
      ensures Valid() && GrewByIntents(old(rows), rows)
      ensures steady ==> ok
      ensures ok ==> work == {}
    {
      while true
        invariant Valid() && GrewByIntents(old(rows), rows)
        decreases |work|
      {
        var records := RecordsNeedingIntents(JOURNAL_WORK_BATCH_SIZE);
        if |records| == 0 { return true; }
        ghost var before, middle := work, rows;
        ok := CompleteRound(records, steady);
        IntentsCompose(old(rows), middle, rows);
        if !ok { return; }
        SmallerWork(work, before);
      }
    }

    /** A message the room posts itself: appended, then one intent per recipient before anything else runs. */
    method PostRoomMessage(draft: Row, steady: bool) returns (ok: bool)
      requires Valid() && draft.IsItem() && draft.room == room
      requires forall x :: x in rows ==> !MentionsKey(x, draft.KeyOf())
      modifies `rows, `next, `work
      ensures Valid() && (rows == old(rows) || GrewByIntents(old(rows) + [draft.At(old(next))], rows))
      ensures steady && DistinctCids(draft.recipients) ==> ok
      ensures ok ==> work == old(work) && draft.At(old(next)) in rows
    {
      var item := draft.At(next);
      ok := AppendItem(draft);
      if !ok { return; }
      assert item in rows;
      NothingOwedYet(old(rows), old(next), room);
      assert forall c :: c in draft.recipients ==> (item.pos, c) in work;
      ok := DischargeBatch(item, draft.recipients, steady);
      NewWorkGone(old(work), item.pos, draft.recipients);
    }

    /** The room `live` with this archive and everything sent so far. */
    ghost function Now(live: Room): World
      reads this
    {
      World(live, rows, next, sent)
    }

    /** The sends of one pending intent, as far as they are made; a throw of either leaves it ambiguous. */
    method Try(live: Room, intent: Row, answers: RecordId -> Answers, ghost fates: Fates) returns (fate: Fate)
      requires intent.Intent? && Follow(fates, answers)
      ensures fate == fates(Now(live), intent)
    {
      assert fates(Now(live), intent) == FateOf(Now(live), intent, answers);
      var decision := DecideRelay(live, rows, intent);
      if decision.Dangling? || decision.NotAddressed? { return PassedOver; }
      if decision.Skip? { return Skipped(decision.status); }
      var body, source := answers(intent.Name()).body, decision.source;
      if body.SendThrew? { return Ambiguous(source); }
      if !source.File? {
        return Answered(source, if body.queued then Queued else SendFailed, KeptWire(body.wire), None);
      }
      if !body.queued { return Answered(source, SendFailed, None, None); }
      var bytes := answers(intent.Name()).bytes;
      if bytes.SendThrew? { return Ambiguous(source); }
      return Answered(source, if bytes.queued then Queued else SendFailed, KeptWire(bytes.wire), KeptWire(body.wire));
    }

    /** Only an answer is recorded. `stopped` means a storage failure or crash before the result was committed. */
    method Conclude(live: Room, intent: Row, fate: Fate, steady: bool, ghost ambiguous: set<RecordId>) returns (stopped: bool)
      requires Valid() && intent in rows && intent.Intent? && !HasResult(rows, intent.Name()) && live.id == room
      modifies `rows, `next, `work, `sent
      ensures Valid() && work == old(work) && (steady ==> !stopped)
      ensures stopped ==> MaybeSent(old(Now(live)), Now(live), intent, fate)
      ensures !stopped ==> Now(live) == After(Pass(old(Now(live)), ambiguous), intent, fate).world
      ensures !stopped ==> AtMostItsResult(old(rows), rows, intent)
    {
      if fate.PassedOver? { return false; }
      if !fate.Skipped? { sent := sent + [Delivery(fate.source, intent.recipient, live)]; }
      if fate.Ambiguous? { return false; }
      stopped := Interrupted(steady);
      if stopped { return; }
      if fate.Skipped? {
        AppendResult(intent, fate.status, None, None);
      } else {
        AppendResult(intent, fate.status, fate.wire, fate.metadataWire);
      }
    }

    /** The next page of intents that have no result yet, in sequence order. */
    method PendingIntents(after: nat, limit: nat) returns (pending: seq<Row>)
      requires limit > 0
      ensures pending <= PendingAfter(rows, after)
      ensures |pending| == limit || (pending == PendingAfter(rows, after) && |pending| < limit)
    {
      var all := PendingAfter(rows, after);
      pending := if |all| < limit then all else all[..limit];
    }

    /** The next intent of the pass: the cursor moves to it before it is tried. */
    method RelayNext(live: Room, intent: Row, answers: RecordId -> Answers, failedBefore: bool, steady: bool,
                     ghost all: seq<Row>, ghost fates: Fates, ghost plan: Plan, ghost n: nat)
      returns (after: nat, failed: bool, stopped: bool)
      requires Valid() && live.id == room && Follow(fates, answers)
      requires n < |all| && AllIntents(all) && IsTurn(plan, all, fates, n) && intent == all[n] && AtIntent(plan, Now(live), failedBefore, n)
      modifies this
      ensures Valid() && work == old(work) && (steady ==> !stopped)
      ensures stopped ==> Partly(plan, all, fates, Now(live))
      ensures !stopped ==> AtIntent(plan, Now(live), failed, n + 1) && after == CursorAt(all, n + 1)
    {
      after := intent.pos;
      var fate := Try(live, intent, answers, fates);
      stopped := Conclude(live, intent, fate, steady, plan(n).ambiguous);
      failed := failedBefore || fate.Ambiguous?;
      if stopped { assert PartlyAt(plan, all, fates, Now(live), n); }
    }

    /** One page of the relay loop. */
    method RelayPage(live: Room, pending: seq<Row>, answers: RecordId -> Answers, from: nat, failedBefore: bool, steady: bool,
                     ghost all: seq<Row>, ghost fates: Fates, ghost plan: Plan, ghost done: nat)
      returns (after: nat, failed: bool, stopped: bool, ghost n: nat)
      requires Valid() && live.id == room && Follow(fates, answers) && AllIntents(all) && AllTurns(plan, all, fates)
      requires IsPage(all, done, pending) && from == CursorAt(all, done) && AtIntent(plan, Now(live), failedBefore, done)
      modifies this
      ensures Valid() && work == old(work) && (steady ==> !stopped)
      ensures stopped ==> Partly(plan, all, fates, Now(live))
      ensures !stopped ==> n == done + |pending| && after == CursorAt(all, n) && AtIntent(plan, Now(live), failed, n)
    {
      after, failed, stopped, n := from, failedBefore, false, done;
      for k := 0 to |pending|
        invariant Valid() && work == old(work) && n == done + k && after == CursorAt(all, n)
        invariant AtIntent(plan, Now(live), failed, n)
      {
        after, failed, stopped := RelayNext(live, pending[k], answers, failed, steady, all, fates, plan, n);
        if stopped { break; }
        n := n + 1;
      }
    }

    /** The pages in turn, until nothing is left beyond the cursor. */
    method RelayPages(live: Room, answers: RecordId -> Answers, steady: bool, ghost all: seq<Row>, ghost fates: Fates, ghost plan: Plan)
      returns (outcome: RelayOutcome)
      requires Valid() && live.id == room && Follow(fates, answers) && Plans(plan, all, fates) && plan(0) == Pass(Now(live), {})
      modifies this
      ensures Valid() && work == old(work)
      ensures steady ==> !outcome.Stopped?
      ensures outcome.Stopped? ==> Partly(plan, all, fates, Now(live))
      ensures !outcome.Stopped? ==> AtIntent(plan, Now(live), outcome.DeliveryFailed?, |all|)
    {
      var after, failed := 0, false;
      ghost var n := 0;
      TurnsCome(plan, all, fates);
      while true
        invariant Valid() && work == old(work) && n <= |all| && after == CursorAt(all, n)
        invariant AtIntent(plan, Now(live), failed, n)
        decreases |all| - n
      {
        var pending := PendingIntents(after, JOURNAL_WORK_BATCH_SIZE);
        NextPage(plan, all, fates, n, pending);
        if |pending| == 0 { return if failed then DeliveryFailed else Relayed; }
        var stopped;
        after, failed, stopped, n := RelayPage(live, pending, answers, after, failed, steady, all, fates, plan, n);
        if stopped { return Stopped; }
      }
    }

    /**
     `relayPendingUnlocked`. A completed pass is exactly the attempts of all intents that were pending,
     in sequence order; an interrupted one stopped after some of them.
     */
    method RelayPending(live: Room, answers: RecordId -> Answers, steady: bool) returns (outcome: RelayOutcome)
      requires Valid() && live.id == room
      modifies this
      ensures Valid() && work == old(work) && GrewByResults(old(rows), rows)
      ensures steady ==> !outcome.Stopped?
      ensures outcome.Stopped? ==>
        Partly(RelayPlan(old(Now(live)), FatesBy(answers)), PendingAfter(old(rows), 0), FatesBy(answers), Now(live))
      ensures var pass := RelayAll(old(Now(live)), FatesBy(answers));
        !outcome.Stopped? ==> Now(live) == pass.world && (outcome.DeliveryFailed? <==> pass.ambiguous != {})
    {
      ghost var all, plan := PendingAfter(rows, 0), RelayPlan(Now(live), FatesBy(answers));
      FatesFollow(answers);
      PlanIsPlanned(Now(live), FatesBy(answers));
      outcome := RelayPages(live, answers, steady, all, FatesBy(answers), plan);
      if outcome.Stopped? {
        PartAddsResults(plan, all, FatesBy(answers), Now(live));
      } else {
        PassAddsResults(plan, all, FatesBy(answers), |all|);
      }
    }

    /** The same pass, and what it leaves when no send threw. */
    method RelayRoom(live: Room, answers: RecordId -> Answers, steady: bool) returns (outcome: RelayOutcome)
      requires Valid() && live.id == room
      modifies this
      ensures Valid() && work == old(work) && GrewByResults(old(rows), rows)
      ensures steady ==> !outcome.Stopped?
      ensures Passed(old(Now(live)), answers, Now(live), outcome)
      ensures outcome.Relayed? ==> AllResolved(rows)
    {
      ghost var start := Now(live);
      outcome := RelayPending(live, answers, steady);
      if outcome.Relayed? { NamedAreResolved(start, answers, rows); }
    }
  }

  /** Every intent that names an archived item and one of its recipients has its result. */
  ghost predicate AllResolved(rows: seq<Row>) {
    forall r :: r in rows && Names(rows, r) ==> HasResult(rows, r.Name())
  }

  lemma NamedAreResolved(start: World, answers: RecordId -> Answers, rows: seq<Row>)
    requires Startable(start) && RelayAll(start, FatesBy(answers)).world.rows == rows && GrewByResults(start.rows, rows)
    requires RelayAll(start, FatesBy(answers)).ambiguous == {}
    ensures AllResolved(rows)
  {
    forall r | r in rows && Names(rows, r) ensures HasResult(rows, r.Name()) {
      forall x | x in rows && (x.IsItem() || x.Intent?) ensures x in start.rows {
        var k :| 0 <= k < |rows| && rows[k] == x;
      }
      EveryNamedIntentIsSettled(start, answers, r);
    }
  }

  ghost predicate Startable(w: World) {
    JournalValid(w.rows, w.next, w.room.id) && w.next > 0
  }

  /** A plan that starts with these intents pending and attempts them one after the other. */
  ghost predicate Plans(plan: Plan, all: seq<Row>, fates: Fates) {
    && AllIntents(all) && Startable(plan(0).world) && plan(0).ambiguous == {} && all == PendingAfter(plan(0).world.rows, 0)
    && forall k :: 0 <= k < |all| ==> Planned(plan, all, fates, k)
  }

  ghost predicate Planned(plan: Plan, all: seq<Row>, fates: Fates, k: nat)
    requires k < |all| && AllIntents(all)
  {
    plan(k + 1) == After(plan(k), all[k], fates(plan(k).world, all[k]))
  }

  lemma PlanIsPlanned(start: World, fates: Fates)
    requires Startable(start)
    ensures Plans(RelayPlan(start, fates), PendingAfter(start.rows, 0), fates) && RelayPlan(start, fates)(0) == Pass(start, {})
  {
    var all := PendingAfter(start.rows, 0);
    var plan := RelayPlan(start, fates);
    forall k | 0 <= k < |all| ensures Planned(plan, all, fates, k) {
      assert plan(k) == Upto(start, all, fates, k) && plan(k + 1) == Upto(start, all, fates, k + 1);
    }
  }

  function CursorAt(all: seq<Row>, n: nat): nat
    requires n <= |all|
  {
    if n == 0 then 0 else all[n - 1].pos
  }

  ghost predicate AtIntent(plan: Plan, now: World, failed: bool, n: nat) {
    now == plan(n).world && failed == (plan(n).ambiguous != {})
  }

  /** The world after some of the intents, with at most one more send that no result records yet. */
  ghost predicate Partly(plan: Plan, all: seq<Row>, fates: Fates, now: World) {
    AllIntents(all) && exists n: nat :: n < |all| && PartlyAt(plan, all, fates, now, n)
  }

  ghost predicate PartlyAt(plan: Plan, all: seq<Row>, fates: Fates, now: World, n: nat)
    requires n < |all| && AllIntents(all)
  {
    MaybeSent(plan(n).world, now, all[n], fates(plan(n).world, all[n]))
  }

  ghost predicate MaybeSent(w: World, now: World, intent: Row, fate: Fate)
    requires intent.Intent?
  {
    now == w || ((fate.Ambiguous? || fate.Answered?) && now == Logged(w, fate.source, intent))
  }

  /** Beyond the cursor exactly the intents from the `n`th on still wait. */
  ghost predicate RestIs(rows: seq<Row>, after: nat, all: seq<Row>, n: nat) {
    n <= |all| && PendingAfter(rows, after) == all[n..]
  }

  /** What one attempt may do to the archive: nothing, or append the result of that intent. */
  ghost predicate AtMostItsResult(before: seq<Row>, rows: seq<Row>, intent: Row) {
    rows == before
    || (|rows| == |before| + 1 && before <= rows && rows[|before|].Result? && rows[|before|].intent == intent.Name())
  }

  lemma ResultOnlyForIts(rows: seq<Row>, r: Row, id: RecordId)
    requires r.Result?
    ensures HasResult(rows + [r], id) == (HasResult(rows, id) || r.intent == id)
  {
    assert forall x :: x in rows + [r] <==> x in rows || x == r;
  }

  /** What waits beyond the first waiting intent. */
  lemma PendingBeyondFirst(rows: seq<Row>, next: nat, after: nat)
    requires Ordered(rows, next) && PendingAfter(rows, after) != []
    ensures var first := PendingAfter(rows, after)[0]; PendingAfter(rows, first.pos) == PendingAfter(rows, after)[1..]
  {
    var p := (r: Row) => Awaits(rows, after, r);
    var k := FirstKept(rows, p);
    var q := (r: Row) => Awaits(rows, rows[k].pos, r);
    forall i | 0 <= i < |rows| ensures if i <= k then !q(rows[i]) else q(rows[i]) == p(rows[i]) {
      if i < k { assert rows[i].pos < rows[k].pos; }
      if i > k { assert rows[k].pos < rows[i].pos; }
    }
    FilterSplitsFirst(rows, p, q, k);
  }

  /** After one attempt the others wait as they did. */
  lemma OneFewerPending(rows: seq<Row>, rows': seq<Row>, next: nat, after: nat)
    requires Ordered(rows, next) && PendingAfter(rows, after) != []
    requires AtMostItsResult(rows, rows', PendingAfter(rows, after)[0])
    ensures PendingAfter(rows', PendingAfter(rows, after)[0].pos) == PendingAfter(rows, after)[1..]
  {
    var first := PendingAfter(rows, after)[0];
    PendingBeyondFirst(rows, next, after);
    if rows' != rows {
      var r := rows'[|rows|];
      assert rows' == rows + [r] && rows'[..|rows|] == rows;
      forall x | x in rows ensures Awaits(rows', first.pos, x) == Awaits(rows, first.pos, x) { ResultOnlyForIts(rows, r, x.Name()); }
      FilterAgree(rows, (x: Row) => Awaits(rows, first.pos, x), (x: Row) => Awaits(rows', first.pos, x));
    }
  }

  lemma FirstOfRest(rows: seq<Row>, after: nat, all: seq<Row>, n: nat)
    requires RestIs(rows, after, all, n) && n < |all|
    ensures PendingAfter(rows, after) != [] && PendingAfter(rows, after)[0] == all[n]
    ensures all[n] in rows && all[n].Intent? && !HasResult(rows, all[n].Name())
  {
    assert all[n..][0] == all[n] && all[n..][0] in all[n..];
  }

  lemma RestAfter(rows: seq<Row>, rows': seq<Row>, next: nat, after: nat, all: seq<Row>, n: nat)
    requires Ordered(rows, next) && RestIs(rows, after, all, n) && n < |all| && AtMostItsResult(rows, rows', all[n])
    ensures RestIs(rows', all[n].pos, all, n + 1)
  {
    FirstOfRest(rows, after, all, n);
    OneFewerPending(rows, rows', next, after);
    assert all[n..][1..] == all[n + 1..];
  }

  /** The stretch of `|page|` intents from the `n`th on. */
  ghost predicate IsPage(all: seq<Row>, n: nat, page: seq<Row>) {
    n + |page| <= |all| && forall i :: 0 <= i < |page| ==> page[i] == all[n + i]
  }

  /** A page read at the cursor is the next stretch of the intents that were pending at the start. */
  lemma NextPage(plan: Plan, all: seq<Row>, fates: Fates, n: nat, page: seq<Row>)
    requires Plans(plan, all, fates) && n <= |all| && page <= PendingAfter(plan(n).world.rows, CursorAt(all, n))
    ensures IsPage(all, n, page)
    ensures page == PendingAfter(plan(n).world.rows, CursorAt(all, n)) ==> n + |page| == |all|
  {
    MidwayThrough(plan, all, fates, n);
  }

  /** When the turn of an intent comes it is pending, and the plan goes on with its attempt. */
  ghost predicate IsTurn(plan: Plan, all: seq<Row>, fates: Fates, n: nat)
    requires n < |all|
  {
    && all[n] in plan(n).world.rows && all[n].Intent? && !HasResult(plan(n).world.rows, all[n].Name())
    && plan(n + 1) == After(plan(n), all[n], fates(plan(n).world, all[n]))
  }

  ghost predicate AllTurns(plan: Plan, all: seq<Row>, fates: Fates) {
    forall n :: 0 <= n < |all| ==> IsTurn(plan, all, fates, n)
  }

  lemma NextInLine(plan: Plan, all: seq<Row>, fates: Fates, n: nat)
    requires Plans(plan, all, fates) && n < |all|
    ensures IsTurn(plan, all, fates, n)
  {
    MidwayThrough(plan, all, fates, n);
    FirstOfRest(plan(n).world.rows, CursorAt(all, n), all, n);
    assert Planned(plan, all, fates, n);
  }

  lemma TurnsCome(plan: Plan, all: seq<Row>, fates: Fates)
    requires Plans(plan, all, fates)
    ensures AllTurns(plan, all, fates)
  {
    forall n | 0 <= n < |all| ensures IsTurn(plan, all, fates, n) { NextInLine(plan, all, fates, n); }
  }

  /** One attempt keeps the journal and appends at most the result of its own intent. */
  lemma AttemptShape(p: Pass, intent: Row, fate: Fate)
    requires intent.Intent? && !HasResult(p.world.rows, intent.Name()) && Startable(p.world)
    ensures var p' := After(p, intent, fate);
      && Startable(p'.world) && p'.world.room == p.world.room && AtMostItsResult(p.world.rows, p'.world.rows, intent)
  {
    var p' := After(p, intent, fate);
    if p'.world.rows != p.world.rows {
      var r := p'.world.rows[|p.world.rows|];
      assert p'.world.rows == p.world.rows + [r];
      ResultKeepsJournal(p.world.rows, p.world.next, p.world.room.id, r);
    }
  }

  /** In the middle of a pass the journal is valid and exactly the later intents still wait. */
  ghost predicate Midway(start: World, all: seq<Row>, w: World, n: nat)
    requires n <= |all|
  {
    w.room == start.room && start.rows <= w.rows && Startable(w) && RestIs(w.rows, CursorAt(all, n), all, n)
  }

  lemma {:induction false} MidwayThrough(plan: Plan, all: seq<Row>, fates: Fates, n: nat)
    requires Plans(plan, all, fates) && n <= |all|
    ensures Midway(plan(0).world, all, plan(n).world, n)
  {
    if n > 0 {
      MidwayThrough(plan, all, fates, n - 1);
      assert Planned(plan, all, fates, n - 1);
      OneStepOn(plan(0).world, plan(n - 1), all, n - 1, fates(plan(n - 1).world, all[n - 1]));
    }
  }

  lemma OneStepOn(start: World, p: Pass, all: seq<Row>, n: nat, fate: Fate)
    requires n < |all| && AllIntents(all) && Midway(start, all, p.world, n)
    ensures Midway(start, all, After(p, all[n], fate).world, n + 1)
  {
    FirstOfRest(p.world.rows, CursorAt(all, n), all, n);
    AttemptShape(p, all[n], fate);
    RestAfter(p.world.rows, After(p, all[n], fate).world.rows, p.world.next, CursorAt(all, n), all, n);
  }

  lemma AttemptLeavesOthers(p: Pass, intent: Row, fate: Fate, other: RecordId)
    requires intent.Intent? && intent.Name() != other
    ensures var p' := After(p, intent, fate);
      && p.world.rows <= p'.world.rows && (other in p'.ambiguous <==> other in p.ambiguous)
      && HasResult(p'.world.rows, other) == HasResult(p.world.rows, other)
  {
    var rows' := After(p, intent, fate).world.rows;
    if rows' != p.world.rows {
      var r := rows'[|p.world.rows|];
      assert rows' == p.world.rows + [r];
      ResultOnlyForIts(p.world.rows, r, other);
    }
  }

  lemma {:induction false} LaterAttemptsLeaveIt(plan: Plan, all: seq<Row>, fates: Fates, n: nat, m: nat)
    requires Plans(plan, all, fates) && DistinctNames(all) && n < m <= |all|
    ensures var name, p, q := all[n].Name(), plan(n + 1), plan(m);
      && p.world.rows <= q.world.rows && (HasResult(q.world.rows, name) == HasResult(p.world.rows, name))
      && (name in q.ambiguous <==> name in p.ambiguous)
    decreases m
  {
    if m > n + 1 {
      LaterAttemptsLeaveIt(plan, all, fates, n, m - 1);
      assert Planned(plan, all, fates, m - 1);
      AttemptLeavesOthers(plan(m - 1), all[m - 1], fates(plan(m - 1).world, all[m - 1]), all[n].Name());
    }
  }

  predicate DistinctNames(all: seq<Row>) {
    forall i, j :: 0 <= i < j < |all| ==> all[i].Name() != all[j].Name()
  }

  lemma PendingDistinct(rows: seq<Row>, next: nat)
    requires Ordered(rows, next)
    ensures DistinctNames(PendingAfter(rows, 0))
  {
    FilterOrdered(rows, next, (r: Row) => Awaits(rows, 0, r));
  }

  lemma {:induction false} AmbiguousWerePending(plan: Plan, all: seq<Row>, fates: Fates, n: nat)
    requires Plans(plan, all, fates) && n <= |all|
    ensures forall id :: id in plan(n).ambiguous ==> exists k :: 0 <= k < n && all[k].Name() == id
  {
    if n > 0 {
      AmbiguousWerePending(plan, all, fates, n - 1);
      assert Planned(plan, all, fates, n - 1);
      forall id | id in plan(n).ambiguous ensures exists k :: 0 <= k < n && all[k].Name() == id {
        assert id in plan(n - 1).ambiguous || id == all[n - 1].Name();
      }
    }
  }

  ghost predicate GrewByResults(before: seq<Row>, rows: seq<Row>) {
    before <= rows && forall k :: |before| <= k < |rows| ==> rows[k].Result?
  }

  lemma {:induction false} PassAddsResults(plan: Plan, all: seq<Row>, fates: Fates, n: nat)
    requires Plans(plan, all, fates) && n <= |all|
    ensures GrewByResults(plan(0).world.rows, plan(n).world.rows)
  {
    if n > 0 {
      PassAddsResults(plan, all, fates, n - 1);
      assert Planned(plan, all, fates, n - 1);
      AttemptAddsResults(plan(n - 1), all[n - 1], fates(plan(n - 1).world, all[n - 1]));
      MoreResults(plan(0).world.rows, plan(n - 1).world.rows, plan(n).world.rows);
    }
  }

  lemma AttemptAddsResults(p: Pass, intent: Row, fate: Fate)
    requires intent.Intent?
    ensures GrewByResults(p.world.rows, After(p, intent, fate).world.rows)
  {
  }

  lemma MoreResults(a: seq<Row>, b: seq<Row>, c: seq<Row>)
    requires GrewByResults(a, b) && GrewByResults(b, c)
    ensures GrewByResults(a, c)
  {
    assert forall k :: 0 <= k < |b| ==> c[k] == b[k];
  }

  lemma PartAddsResults(plan: Plan, all: seq<Row>, fates: Fates, now: World)
    requires Plans(plan, all, fates) && Partly(plan, all, fates, now)
    ensures GrewByResults(plan(0).world.rows, now.rows)
  {
    var n: nat :| n < |all| && PartlyAt(plan, all, fates, now, n);
    PassAddsResults(plan, all, fates, n);
  }

  predicate HasExactResult(rows: seq<Row>, intent: Row, status: Status, wire: Option<Wire>, metadataWire: Option<Wire>)
    requires intent.Intent?
  {
    exists r :: r in rows && r.Result? && r.intent == intent.Name() && r.subject == intent.subject && r.recipient == intent.recipient
      && r.status == status && r.wire == wire && r.metadataWire == metadataWire
  }

  /** The archive and the ambiguous set say of one intent what its fate was. */
  ghost predicate Tells(p: Pass, intent: Row, fate: Fate)
    requires intent.Intent?
  {
    && (intent.Name() in p.ambiguous <==> fate.Ambiguous?)
    && (HasResult(p.world.rows, intent.Name()) <==> fate.Skipped? || fate.Answered?)
    && (fate.Skipped? ==> HasExactResult(p.world.rows, intent, fate.status, None, None))
    && (fate.Answered? ==> HasExactResult(p.world.rows, intent, fate.status, fate.wire, fate.metadataWire))
  }

  lemma AttemptTells(p: Pass, intent: Row, fate: Fate)
    requires intent.Intent? && !HasResult(p.world.rows, intent.Name()) && intent.Name() !in p.ambiguous
    ensures Tells(After(p, intent, fate), intent, fate)
  {
    var rows' := After(p, intent, fate).world.rows;
    if rows' != p.world.rows {
      var r := rows'[|p.world.rows|];
      assert rows' == p.world.rows + [r] && r in rows';
      ResultOnlyForIts(p.world.rows, r, intent.Name());
    }
  }

  lemma TellsForGood(plan: Plan, all: seq<Row>, fates: Fates, n: nat)
    requires Plans(plan, all, fates) && DistinctNames(all) && n < |all|
    ensures Tells(plan(|all|), all[n], fates(plan(n).world, all[n]))
  {
    NextInLine(plan, all, fates, n);
    AmbiguousWerePending(plan, all, fates, n);
    AttemptTells(plan(n), all[n], fates(plan(n).world, all[n]));
    LaterAttemptsLeaveIt(plan, all, fates, n, |all|);
    assert forall r :: r in plan(n + 1).world.rows ==> r in plan(|all|).world.rows;
  }

  /**
   What a completed pass did with each intent, decided against the archive as it was when its turn
   came. It is ambiguous exactly if it was to be sent and its own send threw; it has the one result that
   says it was skipped, or what its own sends answered, exactly in the other cases; and it is passed
   over only if it names no archived source and recipient. Nobody else's answers matter.
   */
  lemma RelayIsExact(start: World, answers: RecordId -> Answers, n: nat)
    requires Startable(start) && n < |PendingAfter(start.rows, 0)|
    ensures var intent, plan, pass := PendingAfter(start.rows, 0)[n], RelayPlan(start, FatesBy(answers)), RelayAll(start, FatesBy(answers));
      var fate := FateOf(plan(n).world, intent, answers);
      && Startable(pass.world) && start.rows <= plan(n).world.rows && Tells(pass, intent, fate)
      && (Names(start.rows, intent) ==> !fate.PassedOver?)
  {
    var fates, all := FatesBy(answers), PendingAfter(start.rows, 0);
    var plan := RelayPlan(start, fates);
    FatesFollow(answers);
    assert fates(plan(n).world, all[n]) == FateOf(plan(n).world, all[n], answers);
    PlanIsPlanned(start, fates);
    ExactOnPlan(start, plan, all, fates, n);
    if Names(start.rows, all[n]) { NamedIsNotPassedOver(start.rows, plan(n).world, all[n], answers); }
  }

  lemma ExactOnPlan(start: World, plan: Plan, all: seq<Row>, fates: Fates, n: nat)
    requires Plans(plan, all, fates) && plan(0) == Pass(start, {}) && n < |all|
    ensures Startable(plan(|all|).world) && Startable(plan(n).world) && start.rows <= plan(n).world.rows
    ensures Tells(plan(|all|), all[n], fates(plan(n).world, all[n]))
  {
    PendingDistinct(start.rows, start.next);
    MidwayThrough(plan, all, fates, n);
    MidwayThrough(plan, all, fates, |all|);
    TellsForGood(plan, all, fates, n);
  }

  lemma NamedIsNotPassedOver(rows: seq<Row>, w: World, intent: Row, answers: RecordId -> Answers)
    requires rows <= w.rows && UniqueKeys(w.rows) && Names(rows, intent)
    ensures !FateOf(w, intent, answers).PassedOver?
  {
    var r :| r in rows && r.IsItem() && r.KeyOf() == intent.subject && intent.recipient in r.recipients;
    assert r in w.rows;
    NamedIntentIsDecided(w.room, w.rows, w.next, intent);
  }

  /**
   After a completed pass every intent that names an archived source and recipient has its one result,
   or is left without one because its own send threw.
   */
  lemma EveryNamedIntentIsSettled(start: World, answers: RecordId -> Answers, intent: Row)
    requires Startable(start) && intent in start.rows && Names(start.rows, intent)
    ensures var pass := RelayAll(start, FatesBy(answers));
      HasResult(pass.world.rows, intent.Name()) <==> intent.Name() !in pass.ambiguous
  {
    if HasResult(start.rows, intent.Name()) {
      PlanIsPlanned(start, FatesBy(answers));
      ResolvedBefore(RelayPlan(start, FatesBy(answers)), PendingAfter(start.rows, 0), FatesBy(answers), intent.Name());
    } else {
      assert intent in PendingAfter(start.rows, 0);
      var n :| 0 <= n < |PendingAfter(start.rows, 0)| && PendingAfter(start.rows, 0)[n] == intent;
      RelayIsExact(start, answers, n);
    }
  }

  lemma ResolvedBefore(plan: Plan, all: seq<Row>, fates: Fates, id: RecordId)
    requires Plans(plan, all, fates) && HasResult(plan(0).world.rows, id)
    ensures HasResult(plan(|all|).world.rows, id) && id !in plan(|all|).ambiguous
  {
    PassAddsResults(plan, all, fates, |all|);
    var x :| x in plan(0).world.rows && x.Result? && x.intent == id;
    assert x in plan(|all|).world.rows;
    AmbiguousWerePending(plan, all, fates, |all|);
    forall k | 0 <= k < |all| ensures all[k].Name() != id { assert all[k] in all; }
  }

  lemma AppendedIsThere(rows: seq<Row>, r: Row)
    ensures forall x :: x in rows + [r] <==> x in rows || x == r
  {
  }

  lemma ItemKeepsJournal(rows: seq<Row>, next: nat, room: RoomId, item: Row)
    requires JournalValid(rows, next, room) && next > 0 && item.IsItem() && item.room == room && item.pos == next
    requires forall x :: x in rows ==> !MentionsKey(x, item.KeyOf())
    ensures JournalValid(rows + [item], next + 1, room)
  {
    AppendedIsThere(rows, item);
  }

  lemma IntentKeepsJournal(rows: seq<Row>, next: nat, room: RoomId, intent: Row)
    requires JournalValid(rows, next, room) && next > 0 && intent.Intent? && intent.room == room && intent.pos == next
    requires !Intended(rows, intent.subject, intent.recipient)
    ensures JournalValid(rows + [intent], next + 1, room)
  {
    AppendedIsThere(rows, intent);
  }

  lemma ResultKeepsJournal(rows: seq<Row>, next: nat, room: RoomId, result: Row)
    requires JournalValid(rows, next, room) && next > 0 && result.Result? && result.room == room && result.pos == next
    requires !HasResult(rows, result.intent)
    ensures JournalValid(rows + [result], next + 1, room)
  {
    AppendedIsThere(rows, result);
  }

  lemma BatchFits(batch: seq<Cid>, pos: nat, owed: set<(nat, Cid)>)
    requires DistinctCids(batch) && forall c :: c in batch ==> (pos, c) in owed
    ensures |batch| <= |owed|
  {
    if batch != [] {
      var last, init := batch[|batch| - 1], batch[..|batch| - 1];
      assert last in batch && forall c :: c in init ==> c in batch && c != last;
      BatchFits(init, pos, owed - {(pos, last)});
    }
  }

  lemma SmallerWork(a: set<(nat, Cid)>, b: set<(nat, Cid)>)
    requires a < b
    ensures |a| < |b|
  {
    var x :| x in b && x !in a;
    assert a <= b - {x};
    Subset(a, b - {x});
  }

  lemma Subset(a: set<(nat, Cid)>, b: set<(nat, Cid)>)
    requires a <= b
    ensures |a| <= |b|
  {
    if a != {} {
      var x :| x in a;
      Subset(a - {x}, b - {x});
    }
  }

  lemma NothingOwedYet(rows: seq<Row>, next: nat, room: RoomId)
    requires JournalValid(rows, next, room)
    ensures forall c :: (next, c) !in Owed(rows)
  {
    forall c ensures (next, c) !in Owed(rows) {
      if (next, c) in Owed(rows) { OwedHasItem(rows, (next, c)); }
    }
  }

  lemma {:induction false} FilterOrdered(rows: seq<Row>, next: nat, p: Row -> bool)
    requires Ordered(rows, next)
    ensures Ordered(Filter(rows, p), next)
  {
    if rows != [] {
      var init := rows[..|rows| - 1];
      FilterOrdered(init, next, p);
      var kept := Filter(init, p);
      forall i | 0 <= i < |kept| ensures kept[i].pos < rows[|rows| - 1].pos {
        assert kept[i] in init;
      }
    }
  }

  /** The pass refines the runs: every attempt, thrown ones included, is one relay step of the thread runs. */
  lemma AttemptIsARelayStep(p: Pass, intent: Row, answers: RecordId -> Answers)
    requires intent in p.world.rows && intent.Intent? && !HasResult(p.world.rows, intent.Name())
    requires var rows' := After(p, intent, FateOf(p.world, intent, answers)).world.rows;
      rows' != p.world.rows ==> NewNames(p.world.rows, rows'[|rows'| - 1])
    ensures exists outcome: Outcome ::
      Step(p.world, After(p, intent, FateOf(p.world, intent, answers)).world, ThreadRuns.RelayOne(intent, outcome))
  {
    var decision := DecideRelay(p.world.room, p.world.rows, intent);
    var outcome := if decision.Send? then Observe(decision.source.File?, answers(intent.Name())) else Threw;
    assert Step(p.world, After(p, intent, FateOf(p.world, intent, answers)).world, ThreadRuns.RelayOne(intent, outcome));
  }

}
