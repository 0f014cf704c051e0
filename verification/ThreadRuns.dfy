/**
 Whole runs of one room: intake, thread creation, operator posts, recorded intents, relay attempts
 and membership changes, in any order. `sent` is history: every network send that was attempted.
 */
module ThreadRuns {
  import opened Prelude
  import opened Rooms
  import opened ReplyThreading
  import opened Threads
  import opened ThreadAncestry
  import opened ThreadRouting

  datatype Delivery = Delivery(source: Row, recipient: Cid, room: Room)

  datatype World = World(room: Room, rows: seq<Row>, next: nat, sent: seq<Delivery>)

  /** What a send was observed to do. A throw leaves acceptance unknown and records nothing. */
  datatype Outcome = Threw | Observed(queued: bool, wire: Option<Wire>, metadataWire: Option<Wire>)

  datatype Event =
    | Intake(item: InboxItem, id: Ulid)
    | Start(cid: Cid, granted: bool, fits: bool, input: StartThreadInput, digest: string, id: Ulid, at: Time)
    | Post(row: Row)
    | RecordIntent(subject: Key, recipient: Cid)
    | RelayOne(intent: Row, outcome: Outcome)
    | Reseat(room: Room)
    | OtherRecord

  /**
   How membership may change between two saved rooms: seats are appended with new participant IDs,
   keep their CID, participant and alias for ever, and never come back once removed.
   */
  ghost predicate Evolves(room: Room, room': Room) {
    && room'.id == room.id && room'.anonymous == room.anonymous && SeatsValid(room')
    && |room.seats| <= |room'.seats|
    && forall i :: 0 <= i < |room.seats| ==>
      && room'.seats[i].identity == room.seats[i].identity && room'.seats[i].participant == room.seats[i].participant
      && room'.seats[i].alias == room.seats[i].alias
      && (room.seats[i].state.RemovedSeat? ==> room'.seats[i].state.RemovedSeat?)
  }

  /** A minted identifier or wire was never seen in this archive. */
  ghost predicate NewNames(rows: seq<Row>, r: Row) {
    && (r.IsItem() ==> forall x :: x in rows ==> !MentionsKey(x, r.KeyOf()))
    && (r.IsItem() && r.sourceWire.Some? ==>
        forall x :: x in rows ==> !MentionsWire(x, r.author.identity, r.sourceWire.value))
    && (r.Result? ==> forall x, w :: x in rows && (r.wire == Some(w) || r.metadataWire == Some(w)) ==>
        !MentionsWire(x, r.recipient, w))
  }

  ghost predicate Appends(w: World, w': World, r: Row) {
    NewNames(w.rows, r) && w' == w.(rows := w.rows + [r], next := w.next + 1)
  }

  /** A message the room itself writes: a briefing, a notice or an operator's chat. */
  predicate Plain(r: Row) {
    && r.Message? && r.scope.None? && r.threadRoot.None? && r.reply.None?
    && r.sourceWire.None? && r.sourceMessage.None? && r.alias.None?
  }

  function ResultRow(w: World, intent: Row, status: Status, wire: Option<Wire>, metadataWire: Option<Wire>): Row
    requires intent.Intent?
  {
    Result(w.room.id, w.next, intent.Name(), intent.subject, intent.recipient, status, wire, metadataWire)
  }

  ghost predicate Relays(w: World, w': World, intent: Row, outcome: Outcome)
    requires intent.Intent?
  {
    match DecideRelay(w.room, w.rows, intent)
    case Dangling => w' == w
    case NotAddressed => w' == w
    case Skip(status) => Appends(w, w', ResultRow(w, intent, status, None, None))
    case Send(source, thread, replyTo) =>
      var logged := w.(sent := w.sent + [Delivery(source, intent.recipient, w.room)]);
      match outcome
      case Threw => w' == logged
      case Observed(queued, wire, metadataWire) =>
        Appends(logged, w', ResultRow(w, intent, if queued then Queued else SendFailed, wire, metadataWire))
  }

  ghost predicate Step(w: World, w': World, e: Event) {
    match e
    case Intake(item, id) =>
      (match DecideIntake(w.room, w.rows, item, id, w.next)
       case Ignored => w' == w
       case Rejected(f) => w' == w.(next := w.next + 1)
       case Appended(row) => Appends(w, w', row))
    case Start(cid, granted, fits, input, digest, id, at) =>
      (match DecideStartThread(w.room, w.rows, cid, granted, fits, input, digest, id, at, w.next)
       case Started(row) => Appends(w, w', row)
       case _ => w' == w)
    case Post(row) => Plain(row) && row.room == w.room.id && row.pos == w.next && Appends(w, w', row)
    case RecordIntent(subject, recipient) => Appends(w, w', Intent(w.room.id, w.next, subject, recipient))
    case RelayOne(intent, outcome) =>
      && intent in w.rows && intent.Intent?
      && (forall r :: r in w.rows && r.Result? ==> r.intent != intent.Name())
      && Relays(w, w', intent, outcome)
    case Reseat(room) => Evolves(w.room, room) && w' == w.(room := room)
    case OtherRecord => w' == w.(next := w.next + 1)
  }

  ghost predicate Init(w: World) {
    SeatsValid(w.room) && w.rows == [] && w.sent == []
  }

  // ----- The archive invariant ---------------------------------------------------------------------

  /** The verdict of a saved item is settled: it is ordinary or in the thread it declares, for good. */
  ghost predicate Settled(rows: seq<Row>, view: RoomView, item: Row)
    requires item.IsItem()
  {
    && Classify(rows, view, item).Ok? && Firm(Ancestry(rows, view, item, {}, 0).value)
    && if Declared(item) then Classify(rows, view, item).value.Scoped? else Classify(rows, view, item).value.Ordinary?
  }

  ghost predicate Ordered(rows: seq<Row>, next: nat) {
    && (forall i, j :: 0 <= i < j < |rows| ==> rows[i].pos < rows[j].pos)
    && (forall r :: r in rows ==> r.pos < next)
  }

  ghost predicate UniqueKeys(rows: seq<Row>) {
    forall x, y :: x in rows && y in rows && x.IsItem() && y.IsItem() && x.KeyOf() == y.KeyOf() ==> x == y
  }

  ghost predicate RowsValid(rows: seq<Row>, room: RoomId) {
    forall r :: r in rows ==> r.room == room && ThreadFieldsValid(r) && (r.Result? ==> r.intent.pos < r.pos)
  }

  ghost predicate AllSettled(rows: seq<Row>, view: RoomView) {
    forall r :: r in rows && r.IsItem() ==> Settled(rows, view, r)
  }

  ghost predicate ArchiveInv(rows: seq<Row>, view: RoomView, next: nat) {
    Ordered(rows, next) && UniqueKeys(rows) && RowsValid(rows, view.id) && AllSettled(rows, view)
  }

  lemma NewRowIsFresh(rows: seq<Row>, view: RoomView, next: nat, r: Row)
    requires ArchiveInv(rows, view, next) && NewNames(rows, r) && r.pos == next
    ensures Fresh(rows, r)
  {
  }

  /** Appending keeps the invariant as soon as the new row itself is in order. */
  lemma AppendKeepsArchive(rows: seq<Row>, view: RoomView, next: nat, r: Row)
    requires ArchiveInv(rows, view, next) && NewNames(rows, r) && r.pos == next && r.room == view.id
    requires ThreadFieldsValid(r) && (r.Result? ==> r.intent.pos < r.pos)
    requires r.IsItem() ==> Settled(rows + [r], view, r)
    ensures ArchiveInv(rows + [r], view, next + 1)
  {
    NewRowIsFresh(rows, view, next, r);
    assert UniqueKeys(rows + [r]) by {
      forall x | x in rows && x.IsItem() && r.IsItem() ensures x.KeyOf() != r.KeyOf() {
        assert !MentionsKey(x, r.KeyOf());
      }
    }
    forall x | x in rows && x.IsItem() ensures Settled(rows + [r], view, x) {
      VerdictStable(rows, r, view, x);
    }
    forall x | x in rows + [r] && x.IsItem() ensures Settled(rows + [r], view, x) {
      assert x in rows || x == r;
    }
  }

  lemma PlainSettled(rows: seq<Row>, view: RoomView, r: Row)
    requires r.IsItem() && !Declared(r) && r.reply.None? && r.room == view.id
    ensures Settled(rows, view, r)
  {
    LoneChain(rows, view, r);
    OrdinaryMeansUndeclared(rows, view, [Link(r, NoReply)]);
  }

  /** A row that replies to nothing is its own whole ancestry. */
  lemma {:induction false} LoneChain(rows: seq<Row>, view: RoomView, r: Row)
    requires r.IsItem() && r.reply.None? && r.room == view.id
    ensures Ancestry(rows, view, r, {}, 0) == Ok([Link(r, NoReply)]) && Firm([Link(r, NoReply)])
    ensures Classify(rows, view, r) == Advance(rows, view, Link(r, NoReply), Ordinary)
  {
    var chain := [Link(r, NoReply)];
    assert Ancestry(rows, view, r, {}, 0) == Ok(chain);
    assert forall l :: l in chain ==> l == chain[0];
    assert chain[1..] == [] && Associate(rows, view, chain[1..]) == Ok(Ordinary);
    assert Associate(rows, view, chain) == Advance(rows, view, chain[0], Ordinary);
  }

  lemma OrdinaryReplySettled(rows: seq<Row>, view: RoomView, r: Row, parent: Row)
    requires r.IsItem() && !Declared(r) && Fresh(rows, r) && r.room == view.id
    requires parent in rows && parent.IsItem() && Parent(rows, view, r) == Resolved(parent.KeyOf(), parent)
    requires Settled(rows, view, parent) && Classify(rows, view, parent) == Ok(Ordinary)
    ensures Settled(rows + [r], view, r)
  {
    var chain := Ancestry(rows, view, parent, {}, 0).value;
    var link := Link(r, Resolved(parent.KeyOf(), parent));
    AncestryShape(rows, view, parent, {}, 0);
    ReplyChain(rows, r, view, parent);
    OrdinaryMeansUndeclared(rows, view, chain);
    OrdinaryMeansUndeclared(rows + [r], view, [link] + chain);
  }

  lemma RootFound(rows: seq<Row>, view: RoomView, next: nat, r: Row)
    requires ArchiveInv(rows, view, next) && r.Message? && Fresh(rows, r) && r.room == view.id && WellFormedRoot(r, r.id)
    ensures FindThreadRoot(rows + [r], view, r.id) == Ok(r)
  {
    var p := (x: Row) => RootCandidate(x, view, r.id);
    forall x | x in rows ensures !p(x) {
      assert !MentionsKey(x, r.KeyOf()) && ThreadFieldsValid(x);
    }
    FilterNone(rows, p);
    FilterAppend(rows, r, p, p);
    assert RootCandidates(rows + [r], view, r.id) == [r];
  }

  lemma RootSettled(rows: seq<Row>, view: RoomView, next: nat, r: Row)
    requires ArchiveInv(rows, view, next) && r.Message? && Fresh(rows, r) && r.room == view.id && WellFormedRoot(r, r.id)
    requires PublicThreadMetadata(r, view).Ok? && PublicThreadAuthor(r, r.threadRoot.value, view).Ok?
    ensures Settled(rows + [r], view, r)
  {
    RootFound(rows, view, next, r);
    CountOne(rows, r, view);
    LoneChain(rows + [r], view, r);
  }

  lemma IntakeSettled(w: World, item: InboxItem, id: Ulid)
    requires SeatsValid(w.room) && ArchiveInv(w.rows, View(w.room), w.next)
    requires DecideIntake(w.room, w.rows, item, id, w.next).Appended?
    requires NewNames(w.rows, DecideIntake(w.room, w.rows, item, id, w.next).row)
    ensures var row := DecideIntake(w.room, w.rows, item, id, w.next).row;
      && row.IsItem() && row.room == w.room.id && row.pos == w.next && ThreadFieldsValid(row)
      && Settled(w.rows + [row], View(w.room), row)
  {
    var row := DecideIntake(w.room, w.rows, item, id, w.next).row;
    var view := View(w.room);
    NewRowIsFresh(w.rows, view, w.next, row);
    if item.reply.None? {
      PlainSettled(w.rows + [row], view, row);
    } else {
      IntakeReplySettled(w, item, id);
    }
  }

  lemma IntakeReplySettled(w: World, item: InboxItem, id: Ulid)
    requires SeatsValid(w.room) && ArchiveInv(w.rows, View(w.room), w.next) && item.reply.Some?
    requires DecideIntake(w.room, w.rows, item, id, w.next).Appended?
    requires Fresh(w.rows, DecideIntake(w.room, w.rows, item, id, w.next).row)
    ensures var row := DecideIntake(w.room, w.rows, item, id, w.next).row;
      ThreadFieldsValid(row) && Settled(w.rows + [row], View(w.room), row)
  {
    var row := DecideIntake(w.room, w.rows, item, id, w.next).row;
    var view := View(w.room);
    var parent := ResolveReplyParent(w.rows, w.room.id, item.sender, Some(item.reply.value.wire), w.next).item;
    assert Settled(w.rows, view, parent);
    if Classify(w.rows, view, parent).value.Ordinary? {
      OrdinaryReplySettled(w.rows, view, row, parent);
    } else {
      ScopedVerdictHasRoot(w.rows, view, parent);
      var root := Classify(w.rows, view, parent).value.root;
      assert MentionsKey(root, MessageKey(root.id));
      IntakeScopeAgreesNow(w.room, w.rows, item, id, w.next);
    }
  }

  // ----- Runs --------------------------------------------------------------------------------------

  /** Every private send so far went to a member the root selected, under the participant ID it selected. */
  ghost predicate SendsConfined(w: World) {
    forall d :: d in w.sent ==> ConfinedDelivery(w.rows, View(w.room), d)
  }

  ghost predicate ConfinedDelivery(rows: seq<Row>, view: RoomView, d: Delivery) {
    && d.source in rows && d.source.IsItem() && d.recipient in d.source.recipients
    && (!NothingPrivate(rows, view, d.source) ==>
        && d.source.Message? && Classify(rows, view, d.source).Ok? && Classify(rows, view, d.source).value.Scoped?
        && Classify(rows, view, d.source).value.root.Message? && Classify(rows, view, d.source).value.root.threadRoot.Some?
        && ActiveThreadSeat(d.room, Classify(rows, view, d.source).value.root.threadRoot.value, d.recipient))
  }

  ghost predicate Inv(w: World) {
    && SeatsValid(w.room) && ArchiveInv(w.rows, View(w.room), w.next) && SendsConfined(w)
  }

  lemma SentStaysConfined(rows: seq<Row>, view: RoomView, next: nat, r: Row, d: Delivery)
    requires ArchiveInv(rows, view, next) && Fresh(rows, r) && ThreadFieldsValid(r) && ConfinedDelivery(rows, view, d)
    ensures ConfinedDelivery(rows + [r], view, d)
  {
    assert Settled(rows, view, d.source);
    VerdictStable(rows, r, view, d.source);
    OrdinaryIffNothingPrivate(rows, view, d.source);
    OrdinaryIffNothingPrivate(rows + [r], view, d.source);
  }

  lemma AppendKeepsInv(w: World, w': World, r: Row)
    requires Inv(w) && Appends(w, w', r) && r.pos == w.next && r.room == w.room.id
    requires ThreadFieldsValid(r) && (r.Result? ==> r.intent.pos < r.pos)
    requires r.IsItem() ==> Settled(w.rows + [r], View(w.room), r)
    ensures Inv(w')
  {
    NewRowIsFresh(w.rows, View(w.room), w.next, r);
    AppendKeepsArchive(w.rows, View(w.room), w.next, r);
    forall d | d in w'.sent ensures ConfinedDelivery(w'.rows, View(w'.room), d) {
      SentStaysConfined(w.rows, View(w.room), w.next, r, d);
    }
  }

  lemma SendHasSource(room: Room, rows: seq<Row>, intent: Row)
    requires intent.Intent? && DecideRelay(room, rows, intent).Send?
    ensures var source := DecideRelay(room, rows, intent).source;
      source in rows && source.IsItem() && intent.recipient in source.recipients
  {
  }

  lemma SendIsConfined(room: Room, rows: seq<Row>, intent: Row)
    requires intent.Intent? && DecideRelay(room, rows, intent).Send?
    ensures ConfinedDelivery(rows, View(room), Delivery(DecideRelay(room, rows, intent).source, intent.recipient, room))
  {
    SendHasSource(room, rows, intent);
    if !NothingPrivate(rows, View(room), DecideRelay(room, rows, intent).source) {
      ScopedSendIsConfined(room, rows, intent);
    }
  }

  lemma LogKeepsInv(w: World, d: Delivery)
    requires Inv(w) && ConfinedDelivery(w.rows, View(w.room), d)
    ensures Inv(w.(sent := w.sent + [d]))
  {
    assert forall x :: x in w.sent + [d] <==> x in w.sent || x == d;
  }

  lemma RelayKeepsInv(w: World, w': World, intent: Row, outcome: Outcome)
    requires Inv(w) && intent in w.rows && intent.Intent? && Relays(w, w', intent, outcome)
    ensures Inv(w')
  {
    match DecideRelay(w.room, w.rows, intent)
    case Skip(status) => AppendKeepsInv(w, w', ResultRow(w, intent, status, None, None));
    case Send(source, thread, replyTo) =>
      var d := Delivery(source, intent.recipient, w.room);
      SendIsConfined(w.room, w.rows, intent);
      LogKeepsInv(w, d);
      var logged := w.(sent := w.sent + [d]);
      if w' != logged {
        AppendKeepsInv(logged, w', w'.rows[|w.rows|]);
      }
    case _ =>
  }

  lemma StepKeepsInv(w: World, w': World, e: Event)
    requires Inv(w) && Step(w, w', e)
    ensures Inv(w')
  {
    match e
    case Intake(item, id) =>
      var decision := DecideIntake(w.room, w.rows, item, id, w.next);
      if decision.Appended? {
        IntakeSettled(w, item, id);
        AppendKeepsInv(w, w', decision.row);
      }
    case Start(cid, granted, fits, input, digest, id, at) =>
      StartKeepsInv(w, w', cid, granted, fits, input, digest, id, at);
    case Post(row) =>
      PlainSettled(w.rows + [row], View(w.room), row);
      AppendKeepsInv(w, w', row);
    case RecordIntent(subject, recipient) => AppendKeepsInv(w, w', Intent(w.room.id, w.next, subject, recipient));
    case RelayOne(intent, outcome) => RelayKeepsInv(w, w', intent, outcome);
    case Reseat(room) => assert View(room) == View(w.room);
    case OtherRecord =>
  }

  lemma StartKeepsInv(w: World, w': World, cid: Cid, granted: bool, fits: bool, input: StartThreadInput, digest: string, id: Ulid, at: Time)
    requires Inv(w) && Step(w, w', Start(cid, granted, fits, input, digest, id, at))
    ensures Inv(w')
  {
    var decision := DecideStartThread(w.room, w.rows, cid, granted, fits, input, digest, id, at, w.next);
    if decision.Started? {
      StartedRootIsWellFormed(w.room, w.rows, cid, input, digest, id, at, w.next);
      StartedRowIsPlaced(w.room, w.rows, cid, granted, fits, input, digest, id, at, w.next);
      RootKeepsInv(w, w', decision.row);
    }
  }

  lemma StartedRowIsPlaced(room: Room, rows: seq<Row>, cid: Cid, granted: bool, fits: bool, input: StartThreadInput, digest: string,
                           id: Ulid, at: Time, pos: nat)
    requires DecideStartThread(room, rows, cid, granted, fits, input, digest, id, at, pos).Started?
    ensures var row := DecideStartThread(room, rows, cid, granted, fits, input, digest, id, at, pos).row;
      && DecideStartThread(room, rows, cid, true, true, input, digest, id, at, pos) == Started(row)
      && row.Message? && row.id == id && row.pos == pos && row.room == room.id && row.At(pos) == row
  {
  }

  lemma RootKeepsInv(w: World, w': World, row: Row)
    requires Inv(w) && Appends(w, w', row) && row.Message? && row.pos == w.next && row.room == w.room.id && WellFormedRoot(row, row.id)
    requires PublicThreadMetadata(row, View(w.room)).Ok? && PublicThreadAuthor(row, row.threadRoot.value, View(w.room)).Ok?
    ensures Inv(w')
  {
    NewRowIsFresh(w.rows, View(w.room), w.next, row);
    RootSettled(w.rows, View(w.room), w.next, row);
    AppendKeepsInv(w, w', row);
  }

  ghost predicate Run(worlds: seq<World>, events: seq<Event>) {
    && |worlds| == |events| + 1 && Init(worlds[0])
    && forall i {:trigger events[i]} :: 0 <= i < |events| ==> Step(worlds[i], worlds[i + 1], events[i])
  }

  lemma {:induction false} RunKeepsInv(worlds: seq<World>, events: seq<Event>, i: nat)
    requires Run(worlds, events) && i < |worlds|
    ensures Inv(worlds[i])
    decreases i
  {
    if i == 0 {
      InitEstablishesInv(worlds[0]);
    } else {
      RunKeepsInv(worlds, events, i - 1);
      NextKeepsInv(worlds, events, i - 1);
    }
  }

  lemma InitEstablishesInv(w: World)
    requires Init(w)
    ensures Inv(w)
  {
  }

  lemma NextKeepsInv(worlds: seq<World>, events: seq<Event>, i: nat)
    requires Run(worlds, events) && i < |events| && Inv(worlds[i])
    ensures Inv(worlds[i + 1])
  {
    StepKeepsInv(worlds[i], worlds[i + 1], events[i]);
  }

  /** Every network send of a private row, over whole runs, is confined to the root's selected participants. */
  lemma EverySendIsConfined(worlds: seq<World>, events: seq<Event>, i: nat, d: Delivery)
    requires Run(worlds, events) && i < |worlds| && d in worlds[i].sent
    ensures ConfinedDelivery(worlds[i].rows, View(worlds[i].room), d)
  {
    RunKeepsInv(worlds, events, i);
  }

  /** What a step may do to the past: rows and sends are only added, and verdicts stand. */
  ghost predicate Grows(w: World, w': World) {
    && w.rows <= w'.rows && w.sent <= w'.sent && Evolves(w.room, w'.room)
    && (forall n :: |w.sent| <= n < |w'.sent| ==> Evolves(w.room, w'.sent[n].room))
    && (forall x :: x in w.rows && x.IsItem() ==>
        Classify(w'.rows, View(w'.room), x) == Classify(w.rows, View(w.room), x))
  }

  ghost predicate OneRowMore(w: World, w': World) {
    w'.rows == w.rows || (exists r :: w'.rows == w.rows + [r] && r.pos == w.next && NewNames(w.rows, r))
  }

  ghost predicate OneSendMore(w: World, w': World) {
    w'.sent == w.sent || (exists d :: w'.sent == w.sent + [d] && d.room == w.room)
  }

  lemma RelayShape(w: World, w': World, intent: Row, outcome: Outcome)
    requires intent.Intent? && Relays(w, w', intent, outcome)
    ensures OneRowMore(w, w') && OneSendMore(w, w') && w'.room == w.room
  {
    var decision := DecideRelay(w.room, w.rows, intent);
    if w'.rows != w.rows {
      assert NewNames(w.rows, w'.rows[|w.rows|]) && w'.rows[|w.rows|].pos == w.next;
    }
    if decision.Send? {
      assert w'.sent == w.sent + [Delivery(decision.source, intent.recipient, w.room)];
    }
  }

  lemma AppendShape(w: World, w': World, r: Row)
    requires Appends(w, w', r) && r.pos == w.next
    ensures OneRowMore(w, w') && OneSendMore(w, w') && w'.room == w.room
  {
  }

  /** A step appends at most one row and logs at most one send, made in the room as it is. */
  lemma StepShape(w: World, w': World, e: Event)
    requires Step(w, w', e)
    ensures OneRowMore(w, w') && OneSendMore(w, w')
    ensures w'.room == w.room || Evolves(w.room, w'.room)
  {
    match e
    case Intake(item, id) =>
      var decision := DecideIntake(w.room, w.rows, item, id, w.next);
      if decision.Appended? { AppendShape(w, w', decision.row); }
    case Start(cid, granted, fits, input, digest, id, at) =>
      var decision := DecideStartThread(w.room, w.rows, cid, granted, fits, input, digest, id, at, w.next);
      if decision.Started? { AppendShape(w, w', decision.row); }
    case RelayOne(intent, outcome) => RelayShape(w, w', intent, outcome);
    case _ =>
  }

  lemma VerdictsStand(w: World, w': World, e: Event)
    requires Inv(w) && Inv(w') && Step(w, w', e)
    ensures forall x :: x in w.rows && x.IsItem() ==>
      Classify(w'.rows, View(w'.room), x) == Classify(w.rows, View(w.room), x)
  {
    StepShape(w, w', e);
    if w'.rows != w.rows {
      var r :| w'.rows == w.rows + [r] && r.pos == w.next && NewNames(w.rows, r);
      assert r in w'.rows;
      NewRowIsFresh(w.rows, View(w.room), w.next, r);
      forall x | x in w.rows && x.IsItem() ensures Classify(w'.rows, View(w'.room), x) == Classify(w.rows, View(w.room), x) {
        assert Settled(w.rows, View(w.room), x);
        VerdictStable(w.rows, r, View(w.room), x);
      }
    }
  }

  lemma StepGrows(w: World, w': World, e: Event)
    requires Inv(w) && Step(w, w', e)
    ensures Grows(w, w')
  {
    StepKeepsInv(w, w', e);
    StepShape(w, w', e);
    VerdictsStand(w, w', e);
    ShapeGrows(w, w');
  }

  lemma ShapeGrows(w: World, w': World)
    requires Inv(w) && OneRowMore(w, w') && OneSendMore(w, w') && (w'.room == w.room || Evolves(w.room, w'.room))
    requires forall x :: x in w.rows && x.IsItem() ==>
      Classify(w'.rows, View(w'.room), x) == Classify(w.rows, View(w.room), x)
    ensures Grows(w, w')
  {
  }

  lemma GrowsIsReflexive(w: World)
    requires Inv(w)
    ensures Grows(w, w)
  {
  }

  lemma GrowsIsTransitive(a: World, b: World, c: World)
    requires Grows(a, b) && Grows(b, c)
    ensures Grows(a, c)
  {
    forall n | |a.sent| <= n < |c.sent| ensures Evolves(a.room, c.sent[n].room) {
      if n < |b.sent| { assert c.sent[n] == b.sent[n]; }
    }
    forall x | x in a.rows && x.IsItem() ensures Classify(c.rows, View(c.room), x) == Classify(a.rows, View(a.room), x) {
      assert x in b.rows;
    }
  }

  lemma {:induction false} RunGrows(worlds: seq<World>, events: seq<Event>, i: nat, j: nat)
    requires Run(worlds, events) && i <= j < |worlds|
    ensures Grows(worlds[i], worlds[j])
    decreases j
  {
    if i == j {
      RunKeepsInv(worlds, events, i);
      GrowsIsReflexive(worlds[i]);
    } else {
      RunGrows(worlds, events, i, j - 1);
      GrowsAlong(worlds, events, worlds[i], j);
    }
  }

  lemma GrowsAlong(worlds: seq<World>, events: seq<Event>, a: World, j: nat)
    requires Run(worlds, events) && 0 < j < |worlds| && Grows(a, worlds[j - 1])
    ensures Grows(a, worlds[j])
  {
    NextGrows(worlds, events, j - 1);
    GrowsIsTransitive(a, worlds[j - 1], worlds[j]);
  }

  lemma NextGrows(worlds: seq<World>, events: seq<Event>, i: nat)
    requires Run(worlds, events) && i < |events|
    ensures Grows(worlds[i], worlds[i + 1])
  {
    RunKeepsInv(worlds, events, i);
    StepGrows(worlds[i], worlds[i + 1], events[i]);
  }

  /** In one room, a CID whose selected participant was removed has no active thread seat any more. */
  lemma RemovedMemberHasNoSeat(room: Room, seat: Seat, root: ThreadRoot)
    requires SeatsValid(room) && ValidRoot(root) && seat in room.seats && seat.state.RemovedSeat?
    requires Member(seat.participant, seat.identity) in root.members
    ensures !ActiveThreadSeat(room, root, seat.identity)
  {
    var members := root.members;
    var a :| 0 <= a < |members| && members[a] == Member(seat.participant, seat.identity);
    var i :| 0 <= i < |room.seats| && room.seats[i] == seat;
    forall s | s in room.seats && s.state.ActiveSeat? && s.identity == seat.identity
      ensures Member(s.participant, seat.identity) !in members
    {
      var j :| 0 <= j < |room.seats| && room.seats[j] == s;
      forall b | 0 <= b < |members| ensures members[b] != Member(s.participant, seat.identity) {
        assert b == a || members[b].identity != members[a].identity;
      }
    }
  }

  /**
   Once a selected participant was removed, its CID receives nothing of that thread any more, for the
   rest of the run, even after it rejoined the room as a new participant.
   */
  lemma RejoinedCidGetsNothing(worlds: seq<World>, events: seq<Event>, i: nat, j: nat, k: nat, n: nat)
    requires Run(worlds, events) && i <= j < |worlds|
    requires k < |worlds[i].room.seats| && worlds[i].room.seats[k].state.RemovedSeat?
    requires |worlds[i].sent| <= n < |worlds[j].sent|
    requires var seat, d := worlds[i].room.seats[k], worlds[j].sent[n];
      && d.source.IsItem() && !NothingPrivate(worlds[j].rows, View(worlds[j].room), d.source)
      && var verdict := Classify(worlds[j].rows, View(worlds[j].room), d.source);
        verdict.Ok? && verdict.value.Scoped? && verdict.value.root.Message? && verdict.value.root.threadRoot.Some?
        && Member(seat.participant, seat.identity) in verdict.value.root.threadRoot.value.members
    ensures worlds[j].sent[n].recipient != worlds[i].room.seats[k].identity
  {
    var d := worlds[j].sent[n];
    RunKeepsInv(worlds, events, j);
    RunGrows(worlds, events, i, j);
    assert d in worlds[j].sent;
    ScopedVerdictHasRoot(worlds[j].rows, View(worlds[j].room), d.source);
    var root := Classify(worlds[j].rows, View(worlds[j].room), d.source).value.root.threadRoot.value;
    RemovedMemberHasNoSeat(d.room, d.room.seats[k], root);
  }
}
