/**
 Under which name a message is shown. Whoever wrote under an alias is shown by participant ID and alias,
 everywhere: in the history of ordinary and of scoped messages, and in the metadata of a thread. Over the
 runs of an anonymous room no reader ever learns the CID or the display name of a writing member.
 */
module PublicAuthors {
  import opened Prelude
  import opened Rooms
  import opened ReplyThreading
  import opened Threads
  import opened ThreadRouting
  import opened ThreadHistory
  import opened ThreadRuns
  import opened ThreadDelivery

  /** The name a reader of this room is shown. */
  predicate ShowsAs(record: Row, hides: bool, author: Author)
    requires record.Message?
  {
    if hides && record.alias.Some?
    then author.identity == record.alias.value.participant && author.displayName == record.alias.value.alias && author.role == record.author.role
    else author == record.author
  }

  /** What is shown is the record's own content, in its thread if it has one, under its public name. */
  lemma ShownContent(room: Room, rows: seq<Row>, viewer: Cid, record: Row)
    requires ProjectOne(room, rows, viewer, record).Some?
    ensures var m := ProjectOne(room, rows, viewer, record).value;
      && record.Message? && record.room == room.id && Classify(rows, View(room), record).Ok?
      && m.id == record.id && m.at == record.at && m.category == record.category && m.text == record.text
      && var verdict := Classify(rows, View(room), record).value;
        && ShowsAs(record, room.anonymous || verdict.Ordinary?, m.author)
        && (verdict.Ordinary? ==> m.thread.None? && m.threadRoot.None?)
        && (verdict.Scoped? ==> m.thread == Some(verdict.root.id) && (room.anonymous ==> record.alias.Some?))
  {
  }

  /** An ordinary message is read by everybody, unless its alias is unusable. */
  lemma OrdinaryIsRead(room: Room, rows: seq<Row>, viewer: Cid, record: Row)
    requires record.Message? && record.room == room.id && Classify(rows, View(room), record) == Ok(Ordinary)
    ensures ProjectOne(room, rows, viewer, record).Some? <==> record.alias.None? || record.alias.value.alias != ""
  {
  }

  /** A thread's metadata: its topic and time, its participants in order, and its creator's public name. */
  lemma ShownMetadata(root: Row, view: RoomView)
    requires root.Message? && root.threadRoot.Some? && PublicThreadMetadata(root, view).Ok?
    ensures var t, m := root.threadRoot.value, PublicThreadMetadata(root, view).value;
      && m.threadId == t.threadId && m.topic == t.topic && m.createdAt == root.at && ShowsAs(root, view.anonymous, m.creator)
      && (view.anonymous ==> root.alias.Some? && root.alias.value.participant == t.creator)
      && |m.participants| == |t.members| && forall k :: 0 <= k < |t.members| ==> m.participants[k] == t.members[k].participant
  {
  }

  lemma {:induction false} ReadIsArchived(room: Room, rows: seq<Row>, viewer: Cid, records: seq<Row>, m: PublicMessage)
    ensures m in Visible(room, rows, viewer, records) <==> exists r :: r in records && ProjectOne(room, rows, viewer, r) == Some(m)
  {
    if records != [] {
      var init, last := records[..|records| - 1], records[|records| - 1];
      assert records == init + [last];
      ReadIsArchived(room, rows, viewer, init, m);
    }
  }

  /** Every row of every page shows an archived message, its content, and its author's public name. */
  lemma PagesShowPublicNames(room: Room, rows: seq<Row>, viewer: Cid, after: nat, limit: nat, cost: HistoryRow -> nat, k: nat)
    requires limit > 0 && HistoryPage(room, rows, viewer, after, limit, cost).Page?
    requires k < |HistoryPage(room, rows, viewer, after, limit, cost).rows|
    ensures var m := HistoryPage(room, rows, viewer, after, limit, cost).rows[k].message;
      exists r :: r in rows && r.Message? && Classify(rows, View(room), r).Ok? && m.id == r.id && m.text == r.text
        && ShowsAs(r, room.anonymous || Classify(rows, View(room), r).value.Ordinary?, m.author)
  {
    var visible := Visible(room, rows, viewer, rows);
    PageIsRun(visible, ActiveSeatOf(room, viewer).value.participant, after, limit, cost);
    var m := HistoryPage(room, rows, viewer, after, limit, cost).rows[k].message;
    assert m == visible[after + k] && m in visible;
    ReadIsArchived(room, rows, viewer, rows, m);
    var r :| r in rows && ProjectOne(room, rows, viewer, r) == Some(m);
    ShownContent(room, rows, viewer, r);
  }

  // ----- Runs of an anonymous room -------------------------------------------------------------------------

  /** Written by a member: taken from the inbox, or the root of a thread it started. */
  predicate ByMember(r: Row) {
    r.Message? && (r.sourceMessage.Some? || r.threadRoot.Some?)
  }

  /** The row carries the alias of a seat of its author. */
  predicate CarriesAlias(room: Room, r: Row)
    requires r.Message?
  {
    exists s :: s in room.seats && IsAliasOf(r, s)
  }

  predicate IsAliasOf(r: Row, s: Seat)
    requires r.Message?
  {
    && s.identity == r.author.identity && s.alias.Some? && s.alias.value != ""
    && r.alias == Some(AuthorAlias(s.participant, s.alias.value))
  }

  ghost predicate Masked(room: Room, rows: seq<Row>) {
    room.anonymous ==> forall r :: r in rows && ByMember(r) ==> CarriesAlias(room, r)
  }

  lemma IntakeIsMasked(room: Room, rows: seq<Row>, item: InboxItem, id: Ulid, pos: nat)
    requires SeatsValid(room) && room.anonymous && DecideIntake(room, rows, item, id, pos).Appended?
    ensures var row := DecideIntake(room, rows, item, id, pos).row; row.Message? ==> CarriesAlias(room, row)
  {
    var row, s := DecideIntake(room, rows, item, id, pos).row, ActiveSeatOf(room, item.sender).value;
    if row.Message? { assert IsAliasOf(row, s); }
  }

  lemma StartIsMasked(room: Room, rows: seq<Row>, cid: Cid, granted: bool, fits: bool, input: StartThreadInput, digest: string,
                      id: Ulid, at: Time, pos: nat)
    requires SeatsValid(room) && room.anonymous && DecideStartThread(room, rows, cid, granted, fits, input, digest, id, at, pos).Started?
    ensures var row := DecideStartThread(room, rows, cid, granted, fits, input, digest, id, at, pos).row;
      row.Message? && CarriesAlias(room, row)
  {
    var row, s := DecideStartThread(room, rows, cid, granted, fits, input, digest, id, at, pos).row, ActiveSeatOf(room, cid).value;
    assert IsAliasOf(row, s);
  }

  lemma StepAppendsMasked(w: World, w': World, e: Event)
    requires Inv(w) && Step(w, w', e) && w.room.anonymous
    ensures w'.rows == w.rows || exists r :: w'.rows == w.rows + [r] && (ByMember(r) ==> CarriesAlias(w.room, r))
  {
    match e
    case Intake(item, id) =>
      var answer := DecideIntake(w.room, w.rows, item, id, w.next);
      if answer.Appended? {
        IntakeIsMasked(w.room, w.rows, item, id, w.next);
        assert w'.rows == w.rows + [answer.row];
      }
    case Start(cid, granted, fits, input, digest, id, at) =>
      var answer := DecideStartThread(w.room, w.rows, cid, granted, fits, input, digest, id, at, w.next);
      if answer.Started? {
        StartIsMasked(w.room, w.rows, cid, granted, fits, input, digest, id, at, w.next);
        assert w'.rows == w.rows + [answer.row];
      }
    case Post(row) => assert w'.rows == w.rows + [row] && !ByMember(row);
    case RecordIntent(subject, recipient) => assert w'.rows == w.rows + [Intent(w.room.id, w.next, subject, recipient)];
    case RelayOne(intent, outcome) => RelayAppendsNoMessage(w, w', intent, outcome);
    case _ =>
  }

  lemma RelayAppendsNoMessage(w: World, w': World, intent: Row, outcome: Outcome)
    requires intent.Intent? && Relays(w, w', intent, outcome)
    ensures w'.rows == w.rows || exists r :: w'.rows == w.rows + [r] && !r.Message?
  {
    RelayShape(w, w', intent, outcome);
    if w'.rows != w.rows {
      var r := w'.rows[|w.rows|];
      assert w'.rows == w.rows + [r] && r.Result?;
    }
  }

  lemma StillCarries(room: Room, room': Room, r: Row)
    requires r.Message? && CarriesAlias(room, r) && (room' == room || Evolves(room, room'))
    ensures CarriesAlias(room', r)
  {
    var s :| s in room.seats && IsAliasOf(r, s);
    var k :| 0 <= k < |room.seats| && room.seats[k] == s;
    assert room'.seats[k] in room'.seats && IsAliasOf(r, room'.seats[k]);
  }

  lemma StepKeepsMasked(w: World, w': World, e: Event)
    requires Inv(w) && Masked(w.room, w.rows) && Step(w, w', e)
    ensures Masked(w'.room, w'.rows)
  {
    StepShape(w, w', e);
    if w.room.anonymous {
      StepAppendsMasked(w, w', e);
      forall r | r in w'.rows && ByMember(r) ensures CarriesAlias(w'.room, r) {
        assert CarriesAlias(w.room, r);
        StillCarries(w.room, w'.room, r);
      }
    }
  }

  lemma {:induction false} RunKeepsMasked(worlds: seq<World>, events: seq<Event>, i: nat)
    requires Run(worlds, events) && i < |worlds|
    ensures Masked(worlds[i].room, worlds[i].rows)
    decreases i
  {
    if i == 0 {
      NothingToMask(worlds[0]);
    } else {
      RunKeepsMasked(worlds, events, i - 1);
      NextKeepsMasked(worlds, events, i - 1);
    }
  }

  lemma NothingToMask(w: World)
    requires Init(w)
    ensures Masked(w.room, w.rows)
  {
  }

  lemma NextKeepsMasked(worlds: seq<World>, events: seq<Event>, i: nat)
    requires Run(worlds, events) && i < |events| && Masked(worlds[i].room, worlds[i].rows)
    ensures Masked(worlds[i + 1].room, worlds[i + 1].rows)
  {
    RunKeepsInv(worlds, events, i);
    StepKeepsMasked(worlds[i], worlds[i + 1], events[i]);
  }

  /** Over every run of an anonymous room: a member's message is read under the alias of one of its seats. */
  lemma MembersStayAnonymous(worlds: seq<World>, events: seq<Event>, i: nat, viewer: Cid, record: Row)
    requires Run(worlds, events) && i < |worlds| && worlds[i].room.anonymous && record in worlds[i].rows && ByMember(record)
    requires ProjectOne(worlds[i].room, worlds[i].rows, viewer, record).Some?
    ensures var m := ProjectOne(worlds[i].room, worlds[i].rows, viewer, record).value;
      exists s :: s in worlds[i].room.seats && s.identity == record.author.identity && s.alias.Some?
        && m.author == Author(s.participant, s.alias.value, record.author.role)
  {
    RunKeepsMasked(worlds, events, i);
    ShownContent(worlds[i].room, worlds[i].rows, viewer, record);
    var s :| s in worlds[i].room.seats && IsAliasOf(record, s);
  }

  /** Over every run: an ordinary message of a member is read by every reader of the room. */
  lemma OrdinaryIsAlwaysRead(worlds: seq<World>, events: seq<Event>, i: nat, viewer: Cid, record: Row)
    requires Run(worlds, events) && i < |worlds| && record in worlds[i].rows && ByMember(record) && !Declared(record)
    requires worlds[i].room.anonymous || record.alias.None?
    ensures ProjectOne(worlds[i].room, worlds[i].rows, viewer, record).Some?
  {
    RunKeepsInv(worlds, events, i);
    RunKeepsMasked(worlds, events, i);
    assert Settled(worlds[i].rows, View(worlds[i].room), record);
    OrdinaryIsRead(worlds[i].room, worlds[i].rows, viewer, record);
  }
}
