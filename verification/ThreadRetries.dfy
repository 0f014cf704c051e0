/**
 Requests to start a thread: who gets which answer, and what happens to retries. Over whole runs a creator
 has at most one root per idempotency key, so the error for duplicate roots is never thrown, and a retry
 finds the thread it started.
 */
module ThreadRetries {
  import opened Prelude
  import opened Rooms
  import opened ReplyThreading
  import opened Threads
  import opened ThreadRouting
  import opened ThreadRuns

  predicate ActiveAs(room: Room, cid: Cid, s: Seat) {
    s in room.seats && s.state == ActiveSeat && s.identity == cid
  }

  /** All selected participants are active now, each is named once, and the caller is one of them. */
  ghost predicate GoodSelection(room: Room, cid: Cid, selected: seq<Ulid>) {
    && Distinct(selected)
    && (exists s :: ActiveAs(room, cid, s) && s.participant in selected)
    && forall p :: p in selected ==> exists s :: s in room.seats && s.state == ActiveSeat && s.participant == p
  }

  ghost predicate AskedBefore(rows: seq<Row>, cid: Cid, key: string) {
    exists r :: r in rows && r.Message? && r.threadRoot.Some? && r.author.identity == cid && r.threadRoot.value.idempotencyKey == key
  }

  /**
   A thread is started exactly for an active, granted member of an open room that asks for the first time
   under its key, with a good selection, and with an announcement that fits.
   */
  lemma StartsExactlyWhen(room: Room, rows: seq<Row>, cid: Cid, granted: bool, fits: bool, input: StartThreadInput, digest: string,
                          id: Ulid, at: Time, pos: nat)
    requires SeatsValid(room)
    ensures DecideStartThread(room, rows, cid, granted, fits, input, digest, id, at, pos).Started? <==>
      && room.state == Active && !room.lifecyclePending && granted && fits
      && !AskedBefore(rows, cid, input.idempotencyKey) && GoodSelection(room, cid, input.participants)
  {
    NotAskedBefore(rows, cid, input.idempotencyKey);
    SelectionIsGood(room, cid, input);
  }

  lemma NotAskedBefore(rows: seq<Row>, cid: Cid, key: string)
    ensures PriorRoots(rows, cid, key) == [] <==> !AskedBefore(rows, cid, key)
  {
    if PriorRoots(rows, cid, key) != [] {
      assert PriorRoots(rows, cid, key)[0] in PriorRoots(rows, cid, key);
    }
  }

  lemma {:induction false} UniqueKeepsDistinct(cids: seq<Cid>)
    ensures |Unique(cids)| <= |cids| && (|Unique(cids)| == |cids| <==> Distinct(cids))
    ensures Distinct(cids) ==> Unique(cids) == cids
  {
    if cids != [] {
      var init, last := cids[..|cids| - 1], cids[|cids| - 1];
      assert cids == init + [last];
      UniqueKeepsDistinct(init);
      if Distinct(cids) {
        assert Distinct(init);
        forall j | 0 <= j < |init| ensures init[j] != last { assert cids[j] != cids[|init|]; }
      } else if Distinct(init) {
        assert last in init;
      }
    }
  }

  lemma SelectionIsGood(room: Room, cid: Cid, input: StartThreadInput)
    requires SeatsValid(room)
    ensures SelectThreadMembers(room, cid, input).Some? <==> GoodSelection(room, cid, input.participants)
  {
    var creator := ActiveSeatOf(room, cid);
    UniqueKeepsDistinct(input.participants);
    MembersCoverSelection(room, input.participants);
    if creator.Some? { OneActiveSeat(room, cid, creator.value); }
  }

  lemma OneActiveSeat(room: Room, cid: Cid, s: Seat)
    requires SeatsValid(room) && ActiveAs(room, cid, s)
    ensures forall t :: ActiveAs(room, cid, t) ==> t == s
  {
    forall t | ActiveAs(room, cid, t) ensures t == s {
      var i :| 0 <= i < |room.seats| && room.seats[i] == s;
      var j :| 0 <= j < |room.seats| && room.seats[j] == t;
      assert i == j;
    }
  }

  /** As many members as selected IDs: every selected participant is active. */
  lemma {:induction false} MembersCoverSelection(room: Room, selected: seq<Ulid>)
    requires SeatsValid(room)
    ensures Distinct(selected) ==>
      (|SelectedMembers(room.seats, selected)| == |selected| <==>
       forall p :: p in selected ==> exists s :: s in room.seats && s.state == ActiveSeat && s.participant == p)
  {
    var members := SelectedMembers(room.seats, selected);
    SelectedMembersValid(room.seats, selected);
    var ids := seq(|members|, i requires 0 <= i < |members| => members[i].participant);
    if Distinct(selected) {
      forall i, j | 0 <= i < j < |ids| ensures ids[i] != ids[j] { assert members[i].participant != members[j].participant; }
      forall p | p in ids ensures p in selected {
        var i :| 0 <= i < |ids| && ids[i] == p;
        assert members[i] in members;
      }
      DistinctFits(ids, selected);
      if forall p :: p in selected ==> exists s :: s in room.seats && s.state == ActiveSeat && s.participant == p {
        forall p | p in selected ensures p in ids {
          var s :| s in room.seats && s.state == ActiveSeat && s.participant == p;
          assert Member(s.participant, s.identity) in members;
          var i :| 0 <= i < |members| && members[i] == Member(s.participant, s.identity);
          assert ids[i] == p;
        }
        DistinctFits(selected, ids);
      } else {
        var p :| p in selected && !exists s :: s in room.seats && s.state == ActiveSeat && s.participant == p;
        forall i | 0 <= i < |members| ensures members[i].participant != p { assert members[i] in members; }
        NotCovered(ids, selected, p);
      }
    }
  }

  lemma NotCovered(ids: seq<Ulid>, selected: seq<Ulid>, p: Ulid)
    requires Distinct(ids) && Distinct(selected) && p in selected && p !in ids && forall x :: x in ids ==> x in selected
    ensures |ids| < |selected|
  {
    var more := ids + [p];
    forall i, j | 0 <= i < j < |more| ensures more[i] != more[j] { if j == |ids| { assert more[i] in ids; } }
    DistinctFits(more, selected);
  }

  /** The root says what was asked for, by whom, and lists exactly the selected members; it goes to all of them. */
  lemma StartedRootIsTheRequest(room: Room, rows: seq<Row>, cid: Cid, granted: bool, fits: bool, input: StartThreadInput, digest: string,
                                id: Ulid, at: Time, pos: nat)
    requires SeatsValid(room) && DecideStartThread(room, rows, cid, granted, fits, input, digest, id, at, pos).Started?
    ensures var row := DecideStartThread(room, rows, cid, granted, fits, input, digest, id, at, pos).row;
      && row.Message? && row.id == id && row.at == at && row.pos == pos && row.room == room.id
      && row.text == "Thread: " + input.topic && row.category == Chat && row.scope == Some(Scope(id, None)) && row.threadRoot.Some?
      && var root := row.threadRoot.value;
        && root.threadId == id && root.topic == input.topic && root.idempotencyKey == input.idempotencyKey && root.fingerprint == digest
        && (forall m :: m in root.members <==>
             exists s :: s in room.seats && s.state == ActiveSeat && s.participant in input.participants && m == Member(s.participant, s.identity))
        && (forall c :: c in row.recipients <==> exists m :: m in root.members && m.identity == c)
        && exists s :: ActiveAs(room, cid, s) && root.creator == s.participant && IsAuthor(room, row, s)
  {
    var row := DecideStartThread(room, rows, cid, granted, fits, input, digest, id, at, pos).row;
    var root, s := row.threadRoot.value, ActiveSeatOf(room, cid).value;
    assert ActiveAs(room, cid, s) && IsAuthor(room, row, s);
    forall c | c in row.recipients ensures exists m :: m in root.members && m.identity == c {
      var i :| 0 <= i < |root.members| && root.members[i].identity == c;
      assert root.members[i] in root.members;
    }
    forall m | m in root.members ensures m.identity in row.recipients {
      var i :| 0 <= i < |root.members| && root.members[i] == m;
      assert row.recipients[i] == m.identity;
    }
  }

  predicate IsAuthor(room: Room, row: Row, s: Seat)
    requires row.Message?
  {
    && row.author == Author(s.identity, s.displayName, s.role)
    && row.alias == if room.anonymous && s.alias.Some? then Some(AuthorAlias(s.participant, s.alias.value)) else None
  }

  /** No creator has two roots under one key. */
  ghost predicate OneRootEach(rows: seq<Row>) {
    forall cid, key :: |PriorRoots(rows, cid, key)| <= 1
  }

  lemma PriorRootsGrow(rows: seq<Row>, r: Row, cid: Cid, key: string)
    ensures PriorRoots(rows + [r], cid, key) == PriorRoots(rows, cid, key) + if IsRootOf(r, cid, key) then [r] else []
  {
    assert (rows + [r])[..|rows|] == rows;
  }

  lemma FoundRootIsPrior(rows: seq<Row>, r: Row, cid: Cid, key: string)
    requires r in rows && IsRootOf(r, cid, key)
    ensures r in PriorRoots(rows, cid, key)
  {
  }

  /** A new root is the first one of its creator under its key; no other row is a root at all. */
  ghost predicate FirstOfItsKind(rows: seq<Row>, r: Row) {
    r.Message? && r.threadRoot.Some? ==> PriorRoots(rows, r.author.identity, r.threadRoot.value.idempotencyKey) == []
  }

  lemma AppendKeepsOneRoot(rows: seq<Row>, r: Row)
    requires OneRootEach(rows) && FirstOfItsKind(rows, r)
    ensures OneRootEach(rows + [r])
  {
    forall cid, key ensures |PriorRoots(rows + [r], cid, key)| <= 1 { PriorRootsGrow(rows, r, cid, key); }
  }

  lemma StartedIsFirst(room: Room, rows: seq<Row>, cid: Cid, granted: bool, fits: bool, input: StartThreadInput, digest: string,
                       id: Ulid, at: Time, pos: nat)
    requires DecideStartThread(room, rows, cid, granted, fits, input, digest, id, at, pos).Started?
    ensures var row := DecideStartThread(room, rows, cid, granted, fits, input, digest, id, at, pos).row;
      && FirstOfItsKind(rows, row) && IsRootOf(row, cid, input.idempotencyKey)
      && row.id == id && row.threadRoot.value.fingerprint == digest
      && ActiveSeatOf(room, cid).Some? && row.threadRoot.value.creator == ActiveSeatOf(room, cid).value.participant
  {
  }

  lemma StepAppendsFirst(w: World, w': World, e: Event)
    requires Step(w, w', e)
    ensures w'.rows == w.rows || exists r :: w'.rows == w.rows + [r] && FirstOfItsKind(w.rows, r)
  {
    match e
    case Start(cid, granted, fits, input, digest, id, at) =>
      var decision := DecideStartThread(w.room, w.rows, cid, granted, fits, input, digest, id, at, w.next);
      if decision.Started? {
        StartedIsFirst(w.room, w.rows, cid, granted, fits, input, digest, id, at, w.next);
        assert w'.rows == w.rows + [decision.row];
      }
    case Intake(item, id) =>
      var decision := DecideIntake(w.room, w.rows, item, id, w.next);
      if decision.Appended? { assert w'.rows == w.rows + [decision.row] && FirstOfItsKind(w.rows, decision.row); }
    case RelayOne(intent, outcome) => RelayAppendsNoRoot(w, w', intent, outcome);
    case Post(row) => assert w'.rows == w.rows + [row] && FirstOfItsKind(w.rows, row);
    case RecordIntent(subject, recipient) =>
      assert w'.rows == w.rows + [Intent(w.room.id, w.next, subject, recipient)];
    case _ =>
  }

  lemma RelayAppendsNoRoot(w: World, w': World, intent: Row, outcome: Outcome)
    requires intent.Intent? && Relays(w, w', intent, outcome)
    ensures w'.rows == w.rows || exists r :: w'.rows == w.rows + [r] && FirstOfItsKind(w.rows, r)
  {
    RelayShape(w, w', intent, outcome);
    if w'.rows != w.rows {
      var r := w'.rows[|w.rows|];
      assert w'.rows == w.rows + [r] && r.Result?;
    }
  }

  lemma {:induction false} RunKeepsOneRoot(worlds: seq<World>, events: seq<Event>, i: nat)
    requires Run(worlds, events) && i < |worlds|
    ensures OneRootEach(worlds[i].rows)
    decreases i
  {
    if i == 0 {
      EmptyHasNoRoot(worlds[0].rows);
    } else {
      RunKeepsOneRoot(worlds, events, i - 1);
      NextKeepsOneRoot(worlds, events, i - 1);
    }
  }

  lemma EmptyHasNoRoot(rows: seq<Row>)
    requires rows == []
    ensures OneRootEach(rows)
  {
  }

  lemma NextKeepsOneRoot(worlds: seq<World>, events: seq<Event>, i: nat)
    requires Run(worlds, events) && i < |events| && OneRootEach(worlds[i].rows)
    ensures OneRootEach(worlds[i + 1].rows)
  {
    StepKeepsOneRoot(worlds[i], worlds[i + 1], events[i]);
  }

  lemma StepKeepsOneRoot(w: World, w': World, e: Event)
    requires OneRootEach(w.rows) && Step(w, w', e)
    ensures OneRootEach(w'.rows)
  {
    StepAppendsFirst(w, w', e);
    if w'.rows != w.rows {
      var r :| w'.rows == w.rows + [r] && FirstOfItsKind(w.rows, r);
      AppendKeepsOneRoot(w.rows, r);
    }
  }

  /** The error for duplicate roots is unreachable. */
  lemma NeverDuplicateRoots(worlds: seq<World>, events: seq<Event>, i: nat, cid: Cid, granted: bool, fits: bool, input: StartThreadInput,
                            digest: string, id: Ulid, at: Time)
    requires Run(worlds, events) && i < |worlds|
    ensures !DecideStartThread(worlds[i].room, worlds[i].rows, cid, granted, fits, input, digest, id, at, worlds[i].next).DuplicateRoots?
  {
    RunKeepsOneRoot(worlds, events, i);
    assert |PriorRoots(worlds[i].rows, cid, input.idempotencyKey)| <= 1;
  }

  /**
   Whatever happened since a thread was started, a later request of its creator under the same key starts
   none: the creator in the seat it had gets the same thread for the same request and a conflict for
   another one, and in a new seat is refused.
   */
  lemma RetryFindsItsThread(worlds: seq<World>, events: seq<Event>, i: nat, j: nat, cid: Cid, granted: bool, fits: bool,
                            input: StartThreadInput, digest: string, id: Ulid, at: Time,
                            again: StartThreadInput, digest': string, fits': bool, id': Ulid, at': Time)
    requires Run(worlds, events) && i < j < |worlds|
    requires events[i] == Start(cid, granted, fits, input, digest, id, at)
    requires DecideStartThread(worlds[i].room, worlds[i].rows, cid, granted, fits, input, digest, id, at, worlds[i].next).Started?
    requires again.idempotencyKey == input.idempotencyKey
    requires worlds[j].room.state.Active? && !worlds[j].room.lifecyclePending && ActiveSeatOf(worlds[j].room, cid).Some?
    ensures DecideStartThread(worlds[j].room, worlds[j].rows, cid, true, fits', again, digest', id', at', worlds[j].next) ==
      if ActiveSeatOf(worlds[j].room, cid).value.participant != ActiveSeatOf(worlds[i].room, cid).value.participant then Unauthorized
      else if digest' != digest then IdempotencyConflict
      else Accepted(id)
  {
    var row := DecideStartThread(worlds[i].room, worlds[i].rows, cid, granted, fits, input, digest, id, at, worlds[i].next).row;
    StartedIsFirst(worlds[i].room, worlds[i].rows, cid, granted, fits, input, digest, id, at, worlds[i].next);
    RootStays(worlds, events, i, j, row);
    FoundRootIsPrior(worlds[j].rows, row, cid, input.idempotencyKey);
    RunKeepsOneRoot(worlds, events, j);
    assert |PriorRoots(worlds[j].rows, cid, input.idempotencyKey)| <= 1;
    OnePriorDecides(worlds[j].room, worlds[j].rows, cid, fits', again, digest', id', at', worlds[j].next, row);
  }

  lemma OnePriorDecides(room: Room, rows: seq<Row>, cid: Cid, fits: bool, input: StartThreadInput, digest: string,
                        id: Ulid, at: Time, pos: nat, row: Row)
    requires room.state.Active? && !room.lifecyclePending && ActiveSeatOf(room, cid).Some?
    requires row in PriorRoots(rows, cid, input.idempotencyKey) && |PriorRoots(rows, cid, input.idempotencyKey)| == 1
    requires row.Message? && row.threadRoot.Some?
    ensures DecideStartThread(room, rows, cid, true, fits, input, digest, id, at, pos) ==
      if ActiveSeatOf(room, cid).value.participant != row.threadRoot.value.creator then Unauthorized
      else if digest != row.threadRoot.value.fingerprint then IdempotencyConflict
      else Accepted(row.id)
  {
  }

  lemma RootStays(worlds: seq<World>, events: seq<Event>, i: nat, j: nat, row: Row)
    requires Run(worlds, events) && i < j < |worlds| && events[i].Start?
    requires Step(worlds[i], worlds[i + 1], events[i]) ==> row in worlds[i + 1].rows
    ensures row in worlds[j].rows
  {
    RunGrows(worlds, events, i + 1, j);
  }
}
