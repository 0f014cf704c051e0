/**
 Where a row may go: the scope intake gives an incoming message, the root a member may start, and
 what the relay does with one recorded intent.
 */
module ThreadRouting {
  import opened Prelude
  import opened Rooms
  import opened ReplyThreading
  import opened Threads
  import opened ThreadAncestry

  /** The seat rules every stored room obeys. */
  ghost predicate SeatsValid(room: Room) {
    && OneSeatPerCid(room.seats) && DistinctParticipants(room.seats)
    && (forall s :: s in room.seats ==>
        if room.anonymous then s.alias.Some? && s.alias.value != "" else s.alias.None?)
  }

  // ----- Intake --------------------------------------------------------------------------------

  datatype InboxItem = InboxItem(isFile: bool, sourceId: nat, sender: Cid, body: string, date: Time, wire: Wire, reply: Option<Reply>)

  datatype Disposition = Disposition(recipients: seq<Cid>, scope: Option<Scope>)

  datatype Intake = Ignored | Rejected(failure: Failure) | Appended(row: Row)

  function ActiveSeatOf(room: Room, cid: Cid): (r: Option<Seat>)
    ensures r.Some? ==> r.value in room.seats && r.value.state.ActiveSeat? && r.value.identity == cid
    ensures r.None? ==> forall s :: s in room.seats ==> !(s.state.ActiveSeat? && s.identity == cid)
  {
    FindSeat(room.seats, (s: Seat) => s.state.ActiveSeat? && s.identity == cid)
  }

  /** `[...new Set(...)]`: the first occurrence of each value, in order. */
  function Unique(cids: seq<Cid>): (r: seq<Cid>)
    ensures Distinct(r) && forall c :: c in r <==> c in cids
  {
    if cids == [] then [] else
      var init, last := cids[..|cids| - 1], cids[|cids| - 1];
      assert cids == init + [last];
      var rest := Unique(init);
      if last in rest then rest else rest + [last]
  }

  function ActiveCids(seats: seq<Seat>, except: Cid): (r: seq<Cid>)
    ensures forall c :: c in r <==> exists s :: s in seats && s.state.ActiveSeat? && s.identity == c && c != except
  {
    if seats == [] then [] else
      var init, last := seats[..|seats| - 1], seats[|seats| - 1];
      assert seats == init + [last];
      var rest := ActiveCids(init, except);
      if last.state.ActiveSeat? && last.identity != except then rest + [last.identity] else rest
  }

  function ThreadRecipients(room: Room, root: ThreadRoot, members: seq<Member>, sender: Cid): (r: seq<Cid>)
    ensures forall c :: c in r ==> c != sender && ActiveThreadSeat(room, root, c)
    ensures forall c :: c in r <==> exists m :: m in members && m.identity == c && c != sender && ActiveThreadSeat(room, root, c)
  {
    if members == [] then [] else
      var init, last := members[..|members| - 1], members[|members| - 1];
      assert members == init + [last];
      var rest := ThreadRecipients(room, root, init, sender);
      if last.identity != sender && ActiveThreadSeat(room, root, last.identity) then rest + [last.identity] else rest
  }

  function ResolveIntakeScope(room: Room, rows: seq<Row>, item: InboxItem, before: nat): (r: Try<Disposition>)
    ensures r.Ok? && item.reply.Some? ==> ActiveSeatOf(room, item.sender).Some?
  {
    var ordinary := Disposition(Unique(ActiveCids(room.seats, item.sender)), None);
    if item.reply.None? then Ok(ordinary)
    else
      var reply := item.reply.value;
      if reply.wire == "" || |reply.wire| > 256 || reply.sentence == Some(0)
         || !room.state.Active? || room.lifecyclePending || ActiveSeatOf(room, item.sender).None? then Err(ReplyTargetUnavailable)
      else
        match ResolveReplyParent(rows, room.id, item.sender, Some(reply.wire), before)
        case Resolved(key, parent) =>
          (match Classify(rows, View(room), parent)
           case Err(f) => Err(f)
           case Ok(Ordinary) => Ok(ordinary)
           case Ok(Scoped(root, scope)) =>
             if !root.Message? || root.threadRoot.None? || !ActiveThreadSeat(room, root.threadRoot.value, item.sender)
             then Err(ReplyTargetUnavailable)
             else if item.isFile then Err(ThreadFilesUnsupported)
             else Ok(Disposition(ThreadRecipients(room, root.threadRoot.value, root.threadRoot.value.members, item.sender),
                                 Some(Scope(root.id, Some(key))))))
        case _ => Err(ReplyTargetUnavailable)
  }

  function IntakeRow(room: Room, seat: Seat, item: InboxItem, to: Disposition, id: Ulid, pos: nat): Row {
    var author := Author(seat.identity, seat.displayName, seat.role);
    var alias := if room.anonymous && seat.alias.Some? then Some(AuthorAlias(seat.participant, seat.alias.value)) else None;
    var wire := if item.wire == "" then None else Some(item.wire);
    if item.isFile then File(room.id, pos, id, item.date, author, alias, item.body, to.recipients, item.sourceId, wire, item.reply)
    else Message(room.id, pos, id, item.date, author, alias, Chat, item.body, to.recipients,
                 Some(item.sourceId), wire, item.reply, to.scope, None)
  }

  /** `processInboxItem` and `processFileInboxItem` for a source not seen before. */
  function DecideIntake(room: Room, rows: seq<Row>, item: InboxItem, id: Ulid, pos: nat): Intake {
    var seat := ActiveSeatOf(room, item.sender);
    var known := exists s :: s in room.seats && s.identity == item.sender;
    if !known || (item.reply.None? && (!room.state.Active? || seat.None?)) then Ignored
    else
      match ResolveIntakeScope(room, rows, item, pos)
      case Err(f) => Rejected(f)
      case Ok(to) => Appended(IntakeRow(room, seat.value, item, to, id, pos))
  }

  lemma {:induction false} FindMemberUnique(members: seq<Member>, m: Member)
    requires m in members && DistinctMembers(members)
    ensures FindMember(members, m.identity) == Some(m)
  {
    var found := FindMember(members, m.identity).value;
    var i :| 0 <= i < |members| && members[i] == m;
    var j :| 0 <= j < |members| && members[j] == found;
    assert i == j;
  }

  /** A thread member's own row passes the author check of its thread, aliased or not. */
  lemma MemberMayAuthor(room: Room, root: ThreadRoot, cid: Cid, row: Row)
    requires SeatsValid(room) && ValidRoot(root) && ActiveThreadSeat(room, root, cid) && ActiveSeatOf(room, cid).Some?
    requires var seat := ActiveSeatOf(room, cid).value;
      && row.Message? && row.author.identity == cid
      && row.alias == if room.anonymous then Some(AuthorAlias(seat.participant, seat.alias.value)) else None
    ensures PublicThreadAuthor(row, root, View(room)).Ok?
  {
    var seat := ActiveSeatOf(room, cid).value;
    var other :| other in room.seats && other.state.ActiveSeat? && other.identity == cid && Member(other.participant, cid) in root.members;
    var i :| 0 <= i < |room.seats| && room.seats[i] == seat;
    var j :| 0 <= j < |room.seats| && room.seats[j] == other;
    assert i == j;
    FindMemberUnique(root.members, Member(seat.participant, cid));
  }

  lemma CountOne(rows: seq<Row>, r: Row, view: RoomView)
    requires Fresh(rows, r) && r.Message? && r.room == view.id
    ensures CountMessages(rows + [r], view, r.id) == 1
  {
    var p := (x: Row) => x.room == view.id && x.Message? && x.id == r.id;
    forall x | x in rows ensures !p(x) {
      assert !MentionsKey(x, r.KeyOf());
    }
    FilterAppend(rows, r, p, p);
    FilterNone(rows, p);
  }

  /** The chain of a fresh reply is the reply followed by its parent's chain. */
  lemma {:induction false} ReplyChain(rows: seq<Row>, r: Row, view: RoomView, parent: Row)
    requires r.IsItem() && Fresh(rows, r) && r.room == view.id && parent.IsItem()
    requires Parent(rows, view, r) == Resolved(parent.KeyOf(), parent)
    requires Ancestry(rows, view, parent, {}, 0).Ok? && Firm(Ancestry(rows, view, parent, {}, 0).value)
    ensures Ancestry(rows + [r], view, r, {}, 0)
      == Ok([Link(r, Resolved(parent.KeyOf(), parent))] + Ancestry(rows, view, parent, {}, 0).value)
  {
    var chain := Ancestry(rows, view, parent, {}, 0).value;
    ResolvedStable(rows, view.id, r, r.author.identity, ReplyWire(r), r.pos);
    AncestryShape(rows, view, parent, {}, 0);
    AncestryInRows(rows, view, parent, {}, 0);
    forall l | l in chain ensures l.item.KeyOf() !in {r.KeyOf()} && Parent(rows + [r], view, l.item) == l.resolved {
      assert MentionsKey(l.item, l.item.KeyOf());
      ParentStable(rows, r, view, l.item);
    }
    AncestryTransfers(rows, rows + [r], view, parent, {}, {r.KeyOf()}, 0, 1);
    assert {} + {r.KeyOf()} == {r.KeyOf()};
  }

  /**
   Intake and relay agree: a reply archived with the scope intake chose is classified as scoped with
   the same root and parent key, in that archive and in every fresh extension of it.
   */
  lemma IntakeScopeIsRelayScope(room: Room, rows: seq<Row>, item: InboxItem, id: Ulid, pos: nat, more: seq<Row>)
    requires SeatsValid(room)
    requires DecideIntake(room, rows, item, id, pos).Appended?
    requires var row := DecideIntake(room, rows, item, id, pos).row;
      Fresh(rows, row) && row.Message? && row.scope.Some? && ValidExtension(rows + [row], more)
    ensures var row := DecideIntake(room, rows, item, id, pos).row;
      var key := row.scope.value.parent;
      var verdict := Classify(rows + [row] + more, View(room), row);
      && verdict.Ok? && verdict.value.Scoped? && verdict.value.scope == row.scope.value
      && verdict.value.root.Message? && verdict.value.root.id == row.scope.value.threadId
      && key.Some? && ResolveReplyParent(rows, room.id, item.sender, Some(item.reply.value.wire), pos).Resolved?
      && ResolveReplyParent(rows, room.id, item.sender, Some(item.reply.value.wire), pos).key == key.value
  {
    var row := DecideIntake(room, rows, item, id, pos).row;
    IntakeScopeAgreesNow(room, rows, item, id, pos);
    ScopedForever(rows + [row], more, View(room), row);
  }

  lemma {:induction false} IntakeScopeAgreesNow(room: Room, rows: seq<Row>, item: InboxItem, id: Ulid, pos: nat)
    requires SeatsValid(room)
    requires DecideIntake(room, rows, item, id, pos).Appended?
    requires var row := DecideIntake(room, rows, item, id, pos).row;
      Fresh(rows, row) && row.Message? && row.scope.Some?
    ensures var row := DecideIntake(room, rows, item, id, pos).row;
      var reference := ResolveReplyParent(rows, room.id, item.sender, Some(item.reply.value.wire), pos);
      && reference.Resolved? && row.scope.value.parent == Some(reference.key)
      && Classify(rows, View(room), reference.item).Ok? && Classify(rows, View(room), reference.item).value.Scoped?
      && Classify(rows, View(room), reference.item).value.root.Message?
      && Classify(rows, View(room), reference.item).value.root.id == row.scope.value.threadId
      && Classify(rows + [row], View(room), row) == Ok(Scoped(Classify(rows, View(room), reference.item).value.root, row.scope.value))
      && Firm(Ancestry(rows + [row], View(room), row, {}, 0).value)
  {
    ScopedIntake(room, rows, item, id, pos);
    var row, view := DecideIntake(room, rows, item, id, pos).row, View(room);
    var parent := ResolveReplyParent(rows, room.id, item.sender, Some(item.reply.value.wire), pos).item;
    var a := Classify(rows, view, parent).value;
    ScopedReplyAgrees(room, rows, row, parent, a);
  }

  /** What intake made sure of before it gave a reply a scope. */
  lemma ScopedIntake(room: Room, rows: seq<Row>, item: InboxItem, id: Ulid, pos: nat)
    requires DecideIntake(room, rows, item, id, pos).Appended?
    requires var row := DecideIntake(room, rows, item, id, pos).row; row.Message? && row.scope.Some?
    ensures var row, seat := DecideIntake(room, rows, item, id, pos).row, ActiveSeatOf(room, item.sender);
      && item.reply.Some? && seat.Some? && row.room == room.id && row.pos == pos && row.category.Chat? && row.threadRoot.None?
      && row.author.identity == item.sender && row.reply == item.reply
      && row.alias == (if room.anonymous && seat.value.alias.Some? then Some(AuthorAlias(seat.value.participant, seat.value.alias.value)) else None)
      && var reference := ResolveReplyParent(rows, room.id, item.sender, Some(item.reply.value.wire), pos);
        && reference.Resolved? && Classify(rows, View(room), reference.item).Ok?
        && var a := Classify(rows, View(room), reference.item).value;
          && a.Scoped? && a.root.Message? && a.root.threadRoot.Some? && ActiveThreadSeat(room, a.root.threadRoot.value, item.sender)
          && row.scope == Some(Scope(a.root.id, Some(reference.key)))
  {
  }

  /** A fresh reply scoped like its parent, by an active member of the parent's thread, is classified as scoped. */
  lemma {:induction false} ScopedReplyAgrees(room: Room, rows: seq<Row>, row: Row, parent: Row, a: Association)
    requires SeatsValid(room) && Fresh(rows, row) && row.Message? && row.room == room.id && row.category.Chat? && row.threadRoot.None?
    requires row.reply.Some? && parent.IsItem() && parent in rows && Parent(rows, View(room), row) == Resolved(parent.KeyOf(), parent)
    requires Classify(rows, View(room), parent) == Ok(a) && a.Scoped? && a.root.Message? && a.root.threadRoot.Some?
    requires row.scope == Some(Scope(a.root.id, Some(parent.KeyOf()))) && ActiveSeatOf(room, row.author.identity).Some?
    requires ActiveThreadSeat(room, a.root.threadRoot.value, row.author.identity)
    requires var seat := ActiveSeatOf(room, row.author.identity).value;
      row.alias == if room.anonymous && seat.alias.Some? then Some(AuthorAlias(seat.participant, seat.alias.value)) else None
    ensures Classify(rows + [row], View(room), row) == Ok(Scoped(a.root, row.scope.value))
    ensures Ancestry(rows + [row], View(room), row, {}, 0).Ok? && Firm(Ancestry(rows + [row], View(room), row, {}, 0).value)
  {
    var view := View(room);
    var link := Link(row, Resolved(parent.KeyOf(), parent));
    ReplyContinuesChain(rows, row, view, parent, link);
    ScopedVerdictHasRoot(rows, view, parent);
    AdvanceReply(room, rows, row, link, a);
  }

  /** A fresh reply to a scoped row is judged by one more link on top of its parent's verdict. */
  lemma {:induction false} ReplyContinuesChain(rows: seq<Row>, row: Row, view: RoomView, parent: Row, link: Link)
    requires row.IsItem() && Fresh(rows, row) && ThreadFieldsValid(row) && row.room == view.id && parent.IsItem() && parent in rows
    requires link == Link(row, Resolved(parent.KeyOf(), parent)) && Parent(rows, view, row) == link.resolved
    requires Classify(rows, view, parent).Ok? && Classify(rows, view, parent).value.Scoped?
    ensures Ancestry(rows + [row], view, row, {}, 0).Ok? && Firm(Ancestry(rows + [row], view, row, {}, 0).value)
    ensures Classify(rows + [row], view, row) == Advance(rows + [row], view, link, Classify(rows, view, parent).value)
  {
    var chain := Ancestry(rows, view, parent, {}, 0).value;
    ScopedIsFirm(rows, view, parent);
    ReplyChain(rows, row, view, parent);
    AncestryShape(rows, view, parent, {}, 0);
    AssociateStable(rows, row, view, chain);
    assert ([link] + chain)[1..] == chain;
  }

  lemma ScopedVerdictHasRoot(rows: seq<Row>, view: RoomView, item: Row)
    requires item.IsItem() && item in rows
    requires Classify(rows, view, item).Ok? && Classify(rows, view, item).value.Scoped?
    ensures var a := Classify(rows, view, item).value;
      && FindThreadRoot(rows, view, a.root.id) == Ok(a.root) && WellFormedRoot(a.root, a.root.id)
      && PublicThreadMetadata(a.root, view).Ok? && InThread(item, a.root.id)
  {
    var chain := Ancestry(rows, view, item, {}, 0).value;
    AncestryIsLinked(rows, view, item, {}, 0);
    AncestryInRows(rows, view, item, {}, 0);
    AncestryShape(rows, view, item, {}, 0);
    ScopedChainReachesRoot(rows, view, chain);
    assert chain[0] in chain;
    RootIsPublic(rows, view, chain);
  }

  /** A scoped verdict was only given after its root's metadata could be shown. */
  lemma {:induction false} RootIsPublic(rows: seq<Row>, view: RoomView, chain: seq<Link>)
    requires chain != [] && chain[0].item.IsItem() && (forall l :: l in chain[1..] ==> l.item.IsItem())
    requires Associate(rows, view, chain).Ok? && Associate(rows, view, chain).value.Scoped?
    ensures var root := Associate(rows, view, chain).value.root;
      root.Message? && WellFormedRoot(root, root.id) && PublicThreadMetadata(root, view).Ok?
  {
  }

  lemma AdvanceReply(room: Room, rows: seq<Row>, row: Row, link: Link, older: Association)
    requires SeatsValid(room) && Fresh(rows, row) && row.Message? && row.room == room.id && row.category.Chat?
    requires ThreadFieldsValid(row) && row.threadRoot.None?
    requires older.Scoped? && older.root.Message? && FindThreadRoot(rows, View(room), older.root.id) == Ok(older.root)
    requires PublicThreadMetadata(older.root, View(room)).Ok?
    requires link.item == row && link.resolved.Resolved? && row.scope == Some(Scope(older.root.id, Some(link.resolved.key)))
    requires ActiveThreadSeat(room, older.root.threadRoot.value, row.author.identity) && ActiveSeatOf(room, row.author.identity).Some?
    requires var seat := ActiveSeatOf(room, row.author.identity).value;
      row.alias == if room.anonymous then Some(AuthorAlias(seat.participant, seat.alias.value)) else None
    ensures Advance(rows + [row], View(room), link, older) == Ok(Scoped(older.root, row.scope.value))
  {
    CountOne(rows, row, View(room));
    RootStable(rows, row, View(room), older.root.id);
    MemberMayAuthor(room, older.root.threadRoot.value, row.author.identity, row);
    assert MentionsKey(older.root, MessageKey(older.root.id));
  }

  // ----- Starting a thread -----------------------------------------------------------------------

  datatype StartThreadInput = StartThreadInput(topic: string, participants: seq<Ulid>, idempotencyKey: string)

  /** `DuplicateRoots` and `AliasMissing` are thrown errors, the others answers. */
  datatype StartThread =
    | RoomUnavailable | Unauthorized | BadMembers | IdempotencyConflict | InvalidRequest | DuplicateRoots | AliasMissing
    | Accepted(threadId: Ulid) | Started(row: Row)

  function SelectedMembers(seats: seq<Seat>, selected: seq<Ulid>): (r: seq<Member>)
    ensures forall m :: m in r <==>
      exists s :: s in seats && s.state.ActiveSeat? && s.participant in selected && m == Member(s.participant, s.identity)
  {
    if seats == [] then [] else
      var init, last := seats[..|seats| - 1], seats[|seats| - 1];
      assert seats == init + [last];
      var rest := SelectedMembers(init, selected);
      if last.state.ActiveSeat? && last.participant in selected then rest + [Member(last.participant, last.identity)] else rest
  }

  /** Exactly the requested participants, all of them active, the sender among them. */
  function SelectThreadMembers(room: Room, cid: Cid, input: StartThreadInput): Option<seq<Member>> {
    var creator := ActiveSeatOf(room, cid);
    if creator.None? || input.participants == [] || |Unique(input.participants)| != |input.participants|
       || creator.value.participant !in input.participants then None
    else
      var members := SelectedMembers(room.seats, input.participants);
      if |members| != |input.participants| then None else Some(members)
  }

  function PriorRoots(rows: seq<Row>, cid: Cid, idempotencyKey: string): (r: seq<Row>)
    ensures forall i :: 0 <= i < |r| ==> r[i] in rows && r[i].Message? && r[i].threadRoot.Some?
  {
    var r := Filter(rows, (x: Row) => IsRootOf(x, cid, idempotencyKey));
    assert forall i :: 0 <= i < |r| ==> r[i] in r;
    r
  }

  /** A thread root this CID started under this key. */
  predicate IsRootOf(x: Row, cid: Cid, idempotencyKey: string) {
    x.Message? && x.threadRoot.Some? && x.author.identity == cid && x.threadRoot.value.idempotencyKey == idempotencyKey
  }

  function RootRow(room: Room, creator: Seat, members: seq<Member>, input: StartThreadInput, fingerprint: string,
                   id: Ulid, at: Time, pos: nat): Row
  {
    var alias := if room.anonymous && creator.alias.Some? then Some(AuthorAlias(creator.participant, creator.alias.value)) else None;
    Message(room.id, pos, id, at, Author(creator.identity, creator.displayName, creator.role), alias, Chat,
            "Thread: " + input.topic, seq(|members|, i requires 0 <= i < |members| => members[i].identity),
            None, None, None, Some(Scope(id, None)),
            Some(ThreadRoot(id, input.topic, creator.participant, members, input.idempotencyKey, fingerprint)))
  }

  /**
   `startThreadCommandUnlocked`; `granted` is the caller's command grant, `digest` its request digest, and
   `fits` whether the root's announcement is within the message size.
   */
  function DecideStartThread(room: Room, rows: seq<Row>, cid: Cid, granted: bool, fits: bool, input: StartThreadInput, digest: string,
                             id: Ulid, at: Time, pos: nat): StartThread {
    var creator := ActiveSeatOf(room, cid);
    if !room.state.Active? || room.lifecyclePending then RoomUnavailable
    else if creator.None? || !granted then Unauthorized
    else
      var prior := PriorRoots(rows, cid, input.idempotencyKey);
      if |prior| > 1 then DuplicateRoots
      else if |prior| == 1 then
        if prior[0].threadRoot.value.creator != creator.value.participant then Unauthorized
        else if prior[0].threadRoot.value.fingerprint != digest then IdempotencyConflict
        else Accepted(prior[0].id)
      else
        var members := SelectThreadMembers(room, cid, input);
        if members.None? then BadMembers
        else if room.anonymous && creator.value.alias.None? then AliasMissing
        else if !fits then InvalidRequest
        else Started(RootRow(room, creator.value, members.value, input, digest, id, at, pos))
  }

  lemma {:induction false} SelectedMembersValid(seats: seq<Seat>, selected: seq<Ulid>)
    requires OneSeatPerCid(seats) && DistinctParticipants(seats)
    ensures DistinctMembers(SelectedMembers(seats, selected))
  {
    if seats != [] {
      var init, last := seats[..|seats| - 1], seats[|seats| - 1];
      SelectedMembersValid(init, selected);
      var rest := SelectedMembers(init, selected);
      forall m | m in rest && last.state.ActiveSeat? ensures m.participant != last.participant && m.identity != last.identity {
        var s :| s in init && s.state.ActiveSeat? && s.participant in selected && m == Member(s.participant, s.identity);
        var k :| 0 <= k < |init| && init[k] == s;
        assert seats[k] == s;
      }
      var r := SelectedMembers(seats, selected);
      assert forall k :: 0 <= k < |rest| ==> rest[k] in rest && r[k] == rest[k];
    }
  }

  /** A started root is a well-formed root whose members are exactly the selected active participants. */
  lemma StartedRootIsWellFormed(room: Room, rows: seq<Row>, cid: Cid, input: StartThreadInput, digest: string, id: Ulid, at: Time, pos: nat)
    requires SeatsValid(room)
    requires DecideStartThread(room, rows, cid, true, true, input, digest, id, at, pos).Started?
    ensures var row := DecideStartThread(room, rows, cid, true, true, input, digest, id, at, pos).row;
      && row.Message? && WellFormedRoot(row, id) && row.author.identity == cid
      && (forall c :: c in row.recipients <==> ActiveThreadSeat(room, row.threadRoot.value, c))
      && (forall m :: m in row.threadRoot.value.members ==> m.participant in input.participants)
      && ActiveThreadSeat(room, row.threadRoot.value, cid)
      && PublicThreadMetadata(row, View(room)).Ok? && PublicThreadAuthor(row, row.threadRoot.value, View(room)).Ok?
  {
    StartedFromSelection(room, rows, cid, input, digest, id, at, pos);
    var row := DecideStartThread(room, rows, cid, true, true, input, digest, id, at, pos).row;
    var root := row.threadRoot.value;
    var creator := ActiveSeatOf(room, cid).value;
    SelectedMembersValid(room.seats, input.participants);
    assert Member(creator.participant, cid) in root.members;
    RecipientsAreActive(room, row);
    MemberMayAuthor(room, root, cid, row);
  }

  lemma StartedFromSelection(room: Room, rows: seq<Row>, cid: Cid, input: StartThreadInput, digest: string, id: Ulid, at: Time, pos: nat)
    requires DecideStartThread(room, rows, cid, true, true, input, digest, id, at, pos).Started?
    ensures var creator, members := ActiveSeatOf(room, cid), SelectedMembers(room.seats, input.participants);
      && creator.Some? && creator.value.participant in input.participants && members != []
      && DecideStartThread(room, rows, cid, true, true, input, digest, id, at, pos).row
         == RootRow(room, creator.value, members, input, digest, id, at, pos)
  {
  }

  /** A root's recipients are its members' CIDs; while every member is active, exactly the active thread seats. */
  lemma RecipientsAreActive(room: Room, row: Row)
    requires row.Message? && row.threadRoot.Some?
    requires var members := row.threadRoot.value.members;
      row.recipients == seq(|members|, i requires 0 <= i < |members| => members[i].identity)
    requires forall m :: m in row.threadRoot.value.members ==>
      exists s :: s in room.seats && s.state.ActiveSeat? && m == Member(s.participant, s.identity)
    ensures forall c :: c in row.recipients <==> ActiveThreadSeat(room, row.threadRoot.value, c)
  {
    var root := row.threadRoot.value;
    forall c | c in row.recipients ensures ActiveThreadSeat(room, root, c) {
      var i :| 0 <= i < |root.members| && root.members[i].identity == c;
      assert root.members[i] in root.members;
    }
    forall c | ActiveThreadSeat(room, root, c) ensures c in row.recipients {
      var s :| s in room.seats && s.state.ActiveSeat? && s.identity == c && Member(s.participant, c) in root.members;
      var i :| 0 <= i < |root.members| && root.members[i] == Member(s.participant, c);
      assert row.recipients[i] == c;
    }
  }

  // ----- Relay -----------------------------------------------------------------------------------

  datatype Relay =
    | Dangling
    | NotAddressed
    | Skip(status: Status)
    | Send(source: Row, thread: Option<Ulid>, replyTo: Option<Wire>)

  function FirstItem(rows: seq<Row>, key: Key): (r: Option<Row>)
    ensures r.Some? ==> r.value in rows && r.value.IsItem() && r.value.KeyOf() == key
    ensures r.None? ==> forall x :: x in rows && x.IsItem() ==> x.KeyOf() != key
  {
    if rows == [] then None
    else if rows[0].IsItem() && rows[0].KeyOf() == key then Some(rows[0])
    else FirstItem(rows[1..], key)
  }

  function ReplyTo(decision: ReplyDecision): Option<Wire> {
    if decision.Linked? then Some(decision.wire) else None
  }

  /** The rows the relay reads for one source: none at all when it neither replies nor declares a thread. */
  function RelayRows(rows: seq<Row>, source: Row): seq<Row>
    requires source.IsItem()
  {
    if source.reply.None? && !Declared(source) then [] else rows
  }

  /** One pending intent in `relayPendingUnlocked`, up to the network effect. */
  function DecideRelay(room: Room, rows: seq<Row>, intent: Row): Relay
    requires intent.Intent?
  {
    var found := FirstItem(rows, intent.subject);
    if found.None? then Dangling
    else
      var source, cid := found.value, intent.recipient;
      var seen := RelayRows(rows, source);
      var decision := SelectReply(seen, room.id, source, cid);
      match Classify(seen, View(room), source)
      case Err(f) => Skip(SkippedReplyUnavailable)
      case Ok(Ordinary) =>
        if cid !in source.recipients then NotAddressed
        else if ActiveSeatOf(room, cid).None? && exists s :: s in room.seats && s.state.RemovedSeat? && s.identity == cid
        then Skip(SkippedRemoved)
        else Send(source, None, ReplyTo(decision))
      case Ok(Scoped(root, scope)) =>
        if !source.Message? || cid !in source.recipients || source.pos >= intent.pos || !root.Message? || root.threadRoot.None?
           || FindMember(root.threadRoot.value.members, cid).None? then Skip(SkippedReplyUnavailable)
        else if !ActiveThreadSeat(room, root.threadRoot.value, cid) then Skip(SkippedRemoved)
        else if PublicThreadMetadata(root, View(room)).Err? || PublicThreadAuthor(source, root.threadRoot.value, View(room)).Err?
        then Skip(SkippedReplyUnavailable)
        else if source.id != root.id && !(decision.Linked? && decision.parentKey == scope.parent) then Skip(SkippedReplyUnavailable)
        else Send(source, Some(root.id), ReplyTo(decision))
  }

  /**
   Whatever the archive holds, a send of a row that carries a scope, a root or private ancestry goes
   only to a saved recipient that is a member of its thread's root and still active under the very
   participant ID the root selected, and it is sent as part of that thread.
   */
  lemma ScopedSendIsConfined(room: Room, rows: seq<Row>, intent: Row)
    requires intent.Intent? && DecideRelay(room, rows, intent).Send?
    requires var source := DecideRelay(room, rows, intent).source; source.IsItem() && !NothingPrivate(rows, View(room), source)
    ensures var source := DecideRelay(room, rows, intent).source;
      && source.Message? && intent.recipient in source.recipients
      && Classify(rows, View(room), source).Ok? && Classify(rows, View(room), source).value.Scoped?
      && var root := Classify(rows, View(room), source).value.root;
        && root.Message? && root.threadRoot.Some? && ActiveThreadSeat(room, root.threadRoot.value, intent.recipient)
        && DecideRelay(room, rows, intent).thread == Some(root.id)
  {
    var source := DecideRelay(room, rows, intent).source;
    if RelayRows(rows, source) == [] && rows != [] {
      NoReplyNothingPrivate(rows, View(room), source);
    } else {
      OrdinaryIffNothingPrivate(rows, View(room), source);
    }
  }

  lemma NoReplyNothingPrivate(rows: seq<Row>, view: RoomView, source: Row)
    requires source.IsItem() && source.reply.None? && !Declared(source)
    ensures NothingPrivate(rows, view, source)
  {
    forall n: nat | Ancestor(rows, view, source, n).Some? ensures !Declared(Ancestor(rows, view, source, n).value) {
      assert n == 0;
    }
  }

  /** What a link for `source` promises: the wire is the recipient's own name for its immediate parent. */
  ghost predicate LinksParentCopy(rows: seq<Row>, view: RoomView, source: Row, recipient: Cid, wire: Option<Wire>)
    requires source.IsItem()
  {
    var parent := Parent(rows, view, source);
    && source.Message? && source.scope.Some? && parent.Resolved? && source.scope.value.parent == Some(parent.key)
    && wire.Some?
    && forall before: nat :: source.pos <= before ==>
      var back := ResolveReplyParent(rows, view.id, recipient, wire, before);
      back.Resolved? && back.key == parent.key
  }

  lemma LinkedCopyNamesParent(rows: seq<Row>, view: RoomView, source: Row, recipient: Cid)
    requires source.Message? && source.scope.Some? && Parent(rows, view, source).Resolved?
    requires source.scope.value.parent == Some(Parent(rows, view, source).key)
    requires SelectReply(rows, view.id, source, recipient).Linked?
    ensures LinksParentCopy(rows, view, source, recipient, Some(SelectReply(rows, view.id, source, recipient).wire))
  {
    var parent := Parent(rows, view, source);
    var matches := ItemsKeyed(rows, view.id, parent.key);
    assert parent.item in matches && matches == [matches[0]];
    forall before: nat | source.pos <= before
      ensures ResolveReplyParent(rows, view.id, recipient, Some(SelectReply(rows, view.id, source, recipient).wire), before)
        == Resolved(parent.key, matches[0])
    {
      LinkedWireResolvesBack(rows, view.id, parent.key, parent.item, recipient, before);
    }
  }

  /** A descendant is linked to the recipient's own copy of its immediate parent, or not sent at all. */
  lemma ScopedReplyLinksParentCopy(room: Room, rows: seq<Row>, intent: Row)
    requires intent.Intent? && DecideRelay(room, rows, intent).Send?
    requires var send := DecideRelay(room, rows, intent);
      send.source.Message? && send.thread.Some? && send.thread != Some(send.source.id)
    ensures var send := DecideRelay(room, rows, intent);
      LinksParentCopy(rows, View(room), send.source, intent.recipient, send.replyTo)
  {
    var source := DecideRelay(room, rows, intent).source;
    if source.reply.Some? || Declared(source) {
      ScopedVerdictHasRoot(rows, View(room), source);
      LinkedCopyNamesParent(rows, View(room), source, intent.recipient);
    }
  }
}
