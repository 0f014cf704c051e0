/**
 The other half of confinement: what the relay and the history must give to a thread's members. A
 private row is never held back from a member that may have it.
 */
module ThreadDelivery {
  import opened Prelude
  import opened Rooms
  import opened ReplyThreading
  import opened Threads
  import opened ThreadAncestry
  import opened ThreadRouting
  import opened ThreadHistory
  import opened ThreadRuns

  /** A scoped verdict has already checked the author and the metadata of the row. */
  lemma ScopedVerdictMayPublish(rows: seq<Row>, view: RoomView, item: Row)
    requires item.IsItem() && item in rows
    requires Classify(rows, view, item).Ok? && Classify(rows, view, item).value.Scoped?
    ensures var a := Classify(rows, view, item).value;
      && item.Message? && a.root.Message? && a.root.threadRoot.Some? && item.scope == Some(a.scope)
      && PublicThreadMetadata(a.root, view).Ok? && PublicThreadAuthor(item, a.root.threadRoot.value, view).Ok?
  {
    ScopedVerdictHasRoot(rows, view, item);
    var chain := Ancestry(rows, view, item, {}, 0).value;
    assert Associate(rows, view, chain) == Advance(rows, view, chain[0], Associate(rows, view, chain[1..]).value);
  }

  lemma {:induction false} ActiveMemberIsFound(room: Room, root: ThreadRoot, cid: Cid)
    requires ActiveThreadSeat(room, root, cid)
    ensures FindMember(root.members, cid).Some?
  {
    var seat :| seat in room.seats && seat.state.ActiveSeat? && seat.identity == cid && Member(seat.participant, cid) in root.members;
  }

  /** The relay reads everything about a row that declares a thread. */
  lemma DeclaredReadsAll(rows: seq<Row>, view: RoomView, source: Row)
    requires source.IsItem() && source in rows && Classify(rows, view, source).Ok? && Classify(rows, view, source).value.Scoped?
    ensures Declared(source) && RelayRows(rows, source) == rows
  {
    ScopedVerdictHasRoot(rows, view, source);
  }

  /** The row may be linked for the recipient: it is the root, or the recipient knows its immediate parent. */
  predicate Linkable(rows: seq<Row>, room: RoomId, source: Row, root: Row, cid: Cid)
    requires source.Message? && root.Message? && source.scope.Some?
  {
    var decision := SelectReply(rows, room, source, cid);
    source.id == root.id || (decision.Linked? && decision.parentKey == source.scope.value.parent)
  }

  /**
   The relay of a scoped row to one of its saved recipients, exactly: it is sent if and only if the
   recipient is active under its selected participant ID and the row can be linked for it.
   */
  lemma {:induction false} ScopedRelayIsExact(room: Room, rows: seq<Row>, intent: Row, source: Row)
    requires intent.Intent? && FirstItem(rows, intent.subject) == Some(source) && source.IsItem()
    requires Classify(rows, View(room), source).Ok? && Classify(rows, View(room), source).value.Scoped?
    requires intent.recipient in source.recipients && source.pos < intent.pos
    ensures var a := Classify(rows, View(room), source).value;
      && source.Message? && source.scope.Some? && a.root.Message? && a.root.threadRoot.Some?
      && (DecideRelay(room, rows, intent).Send? <==>
          ActiveThreadSeat(room, a.root.threadRoot.value, intent.recipient) && Linkable(rows, room.id, source, a.root, intent.recipient))
      && (DecideRelay(room, rows, intent).Send? ==>
          DecideRelay(room, rows, intent) == Send(source, Some(a.root.id), ReplyTo(SelectReply(rows, room.id, source, intent.recipient))))
  {
    ScopedVerdictMayPublish(rows, View(room), source);
    DeclaredReadsAll(rows, View(room), source);
    var root := Classify(rows, View(room), source).value.root.threadRoot.value;
    if ActiveThreadSeat(room, root, intent.recipient) {
      ActiveMemberIsFound(room, root, intent.recipient);
    }
  }

  /** A thread that was just started reaches every member it selected. */
  lemma StartedRootReachesMembers(w: World, cid: Cid, input: StartThreadInput, digest: string, id: Ulid, at: Time, intent: Row)
    requires Inv(w) && DecideStartThread(w.room, w.rows, cid, true, true, input, digest, id, at, w.next).Started?
    requires NewNames(w.rows, DecideStartThread(w.room, w.rows, cid, true, true, input, digest, id, at, w.next).row)
    requires var row := DecideStartThread(w.room, w.rows, cid, true, true, input, digest, id, at, w.next).row;
      row.IsItem() && intent.Intent? && intent.subject == row.KeyOf() && intent.recipient in row.recipients && intent.pos > row.pos
    ensures var row := DecideStartThread(w.room, w.rows, cid, true, true, input, digest, id, at, w.next).row;
      DecideRelay(w.room, w.rows + [row], intent) == Send(row, Some(id), None)
  {
    var row := DecideStartThread(w.room, w.rows, cid, true, true, input, digest, id, at, w.next).row;
    StartedRootIsWellFormed(w.room, w.rows, cid, input, digest, id, at, w.next);
    NewRowIsFresh(w.rows, View(w.room), w.next, row);
    RootSettled(w.rows, View(w.room), w.next, row);
    RootFound(w.rows, View(w.room), w.next, row);
    NewItemIsFirst(w.rows, row);
    RootReaches(w.room, w.rows + [row], row, intent);
  }

  lemma {:induction false} RootReaches(room: Room, rows: seq<Row>, row: Row, intent: Row)
    requires row in rows && row.Message? && WellFormedRoot(row, row.id) && FindThreadRoot(rows, View(room), row.id) == Ok(row)
    requires Settled(rows, View(room), row)
    requires intent.Intent? && FirstItem(rows, intent.subject) == Some(row)
    requires intent.recipient in row.recipients && row.pos < intent.pos && ActiveThreadSeat(room, row.threadRoot.value, intent.recipient)
    ensures DecideRelay(room, rows, intent) == Send(row, Some(row.id), None)
  {
    RootVerdict(rows, View(room), row);
    ScopedRelayIsExact(room, rows, intent, row);
    NoReplyNoLink(rows, room.id, row, intent.recipient);
  }

  lemma NoReplyNoLink(rows: seq<Row>, room: RoomId, row: Row, recipient: Cid)
    requires row.IsItem() && row.reply.None?
    ensures ReplyTo(SelectReply(rows, room, row, recipient)) == None
  {
  }

  lemma RootVerdict(rows: seq<Row>, view: RoomView, row: Row)
    requires row in rows && row.Message? && WellFormedRoot(row, row.id) && FindThreadRoot(rows, view, row.id) == Ok(row)
    requires Classify(rows, view, row).Ok? && Classify(rows, view, row).value.Scoped?
    ensures Classify(rows, view, row).value.root == row
  {
    var a := Classify(rows, view, row).value;
    ScopedVerdictHasRoot(rows, view, row);
    assert row.scope.value.threadId == a.root.id;
  }

  lemma {:induction false} NewItemIsFirst(rows: seq<Row>, row: Row)
    requires row.IsItem() && forall x :: x in rows ==> !MentionsKey(x, row.KeyOf())
    ensures FirstItem(rows + [row], row.KeyOf()) == Some(row)
  {
    if rows != [] {
      assert !MentionsKey(rows[0], row.KeyOf());
      assert (rows + [row])[1..] == rows[1..] + [row];
      NewItemIsFirst(rows[1..], row);
    }
  }

  /** The recipients saved with a scoped reply are exactly the other members that are active as selected. */
  lemma ScopedReplyAddressesMembers(room: Room, rows: seq<Row>, item: InboxItem, id: Ulid, pos: nat, c: Cid)
    requires DecideIntake(room, rows, item, id, pos).Appended?
    requires var row := DecideIntake(room, rows, item, id, pos).row; row.Message? && row.scope.Some?
    ensures var row := DecideIntake(room, rows, item, id, pos).row;
      var parent := ResolveReplyParent(rows, room.id, item.sender, Some(item.reply.value.wire), pos);
      && item.reply.Some? && parent.Resolved? && Classify(rows, View(room), parent.item).Ok?
      && var a := Classify(rows, View(room), parent.item).value;
        && a.Scoped? && a.root.Message? && a.root.threadRoot.Some?
        && (c in row.recipients <==> c != item.sender && ActiveThreadSeat(room, a.root.threadRoot.value, c))
  {
    var parent := ResolveReplyParent(rows, room.id, item.sender, Some(item.reply.value.wire), pos);
    var root := Classify(rows, View(room), parent.item).value.root.threadRoot.value;
    if c != item.sender && ActiveThreadSeat(room, root, c) {
      var seat :| seat in room.seats && seat.state.ActiveSeat? && seat.identity == c && Member(seat.participant, c) in root.members;
    }
  }

  /** They are addressed in the order in which the root lists them. */
  lemma {:induction false} MembersAddressedInOrder(room: Room, root: ThreadRoot, members: seq<Member>, sender: Cid)
    requires DistinctMembers(members)
    ensures InMemberOrder(ThreadRecipients(room, root, members, sender), members)
  {
    if members != [] {
      var init, last := members[..|members| - 1], members[|members| - 1];
      MembersAddressedInOrder(room, root, init, sender);
      var earlier, all := ThreadRecipients(room, root, init, sender), ThreadRecipients(room, root, members, sender);
      forall i, j | 0 <= i < j < |all| ensures ListedBefore(members, all[i], all[j]) {
        assert earlier[i] in earlier;
        var p :| 0 <= p < |init| && init[p].identity == earlier[i];
        if j == |earlier| {
          assert members[p].identity == all[i] && members[|init|].identity == all[j];
        } else {
          var q, r :| 0 <= q < r < |init| && init[q].identity == all[i] && init[r].identity == all[j];
          assert members[q].identity == all[i] && members[r].identity == all[j];
        }
      }
    }
  }

  predicate InMemberOrder(cids: seq<Cid>, members: seq<Member>) {
    forall i, j :: 0 <= i < j < |cids| ==> ListedBefore(members, cids[i], cids[j])
  }

  predicate ListedBefore(members: seq<Member>, a: Cid, b: Cid) {
    exists q, r :: 0 <= q < r < |members| && members[q].identity == a && members[r].identity == b
  }

  /** A member that is active as selected sees every message of its thread, marked as part of it. */
  lemma MemberSeesThread(room: Room, rows: seq<Row>, next: nat, viewer: Cid, record: Row, root: Row)
    requires ArchiveInv(rows, View(room), next) && record in rows && record.Message? && record.scope.Some?
    requires root.Message? && root.threadRoot.Some? && FindThreadRoot(rows, View(room), record.scope.value.threadId) == Ok(root)
    requires ActiveThreadSeat(room, root.threadRoot.value, viewer)
    ensures var seen := ProjectOne(room, rows, viewer, record);
      seen.Some? && seen.value.id == record.id && seen.value.text == record.text && seen.value.thread == Some(root.id)
      && (seen.value.threadRoot.Some? <==> record.id == root.id)
  {
    assert Settled(rows, View(room), record);
    ScopedVerdictMayPublish(rows, View(room), record);
    ScopedVerdictHasRoot(rows, View(room), record);
  }
}
