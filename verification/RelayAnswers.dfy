/**
 What a relay pass leaves behind, told from what the sends answered: which status and which wires are
 recorded for whom, and who is skipped for which reason.
 */
module RelayAnswers {
  import opened Prelude
  import opened Rooms
  import opened ReplyThreading
  import opened Threads
  import opened ThreadAncestry
  import opened ThreadRouting
  import opened ThreadRuns
  import opened ThreadDelivery
  import opened OrdinaryDelivery
  import opened RelayLedger

  /** A wire worth keeping. */
  function Kept(wire: Option<Wire>): Option<Wire> {
    if wire.Some? && wire.value != "" then wire else None
  }

  /**
   What is recorded of a send. A message is one call. A file is its notice and, only if that was queued,
   its bytes; the recipient knows the file by the wire of the bytes first and by that of the notice second.
   Any call that throws leaves the intent open.
   */
  ghost predicate RecordsAnswer(fate: Fate, source: Row, a: Answers) {
    if !source.File? then
      match a.body
      case SendThrew => fate == Ambiguous(source)
      case SendAnswered(queued, wire) => fate == Answered(source, if queued then Queued else SendFailed, Kept(wire), None)
    else
      match a.body
      case SendThrew => fate == Ambiguous(source)
      case SendAnswered(false, _) => fate == Answered(source, SendFailed, None, None)
      case SendAnswered(true, notice) =>
        match a.bytes
        case SendThrew => fate == Ambiguous(source)
        case SendAnswered(queued, wire) => fate == Answered(source, if queued then Queued else SendFailed, Kept(wire), Kept(notice))
  }

  lemma SendIsRecorded(w: World, intent: Row, answers: RecordId -> Answers)
    requires intent.Intent? && DecideRelay(w.room, w.rows, intent).Send?
    ensures RecordsAnswer(FateOf(w, intent, answers), DecideRelay(w.room, w.rows, intent).source, answers(intent.Name()))
  {
  }

  /**
   A whole pass and one recipient of an ordinary item that replies to nothing. Whatever else happened in
   the pass: the recipient is skipped if it was removed and is not back, and otherwise what its own sends
   answered is recorded, or the intent stays open because one of them threw.
   */
  lemma OrdinaryPassIsExact(start: World, answers: RecordId -> Answers, n: nat, source: Row)
    requires Startable(start) && n < |PendingAfter(start.rows, 0)|
    requires source in start.rows && source.IsItem() && source.room == start.room.id && source.reply.None? && !Declared(source)
    requires var intent := PendingAfter(start.rows, 0)[n];
      intent.Intent? && intent.subject == source.KeyOf() && intent.recipient in source.recipients
    ensures var intent, pass := PendingAfter(start.rows, 0)[n], RelayAll(start, FatesBy(answers));
      if HasRemovedSeat(start.room, intent.recipient) && !HasActiveSeat(start.room, intent.recipient)
      then Tells(pass, intent, Skipped(SkippedRemoved))
      else exists fate :: RecordsAnswer(fate, source, answers(intent.Name())) && Tells(pass, intent, fate)
  {
    var intent, plan := PendingAfter(start.rows, 0)[n], RelayPlan(start, FatesBy(answers));
    RelayIsExact(start, answers, n);
    var w := plan(n).world;
    SameRoomAllPass(start, FatesBy(answers), n);
    assert source in w.rows;
    LoneVerdict(w.rows, View(w.room), source);
    KeysStayUnique(start, FatesBy(answers), n);
    OrdinaryRelayIsExact(w.room, w.rows, intent, source);
    if DecideRelay(w.room, w.rows, intent).Send? { SendIsRecorded(w, intent, answers); }
  }

  lemma {:induction false} SameRoomAllPass(start: World, fates: Fates, n: nat)
    requires Startable(start) && n <= |PendingAfter(start.rows, 0)|
    ensures RelayPlan(start, fates)(n).world.room == start.room
  {
    PlanIsPlanned(start, fates);
    var plan, all := RelayPlan(start, fates), PendingAfter(start.rows, 0);
    if n > 0 {
      SameRoomAllPass(start, fates, n - 1);
      assert Planned(plan, all, fates, n - 1);
    }
  }

  lemma KeysStayUnique(start: World, fates: Fates, n: nat)
    requires Startable(start) && n <= |PendingAfter(start.rows, 0)|
    ensures UniqueKeys(RelayPlan(start, fates)(n).world.rows)
  {
    PlanIsPlanned(start, fates);
    MidwayThrough(RelayPlan(start, fates), PendingAfter(start.rows, 0), fates, n);
  }

  /** Why a private row is held back: the recipient lost the seat it was selected with, or cannot be told what it answers. */
  lemma {:induction false} ScopedSkipIsExact(room: Room, rows: seq<Row>, intent: Row, source: Row)
    requires intent.Intent? && FirstItem(rows, intent.subject) == Some(source) && source.IsItem()
    requires Classify(rows, View(room), source).Ok? && Classify(rows, View(room), source).value.Scoped?
    requires intent.recipient in source.recipients && source.pos < intent.pos && !DecideRelay(room, rows, intent).Send?
    ensures var root := Classify(rows, View(room), source).value.root;
      && root.Message? && root.threadRoot.Some?
      && DecideRelay(room, rows, intent) ==
        if (exists m :: m in root.threadRoot.value.members && m.identity == intent.recipient)
           && !(exists s :: s in room.seats && s.state == ActiveSeat && s.identity == intent.recipient
                  && Member(s.participant, intent.recipient) in root.threadRoot.value.members)
        then Skip(SkippedRemoved) else Skip(SkippedReplyUnavailable)
  {
    ScopedVerdictMayPublish(rows, View(room), source);
    DeclaredReadsAll(rows, View(room), source);
  }
}
