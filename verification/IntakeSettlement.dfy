/**
 How the pump drains the SDK inbox into the room's journal. The SDK's read mark is irreversible, the
 journal is durable, and a crash or a throw may fall between any two steps. Rows keep arriving while
 the pump works, finitely many in all and in any order.
 */
module IntakeSettlement {
  import opened Prelude
  import opened Rooms
  import opened ReplyThreading
  import opened Threads
  import opened ThreadRouting
  import opened ThreadRuns
  import opened RelayLedger

  const INTAKE_BATCH_SIZE: nat := 32

  datatype Source = MessageSource(id: nat) | FileSource(id: nat)

  function SourceOf(item: InboxItem): Source {
    if item.isFile then FileSource(item.sourceId) else MessageSource(item.sourceId)
  }

  /** The inbox row an archived item came from, if any. */
  function RowSource(r: Row): Option<Source> {
    if r.Message? && r.sourceMessage.Some? then Some(MessageSource(r.sourceMessage.value))
    else if r.File? then Some(FileSource(r.sourceFile))
    else None
  }

  /** A durable refusal; it is compared with a replay on everything. */
  datatype Rejection = Rejection(item: InboxItem, error: Failure)

  /** `Halted` is a crash, a throw, or a replay that does not match what was saved. */
  datatype Progress = Drained | Paused | Halted

  predicate HasRecord(rows: seq<Row>, rejections: seq<Rejection>, s: Source) {
    || (exists r :: r in rows && RowSource(r) == Some(s))
    || (exists r :: r in rejections && SourceOf(r.item) == s)
  }

  /** Each SDK message or file settles to at most one record: an item or a rejection, never both. */
  ghost predicate OneRecordEach(rows: seq<Row>, rejections: seq<Rejection>) {
    && (forall x, y :: x in rows && y in rows && RowSource(x).Some? && RowSource(x) == RowSource(y) ==> x == y)
    && (forall i, j :: 0 <= i < j < |rejections| ==> SourceOf(rejections[i].item) != SourceOf(rejections[j].item))
    && (forall x, r :: x in rows && r in rejections ==> RowSource(x) != Some(SourceOf(r.item)))
  }

  function FindRow(rows: seq<Row>, s: Source): (r: Option<Row>)
    ensures r.Some? ==> r.value in rows && RowSource(r.value) == Some(s)
    ensures r.None? ==> forall x :: x in rows ==> RowSource(x) != Some(s)
  {
    if rows == [] then None else if RowSource(rows[0]) == Some(s) then Some(rows[0]) else FindRow(rows[1..], s)
  }

  function FindRejection(rejections: seq<Rejection>, s: Source): (r: Option<Rejection>)
    ensures r.Some? ==> r.value in rejections && SourceOf(r.value.item) == s
    ensures r.None? ==> forall x :: x in rejections ==> SourceOf(x.item) != s
  {
    if rejections == [] then None
    else if SourceOf(rejections[0].item) == s then Some(rejections[0])
    else FindRejection(rejections[1..], s)
  }

  /** `findSourceMessage` and `findSourceFile`: what a replay must agree on with the saved item. */
  predicate MatchesRow(r: Row, item: InboxItem)
    requires r.IsItem()
  {
    && r.sourceWire == (if item.wire == "" then None else Some(item.wire)) && r.reply == item.reply
    && r.author.identity == item.sender && r.at == item.date
    && (if r.Message? then r.text else r.content) == item.body
  }

  /** The inbox row says again what is archived: content, sender, date, wire and reply. */
  predicate Repeats(item: InboxItem, r: Row) {
    && r.IsItem() && item.sender == r.author.identity && item.date == r.at && item.reply == r.reply
    && (r.Message? ==> item.body == r.text) && (r.File? ==> item.body == r.content)
    && (if r.sourceWire.Some? then item.wire == r.sourceWire.value && item.wire != "" else item.wire == "")
  }

  /** The saved item or refusal of this source, if there is one, is what the inbox row says. */
  ghost predicate IsRepeated(rows: seq<Row>, rejections: seq<Rejection>, item: InboxItem) {
    || (exists r :: r in rows && RowSource(r) == Some(SourceOf(item)) && Repeats(item, r))
    || (exists r :: r in rejections && r.item == item)
  }

  /** Nothing saved for this source contradicts the item. */
  ghost predicate Consistent(rows: seq<Row>, rejections: seq<Rejection>, item: InboxItem) {
    && (forall r :: r in rows && RowSource(r) == Some(SourceOf(item)) ==> Repeats(item, r))
    && (forall r :: r in rejections && SourceOf(r.item) == SourceOf(item) ==> r.item == item)
  }

  ghost predicate UniqueSources(all: set<InboxItem>) {
    forall x, y :: x in all && y in all && SourceOf(x) == SourceOf(y) ==> x == y
  }

  // ----- Records ---------------------------------------------------------------------------------------

  /** What the room decides about a fresh inbox row, and what it then commits. */
  lemma AppendedRow(live: Room, rows: seq<Row>, item: InboxItem, id: Ulid, pos: nat)
    requires DecideIntake(live, rows, item, id, pos).Appended?
    ensures var row := DecideIntake(live, rows, item, id, pos).row;
      && row.IsItem() && row.room == live.id && row.pos == pos && row.At(pos) == row
      && row.KeyOf() == (if item.isFile then FileKey(id) else MessageKey(id))
      && RowSource(row) == Some(SourceOf(item)) && MatchesRow(row, item) && DistinctCids(row.recipients)
  {
    var seat := ActiveSeatOf(live, item.sender).value;
    var to := ResolveIntakeScope(live, rows, item, pos).value;
    RecipientsDistinct(live, rows, item, pos);
  }

  lemma RecipientsDistinct(live: Room, rows: seq<Row>, item: InboxItem, pos: nat)
    requires ResolveIntakeScope(live, rows, item, pos).Ok?
    ensures DistinctCids(ResolveIntakeScope(live, rows, item, pos).value.recipients)
  {
    if item.reply.Some? {
      var parent := ResolveReplyParent(rows, live.id, item.sender, Some(item.reply.value.wire), pos).item;
      var verdict := Classify(rows, View(live), parent).value;
      if verdict.Scoped? {
        ScopedRootValid(rows, View(live), parent);
        var root := verdict.root.threadRoot.value;
        ThreadRecipientsDistinct(live, root, root.members, item.sender);
      }
    }
  }

  lemma ScopedRootValid(rows: seq<Row>, view: RoomView, item: Row)
    requires item.IsItem() && Classify(rows, view, item).Ok? && Classify(rows, view, item).value.Scoped?
    ensures var root := Classify(rows, view, item).value.root;
      root.Message? && root.threadRoot.Some? && DistinctMembers(root.threadRoot.value.members)
  {
    var chain := Ancestry(rows, view, item, {}, 0).value;
    assert Associate(rows, view, chain).Ok?;
  }

  lemma {:induction false} ThreadRecipientsDistinct(live: Room, root: ThreadRoot, members: seq<Member>, sender: Cid)
    requires DistinctMembers(members)
    ensures DistinctCids(ThreadRecipients(live, root, members, sender))
  {
    if members != [] {
      ThreadRecipientsDistinct(live, root, members[..|members| - 1], sender);
    }
  }

  lemma RecordedAfterRow(rows: seq<Row>, rejections: seq<Rejection>, r: Row, s: Source)
    ensures HasRecord(rows + [r], rejections, s) <==> HasRecord(rows, rejections, s) || RowSource(r) == Some(s)
  {
    assert forall x :: x in rows + [r] <==> x in rows || x == r;
  }

  lemma RecordedAfterRejection(rows: seq<Row>, rejections: seq<Rejection>, r: Rejection, s: Source)
    ensures HasRecord(rows, rejections + [r], s) <==> HasRecord(rows, rejections, s) || SourceOf(r.item) == s
  {
    assert forall x :: x in rejections + [r] <==> x in rejections || x == r;
  }

  /** Intents and results record nothing about any source. */
  ghost predicate AddsNoItem(before: seq<Row>, rows: seq<Row>) {
    before <= rows && forall k :: |before| <= k < |rows| ==> !rows[k].IsItem()
  }

  lemma NothingRecorded(before: seq<Row>, rows: seq<Row>, rejections: seq<Rejection>)
    requires AddsNoItem(before, rows)
    ensures forall s :: HasRecord(rows, rejections, s) <==> HasRecord(before, rejections, s)
    ensures OneRecordEach(before, rejections) ==> OneRecordEach(rows, rejections)
  {
    assert forall x :: x in before ==> x in rows;
    forall x | x in rows && RowSource(x).Some? ensures x in before {
      var k :| 0 <= k < |rows| && rows[k] == x;
    }
  }

  lemma RowIsOnly(rows: seq<Row>, rejections: seq<Rejection>, r: Row, s: Source)
    requires OneRecordEach(rows, rejections) && RowSource(r) == Some(s) && !HasRecord(rows, rejections, s)
    ensures OneRecordEach(rows + [r], rejections)
  {
    assert forall x :: x in rows + [r] <==> x in rows || x == r;
  }

  lemma RejectionIsOnly(rows: seq<Row>, rejections: seq<Rejection>, r: Rejection)
    requires OneRecordEach(rows, rejections) && !HasRecord(rows, rejections, SourceOf(r.item))
    ensures OneRecordEach(rows, rejections + [r])
  {
    assert forall x :: x in rejections + [r] <==> x in rejections || x == r;
    forall i | 0 <= i < |rejections| ensures SourceOf(rejections[i].item) != SourceOf(r.item) { assert rejections[i] in rejections; }
  }

  /** A minted identifier: any string no archived row mentions. */
  method MintId(rows: seq<Row>) returns (id: Ulid)
    ensures forall x :: x in rows ==> !MentionsKey(x, MessageKey(id)) && !MentionsKey(x, FileKey(id))
  {
    id := *;
    var longest := LongestId(rows);
    if exists x :: x in rows && (MentionsKey(x, MessageKey(id)) || MentionsKey(x, FileKey(id))) {
      id := seq(longest + 1, _ => '0');
      forall x | x in rows ensures !MentionsKey(x, MessageKey(id)) && !MentionsKey(x, FileKey(id)) {
        IdsAreShort(rows, x);
      }
    }
  }

  function IdLength(r: Row): nat {
    if r.IsItem() then |r.id| else |r.subject.id|
  }

  function LongestId(rows: seq<Row>): nat {
    if rows == [] then 0 else
      var rest := LongestId(rows[1..]);
      if IdLength(rows[0]) > rest then IdLength(rows[0]) else rest
  }

  lemma {:induction false} IdsAreShort(rows: seq<Row>, x: Row)
    requires x in rows
    ensures IdLength(x) <= LongestId(rows)
  {
    if x != rows[0] { IdsAreShort(rows[1..], x); }
  }

  /** A row made for this item that can be committed as it is. */
  ghost predicate IsFreshRow(row: Row, item: InboxItem, rows: seq<Row>, room: RoomId, next: nat) {
    && row.IsItem() && row.room == room && row.At(next) == row && DistinctCids(row.recipients)
    && RowSource(row) == Some(SourceOf(item)) && MatchesRow(row, item)
    && forall x :: x in rows ==> !MentionsKey(x, row.KeyOf())
  }

  /** How far a decision was carried out: nothing else is recorded, and all of it if `done`. */
  ghost predicate Carries(d: Intake, item: InboxItem, rows: seq<Row>, rows': seq<Row>, rejections: seq<Rejection>, rejections': seq<Rejection>,
                          notices: seq<Source>, notices': seq<Source>, done: bool) {
    match d
    case Ignored => done && rows' == rows && rejections' == rejections && notices' == notices
    case Rejected(error) =>
      && rows' == rows && (rejections' == rejections || rejections' == rejections + [Rejection(item, error)])
      && (notices' == notices || (notices' == notices + [SourceOf(item)] && rejections' != rejections))
      && (done ==> rejections' != rejections && notices' != notices)
    case Appended(row) =>
      && rejections' == rejections && notices' == notices
      && (rows' == rows || GrewByIntents(rows + [row], rows')) && (done ==> rows' != rows)
  }

  lemma MoreRejections(rows: seq<Row>, rejections: seq<Rejection>, item: InboxItem)
    ensures rejections != [] && rejections[|rejections| - 1].item == item ==> HasRecord(rows, rejections, SourceOf(item))
  {
    if rejections != [] { assert rejections[|rejections| - 1] in rejections; }
  }

  /** Stopping short is recorded once, and nothing else is. */
  ghost predicate Stops(before: seq<Option<InboxItem>>, after: seq<Option<InboxItem>>, progress: Progress) {
    if progress.Halted? then |after| == |before| + 1 && before <= after else after == before
  }

  /** Whatever was carried out for one item contradicts neither it nor any other one. */
  lemma StillConsistent(d: Intake, item: InboxItem, x: InboxItem, rows: seq<Row>, rows': seq<Row>,
                        rejections: seq<Rejection>, rejections': seq<Rejection>, notices: seq<Source>, notices': seq<Source>, done: bool)
    requires Carries(d, item, rows, rows', rejections, rejections', notices, notices', done)
    requires d.Appended? ==> RowSource(d.row) == Some(SourceOf(item)) && MatchesRow(d.row, item)
    requires Consistent(rows, rejections, x) && (SourceOf(x) == SourceOf(item) ==> x == item)
    ensures Consistent(rows', rejections', x)
  {
    forall r | r in rows' && RowSource(r) == Some(SourceOf(x)) ensures Repeats(x, r) {
      var k :| 0 <= k < |rows'| && rows'[k] == r;
      if k < |rows| { assert rows[k] == r; }
    }
  }

  lemma IntentsKeepConsistent(rows: seq<Row>, rows': seq<Row>, rejections: seq<Rejection>, x: InboxItem)
    requires GrewByIntents(rows, rows') && Consistent(rows, rejections, x)
    ensures Consistent(rows', rejections, x)
  {
    forall r | r in rows' && RowSource(r) == Some(SourceOf(x)) ensures Repeats(x, r) {
      var k :| 0 <= k < |rows'| && rows'[k] == r;
      if k < |rows| { assert rows[k] == r; }
    }
  }

  ghost predicate SaneBy(all: set<InboxItem>, rows: seq<Row>, rejections: seq<Rejection>) {
    forall x :: x in all ==> x.wire != "" && Consistent(rows, rejections, x)
  }

  lemma SaneCarried(all: set<InboxItem>, live: Room, id: Ulid, pos: nat, item: InboxItem, rows: seq<Row>, rows': seq<Row>,
                    rejections: seq<Rejection>, rejections': seq<Rejection>, notices: seq<Source>, notices': seq<Source>, done: bool)
    requires SaneBy(all, rows, rejections) && UniqueSources(all) && item in all
    requires Carries(DecideIntake(live, rows, item, id, pos), item, rows, rows', rejections, rejections', notices, notices', done)
    ensures SaneBy(all, rows', rejections')
  {
    var d := DecideIntake(live, rows, item, id, pos);
    if d.Appended? { AppendedRow(live, rows, item, id, pos); }
    forall x | x in all ensures x.wire != "" && Consistent(rows', rejections', x) {
      StillConsistent(d, item, x, rows, rows', rejections, rejections', notices, notices', done);
    }
  }

  lemma SaneReplayed(all: set<InboxItem>, rows: seq<Row>, rows': seq<Row>, rejections: seq<Rejection>)
    requires SaneBy(all, rows, rejections) && GrewByIntents(rows, rows')
    ensures SaneBy(all, rows', rejections)
  {
    forall x | x in all ensures x.wire != "" && Consistent(rows', rejections, x) {
      IntentsKeepConsistent(rows, rows', rejections, x);
    }
  }

  lemma RecordsStay(rows: seq<Row>, rows': seq<Row>, rejections: seq<Rejection>, rejections': seq<Rejection>, s: Source)
    requires rows <= rows' && rejections <= rejections' && HasRecord(rows, rejections, s)
    ensures HasRecord(rows', rejections', s)
  {
    if r :| r in rows && RowSource(r) == Some(s) {
      assert r in rows';
    } else {
      var r :| r in rejections && SourceOf(r.item) == s;
      assert r in rejections';
    }
  }

  // ----- The pump --------------------------------------------------------------------------------------

  /** Any messages and any files of those to come. */
  method Choose(from: set<InboxItem>) returns (texts: set<InboxItem>, docs: set<InboxItem>)
    ensures texts + docs <= from && texts !! docs
    ensures (forall x :: x in texts ==> !x.isFile) && (forall x :: x in docs ==> x.isFile)
  {
    var some: set<InboxItem> := *;
    texts := set x | x in some && x in from && !x.isFile;
    docs := set x | x in some && x in from && x.isFile;
  }

  method ChooseNumbers(from: set<nat>) returns (numbers: set<nat>)
    ensures numbers <= from
  {
    numbers := *;
    numbers := numbers * from;
  }

  datatype Head = TextFirst(item: InboxItem) | TypedFirst(n: nat)

  // ----- Where records come from ---------------------------------------------------------------------------

  /** The room as it was at some load. */
  function RoomAt(rooms: nat -> Room, id: RoomId, k: nat): Room {
    rooms(k).(id := id)
  }

  /** In one of the rooms loaded, with this archive, the row was decided to be appended for this item. */
  ghost predicate Appends(rooms: nat -> Room, id: RoomId, before: seq<Row>, item: InboxItem, row: Row) {
    row.IsItem() && exists k: nat :: DecideIntake(RoomAt(rooms, id, k), before, item, row.id, row.pos) == Appended(row)
  }

  ghost predicate Refuses(rooms: nat -> Room, id: RoomId, before: seq<Row>, item: InboxItem, error: Failure) {
    exists k: nat, minted: Ulid, pos: nat :: DecideIntake(RoomAt(rooms, id, k), before, item, minted, pos) == Rejected(error)
  }

  ghost predicate Ignores(rooms: nat -> Room, id: RoomId, before: seq<Row>, item: InboxItem) {
    exists k: nat, minted: Ulid, pos: nat :: DecideIntake(RoomAt(rooms, id, k), before, item, minted, pos) == Ignored
  }

  ghost predicate RowDecided(rooms: nat -> Room, id: RoomId, all: set<InboxItem>, rows: seq<Row>, j: nat)
    requires j < |rows|
  {
    rows[j].IsItem() ==> exists item :: item in all && Appends(rooms, id, rows[..j], item, rows[j])
  }

  ghost predicate RejectionDecided(rooms: nat -> Room, id: RoomId, all: set<InboxItem>, rows: seq<Row>, r: Rejection) {
    r.item in all && exists j: nat :: j <= |rows| && Refuses(rooms, id, rows[..j], r.item, r.error)
  }

  ghost predicate IgnoreDecided(rooms: nat -> Room, id: RoomId, all: set<InboxItem>, rows: seq<Row>, s: Source) {
    exists item, j: nat :: item in all && SourceOf(item) == s && j <= |rows| && Ignores(rooms, id, rows[..j], item)
  }

  /** What the pump settled since it started was decided in a room it loaded and with the archive of that moment. */
  ghost predicate TruthfulBy(rooms: nat -> Room, id: RoomId, all: set<InboxItem>, oldRows: nat, oldRejections: nat,
                             rows: seq<Row>, rejections: seq<Rejection>, ignored: set<Source>) {
    && (forall j :: oldRows <= j < |rows| ==> RowDecided(rooms, id, all, rows, j))
    && (forall m :: oldRejections <= m < |rejections| ==> RejectionDecided(rooms, id, all, rows, rejections[m]))
    && (forall s :: s in ignored ==> IgnoreDecided(rooms, id, all, rows, s))
  }

  /** More rows take no evidence away. */
  lemma TruthStays(rooms: nat -> Room, id: RoomId, all: set<InboxItem>, oldRows: nat, oldRejections: nat,
                   rows: seq<Row>, rows': seq<Row>, rejections: seq<Rejection>, ignored: set<Source>)
    requires TruthfulBy(rooms, id, all, oldRows, oldRejections, rows, rejections, ignored) && rows <= rows'
    requires forall j :: |rows| <= j < |rows'| ==> RowDecided(rooms, id, all, rows', j)
    ensures TruthfulBy(rooms, id, all, oldRows, oldRejections, rows', rejections, ignored)
  {
    forall j | oldRows <= j < |rows'| ensures RowDecided(rooms, id, all, rows', j) {
      if j < |rows| { assert rows'[..j] == rows[..j] && RowDecided(rooms, id, all, rows, j); }
    }
    forall m | oldRejections <= m < |rejections| ensures RejectionDecided(rooms, id, all, rows', rejections[m]) {
      var j: nat :| j <= |rows| && Refuses(rooms, id, rows[..j], rejections[m].item, rejections[m].error);
      assert rows'[..j] == rows[..j];
    }
    forall s | s in ignored ensures IgnoreDecided(rooms, id, all, rows', s) {
      var item, j: nat :| item in all && SourceOf(item) == s && j <= |rows| && Ignores(rooms, id, rows[..j], item);
      assert rows'[..j] == rows[..j];
    }
  }

  lemma TruthWithout(rooms: nat -> Room, id: RoomId, all: set<InboxItem>, oldRows: nat, oldRejections: nat,
                     rows: seq<Row>, rows': seq<Row>, rejections: seq<Rejection>, ignored: set<Source>)
    requires TruthfulBy(rooms, id, all, oldRows, oldRejections, rows, rejections, ignored) && AddsNoItem(rows, rows')
    ensures TruthfulBy(rooms, id, all, oldRows, oldRejections, rows', rejections, ignored)
  {
    TruthStays(rooms, id, all, oldRows, oldRejections, rows, rows', rejections, ignored);
  }

  /** Carrying out a decision made here and now leaves only records with their decision. */
  lemma TruthCarried(rooms: nat -> Room, id: RoomId, all: set<InboxItem>, oldRows: nat, oldRejections: nat, k: nat, item: InboxItem,
                     minted: Ulid, pos: nat, rows: seq<Row>, rows': seq<Row>, rejections: seq<Rejection>, rejections': seq<Rejection>,
                     notices: seq<Source>, notices': seq<Source>, ignored: set<Source>, ignored': set<Source>, done: bool)
    requires TruthfulBy(rooms, id, all, oldRows, oldRejections, rows, rejections, ignored) && item in all
    requires var d := DecideIntake(RoomAt(rooms, id, k), rows, item, minted, pos);
      && Carries(d, item, rows, rows', rejections, rejections', notices, notices', done)
      && ignored' == ignored + if d.Ignored? then {SourceOf(item)} else {}
    ensures TruthfulBy(rooms, id, all, oldRows, oldRejections, rows', rejections', ignored')
  {
    var d := DecideIntake(RoomAt(rooms, id, k), rows, item, minted, pos);
    assert rows[..|rows|] == rows;
    match d
    case Ignored =>
      assert Ignores(rooms, id, rows, item);
    case Rejected(error) =>
      assert Refuses(rooms, id, rows, item, error);
      if rejections' != rejections {
        assert RejectionDecided(rooms, id, all, rows, rejections'[|rejections|]);
      }
    case Appended(row) =>
      if rows' != rows {
        DecidedAppends(rooms, id, k, item, minted, pos, row, rows);
        TruthAppended(rooms, id, all, oldRows, oldRejections, item, row, rows, rows', rejections, ignored);
      }
  }

  lemma KeptCarried(rooms: nat -> Room, id: RoomId, all: set<InboxItem>, oldRows: nat, oldRejections: nat, k: nat, item: InboxItem,
                    minted: Ulid, pos: nat, rows: seq<Row>, rows': seq<Row>, rejections: seq<Rejection>, rejections': seq<Rejection>,
                    notices: seq<Source>, notices': seq<Source>, ignored: set<Source>, ignored': set<Source>, done: bool)
    requires item in all && UniqueSources(all)
    requires var d := DecideIntake(RoomAt(rooms, id, k), rows, item, minted, pos);
      && Carries(d, item, rows, rows', rejections, rejections', notices, notices', done)
      && ignored' == ignored + if d.Ignored? then {SourceOf(item)} else {}
    ensures SaneBy(all, rows, rejections) ==> SaneBy(all, rows', rejections')
    ensures TruthfulBy(rooms, id, all, oldRows, oldRejections, rows, rejections, ignored) ==>
      TruthfulBy(rooms, id, all, oldRows, oldRejections, rows', rejections', ignored')
  {
    if SaneBy(all, rows, rejections) {
      SaneCarried(all, RoomAt(rooms, id, k), minted, pos, item, rows, rows', rejections, rejections', notices, notices', done);
    }
    if TruthfulBy(rooms, id, all, oldRows, oldRejections, rows, rejections, ignored) {
      TruthCarried(rooms, id, all, oldRows, oldRejections, k, item, minted, pos,
                   rows, rows', rejections, rejections', notices, notices', ignored, ignored', done);
    }
  }

  lemma KeptReplayed(rooms: nat -> Room, id: RoomId, all: set<InboxItem>, oldRows: nat, oldRejections: nat,
                     rows: seq<Row>, rows': seq<Row>, rejections: seq<Rejection>, ignored: set<Source>)
    requires GrewByIntents(rows, rows')
    ensures SaneBy(all, rows, rejections) ==> SaneBy(all, rows', rejections)
    ensures TruthfulBy(rooms, id, all, oldRows, oldRejections, rows, rejections, ignored) ==>
      TruthfulBy(rooms, id, all, oldRows, oldRejections, rows', rejections, ignored)
  {
    if SaneBy(all, rows, rejections) { SaneReplayed(all, rows, rows', rejections); }
    if TruthfulBy(rooms, id, all, oldRows, oldRejections, rows, rejections, ignored) {
      TruthWithout(rooms, id, all, oldRows, oldRejections, rows, rows', rejections, ignored);
    }
  }

  lemma DecidedAppends(rooms: nat -> Room, id: RoomId, k: nat, item: InboxItem, minted: Ulid, pos: nat, row: Row, rows: seq<Row>)
    requires DecideIntake(RoomAt(rooms, id, k), rows, item, minted, pos) == Appended(row)
    ensures Appends(rooms, id, rows, item, row)
  {
    AppendedRow(RoomAt(rooms, id, k), rows, item, minted, pos);
    assert row.id == minted && row.pos == pos;
  }

  lemma TruthAppended(rooms: nat -> Room, id: RoomId, all: set<InboxItem>, oldRows: nat, oldRejections: nat, item: InboxItem, row: Row,
                      rows: seq<Row>, rows': seq<Row>, rejections: seq<Rejection>, ignored: set<Source>)
    requires TruthfulBy(rooms, id, all, oldRows, oldRejections, rows, rejections, ignored) && item in all
    requires Appends(rooms, id, rows, item, row) && GrewByIntents(rows + [row], rows')
    ensures TruthfulBy(rooms, id, all, oldRows, oldRejections, rows', rejections, ignored)
  {
    assert rows'[..|rows|] == rows && rows'[|rows|] == row;
    assert RowDecided(rooms, id, all, rows', |rows|);
    forall j | |rows| < j < |rows'| ensures RowDecided(rooms, id, all, rows', j) {
      assert rows'[j].Intent?;
    }
    TruthStays(rooms, id, all, oldRows, oldRejections, rows, rows', rejections, ignored);
  }

  predicate SettledBy(rows: seq<Row>, rejections: seq<Rejection>, ignored: set<Source>, s: Source) {
    HasRecord(rows, rejections, s) || s in ignored
  }

  ghost predicate TakenBy(rows: seq<Row>, rejections: seq<Rejection>, ignored: set<Source>, read: set<InboxItem>,
                          listed: seq<InboxItem>, n: nat, handled: bool)
    requires n <= |listed|
  {
    forall i :: 0 <= i < n ==> SettledBy(rows, rejections, ignored, SourceOf(listed[i])) && (handled || listed[i] in read)
  }

  lemma TakenStays(rows: seq<Row>, rejections: seq<Rejection>, ignored: set<Source>, read: set<InboxItem>,
                   rows': seq<Row>, rejections': seq<Rejection>, ignored': set<Source>, read': set<InboxItem>,
                   listed: seq<InboxItem>, n: nat, handled: bool, more: bool)
    requires n <= |listed| && TakenBy(rows, rejections, ignored, read, listed, n, handled)
    requires rows <= rows' && rejections <= rejections' && ignored <= ignored' && read <= read'
    ensures TakenBy(rows', rejections', ignored', read', listed, n, handled || more)
  {
    forall i | 0 <= i < n ensures SettledBy(rows', rejections', ignored', SourceOf(listed[i])) {
      if HasRecord(rows, rejections, SourceOf(listed[i])) { RecordsStay(rows, rows', rejections, rejections', SourceOf(listed[i])); }
    }
  }

  predicate TypedIsFirst(unread: set<InboxItem>, typed: set<nat>, order: InboxItem -> nat) {
    exists n :: n in typed && forall x :: x in unread ==> n < order(x)
  }

  method OldestRow(rows: set<InboxItem>, order: InboxItem -> nat) returns (first: InboxItem)
    requires rows != {}
    ensures first in rows && forall x :: x in rows ==> order(first) <= order(x)
  {
    first :| first in rows;
    var left := rows - {first};
    while left != {}
      invariant left <= rows && first in rows && forall x :: x in rows && x !in left ==> order(first) <= order(x)
    {
      var x :| x in left;
      if order(x) < order(first) { first := x; }
      left := left - {x};
    }
  }

  method FirstNumber(numbers: set<nat>) returns (first: nat, none: bool)
    ensures none <==> numbers == {}
    ensures !none ==> first in numbers && forall n :: n in numbers ==> first <= n
  {
    if numbers == {} { return 0, true; }
    first :| first in numbers;
    none := false;
    var left := numbers - {first};
    while left != {}
      invariant left <= numbers && first in numbers && forall n :: n in numbers && n !in left ==> first <= n
    {
      var n :| n in left;
      if n < first { first := n; }
      left := left - {n};
    }
  }

  class Pump {
    const journal: Journal
    /** Every row of this inbox, and the SDK's sequence number of each. */
    const all: set<InboxItem>
    const order: InboxItem -> nat
    /** The room as the pump finds it, load by load; it may change as it likes in between. */
    const rooms: nat -> Room
    /** What was archived and refused before the pump started. */
    const oldRows: nat
    const oldRejections: nat
    var rejections: seq<Rejection>
    // The SDK inbox: unread texts, unread typed rows by sequence number, unread files, and what is read.
    var unread: set<InboxItem>
    var typed: set<nat>
    var waiting: set<InboxItem>
    var read: set<InboxItem>
    // What will still arrive.
    var coming: set<InboxItem>
    var comingTyped: set<nat>
    /** What went out to rejected senders. */
    var notices: seq<Source>
    /** Rows that the room decided are owed nothing. */
    ghost var ignored: set<Source>
    /** The row the SDK handed out last, as long as nothing settles it. */
    ghost var holding: Option<InboxItem>
    /** For every time processing stopped short: the row it was holding, if any. */
    ghost var halts: seq<Option<InboxItem>>

    ghost predicate Settled(s: Source)
      reads this, journal
    {
      SettledBy(journal.rows, rejections, ignored, s)
    }

    ghost predicate Valid()
      reads this, journal
    {
      && journal.Valid() && OneRecordEach(journal.rows, rejections) && InboxValid() && NoticesValid() && Accounted()
    }

    /** No row is in two places, and no two rows share a source. */
    ghost predicate InboxValid()
      reads this
    {
      && UniqueSources(all) && (forall x :: x in all <==> x in unread || x in waiting || x in coming || x in read)
      && (forall x :: x in unread ==> !x.isFile && x !in read) && (forall x :: x in waiting ==> x.isFile && x !in read)
      && (forall x :: x in coming ==> x !in unread && x !in waiting && x !in read) && (forall n :: n in comingTyped ==> n !in typed)
    }

    ghost predicate NoticesValid()
      reads this
    {
      Distinct(notices) && forall s :: s in notices ==> exists r :: r in rejections && SourceOf(r.item) == s
    }

    /**
     A consumed row is unsettled exactly when it is being held, or processing stopped while it was held:
     after the SDK had marked it read and before anything about it was committed.
     */
    ghost predicate Accounted()
      reads this, journal
    {
      && (forall i :: i in read ==> (!Settled(SourceOf(i)) <==> holding == Some(i) || Some(i) in halts))
      && (forall i :: Some(i) in halts ==> i in read)
      && (holding.Some? ==> holding.value in read && holding !in halts)
    }

    /** What every operation leaves in place: records, read marks, sent notices and stops are never taken back. */
    twostate predicate Grows()
      reads this, journal
    {
      && old(journal.rows) <= journal.rows && old(rejections) <= rejections && old(read) <= read && old(notices) <= notices
      && old(ignored) <= ignored && old(halts) <= halts
    }

    twostate lemma SettledStays(s: Source)
      requires Grows() && old(Settled(s))
      ensures Settled(s)
    {
      if old(HasRecord(journal.rows, rejections, s)) {
        RecordsStay(old(journal.rows), journal.rows, old(rejections), rejections, s);
      }
    }

    /** The first `n` listed rows are settled and, unless typed rows got in the way, consumed. */
    ghost predicate Taken(rows: seq<InboxItem>, n: nat, handled: bool)
      requires n <= |rows|
      reads this, journal
    {
      TakenBy(journal.rows, rejections, ignored, read, rows, n, handled)
    }

    /** Every row has a wire and agrees with whatever is saved about its source. */
    ghost predicate Sane()
      reads this, journal
    {
      SaneBy(all, journal.rows, rejections)
    }

    /** What the pump settled was decided so in a room it loaded, with the archive of that moment. */
    ghost predicate Truthful()
      reads this, journal
    {
      TruthfulBy(rooms, journal.room, all, oldRows, oldRejections, journal.rows, rejections, ignored)
    }

    twostate predicate Keeps()
      reads this, journal
    {
      (old(Sane()) ==> Sane()) && (old(Truthful()) ==> Truthful())
    }

    constructor (j: Journal, saved: seq<Rejection>, rows: set<InboxItem>, numbers: InboxItem -> nat, commands: set<nat>, loads: nat -> Room)
      requires j.Valid() && OneRecordEach(j.rows, saved) && UniqueSources(rows)
      ensures Valid() && Truthful() && journal == j && rejections == saved && rooms == loads
      ensures all == rows && coming == rows && order == numbers && comingTyped == commands
      ensures unread == {} && typed == {} && waiting == {} && read == {} && notices == []
      ensures ignored == {} && holding.None? && halts == []
    {
      journal, rejections, all, coming, order, comingTyped := j, saved, rows, rows, numbers, commands;
      unread, typed, waiting, read, notices := {}, {}, {}, {}, [];
      ignored, holding, halts := {}, None, [];
      rooms, oldRows, oldRejections := loads, |j.rows|, |saved|;
    }

    /** The typed rows the SDK still has to handle. */
    ghost function TypedLeft(): set<nat>
      reads this
    {
      typed + comingTyped
    }

    /** No text gets lost on the way from unread to read, and no file is touched. */
    twostate predicate KeepsRows()
      reads this
    {
      && (forall x :: x in old(unread) ==> x in unread || x in read) && (forall x :: x in old(waiting) ==> x in waiting)
      && old(read) <= read && TypedLeft() <= old(TypedLeft()) && coming <= old(coming) && comingTyped <= old(comingTyped)
    }

    /** Nothing more will arrive. */
    ghost predicate Quiet()
      reads this
    {
      coming == {} && comingTyped == {}
    }

    twostate predicate ComesLess()
      reads this
    {
      coming <= old(coming) && comingTyped <= old(comingTyped)
    }

    /** One row arrives. */
    method Deliver(item: InboxItem)
      requires Valid() && item in coming && !item.isFile
      modifies `unread, `coming
      ensures Valid() && unread == old(unread) + {item} && coming == old(coming) - {item}
    {
      unread, coming := unread + {item}, coming - {item};
    }

    method DeliverTyped(n: nat)
      requires Valid() && n in comingTyped
      modifies `typed, `comingTyped
      ensures Valid() && typed == old(typed) + {n} && comingTyped == old(comingTyped) - {n}
    {
      typed, comingTyped := typed + {n}, comingTyped - {n};
    }

    /** Between any two steps rows arrive, possibly older ones than those already there. */
    method Arrive()
      requires Valid()
      modifies `unread, `typed, `waiting, `coming, `comingTyped
      ensures Valid() && TypedLeft() == old(TypedLeft()) && coming <= old(coming) && comingTyped <= old(comingTyped)
      ensures old(unread) <= unread && old(waiting) <= waiting
      ensures old(coming) == {} ==> unread == old(unread) && waiting == old(waiting)
      ensures old(comingTyped) == {} ==> typed == old(typed)
    {
      ArriveRows();
      ArriveTyped();
    }

    method ArriveRows()
      requires Valid()
      modifies `unread, `waiting, `coming
      ensures Valid() && coming <= old(coming) && old(unread) <= unread && old(waiting) <= waiting
      ensures old(coming) == {} ==> unread == old(unread) && waiting == old(waiting)
    {
      var texts, docs := Choose(coming);
      unread, waiting, coming := unread + texts, waiting + docs, coming - texts - docs;
    }

    method ArriveTyped()
      requires Valid()
      modifies `typed, `comingTyped
      ensures Valid() && TypedLeft() == old(TypedLeft()) && comingTyped <= old(comingTyped)
      ensures old(comingTyped) == {} ==> typed == old(typed)
    {
      var numbers := ChooseNumbers(comingTyped);
      typed, comingTyped := typed + numbers, comingTyped - numbers;
    }

    /** Processing stops short here; whatever row is held stays unsettled for good. */
    ghost method Halt()
      requires Valid()
      modifies `holding, `halts
      ensures Valid() && holding.None? && halts == old(halts) + [old(holding)]
    {
      halts, holding := halts + [holding], None;
    }

    // ----- Settling one source -------------------------------------------------------------------------

    /** An unread row, the row being held, or a row whose source is settled. */
    ghost predicate MayProcess(item: InboxItem)
      reads this, journal
    {
      Settled(SourceOf(item)) || holding == Some(item) || forall i :: i in read ==> SourceOf(i) != SourceOf(item)
    }

    /** The item is committed together with its relay obligations; it is held no longer. */
    method CommitRow(item: InboxItem, row: Row)
      requires Valid() && MayProcess(item) && !HasRecord(journal.rows, rejections, SourceOf(item))
      requires row.IsItem() && row.room == journal.room && row.At(journal.next) == row && DistinctCids(row.recipients)
      requires RowSource(row) == Some(SourceOf(item)) && forall x :: x in journal.rows ==> !MentionsKey(x, row.KeyOf())
      modifies `holding, journal`rows, journal`next, journal`work
      ensures Valid() && journal.rows == old(journal.rows) + [row]
      ensures holding == if old(holding) == Some(item) then None else old(holding)
    {
      ghost var before := journal.rows;
      RowIsOnly(before, rejections, row, SourceOf(item));
      forall s ensures HasRecord(before + [row], rejections, s) <==> HasRecord(before, rejections, s) || s == SourceOf(item) {
        RecordedAfterRow(before, rejections, row, s);
      }
      var ok := journal.AppendItem(row);
      holding := if holding == Some(item) then None else holding;
    }

    /** The durable refusal. */
    method Refuse(item: InboxItem, error: Failure)
      requires Valid() && MayProcess(item) && !HasRecord(journal.rows, rejections, SourceOf(item))
      modifies `holding, `rejections, journal`rows, journal`next, journal`work
      ensures Valid() && journal.rows == old(journal.rows) && rejections == old(rejections) + [Rejection(item, error)]
      ensures holding == if old(holding) == Some(item) then None else old(holding)
      ensures SourceOf(item) !in notices
    {
      ghost var before := rejections;
      var r := Rejection(item, error);
      RejectionIsOnly(journal.rows, before, r);
      forall s ensures HasRecord(journal.rows, before + [r], s) <==> HasRecord(journal.rows, before, s) || s == SourceOf(item) {
        RecordedAfterRejection(journal.rows, before, r, s);
      }
      assert forall x :: x in before ==> x in before + [r];
      journal.AppendOther();
      rejections := rejections + [r];
      holding := if holding == Some(item) then None else holding;
    }

    /** The durable refusal comes first and is the claim for the one notice attempt. */
    method CommitRejection(item: InboxItem, error: Failure, steady: bool) returns (ok: bool)
      requires Valid() && MayProcess(item) && !HasRecord(journal.rows, rejections, SourceOf(item))
      modifies `holding, `rejections, `notices, journal`rows, journal`next, journal`work
      ensures Valid() && journal.rows == old(journal.rows)
      ensures rejections == old(rejections) || rejections == old(rejections) + [Rejection(item, error)]
      ensures notices == old(notices) || notices == old(notices) + [SourceOf(item)]
      ensures notices != old(notices) ==> rejections != old(rejections)
      ensures holding == if old(holding) == Some(item) && rejections != old(rejections) then None else old(holding)
      ensures ok ==> rejections != old(rejections) && notices != old(notices)
      ensures steady ==> ok
    {
      var stop := Interrupted(steady);
      if stop { return false; }
      Refuse(item, error);
      stop := Interrupted(steady);
      if stop { return false; }
      assert rejections[|rejections| - 1] in rejections;
      notices := notices + [SourceOf(item)];
      return true;
    }

    /** One batch of intents for an archived item; a crash may end it anywhere. */
    method CompleteIntents(row: Row, steady: bool) returns (ok: bool)
      requires Valid() && row in journal.rows && row.IsItem()
      modifies journal`rows, journal`next, journal`work
      ensures Valid() && GrewByIntents(old(journal.rows), journal.rows) && journal.work <= old(journal.work)
      ensures steady ==> ok
    {
      ghost var before := journal.rows;
      ok := journal.CompleteItem(row, steady);
      NothingRecorded(before, journal.rows, rejections);
    }

    /** What the room decides about a source nothing is recorded about, with a freshly minted ID. */
    method Decide(item: InboxItem, live: Room) returns (decision: Intake, id: Ulid)
      requires live.id == journal.room
      ensures decision == DecideIntake(live, journal.rows, item, id, journal.next)
      ensures decision.Appended? ==> IsFreshRow(decision.row, item, journal.rows, journal.room, journal.next)
    {
      id := MintId(journal.rows);
      decision := DecideIntake(live, journal.rows, item, id, journal.next);
      if decision.Appended? { AppendedRow(live, journal.rows, item, id, journal.next); }
    }

    method SettleRow(item: InboxItem, row: Row, steady: bool) returns (ok: bool)
      requires Valid() && MayProcess(item) && !HasRecord(journal.rows, rejections, SourceOf(item))
      requires IsFreshRow(row, item, journal.rows, journal.room, journal.next)
      modifies `holding, journal`rows, journal`next, journal`work
      ensures Valid() && (journal.rows == old(journal.rows) || GrewByIntents(old(journal.rows) + [row], journal.rows))
      ensures if journal.rows == old(journal.rows) then !ok && holding == old(holding)
        else Settled(SourceOf(item)) && holding == if old(holding) == Some(item) then None else old(holding)
      ensures journal.rows == old(journal.rows) ==> (Settled(SourceOf(item)) <==> old(Settled(SourceOf(item))))
      ensures steady ==> ok
    {
      var stop := Interrupted(steady);
      if stop { return false; }
      ghost var before := journal.rows;
      CommitRow(item, row);
      assert journal.rows[|before|] == row;
      ok := CompleteIntents(row, steady);
      assert journal.rows[|before|] == row && row in journal.rows;
    }

    /** Nothing is owed, so nothing is recorded; the row is held no longer. */
    method Ignore(item: InboxItem)
      requires Valid() && MayProcess(item)
      modifies `holding, `ignored
      ensures Valid() && ignored == old(ignored) + {SourceOf(item)}
      ensures holding == if old(holding) == Some(item) then None else old(holding)
    {
      ignored := ignored + {SourceOf(item)};
      holding := if holding == Some(item) then None else holding;
    }

    /** The decision is carried out; a refusal needs a source wire. */
    method Settle(item: InboxItem, decision: Intake, steady: bool) returns (ok: bool)
      requires Valid() && MayProcess(item) && !HasRecord(journal.rows, rejections, SourceOf(item))
      requires decision.Appended? ==> IsFreshRow(decision.row, item, journal.rows, journal.room, journal.next)
      modifies `holding, `rejections, `notices, `ignored, journal`rows, journal`next, journal`work
      ensures Valid() && Grows() && (ok ==> Settled(SourceOf(item)))
      ensures holding == if old(holding) == Some(item) && Settled(SourceOf(item)) then None else old(holding)
      ensures Carries(decision, item, old(journal.rows), journal.rows, old(rejections), rejections, old(notices), notices, ok)
      ensures ignored == old(ignored) + if decision.Ignored? then {SourceOf(item)} else {}
      ensures steady && item.wire != "" ==> ok
    {
      if decision.Ignored? {
        Ignore(item);
        return true;
      } else if decision.Rejected? {
        if item.wire == "" { return false; }
        ok := CommitRejection(item, decision.failure, steady);
        MoreRejections(journal.rows, rejections, item);
      } else {
        ok := SettleRow(item, decision.row, steady);
      }
    }

    /** A recorded source is compared, and its outstanding intents completed; nothing is recorded again. */
    method Replay(item: InboxItem, steady: bool) returns (ok: bool)
      requires Valid() && HasRecord(journal.rows, rejections, SourceOf(item))
      modifies journal`rows, journal`next, journal`work
      ensures Valid() && GrewByIntents(old(journal.rows), journal.rows)
      ensures steady && Consistent(old(journal.rows), rejections, item) ==> ok
      ensures ok ==> IsRepeated(old(journal.rows), rejections, item)
    {
      var refused := FindRejection(rejections, SourceOf(item));
      if refused.Some? { return refused.value.item == item; }
      var saved := FindRow(journal.rows, SourceOf(item)).value;
      if !MatchesRow(saved, item) { return false; }
      ok := CompleteIntents(saved, steady);
    }

    /**
     `processInboxItem` and `processFileInboxItem` up to the acknowledgement. `ok` is false after a
     crash, a throw, or a replay that does not match what was saved.
     */
    method Process(item: InboxItem, live: Room, steady: bool) returns (ok: bool, ghost id: Ulid)
      requires Valid() && MayProcess(item) && live.id == journal.room
      modifies `holding, `rejections, `notices, `ignored, journal`rows, journal`next, journal`work
      ensures Valid() && Grows() && (ok ==> Settled(SourceOf(item)))
      ensures holding == if old(holding) == Some(item) && Settled(SourceOf(item)) then None else old(holding)
      ensures old(HasRecord(journal.rows, rejections, SourceOf(item))) ==>
        rejections == old(rejections) && notices == old(notices) && GrewByIntents(old(journal.rows), journal.rows)
      ensures old(HasRecord(journal.rows, rejections, SourceOf(item))) ==> ignored == old(ignored)
      ensures !old(HasRecord(journal.rows, rejections, SourceOf(item))) ==>
        var d := DecideIntake(live, old(journal.rows), item, id, old(journal.next));
        && Carries(d, item, old(journal.rows), journal.rows, old(rejections), rejections, old(notices), notices, ok)
        && ignored == old(ignored) + if d.Ignored? then {SourceOf(item)} else {}
      ensures steady && old(Consistent(journal.rows, rejections, item)) && item.wire != "" ==> ok
      ensures ok && old(HasRecord(journal.rows, rejections, SourceOf(item))) ==> old(IsRepeated(journal.rows, rejections, item))
    {
      if FindRow(journal.rows, SourceOf(item)).Some? || FindRejection(rejections, SourceOf(item)).Some? {
        id := "";
        ok := Replay(item, steady);
      } else {
        var decision;
        decision, id := Decide(item, live);
        ok := Settle(item, decision, steady);
      }
    }

    // ----- The SDK's side --------------------------------------------------------------------------------

    /** The room as it is when a row is processed. */
    method LoadRoom() returns (live: Room, ghost k: nat)
      ensures live == RoomAt(rooms, journal.room, k)
    {
      var load: nat := *;
      live, k := RoomAt(rooms, journal.room, load), load;
    }

    /** Process a row under the room lock, in whatever state the room is by then. */
    method ProcessLocked(item: InboxItem, steady: bool) returns (ok: bool)
      requires Valid() && MayProcess(item) && item in all && (holding.None? || holding == Some(item))
      modifies `holding, `rejections, `notices, `ignored, journal`rows, journal`next, journal`work
      ensures Valid() && Grows() && (ok ==> Settled(SourceOf(item)))
      ensures holding == if old(holding) == Some(item) && Settled(SourceOf(item)) then None else old(holding)
      ensures Keeps() && (steady && old(Sane()) ==> ok)
    {
      var live, k := LoadRoom();
      ghost var rows, refused, told, next, passed := journal.rows, rejections, notices, journal.next, ignored;
      ghost var unsaved := !HasRecord(journal.rows, rejections, SourceOf(item));
      ghost var id;
      ok, id := Process(item, live, steady);
      if unsaved {
        KeptCarried(rooms, journal.room, all, oldRows, oldRejections, k, item, id, next,
                    rows, journal.rows, refused, rejections, told, notices, passed, ignored, ok);
      } else {
        KeptReplayed(rooms, journal.room, all, oldRows, oldRejections, rows, journal.rows, rejections, ignored);
      }
    }

    /**
     `getMessages({ limit: 1 })`: the SDK goes through its unread rows, oldest first. It handles typed
     rows itself and hands out at most one text, which it marks read before anybody has seen it.
     */
    method GetMessages() returns (item: Option<InboxItem>, handled: bool)
      requires Valid() && holding.None?
      modifies `unread, `typed, `read, `holding
      ensures Valid() && typed <= old(typed) && if handled then TypedLeft() < old(TypedLeft()) else typed == old(typed)
      ensures item.None? ==> read == old(read) && unread == old(unread) && (!handled ==> unread == {} && typed == {})
      ensures item.Some? ==> item.value in old(unread) && unread == old(unread) - {item.value} && read == old(read) + {item.value}
      ensures item.Some? ==> forall x :: x in unread ==> order(item.value) <= order(x)
      ensures holding == if item.Some? && !Settled(SourceOf(item.value)) then item else None
    {
      handled := false;
      while unread != {} || typed != {}
        invariant Valid() && typed <= old(typed) && if handled then TypedLeft() < old(TypedLeft()) else typed == old(typed)
        invariant unread == old(unread) && read == old(read) && holding.None?
        decreases typed
      {
        var more: bool := *;
        if handled && !more { return None, true; }
        var head := FirstUnread();
        if head.TextFirst? {
          HandOut(head.item);
          return Some(head.item), handled;
        }
        ghost var before := TypedLeft();
        typed, handled := typed - {head.n}, true;
        assert head.n in before && head.n !in TypedLeft();
      }
      return None, handled;
    }

    /** The oldest unread row. */
    method FirstUnread() returns (head: Head)
      requires unread != {} || typed != {}
      ensures head.TextFirst? ==> head.item in unread && forall x :: x in unread ==> order(head.item) <= order(x)
      ensures head.TextFirst? ==> forall n :: n in typed ==> order(head.item) <= n
      ensures head.TypedFirst? ==> head.n in typed && forall x :: x in unread ==> head.n < order(x)
    {
      if unread == {} {
        var n :| n in typed;
        return TypedFirst(n);
      }
      var first := OldestRow(unread, order);
      var n, none := FirstNumber(typed);
      if none || order(first) <= n { return TextFirst(first); }
      return TypedFirst(n);
    }

    method HandOut(item: InboxItem)
      requires Valid() && holding.None? && item in unread
      modifies `unread, `read, `holding
      ensures Valid() && unread == old(unread) - {item} && read == old(read) + {item}
      ensures holding == if !Settled(SourceOf(item)) then Some(item) else None
    {
      unread, read := unread - {item}, read + {item};
      if !Settled(SourceOf(item)) { holding := Some(item); }
    }

    // ----- The loops --------------------------------------------------------------------------------------

    /** What a call that consumed rows did: each is settled, but for the one held when it stopped short. */
    ghost predicate Explained(before: set<InboxItem>, stops: seq<Option<InboxItem>>, progress: Progress)
      reads this, journal
    {
      && before <= read && Stops(stops, halts, progress)
      && forall i :: i in read - before ==>
        (!Settled(SourceOf(i)) <==> progress.Halted? && halts[|halts| - 1] == Some(i))
    }

    lemma Explains(before: set<InboxItem>, stops: seq<Option<InboxItem>>, progress: Progress)
      requires Valid() && holding.None? && before <= read && Stops(stops, halts, progress)
      requires forall i :: Some(i) in stops ==> i in before
      ensures Explained(before, stops, progress)
    {
      forall i | i in read - before ensures !Settled(SourceOf(i)) <==> progress.Halted? && halts[|halts| - 1] == Some(i) {
        assert Some(i) in halts <==> Some(i) in stops || (progress.Halted? && halts[|halts| - 1] == Some(i));
      }
    }

    /** One row handed out of turn is processed before anything else; it is read already. */
    method Promoted(item: InboxItem, steady: bool) returns (ok: bool)
      requires Valid() && item in read && holding == (if Settled(SourceOf(item)) then None else Some(item))
      modifies `holding, `halts, `rejections, `notices, `ignored, journal`rows, journal`next, journal`work
      ensures Valid() && Grows() && holding.None? && Keeps()
      ensures Stops(old(halts), halts, if ok then Drained else Halted)
      ensures steady && old(Sane()) ==> ok
    {
      ok := ProcessLocked(item, steady);
      if !ok { Halt(); }
    }

    /** The next answer of the SDK; its loss on the way is a stop with the row held. */
    method Receive(steady: bool) returns (ok: bool, item: Option<InboxItem>, handled: bool)
      requires Valid() && holding.None?
      modifies `unread, `typed, `read, `holding, `halts
      ensures Valid() && KeepsRows() && Stops(old(halts), halts, if ok then Drained else Halted) && (steady ==> ok)
      ensures item.None? ==> read == old(read) && (ok && !handled ==> unread == {} && typed == {})
      ensures if handled then TypedLeft() < old(TypedLeft()) else typed == old(typed)
      ensures item.Some? ==> item.value in read && item.value !in old(read)
      ensures holding == if ok && item.Some? && !Settled(SourceOf(item.value)) then item else None
    {
      item, handled := None, false;
      var stop := Interrupted(steady);
      if !stop {
        item, handled := GetMessages();
        stop := Interrupted(steady);
      }
      ok := !stop;
      if stop { Halt(); }
    }

    /** More rows may arrive before the SDK answers. */
    method NextAnswer(steady: bool) returns (ok: bool, item: Option<InboxItem>, handled: bool)
      requires Valid() && holding.None?
      modifies `unread, `typed, `waiting, `coming, `comingTyped, `read, `holding, `halts
      ensures Valid() && KeepsRows() && Stops(old(halts), halts, if ok then Drained else Halted) && (steady ==> ok)
      ensures item.None? && ok && !handled ==> unread == {} && typed == {}
      ensures if handled then TypedLeft() < old(TypedLeft()) else old(typed) <= typed
      ensures item.Some? ==> item.value in read && item.value !in old(read)
      ensures holding == if ok && item.Some? && !Settled(SourceOf(item.value)) then item else None
    {
      Arrive();
      ok, item, handled := Receive(steady);
    }

    /** One answer of the SDK; a row handed out that is not the expected one is processed at once. */
    method PullOne(expected: Option<InboxItem>, steady: bool) returns (ok: bool, item: Option<InboxItem>, handled: bool)
      requires Valid() && holding.None? && (expected.Some? ==> Settled(SourceOf(expected.value)))
      modifies this, journal`rows, journal`next, journal`work
      ensures Valid() && Grows() && holding.None? && Keeps() && KeepsRows()
      ensures Stops(old(halts), halts, if ok then Drained else Halted) && (steady && old(Sane()) ==> ok)
      ensures item.None? && ok && !handled ==> unread == {} && typed == {}
      ensures if handled then TypedLeft() < old(TypedLeft()) else old(typed) <= typed
      ensures item.Some? ==> item.value in read && item.value !in old(read)
    {
      ok, item, handled := NextAnswer(steady);
      if ok { ok := PromoteUnless(expected, item, steady); }
    }

    /** Whatever was handed out, unless it is the expected row, which is settled. */
    method PromoteUnless(expected: Option<InboxItem>, item: Option<InboxItem>, steady: bool) returns (ok: bool)
      requires Valid() && (expected.Some? ==> Settled(SourceOf(expected.value))) && (item.Some? ==> item.value in read)
      requires holding == if item.Some? && !Settled(SourceOf(item.value)) then item else None
      modifies `holding, `halts, `rejections, `notices, `ignored, journal`rows, journal`next, journal`work
      ensures Valid() && Grows() && holding.None? && Keeps()
      ensures Stops(old(halts), halts, if ok then Drained else Halted) && (steady && old(Sane()) ==> ok)
    {
      ok := true;
      if item.Some? && item != expected { ok := Promoted(item.value, steady); }
    }

    /** One turn of the loop; another one follows a row that was not the expected one. */
    method PullNext(expected: InboxItem, steady: bool) returns (progress: Progress, handled: bool, again: bool)
      requires Valid() && holding.None? && Settled(SourceOf(expected)) && (expected in unread || expected in read)
      modifies this, journal`rows, journal`next, journal`work
      ensures Valid() && Grows() && holding.None? && Keeps() && KeepsRows()
      ensures Stops(old(halts), halts, progress) && (steady && old(Sane()) ==> progress.Drained?)
      ensures handled ==> TypedLeft() < old(TypedLeft())
      ensures again ==> progress.Drained? && read != old(read) && Settled(SourceOf(expected)) && (expected in unread || expected in read)
      ensures progress.Drained? && !again ==> expected in read || handled
    {
      progress, handled, again := Paused, false, false;
      var pause := Interrupted(steady);
      if !pause {
        var ok, item;
        ok, item, handled := PullOne(Some(expected), steady);
        SettledStays(SourceOf(expected));
        progress, again := if ok then Drained else Halted, ok && item.Some? && item.value != expected;
      }
    }

    /** Answer after answer, until it is the expected row or holds no message. */
    method PullUntil(expected: InboxItem, steady: bool) returns (progress: Progress, handled: bool)
      requires Valid() && holding.None? && Settled(SourceOf(expected)) && (expected in unread || expected in read)
      modifies this, journal`rows, journal`next, journal`work
      ensures Valid() && Grows() && holding.None? && Keeps() && KeepsRows()
      ensures Stops(old(halts), halts, progress) && (steady && old(Sane()) ==> progress.Drained?)
      ensures (progress.Drained? ==> expected in read || handled) && (handled ==> TypedLeft() < old(TypedLeft()))
    {
      progress, handled := Paused, false;
      while true
        invariant Valid() && Grows() && holding.None? && Keeps() && halts == old(halts) && KeepsRows()
        invariant Settled(SourceOf(expected)) && (expected in unread || expected in read) && (handled ==> TypedLeft() < old(TypedLeft()))
        decreases all - read, TypedLeft()
      {
        var again;
        progress, handled, again := PullNext(expected, steady);
        if !again { break; }
      }
    }

    /**
     `acknowledgeMessage`: rows handed out ahead of the expected one are settled on the way. Unless it is
     paused or stops short, the expected row is consumed, or typed rows were handled and it is left for
     the next listing.
     */
    method AcknowledgeMessage(expected: InboxItem, steady: bool) returns (progress: Progress, handled: bool)
      requires Valid() && holding.None? && Settled(SourceOf(expected)) && (expected in unread || expected in read)
      modifies this, journal`rows, journal`next, journal`work
      ensures Valid() && Grows() && holding.None? && Keeps() && KeepsRows()
      ensures Explained(old(read), old(halts), progress) && (steady && old(Sane()) ==> progress.Drained?)
      ensures (progress.Drained? ==> expected in read || handled) && (handled ==> TypedLeft() < old(TypedLeft()))
    {
      progress, handled := PullUntil(expected, steady);
      Explains(old(read), old(halts), progress);
    }

    method TakeFile(item: InboxItem, steady: bool) returns (ok: bool)
      requires Valid() && holding.None? && Settled(SourceOf(item)) && item in waiting
      modifies `waiting, `read, `holding, `halts
      ensures Valid() && holding.None? && Stops(old(halts), halts, if ok then Drained else Halted)
      ensures (waiting == old(waiting) && read == old(read)) || (waiting == old(waiting) - {item} && read == old(read) + {item})
      ensures (ok ==> item in read) && (steady ==> ok)
    {
      var stop := Interrupted(steady);
      if !stop {
        waiting, read := waiting - {item}, read + {item};
        stop := Interrupted(steady);
      }
      ok := !stop;
      if stop { Halt(); }
    }

    /** `acknowledgeFile` names the one file it read-marks, so a file is never handed out of turn. */
    method AcknowledgeFile(item: InboxItem, steady: bool) returns (ok: bool)
      requires Valid() && holding.None? && Settled(SourceOf(item)) && item in waiting
      modifies `waiting, `read, `holding, `halts
      ensures Valid() && holding.None? && Explained(old(read), old(halts), if ok then Drained else Halted)
      ensures (waiting == old(waiting) && read == old(read)) || (waiting == old(waiting) - {item} && read == old(read) + {item})
      ensures (ok ==> item in read) && (steady ==> ok)
    {
      ok := TakeFile(item, steady);
      Explains(old(read), old(halts), if ok then Drained else Halted);
    }

    /** What a listing shows: whether the oldest unread row is a typed one. */
    method ListFirst() returns (typedFirst: bool)
      requires Valid()
      modifies `unread, `typed, `waiting, `coming, `comingTyped
      ensures Valid() && KeepsRows() && typedFirst == TypedIsFirst(unread, typed, order)
    {
      Arrive();
      if unread == {} && typed == {} { return false; }
      var head := FirstUnread();
      return head.TypedFirst?;
    }

    /** If a listing shows a typed row first, the SDK is asked for one message. */
    method PullIfTyped(steady: bool) returns (progress: Progress, typedFirst: bool)
      requires Valid() && holding.None?
      modifies this, journal`rows, journal`next, journal`work
      ensures Valid() && Grows() && holding.None? && Keeps() && KeepsRows()
      ensures Stops(old(halts), halts, progress) && (steady && old(Sane()) ==> progress.Drained?)
      ensures progress.Drained? && typedFirst ==> read != old(read) || TypedLeft() < old(TypedLeft())
      ensures progress.Drained? && !typedFirst ==> !TypedIsFirst(unread, typed, order)
    {
      progress, typedFirst := Paused, false;
      var pause := Interrupted(steady);
      if !pause {
        typedFirst := ListFirst();
        progress := Drained;
        if typedFirst { progress := PullAny(steady); }
      }
    }

    /** Some typed row is there, so one answer makes progress. */
    method PullAny(steady: bool) returns (progress: Progress)
      requires Valid() && holding.None? && typed != {}
      modifies this, journal`rows, journal`next, journal`work
      ensures Valid() && Grows() && holding.None? && Keeps() && KeepsRows()
      ensures Stops(old(halts), halts, progress) && (steady && old(Sane()) ==> progress.Drained?)
      ensures progress.Drained? ==> read != old(read) || TypedLeft() < old(TypedLeft())
    {
      var ok, item, handled := PullOne(None, steady);
      progress := if ok then Drained else Halted;
    }

    method PullTyped(steady: bool) returns (progress: Progress)
      requires Valid() && holding.None?
      modifies this, journal`rows, journal`next, journal`work
      ensures Valid() && Grows() && holding.None? && Keeps() && KeepsRows()
      ensures Stops(old(halts), halts, progress) && (steady && old(Sane()) ==> progress.Drained?)
      ensures progress.Drained? ==> !TypedIsFirst(unread, typed, order)
    {
      var typedFirst;
      while true
        invariant Valid() && Grows() && holding.None? && Keeps() && halts == old(halts) && KeepsRows()
        decreases all - read, TypedLeft()
      {
        progress, typedFirst := PullIfTyped(steady);
        if !progress.Drained? || !typedFirst { break; }
      }
    }

    /**
     `drainRuntimeCommands`: as long as the oldest unread row is typed, the SDK is asked for one message.
     If a text became the oldest in between, it is handed out, read already, and processed.
     */
    method DrainCommands(steady: bool) returns (progress: Progress)
      requires Valid() && holding.None?
      modifies this, journal`rows, journal`next, journal`work
      ensures Valid() && Grows() && holding.None? && Keeps() && KeepsRows()
      ensures Explained(old(read), old(halts), progress) && (steady && old(Sane()) ==> progress.Drained?)
      ensures progress.Drained? ==> !TypedIsFirst(unread, typed, order)
    {
      progress := PullTyped(steady);
      Explains(old(read), old(halts), progress);
    }

    /** `listUnreadMessages`: the oldest unread texts ahead of the first typed row. */
    method ListMessages(limit: nat) returns (messages: seq<InboxItem>)
      requires limit > 0
      ensures |messages| <= limit && forall m :: m in messages ==> m in unread && forall n :: n in typed ==> order(m) <= n
      ensures messages == [] ==> unread == {} || TypedIsFirst(unread, typed, order)
    {
      messages := [];
      var rest := unread;
      while |messages| < limit && rest != {}
        invariant rest <= unread && |messages| <= limit && (messages == [] ==> rest == unread)
        invariant forall m :: m in messages ==> m in unread && forall n :: n in typed ==> order(m) <= n
        decreases rest
      {
        var x := OldestRow(rest, order);
        var n, none := FirstNumber(typed);
        if !none && n < order(x) { return; }
        messages, rest := messages + [x], rest - {x};
      }
    }

    /** `listUnreadFiles`: the oldest unread files. */
    method ListFiles(limit: nat) returns (docs: seq<InboxItem>)
      requires limit > 0
      ensures |docs| <= limit && (forall i, j :: 0 <= i < j < |docs| ==> docs[i] != docs[j]) && forall d :: d in docs ==> d in waiting
      ensures docs == [] ==> waiting == {}
    {
      docs := [];
      var rest := waiting;
      while |docs| < limit && rest != {}
        invariant rest <= waiting && |docs| <= limit && (docs == [] ==> rest == waiting)
        invariant (forall i, j :: 0 <= i < j < |docs| ==> docs[i] != docs[j]) && forall d :: d in docs ==> d in waiting && d !in rest
        decreases rest
      {
        var x := OldestRow(rest, order);
        docs, rest := docs + [x], rest - {x};
      }
    }

    /** A listed row is settled first; `paused` means the pump was asked to pause before it began. */
    method SettleListed(item: InboxItem, steady: bool) returns (progress: Progress)
      requires Valid() && holding.None? && item in all && (Settled(SourceOf(item)) || item !in read)
      modifies `holding, `halts, `rejections, `notices, `ignored, journal`rows, journal`next, journal`work
      ensures Valid() && Grows() && holding.None? && Keeps()
      ensures Stops(old(halts), halts, progress) && (steady && old(Sane()) ==> progress.Drained?)
      ensures progress.Drained? ==> Settled(SourceOf(item))
    {
      var pause := Interrupted(steady);
      if pause { return Paused; }
      var ok := ProcessLocked(item, steady);
      if !ok { Halt(); return Halted; }
      return Drained;
    }

    /** One listed message: settled, then acknowledged. */
    method TakeMessage(item: InboxItem, steady: bool) returns (progress: Progress, handled: bool)
      requires Valid() && holding.None? && item in all && (item in unread || (item in read && Settled(SourceOf(item))))
      modifies this, journal`rows, journal`next, journal`work
      ensures Valid() && Grows() && holding.None? && Keeps() && KeepsRows()
      ensures Stops(old(halts), halts, progress) && (steady && old(Sane()) ==> progress.Drained?)
      ensures progress.Drained? ==> Settled(SourceOf(item)) && (item in read || handled)
      ensures handled ==> TypedLeft() < old(TypedLeft())
    {
      handled := false;
      progress := SettleListed(item, steady);
      if progress.Drained? {
        label Committed:
        progress, handled := PullUntil(item, steady);
        SettledStays@Committed(SourceOf(item));
      }
    }

    lemma NewlyReadIsSettled(before: set<InboxItem>, stops: seq<Option<InboxItem>>, x: InboxItem)
      requires Valid() && holding.None? && halts == stops && (forall i :: Some(i) in stops ==> i in before)
      requires x in read && x !in before
      ensures Settled(SourceOf(x))
    {
    }

    /** The next of the listed messages. */
    method TakeNext(messages: seq<InboxItem>, k: nat, before: bool, steady: bool) returns (progress: Progress, handled: bool)
      requires Valid() && holding.None? && k < |messages| && messages[k] in all && Taken(messages, k, before)
      requires messages[k] in unread || (messages[k] in read && Settled(SourceOf(messages[k])))
      modifies this, journal`rows, journal`next, journal`work
      ensures Valid() && Grows() && holding.None? && Keeps() && KeepsRows()
      ensures Stops(old(halts), halts, progress) && (steady && old(Sane()) ==> progress.Drained?)
      ensures handled && !before ==> TypedLeft() < old(TypedLeft())
      ensures before ==> handled
      ensures progress.Drained? ==> Taken(messages, k + 1, handled)
    {
      var more;
      ghost var rows, refused, passed, seen := journal.rows, rejections, ignored, read;
      progress, more := TakeMessage(messages[k], steady);
      handled := before || more;
      TakenStays(rows, refused, passed, seen, journal.rows, rejections, ignored, read, messages, k, before, more);
    }

    /** The listed messages in turn. */
    method TakeMessages(messages: seq<InboxItem>, steady: bool) returns (progress: Progress, handled: bool)
      requires Valid() && holding.None? && forall i :: 0 <= i < |messages| ==> messages[i] in unread
      modifies this, journal`rows, journal`next, journal`work
      ensures Valid() && Grows() && holding.None? && Keeps() && KeepsRows()
      ensures Stops(old(halts), halts, progress) && (steady && old(Sane()) ==> progress.Drained?)
      ensures handled ==> TypedLeft() < old(TypedLeft())
      ensures progress.Drained? ==> Taken(messages, |messages|, handled)
    {
      progress, handled := Drained, false;
      for k := 0 to |messages|
        invariant Valid() && Grows() && holding.None? && Keeps() && halts == old(halts) && KeepsRows()
        invariant progress.Drained? && (handled ==> TypedLeft() < old(TypedLeft()))
        invariant Taken(messages, k, handled)
      {
        if messages[k] in read { NewlyReadIsSettled(old(read), old(halts), messages[k]); }
        progress, handled := TakeNext(messages, k, handled, steady);
        if !progress.Drained? { break; }
      }
    }

    /** The next of the listed files: settled, then marked read by name. */
    method TakeNextFile(docs: seq<InboxItem>, k: nat, steady: bool) returns (progress: Progress)
      requires Valid() && holding.None? && k < |docs| && docs[k] in waiting && Taken(docs, k, false)
      modifies `waiting, `read, `holding, `halts, `rejections, `notices, `ignored, journal`rows, journal`next, journal`work
      ensures Valid() && Grows() && holding.None? && Keeps()
      ensures Stops(old(halts), halts, progress) && (steady && old(Sane()) ==> progress.Drained?)
      ensures forall x :: x in old(waiting) && x != docs[k] ==> x in waiting
      ensures progress.Drained? ==> Taken(docs, k + 1, false)
    {
      ghost var rows, refused, passed, seen := journal.rows, rejections, ignored, read;
      progress := SettleListed(docs[k], steady);
      if progress.Drained? {
        var ok := TakeFile(docs[k], steady);
        progress := if ok then Drained else Halted;
      }
      TakenStays(rows, refused, passed, seen, journal.rows, rejections, ignored, read, docs, k, false, false);
    }

    method TakeFiles(docs: seq<InboxItem>, steady: bool) returns (progress: Progress)
      requires Valid() && holding.None? && forall i :: 0 <= i < |docs| ==> docs[i] in waiting
      requires forall i, j :: 0 <= i < j < |docs| ==> docs[i] != docs[j]
      modifies `waiting, `read, `holding, `halts, `rejections, `notices, `ignored, journal`rows, journal`next, journal`work
      ensures Valid() && Grows() && holding.None? && Keeps()
      ensures Stops(old(halts), halts, progress) && (steady && old(Sane()) ==> progress.Drained?)
      ensures progress.Drained? ==> Taken(docs, |docs|, false)
    {
      progress := Drained;
      for k := 0 to |docs|
        invariant Valid() && Grows() && holding.None? && Keeps() && halts == old(halts) && progress.Drained?
        invariant Taken(docs, k, false) && forall i :: k <= i < |docs| ==> docs[i] in waiting
      {
        progress := TakeNextFile(docs, k, steady);
        if !progress.Drained? { break; }
      }
    }

    method TakeListed(messages: seq<InboxItem>, docs: seq<InboxItem>, steady: bool) returns (progress: Progress, handled: bool)
      requires Valid() && holding.None? && (forall i :: 0 <= i < |messages| ==> messages[i] in unread)
      requires forall i :: 0 <= i < |docs| ==> docs[i] in waiting
      requires forall i, j :: 0 <= i < j < |docs| ==> docs[i] != docs[j]
      modifies this, journal`rows, journal`next, journal`work
      ensures Valid() && Grows() && holding.None? && Keeps() && ComesLess()
      ensures Stops(old(halts), halts, progress) && (steady && old(Sane()) ==> progress.Drained?)
      ensures TypedLeft() <= old(TypedLeft()) && (handled ==> TypedLeft() < old(TypedLeft()))
      ensures progress.Drained? ==> Taken(messages, |messages|, handled) && Taken(docs, |docs|, false)
    {
      progress, handled := TakeMessages(messages, steady);
      if progress.Drained? {
        ghost var rows, refused, passed, seen := journal.rows, rejections, ignored, read;
        progress := TakeFiles(docs, steady);
        TakenStays(rows, refused, passed, seen, journal.rows, rejections, ignored, read, messages, |messages|, handled, false);
      }
    }

    /**
     One snapshot of the inbox: each row is settled before it is acknowledged. After a completed drain
     all of them are settled and, unless typed rows came first and wait for the next listing, consumed.
     Whatever else was consumed on the way is settled too, but for a row held when processing stopped.
     */
    method DrainSnapshot(messages: seq<InboxItem>, docs: seq<InboxItem>, steady: bool) returns (progress: Progress, handled: bool)
      requires Valid() && holding.None? && (forall i :: 0 <= i < |messages| ==> messages[i] in unread)
      requires forall i :: 0 <= i < |docs| ==> docs[i] in waiting
      requires forall i, j :: 0 <= i < j < |docs| ==> docs[i] != docs[j]
      modifies this, journal`rows, journal`next, journal`work
      ensures Valid() && Grows() && holding.None? && Keeps() && ComesLess()
      ensures Explained(old(read), old(halts), progress) && (steady && old(Sane()) ==> progress.Drained?)
      ensures TypedLeft() <= old(TypedLeft()) && (handled ==> TypedLeft() < old(TypedLeft()))
      ensures progress.Drained? ==> Taken(messages, |messages|, handled) && Taken(docs, |docs|, false)
    {
      progress, handled := TakeListed(messages, docs, steady);
      Explains(old(read), old(halts), progress);
    }

    /** List and drain; `more` is whether the listing showed anything. */
    method DrainListing(steady: bool) returns (progress: Progress, more: bool)
      requires Valid() && holding.None?
      modifies this, journal`rows, journal`next, journal`work
      ensures Valid() && Grows() && holding.None? && Keeps() && ComesLess() && TypedLeft() <= old(TypedLeft())
      ensures Stops(old(halts), halts, progress) && (steady && old(Sane()) ==> progress.Drained?)
      ensures progress.Drained? && more ==> read != old(read) || TypedLeft() < old(TypedLeft())
      ensures !more ==> progress.Drained? && waiting == {} && (unread == {} || TypedIsFirst(unread, typed, order))
      ensures !more && old(Quiet()) ==> unread == old(unread) && typed == old(typed)
    {
      var messages, docs := ListAll();
      progress, more := Drained, |messages| > 0 || |docs| > 0;
      if more {
        var handled;
        progress, handled := TakeListed(messages, docs, steady);
        if |messages| > 0 { assert messages[0] in messages; }
        if |docs| > 0 { assert docs[0] in docs; }
      }
    }

    /** The messages and the files there are now; more may have arrived. */
    method ListAll() returns (messages: seq<InboxItem>, docs: seq<InboxItem>)
      requires Valid()
      modifies `unread, `typed, `waiting, `coming, `comingTyped
      ensures Valid() && TypedLeft() == old(TypedLeft()) && ComesLess()
      ensures old(Quiet()) ==> unread == old(unread) && typed == old(typed)
      ensures (forall i :: 0 <= i < |messages| ==> messages[i] in unread) && forall i :: 0 <= i < |docs| ==> docs[i] in waiting
      ensures forall i, j :: 0 <= i < j < |docs| ==> docs[i] != docs[j]
      ensures messages == [] ==> unread == {} || TypedIsFirst(unread, typed, order)
      ensures docs == [] ==> waiting == {}
    {
      Arrive();
      messages := ListMessages(INTAKE_BATCH_SIZE);
      docs := ListFiles(INTAKE_BATCH_SIZE);
    }

    /** One round of `drainAndRelay` before the relay: commands, a listing, and what it shows. `more` asks for another. */
    method DrainRound(steady: bool) returns (progress: Progress, more: bool)
      requires Valid() && holding.None?
      modifies this, journal`rows, journal`next, journal`work
      ensures Valid() && Grows() && holding.None? && Keeps() && ComesLess() && TypedLeft() <= old(TypedLeft())
      ensures Stops(old(halts), halts, progress) && (steady && old(Sane()) ==> progress.Drained?)
      ensures progress.Drained? && more ==> read != old(read) || TypedLeft() < old(TypedLeft())
      ensures progress.Drained? && !more ==> waiting == {} && (unread == {} || TypedIsFirst(unread, typed, order))
      ensures progress.Drained? && !more && old(Quiet()) ==> unread == {} && typed == {} && waiting == {}
    {
      progress := CommandsUnlessPaused(steady);
      more := false;
      if progress.Drained? { progress, more := ListUnlessPaused(steady); }
    }

    method CommandsUnlessPaused(steady: bool) returns (progress: Progress)
      requires Valid() && holding.None?
      modifies this, journal`rows, journal`next, journal`work
      ensures Valid() && Grows() && holding.None? && Keeps() && KeepsRows()
      ensures Stops(old(halts), halts, progress) && (steady && old(Sane()) ==> progress.Drained?)
      ensures progress.Drained? ==> !TypedIsFirst(unread, typed, order)
    {
      progress := Paused;
      var pause := Interrupted(steady);
      if !pause { progress := DrainCommands(steady); }
    }

    method ListUnlessPaused(steady: bool) returns (progress: Progress, more: bool)
      requires Valid() && holding.None?
      modifies this, journal`rows, journal`next, journal`work
      ensures Valid() && Grows() && holding.None? && Keeps() && ComesLess() && TypedLeft() <= old(TypedLeft())
      ensures Stops(old(halts), halts, progress) && (steady && old(Sane()) ==> progress.Drained?)
      ensures progress.Drained? && more ==> read != old(read) || TypedLeft() < old(TypedLeft())
      ensures progress.Drained? && !more ==> waiting == {} && (unread == {} || TypedIsFirst(unread, typed, order))
      ensures progress.Drained? && !more && old(Quiet()) ==> unread == old(unread) && typed == old(typed)
    {
      progress, more := Paused, false;
      var pause := Interrupted(steady);
      if !pause { progress, more := DrainListing(steady); }
    }

    method DrainRounds(steady: bool) returns (progress: Progress)
      requires Valid() && holding.None?
      modifies this, journal`rows, journal`next, journal`work
      ensures Valid() && Grows() && holding.None? && Keeps()
      ensures Stops(old(halts), halts, progress) && (steady && old(Sane()) ==> progress.Drained?)
      ensures progress.Drained? ==> waiting == {} && (unread == {} || TypedIsFirst(unread, typed, order))
      ensures progress.Drained? && old(Quiet()) ==> unread == {} && typed == {}
    {
      var more;
      while true
        invariant Valid() && Grows() && holding.None? && Keeps() && halts == old(halts) && (old(Quiet()) ==> Quiet())
        decreases all - read, TypedLeft()
      {
        progress, more := DrainRound(steady);
        if !progress.Drained? || !more { break; }
      }
    }

    /**
     The intake half of `drainAndRelay`: round after round until a listing shows nothing. Every row ever
     consumed on the way is settled, but for one held when processing stopped; a completed drain leaves
     no file, and no text that is not behind a typed row; and nothing at all if nothing more arrives.
     */
    method DrainInbox(steady: bool) returns (progress: Progress)
      requires Valid() && holding.None?
      modifies this, journal`rows, journal`next, journal`work
      ensures Valid() && Grows() && holding.None? && Keeps()
      ensures Explained(old(read), old(halts), progress) && (steady && old(Sane()) ==> progress.Drained?)
      ensures progress.Drained? ==> waiting == {} && (unread == {} || TypedIsFirst(unread, typed, order))
      ensures progress.Drained? && old(Quiet()) ==> unread == {} && typed == {}
    {
      progress := DrainRounds(steady);
      Explains(old(read), old(halts), progress);
    }

    method CompleteOwed(steady: bool) returns (ok: bool)
      requires Valid() && holding.None?
      modifies `holding, `halts, journal`rows, journal`next, journal`work
      ensures Valid() && GrewByIntents(old(journal.rows), journal.rows) && holding.None? && (old(Truthful()) ==> Truthful())
      ensures Stops(old(halts), halts, if ok then Drained else Halted) && (steady ==> ok)
      ensures ok ==> journal.work == {}
    {
      ghost var before := journal.rows;
      ok := journal.CompleteSnapshot(steady);
      NothingRecorded(before, journal.rows, rejections);
      if old(Truthful()) { TruthWithout(rooms, journal.room, all, oldRows, oldRejections, before, journal.rows, rejections, ignored); }
      if !ok { Halt(); }
    }

    method RelayPending(answers: RecordId -> Answers, steady: bool) returns (outcome: RelayOutcome, ghost start: World)
      requires Valid() && holding.None?
      modifies `holding, `halts, journal
      ensures Valid() && GrewByResults(old(journal.rows), journal.rows) && holding.None? && journal.work == old(journal.work)
      ensures old(Truthful()) ==> Truthful()
      ensures Stops(old(halts), halts, if outcome.Stopped? then Halted else Drained) && (steady ==> !outcome.Stopped?)
      ensures start == old(journal.Now(start.room)) && Passed(start, answers, journal.Now(start.room), outcome)
      ensures outcome.Relayed? ==> AllResolved(journal.rows)
    {
      ghost var before := journal.rows;
      var live, k := LoadRoom();
      start := journal.Now(live);
      outcome := journal.RelayRoom(live, answers, steady);
      NothingRecorded(before, journal.rows, rejections);
      if old(Truthful()) { TruthWithout(rooms, journal.room, all, oldRows, oldRejections, before, journal.rows, rejections, ignored); }
      if outcome.Stopped? { Halt(); }
    }

    /** The relay half, under the room lock: what is owed is discharged, then every pending intent is tried. */
    method CompleteAndRelay(answers: RecordId -> Answers, steady: bool) returns (outcome: RelayOutcome, ghost start: World)
      requires Valid() && holding.None?
      modifies `holding, `halts, journal
      ensures Valid() && old(journal.rows) <= journal.rows && holding.None? && (old(Truthful()) ==> Truthful())
      ensures Stops(old(halts), halts, if outcome.Stopped? then Halted else Drained) && (steady ==> !outcome.Stopped?)
      ensures !outcome.Stopped? ==> journal.work == {} && GrewByIntents(old(journal.rows), start.rows) && start.sent == old(journal.sent)
      ensures !outcome.Stopped? ==> Passed(start, answers, journal.Now(start.room), outcome)
      ensures outcome.Relayed? ==> AllResolved(journal.rows)
    {
      start := journal.Now(RoomAt(rooms, journal.room, 0));
      var ok := CompleteOwed(steady);
      if !ok { return Stopped, start; }
      outcome, start := RelayPending(answers, steady);
    }

    /**
     `drainAndRelay`. When it completes and no send threw, every consumed row is settled, nothing is owed,
     and every intent that names an archived item and recipient has its result. An error surfaces exactly
     if some send of the one pass over what was pending threw.
     */
    method DrainAndRelay(answers: RecordId -> Answers, steady: bool)
        returns (progress: Progress, outcome: RelayOutcome, ghost start: World)
      requires Valid() && holding.None?
      modifies this, journal
      ensures Valid() && Grows() && holding.None? && Explained(old(read), old(halts), progress) && (old(Truthful()) ==> Truthful())
      ensures steady && old(Sane()) ==> progress.Drained?
      ensures progress.Drained? ==> journal.work == {} && !outcome.Stopped?
      ensures progress.Drained? ==> old(journal.rows) <= start.rows && start.sent == old(journal.sent)
      ensures progress.Drained? ==> Passed(start, answers, journal.Now(start.room), outcome)
      ensures progress.Drained? && outcome.Relayed? ==> AllResolved(journal.rows)
      ensures progress.Drained? && old(Quiet()) ==> unread == {} && typed == {} && waiting == {}
    {
      outcome, start := Stopped, journal.Now(RoomAt(rooms, journal.room, 0));
      progress := DrainRounds(steady);
      if progress.Drained? { progress, outcome, start := RelayUnlessPaused(answers, steady); }
      Explains(old(read), old(halts), progress);
    }

    method RelayUnlessPaused(answers: RecordId -> Answers, steady: bool)
        returns (progress: Progress, outcome: RelayOutcome, ghost start: World)
      requires Valid() && holding.None?
      modifies `holding, `halts, journal
      ensures Valid() && old(journal.rows) <= journal.rows && holding.None? && (old(Truthful()) ==> Truthful())
      ensures Stops(old(halts), halts, progress) && (steady ==> progress.Drained?)
      ensures progress.Drained? ==> !outcome.Stopped? && journal.work == {}
      ensures progress.Drained? ==> GrewByIntents(old(journal.rows), start.rows) && start.sent == old(journal.sent)
      ensures progress.Drained? ==> Passed(start, answers, journal.Now(start.room), outcome)
      ensures progress.Drained? && outcome.Relayed? ==> AllResolved(journal.rows)
    {
      progress, outcome, start := Paused, Stopped, journal.Now(RoomAt(rooms, journal.room, 0));
      var pause := Interrupted(steady);
      if !pause {
        outcome, start := CompleteAndRelay(answers, steady);
        progress := if outcome.Stopped? then Halted else Drained;
      }
    }
  }

  /** Unsettled rows are no more than the times processing stopped short. */
  lemma LostAtMostOnePerStop(p: Pump, lost: set<InboxItem>)
    requires p.Valid() && p.holding.None? && forall i :: i in lost ==> i in p.read && !p.Settled(SourceOf(i))
    ensures |lost| <= |p.halts|
  {
    FitsInto(lost, p.halts);
  }

  lemma {:induction false} FitsInto(lost: set<InboxItem>, halts: seq<Option<InboxItem>>)
    requires forall i :: i in lost ==> Some(i) in halts
    ensures |lost| <= |halts|
  {
    if halts == [] {
      assert lost == {};
    } else {
      var last, init := halts[|halts| - 1], halts[..|halts| - 1];
      var rest := if last.Some? then lost - {last.value} else lost;
      FitsInto(rest, init);
      assert last.Some? ==> lost <= rest + {last.value};
    }
  }

  function Arrived(n: nat): InboxItem {
    InboxItem(false, n, "A", "text", 0, "wire", None)
  }

  /** A room nobody was ever in; what a stranger sends is owed nothing. */
  function Vacant(): Room {
    Room("r", Active, [], [], [], false, false, 0, [], false)
  }

  /** A pump with one row there, numbered as given, and another one to come. */
  method StartPump(commands: set<nat>) returns (p: Pump)
    ensures fresh(p) && fresh(p.journal) && p.Valid() && p.journal.rows == [] && p.rejections == [] && p.ignored == {} && p.read == {}
    ensures p.holding.None? && p.halts == [] && p.unread == {} && p.typed == {} && p.comingTyped == commands
    ensures p.journal.room == "r" && forall k: nat :: RoomAt(p.rooms, "r", k) == Vacant()
    ensures p.coming == {Arrived(1), Arrived(2)} && p.order(Arrived(1)) == 1 && p.order(Arrived(2)) == 2
  {
    var j := new Journal("r");
    p := new Pump(j, [], {Arrived(1), Arrived(2)}, (x: InboxItem) => x.sourceId, commands, _ => Vacant());
  }

  /** Processing a stranger's message in that room settles it without a record. */
  method SettleStranger(p: Pump, item: InboxItem)
    requires p.Valid() && p.journal.rows == [] && p.rejections == [] && p.holding.None? && p.read == {} && item.reply.None?
    requires p.journal.room == "r" && forall k: nat :: RoomAt(p.rooms, "r", k) == Vacant()
    modifies p`holding, p`rejections, p`notices, p`ignored, p.journal`rows, p.journal`next, p.journal`work
    ensures p.Valid() && p.journal.rows == [] && p.rejections == [] && p.holding.None?
    ensures p.ignored == old(p.ignored) + {SourceOf(item)}
  {
    var live, k := p.LoadRoom();
    var ok, id := p.Process(item, live, true);
  }

  /** One row is listed and settled; another one is to come. */
  method SettledPump() returns (p: Pump)
    ensures fresh(p) && fresh(p.journal) && p.Valid() && p.holding.None? && p.halts == [] && p.read == {} && p.typed == {}
    ensures p.unread == {Arrived(2)} && p.coming == {Arrived(1)} && p.order(Arrived(1)) == 1 && p.order(Arrived(2)) == 2
    ensures p.comingTyped == {} && p.journal.rows == [] && p.rejections == [] && p.ignored == {SourceOf(Arrived(2))}
  {
    p := StartPump({});
    p.Deliver(Arrived(2));
    SettleStranger(p, Arrived(2));
  }

  /**
   The loss is real. While a listed row is being acknowledged, an older one becomes unread and is handed
   out first; a crash right then leaves it read and settled by nothing.
   */
  method InterruptedPromotion() returns (p: Pump)
    ensures p.Valid() && p.halts == [Some(Arrived(1))] && p.read == {Arrived(1)} && !p.Settled(SourceOf(Arrived(1)))
    ensures p.unread == {Arrived(2)} && p.Settled(SourceOf(Arrived(2)))
  {
    p := SettledPump();
    p.Deliver(Arrived(1));
    var item, handled := p.GetMessages();
    p.Halt();
  }

  /** A listing shows a typed row first. */
  method ListedTyped() returns (p: Pump)
    ensures fresh(p) && fresh(p.journal) && p.Valid() && p.holding.None? && p.halts == [] && p.read == {} && p.unread == {}
    ensures p.typed == {2} && TypedIsFirst(p.unread, p.typed, p.order) && Arrived(1) in p.coming && p.order(Arrived(1)) == 1
    ensures p.journal.rows == [] && p.rejections == [] && p.ignored == {}
  {
    p := StartPump({2});
    p.DeliverTyped(2);
    assert 2 in p.typed;
  }

  /**
   The command drain consumes rows too, with no expected row at all: a text that became the oldest after
   the listing showed a typed row is handed out, and a crash right then loses it.
   */
  method InterruptedCommandDrain() returns (p: Pump)
    ensures p.Valid() && p.halts == [Some(Arrived(1))] && p.read == {Arrived(1)} && !p.Settled(SourceOf(Arrived(1)))
    ensures p.journal.rows == [] && p.rejections == [] && p.ignored == {} && p.unread == {} && p.typed == {2}
  {
    p := ListedTyped();
    p.Deliver(Arrived(1));
    var head := p.FirstUnread();
    p.HandOut(head.item);
    p.Halt();
  }
}
