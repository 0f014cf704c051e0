/** The history one participant may read: visible messages only, numbered by what that viewer can see. */
module ThreadHistory {
  import opened Prelude
  import opened Rooms
  import opened ReplyThreading
  import opened Threads
  import opened ThreadRouting

  const MAX_HISTORY_PAGE_BYTES: nat := 3 * 1024 * 1024

  /** The public fields of a message: no archive position, no real identity of an aliased author, no routing. */
  datatype PublicMessage = PublicMessage(id: Ulid, at: Time, author: Author, category: Category, text: string,
                                         thread: Option<Ulid>, threadRoot: Option<ThreadMetadata>)

  datatype HistoryRow = HistoryRow(ordinal: nat, viewer: Ulid, message: PublicMessage)

  datatype History = NotAMember | RowTooLarge | Page(rows: seq<HistoryRow>)

  /** What `viewer` sees of one archived row, if anything. Rows that cannot be classified are hidden. */
  function ProjectOne(room: Room, rows: seq<Row>, viewer: Cid, record: Row): Option<PublicMessage> {
    if !record.Message? || record.room != room.id then None
    else
      match Classify(rows, View(room), record)
      case Err(f) => None
      case Ok(Ordinary) =>
        if record.alias.Some? && !ValidAlias(record.alias) then None
        else
          var author := if record.alias.None? then record.author
                        else Author(record.alias.value.participant, record.alias.value.alias, record.author.role);
          Some(PublicMessage(record.id, record.at, author, record.category, record.text, None, None))
      case Ok(Scoped(root, scope)) =>
        if !root.Message? || root.threadRoot.None? || !ActiveThreadSeat(room, root.threadRoot.value, viewer) then None
        else
          var metadata := PublicThreadMetadata(root, View(room));
          var author := PublicThreadAuthor(record, root.threadRoot.value, View(room));
          if metadata.Err? || author.Err? then None
          else Some(PublicMessage(record.id, record.at, author.value, record.category, record.text, Some(root.id),
                                  if record.id == root.id then Some(metadata.value) else None))
  }

  function Visible(room: Room, rows: seq<Row>, viewer: Cid, records: seq<Row>): seq<PublicMessage> {
    if records == [] then []
    else
      var earlier := Visible(room, rows, viewer, records[..|records| - 1]);
      match ProjectOne(room, rows, viewer, records[|records| - 1])
      case None => earlier
      case Some(m) => earlier + [m]
  }

  /** How many rows starting at index `from` fit on a page that already holds `count` rows and `bytes` bytes. */
  function Fits(visible: seq<PublicMessage>, viewer: Ulid, cost: HistoryRow -> nat, from: nat, limit: nat, count: nat, bytes: nat): (n: nat)
    ensures n == 0 || from + n <= |visible|
    ensures count + n <= limit || n == 0
    decreases |visible| - from
  {
    if from >= |visible| || count >= limit then 0
    else
      var size := RowSize(visible, viewer, cost, from, count);
      if bytes + size > MAX_HISTORY_PAGE_BYTES then 0
      else 1 + Fits(visible, viewer, cost, from + 1, limit, count + 1, bytes + size)
  }

  /** The serialized size of one row on the page, with its separating comma. */
  function RowSize(visible: seq<PublicMessage>, viewer: Ulid, cost: HistoryRow -> nat, index: nat, count: nat): nat
    requires index < |visible|
  {
    cost(HistoryRow(index + 1, viewer, visible[index])) + (if count > 0 then 1 else 0)
  }

  function Numbered(visible: seq<PublicMessage>, viewer: Ulid, from: nat, n: nat): seq<HistoryRow>
    requires n == 0 || from + n <= |visible|
  {
    seq(n, i requires 0 <= i < n => HistoryRow(from + i + 1, viewer, visible[from + i]))
  }

  function HistoryPage(room: Room, rows: seq<Row>, viewerCid: Cid, after: nat, limit: nat, cost: HistoryRow -> nat): History {
    var seat := ActiveSeatOf(room, viewerCid);
    if seat.None? || !room.state.Active? then NotAMember
    else
      PageOf(Visible(room, rows, viewerCid, rows), seat.value.participant, after, limit, cost)
  }

  function PageOf(visible: seq<PublicMessage>, viewer: Ulid, after: nat, limit: nat, cost: HistoryRow -> nat): History {
    var n := Fits(visible, viewer, cost, after, limit, 0, 2);
    if n == 0 && after < |visible| && limit > 0 then RowTooLarge
    else Page(Numbered(visible, viewer, after, n))
  }

  method VisibleMessages(room: Room, rows: seq<Row>, viewer: Cid) returns (visible: seq<PublicMessage>)
    ensures visible == Visible(room, rows, viewer, rows)
  {
    visible := [];
    for k := 0 to |rows|
      invariant visible == Visible(room, rows, viewer, rows[..k])
    {
      assert rows[..k + 1][..k] == rows[..k];
      var projected := ProjectOne(room, rows, viewer, rows[k]);
      if projected.Some? { visible := visible + [projected.value]; }
    }
    assert rows[..|rows|] == rows;
  }

  /** Fill one page: skip up to the cursor, then add rows until the limit or the byte budget stops it. */
  method FillPage(visible: seq<PublicMessage>, viewer: Ulid, after: nat, limit: nat, cost: HistoryRow -> nat)
    returns (history: History)
    requires limit > 0
    ensures history == PageOf(visible, viewer, after, limit, cost)
  {
    var output: seq<HistoryRow> := [];
    var bytes: nat := 2;
    var ordinal: nat := 0;
    while ordinal < |visible|
      invariant ordinal <= |visible| && |output| < limit
      invariant FillFrom(visible, viewer, cost, after, limit, ordinal, output, bytes) == FillFrom(visible, viewer, cost, after, limit, 0, [], 2)
    {
      ordinal := ordinal + 1;
      if ordinal <= after { continue; }
      var row := HistoryRow(ordinal, viewer, visible[ordinal - 1]);
      var size := cost(row) + (if |output| > 0 then 1 else 0);
      if bytes + size > MAX_HISTORY_PAGE_BYTES {
        FilledIsPage(visible, viewer, cost, after, limit, 0, [], 2);
        return if output == [] then RowTooLarge else Page(output);
      }
      output := output + [row];
      bytes := bytes + size;
      if |output| >= limit { break; }
    }
    FilledIsPage(visible, viewer, cost, after, limit, 0, [], 2);
    return Page(output);
  }

  /** What the loop still makes of its accumulators. */
  function FillFrom(visible: seq<PublicMessage>, viewer: Ulid, cost: HistoryRow -> nat, after: nat, limit: nat,
                    ordinal: nat, output: seq<HistoryRow>, bytes: nat): History
    decreases |visible| - ordinal
  {
    if ordinal >= |visible| || |output| >= limit then Page(output)
    else if ordinal < after then FillFrom(visible, viewer, cost, after, limit, ordinal + 1, output, bytes)
    else
      var row, size := HistoryRow(ordinal + 1, viewer, visible[ordinal]), RowSize(visible, viewer, cost, ordinal, |output|);
      if bytes + size > MAX_HISTORY_PAGE_BYTES then if output == [] then RowTooLarge else Page(output)
      else FillFrom(visible, viewer, cost, after, limit, ordinal + 1, output + [row], bytes + size)
  }

  /** The loop ends with the longest run that fits. */
  lemma {:induction false} FilledIsPage(visible: seq<PublicMessage>, viewer: Ulid, cost: HistoryRow -> nat, after: nat, limit: nat,
                                        ordinal: nat, output: seq<HistoryRow>, bytes: nat)
    requires PageSoFar(visible, viewer, cost, after, limit, ordinal, output, bytes)
    ensures FillFrom(visible, viewer, cost, after, limit, ordinal, output, bytes) == PageOf(visible, viewer, after, limit, cost)
    decreases |visible| - ordinal
  {
    if ordinal == |visible| {
      AllIsSeen(visible, viewer, cost, after, limit, output, bytes);
      PageEnds(visible, viewer, cost, after, limit, output);
    } else if ordinal < after {
      RowIsSkipped(visible, viewer, cost, after, limit, ordinal, output, bytes);
      FilledIsPage(visible, viewer, cost, after, limit, ordinal + 1, output, bytes);
    } else {
      var row, size := HistoryRow(ordinal + 1, viewer, visible[ordinal]), RowSize(visible, viewer, cost, ordinal, |output|);
      if bytes + size > MAX_HISTORY_PAGE_BYTES {
        RowIsTooMuch(visible, viewer, cost, after, limit, ordinal, output, bytes);
        PageEnds(visible, viewer, cost, after, limit, output);
      } else {
        RowIsNext(visible, viewer, cost, after, limit, ordinal, output, bytes);
        if |output| + 1 < limit {
          FilledIsPage(visible, viewer, cost, after, limit, ordinal + 1, output + [row], bytes + size);
        } else {
          PageEnds(visible, viewer, cost, after, limit, output + [row]);
        }
      }
    }
  }

  /** The page is complete once it holds all that fits. */
  lemma {:induction false} PageEnds(visible: seq<PublicMessage>, viewer: Ulid, cost: HistoryRow -> nat, after: nat, limit: nat,
                                    output: seq<HistoryRow>)
    requires limit > 0 && Fits(visible, viewer, cost, after, limit, 0, 2) == |output|
    requires output == Numbered(visible, viewer, after, |output|)
    ensures PageOf(visible, viewer, after, limit, cost) == if output == [] && after < |visible| then RowTooLarge else Page(output)
  {
  }

  method ProjectParticipantHistory(room: Room, rows: seq<Row>, viewerCid: Cid, after: nat, limit: nat, cost: HistoryRow -> nat)
    returns (history: History)
    requires limit > 0
    ensures history == HistoryPage(room, rows, viewerCid, after, limit, cost)
  {
    var seat := ActiveSeatOf(room, viewerCid);
    if seat.None? || !room.state.Active? { return NotAMember; }
    var visible := VisibleMessages(room, rows, viewerCid);
    history := FillPage(visible, seat.value.participant, after, limit, cost);
  }

  /** The loop's accumulators: the rows so far, and the page that is still to come from here. */
  ghost predicate PageSoFar(visible: seq<PublicMessage>, viewer: Ulid, cost: HistoryRow -> nat, after: nat, limit: nat,
                            ordinal: nat, output: seq<HistoryRow>, bytes: nat) {
    && ordinal <= |visible| && |output| < limit
    && |output| == (if ordinal <= after then 0 else ordinal - after)
    && output == Numbered(visible, viewer, after, |output|)
    && Fits(visible, viewer, cost, after, limit, 0, 2)
      == |output| + Fits(visible, viewer, cost, after + |output|, limit, |output|, bytes)
  }

  lemma RowIsSkipped(visible: seq<PublicMessage>, viewer: Ulid, cost: HistoryRow -> nat, after: nat, limit: nat,
                     ordinal: nat, output: seq<HistoryRow>, bytes: nat)
    requires PageSoFar(visible, viewer, cost, after, limit, ordinal, output, bytes) && ordinal < |visible| && ordinal < after
    ensures PageSoFar(visible, viewer, cost, after, limit, ordinal + 1, output, bytes)
  {
  }

  lemma {:induction false} RowIsTooMuch(visible: seq<PublicMessage>, viewer: Ulid, cost: HistoryRow -> nat, after: nat, limit: nat,
                     ordinal: nat, output: seq<HistoryRow>, bytes: nat)
    requires PageSoFar(visible, viewer, cost, after, limit, ordinal, output, bytes) && after <= ordinal < |visible|
    requires bytes + RowSize(visible, viewer, cost, ordinal, |output|) > MAX_HISTORY_PAGE_BYTES
    ensures Fits(visible, viewer, cost, after, limit, 0, 2) == |output| && output == Numbered(visible, viewer, after, |output|)
  {
  }

  /** One more visible message on the page. */
  lemma {:induction false} RowIsNext(visible: seq<PublicMessage>, viewer: Ulid, cost: HistoryRow -> nat, after: nat, limit: nat,
                  ordinal: nat, output: seq<HistoryRow>, bytes: nat)
    requires PageSoFar(visible, viewer, cost, after, limit, ordinal, output, bytes) && after <= ordinal < |visible|
    requires bytes + RowSize(visible, viewer, cost, ordinal, |output|) <= MAX_HISTORY_PAGE_BYTES
    ensures var row, size := HistoryRow(ordinal + 1, viewer, visible[ordinal]), RowSize(visible, viewer, cost, ordinal, |output|);
      && output + [row] == Numbered(visible, viewer, after, |output| + 1)
      && if |output| + 1 < limit then PageSoFar(visible, viewer, cost, after, limit, ordinal + 1, output + [row], bytes + size)
         else Fits(visible, viewer, cost, after, limit, 0, 2) == |output| + 1
  {
  }

  lemma {:induction false} AllIsSeen(visible: seq<PublicMessage>, viewer: Ulid, cost: HistoryRow -> nat, after: nat, limit: nat,
                  output: seq<HistoryRow>, bytes: nat)
    requires PageSoFar(visible, viewer, cost, after, limit, |visible|, output, bytes)
    ensures Fits(visible, viewer, cost, after, limit, 0, 2) == |output| && output == Numbered(visible, viewer, after, |output|)
  {
  }

  /** Following the cursor from page to page never skips, repeats or reorders a visible message. */
  lemma PagesAreConsecutive(room: Room, rows: seq<Row>, viewerCid: Cid, after: nat, limit: nat, cost: HistoryRow -> nat, limit': nat)
    requires limit > 0 && limit' > 0
    requires HistoryPage(room, rows, viewerCid, after, limit, cost).Page?
    requires var page := HistoryPage(room, rows, viewerCid, after, limit, cost).rows; page != []
    ensures var page := HistoryPage(room, rows, viewerCid, after, limit, cost).rows;
      && Slice(room, rows, viewerCid, after, page)
      && var next := HistoryPage(room, rows, viewerCid, page[|page| - 1].ordinal, limit', cost);
        (next.Page? ==> Slice(room, rows, viewerCid, after, page + next.rows))
        && (next.Page? && next.rows == [] ==> Exhausts(room, rows, viewerCid, after, page))
  {
    PagesJoin(Visible(room, rows, viewerCid, rows), ActiveSeatOf(room, viewerCid).value.participant, after, limit, cost, limit');
  }

  lemma PagesJoin(visible: seq<PublicMessage>, viewer: Ulid, after: nat, limit: nat, cost: HistoryRow -> nat, limit': nat)
    requires limit > 0 && limit' > 0 && PageOf(visible, viewer, after, limit, cost).Page?
    requires PageOf(visible, viewer, after, limit, cost).rows != []
    ensures var page := PageOf(visible, viewer, after, limit, cost).rows; var next := PageOf(visible, viewer, after + |page|, limit', cost);
      && after + |page| <= |visible| && page == Numbered(visible, viewer, after, |page|) && page[|page| - 1].ordinal == after + |page|
      && (next.Page? ==>
          && after + |page| + |next.rows| <= |visible|
          && page + next.rows == Numbered(visible, viewer, after, |page| + |next.rows|)
          && (next.rows == [] ==> after + |page| == |visible|))
  {
    var page := PageOf(visible, viewer, after, limit, cost).rows;
    PageIsRun(visible, viewer, after, limit, cost);
    var next := PageOf(visible, viewer, after + |page|, limit', cost);
    if next.Page? {
      PageIsRun(visible, viewer, after + |page|, limit', cost);
      RunsJoin(visible, viewer, after, |page|, |next.rows|);
    }
  }

  /** A page is a run of the visible messages; it is empty only at their end. */
  lemma PageIsRun(visible: seq<PublicMessage>, viewer: Ulid, after: nat, limit: nat, cost: HistoryRow -> nat)
    requires limit > 0 && PageOf(visible, viewer, after, limit, cost).Page?
    ensures var page := PageOf(visible, viewer, after, limit, cost).rows;
      && (page == [] || after + |page| <= |visible|) && page == Numbered(visible, viewer, after, |page|)
      && (page == [] ==> after >= |visible|)
  {
  }

  lemma RunsJoin(visible: seq<PublicMessage>, viewer: Ulid, from: nat, m: nat, n: nat)
    requires from + m <= |visible| && (n == 0 || from + m + n <= |visible|)
    ensures Numbered(visible, viewer, from, m) + Numbered(visible, viewer, from + m, n) == Numbered(visible, viewer, from, m + n)
  {
  }

  /** `page` is the run of this viewer's visible messages right after ordinal `after`. */
  ghost predicate Slice(room: Room, rows: seq<Row>, viewerCid: Cid, after: nat, page: seq<HistoryRow>) {
    var seat := ActiveSeatOf(room, viewerCid);
    var visible := Visible(room, rows, viewerCid, rows);
    && seat.Some? && after + |page| <= |visible|
    && page == Numbered(visible, seat.value.participant, after, |page|)
  }

  ghost predicate Exhausts(room: Room, rows: seq<Row>, viewerCid: Cid, after: nat, page: seq<HistoryRow>) {
    after + |page| == |Visible(room, rows, viewerCid, rows)|
  }
}
