/**
 Scoped reply threads. Whether a saved row is private is never stored as a flag to be trusted: it is
 recomputed from the native reply ancestry of the row, each ancestor resolved in its own author's
 namespace, and checked link by link from the oldest ancestor to the row itself.
 */
module Threads {
  import opened Prelude
  import opened Rooms
  import opened ReplyThreading

  datatype Failure = ReplyTargetUnavailable | ThreadFilesUnsupported | InvalidMembers | UnauthorizedViewer
  datatype Try<+T> = Ok(value: T) | Err(failure: Failure)

  /** The part of a room that classification may look at. */
  datatype RoomView = RoomView(id: RoomId, anonymous: bool)

  datatype Association = Ordinary | Scoped(root: Row, scope: Scope)
  datatype Link = Link(item: Row, resolved: ParentResolution)

  datatype ThreadMetadata = ThreadMetadata(threadId: Ulid, topic: string, creator: Author, participants: seq<Ulid>, createdAt: Time)

  function View(room: Room): RoomView { RoomView(room.id, room.anonymous) }

  predicate Declared(item: Row) {
    item.Message? && (item.scope.Some? || item.threadRoot.Some?)
  }

  predicate ValidAlias(alias: Option<AuthorAlias>) {
    alias.Some? && alias.value.alias != ""
  }

  predicate DistinctMembers(members: seq<Member>) {
    forall i, j :: 0 <= i < j < |members| ==>
      members[i].participant != members[j].participant && members[i].identity != members[j].identity
  }

  /** The stored shape of a thread root: members unique both ways, the creator one of them. */
  predicate ValidRoot(root: ThreadRoot) {
    && |root.members| > 0
    && DistinctMembers(root.members)
    && exists m :: m in root.members && m.participant == root.creator
  }

  function FindMember(members: seq<Member>, cid: Cid): (r: Option<Member>)
    ensures r.Some? ==> r.value in members && r.value.identity == cid
    ensures r.None? ==> forall m :: m in members ==> m.identity != cid
  {
    if members == [] then None
    else if members[0].identity == cid then Some(members[0])
    else FindMember(members[1..], cid)
  }

  /** The selected participant incarnation, still active: a CID that rejoined has another participant ID. */
  predicate ActiveThreadSeat(room: Room, root: ThreadRoot, cid: Cid) {
    exists seat :: seat in room.seats && seat.state.ActiveSeat? && seat.identity == cid
      && Member(seat.participant, cid) in root.members
  }

  function PublicThreadMetadata(root: Row, view: RoomView): Try<ThreadMetadata>
    requires root.Message? && root.threadRoot.Some?
  {
    var t := root.threadRoot.value;
    if view.anonymous && (!ValidAlias(root.alias) || root.alias.value.participant != t.creator) then Err(ReplyTargetUnavailable)
    else
      var creator := if view.anonymous then Author(root.alias.value.participant, root.alias.value.alias, root.author.role)
                     else root.author;
      var participants := seq(|t.members|, i requires 0 <= i < |t.members| => t.members[i].participant);
      Ok(ThreadMetadata(t.threadId, t.topic, creator, participants, root.at))
  }

  function PublicThreadAuthor(message: Row, root: ThreadRoot, view: RoomView): Try<Author>
    requires message.Message?
  {
    var member := FindMember(root.members, message.author.identity);
    if member.None? then Err(ReplyTargetUnavailable)
    else if !view.anonymous then Ok(message.author)
    else if !ValidAlias(message.alias) || message.alias.value.participant != member.value.participant then Err(ReplyTargetUnavailable)
    else Ok(Author(message.alias.value.participant, message.alias.value.alias, message.author.role))
  }

  predicate RootCandidate(r: Row, view: RoomView, id: Ulid) {
    && r.room == view.id && r.Message?
    && (r.id == id
        || (r.threadRoot.Some? && r.threadRoot.value.threadId == id)
        || (r.scope.Some? && r.scope.value.threadId == id && r.scope.value.parent.None?))
  }

  function RootCandidates(rows: seq<Row>, view: RoomView, id: Ulid): (r: seq<Row>)
    ensures forall x :: x in r <==> x in rows && RootCandidate(x, view, id)
    ensures forall i :: 0 <= i < |r| ==> r[i] in rows && r[i].Message?
  {
    var r := Filter(rows, (x: Row) => RootCandidate(x, view, id));
    assert forall i :: 0 <= i < |r| ==> r[i] in r;
    r
  }

  predicate WellFormedRoot(root: Row, id: Ulid) {
    && root.Message? && root.threadRoot.Some? && root.scope.Some?
    && ValidRoot(root.threadRoot.value)
    && root.id == id && root.threadRoot.value.threadId == id
    && root.scope.value == Scope(id, None)
    && root.category.Chat?
    && Member(root.threadRoot.value.creator, root.author.identity) in root.threadRoot.value.members
    && (root.alias.Some? ==> ValidAlias(root.alias) && root.alias.value.participant == root.threadRoot.value.creator)
    && root.sourceMessage.None? && root.sourceWire.None? && root.reply.None?
  }

  function FindThreadRoot(rows: seq<Row>, view: RoomView, id: Ulid): (r: Try<Row>)
    ensures r.Ok? ==> r.value in rows && WellFormedRoot(r.value, id) && r.value.room == view.id
  {
    var candidates := RootCandidates(rows, view, id);
    if |candidates| != 1 || !WellFormedRoot(candidates[0], id) then Err(ReplyTargetUnavailable)
    else
      assert candidates[0] in candidates;
      Ok(candidates[0])
  }

  /** A root is found exactly if one archived row alone is a candidate for the thread, and it is well formed. */
  lemma RootFoundIffLone(rows: seq<Row>, view: RoomView, id: Ulid)
    ensures FindThreadRoot(rows, view, id).Ok? <==>
      exists k: nat :: OnlyAt(rows, (x: Row) => RootCandidate(x, view, id), k) && WellFormedRoot(rows[k], id)
    ensures forall k: nat :: OnlyAt(rows, (x: Row) => RootCandidate(x, view, id), k) && WellFormedRoot(rows[k], id) ==>
      FindThreadRoot(rows, view, id) == Ok(rows[k])
  {
    FilterKeepsOne(rows, (x: Row) => RootCandidate(x, view, id));
  }

  /** The walk over native reply ancestry, newest first. */
  function Ancestry(rows: seq<Row>, view: RoomView, item: Row, seen: set<Key>, depth: nat): (r: Try<seq<Link>>)
    requires item.IsItem()
    ensures r.Ok? ==> |r.value| > 0 && r.value[0].item == item
    ensures r.Ok? ==> forall l :: l in r.value ==> l.item.IsItem()
    decreases item.pos
  {
    if item.room != view.id || item.KeyOf() in seen || depth > |rows| then Err(ReplyTargetUnavailable)
    else
      var resolved := Parent(rows, view, item);
      if !resolved.Resolved? then Ok([Link(item, resolved)])
      else
        match Ancestry(rows, view, resolved.item, seen + {item.KeyOf()}, depth + 1)
        case Err(f) => Err(f)
        case Ok(older) => Ok([Link(item, resolved)] + older)
  }

  function Parent(rows: seq<Row>, view: RoomView, item: Row): (r: ParentResolution)
    requires item.IsItem()
    ensures r.Resolved? ==> r.item in rows && r.item.IsItem() && r.item.pos < item.pos
  {
    ResolveReplyParent(rows, view.id, item.author.identity, ReplyWire(item), item.pos)
  }

  function CountMessages(rows: seq<Row>, view: RoomView, id: Ulid): nat {
    |Filter(rows, (x: Row) => x.room == view.id && x.Message? && x.id == id)|
  }

  /** Validate one link given the verdict for its parent. */
  function Advance(rows: seq<Row>, view: RoomView, link: Link, older: Association): Try<Association>
    requires link.item.IsItem()
  {
    var item := link.item;
    if !Declared(item) && older.Ordinary? then Ok(Ordinary)
    else if !item.Message? || item.scope.None? || !item.category.Chat? || CountMessages(rows, view, item.id) != 1
    then Err(ReplyTargetUnavailable)
    else
      match FindThreadRoot(rows, view, item.scope.value.threadId)
      case Err(f) => Err(f)
      case Ok(root) =>
        if PublicThreadMetadata(root, view).Err? || PublicThreadAuthor(item, root.threadRoot.value, view).Err?
        then Err(ReplyTargetUnavailable)
        else if item.id != root.id
          && (item.threadRoot.Some? || root.pos >= item.pos
              || !link.resolved.Resolved? || item.scope.value.parent != Some(link.resolved.key)
              || !older.Scoped? || !older.root.Message? || older.root.id != root.id)
        then Err(ReplyTargetUnavailable)
        else Ok(Scoped(root, item.scope.value))
  }

  /** Fold the checks from the oldest ancestor to the item itself. */
  function Associate(rows: seq<Row>, view: RoomView, chain: seq<Link>): Try<Association>
    requires forall l :: l in chain ==> l.item.IsItem()
  {
    if chain == [] then Ok(Ordinary)
    else
      assert chain[0] in chain && forall l :: l in chain[1..] ==> l in chain;
      match Associate(rows, view, chain[1..])
      case Err(f) => Err(f)
      case Ok(older) => Advance(rows, view, chain[0], older)
  }

  function Classify(rows: seq<Row>, view: RoomView, source: Row): Try<Association>
    requires source.IsItem()
  {
    match Ancestry(rows, view, source, {}, 0)
    case Err(f) => Err(f)
    case Ok(chain) => Associate(rows, view, chain)
  }

  function Prepended(chain: seq<Link>, older: Try<seq<Link>>): Try<seq<Link>> {
    match older
    case Err(f) => Err(f)
    case Ok(links) => Ok(chain + links)
  }

  lemma PrependNext(chain: seq<Link>, link: Link, older: Try<seq<Link>>)
    ensures Prepended(chain, Prepended([link], older)) == Prepended(chain + [link], older)
  {
    if older.Ok? {
      assert chain + ([link] + older.value) == (chain + [link]) + older.value;
    }
  }

  lemma AncestryUnfolds(rows: seq<Row>, view: RoomView, item: Row, seen: set<Key>, depth: nat)
    requires item.IsItem() && Parent(rows, view, item).Resolved?
    requires !(item.room != view.id || item.KeyOf() in seen || depth > |rows|)
    ensures var parent := Parent(rows, view, item);
      Ancestry(rows, view, item, seen, depth)
      == Prepended([Link(item, parent)], Ancestry(rows, view, parent.item, seen + {item.KeyOf()}, depth + 1))
  {
  }

  lemma {:induction false} AncestryResumes(rows: seq<Row>, view: RoomView, item: Row, seen: set<Key>, chain: seq<Link>)
    requires item.IsItem() && Parent(rows, view, item).Resolved?
    requires !(item.room != view.id || item.KeyOf() in seen || |chain| > |rows|)
    ensures var parent := Parent(rows, view, item);
      Prepended(chain, Ancestry(rows, view, item, seen, |chain|))
      == Prepended(chain + [Link(item, parent)], Ancestry(rows, view, parent.item, seen + {item.KeyOf()}, |chain| + 1))
  {
    var parent := Parent(rows, view, item);
    AncestryUnfolds(rows, view, item, seen, |chain|);
    PrependNext(chain, Link(item, parent), Ancestry(rows, view, parent.item, seen + {item.KeyOf()}, |chain| + 1));
  }

  /** The first loop of the classification: up the ancestry, newest link first. */
  method WalkAncestry(rows: seq<Row>, view: RoomView, source: Row) returns (walked: Try<seq<Link>>)
    requires source.IsItem()
    ensures walked == Ancestry(rows, view, source, {}, 0)
  {
    var chain: seq<Link> := [];
    var seen: set<Key> := {};
    var item := source;
    ghost var all := Ancestry(rows, view, source, {}, 0);
    assert all.Ok? ==> [] + all.value == all.value;
    while true
      invariant item.IsItem()
      invariant all == Prepended(chain, Ancestry(rows, view, item, seen, |chain|))
      decreases item.pos
    {
      if item.room != view.id || item.KeyOf() in seen || |chain| > |rows| { return Err(ReplyTargetUnavailable); }
      var resolved := Parent(rows, view, item);
      if !resolved.Resolved? { return Ok(chain + [Link(item, resolved)]); }
      AncestryResumes(rows, view, item, seen, chain);
      chain := chain + [Link(item, resolved)];
      seen := seen + {item.KeyOf()};
      item := resolved.item;
    }
  }

  /** The verdict as the daemon computes it: the chain validated in a loop from its oldest link to its newest. */
  method ClassifyThreadAssociation(rows: seq<Row>, view: RoomView, source: Row) returns (verdict: Try<Association>)
    requires source.IsItem()
    ensures verdict == Classify(rows, view, source)
  {
    var walked := WalkAncestry(rows, view, source);
    if walked.Err? { return Err(walked.failure); }
    var chain := walked.value;
    var association: Association := Ordinary;
    var k := |chain|;
    while k > 0
      invariant 0 <= k <= |chain|
      invariant forall l :: l in chain[k..] ==> l.item.IsItem()
      invariant Associate(rows, view, chain[k..]) == Ok(association)
    {
      k := k - 1;
      assert chain[k] in chain;
      assert chain[k..][0] == chain[k] && chain[k..][1..] == chain[k + 1..];
      var next := Advance(rows, view, chain[k], association);
      if next.Err? {
        AssociateFailsUpward(rows, view, chain, k);
        return next;
      }
      association := next.value;
    }
    assert chain[0..] == chain;
    return Ok(association);
  }

  lemma {:induction false} AssociateFailsUpward(rows: seq<Row>, view: RoomView, chain: seq<Link>, k: nat)
    requires k <= |chain| && forall l :: l in chain ==> l.item.IsItem()
    requires forall l :: l in chain[k..] ==> l.item.IsItem()
    requires Associate(rows, view, chain[k..]).Err?
    ensures Associate(rows, view, chain) == Associate(rows, view, chain[k..])
    decreases k
  {
    if k == 0 {
      assert chain[0..] == chain;
    } else {
      var up := chain[k - 1..];
      assert up[1..] == chain[k..] && up[0] == chain[k - 1];
      forall l | l in up ensures l in chain { }
      AssociateFailsUpward(rows, view, chain, k - 1);
    }
  }
}
