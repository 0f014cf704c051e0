/**
 Reply references between per-recipient copies of a message.

 Every recipient sees its own wire ID for a message. A wire ID only means something in the
 namespace of one CID: it is either the wire of a message that CID sent, or the wire of the copy
 the room queued to it. Replies are resolved and translated by looking wires up in the saved rows.
 */
module ReplyThreading {
  import opened Prelude
  import opened Rooms

  datatype Key = MessageKey(id: Ulid) | FileKey(id: Ulid)
  datatype RecordId = RecordId(room: RoomId, pos: nat)
  datatype Reply = Reply(wire: Wire, sentence: Option<nat>)
  datatype Author = Author(identity: Cid, displayName: string, role: string)
  datatype AuthorAlias = AuthorAlias(participant: Ulid, alias: string)
  datatype Category = Briefing | RoleBriefing | Chat | Membership
  datatype Member = Member(participant: Ulid, identity: Cid)
  datatype Scope = Scope(threadId: Ulid, parent: Option<Key>)
  datatype ThreadRoot = ThreadRoot(
    threadId: Ulid, topic: string, creator: Ulid, members: seq<Member>, idempotencyKey: string, fingerprint: string)
  datatype Status = Queued | SendFailed | SkippedRemoved | SkippedReplyUnavailable

  /** The archive rows that take part in reply threading, with their sequence number `pos`. */
  datatype Row =
    | Message(room: RoomId, pos: nat, id: Ulid, at: Time, author: Author, alias: Option<AuthorAlias>,
              category: Category, text: string, recipients: seq<Cid>, sourceMessage: Option<nat>,
              sourceWire: Option<Wire>, reply: Option<Reply>, scope: Option<Scope>, threadRoot: Option<ThreadRoot>)
    | File(room: RoomId, pos: nat, id: Ulid, at: Time, author: Author, alias: Option<AuthorAlias>,
           content: string, recipients: seq<Cid>, sourceFile: nat, sourceWire: Option<Wire>, reply: Option<Reply>)
    | Intent(room: RoomId, pos: nat, subject: Key, recipient: Cid)
    | Result(room: RoomId, pos: nat, intent: RecordId, subject: Key, recipient: Cid, status: Status,
             wire: Option<Wire>, metadataWire: Option<Wire>)
  {
    predicate IsItem() { Message? || File? }

    function KeyOf(): Key
      requires IsItem()
    {
      if Message? then MessageKey(id) else FileKey(id)
    }

    function Name(): RecordId { RecordId(room, pos) }

    /** The same item at the sequence number the archive assigned to it. */
    function At(pos: nat): (r: Row)
      requires IsItem()
      ensures r.IsItem() && r.pos == pos && r.room == room && r.KeyOf() == KeyOf() && r.recipients == recipients
    {
      match this
      case Message(room, _, id, at, author, alias, category, text, recipients, source, wire, reply, scope, root) =>
        Message(room, pos, id, at, author, alias, category, text, recipients, source, wire, reply, scope, root)
      case File(room, _, id, at, author, alias, content, recipients, source, wire, reply) =>
        File(room, pos, id, at, author, alias, content, recipients, source, wire, reply)
    }
  }

  datatype ParentResolution =
    | NoReply
    | UnknownParent
    | AmbiguousParent
    | Resolved(key: Key, item: Row)

  datatype ReplyDecision =
    | NoLink
    | UnknownLink
    | AmbiguousLink(parentKey: Option<Key>)
    | MissingCopy(parentKey: Option<Key>)
    | Linked(parentKey: Option<Key>, wire: Wire)

  predicate Nonempty(w: Option<Wire>) {
    w.Some? && w.value != ""
  }

  function IntentsNamed(rows: seq<Row>, room: RoomId, id: RecordId): (r: seq<Row>)
    ensures forall x :: x in r <==> x in rows && x.room == room && x.Intent? && x.Name() == id
    ensures forall i :: 0 <= i < |r| ==> r[i] in rows && r[i].Intent?
  {
    var r := Filter(rows, (x: Row) => x.room == room && x.Intent? && x.Name() == id);
    assert forall i :: 0 <= i < |r| ==> r[i] in r;
    r
  }

  /** `result` records that a copy of `parent` was queued to `cid`, backed by exactly one intent. */
  predicate IsCopy(rows: seq<Row>, room: RoomId, result: Row, parent: Row, cid: Cid) {
    && result.room == room && result.Result? && parent.IsItem()
    && result.status.Queued? && result.recipient == cid
    && result.subject == parent.KeyOf() && cid in parent.recipients
    && var intents := IntentsNamed(rows, room, result.intent);
      |intents| == 1 && intents[0].subject == parent.KeyOf() && intents[0].recipient == cid
      && parent.pos < intents[0].pos < result.pos
  }

  function Copies(rows: seq<Row>, room: RoomId, parent: Row, cid: Cid): seq<Row> {
    Filter(rows, (r: Row) => IsCopy(rows, room, r, parent, cid))
  }

  /** The usable wires of one copy; a file was announced by a separate metadata message. */
  function Wires(result: Row, parent: Row): seq<Wire>
    requires result.Result?
  {
    (if Nonempty(result.wire) then [result.wire.value] else [])
    + (if parent.File? && Nonempty(result.metadataWire) then [result.metadataWire.value] else [])
  }

  /** In the namespace of `cid`, `wire` names `item`. */
  predicate Owns(rows: seq<Row>, room: RoomId, item: Row, wire: Wire, cid: Cid) {
    && item.room == room && item.IsItem()
    && ((item.author.identity == cid && item.sourceWire == Some(wire))
        || exists r :: r in rows && IsCopy(rows, room, r, item, cid) && wire in Wires(r, item))
  }

  function OwnersFor(rows: seq<Row>, room: RoomId, wire: Wire, cid: Cid): (r: seq<Row>)
    ensures forall x :: x in r <==> x in rows && Owns(rows, room, x, wire, cid)
    ensures forall i :: 0 <= i < |r| ==> r[i] in rows && r[i].IsItem()
  {
    var r := Filter(rows, (x: Row) => Owns(rows, room, x, wire, cid));
    assert forall i :: 0 <= i < |r| ==> r[i] in r;
    r
  }

  function ItemsKeyed(rows: seq<Row>, room: RoomId, key: Key): (r: seq<Row>)
    ensures forall x :: x in r <==> x in rows && x.room == room && x.IsItem() && x.KeyOf() == key
    ensures forall i :: 0 <= i < |r| ==> r[i] in rows && r[i].IsItem() && r[i].KeyOf() == key
  {
    var r := Filter(rows, (x: Row) => x.room == room && x.IsItem() && x.KeyOf() == key);
    assert forall i :: 0 <= i < |r| ==> r[i] in r;
    r
  }

  function ResolveReplyParent(rows: seq<Row>, room: RoomId, sender: Cid, wire: Option<Wire>, before: nat): (r: ParentResolution)
    ensures r.Resolved? ==> r.item in rows && r.item.IsItem() && r.item.room == room && r.item.KeyOf() == r.key
    ensures r.Resolved? ==> r.item.pos < before
  {
    if wire.None? then NoReply
    else if wire.value == "" then UnknownParent
    else
      var candidates := OwnersFor(rows, room, wire.value, sender);
      if |candidates| == 0 then UnknownParent
      else if |candidates| != 1 then AmbiguousParent
      else
        var parent := candidates[0];
        if parent.pos >= before then UnknownParent
        else if |ItemsKeyed(rows, room, parent.KeyOf())| != 1 then AmbiguousParent
        else Resolved(parent.KeyOf(), parent)
  }

  /** The first wire of the earliest copy that has one; copies count in sequence order. */
  function EarliestWire(copies: seq<Row>, parent: Row): (r: Option<Wire>)
    requires forall c :: c in copies ==> c.Result?
    ensures r.Some? ==> exists c :: c in copies && r.value in Wires(c, parent)
    ensures r.None? ==> forall c :: c in copies ==> Wires(c, parent) == []
  {
    var best := EarliestWired(copies, parent);
    if best.None? then None else Some(Wires(best.value, parent)[0])
  }

  function EarliestWired(copies: seq<Row>, parent: Row): (r: Option<Row>)
    requires forall c :: c in copies ==> c.Result?
    ensures r.Some? ==> r.value in copies && Wires(r.value, parent) != []
    ensures forall c :: c in copies && Wires(c, parent) != [] ==> r.Some? && r.value.pos <= c.pos
  {
    if copies == [] then None else
      var last := copies[|copies| - 1];
      assert copies == copies[..|copies| - 1] + [last];
      var best := EarliestWired(copies[..|copies| - 1], parent);
      if Wires(last, parent) != [] && (best.None? || last.pos < best.value.pos) then Some(last) else best
  }

  /** `wire` names exactly one item in the namespace of `cid`, and that item is the one keyed `key`. */
  predicate SolelyNames(rows: seq<Row>, room: RoomId, wire: Wire, cid: Cid, key: Key) {
    var owners := OwnersFor(rows, room, wire, cid);
    |owners| == 1 && owners[0].KeyOf() == key
  }

  /** The wire under which `recipient` knows `parent`: its own original if usable, else its earliest copy. */
  function RecipientWire(rows: seq<Row>, room: RoomId, parent: Row, recipient: Cid): Option<Wire>
    requires parent.IsItem()
  {
    if parent.author.identity == recipient && Nonempty(parent.sourceWire)
       && SolelyNames(rows, room, parent.sourceWire.value, recipient, parent.KeyOf())
    then parent.sourceWire
    else EarliestWire(Copies(rows, room, parent, recipient), parent)
  }

  function MapReplyParent(rows: seq<Row>, room: RoomId, key: Key, item: Row, recipient: Cid): (r: ReplyDecision)
    requires item.IsItem()
    ensures r.Linked? ==> |ItemsKeyed(rows, room, key)| == 1
  {
    var matches := ItemsKeyed(rows, room, key);
    if item.room != room || item.KeyOf() != key || |matches| != 1 then AmbiguousLink(Some(key))
    else
      var wire := RecipientWire(rows, room, matches[0], recipient);
      if !Nonempty(wire) then MissingCopy(Some(key))
      else if !SolelyNames(rows, room, wire.value, recipient, key) then AmbiguousLink(Some(key))
      else Linked(Some(key), wire.value)
  }

  function ReplyWire(item: Row): Option<Wire>
    requires item.IsItem()
  {
    if item.reply.None? then None else Some(item.reply.value.wire)
  }

  function SelectReply(rows: seq<Row>, room: RoomId, child: Row, recipient: Cid): ReplyDecision
    requires child.IsItem()
  {
    match ResolveReplyParent(rows, room, child.author.identity, ReplyWire(child), child.pos)
    case NoReply => NoLink
    case UnknownParent => UnknownLink
    case AmbiguousParent => AmbiguousLink(None)
    case Resolved(key, item) => MapReplyParent(rows, room, key, item, recipient)
  }

  /**
   The round trip: the wire chosen for a recipient, used by that recipient in a reply, resolves to
   the same logical parent, for every archive (even a corrupt one) and at every later position.
   */
  lemma LinkedWireResolvesBack(rows: seq<Row>, room: RoomId, key: Key, item: Row, recipient: Cid, before: nat)
    requires item.IsItem()
    requires var link := MapReplyParent(rows, room, key, item, recipient);
      link.Linked? && ItemsKeyed(rows, room, key)[0].pos < before
    ensures var link := MapReplyParent(rows, room, key, item, recipient);
      var parent := ItemsKeyed(rows, room, key)[0];
      ResolveReplyParent(rows, room, recipient, Some(link.wire), before) == Resolved(key, parent) && parent.KeyOf() == key
  {
    var wire := MapReplyParent(rows, room, key, item, recipient).wire;
    LinkedIsNamed(rows, room, key, item, recipient);
    OnlyOwnerIsKeyed(rows, room, key, wire, recipient);
  }

  lemma LinkedIsNamed(rows: seq<Row>, room: RoomId, key: Key, item: Row, recipient: Cid)
    requires item.IsItem() && MapReplyParent(rows, room, key, item, recipient).Linked?
    ensures var wire := MapReplyParent(rows, room, key, item, recipient).wire;
      wire != "" && SolelyNames(rows, room, wire, recipient, key) && |ItemsKeyed(rows, room, key)| == 1
  {
  }

  lemma OnlyOwnerIsKeyed(rows: seq<Row>, room: RoomId, key: Key, wire: Wire, cid: Cid)
    requires SolelyNames(rows, room, wire, cid, key) && |ItemsKeyed(rows, room, key)| == 1
    ensures OwnersFor(rows, room, wire, cid)[0] == ItemsKeyed(rows, room, key)[0]
  {
    var owners, matches := OwnersFor(rows, room, wire, cid), ItemsKeyed(rows, room, key);
    assert owners[0] in owners;
    assert owners[0] in matches && matches == [matches[0]];
  }

  // ----- Archives that grow by fresh rows --------------------------------------------------------

  predicate MentionsWire(r: Row, cid: Cid, wire: Wire) {
    || (r.IsItem() && r.author.identity == cid && r.sourceWire == Some(wire))
    || (r.Result? && r.recipient == cid && (r.wire == Some(wire) || r.metadataWire == Some(wire)))
  }

  predicate MentionsKey(r: Row, key: Key) {
    || (r.IsItem() && r.KeyOf() == key)
    || ((r.Intent? || r.Result?) && r.subject == key)
  }

  /** The next row: a later position, and no identifier or wire of its own was ever seen before. */
  ghost predicate Fresh(rows: seq<Row>, r: Row) {
    && (forall x :: x in rows ==> x.pos < r.pos)
    && (r.IsItem() ==> forall x :: x in rows ==> !MentionsKey(x, r.KeyOf()))
    && (r.IsItem() && r.sourceWire.Some? ==>
        forall x :: x in rows ==> !MentionsWire(x, r.author.identity, r.sourceWire.value))
    && (r.Intent? ==> forall x :: x in rows && x.Result? ==> x.intent != r.Name())
    && (r.Result? ==> forall x, w :: x in rows && (r.wire == Some(w) || r.metadataWire == Some(w)) ==>
        !MentionsWire(x, r.recipient, w))
  }

  ghost predicate FreshExtension(rows: seq<Row>, more: seq<Row>)
    decreases |more|
  {
    more == [] || (Fresh(rows, more[0]) && FreshExtension(rows + [more[0]], more[1..]))
  }

  lemma OwnedWireIsMentioned(rows: seq<Row>, room: RoomId, item: Row, wire: Wire, cid: Cid)
    requires item in rows && Owns(rows, room, item, wire, cid)
    ensures exists x :: x in rows && MentionsWire(x, cid, wire)
  {
    if item.author.identity == cid && item.sourceWire == Some(wire) {
      assert MentionsWire(item, cid, wire);
    } else {
      var r :| r in rows && IsCopy(rows, room, r, item, cid) && wire in Wires(r, item);
      assert MentionsWire(r, cid, wire);
    }
  }

  lemma {:induction false} FilterAppend<T(!new)>(s: seq<T>, x: T, p: T -> bool, q: T -> bool)
    requires forall y :: y in s ==> p(y) == q(y)
    ensures Filter(s + [x], q) == Filter(s, p) + (if q(x) then [x] else [])
  {
    assert (s + [x])[..|s|] == s;
    FilterAgree(s, p, q);
  }

  lemma CopyStable(rows: seq<Row>, room: RoomId, r: Row, result: Row, parent: Row, cid: Cid)
    requires Fresh(rows, r) && result in rows
    ensures IsCopy(rows + [r], room, result, parent, cid) == IsCopy(rows, room, result, parent, cid)
  {
    if result.Result? {
      var p := (x: Row) => x.room == room && x.Intent? && x.Name() == result.intent;
      FilterAppend(rows, r, p, p);
      assert IntentsNamed(rows + [r], room, result.intent) == IntentsNamed(rows, room, result.intent);
    }
  }

  lemma OwnsStable(rows: seq<Row>, room: RoomId, r: Row, item: Row, wire: Wire, cid: Cid)
    requires Fresh(rows, r) && item in rows
    requires exists x :: x in rows && MentionsWire(x, cid, wire)
    ensures Owns(rows + [r], room, item, wire, cid) == Owns(rows, room, item, wire, cid)
  {
    if item.IsItem() {
      forall x | x in rows ensures IsCopy(rows + [r], room, x, item, cid) == IsCopy(rows, room, x, item, cid) {
        CopyStable(rows, room, r, x, item, cid);
      }
    }
  }

  /** Once a wire has an owner in a namespace, a fresh row changes nothing about who owns it. */
  lemma OwnersStable(rows: seq<Row>, room: RoomId, r: Row, wire: Wire, cid: Cid)
    requires Fresh(rows, r) && OwnersFor(rows, room, wire, cid) != []
    ensures OwnersFor(rows + [r], room, wire, cid) == OwnersFor(rows, room, wire, cid)
  {
    var owner := OwnersFor(rows, room, wire, cid)[0];
    assert owner in OwnersFor(rows, room, wire, cid);
    OwnedWireIsMentioned(rows, room, owner, wire, cid);
    forall x | x in rows ensures Owns(rows + [r], room, x, wire, cid) == Owns(rows, room, x, wire, cid) {
      OwnsStable(rows, room, r, x, wire, cid);
    }
    assert !Owns(rows + [r], room, r, wire, cid) by {
      if r.IsItem() {
        forall x | x in rows + [r] ensures !IsCopy(rows + [r], room, x, r, cid) {
          assert x in rows || x == r;
          if x in rows { assert !MentionsKey(x, r.KeyOf()); }
        }
      }
    }
    FilterAppend(rows, r, (x: Row) => Owns(rows, room, x, wire, cid), (x: Row) => Owns(rows + [r], room, x, wire, cid));
  }

  lemma KeyedStable(rows: seq<Row>, room: RoomId, r: Row, key: Key)
    requires Fresh(rows, r) && ItemsKeyed(rows, room, key) != []
    ensures ItemsKeyed(rows + [r], room, key) == ItemsKeyed(rows, room, key)
  {
    var item := ItemsKeyed(rows, room, key)[0];
    assert item in ItemsKeyed(rows, room, key);
    assert MentionsKey(item, key);
    var p := (x: Row) => x.room == room && x.IsItem() && x.KeyOf() == key;
    FilterAppend(rows, r, p, p);
  }

  lemma ResolvedStable(rows: seq<Row>, room: RoomId, r: Row, sender: Cid, wire: Option<Wire>, before: nat)
    requires Fresh(rows, r) && ResolveReplyParent(rows, room, sender, wire, before).Resolved?
    ensures ResolveReplyParent(rows + [r], room, sender, wire, before) == ResolveReplyParent(rows, room, sender, wire, before)
  {
    OwnersStable(rows, room, r, wire.value, sender);
    KeyedStable(rows, room, r, ResolveReplyParent(rows, room, sender, wire, before).key);
  }

  lemma Regrouped(rows: seq<Row>, more: seq<Row>)
    requires more != []
    ensures rows + [more[0]] + more[1..] == rows + more
  {
  }

  /** A resolved reference keeps resolving to the same parent in every fresh extension. */
  lemma {:induction false} ResolvedForever(rows: seq<Row>, more: seq<Row>, room: RoomId, sender: Cid, wire: Option<Wire>, before: nat)
    requires FreshExtension(rows, more) && ResolveReplyParent(rows, room, sender, wire, before).Resolved?
    ensures ResolveReplyParent(rows + more, room, sender, wire, before) == ResolveReplyParent(rows, room, sender, wire, before)
    decreases |more|
  {
    if more == [] {
      assert rows + more == rows;
    } else {
      ResolvedStable(rows, room, more[0], sender, wire, before);
      ResolvedForever(rows + [more[0]], more[1..], room, sender, wire, before);
      Regrouped(rows, more);
    }
  }

  /** A translated reply target survives any growth of the archive. */
  lemma {:induction false} LinkedWireResolvesForever(rows: seq<Row>, more: seq<Row>, room: RoomId, key: Key, item: Row, recipient: Cid,
                                      before: nat)
    requires item.IsItem() && FreshExtension(rows, more)
    requires var link := MapReplyParent(rows, room, key, item, recipient);
      link.Linked? && ItemsKeyed(rows, room, key)[0].pos < before
    ensures var link := MapReplyParent(rows, room, key, item, recipient);
      ResolveReplyParent(rows + more, room, recipient, Some(link.wire), before)
      == Resolved(key, ItemsKeyed(rows, room, key)[0])
  {
    LinkedWireResolvesBack(rows, room, key, item, recipient, before);
    ResolvedForever(rows, more, room, recipient, Some(MapReplyParent(rows, room, key, item, recipient).wire), before);
  }
}
