/**
 Certification of one room view. The view re-reads the room in the background while commits go on;
 it tells the browser that what it delivered is current up to a store position. Each step below is
 one stretch of code between two awaits.
 */
module ResourceViews {
  import opened Prelude
  import opened Rooms

  const MAX_ATTEMPTS: nat := 3

  /**
   Where the background refresh of the view stands. `from` is the position at which the projection
   started, `before` the commit counter at that moment, `source` the position at which it ended.
   */
  datatype Phase =
    | Resting
    | Queued
    | Projecting(attempt: nat, before: nat, from: nat)
    | Emitting(from: nat, source: nat)
    | Flushing(from: nat, source: nat)
    | Finishing

  /** A claim sent to the browser: the content projected at `from` is current up to `upTo`. */
  datatype Certificate = Certificate(from: nat, upTo: nat)

  /**
   `log[p]` says whether the commit at position `p` changed this room; `|log|` is the store position.
   `pending` and `broken` are the store's tables of pending and of failed sources, each with its scope.
   */
  datatype State = State(
    log: seq<bool>,
    pending: map<string, Option<RoomId>>,
    broken: map<string, Option<RoomId>>,
    phase: Phase,
    dirty: bool,
    commits: nat,
    covered: Option<nat>,
    content: Option<nat>,
    ready: bool,
    failed: bool,
    certificates: seq<Certificate>)

  datatype Event =
    | Commit(room: RoomId)
    | MarkPending(source: string, scope: Option<RoomId>)
    | ClearPending(source: string, scope: Option<RoomId>)
    | SourceFails(source: string, scope: Option<RoomId>)
    | Begin
    | ProjectionEnds(changed: bool)
    | EmitLast
    | Flushed
    | Finish
    | Cover
    | Retire

  predicate Concerns(scope: Option<RoomId>, me: RoomId) {
    scope.None? || scope.value == me
  }

  /** `resourcePending`: some pending source is global or belongs to this room. */
  predicate Pending(s: State, me: RoomId) {
    exists x :: x in s.pending && Concerns(s.pending[x], me)
  }

  /** `resourceState` reports the room as failed. */
  predicate Broken(s: State, me: RoomId) {
    exists x :: x in s.broken && Concerns(s.broken[x], me)
  }

  function Scheduled(s: State): State {
    s.(dirty := true, phase := if s.phase.Resting? then Queued else s.phase)
  }

  /** The commit listener, for an event of room `scope` (none for a global health event). */
  function Listened(s: State, me: RoomId, scope: Option<RoomId>): State {
    if s.failed then s
    else if Broken(s, me) then s.(failed := true)
    else if Pending(s, me) then s.(commits := s.commits + 1)
    else if Concerns(scope, me) then Scheduled(s.(commits := s.commits + 1))
    else if s.covered.Some? && s.phase.Resting? && !s.dirty then s.(covered := Some(|s.log|))
    else s
  }

  function Published(s: State, me: RoomId, scope: Option<RoomId>, commit: bool): State {
    Listened(s.(log := s.log + [commit]), me, scope)
  }

  /** The end of one refresh round that delivered, or found nothing new to deliver. */
  function Covered(s: State, from: nat, source: nat): State {
    s.(content := Some(from), covered := Some(if s.dirty then source else |s.log|), phase := Finishing)
  }

  function Certify(s: State, c: Certificate): State {
    s.(certificates := s.certificates + [c])
  }

  function AfterBegin(s: State, me: RoomId): State {
    if Pending(s, me) then s.(dirty := false, phase := Finishing)
    else if Broken(s, me) then s.(dirty := false, phase := Finishing, failed := true)
    else s.(dirty := false, phase := Projecting(1, s.commits, |s.log|))
  }

  function AfterProjection(s: State, me: RoomId, changed: bool): State
    requires s.phase.Projecting?
  {
    var from := s.phase.from;
    if Broken(s, me) then s.(failed := true, phase := Finishing)
    else if s.phase.before == s.commits then
      var quiet := s.(dirty := false);
      if Pending(s, me) then quiet.(phase := Finishing)
      else if changed then quiet.(phase := Emitting(from, |s.log|))
      else Covered(quiet, from, |s.log|)
    else if s.phase.attempt < MAX_ATTEMPTS then s.(phase := Projecting(s.phase.attempt + 1, s.commits, |s.log|))
    else if Pending(s, me) then s.(phase := Finishing)
    else s.(failed := true, phase := Finishing)
  }

  /** The last unit of the record goes out; it carries the source only if nothing is pending. */
  function AfterLast(s: State, me: RoomId): State
    requires s.phase.Emitting?
  {
    var sent := s.(content := Some(s.phase.from), phase := Flushing(s.phase.from, s.phase.source));
    if Pending(s, me) then sent else Certify(sent, Certificate(s.phase.from, s.phase.source))
  }

  /** The record is flushed; the first one is followed by `ready`. */
  function AfterFlush(s: State, me: RoomId): State
    requires s.phase.Flushing?
  {
    if Pending(s, me) then s.(phase := Finishing)
    else
      var done := Covered(s, s.phase.from, s.phase.source);
      if s.ready then done else Certify(done, Certificate(s.phase.from, done.covered.value)).(ready := true)
  }

  function AfterFinish(s: State): State {
    s.(phase := if s.dirty && !s.failed then Queued else Resting)
  }

  /** `setResourceHealth`: pending, well again with nothing pending, or failed; always under the scope given last. */
  function Retabled(s: State, e: Event): State {
    match e
    case MarkPending(x, scope) => s.(pending := s.pending[x := scope], broken := s.broken - {x})
    case ClearPending(x, scope) => s.(pending := s.pending - {x}, broken := s.broken - {x})
    case SourceFails(x, scope) => s.(pending := s.pending - {x}, broken := s.broken[x := scope])
    case _ => s
  }

  /** A report that changes neither whether its source failed nor whether it is pending is not published. */
  predicate Silent(s: State, e: Event) {
    match e
    case MarkPending(x, _) => x !in s.broken && x in s.pending
    case ClearPending(x, _) => x !in s.broken && x !in s.pending
    case SourceFails(x, _) => x in s.broken && x !in s.pending
    case _ => false
  }

  predicate Reports(e: Event) {
    e.MarkPending? || e.ClearPending? || e.SourceFails?
  }

  predicate OfTheStore(e: Event) {
    e.Commit? || Reports(e)
  }

  ghost predicate Step(s: State, s': State, me: RoomId, e: Event) {
    match e
    case Commit(room) => s' == Published(s, me, Some(room), room == me)
    case MarkPending(_, scope) => s' == if Silent(s, e) then Retabled(s, e) else Published(Retabled(s, e), me, scope, false)
    case ClearPending(_, scope) => s' == if Silent(s, e) then Retabled(s, e) else Published(Retabled(s, e), me, scope, false)
    case SourceFails(_, scope) => s' == if Silent(s, e) then Retabled(s, e) else Published(Retabled(s, e), me, scope, false)
    case Begin => !s.failed && s.phase.Queued? && s' == AfterBegin(s, me)
    case ProjectionEnds(changed) =>
      !s.failed && s.phase.Projecting? && (s.content.None? ==> changed) && s' == AfterProjection(s, me, changed)
    case EmitLast => !s.failed && s.phase.Emitting? && s' == AfterLast(s, me)
    case Flushed => !s.failed && s.phase.Flushing? && s' == AfterFlush(s, me)
    case Finish => s.phase.Finishing? && s' == AfterFinish(s)
    case Cover =>
      && s.ready && !s.failed && s.phase.Resting? && !s.dirty && s.covered == Some(|s.log|) && s.content.Some?
      && !Pending(s, me) && !Broken(s, me)
      && s' == Certify(s, Certificate(s.content.value, |s.log|))
    case Retire => s' == s.(failed := true)
  }

  /**
   The store's position counts a report exactly if the report changes whether its source has failed or
   whether it is pending; afterwards the source is listed as the report says, and nothing else moves.
   */
  lemma ReportsAreCounted(s: State, s': State, me: RoomId, e: Event)
    requires Reports(e) && Step(s, s', me, e)
    ensures var x := e.source;
      && (x in s'.pending <==> e.MarkPending?) && (x in s'.broken <==> e.SourceFails?)
      && (e.MarkPending? ==> s'.pending[x] == e.scope) && (e.SourceFails? ==> s'.broken[x] == e.scope)
      && s'.pending - {x} == s.pending - {x} && s'.broken - {x} == s.broken - {x}
      && s'.log == s.log + if (x in s'.broken) != (x in s.broken) || (x in s'.pending) != (x in s.pending) then [false] else []
  {
    var t := Retabled(s, e);
    if !Silent(s, e) { ListeningRetables(t, me, e.scope); }
  }

  lemma ListeningRetables(s: State, me: RoomId, scope: Option<RoomId>)
    ensures var s' := Published(s, me, scope, false); s'.pending == s.pending && s'.broken == s.broken && s'.log == s.log + [false]
  {
  }

  ghost predicate Init(s: State) {
    s == State([], map[], map[], Queued, true, 0, None, None, false, false, [])
  }

  /** The change ends the time in which something pending concerned the view. */
  predicate EndsPending(s: State, me: RoomId, e: Event) {
    Pending(s, me) && !Pending(Retabled(s, e), me)
  }

  /** The view is told when that time ends: an event is published, in a scope that concerns it. */
  predicate Announces(s: State, me: RoomId, e: Event) {
    EndsPending(s, me, e) ==> !Silent(s, e) && Concerns(e.scope, me)
  }

  // ----- The invariant -------------------------------------------------------------------------------

  /** No commit to this room at the positions from `a` up to `b`. */
  ghost predicate Quiet(log: seq<bool>, a: nat, b: nat) {
    forall p :: a <= p < b && p < |log| ==> !log[p]
  }

  /** The position past which nothing relevant happened, unless the view knows it is out of date. */
  ghost predicate UpToDate(s: State, me: RoomId, at: nat) {
    !s.dirty && !Pending(s, me) ==> Quiet(s.log, at, |s.log|)
  }

  ghost predicate PhaseInv(s: State, me: RoomId) {
    match s.phase
    case Projecting(attempt, before, from) =>
      && before <= s.commits && from <= |s.log| && (s.commits == before ==> Quiet(s.log, from, |s.log|))
      && (s.covered.Some? ==> s.covered.value <= from)
    case Emitting(from, source) => Projected(s, me, from, source)
    case Flushing(from, source) => Projected(s, me, from, source) && s.content == Some(from)
    case Queued => s.dirty
    case Resting => s.covered.Some? ==> UpToDate(s, me, s.covered.value)
    case Finishing => s.covered.Some? ==> UpToDate(s, me, s.covered.value)
  }

  ghost predicate Projected(s: State, me: RoomId, from: nat, source: nat) {
    && from <= source <= |s.log| && Quiet(s.log, from, source) && UpToDate(s, me, source)
    && (s.covered.Some? ==> s.covered.value <= from)
  }

  ghost predicate CoverageInv(s: State) {
    && (s.covered.Some? ==> s.covered.value <= |s.log| && s.content.Some?)
    && (s.covered.Some? && s.content.Some? ==> Quiet(s.log, s.content.value, s.covered.value))
  }

  ghost predicate Sound(s: State, c: Certificate) {
    c.upTo <= |s.log| && Quiet(s.log, c.from, c.upTo)
  }

  ghost predicate Inv(s: State, me: RoomId) {
    && CoverageInv(s) && (!s.failed ==> PhaseInv(s, me))
    && forall c :: c in s.certificates ==> Sound(s, c)
  }

  lemma QuietStays(log: seq<bool>, commit: bool, a: nat, b: nat)
    requires Quiet(log, a, b) && b <= |log|
    ensures Quiet(log + [commit], a, b) && (!commit ==> (b == |log| ==> Quiet(log + [commit], a, b + 1)))
  {
  }

  /** `s0` is `s` with its tables changed, just before the event about that change is published. */
  ghost predicate AboutToPublish(s: State, s0: State, me: RoomId, scope: Option<RoomId>, commit: bool) {
    && s0 == s.(pending := s0.pending, broken := s0.broken) && (commit ==> Concerns(scope, me))
    && (Pending(s, me) && !Pending(s0, me) ==> Concerns(scope, me))
  }

  lemma PublishedKeepsCoverage(s: State, s0: State, me: RoomId, scope: Option<RoomId>, commit: bool)
    requires CoverageInv(s) && !s.failed && PhaseInv(s, me) && AboutToPublish(s, s0, me, scope, commit)
    ensures CoverageInv(Published(s0, me, scope, commit))
  {
  }

  lemma PublishedKeepsUpToDate(s: State, s0: State, me: RoomId, scope: Option<RoomId>, commit: bool, at: nat)
    requires UpToDate(s, me, at) && at <= |s.log| && !s.failed && AboutToPublish(s, s0, me, scope, commit)
    ensures var s' := Published(s0, me, scope, commit); s'.failed || UpToDate(s', me, at)
  {
  }

  lemma PublishedKeepsProjected(s: State, s0: State, me: RoomId, scope: Option<RoomId>, commit: bool, from: nat, source: nat)
    requires Projected(s, me, from, source) && !s.failed && !s.phase.Resting? && AboutToPublish(s, s0, me, scope, commit)
    ensures var s' := Published(s0, me, scope, commit); s'.failed || Projected(s', me, from, source)
  {
    PublishedKeepsUpToDate(s, s0, me, scope, commit, source);
    QuietStays(s.log, commit, from, source);
  }

  lemma PublishedKeepsProjecting(s: State, s0: State, me: RoomId, scope: Option<RoomId>, commit: bool)
    requires s.phase.Projecting? && !s.failed && PhaseInv(s, me) && AboutToPublish(s, s0, me, scope, commit)
    ensures var s' := Published(s0, me, scope, commit); s'.failed || PhaseInv(s', me)
  {
    var s' := Published(s0, me, scope, commit);
    if !s'.failed && s'.commits == s.phase.before {
      assert s.commits == s.phase.before && !commit;
      QuietStays(s.log, commit, s.phase.from, |s.log|);
    }
  }

  lemma PublishedKeepsEmission(s: State, s0: State, me: RoomId, scope: Option<RoomId>, commit: bool)
    requires s.phase.Emitting? || s.phase.Flushing?
    requires !s.failed && PhaseInv(s, me) && AboutToPublish(s, s0, me, scope, commit)
    ensures var s' := Published(s0, me, scope, commit); s'.failed || PhaseInv(s', me)
  {
    PublishedKeepsProjected(s, s0, me, scope, commit, s.phase.from, s.phase.source);
  }

  lemma PublishedKeepsRest(s: State, s0: State, me: RoomId, scope: Option<RoomId>, commit: bool)
    requires (s.phase.Resting? || s.phase.Finishing?) && CoverageInv(s)
    requires !s.failed && PhaseInv(s, me) && AboutToPublish(s, s0, me, scope, commit)
    ensures var s' := Published(s0, me, scope, commit); s'.failed || PhaseInv(s', me)
  {
    if s.covered.Some? { PublishedKeepsUpToDate(s, s0, me, scope, commit, s.covered.value); }
  }

  lemma PublishedKeepsPhase(s: State, s0: State, me: RoomId, scope: Option<RoomId>, commit: bool)
    requires CoverageInv(s) && !s.failed && PhaseInv(s, me) && AboutToPublish(s, s0, me, scope, commit)
    ensures var s' := Published(s0, me, scope, commit); s'.failed || PhaseInv(s', me)
  {
    if s.phase.Projecting? {
      PublishedKeepsProjecting(s, s0, me, scope, commit);
    } else if s.phase.Emitting? || s.phase.Flushing? {
      PublishedKeepsEmission(s, s0, me, scope, commit);
    } else if s.phase.Resting? || s.phase.Finishing? {
      PublishedKeepsRest(s, s0, me, scope, commit);
    }
  }

  lemma PublishedKeepsInv(s: State, s0: State, me: RoomId, scope: Option<RoomId>, commit: bool)
    requires Inv(s, me) && AboutToPublish(s, s0, me, scope, commit)
    ensures Inv(Published(s0, me, scope, commit), me)
  {
    var s' := Published(s0, me, scope, commit);
    forall c | c in s'.certificates ensures Sound(s', c) {
      assert Sound(s, c);
      QuietStays(s.log, commit, c.from, c.upTo);
    }
    if !s.failed {
      PublishedKeepsCoverage(s, s0, me, scope, commit);
      PublishedKeepsPhase(s, s0, me, scope, commit);
    } else if s.covered.Some? {
      QuietStays(s.log, commit, s.content.value, s.covered.value);
    }
  }

  /** A report that is not published leaves the view as it is; it ends no pending time. */
  lemma SilentKeepsInv(s: State, me: RoomId, e: Event)
    requires Inv(s, me) && Reports(e) && Silent(s, e) && Announces(s, me, e)
    ensures Inv(Retabled(s, e), me)
  {
    forall c | c in s.certificates ensures Sound(Retabled(s, e), c) { assert Sound(s, c); }
  }

  lemma StoreStepKeepsInv(s: State, s': State, me: RoomId, e: Event)
    requires Inv(s, me) && Step(s, s', me, e) && Announces(s, me, e) && OfTheStore(e)
    ensures Inv(s', me)
  {
    if e.Commit? {
      PublishedKeepsInv(s, s, me, Some(e.room), e.room == me);
    } else if Silent(s, e) {
      SilentKeepsInv(s, me, e);
    } else {
      PublishedKeepsInv(s, Retabled(s, e), me, e.scope, false);
    }
  }

  lemma BeginKeepsInv(s: State, me: RoomId)
    requires Inv(s, me) && s.phase.Queued? && !s.failed
    ensures Inv(AfterBegin(s, me), me)
  {
  }

  lemma StableProjectionKeepsInv(s: State, me: RoomId, changed: bool)
    requires CoverageInv(s) && s.phase.Projecting? && !s.failed && PhaseInv(s, me) && s.phase.before == s.commits
    ensures var s' := AfterProjection(s, me, changed); CoverageInv(s') && (!s'.failed ==> PhaseInv(s', me))
  {
    assert Quiet(s.log, s.phase.from, |s.log|);
  }

  lemma UnstableProjectionKeepsInv(s: State, me: RoomId, changed: bool)
    requires CoverageInv(s) && s.phase.Projecting? && !s.failed && PhaseInv(s, me) && s.phase.before != s.commits
    ensures var s' := AfterProjection(s, me, changed); CoverageInv(s') && (!s'.failed ==> PhaseInv(s', me))
  {
  }

  lemma ProjectionKeepsInv(s: State, me: RoomId, changed: bool)
    requires Inv(s, me) && s.phase.Projecting? && !s.failed
    ensures Inv(AfterProjection(s, me, changed), me)
  {
    if s.phase.before == s.commits {
      StableProjectionKeepsInv(s, me, changed);
    } else {
      UnstableProjectionKeepsInv(s, me, changed);
    }
    var s' := AfterProjection(s, me, changed);
    forall c | c in s'.certificates ensures Sound(s', c) { assert Sound(s, c); }
  }

  lemma FinishKeepsInv(s: State, me: RoomId)
    requires Inv(s, me) && s.phase.Finishing?
    ensures Inv(AfterFinish(s), me)
  {
  }

  lemma RefreshStepKeepsInv(s: State, s': State, me: RoomId, e: Event)
    requires Inv(s, me) && Step(s, s', me, e) && (e.Begin? || e.ProjectionEnds? || e.Finish? || e.Retire?)
    ensures Inv(s', me)
  {
    match e
    case Begin => BeginKeepsInv(s, me);
    case ProjectionEnds(changed) => ProjectionKeepsInv(s, me, changed);
    case Finish => FinishKeepsInv(s, me);
    case Retire =>
  }

  lemma LastKeepsInv(s: State, me: RoomId)
    requires Inv(s, me) && !s.failed && s.phase.Emitting?
    ensures Inv(AfterLast(s, me), me)
  {
    var s' := AfterLast(s, me);
    assert Projected(s', me, s.phase.from, s.phase.source);
    forall c | c in s'.certificates ensures Sound(s', c) {
      assert c in s.certificates ==> Sound(s, c);
    }
  }

  lemma FlushKeepsInv(s: State, me: RoomId)
    requires Inv(s, me) && !s.failed && s.phase.Flushing?
    ensures Inv(AfterFlush(s, me), me)
  {
    var s' := AfterFlush(s, me);
    assert Projected(s, me, s.phase.from, s.phase.source);
    forall c | c in s'.certificates ensures Sound(s', c) {
      assert c in s.certificates ==> Sound(s, c);
    }
  }

  lemma CoverKeepsInv(s: State, s': State, me: RoomId)
    requires Inv(s, me) && Step(s, s', me, Cover)
    ensures Inv(s', me)
  {
    forall c | c in s'.certificates ensures Sound(s', c) {
      assert c in s.certificates ==> Sound(s, c);
    }
  }

  lemma StepKeepsInv(s: State, s': State, me: RoomId, e: Event)
    requires Inv(s, me) && Step(s, s', me, e) && Announces(s, me, e)
    ensures Inv(s', me)
  {
    match e
    case EmitLast => LastKeepsInv(s, me);
    case Flushed => FlushKeepsInv(s, me);
    case Cover => CoverKeepsInv(s, s', me);
    case _ =>
      if OfTheStore(e) { StoreStepKeepsInv(s, s', me, e); } else { RefreshStepKeepsInv(s, s', me, e); }
  }

  lemma InitEstablishesInv(s: State, me: RoomId)
    requires Init(s)
    ensures Inv(s, me)
  {
  }

  ghost predicate Run(states: seq<State>, events: seq<Event>, me: RoomId) {
    && |states| == |events| + 1 && Init(states[0])
    && forall i {:trigger events[i]} :: 0 <= i < |events| ==> Step(states[i], states[i + 1], me, events[i])
  }

  ghost predicate AllAnnounced(states: seq<State>, events: seq<Event>, me: RoomId)
    requires |states| == |events| + 1
  {
    forall i :: 0 <= i < |events| ==> Announces(states[i], me, events[i])
  }

  lemma {:induction false} RunKeepsInv(states: seq<State>, events: seq<Event>, me: RoomId, i: nat)
    requires Run(states, events, me) && i < |states| && AllAnnounced(states, events, me)
    ensures Inv(states[i], me)
    decreases i
  {
    if i == 0 {
      InitEstablishesInv(states[0], me);
    } else {
      RunKeepsInv(states, events, me, i - 1);
      NextKeepsInv(states, events, me, i - 1);
    }
  }

  lemma NextKeepsInv(states: seq<State>, events: seq<Event>, me: RoomId, i: nat)
    requires Run(states, events, me) && i < |events| && AllAnnounced(states, events, me) && Inv(states[i], me)
    ensures Inv(states[i + 1], me)
  {
    assert Announces(states[i], me, events[i]);
    StepKeepsInv(states[i], states[i + 1], me, events[i]);
  }

  /**
   Under any interleaving of commits, pending marks and awaits, nothing certified is out of date: no
   commit to the room lies between the projection that produced the content and the position claimed.
   */
  lemma CertificatesAreSound(states: seq<State>, events: seq<Event>, me: RoomId, i: nat, c: Certificate)
    requires Run(states, events, me) && i < |states| && AllAnnounced(states, events, me)
    requires c in states[i].certificates
    ensures c.upTo <= |states[i].log| && forall p :: c.from <= p < c.upTo ==> !states[i].log[p]
  {
    RunKeepsInv(states, events, me, i);
  }

  /** A coverage claim reaches up to the present: the content it renews misses nothing that was committed. */
  lemma CoverageIsCurrent(states: seq<State>, events: seq<Event>, me: RoomId, i: nat)
    requires Run(states, events, me) && i < |events| && events[i].Cover? && AllAnnounced(states, events, me)
    ensures states[i].content.Some? && forall p :: states[i].content.value <= p < |states[i].log| ==> !states[i].log[p]
  {
    RunKeepsInv(states, events, me, i + 1);
    assert Step(states[i], states[i + 1], me, events[i]);
    var c := Certificate(states[i].content.value, |states[i].log|);
    assert c == states[i + 1].certificates[|states[i].certificates|] && c in states[i + 1].certificates;
    assert Sound(states[i + 1], c);
  }

  // ----- Nothing is forgotten --------------------------------------------------------------------------------

  /** A view that knows it is out of date is not at rest, unless it has failed. */
  predicate WakesUp(s: State) {
    s.dirty && !s.failed ==> !s.phase.Resting?
  }

  lemma StepKeepsAwake(s: State, s': State, me: RoomId, e: Event)
    requires WakesUp(s) && Step(s, s', me, e)
    ensures WakesUp(s')
  {
    if e.Commit? {
      ListeningKeepsAwake(s, me, Some(e.room), e.room == me);
    } else if Reports(e) {
      assert WakesUp(Retabled(s, e));
      ListeningKeepsAwake(Retabled(s, e), me, e.scope, false);
    }
  }

  lemma ListeningKeepsAwake(s: State, me: RoomId, scope: Option<RoomId>, commit: bool)
    requires WakesUp(s)
    ensures WakesUp(Published(s, me, scope, commit))
  {
  }

  lemma {:induction false} RunKeepsAwake(states: seq<State>, events: seq<Event>, me: RoomId, i: nat)
    requires Run(states, events, me) && i < |states|
    ensures WakesUp(states[i])
    decreases i
  {
    if i > 0 {
      RunKeepsAwake(states, events, me, i - 1);
      NextKeepsAwake(states, events, me, i - 1);
    }
  }

  lemma NextKeepsAwake(states: seq<State>, events: seq<Event>, me: RoomId, i: nat)
    requires Run(states, events, me) && i < |events| && WakesUp(states[i])
    ensures WakesUp(states[i + 1])
  {
    StepKeepsAwake(states[i], states[i + 1], me, events[i]);
  }

  predicate OfTheRefresh(e: Event) {
    e.Begin? || e.ProjectionEnds? || e.EmitLast? || e.Flushed? || e.Finish?
  }

  /**
   No wake-up is lost. Whatever changes the view's room while nothing pending concerns it, and whatever
   ends a pending time in the view's own scope, leaves the view out of date to its knowledge or failed;
   such a view is on its way to a refresh, and a refresh on its way can always go on.
   */
  lemma NoWakeUpIsLost(states: seq<State>, events: seq<Event>, me: RoomId, i: nat)
    requires Run(states, events, me) && i < |events|
    requires var s, e := states[i], events[i];
      (e == Commit(me) && !Pending(s, me)) || (EndsPending(s, me, e) && Announces(s, me, e))
    ensures var s' := states[i + 1];
      s'.failed || (s'.dirty && exists next, e :: OfTheRefresh(e) && Step(s', next, me, e))
  {
    assert Step(states[i], states[i + 1], me, events[i]);
    ChangeIsNoticed(states[i], states[i + 1], me, events[i]);
    RunKeepsAwake(states, events, me, i + 1);
    if !states[i + 1].failed { RefreshGoesOn(states[i + 1], me); }
  }

  lemma ChangeIsNoticed(s: State, s': State, me: RoomId, e: Event)
    requires Step(s, s', me, e) && ((e == Commit(me) && !Pending(s, me)) || (EndsPending(s, me, e) && Announces(s, me, e)))
    ensures s'.failed || s'.dirty
  {
    if EndsPending(s, me, e) { assert s' == Published(Retabled(s, e), me, e.scope, false); }
  }

  lemma RefreshGoesOn(s: State, me: RoomId)
    requires !s.failed && !s.phase.Resting?
    ensures exists next, e :: OfTheRefresh(e) && Step(s, next, me, e)
  {
    match s.phase
    case Queued => assert Step(s, AfterBegin(s, me), me, Begin);
    case Projecting(_, _, _) => assert Step(s, AfterProjection(s, me, true), me, ProjectionEnds(true));
    case Emitting(_, _) => assert Step(s, AfterLast(s, me), me, EmitLast);
    case Flushing(_, _) => assert Step(s, AfterFlush(s, me), me, Flushed);
    case Finishing => assert Step(s, AfterFinish(s), me, Finish);
  }

  /** A new view's first round in a quiet store: projected, delivered and certified at position 0. */
  function FirstRound(): seq<State> {
    [ State([], map[], map[], Queued, true, 0, None, None, false, false, []),
      State([], map[], map[], Projecting(1, 0, 0), false, 0, None, None, false, false, []),
      State([], map[], map[], Emitting(0, 0), false, 0, None, None, false, false, []),
      State([], map[], map[], Flushing(0, 0), false, 0, None, Some(0), false, false, [Certificate(0, 0)]),
      State([], map[], map[], Finishing, false, 0, Some(0), Some(0), true, false, [Certificate(0, 0), Certificate(0, 0)]),
      State([], map[], map[], Resting, false, 0, Some(0), Some(0), true, false, [Certificate(0, 0), Certificate(0, 0)]) ]
  }

  lemma FirstRoundRuns()
    ensures Run(FirstRound(), [Begin, ProjectionEnds(true), EmitLast, Flushed, Finish], "r")
  {
    FirstProjection();
    FirstDelivery();
  }

  lemma FirstProjection()
    ensures var s := FirstRound(); Step(s[0], s[1], "r", Begin) && Step(s[1], s[2], "r", ProjectionEnds(true))
  {
  }

  lemma FirstDelivery()
    ensures var s := FirstRound();
      Step(s[2], s[3], "r", EmitLast) && Step(s[3], s[4], "r", Flushed) && Step(s[4], s[5], "r", Finish)
  {
  }

  /** From there: a global pending mark, a commit to the room, a clear in the name of another room, coverage. */
  function Misled(): seq<State> {
    var sent := [Certificate(0, 0), Certificate(0, 0)];
    [ State([false], map["x" := None], map[], Resting, false, 1, Some(0), Some(0), true, false, sent),
      State([false, true], map["x" := None], map[], Resting, false, 2, Some(0), Some(0), true, false, sent),
      State([false, true, false], map[], map[], Resting, false, 2, Some(3), Some(0), true, false, sent),
      State([false, true, false], map[], map[], Resting, false, 2, Some(3), Some(0), true, false, sent + [Certificate(0, 3)]) ]
  }

  lemma MisledRuns()
    ensures var s, first := Misled(), FirstRound()[5];
      && Step(first, s[0], "r", MarkPending("x", None)) && Step(s[0], s[1], "r", Commit("r"))
      && Step(s[1], s[2], "r", ClearPending("x", Some("other"))) && Step(s[2], s[3], "r", Cover)
  {
    var s := Misled();
    assert "x" in s[0].pending && "x" in s[1].pending && Concerns(s[0].pending["x"], "r");
    assert s[1].pending - {"x"} == map[];
  }

  /**
   The scope discipline is needed. A source marked pending for every room but cleared in the name of
   another one lets the view count a commit to its own room, made in between, as none of its business.
   */
  lemma MismatchedScopeMisleads() returns (states: seq<State>, events: seq<Event>)
    ensures Run(states, events, "r")
    ensures var last := states[|states| - 1]; exists c :: c in last.certificates && !Sound(last, c)
  {
    FirstRoundRuns();
    MisledRuns();
    var first, events0 := FirstRound(), [Begin, ProjectionEnds(true), EmitLast, Flushed, Finish];
    states := first + Misled();
    events := events0 + [MarkPending("x", None), Commit("r"), ClearPending("x", Some("other")), Cover];
    forall i | 0 <= i < |events| ensures Step(states[i], states[i + 1], "r", events[i]) {
      if i < 5 {
        assert Step(first[i], first[i + 1], "r", events0[i]);
      }
    }
    var last := Misled()[3];
    assert states[|states| - 1] == last && last.log[1] && !Quiet(last.log, 0, 3);
    var c := last.certificates[2];
    assert c == Certificate(0, 3) && c in last.certificates && !Sound(last, c);
  }

  /** The daemon's callers mark, clear and fail one source name under one scope. */
  ghost predicate KeepsScopes(e: Event, home: string -> Option<RoomId>) {
    Reports(e) ==> e.scope == home(e.source)
  }

  ghost predicate ScopesKept(s: State, home: string -> Option<RoomId>) {
    forall x :: x in s.pending ==> s.pending[x] == home(x)
  }

  lemma StepRetables(s: State, s': State, me: RoomId, e: Event)
    requires Step(s, s', me, e)
    ensures s'.pending == Retabled(s, e).pending
  {
    if Reports(e) && !Silent(s, e) {
      ListeningRetablesNothing(Retabled(s, e), me, e.scope, false);
    } else if e.Commit? {
      ListeningRetablesNothing(s, me, Some(e.room), e.room == me);
    }
  }

  lemma ListeningRetablesNothing(s: State, me: RoomId, scope: Option<RoomId>, commit: bool)
    ensures Published(s, me, scope, commit).pending == s.pending
  {
  }

  lemma {:induction false} RunKeepsScopes(states: seq<State>, events: seq<Event>, me: RoomId, home: string -> Option<RoomId>, i: nat)
    requires Run(states, events, me) && i < |states| && forall e :: e in events ==> KeepsScopes(e, home)
    ensures ScopesKept(states[i], home)
    decreases i
  {
    if i > 0 {
      RunKeepsScopes(states, events, me, home, i - 1);
      StepRetables(states[i - 1], states[i], me, events[i - 1]);
      assert KeepsScopes(events[i - 1], home);
    }
  }

  lemma NewMarkEndsNothing(s: State, me: RoomId, x: string, scope: Option<RoomId>)
    requires x !in s.pending
    ensures !EndsPending(s, me, MarkPending(x, scope))
  {
    if Pending(s, me) {
      var y :| y in s.pending && Concerns(s.pending[y], me);
      assert y in s.pending[x := scope] && s.pending[x := scope][y] == s.pending[y];
    }
  }

  lemma KeptScopeAnnounces(s: State, me: RoomId, e: Event, home: string -> Option<RoomId>)
    requires ScopesKept(s, home) && KeepsScopes(e, home)
    ensures Announces(s, me, e)
  {
    if e.MarkPending? {
      if e.source in s.pending { assert s.pending[e.source := e.scope] == s.pending; }
      else { NewMarkEndsNothing(s, me, e.source, e.scope); }
    } else if (e.ClearPending? || e.SourceFails?) && Pending(s, me) {
      var y :| y in s.pending && Concerns(s.pending[y], me);
      if y != e.source { assert y in s.pending - {e.source}; }
    }
  }

  /** Callers that keep one scope per source announce every end of a pending time, to every view. */
  lemma KeptScopesAnnounce(states: seq<State>, events: seq<Event>, me: RoomId, home: string -> Option<RoomId>)
    requires Run(states, events, me) && forall e :: e in events ==> KeepsScopes(e, home)
    ensures AllAnnounced(states, events, me)
  {
    forall i | 0 <= i < |events| ensures Announces(states[i], me, events[i]) {
      RunKeepsScopes(states, events, me, home, i);
      KeptScopeAnnounces(states[i], me, events[i], home);
    }
  }

  /** A view that rests on content a pending source kept it from renewing, although its room has changed since. */
  ghost predicate Waits(s: State, me: RoomId) {
    && s.phase.Resting? && s.ready && !s.failed && !Broken(s, me) && !s.dirty && s.content.Some? && s.covered.Some?
    && s.covered.value <= |s.log| && Pending(s, me) && !Quiet(s.log, s.content.value, |s.log|)
  }

  /** After a commit elsewhere the view may claim coverage, and the claim is false. */
  ghost predicate ClaimsFalsely(s: State, me: RoomId) {
    exists next, told, other :: other != me && Step(s, next, me, Commit(other)) && Step(next, told, me, Cover)
      && told.certificates != [] && !Sound(told, told.certificates[|told.certificates| - 1])
  }

  /**
   Exactly the announcement matters. When a view waits while its room has changed, any event of the store
   lets a false coverage claim follow if and only if the event ends the waiting without telling the view:
   by clearing or failing the last source in another room's name, or by marking it again under one.
   */
  lemma MisleadsIffUnannounced(s: State, s': State, me: RoomId, e: Event)
    requires Waits(s, me) && OfTheStore(e) && Step(s, s', me, e)
    ensures ClaimsFalsely(s', me) <==> !Announces(s, me, e)
  {
    if Announces(s, me, e) {
      AnnouncedIsNoticed(s, s', me, e);
      NoticedClaimsNothing(s', me);
    } else {
      UnannouncedMisleads(s, s', me, e);
    }
  }

  /** The view waits on, has failed, or knows that it is out of date. */
  predicate Notices(s: State, me: RoomId) {
    Pending(s, me) || s.failed || s.dirty
  }

  lemma AnnouncedIsNoticed(s: State, s': State, me: RoomId, e: Event)
    requires Waits(s, me) && OfTheStore(e) && Step(s, s', me, e) && Announces(s, me, e)
    ensures Notices(s', me)
  {
    StepRetables(s, s', me, e);
    if EndsPending(s, me, e) { assert s' == Published(Retabled(s, e), me, e.scope, false); }
  }

  lemma NoticedClaimsNothing(s: State, me: RoomId)
    requires Notices(s, me)
    ensures !ClaimsFalsely(s, me)
  {
    forall next, other | other != me && Step(s, next, me, Commit(other)) ensures Notices(next, me) {
      StepRetables(s, next, me, Commit(other));
    }
  }

  lemma StillRests(s: State, s': State, me: RoomId, e: Event)
    requires Waits(s, me) && OfTheStore(e) && Step(s, s', me, e) && !Announces(s, me, e)
    ensures s'.phase.Resting? && s'.ready && !s'.failed && !s'.dirty && s'.covered.Some? && s'.content == s.content
    ensures !Pending(s', me) && !Broken(s', me) && s.log <= s'.log
  {
    var s0 := Retabled(s, e);
    assert !Pending(s0, me) && EndsPending(s, me, e) && Reports(e);
    if !Silent(s, e) {
      EndIsElsewhere(s, me, e);
      assert s' == Published(s0, me, e.scope, false);
    } else {
      assert e.MarkPending? || s0.pending == s.pending;
    }
  }

  /** A published event that ends the waiting unannounced breaks nothing of this view. */
  lemma EndIsElsewhere(s: State, me: RoomId, e: Event)
    requires Reports(e) && EndsPending(s, me, e) && !Concerns(e.scope, me) && !Broken(s, me)
    ensures !Broken(Retabled(s, e), me)
  {
  }

  lemma UnannouncedMisleads(s: State, s': State, me: RoomId, e: Event)
    requires Waits(s, me) && OfTheStore(e) && Step(s, s', me, e) && !Announces(s, me, e)
    ensures ClaimsFalsely(s', me)
  {
    var other := me + "x";
    assert |other| == |me| + 1;
    StillRests(s, s', me, e);
    var next := Published(s', me, Some(other), false);
    var told := Certify(next, Certificate(next.content.value, |next.log|));
    assert Step(s', next, me, Commit(other));
    assert !Pending(next, me) && next.phase.Resting? && next.covered == Some(|next.log|);
    assert Step(next, told, me, Cover);
    assert told.certificates[|told.certificates| - 1] == Certificate(next.content.value, |next.log|);
    var p :| s.content.value <= p < |s.log| && s.log[p];
    assert next.log[p];
  }
}
