/**
 The re-entrant FIFO mutex of one room, built from a chain of promises. Each call that queues takes
 the next place in the chain; work issued while its own context still holds the room is admitted at
 once and keeps the room held until it settles.
 */
module RoomMutex {
  import opened Prelude

  datatype Outcome = Succeeded | RootFailed | NestedFailed(first: nat)

  /** One queued call: its root work, the nested work admitted under its ownership, and its promise. */
  datatype Ticket = Ticket(
    started: bool,
    active: bool,
    root: Option<bool>,
    pending: set<nat>,
    failures: seq<nat>,
    outcome: Option<Outcome>,
    released: bool)

  datatype Nested = Nested(owner: nat, settled: Option<bool>)

  /** `chain` counts the tail promises that have resolved, in order. */
  datatype State = State(tickets: seq<Ticket>, nested: seq<Nested>, chain: nat)

  datatype Event =
    | Issue(context: Option<nat>)
    | Start(k: nat)
    | RootSettles(k: nat, ok: bool)
    | NestedSettles(n: nat, ok: bool)
    | Deactivate(k: nat)
    | Release(k: nat)
    | ResolveTail

  const NEW_TICKET: Ticket := Ticket(false, false, None, {}, [], None, false)

  function Result(t: Ticket): Outcome {
    if t.root == Some(false) then RootFailed
    else if t.failures != [] then NestedFailed(t.failures[0])
    else Succeeded
  }

  function SettleNested(s: State, n: nat, ok: bool): State
    requires n < |s.nested| && s.nested[n].owner < |s.tickets|
  {
    var owner := s.nested[n].owner;
    var t := s.tickets[owner];
    s.(nested := s.nested[n := s.nested[n].(settled := Some(ok))],
       tickets := s.tickets[owner := t.(pending := t.pending - {n}, failures := if ok then t.failures else t.failures + [n])])
  }

  /** `withRoomMutex`: nested work joins an active ownership, everything else takes a new place. */
  function Issued(s: State, context: Option<nat>): State
    requires context.Some? ==> context.value < |s.tickets|
  {
    if context.Some? && s.tickets[context.value].active then
      var t := s.tickets[context.value];
      s.(nested := s.nested + [Nested(context.value, None)],
         tickets := s.tickets[context.value := t.(pending := t.pending + {|s.nested|})])
    else s.(tickets := s.tickets + [NEW_TICKET])
  }

  ghost predicate Step(s: State, s': State, e: Event) {
    match e
    case Issue(context) =>
      (context.Some? ==> context.value < |s.tickets| && s.tickets[context.value].started) && s' == Issued(s, context)
    case Start(k) =>
      && k < |s.tickets| && !s.tickets[k].started && k <= s.chain
      && s' == s.(tickets := s.tickets[k := s.tickets[k].(started := true, active := true)])
    case RootSettles(k, ok) =>
      && k < |s.tickets| && s.tickets[k].started && s.tickets[k].root.None?
      && s' == s.(tickets := s.tickets[k := s.tickets[k].(root := Some(ok))])
    case NestedSettles(n, ok) =>
      && n < |s.nested| && s.nested[n].settled.None? && s.nested[n].owner < |s.tickets|
      && s' == SettleNested(s, n, ok)
    case Deactivate(k) =>
      && k < |s.tickets| && s.tickets[k].active && s.tickets[k].root.Some? && s.tickets[k].pending == {}
      && s' == s.(tickets := s.tickets[k := s.tickets[k].(active := false, outcome := Some(Result(s.tickets[k])))])
    case Release(k) =>
      && k < |s.tickets| && s.tickets[k].outcome.Some? && !s.tickets[k].released
      && s' == s.(tickets := s.tickets[k := s.tickets[k].(released := true)])
    case ResolveTail =>
      s.chain < |s.tickets| && s.tickets[s.chain].released && s' == s.(chain := s.chain + 1)
  }

  ghost predicate Init(s: State) {
    s == State([], [], 0)
  }

  // ----- The invariant -------------------------------------------------------------------------------

  predicate Is(s: State, n: nat, x: Nested) {
    n < |s.nested| && s.nested[n] == x
  }

  ghost predicate TicketInv(s: State, k: nat)
    requires k < |s.tickets|
  {
    var t := s.tickets[k];
    && (t.active ==> t.started && t.outcome.None?)
    && (t.started && !t.active ==> t.outcome.Some?)
    && (t.outcome.Some? ==> t.started && !t.active && t.root.Some? && t.pending == {} && t.outcome.value == Result(t))
    && (t.released ==> t.outcome.Some?)
    && (t.root.Some? ==> t.started)
    && (!t.started ==> t == NEW_TICKET)
    && (forall n: nat :: n in t.pending <==> Is(s, n, Nested(k, None)))
    && (forall n: nat :: n in t.failures <==> Is(s, n, Nested(k, Some(false))))
  }

  ghost predicate QueueInv(s: State) {
    && s.chain <= |s.tickets|
    && (forall k :: 0 <= k < s.chain ==> s.tickets[k].released)
    && (forall k :: 0 <= k < |s.tickets| && s.tickets[k].started ==> k <= s.chain)
  }

  ghost predicate Inv(s: State) {
    && QueueInv(s)
    && (forall n :: 0 <= n < |s.nested| ==> s.nested[n].owner < |s.tickets|)
    && forall k :: 0 <= k < |s.tickets| ==> TicketInv(s, k)
  }

  lemma IssueKeepsInv(s: State, context: Option<nat>)
    requires Inv(s) && (context.Some? ==> context.value < |s.tickets| && s.tickets[context.value].started)
    ensures Inv(Issued(s, context))
  {
    var s' := Issued(s, context);
    forall k | 0 <= k < |s'.tickets| ensures TicketInv(s', k) {
      if k < |s.tickets| { assert TicketInv(s, k); }
    }
  }

  lemma SettleKeepsInv(s: State, n: nat, ok: bool)
    requires Inv(s) && n < |s.nested| && s.nested[n].settled.None?
    ensures Inv(SettleNested(s, n, ok))
  {
    var s' := SettleNested(s, n, ok);
    assert TicketInv(s, s.nested[n].owner) && Is(s, n, Nested(s.nested[n].owner, None));
    forall k | 0 <= k < |s'.tickets| ensures TicketInv(s', k) { assert TicketInv(s, k); }
  }

  lemma StepKeepsInv(s: State, s': State, e: Event)
    requires Inv(s) && Step(s, s', e)
    ensures Inv(s')
  {
    match e
    case Issue(context) => IssueKeepsInv(s, context);
    case NestedSettles(n, ok) => SettleKeepsInv(s, n, ok);
    case ResolveTail =>
      forall k | 0 <= k < |s'.tickets| ensures TicketInv(s', k) { assert TicketInv(s, k); }
    case Start(k) => TicketChanges(s, k, s'.tickets[k]);
    case RootSettles(k, ok) => TicketChanges(s, k, s'.tickets[k]);
    case Deactivate(k) => TicketChanges(s, k, s'.tickets[k]);
    case Release(k) => TicketChanges(s, k, s'.tickets[k]);
  }

  /** One ticket moves on, and the nested work it counts stays the same. */
  lemma TicketChanges(s: State, k: nat, t: Ticket)
    requires Inv(s) && k < |s.tickets| && (t.started ==> k <= s.chain) && (s.tickets[k].released ==> t.released)
    requires t.pending == s.tickets[k].pending && t.failures == s.tickets[k].failures
    requires TicketInv(s, k) ==> TicketInv(s.(tickets := s.tickets[k := t]), k)
    ensures Inv(s.(tickets := s.tickets[k := t]))
  {
    var s' := s.(tickets := s.tickets[k := t]);
    forall j | 0 <= j < |s'.tickets| ensures TicketInv(s', j) { assert TicketInv(s, j); }
  }

  ghost predicate Run(states: seq<State>, events: seq<Event>) {
    && |states| == |events| + 1 && Init(states[0])
    && forall i {:trigger events[i]} :: 0 <= i < |events| ==> Step(states[i], states[i + 1], events[i])
  }

  lemma {:induction false} RunKeepsInv(states: seq<State>, events: seq<Event>, i: nat)
    requires Run(states, events) && i < |states|
    ensures Inv(states[i])
    decreases i
  {
    if i > 0 {
      RunKeepsInv(states, events, i - 1);
      StepKeepsInv(states[i - 1], states[i], events[i - 1]);
    }
  }

  // ----- Theorems --------------------------------------------------------------------------------------

  /** Work is in progress under ticket `k`: its root, or nested work admitted under its ownership. */
  ghost predicate Busy(s: State, k: nat)
    requires k < |s.tickets|
  {
    (s.tickets[k].started && s.tickets[k].root.None?) || exists n: nat :: Is(s, n, Nested(k, None))
  }

  /**
   Mutual exclusion, in first-come order: once a call has started, every call queued before it has
   started, has finished all of its root and nested work, and has released the room.
   */
  lemma Exclusion(states: seq<State>, events: seq<Event>, i: nat, j: nat, k: nat)
    requires Run(states, events) && i < |states| && j < k < |states[i].tickets| && states[i].tickets[k].started
    ensures var s := states[i];
      s.tickets[j].started && s.tickets[j].released && !s.tickets[j].active && !Busy(s, j)
  {
    RunKeepsInv(states, events, i);
    assert TicketInv(states[i], j);
  }

  /** Whoever works holds the room: work in progress belongs to the one ticket that is active. */
  lemma OneHolder(states: seq<State>, events: seq<Event>, i: nat, j: nat, k: nat)
    requires Run(states, events) && i < |states| && j < |states[i].tickets| && k < |states[i].tickets|
    requires Busy(states[i], j) && Busy(states[i], k)
    ensures j == k && states[i].tickets[j].active
  {
    RunKeepsInv(states, events, i);
    var s := states[i];
    assert TicketInv(s, j) && TicketInv(s, k);
    BusyIsActive(s, j);
    BusyIsActive(s, k);
    if j < k {
      Exclusion(states, events, i, j, k);
    } else if k < j {
      Exclusion(states, events, i, k, j);
    }
  }

  lemma BusyIsActive(s: State, k: nat)
    requires Inv(s) && k < |s.tickets| && Busy(s, k)
    ensures s.tickets[k].active && s.tickets[k].started
  {
    assert TicketInv(s, k);
    if s.tickets[k].root.Some? || !s.tickets[k].started {
      var n: nat :| Is(s, n, Nested(k, None));
      assert n in s.tickets[k].pending;
    }
  }

  ghost predicate AllNestedSucceeded(s: State, k: nat) {
    forall n: nat :: n < |s.nested| && s.nested[n].owner == k ==> s.nested[n].settled == Some(true)
  }

  /** The caller's promise succeeds exactly when its root and every nested call it admitted succeeded. */
  lemma OutcomeIsExact(states: seq<State>, events: seq<Event>, i: nat, k: nat)
    requires Run(states, events) && i < |states| && k < |states[i].tickets| && states[i].tickets[k].outcome.Some?
    ensures var s := states[i]; var t := s.tickets[k];
      && (t.outcome == Some(Succeeded) <==> t.root == Some(true) && AllNestedSucceeded(s, k))
      && (t.outcome == Some(RootFailed) <==> t.root == Some(false))
  {
    RunKeepsInv(states, events, i);
    var s := states[i];
    var t := s.tickets[k];
    assert TicketInv(s, k);
    if t.failures != [] {
      assert t.failures[0] in t.failures && Is(s, t.failures[0], Nested(k, Some(false)));
      assert !AllNestedSucceeded(s, k);
    } else {
      forall n: nat | n < |s.nested| && s.nested[n].owner == k ensures s.nested[n].settled == Some(true) {
        NestedHasSettled(s, k, n);
      }
      assert AllNestedSucceeded(s, k);
      assert t.root.value || t.root == Some(false);
    }
  }

  lemma NestedHasSettled(s: State, k: nat, n: nat)
    requires Inv(s) && k < |s.tickets| && s.tickets[k].outcome.Some? && n < |s.nested| && s.nested[n].owner == k
    ensures s.nested[n].settled == Some(n !in s.tickets[k].failures)
  {
    assert TicketInv(s, k);
    assert n in s.tickets[k].failures <==> Is(s, n, Nested(k, Some(false)));
    assert n !in s.tickets[k].pending && !Is(s, n, Nested(k, None));
    assert s.nested[n].settled.value ==> !Is(s, n, Nested(k, Some(false)));
  }

  /** Work issued in a context whose ownership has ended takes the next place in the queue. */
  lemma LateWorkQueues(states: seq<State>, events: seq<Event>, i: nat, k: nat)
    requires Run(states, events) && i < |events| && events[i] == Issue(Some(k))
    requires k < |states[i].tickets| && states[i].tickets[k].outcome.Some?
    ensures states[i + 1] == states[i].(tickets := states[i].tickets + [NEW_TICKET])
  {
    RunKeepsInv(states, events, i);
    assert Step(states[i], states[i + 1], events[i]);
    assert TicketInv(states[i], k);
  }

  /** The queue never wedges: as long as a call is unfinished, some step that finishes work is possible. */
  lemma NeverStuck(states: seq<State>, events: seq<Event>, i: nat)
    requires Run(states, events) && i < |states| && states[i].chain < |states[i].tickets|
    ensures exists s': State, e: Event :: !e.Issue? && s' != states[i] && Step(states[i], s', e)
  {
    RunKeepsInv(states, events, i);
    var s, k := states[i], states[i].chain;
    var t := s.tickets[k];
    assert TicketInv(s, k);
    if !t.started {
      assert Step(s, s.(tickets := s.tickets[k := t.(started := true, active := true)]), Start(k));
      assert s.tickets[k := t.(started := true, active := true)][k] != t;
    } else if t.root.None? {
      assert Step(s, s.(tickets := s.tickets[k := t.(root := Some(true))]), RootSettles(k, true));
      assert s.tickets[k := t.(root := Some(true))][k] != t;
    } else if t.pending != {} {
      var n :| n in t.pending;
      assert SettleNested(s, n, true).nested[n] != s.nested[n];
      assert Step(s, SettleNested(s, n, true), NestedSettles(n, true));
    } else if t.outcome.None? {
      var t' := t.(active := false, outcome := Some(Result(t)));
      assert Step(s, s.(tickets := s.tickets[k := t']), Deactivate(k));
      assert s.tickets[k := t'][k] != t;
    } else if !t.released {
      assert Step(s, s.(tickets := s.tickets[k := t.(released := true)]), Release(k));
      assert s.tickets[k := t.(released := true)][k] != t;
    } else {
      assert Step(s, s.(chain := s.chain + 1), ResolveTail);
    }
  }
}
