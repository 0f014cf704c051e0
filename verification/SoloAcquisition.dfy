/**
 The other half of the generation lock: it can be had. Left alone, a contender of the protocol ends exactly
 as one run of the acquisition does: it is refused by a live holder, and otherwise holds the next
 generation, with every listed one before it swept away. None starts over without bound.
 */
module SoloAcquisition {
  import opened Prelude
  import opened SupervisorLock

  /** Consecutive states of a run in which only this contender moves. */
  ghost predicate Alone(states: seq<State>, events: seq<Event>, id: ContenderId) {
    && |states| == |events| + 1
    && forall i {:trigger events[i]} :: 0 <= i < |events| ==>
      (events[i].Call? || events[i].BeginRelease?) && events[i].id == id && Step(states[i], states[i + 1], events[i])
  }

  /** A contender that runs and can move. */
  ghost predicate At(s: State, id: ContenderId, pc: Pc) {
    id in s.contenders && Running(s, s.contenders[id].who) && s.contenders[id].pc == pc
  }

  function To(s: State, id: ContenderId, pc: Pc): State
    requires id in s.contenders
  {
    s.(contenders := s.contenders[id := s.contenders[id].(pc := pc)])
  }

  lemma Joined(a: seq<State>, ea: seq<Event>, b: seq<State>, eb: seq<Event>, id: ContenderId)
    requires Alone(a, ea, id) && Alone(b, eb, id) && a[|a| - 1] == b[0]
    ensures Alone(a + b[1..], ea + eb, id)
  {
    var states, events := a + b[1..], ea + eb;
    forall i | 0 <= i < |events|
      ensures (events[i].Call? || events[i].BeginRelease?) && events[i].id == id && Step(states[i], states[i + 1], events[i])
    {
      if i < |ea| {
        assert events[i] == ea[i] && states[i] == a[i] && states[i + 1] == a[i + 1];
      } else {
        assert events[i] == eb[i - |ea|] && states[i] == b[i - |ea|] && states[i + 1] == b[i - |ea| + 1];
      }
    }
  }

  lemma OneCall(s: State, s': State, id: ContenderId, seen: Inspection)
    requires id in s.contenders && Running(s, s.contenders[id].who) && Calls(s, s', id, seen)
    ensures Alone([s, s'], [Call(id, seen)], id)
  {
  }

  // ----- Up to the link ----------------------------------------------------------------------------------

  /** Where the look at the highest generation leads. */
  function AfterLook(files: map<Generation, Holder>, last: Generation, inspect: Pid -> Inspection): Pc
    requires last == 0 || last in files
  {
    if Reclaimable(files, last, inspect) then Linking(last + 1) else Refused(files[last].view.pid)
  }

  lemma Looks(s: State, id: ContenderId, last: Generation, inspect: Pid -> Inspection) returns (states: seq<State>, events: seq<Event>)
    requires At(s, id, Listing) && IsLast(s.files, last) && forall p :: HonestInspection(s.table, p, inspect(p))
    ensures Alone(states, events, id) && states[0] == s && states[|states| - 1] == To(s, id, AfterLook(s.files, last, inspect))
  {
    if last == 0 {
      states, events := [s, To(s, id, Linking(1))], [Call(id, Threw)];
      OneCall(s, To(s, id, Linking(1)), id, Threw);
    } else {
      var a, b := To(s, id, Stating(last)), To(s, id, Reading(last));
      assert Calls(s, a, id, Threw) && Calls(a, b, id, Threw);
      states, events := [s, a, b], [Call(id, Threw), Call(id, Threw)];
      var more, calls := Reads(s, b, id, last, inspect);
      Joined(states, events, more, calls, id);
      states, events := states + more[1..], events + calls;
    }
  }

  lemma Reads(s: State, b: State, id: ContenderId, last: Generation, inspect: Pid -> Inspection) returns (states: seq<State>, events: seq<Event>)
    requires id in s.contenders && last in s.files && last > 0 && b == To(s, id, Reading(last)) && At(b, id, Reading(last))
    requires HonestInspection(s.table, s.files[last].view.pid, inspect(s.files[last].view.pid))
    ensures Alone(states, events, id) && states[0] == b && states[|states| - 1] == To(s, id, AfterLook(s.files, last, inspect))
  {
    var holder := s.files[last];
    var end := To(s, id, AfterLook(s.files, last, inspect));
    if holder.released {
      assert Calls(b, end, id, Threw);
      OneCall(b, end, id, Threw);
      states, events := [b, end], [Call(id, Threw)];
    } else {
      var c, seen := To(s, id, Inspecting(last, holder)), inspect(holder.view.pid);
      assert Calls(b, c, id, Threw) && Calls(c, end, id, seen);
      states, events := [b, c, end], [Call(id, Threw), Call(id, seen)];
    }
  }

  // ----- From the link on ----------------------------------------------------------------------------------

  function SweptFrom(files: map<Generation, Holder>, todo: seq<Generation>): map<Generation, Holder> {
    files - set g | g in todo
  }

  lemma {:induction false} Sweeps(s: State, id: ContenderId, g: Generation, todo: seq<Generation>) returns (states: seq<State>,
                                  events: seq<Event>)
    requires At(s, id, Sweeping(g, todo))
    ensures Alone(states, events, id) && states[0] == s
    ensures states[|states| - 1] == To(s, id, Holding(g)).(files := SweptFrom(s.files, todo))
    decreases |todo|
  {
    var c := s.contenders[id];
    if todo == [] {
      assert SweptFrom(s.files, todo) == s.files;
      OneCall(s, To(s, id, Holding(g)), id, Threw);
      states, events := [s, To(s, id, Holding(g))], [Call(id, Threw)];
    } else {
      var next := s.(files := s.files - {todo[0]}, contenders := s.contenders[id := c.(pc := Sweeping(g, todo[1..]))]);
      OneCall(s, next, id, Threw);
      var more, calls := Sweeps(next, id, g, todo[1..]);
      Joined([s, next], [Call(id, Threw)], more, calls, id);
      assert SweptFrom(next.files, todo[1..]) == SweptFrom(s.files, todo);
      states, events := [s, next] + more[1..], [Call(id, Threw)] + calls;
    }
  }

  lemma InOrder(gens: set<Generation>) returns (todo: seq<Generation>)
    ensures forall g :: g in todo <==> g in gens
  {
    todo := [];
    var left := gens;
    while left != {}
      invariant left <= gens && forall g :: g in todo <==> g in gens && g !in left
    {
      var g :| g in left;
      todo, left := todo + [g], left - {g};
    }
  }

  /** The links of the protocol: the new highest generation, its record, and who founded it. */
  function Linked(s: State, id: ContenderId, g: Generation): State
    requires id in s.contenders
  {
    var founds := Listed(g) && g > s.top;
    s.(files := s.files[g := Holder(s.contenders[id].self, false)], contenders := s.contenders[id := s.contenders[id].(pc := Relisting(g))],
       top := if founds then g else s.top, founder := if founds then s.founder[g := id] else s.founder)
  }

  lemma TakesOver(s: State, id: ContenderId, last: Generation) returns (states: seq<State>, events: seq<Event>)
    requires At(s, id, Linking(last + 1)) && IsLast(s.files, last) && last < MAX_LISTED
    ensures Alone(states, events, id) && states[0] == s
    ensures var end := states[|states| - 1];
      && At(end, id, Holding(last + 1)) && end.contenders[id].self == s.contenders[id].self
      && OnlyListed(end.files, s.files, last + 1, Holder(s.contenders[id].self, false))
  {
    var g := last + 1;
    var linked := Linked(s, id, g);
    assert g !in s.files && Links(s, linked, id, g);
    OneCall(s, linked, id, Threw);
    assert IsLast(linked.files, g);
    var todo := InOrder(set x | x in linked.files && Listed(x) && x < g);
    var sweeping := To(linked, id, Sweeping(g, todo));
    assert Calls(linked, sweeping, id, Threw);
    OneCall(linked, sweeping, id, Threw);
    Joined([s, linked], [Call(id, Threw)], [linked, sweeping], [Call(id, Threw)], id);
    var more, calls := Sweeps(sweeping, id, g, todo);
    Joined([s, linked, sweeping], [Call(id, Threw), Call(id, Threw)], more, calls, id);
    states, events := [s, linked, sweeping] + more[1..], [Call(id, Threw), Call(id, Threw)] + calls;
    assert [s, linked] + [linked, sweeping][1..] == [s, linked, sweeping];
  }

  /** Left alone, a contender is refused by a live holder, and otherwise ends up holding the next generation. */
  lemma SoloAcquires(s: State, id: ContenderId, last: Generation, inspect: Pid -> Inspection) returns (states: seq<State>, events: seq<Event>)
    requires At(s, id, Listing) && IsLast(s.files, last) && last < MAX_LISTED && forall p :: HonestInspection(s.table, p, inspect(p))
    ensures Alone(states, events, id) && states[0] == s
    ensures var end := states[|states| - 1];
      if last == 0 || s.files[last].released || !HolderAlive(s.files[last].view, inspect(s.files[last].view.pid))
      then At(end, id, Holding(last + 1)) && OnlyListed(end.files, s.files, last + 1, Holder(s.contenders[id].self, false))
      else At(end, id, Refused(s.files[last].view.pid)) && end.files == s.files
  {
    states, events := Looks(s, id, last, inspect);
    var end := states[|states| - 1];
    if end.contenders[id].pc.Linking? {
      var more, calls := TakesOver(end, id, last);
      Joined(states, events, more, calls, id);
      states, events := states + more[1..], events + calls;
    }
  }

  /** Left alone, a holder whose record is in place leaves its tombstone there. */
  lemma SoloReleases(s: State, id: ContenderId, g: Generation) returns (states: seq<State>, events: seq<Event>)
    requires At(s, id, Holding(g)) && g in s.files && s.files[g] == Holder(s.contenders[id].self, false)
    ensures Alone(states, events, id) && states[0] == s
    ensures var end := states[|states| - 1];
      At(end, id, Released) && end.files == s.files[g := Holder(s.contenders[id].self, true)]
  {
    var a, b, c := To(s, id, ReleaseStating(g)), To(s, id, ReleaseReading(g)), To(s, id, ReleaseRenaming(g));
    var end := To(s, id, Released).(files := s.files[g := Holder(s.contenders[id].self, true)]);
    assert Step(s, a, BeginRelease(id));
    assert Calls(a, b, id, Threw) && Calls(b, c, id, Threw) && Calls(c, end, id, Threw);
    states, events := [s, a, b, c, end], [BeginRelease(id), Call(id, Threw), Call(id, Threw), Call(id, Threw)];
  }

  // ----- Attempts are bounded --------------------------------------------------------------------------------

  /** Still trying: fewer attempts behind it than it may make. */
  ghost predicate WithinAttempts(s: State) {
    forall id :: id in s.contenders ==>
      && s.contenders[id].attempt <= MAX_ATTEMPTS
      && (s.contenders[id].attempt == MAX_ATTEMPTS ==> s.contenders[id].pc.Failed?)
  }

  lemma StepKeepsAttempts(s: State, s': State, e: Event)
    requires Step(s, s', e) && WithinAttempts(s)
    ensures WithinAttempts(s')
  {
    if e.Call? { CallMovesOne(s, s', e.id, e.seen); CallCountsAttempts(s, s', e.id, e.seen); }
  }

  lemma CallCountsAttempts(s: State, s': State, id: ContenderId, seen: Inspection)
    requires id in s.contenders && Calls(s, s', id, seen) && WithinAttempts(s)
    ensures id in s'.contenders
    ensures var c, c' := s.contenders[id], s'.contenders[id];
      || (c'.attempt == c.attempt && !(c'.pc.Listing? || c'.pc.Failed?))
      || (c'.attempt == c.attempt + 1 && (c'.pc.Failed? <==> c'.attempt == MAX_ATTEMPTS) && (c'.pc.Failed? || c'.pc.Listing?))
  {
  }

  /** In every run no contender starts over more often than it may, and it gives up exactly then. */
  lemma {:induction false} AttemptsAreBounded(states: seq<State>, events: seq<Event>, i: nat)
    requires Run(states, events) && i < |states|
    ensures WithinAttempts(states[i])
    decreases i
  {
    if i > 0 {
      AttemptsAreBounded(states, events, i - 1);
      StepKeepsAttempts(states[i - 1], states[i], events[i - 1]);
    }
  }

  // ----- Death and release are noticed -----------------------------------------------------------------------

  predicate Complete(v: View) {
    v.boot.Some? && v.start.Some?
  }

  /**
   A holder that no longer runs is judged dead as soon as the inspection finds nobody under its PID, or
   somebody else there and both incarnations are known.
   */
  lemma DeathIsNoticed(s: State, who: Identity, record: View, seen: Inspection)
    requires ProcessInv(s) && ViewOf(record, who) && HonestInspection(s.table, record.pid, seen) && !Running(s, who)
    requires seen.Gone? || (seen.Seen? && Complete(record) && Complete(seen.view))
    ensures !HolderAlive(record, seen)
  {
  }

  /** The founder of the highest generation only ever leaves by its tombstone. */
  ghost predicate Tombstoned(s: State) {
    s.top > 0 && s.top in s.founder && s.founder[s.top] in s.contenders && s.contenders[s.founder[s.top]].pc.Released? ==>
      s.top in s.files && s.files[s.top].released
  }

  lemma StepKeepsTombstones(s: State, s': State, e: Event)
    requires Inv(s) && Tombstoned(s) && Step(s, s', e)
    ensures Tombstoned(s')
  {
    StepKeepsInv(s, s', e);
    if e.Call? { CallKeepsTombstones(s, s', e.id, e.seen); }
  }

  lemma CallKeepsTombstones(s: State, s': State, id: ContenderId, seen: Inspection)
    requires Inv(s) && Inv(s') && Tombstoned(s) && id in s.contenders && Running(s, s.contenders[id].who) && Calls(s, s', id, seen)
    ensures Tombstoned(s')
  {
    var pc := s.contenders[id].pc;
    assert BeliefInv(s, id, pc);
    CallMovesOne(s, s', id, seen);
    OnlyLinksFound(s, s', id, seen);
    if Holds(s.contenders[id]) { HolderIsTop(s, id); }
    match pc
    case Linking(g) => LinkKeepsTombstones(s, s', id, g, seen);
    case Sweeping(g, todo) => SweepKeepsTop(s, s', id, seen);
    case Withdrawing(g) =>
    case _ =>
  }

  lemma LinkKeepsTombstones(s: State, s': State, id: ContenderId, g: Generation, seen: Inspection)
    requires Inv(s) && Tombstoned(s) && id in s.contenders && s.contenders[id].pc == Linking(g) && Calls(s, s', id, seen)
    ensures Tombstoned(s')
  {
    assert BeliefInv(s, id, Linking(g));
  }

  lemma SweepKeepsTop(s: State, s': State, id: ContenderId, seen: Inspection)
    requires Inv(s) && id in s.contenders && s.contenders[id].pc.Sweeping? && s.contenders[id].pc.gen == s.top
    requires Calls(s, s', id, seen)
    ensures s'.top == s.top && (s.top in s.files ==> s.top in s'.files && s'.files[s.top] == s.files[s.top])
  {
    var pc := s.contenders[id].pc;
    assert BeliefInv(s, id, pc);
    if pc.todo != [] { assert pc.todo[0] in pc.todo; }
  }

  lemma {:induction false} RunKeepsTombstones(states: seq<State>, events: seq<Event>, i: nat)
    requires Run(states, events) && i < |states|
    ensures Tombstoned(states[i])
    decreases i
  {
    if i > 0 {
      RunKeepsTombstones(states, events, i - 1);
      RunKeepsInv(states, events, i - 1);
      StepKeepsTombstones(states[i - 1], states[i], events[i - 1]);
    }
  }

  /**
   The answer is yes whenever it can be known: a higher generation is there, or the creator has released,
   or it does not run and the inspection shows it.
   */
  lemma FinishedIsSeen(states: seq<State>, events: seq<Event>, i: nat, generation: Generation, last: Generation, seen: Inspection)
    requires Run(states, events) && i < |states| && generation in states[i].founder && IsLast(states[i].files, last)
    requires states[i].founder[generation] in states[i].contenders
    requires var s, creator := states[i], states[i].contenders[states[i].founder[generation]];
      || generation < s.top
      || creator.pc.Released?
      || (!Running(s, creator.who) && HonestInspection(s.table, creator.self.pid, seen)
          && (seen.Gone? || (seen.Seen? && Complete(creator.self) && Complete(seen.view))))
    ensures FinishedAnswer(generation, last, Lookup(states[i].files, generation), seen)
  {
    RunKeepsInv(states, events, i);
    RunKeepsTombstones(states, events, i);
    var s := states[i];
    var creator := s.contenders[s.founder[generation]];
    if generation == s.top && !creator.pc.Released? {
      DeathIsNoticed(s, creator.who, creator.self, seen);
    }
  }
}
