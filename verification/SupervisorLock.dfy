/**
 The supervisor generation lock: a chain of files `supervisor.lock.<n>` in one directory.

 The protocol is a state machine. One step of a contender is one file-system call (or one look
 at the process table); between two calls anything may happen: other contenders run, processes
 exit, their PIDs are reused, and a contender that acts on an old listing may create again a
 generation that was superseded and removed long ago.
 */
module SupervisorLock {
  import opened Prelude

  type Pid = nat
  type ContenderId = nat
  type Generation = nat

  const MAX_ATTEMPTS := 16
  /** The generation pattern admits at most fifteen digits. */
  const MAX_LISTED: Generation := 999_999_999_999_999

  /** What really tells two processes apart, even when the kernel reuses a PID. */
  datatype Identity = Identity(pid: Pid, boot: string, start: string)

  /** What an inspection or a record knows of a process: the incarnation fields may be missing. */
  datatype View = View(pid: Pid, boot: Option<string>, start: Option<string>)

  datatype Holder = Holder(view: View, released: bool)

  datatype Inspection = Threw | Gone | Seen(view: View)

  datatype Pc =
    | Listing
    | Stating(top: Generation)
    | Reading(top: Generation)
    | Inspecting(top: Generation, holder: Holder)
    | Linking(gen: Generation)
    | Relisting(gen: Generation)
    | Withdrawing(gen: Generation)
    | Sweeping(gen: Generation, todo: seq<Generation>)
    | Holding(gen: Generation)
    | ReleaseStating(gen: Generation)
    | ReleaseReading(gen: Generation)
    | ReleaseRenaming(gen: Generation)
    | ReleaseFailed(gen: Generation)
    | Released
    | Refused(holderPid: Pid)
    | Failed

  datatype Contender = Contender(who: Identity, self: View, pc: Pc, attempt: nat)

  /**
   `files` is the directory, `table` the running processes by PID, `exited` every identity that
   ever stopped. `top` and `founder` are history: the highest listed generation that was ever
   linked, and who linked each generation at the moment it became the highest.
   */
  datatype State = State(
    files: map<Generation, Holder>,
    table: map<Pid, Identity>,
    exited: set<Identity>,
    contenders: map<ContenderId, Contender>,
    top: Generation,
    founder: map<Generation, ContenderId>)

  datatype Event =
    | Spawn(who: Identity)
    | Exit(pid: Pid)
    | Arrive(id: ContenderId, who: Identity, self: View)
    | Call(id: ContenderId, seen: Inspection)
    | BeginRelease(id: ContenderId)
    | Fault(id: ContenderId)

  predicate ViewOf(v: View, who: Identity) {
    && v.pid == who.pid
    && (v.boot.Some? ==> v.boot.value == who.boot)
    && (v.start.Some? ==> v.start.value == who.start)
  }

  /** Inspecting a PID reports it gone only when nothing runs there, and otherwise never lies. */
  predicate HonestInspection(table: map<Pid, Identity>, pid: Pid, seen: Inspection) {
    match seen
    case Threw => true
    case Gone => pid !in table
    case Seen(v) => pid in table && ViewOf(v, table[pid])
  }

  /** Dead only on positive evidence. */
  predicate HolderAlive(holder: View, seen: Inspection) {
    match seen
    case Threw => true
    case Gone => false
    case Seen(current) =>
      if holder.boot.None? || holder.start.None? || current.boot.None? || current.start.None? then true
      else holder.boot == current.boot && holder.start == current.start
  }

  predicate Running(s: State, who: Identity) {
    who.pid in s.table && s.table[who.pid] == who
  }

  /** The decision never calls a running process dead, whatever metadata is missing. */
  lemma DeathEvidenceIsSound(s: State, who: Identity, record: View, seen: Inspection)
    requires ViewOf(record, who) && HonestInspection(s.table, record.pid, seen)
    requires !HolderAlive(record, seen)
    ensures !Running(s, who)
  {
  }

  predicate Listed(g: Generation) {
    1 <= g <= MAX_LISTED
  }

  /** The last entry of the sorted listing, or 0 when no generation is listed. */
  ghost predicate IsLast(files: map<Generation, Holder>, last: Generation) {
    && (last == 0 || (Listed(last) && last in files))
    && forall g :: g in files && Listed(g) ==> g <= last
  }

  function Retry(c: Contender): Contender {
    if c.attempt + 1 < MAX_ATTEMPTS then c.(pc := Listing, attempt := c.attempt + 1)
    else c.(pc := Failed, attempt := c.attempt + 1)
  }

  ghost predicate Goes(s: State, s': State, id: ContenderId, c: Contender) {
    s' == s.(contenders := s.contenders[id := c])
  }

  /** The exclusive link succeeds; history notes whether it made a new highest generation. */
  ghost predicate Links(s: State, s': State, id: ContenderId, g: Generation)
    requires id in s.contenders
  {
    var c := s.contenders[id];
    var founds := Listed(g) && g > s.top;
    s' == s.(files := s.files[g := Holder(c.self, false)],
             contenders := s.contenders[id := c.(pc := Relisting(g))],
             top := if founds then g else s.top,
             founder := if founds then s.founder[g := id] else s.founder)
  }

  /** One call of contender `id`, with `seen` the answer if the call inspects a process. */
  ghost predicate Calls(s: State, s': State, id: ContenderId, seen: Inspection)
    requires id in s.contenders
  {
    var c := s.contenders[id];
    match c.pc
    case Listing =>
      exists last ::
        && IsLast(s.files, last)
        && Goes(s, s', id, c.(pc := if last == 0 then Linking(1) else Stating(last)))
    case Stating(t) =>
      Goes(s, s', id, if t in s.files then c.(pc := Reading(t)) else Retry(c))
    case Reading(t) =>
      Goes(s, s', id,
        if t !in s.files then Retry(c)
        else if s.files[t].released then c.(pc := Linking(t + 1))
        else c.(pc := Inspecting(t, s.files[t])))
    case Inspecting(t, holder) =>
      && HonestInspection(s.table, holder.view.pid, seen)
      && Goes(s, s', id, c.(pc := if HolderAlive(holder.view, seen) then Refused(holder.view.pid) else Linking(t + 1)))
    case Linking(g) =>
      if g in s.files then Goes(s, s', id, Retry(c))
      else Links(s, s', id, g)
    case Relisting(g) =>
      exists last ::
        && IsLast(s.files, last)
        && if last != g then Goes(s, s', id, c.(pc := Withdrawing(g)))
           else exists todo: seq<Generation> ::
             && (forall x :: x in todo ==> x < g)
             && (forall x :: x in s.files && Listed(x) && x < g ==> x in todo)
             && Goes(s, s', id, c.(pc := Sweeping(g, todo)))
    case Withdrawing(g) =>
      s' == s.(files := s.files - {g}, contenders := s.contenders[id := Retry(c)])
    case Sweeping(g, todo) =>
      if todo == [] then Goes(s, s', id, c.(pc := Holding(g)))
      else s' == s.(files := s.files - {todo[0]}, contenders := s.contenders[id := c.(pc := Sweeping(g, todo[1..]))])
    case ReleaseStating(g) =>
      Goes(s, s', id, c.(pc := if g in s.files then ReleaseReading(g) else Released))
    case ReleaseReading(g) =>
      Goes(s, s', id,
        if g !in s.files then c.(pc := ReleaseFailed(g))
        else if s.files[g].released || s.files[g].view != c.self then c.(pc := Released)
        else c.(pc := ReleaseRenaming(g)))
    case ReleaseRenaming(g) =>
      s' == s.(files := s.files[g := Holder(c.self, true)], contenders := s.contenders[id := c.(pc := Released)])
    case _ => false
  }

  ghost predicate Step(s: State, s': State, e: Event) {
    match e
    case Spawn(who) =>
      && who.pid !in s.table && who !in s.exited
      && s' == s.(table := s.table[who.pid := who])
    case Exit(pid) =>
      && pid in s.table
      && s' == s.(table := s.table - {pid}, exited := s.exited + {s.table[pid]})
    case Arrive(id, who, self) =>
      && id !in s.contenders && Running(s, who) && ViewOf(self, who)
      && s' == s.(contenders := s.contenders[id := Contender(who, self, Listing, 0)])
    case Call(id, seen) =>
      id in s.contenders && Running(s, s.contenders[id].who) && Calls(s, s', id, seen)
    case BeginRelease(id) =>
      && id in s.contenders && Running(s, s.contenders[id].who) && s.contenders[id].pc.Holding?
      && Goes(s, s', id, s.contenders[id].(pc := ReleaseStating(s.contenders[id].pc.gen)))
    case Fault(id) =>
      && id in s.contenders && Running(s, s.contenders[id].who)
      && (Acquiring(s.contenders[id].pc) || Releasing(s.contenders[id].pc))
      && Goes(s, s', id, s.contenders[id].(pc := Thrown(s.contenders[id].pc)))
  }

  /** Still inside the acquisition: an unexpected file-system error makes it throw, and nothing is granted. */
  predicate Acquiring(pc: Pc) {
    pc.Listing? || pc.Stating? || pc.Reading? || pc.Inspecting? || pc.Linking? || pc.Relisting? || pc.Withdrawing? || pc.Sweeping?
  }

  predicate Releasing(pc: Pc) {
    pc.ReleaseStating? || pc.ReleaseReading? || pc.ReleaseRenaming?
  }

  /** A release that throws is not tried again; the lock stays with its supervisor until that exits. */
  function Thrown(pc: Pc): Pc {
    if Releasing(pc) then ReleaseFailed(pc.gen) else Failed
  }

  ghost predicate Init(s: State) {
    && s.files == map[] && s.contenders == map[] && s.top == 0 && s.founder == map[]
    && (forall p :: p in s.table ==> s.table[p].pid == p && s.table[p] !in s.exited)
  }

  /** From the moment its second listing confirms it until its tombstone is in place. */
  predicate Holds(c: Contender) {
    c.pc.Sweeping? || c.pc.Holding? || c.pc.ReleaseStating? || c.pc.ReleaseReading? || c.pc.ReleaseRenaming? || c.pc.ReleaseFailed?
  }

  /** A supervisor that can no longer exclude a replacement: it left its tombstone or it died. */
  predicate Finished(s: State, id: ContenderId) {
    id in s.contenders && (s.contenders[id].pc.Released? || s.contenders[id].who in s.exited)
  }

  /** `view` is the record that the founder of generation `g` publishes. */
  predicate FoundedAs(s: State, g: Generation, view: View) {
    g in s.founder && s.founder[g] in s.contenders && view == s.contenders[s.founder[g]].self
  }

  predicate FounderFinished(s: State, g: Generation) {
    g in s.founder && Finished(s, s.founder[g])
  }

  predicate Founded(s: State, g: Generation, id: ContenderId) {
    g in s.founder && s.founder[g] == id
  }

  ghost predicate FilesInv(s: State) {
    && (forall g :: g in s.files && Listed(g) ==> g <= s.top)
    && (s.top > 0 ==>
        && Listed(s.top) && s.top in s.files
        && FoundedAs(s, s.top, s.files[s.top].view)
        && (s.files[s.top].released ==> s.contenders[s.founder[s.top]].pc.Released?))
  }

  ghost predicate FounderInv(s: State) {
    forall g :: g in s.founder ==>
      Listed(g) && g <= s.top && s.founder[g] in s.contenders && (g < s.top ==> FounderFinished(s, g))
  }

  ghost predicate ProcessInv(s: State) {
    && (forall p :: p in s.table ==> s.table[p].pid == p && s.table[p] !in s.exited)
    && (forall id :: id in s.contenders ==>
        && ViewOf(s.contenders[id].self, s.contenders[id].who)
        && (Running(s, s.contenders[id].who) || s.contenders[id].who in s.exited))
  }

  /** What one contender may believe, given the highest generation so far. */
  predicate BeliefInv(s: State, id: ContenderId, pc: Pc) {
    match pc
    case Stating(t) => Listed(t) && t <= s.top
    case Reading(t) => Listed(t) && t <= s.top
    case Inspecting(t, holder) =>
      Listed(t) && t <= s.top && (t == s.top ==> FoundedAs(s, t, holder.view))
    case Linking(g) =>
      1 <= g <= s.top + 1 && (g == s.top + 1 && g > 1 ==> FounderFinished(s, s.top))
    case Relisting(g) => g >= 1 && (Listed(g) ==> g < s.top || (g == s.top && Founded(s, g, id)))
    case Withdrawing(g) => g >= 1 && (Listed(g) ==> g < s.top)
    case Sweeping(g, todo) => Founded(s, g, id) && forall x :: x in todo ==> x < g
    case Holding(g) => Founded(s, g, id)
    case ReleaseStating(g) => Founded(s, g, id)
    case ReleaseReading(g) => Founded(s, g, id)
    case ReleaseRenaming(g) => Founded(s, g, id)
    case ReleaseFailed(g) => Founded(s, g, id)
    case _ => true
  }

  ghost predicate Believes(s: State) {
    forall id :: id in s.contenders ==> BeliefInv(s, id, s.contenders[id].pc)
  }

  ghost predicate Inv(s: State) {
    FilesInv(s) && FounderInv(s) && ProcessInv(s) && Believes(s)
  }

  lemma InitEstablishesInv(s: State)
    requires Init(s)
    ensures Inv(s)
  {
  }

  /** A running holder sits on the highest generation, and the file there is its own record. */
  lemma HolderIsTop(s: State, id: ContenderId)
    requires Inv(s) && id in s.contenders && Holds(s.contenders[id]) && Running(s, s.contenders[id].who)
    ensures s.top > 0 && s.founder[s.top] == id && s.contenders[id].pc.gen == s.top
    ensures s.files[s.top] == Holder(s.contenders[id].self, false)
  {
    assert BeliefInv(s, id, s.contenders[id].pc);
  }

  /** What contenders rely on is kept while nothing is founded: finished supervisors stay finished. */
  ghost predicate Continues(s: State, s': State) {
    && s'.top == s.top && s'.founder == s.founder
    && forall k :: k in s.contenders ==>
      && k in s'.contenders && s'.contenders[k].self == s.contenders[k].self
      && (Finished(s, k) ==> Finished(s', k))
  }

  lemma BeliefSurvives(s: State, s': State, id: ContenderId, pc: Pc)
    requires Continues(s, s') && FounderInv(s) && BeliefInv(s, id, pc)
    ensures BeliefInv(s', id, pc)
  {
  }

  /** One contender moves on, possibly removing one file that is not the highest. */
  lemma MoveKeepsInv(s: State, s': State, id: ContenderId, gone: set<Generation>, c: Contender)
    requires Inv(s) && id in s.contenders && !s.contenders[id].pc.Released?
    requires s' == s.(files := s.files - gone, contenders := s.contenders[id := c])
    requires c.who == s.contenders[id].who && c.self == s.contenders[id].self
    requires forall g :: g in gone ==> g < s.top || !Listed(g)
    requires Continues(s, s') ==> BeliefInv(s', id, c.pc)
    ensures Inv(s')
  {
    assert Continues(s, s');
    assert FilesInv(s');
    assert FounderInv(s');
    forall k | k in s'.contenders ensures BeliefInv(s', k, s'.contenders[k].pc) {
      if k != id { BeliefSurvives(s, s', k, s.contenders[k].pc); }
    }
  }

  lemma StepKeepsInv(s: State, s': State, e: Event)
    requires Inv(s) && Step(s, s', e)
    ensures Inv(s') && s.top <= s'.top
  {
    match e
    case Call(id, seen) => CallKeepsInv(s, s', id, seen);
    case BeginRelease(id) => BeginningReleaseKeepsInv(s, s', id);
    case Fault(id) => FaultKeepsInv(s, s', id);
    case _ => EnvironmentKeepsInv(s, s', e);
  }

  lemma BeginningReleaseKeepsInv(s: State, s': State, id: ContenderId)
    requires Inv(s) && id in s.contenders && s.contenders[id].pc.Holding?
    requires Goes(s, s', id, s.contenders[id].(pc := ReleaseStating(s.contenders[id].pc.gen)))
    ensures Inv(s') && s.top <= s'.top
  {
    assert s'.files == s.files - {};
    assert BeliefInv(s, id, s.contenders[id].pc);
    MoveKeepsInv(s, s', id, {}, s'.contenders[id]);
  }

  lemma FaultKeepsInv(s: State, s': State, id: ContenderId)
    requires Inv(s) && id in s.contenders && (Acquiring(s.contenders[id].pc) || Releasing(s.contenders[id].pc))
    requires Goes(s, s', id, s.contenders[id].(pc := Thrown(s.contenders[id].pc)))
    ensures Inv(s') && s.top <= s'.top
  {
    assert s'.files == s.files - {};
    assert BeliefInv(s, id, s.contenders[id].pc);
    MoveKeepsInv(s, s', id, {}, s'.contenders[id]);
  }

  lemma EnvironmentKeepsInv(s: State, s': State, e: Event)
    requires Inv(s) && Step(s, s', e) && (e.Spawn? || e.Exit? || e.Arrive?)
    ensures Inv(s') && s.top <= s'.top
  {
    assert Continues(s, s');
    ProcessesKeepProcessInv(s, s', e);
    assert FilesInv(s') && FounderInv(s');
    forall k | k in s.contenders ensures BeliefInv(s', k, s'.contenders[k].pc) {
      BeliefSurvives(s, s', k, s.contenders[k].pc);
    }
  }

  lemma ProcessesKeepProcessInv(s: State, s': State, e: Event)
    requires ProcessInv(s) && Step(s, s', e) && (e.Spawn? || e.Exit? || e.Arrive?)
    ensures ProcessInv(s')
  {
  }

  lemma CallKeepsInv(s: State, s': State, id: ContenderId, seen: Inspection)
    requires Inv(s) && id in s.contenders && Running(s, s.contenders[id].who) && Calls(s, s', id, seen)
    ensures Inv(s') && s.top <= s'.top
  {
    match s.contenders[id].pc
    case Inspecting(t, holder) => InspectKeepsInv(s, s', id, seen);
    case Linking(g) => LinkKeepsInv(s, s', id, g, seen);
    case Withdrawing(g) => UnlinkKeepsInv(s, s', id, seen);
    case Sweeping(g, todo) => UnlinkKeepsInv(s, s', id, seen);
    case ReleaseStating(g) => ReleaseKeepsInv(s, s', id, seen);
    case ReleaseReading(g) => ReleaseKeepsInv(s, s', id, seen);
    case ReleaseRenaming(g) => TombstoneKeepsInv(s, s', id, g, seen);
    case _ => LookKeepsInv(s, s', id, seen);
  }

  lemma LookKeepsInv(s: State, s': State, id: ContenderId, seen: Inspection)
    requires Inv(s) && id in s.contenders && Calls(s, s', id, seen)
    requires var pc := s.contenders[id].pc; pc.Listing? || pc.Stating? || pc.Reading? || pc.Relisting?
    ensures Inv(s') && s.top <= s'.top
  {
    assert s.files - {} == s.files;
    assert BeliefInv(s, id, s.contenders[id].pc);
    MoveKeepsInv(s, s', id, {}, s'.contenders[id]);
  }

  lemma InspectKeepsInv(s: State, s': State, id: ContenderId, seen: Inspection)
    requires Inv(s) && id in s.contenders && s.contenders[id].pc.Inspecting? && Calls(s, s', id, seen)
    ensures Inv(s') && s.top <= s'.top
  {
    var Inspecting(t, holder) := s.contenders[id].pc;
    assert s.files - {} == s.files;
    assert BeliefInv(s, id, s.contenders[id].pc);
    if t == s.top && !HolderAlive(holder.view, seen) {
      DeathEvidenceIsSound(s, s.contenders[s.founder[t]].who, holder.view, seen);
    }
    MoveKeepsInv(s, s', id, {}, s'.contenders[id]);
  }

  lemma UnlinkKeepsInv(s: State, s': State, id: ContenderId, seen: Inspection)
    requires Inv(s) && id in s.contenders && Calls(s, s', id, seen)
    requires s.contenders[id].pc.Withdrawing? || s.contenders[id].pc.Sweeping?
    ensures Inv(s') && s.top <= s'.top
  {
    var pc := s.contenders[id].pc;
    assert BeliefInv(s, id, pc);
    var gone := if pc.Withdrawing? then {pc.gen} else if pc.todo == [] then {} else {pc.todo[0]};
    if pc.Sweeping? {
      assert pc.todo == [] ==> s.files - gone == s.files;
      assert pc.todo != [] ==> pc.todo[0] in pc.todo && forall x :: x in pc.todo[1..] ==> x in pc.todo;
    }
    MoveKeepsInv(s, s', id, gone, s'.contenders[id]);
  }

  lemma ReleaseKeepsInv(s: State, s': State, id: ContenderId, seen: Inspection)
    requires Inv(s) && id in s.contenders && Running(s, s.contenders[id].who) && Calls(s, s', id, seen)
    requires s.contenders[id].pc.ReleaseStating? || s.contenders[id].pc.ReleaseReading?
    ensures Inv(s') && s.top <= s'.top
  {
    assert s.files - {} == s.files;
    HolderIsTop(s, id);
    MoveKeepsInv(s, s', id, {}, s'.contenders[id]);
  }

  /** An exclusive link either founds a new highest generation or recreates one already superseded. */
  lemma LinkKeepsInv(s: State, s': State, id: ContenderId, g: Generation, seen: Inspection)
    requires Inv(s) && id in s.contenders && Running(s, s.contenders[id].who) && Calls(s, s', id, seen)
    requires s.contenders[id].pc == Linking(g)
    ensures Inv(s') && s.top <= s'.top
  {
    assert BeliefInv(s, id, Linking(g));
    if g in s.files {
      assert s.files - {} == s.files;
      MoveKeepsInv(s, s', id, {}, s'.contenders[id]);
    } else {
      LinkKeepsFiles(s, s', id, g);
      LinkKeepsFounders(s, s', id, g);
      forall k | k in s'.contenders ensures BeliefInv(s', k, s'.contenders[k].pc) {
        if k != id { LinkKeepsBelief(s, s', id, g, k); }
      }
    }
  }

  lemma LinkKeepsFiles(s: State, s': State, id: ContenderId, g: Generation)
    requires Inv(s) && id in s.contenders && g !in s.files
    requires s.contenders[id].pc == Linking(g) && Links(s, s', id, g)
    ensures FilesInv(s') && BeliefInv(s', id, s'.contenders[id].pc)
  {
    assert BeliefInv(s, id, Linking(g));
    if Listed(g) && g > s.top {
      assert s'.files[g].view == s'.contenders[s'.founder[g]].self;
    } else {
      assert FoundedAs(s', s.top, s'.files[s.top].view);
    }
  }

  lemma LinkKeepsFounders(s: State, s': State, id: ContenderId, g: Generation)
    requires Inv(s) && id in s.contenders
    requires s.contenders[id].pc == Linking(g) && Links(s, s', id, g)
    ensures FounderInv(s') && ProcessInv(s')
  {
    assert BeliefInv(s, id, Linking(g));
    forall h | h in s'.founder ensures Listed(h) && h <= s'.top && s'.founder[h] in s'.contenders
    {
      assert h in s.founder || h == g;
    }
    forall h | h in s'.founder && h < s'.top ensures FounderFinished(s', h) {
      assert h in s.founder && FounderFinished(s, h);
    }
    LinkKeepsProcesses(s, s', id, g);
  }

  lemma LinkKeepsProcesses(s: State, s': State, id: ContenderId, g: Generation)
    requires ProcessInv(s) && id in s.contenders && Links(s, s', id, g)
    ensures ProcessInv(s')
  {
  }

  lemma LinkKeepsBelief(s: State, s': State, id: ContenderId, g: Generation, k: ContenderId)
    requires Inv(s) && id in s.contenders && k in s.contenders && k != id && g !in s.files
    requires s.contenders[id].pc == Linking(g) && Links(s, s', id, g)
    ensures BeliefInv(s', k, s.contenders[k].pc)
  {
    assert BeliefInv(s, k, s.contenders[k].pc) && BeliefInv(s, id, Linking(g));
    assert s.top > 0 ==> s.founder[s.top] in s.contenders;
  }

  lemma TombstoneKeepsInv(s: State, s': State, id: ContenderId, g: Generation, seen: Inspection)
    requires Inv(s) && id in s.contenders && Running(s, s.contenders[id].who) && Calls(s, s', id, seen)
    requires s.contenders[id].pc == ReleaseRenaming(g)
    ensures Inv(s') && s.top <= s'.top
  {
    HolderIsTop(s, id);
    TombstoneKeepsFiles(s, s', id, g);
    forall k | k in s'.contenders ensures BeliefInv(s', k, s'.contenders[k].pc) {
      if k != id { BeliefSurvives(s, s', k, s.contenders[k].pc); }
    }
  }

  lemma TombstoneKeepsFiles(s: State, s': State, id: ContenderId, g: Generation)
    requires Inv(s) && id in s.contenders && s.contenders[id].pc == ReleaseRenaming(g) && g == s.top > 0 && s.founder[g] == id
    requires s' == s.(files := s.files[g := Holder(s.contenders[id].self, true)],
                      contenders := s.contenders[id := s.contenders[id].(pc := Released)])
    ensures Continues(s, s') && FilesInv(s') && FounderInv(s') && ProcessInv(s')
  {
    assert Continues(s, s');
  }

  // ----- Whole runs ---------------------------------------------------------------------------

  ghost predicate Run(states: seq<State>, events: seq<Event>) {
    && |states| == |events| + 1
    && Init(states[0])
    && forall i {:trigger events[i]} :: 0 <= i < |events| ==> Step(states[i], states[i + 1], events[i])
  }

  lemma {:induction false} RunKeepsInv(states: seq<State>, events: seq<Event>, i: nat)
    requires Run(states, events) && i < |states|
    ensures Inv(states[i])
    decreases i
  {
    if i == 0 {
      InitEstablishesInv(states[0]);
    } else {
      RunKeepsInv(states, events, i - 1);
      StepKeepsInv(states[i - 1], states[i], events[i - 1]);
    }
  }

  /** Mutual exclusion: whoever crashed, raced or recreated what, one running process holds the lock. */
  lemma AtMostOneSupervisor(states: seq<State>, events: seq<Event>, i: nat, a: ContenderId, b: ContenderId)
    requires Run(states, events) && i < |states|
    requires a in states[i].contenders && Holds(states[i].contenders[a]) && Running(states[i], states[i].contenders[a].who)
    requires b in states[i].contenders && Holds(states[i].contenders[b]) && Running(states[i], states[i].contenders[b].who)
    ensures a == b
  {
    RunKeepsInv(states, events, i);
    HolderIsTop(states[i], a);
    HolderIsTop(states[i], b);
  }

  /** A call changes one contender's place in the protocol, never its identity or a settled outcome. */
  lemma CallMovesOne(s: State, s': State, id: ContenderId, seen: Inspection)
    requires id in s.contenders && Calls(s, s', id, seen)
    ensures id in s'.contenders && s'.contenders == s.contenders[id := s'.contenders[id]]
    ensures s'.contenders[id].who == s.contenders[id].who && s'.contenders[id].self == s.contenders[id].self
    ensures !s.contenders[id].pc.Released? && s'.exited == s.exited
  {
    match s.contenders[id].pc
    case Listing =>
    case Relisting(g) =>
    case Linking(g) =>
    case _ =>
  }

  lemma StepKeepsIdentity(s: State, s': State, e: Event, id: ContenderId)
    requires Step(s, s', e) && id in s.contenders
    ensures id in s'.contenders && s'.contenders[id].who == s.contenders[id].who
    ensures s'.contenders[id].self == s.contenders[id].self
    ensures Finished(s, id) ==> Finished(s', id)
  {
    if e.Call? {
      CallMovesOne(s, s', e.id, e.seen);
    }
  }

  /** What no step ever takes back: a finished supervisor stays finished, a founder stays founder. */
  ghost predicate Later(s: State, s': State) {
    && s.top <= s'.top
    && (forall g :: g in s.founder ==> g in s'.founder && s'.founder[g] == s.founder[g])
    && (forall id :: Finished(s, id) ==> Finished(s', id))
    && (forall id :: id in s.contenders ==>
        && id in s'.contenders && s'.contenders[id].who == s.contenders[id].who
        && s'.contenders[id].self == s.contenders[id].self)
  }

  lemma StepIsLater(s: State, s': State, e: Event)
    requires Inv(s) && Step(s, s', e)
    ensures Later(s, s')
  {
    StepKeepsInv(s, s', e);
    FoundersArePermanent(s, s', e);
    forall id | id in s.contenders
      ensures id in s'.contenders && s'.contenders[id].who == s.contenders[id].who
      ensures s'.contenders[id].self == s.contenders[id].self && (Finished(s, id) ==> Finished(s', id))
    {
      StepKeepsIdentity(s, s', e, id);
    }
  }

  lemma LaterIsTransitive(a: State, b: State, c: State)
    requires Later(a, b) && Later(b, c)
    ensures Later(a, c)
  {
  }

  lemma LaterIsReflexive(s: State)
    ensures Later(s, s)
  {
  }

  lemma LaterOneMore(a: State, b: State, c: State, e: Event)
    requires Later(a, b) && Inv(b) && Step(b, c, e)
    ensures Later(a, c)
  {
    StepIsLater(b, c, e);
    LaterIsTransitive(a, b, c);
  }

  lemma NextIsLater(states: seq<State>, events: seq<Event>, a: State, j: nat)
    requires Run(states, events) && j < |events| && Later(a, states[j])
    ensures Later(a, states[j + 1])
  {
    RunKeepsInv(states, events, j);
    LaterOneMore(a, states[j], states[j + 1], events[j]);
  }

  lemma {:induction false} RunIsLater(states: seq<State>, events: seq<Event>, i: nat, j: nat)
    requires Run(states, events) && i <= j < |states|
    ensures Later(states[i], states[j])
    decreases j
  {
    if i < j {
      RunIsLater(states, events, i, j - 1);
      NextIsLater(states, events, states[i], j - 1);
    } else {
      LaterIsReflexive(states[i]);
    }
  }

  /** Only an exclusive link that succeeds founds anything. */
  lemma OnlyLinksFound(s: State, s': State, id: ContenderId, seen: Inspection)
    requires id in s.contenders && Calls(s, s', id, seen)
    ensures s'.founder == s.founder || (s.contenders[id].pc.Linking? && Links(s, s', id, s.contenders[id].pc.gen))
  {
  }

  lemma FoundersArePermanent(s: State, s': State, e: Event)
    requires Inv(s) && Step(s, s', e)
    ensures forall g :: g in s.founder ==> g in s'.founder && s'.founder[g] == s.founder[g]
  {
    if e.Call? {
      OnlyLinksFound(s, s', e.id, e.seen);
    }
  }

  /** The highest generation in the directory is the highest ever linked, so it never decreases. */
  lemma MaximumNeverDecreases(states: seq<State>, events: seq<Event>, i: nat, j: nat, before: Generation, after: Generation)
    requires Run(states, events) && i <= j < |states|
    requires IsLast(states[i].files, before) && IsLast(states[j].files, after)
    ensures before == states[i].top && after == states[j].top && before <= after
  {
    RunKeepsInv(states, events, i);
    RunKeepsInv(states, events, j);
    RunIsLater(states, events, i, j);
  }

  /** What `supervisorGenerationFinished` answers from its listing, its read and its inspection. */
  function FinishedAnswer(generation: Generation, last: Generation, record: Option<Holder>, seen: Inspection): bool {
    if last > generation then true
    else match record
      case None => true
      case Some(holder) => holder.released || !HolderAlive(holder.view, seen)
  }

  function Lookup(files: map<Generation, Holder>, g: Generation): Option<Holder> {
    if g in files then Some(files[g]) else None
  }

  /**
   The listing (at `i`), the read (at `j`) and the inspection (at `k`) may be far apart. For any
   generation founded before the question was asked, "finished" means that its original creator
   released or died, now and in every later state `m`.
   */
  lemma FinishedIsTrue(states: seq<State>, events: seq<Event>, i: nat, j: nat, k: nat, m: nat,
                       generation: Generation, last: Generation, seen: Inspection)
    requires Run(states, events) && i <= j <= k <= m < |states|
    requires generation in states[i].founder && IsLast(states[i].files, last)
    requires var record := Lookup(states[j].files, generation);
      && (record.Some? ==> HonestInspection(states[k].table, record.value.view.pid, seen))
      && FinishedAnswer(generation, last, record, seen)
    ensures FounderFinished(states[m], generation)
  {
    RunKeepsInv(states, events, i);
    RunKeepsInv(states, events, j);
    RunKeepsInv(states, events, k);
    RunIsLater(states, events, i, j);
    RunIsLater(states, events, j, k);
    RunIsLater(states, events, k, m);
    var founder := states[i].founder[generation];
    if generation == states[j].top {
      var holder := states[j].files[generation];
      if !holder.released {
        DeathEvidenceIsSound(states[k], states[j].contenders[founder].who, holder.view, seen);
      }
    }
  }

  /** The other direction: while the creator of a generation holds the lock, the answer is no. */
  lemma HeldIsNotFinished(states: seq<State>, events: seq<Event>, i: nat, j: nat, k: nat,
                          id: ContenderId, last: Generation, seen: Inspection)
    requires Run(states, events) && i <= j <= k < |states|
    requires id in states[i].contenders
    requires forall n :: i <= n <= k ==>
      id in states[n].contenders && Holds(states[n].contenders[id]) && Running(states[n], states[n].contenders[id].who)
    requires IsLast(states[i].files, last)
    requires Holds(states[i].contenders[id])
    requires var record := Lookup(states[j].files, states[i].contenders[id].pc.gen);
      record.Some? ==> HonestInspection(states[k].table, record.value.view.pid, seen)
    ensures var g := states[i].contenders[id].pc.gen;
      !FinishedAnswer(g, last, Lookup(states[j].files, g), seen)
  {
    RunKeepsInv(states, events, i);
    RunKeepsInv(states, events, j);
    RunKeepsInv(states, events, k);
    RunIsLater(states, events, i, j);
    RunIsLater(states, events, j, k);
    HeldAnswersNo(states[i], states[j], states[k], id, last, seen);
  }

  ghost predicate HoldsRunning(s: State, id: ContenderId) {
    id in s.contenders && Holds(s.contenders[id]) && Running(s, s.contenders[id].who)
  }

  lemma HeldAnswersNo(listed: State, read: State, inspected: State, id: ContenderId, last: Generation, seen: Inspection)
    requires Inv(listed) && Inv(read) && Later(listed, read) && Later(read, inspected)
    requires HoldsRunning(listed, id) && HoldsRunning(read, id) && HoldsRunning(inspected, id) && IsLast(listed.files, last)
    requires var record := Lookup(read.files, listed.contenders[id].pc.gen);
      record.Some? ==> HonestInspection(inspected.table, record.value.view.pid, seen)
    ensures var g := listed.contenders[id].pc.gen; !FinishedAnswer(g, last, Lookup(read.files, g), seen)
  {
    HolderIsTop(listed, id);
    HolderIsTop(read, id);
    assert BeliefInv(listed, id, listed.contenders[id].pc) && BeliefInv(read, id, read.contenders[id].pc);
  }

  // ----- The loop itself, run without interference ----------------------------------------------

  datatype Outcome = Acquired(generation: Generation) | AlreadyRunning(pid: Pid) | Exhausted

  /** May a contender that finds `last` on top create the next generation? */
  predicate Reclaimable(files: map<Generation, Holder>, last: Generation, inspect: Pid -> Inspection)
    requires last == 0 || last in files
  {
    last == 0 || files[last].released || !HolderAlive(files[last].view, inspect(files[last].view.pid))
  }

  /** Only the generation pattern is listed; anything else in the directory is none of our business. */
  ghost predicate OnlyListed(files: map<Generation, Holder>, before: map<Generation, Holder>, g: Generation, record: Holder) {
    && g in files && files[g] == record
    && (forall h :: h in files && Listed(h) ==> h == g)
    && (forall h :: !Listed(h) ==> (h in files <==> h in before))
    && (forall h :: h in files && !Listed(h) ==> files[h] == before[h])
  }

  class LockDirectory {
    var files: map<Generation, Holder>

    constructor ()
      ensures files == map[]
    {
      files := map[];
    }

    /** `generations(...).at(-1)`, with 0 for an empty listing. */
    method LastGeneration() returns (last: Generation)
      ensures IsLast(files, last)
    {
      last := 0;
      var todo := files.Keys;
      while todo != {}
        invariant todo <= files.Keys
        invariant last == 0 || (Listed(last) && last in files)
        invariant forall g :: g in files && Listed(g) && g !in todo ==> g <= last
        decreases todo
      {
        var g :| g in todo;
        todo := todo - {g};
        if Listed(g) && g > last { last := g; }
      }
    }

    method Sweep(generation: Generation)
      modifies this
      ensures forall g :: g in files <==> g in old(files) && !(Listed(g) && g < generation)
      ensures forall g :: g in files ==> files[g] == old(files)[g]
    {
      var todo := files.Keys;
      while todo != {}
        invariant todo <= old(files).Keys
        invariant forall g :: g in files <==> g in old(files) && (g in todo || !(Listed(g) && g < generation))
        invariant forall g :: g in files ==> files[g] == old(files)[g]
        decreases todo
      {
        var g :| g in todo;
        todo := todo - {g};
        if Listed(g) && g < generation { files := files - {g}; }
      }
    }

    method Acquire(self: View, inspect: Pid -> Inspection) returns (outcome: Outcome)
      modifies this
      ensures forall last: Generation :: IsLast(old(files), last) ==>
        outcome == (if !Reclaimable(old(files), last, inspect) then AlreadyRunning(old(files)[last].view.pid)
                    else if last < MAX_LISTED then Acquired(last + 1) else Exhausted)
      ensures outcome.Acquired? ==> OnlyListed(files, old(files), outcome.generation, Holder(self, false))
      ensures !outcome.Acquired? ==> files == old(files)
    {
      for attempt := 0 to MAX_ATTEMPTS
        invariant files == old(files)
        invariant attempt > 0 ==> IsLast(files, MAX_LISTED) && Reclaimable(files, MAX_LISTED, inspect)
      {
        var top := LastGeneration();
        if top != 0 {
          var holder := files[top];
          if !holder.released && HolderAlive(holder.view, inspect(holder.view.pid)) {
            return AlreadyRunning(holder.view.pid);
          }
        }
        var generation := top + 1;
        assert generation in files ==> top == MAX_LISTED;
        if generation in files { continue; }
        files := files[generation := Holder(self, false)];
        var present := LastGeneration();
        if present != generation {
          assert Listed(generation) ==> generation <= present;
          files := files - {generation};
          assert files == old(files);
          assert present == 0 || present in old(files);
          assert top == MAX_LISTED && files == old(files);
          continue;
        }
        Sweep(generation);
        return Acquired(generation);
      }
      return Exhausted;
    }

    /** Idempotent: only a holder whose own untombstoned record is still there leaves a tombstone. */
    method Release(generation: Generation, self: View)
      modifies this
      ensures files ==
        if generation in old(files) && old(files)[generation] == Holder(self, false)
        then old(files)[generation := Holder(self, true)] else old(files)
    {
      if generation !in files { return; }
      var holder := files[generation];
      if holder.released || holder.view != self { return; }
      files := files[generation := Holder(self, true)];
    }
  }
}
