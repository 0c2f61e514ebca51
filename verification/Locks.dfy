/** The two-lock protocol between writers, immutable readers, snapshot readers,
    maintenance and initialization: a state machine over non-blocking shared and
    exclusive file locks (internal/storage/sqlite/store.go and purge.go,
    internal/app/service.go, internal/storage/lock/lock.go). */
module Locks {

  datatype Lock = Quiescence | Writer

  // A client opens at most one handle of its own on each lock; Initialize holds a
  // second one on the quiescence lock, its guard.
  datatype Slot = Guard | Own

  datatype Handle = Handle(client: int, lock: Lock, slot: Slot, exclusive: bool)

  // Open, OpenReadOnly, OpenSnapshotReadOnly, Checkpoint and Initialize.
  datatype Role = WriterRole | ReaderRole | SnapshotRole | MaintenanceRole | InitializerRole

  datatype Phase =
    | Starting           // nothing done
    | NeedGuard          // the home exists: the guard is to be acquired
    | Guarded            // marker and configuration to be checked
    | NeedQuiescence     // the client's own quiescence lock is to be acquired
    | Checking           // it is held; the preconditions are to be checked
    | NeedWriter         // the writer lock is to be acquired
    | Working            // all locks held: migrating, validating or checkpointing
    | Handover           // the store is open, the guard not yet released
    | Opened             // the caller has the store
    | ReleaseWriter
    | ReleaseQuiescence
    | ReleaseGuard
    | Done

  datatype Client = Client(role: Role, phase: Phase, guarded: bool)

  // What the surroundings make of a step: all is well, something fails, or, for
  // Initialize, the home does not exist yet.
  datatype Surroundings = Good | Bad | Absent

  datatype State = State(clients: map<int, Client>, held: set<Handle>, files: set<Lock>)

  datatype Action =
    | Begin(client: int, role: Role)
    | Proceed(client: int, surroundings: Surroundings)
    | Die(client: int)

  const START := State(map[], {}, {})

  // ---- locks -------------------------------------------------------------------------

  // A non-blocking acquisition is granted when no other handle conflicts.
  predicate Grantable(held: set<Handle>, lock: Lock, exclusive: bool) {
    forall h :: h in held && h.lock == lock ==> !exclusive && !h.exclusive
  }

  predicate Exclusively(role: Role) {
    role == ReaderRole || role == MaintenanceRole
  }

  predicate Creates(role: Role) {
    role == WriterRole || role == InitializerRole
  }

  predicate Writes(role: Role) {
    Creates(role) || role == MaintenanceRole
  }

  // ---- steps ---------------------------------------------------------------------------

  function Moved(s: State, c: int, phase: Phase): State
    requires c in s.clients
  {
    s.(clients := s.clients[c := s.clients[c].(phase := phase)])
  }

  function GuardGone(s: State, c: int): State
    requires c in s.clients
  {
    s.(clients := s.clients[c := s.clients[c].(guarded := false)])
  }

  // Where a client goes when it holds no lock of its own any more.
  function Exit(s: State, c: int): State
    requires c in s.clients
  {
    Moved(s, c, if s.clients[c].guarded then ReleaseGuard else Done)
  }

  // Acquire: an existing file is required unless the role creates it; the file is
  // created even when the lock turns out to be contended.
  function Acquire(s: State, c: int, lock: Lock, slot: Slot, exclusive: bool, create: bool, ok: bool): (State, bool)
    requires c in s.clients
  {
    if !ok || (!create && lock !in s.files) then (s, false)
    else
      var created := s.(files := s.files + {lock});
      if Grantable(s.held, lock, exclusive)
      then (created.(held := s.held + {Handle(c, lock, slot, exclusive)}), true)
      else (created, false)
  }

  function Release(s: State, c: int, lock: Lock, slot: Slot): State {
    s.(held := set h | h in s.held && !(h.client == c && h.lock == lock && h.slot == slot))
  }

  function Advance(s: State, c: int, around: Surroundings): State
    requires c in s.clients
  {
    var me := s.clients[c];
    match me.phase
    case Starting =>
      if around == Bad then Moved(s, c, Done)
      else if me.role != InitializerRole then Moved(s, c, NeedQuiescence)
      else if around == Absent then Moved(s, c, Guarded)
      else Moved(s, c, NeedGuard)
    case NeedGuard =>
      var (after, granted) := Acquire(s, c, Quiescence, Guard, false, true, around == Good);
      if granted then after.(clients := s.clients[c := me.(phase := Guarded, guarded := true)])
          else Moved(after, c, Done)
    case Guarded =>
      if around == Bad then Exit(s, c) else Moved(s, c, NeedQuiescence)
    case NeedQuiescence =>
      var (after, granted) := Acquire(s, c, Quiescence, Own, Exclusively(me.role), Creates(me.role), around == Good);
      if granted then Moved(after, c, Checking) else Exit(after, c)
    case Checking =>
      if around == Bad || (!Writes(me.role) && Writer !in s.files) then Moved(s, c, ReleaseQuiescence)
      else if Writes(me.role) then Moved(s, c, NeedWriter)
      else Moved(s, c, Opened)
    case NeedWriter =>
      var (after, granted) := Acquire(s, c, Writer, Own, true, Creates(me.role), around == Good);
      Moved(after, c, if granted then Working else ReleaseQuiescence)
    case Working =>
      if around == Bad || me.role == MaintenanceRole then Moved(s, c, ReleaseWriter)
      else Moved(s, c, if me.guarded then Handover else Opened)
    case Handover =>
      var after := GuardGone(Release(s, c, Quiescence, Guard), c);
      Moved(after, c, if around == Bad then ReleaseWriter else Opened)
    case Opened => Moved(s, c, if Writes(me.role) then ReleaseWriter else ReleaseQuiescence)
    case ReleaseWriter => Moved(Release(s, c, Writer, Own), c, ReleaseQuiescence)
    case ReleaseQuiescence => Exit(Release(s, c, Quiescence, Own), c)
    case ReleaseGuard => Moved(GuardGone(Release(s, c, Quiescence, Guard), c), c, Done)
    case Done => s
  }

  function Step(s: State, a: Action): State {
    match a
    case Begin(c, role) => if c in s.clients then s else s.(clients := s.clients[c := Client(role, Starting, false)])
    case Proceed(c, around) => if c in s.clients then Advance(s, c, around) else s
    case Die(c) =>
      if c in s.clients
      then s.(clients := s.clients[c := s.clients[c].(phase := Done, guarded := false)],
              held := (set h | h in s.held && h.client != c))
      else s
  }

  function Run(s: State, actions: seq<Action>): State {
    if actions == [] then s else Step(Run(s, actions[..|actions| - 1]), actions[|actions| - 1])
  }

  // ---- the invariant ----------------------------------------------------------------------

  predicate OwnsQuiescence(p: Phase) {
    p.Checking? || p.NeedWriter? || p.Working? || p.Handover? || p.Opened? || p.ReleaseWriter? || p.ReleaseQuiescence?
  }

  predicate OwnsWriter(me: Client) {
    Writes(me.role) && (me.phase.Working? || me.phase.Handover? || me.phase.Opened? || me.phase.ReleaseWriter?)
  }

  // The handles a client must have in its phase, and no others.
  predicate Implied(me: Client, h: Handle) {
    match (h.lock, h.slot)
    case (Quiescence, Guard) => me.guarded && !h.exclusive
    case (Quiescence, Own) => OwnsQuiescence(me.phase) && h.exclusive == Exclusively(me.role)
    case (Writer, Own) => OwnsWriter(me) && h.exclusive
    case (Writer, Guard) => false
  }

  // Phases only some roles can be in.
  predicate Proper(me: Client) {
    && (me.guarded ==> me.role == InitializerRole && !me.phase.Starting? && !me.phase.NeedGuard? && !me.phase.Done?)
    && (me.phase.Handover? || me.phase.ReleaseGuard? ==> me.guarded)
    && (me.phase.NeedWriter? || me.phase.Working? || me.phase.ReleaseWriter? ==> Writes(me.role))
    && (me.phase.NeedGuard? || me.phase.Guarded? ==> me.role == InitializerRole)
    && (me.phase.Opened? ==> me.role != MaintenanceRole && !me.guarded)
  }

  // An exclusive handle is the only one on its lock.
  predicate Compatible(held: set<Handle>) {
    forall g, h :: g in held && h in held && g.lock == h.lock && g != h ==> !g.exclusive && !h.exclusive
  }

  ghost predicate Accounted(s: State) {
    forall h: Handle :: h in s.held <==> h.client in s.clients && Implied(s.clients[h.client], h)
  }

  ghost predicate Inv(s: State) {
    && Compatible(s.held) && Accounted(s)
    && forall c :: c in s.clients ==> Proper(s.clients[c])
  }

  // A client whose handles stay the same may change phase.
  lemma MoveKeeps(s: State, c: int, me: Client, files: set<Lock>)
    requires Inv(s) && c in s.clients && Proper(me)
    requires forall h: Handle :: Implied(me, h) <==> Implied(s.clients[c], h)
    ensures Inv(State(s.clients[c := me], s.held, files))
  {
    hide Implied;
    hide Proper;
    var after := State(s.clients[c := me], s.held, files);
    forall h: Handle ensures h in after.held <==> h.client in after.clients && Implied(after.clients[h.client], h) {
    }
  }

  lemma GrantKeeps(s: State, c: int, me: Client, files: set<Lock>, handle: Handle)
    requires Inv(s) && c in s.clients && Proper(me) && handle.client == c
    requires Grantable(s.held, handle.lock, handle.exclusive)
    requires forall h: Handle :: h.client == c ==> (Implied(me, h) <==> h == handle || Implied(s.clients[c], h))
    ensures Inv(State(s.clients[c := me], s.held + {handle}, files))
  {
    hide Implied;
    hide Proper;
    var after := State(s.clients[c := me], s.held + {handle}, files);
    forall h: Handle ensures h in after.held <==> h.client in after.clients && Implied(after.clients[h.client], h) {
    }
  }

  lemma ReleaseKeeps(s: State, c: int, me: Client, lock: Lock, slot: Slot)
    requires Inv(s) && c in s.clients && Proper(me)
    requires forall h: Handle :: h.client == c ==>
               (Implied(me, h) <==> Implied(s.clients[c], h) && !(h.lock == lock && h.slot == slot))
    ensures Inv(Release(s, c, lock, slot).(clients := s.clients[c := me]))
  {
    hide Implied;
    hide Proper;
    var after := Release(s, c, lock, slot).(clients := s.clients[c := me]);
    forall h: Handle ensures h in after.held <==> h.client in after.clients && Implied(after.clients[h.client], h) {
    }
  }

  lemma DieKeeps(s: State, c: int)
    requires Inv(s) && c in s.clients
    ensures Inv(Step(s, Die(c)))
  {
    hide Advance;
    var after := Step(s, Die(c));
    forall h: Handle ensures h in after.held <==> h.client in after.clients && Implied(after.clients[h.client], h) {
    }
  }

  predicate Acquiring(p: Phase) {
    p.NeedGuard? || p.NeedQuiescence? || p.NeedWriter?
  }

  predicate Releasing(p: Phase) {
    p.Handover? || p.ReleaseWriter? || p.ReleaseQuiescence? || p.ReleaseGuard?
  }

  lemma AcquireStepKeeps(s: State, c: int, around: Surroundings)
    requires Inv(s) && c in s.clients && Acquiring(s.clients[c].phase)
    ensures Inv(Advance(s, c, around))
  {
    hide Inv;
    hide Grantable;
    ProperHere(s, c);
    var me, after := s.clients[c], Advance(s, c, around);
    var next := after.clients[c];
    match me.phase
    case NeedGuard =>
      if next.guarded {
        GrantKeeps(s, c, next, after.files, Handle(c, Quiescence, Guard, false));
      } else {
        MoveKeeps(s, c, next, after.files);
      }
    case NeedQuiescence =>
      if next.phase.Checking? {
        GrantKeeps(s, c, next, after.files, Handle(c, Quiescence, Own, Exclusively(me.role)));
      } else {
        MoveKeeps(s, c, next, after.files);
      }
    case NeedWriter =>
      if next.phase.Working? {
        GrantKeeps(s, c, next, after.files, Handle(c, Writer, Own, true));
      } else {
        MoveKeeps(s, c, next, after.files);
      }
  }

  lemma ReleaseStepKeeps(s: State, c: int, around: Surroundings)
    requires Inv(s) && c in s.clients && Releasing(s.clients[c].phase)
    ensures Inv(Advance(s, c, around))
  {
    hide Inv;
    hide Grantable;
    ProperHere(s, c);
    var me, after := s.clients[c], Advance(s, c, around);
    var next := after.clients[c];
    var lock := if me.phase.ReleaseWriter? then Writer else Quiescence;
    var slot := if me.phase.Handover? || me.phase.ReleaseGuard? then Guard else Own;
    assert after == Release(s, c, lock, slot).(clients := s.clients[c := next]);
    ReleaseKeeps(s, c, next, lock, slot);
  }

  lemma AdvanceKeeps(s: State, c: int, around: Surroundings)
    requires Inv(s) && c in s.clients
    ensures Inv(Advance(s, c, around))
  {
    hide Inv;
    hide Grantable;
    if Acquiring(s.clients[c].phase) {
      AcquireStepKeeps(s, c, around);
    } else if Releasing(s.clients[c].phase) {
      ReleaseStepKeeps(s, c, around);
    } else {
      ProperHere(s, c);
      var after := Advance(s, c, around);
      assert after == State(s.clients[c := after.clients[c]], s.held, s.files);
      MoveKeeps(s, c, after.clients[c], s.files);
    }
  }

  lemma ProperHere(s: State, c: int)
    requires Inv(s) && c in s.clients
    ensures Proper(s.clients[c])
  {
  }

  lemma BeginKeeps(s: State, c: int, role: Role)
    requires Inv(s) && c !in s.clients
    ensures Inv(Step(s, Begin(c, role)))
  {
    hide Advance;
    var after := Step(s, Begin(c, role));
    forall h: Handle ensures h in after.held <==> h.client in after.clients && Implied(after.clients[h.client], h) {
    }
  }

  lemma StepKeeps(s: State, a: Action)
    requires Inv(s)
    ensures Inv(Step(s, a))
  {
    hide Inv;
    hide Advance;
    match a
    case Begin(c, role) => if c !in s.clients { BeginKeeps(s, c, role); }
    case Proceed(c, around) => if c in s.clients { AdvanceKeeps(s, c, around); }
    case Die(c) => if c in s.clients { DieKeeps(s, c); }
  }

  // Every interleaving of every number of clients, with deaths at any point.
  lemma {:induction false} RunKeeps(actions: seq<Action>)
    ensures Inv(Run(START, actions))
  {
    hide Inv;
    hide Step;
    if actions == [] {
      StartHolds();
    } else {
      RunKeeps(actions[..|actions| - 1]);
      StepKeeps(Run(START, actions[..|actions| - 1]), actions[|actions| - 1]);
    }
  }

  lemma StartHolds()
    ensures Inv(START)
  {
  }

  // ---- what the protocol guarantees --------------------------------------------------------

  // A client with a writable database: migrating or checkpointing, opened, or closing.
  predicate HasWritable(me: Client) {
    && (me.role == WriterRole || me.role == InitializerRole || me.role == MaintenanceRole)
    && (me.phase == Working || me.phase == Handover || me.phase == Opened || me.phase == ReleaseWriter)
  }

  // At most one writable store exists.
  lemma OneWriter(actions: seq<Action>, c: int, d: int)
    requires var s := Run(START, actions);
             c in s.clients && d in s.clients && HasWritable(s.clients[c]) && HasWritable(s.clients[d])
    ensures c == d
  {
    hide Run;
    var s := Run(START, actions);
    RunKeeps(actions);
    var g, h := Handle(c, Writer, Own, true), Handle(d, Writer, Own, true);
    assert Implied(s.clients[c], g) && Implied(s.clients[d], h);
    assert g in s.held && h in s.held;
  }

  // While a client reads the file as immutable or checkpoints it, no other client
  // holds any handle: no writer, no snapshot reader, no guard.
  lemma AloneExcludesOthers(actions: seq<Action>, c: int, h: Handle)
    requires var s := Run(START, actions);
             c in s.clients && h in s.held
             && ((s.clients[c].role == ReaderRole && s.clients[c].phase == Opened)
                 || (s.clients[c].role == MaintenanceRole && s.clients[c].phase == Working))
    ensures h.client == c
  {
    hide Run;
    var s := Run(START, actions);
    RunKeeps(actions);
    var mine := Handle(c, Quiescence, Own, true);
    assert Implied(s.clients[c], mine) && mine in s.held;
    var q := HolderHasQuiescence(s, h);
    assert q == mine;
  }

  // Whoever holds a handle holds one on the quiescence lock.
  lemma HolderHasQuiescence(s: State, h: Handle) returns (q: Handle)
    requires Inv(s) && h in s.held
    ensures q in s.held && q.client == h.client && q.lock == Quiescence
  {
    var holder := s.clients[h.client];
    assert Implied(holder, h) && Proper(holder);
    q := if h.lock == Quiescence then h else Handle(h.client, Quiescence, Own, Exclusively(holder.role));
    assert Implied(holder, q);
  }

  // Whoever is done, however it ended, holds nothing: failed opens leave nothing
  // behind in the lock table.
  lemma DoneHoldsNothing(actions: seq<Action>, c: int, h: Handle)
    requires var s := Run(START, actions); c in s.clients && s.clients[c].phase.Done? && h in s.held
    ensures h.client != c
  {
    hide Run;
    var s := Run(START, actions);
    RunKeeps(actions);
    assert Implied(s.clients[h.client], h) && Proper(s.clients[h.client]);
  }

  // From the acquired guard to the end of Close, a client of an existing home holds
  // the quiescence lock.
  predicate Protected(me: Client) {
    me.guarded || (me.role == InitializerRole && OwnsQuiescence(me.phase))
  }

  lemma GuardProtects(actions: seq<Action>, c: int, h: Handle)
    requires var s := Run(START, actions);
             c in s.clients && Protected(s.clients[c]) && h in s.held && h.lock == Quiescence
    ensures !h.exclusive
  {
    hide Run;
    var s := Run(START, actions);
    RunKeeps(actions);
    var me := s.clients[c];
    var guard, own := Handle(c, Quiescence, Guard, false), Handle(c, Quiescence, Own, false);
    assert Implied(s.clients[h.client], h);
    assert me.guarded ==> Implied(me, guard) && guard in s.held;
    assert !me.guarded ==> Implied(me, own) && own in s.held;
  }

  // And the protection has no gap: once guarded, a step of the client either keeps
  // it or gives up the attempt.
  lemma ProtectionHasNoGap(s: State, c: int, around: Surroundings)
    requires Inv(s) && c in s.clients && Protected(s.clients[c])
    ensures var me, next := s.clients[c], Advance(s, c, around).clients[c];
            Protected(next) || next.phase.Done?
  {
    hide Grantable;
    ProperHere(s, c);
  }

  // A shared quiescence lock is refused exactly while an immutable reader or
  // maintenance has its own; an exclusive one, exactly while anybody has any.
  lemma RefusalsExact(actions: seq<Action>)
    ensures var s := Run(START, actions);
            && (Grantable(s.held, Quiescence, false) <==>
                forall c :: c in s.clients && Exclusively(s.clients[c].role) ==> !OwnsQuiescence(s.clients[c].phase))
            && (Grantable(s.held, Quiescence, true) <==>
                forall c :: c in s.clients ==> !OwnsQuiescence(s.clients[c].phase) && !s.clients[c].guarded)
            && (Grantable(s.held, Writer, true) <==> forall c :: c in s.clients ==> !OwnsWriter(s.clients[c]))
  {
    hide Run;
    var s := Run(START, actions);
    RunKeeps(actions);
    forall c | c in s.clients
      ensures OwnsQuiescence(s.clients[c].phase) ==>
                Handle(c, Quiescence, Own, Exclusively(s.clients[c].role)) in s.held
      ensures s.clients[c].guarded ==> Handle(c, Quiescence, Guard, false) in s.held
      ensures OwnsWriter(s.clients[c]) ==> Handle(c, Writer, Own, true) in s.held
    {
      assert Implied(s.clients[c], Handle(c, Quiescence, Own, Exclusively(s.clients[c].role)))
          <==> OwnsQuiescence(s.clients[c].phase);
      assert Implied(s.clients[c], Handle(c, Quiescence, Guard, false)) <==> s.clients[c].guarded;
      assert Implied(s.clients[c], Handle(c, Writer, Own, true)) <==> OwnsWriter(s.clients[c]);
    }
  }

  // ---- who gets a lock, who creates a file, and who ends -------------------------------

  // The roles that want the database to themselves.
  predicate Excludes(role: Role) {
    role == ReaderRole || role == MaintenanceRole
  }

  // Main result on acquiring: in every reachable state a reader or maintenance passes the
  // quiescence lock exactly when nobody else is past it or guards it, and everybody else
  // exactly when no reader and no maintenance is past it; only writers and initialization
  // may do so before the file exists.
  lemma EntersExactly(actions: seq<Action>, c: int, around: Surroundings)
    requires var s := Run(START, actions); c in s.clients && s.clients[c].phase == NeedQuiescence
    ensures var s := Run(START, actions);
            var role := s.clients[c].role;
            Advance(s, c, around).clients[c].phase == Checking <==>
              && around == Good && (Quiescence in s.files || role == WriterRole || role == InitializerRole)
              && forall d :: d in s.clients ==>
                   if Excludes(role) then !OwnsQuiescence(s.clients[d].phase) && !s.clients[d].guarded
                   else !(Excludes(s.clients[d].role) && OwnsQuiescence(s.clients[d].phase))
  {
    hide Run;
    hide Inv;
    hide Grantable;
    hide OwnsQuiescence;
    hide Implied;
    RunKeeps(actions);
    RefusalsExact(actions);
  }

  // The guard, and the writer lock.
  lemma GuardsExactly(actions: seq<Action>, c: int, around: Surroundings)
    requires var s := Run(START, actions); c in s.clients
    ensures var s := Run(START, actions);
            var me, next := s.clients[c], Advance(s, c, around).clients[c];
            && (me.phase == NeedGuard ==>
                  (next.guarded <==>
                     && around == Good
                     && forall d :: d in s.clients && Excludes(s.clients[d].role) ==>
                          !OwnsQuiescence(s.clients[d].phase)))
            && (me.phase == NeedWriter ==>
                  (next.phase == Working <==>
                     && around == Good && (Writer in s.files || me.role == WriterRole || me.role == InitializerRole)
                     && forall d :: d in s.clients ==> !HasWritable(s.clients[d])))
  {
    hide Run;
    hide Inv;
    hide Grantable;
    hide OwnsQuiescence;
    hide Implied;
    RunKeeps(actions);
    RefusalsExact(actions);
    ProperHere(Run(START, actions), c);
    forall d | d in Run(START, actions).clients ensures OwnsWriter(Run(START, actions).clients[d]) <==>
      HasWritable(Run(START, actions).clients[d])
    {
    }
  }

  // Only writers and initialization create lock files, and nobody removes one. A reader
  // is let in only where both files exist.
  lemma FilesExactly(s: State, c: int, around: Surroundings)
    requires c in s.clients
    ensures var role, next := s.clients[c].role, Advance(s, c, around);
            && s.files <= next.files
            && (role == ReaderRole || role == SnapshotRole || role == MaintenanceRole ==> Proper(s.clients[c]) ==>
                  next.files == s.files)
            && ((role == ReaderRole || role == SnapshotRole) && s.clients[c].phase == Checking ==>
                  (next.clients[c].phase == Opened <==> around != Bad && Writer in s.files))
            && (role != ReaderRole && role != SnapshotRole && s.clients[c].phase == Checking ==>
                  (next.clients[c].phase == NeedWriter <==> around != Bad))
  {
    hide Grantable;
  }

  // A step that fails never leads on: the client closes down what it has, or is done.
  lemma FailureClosesDown(s: State, c: int)
    requires c in s.clients
    ensures var next := Advance(s, c, Bad).clients[c].phase;
            next == ReleaseWriter || next == ReleaseQuiescence || next == ReleaseGuard || next == Done
  {
    hide Grantable;
  }

  // Only initialization of an existing home takes the guard; everybody else, and a home
  // that is yet to be made, goes on without one.
  lemma StartsExactly(s: State, c: int, around: Surroundings)
    requires c in s.clients && s.clients[c].phase == Starting
    ensures var me, next := s.clients[c], Advance(s, c, around).clients[c];
            && next.guarded == me.guarded && next.role == me.role
            && next.phase == (if around == Bad then Done
                              else if me.role != InitializerRole then NeedQuiescence
                              else if around == Good then NeedGuard else Guarded)
  {
  }

  // A dead client is done and holds nothing; nobody else notices.
  lemma DeathExactly(s: State, c: int, d: int)
    requires c in s.clients && d in s.clients
    ensures var after := Step(s, Die(c));
            && d in after.clients && after.clients[c].phase == Done
            && (forall h :: h in after.held <==> h in s.held && h.client != c)
            && (d != c ==> after.clients[d] == s.clients[d]) && after.files == s.files
  {
    hide Advance;
  }

  function Turns(actions: seq<Action>, c: int): nat {
    if actions == [] then 0
    else
      var last := actions[|actions| - 1];
      Turns(actions[..|actions| - 1], c) + if last.Proceed? && last.client == c then 1 else 0
  }

  // How many steps a phase leaves at most.
  function Ahead(p: Phase): nat {
    match p
    case Starting => 12
    case NeedGuard => 11
    case Guarded => 10
    case NeedQuiescence => 9
    case Checking => 8
    case NeedWriter => 7
    case Working => 6
    case Handover => 5
    case Opened => 4
    case ReleaseWriter => 3
    case ReleaseQuiescence => 2
    case ReleaseGuard => 1
    case Done => 0
  }

  lemma AdvanceNears(s: State, c: int, around: Surroundings)
    requires c in s.clients
    ensures var now, next := s.clients[c].phase, Advance(s, c, around).clients[c].phase;
            Ahead(next) < Ahead(now) || (now == Done && next == Done)
  {
    hide Grantable;
  }

  lemma StepNears(s: State, a: Action, c: int)
    requires c in s.clients
    ensures c in Step(s, a).clients
    ensures var now, next := Ahead(s.clients[c].phase), Ahead(Step(s, a).clients[c].phase);
            next <= now && (a.Proceed? && a.client == c ==> next < now || now == 0)
  {
    hide Ahead;
    if a.Proceed? && a.client in s.clients {
      AdvanceNears(s, a.client, a.surroundings);
      AdvanceOthers(s, a.client, a.surroundings, c);
    }
    DoneIsEnd();
    hide Advance;
  }

  lemma DoneIsEnd()
    ensures forall p :: Ahead(p) == 0 <==> p == Done
  {
  }

  lemma AdvanceOthers(s: State, d: int, around: Surroundings, c: int)
    requires c in s.clients && d in s.clients
    ensures c in Advance(s, d, around).clients
    ensures c != d ==> Advance(s, d, around).clients[c] == s.clients[c]
  {
    hide Grantable;
  }

  lemma {:induction false} RunNears(s: State, actions: seq<Action>, c: int)
    requires c in s.clients
    ensures c in Run(s, actions).clients
    ensures Ahead(Run(s, actions).clients[c].phase) + Turns(actions, c) <= Ahead(s.clients[c].phase)
            || Run(s, actions).clients[c].phase == Done
  {
    hide Step;
    hide Ahead;
    DoneIsEnd();
    if actions != [] {
      var init, last := actions[..|actions| - 1], actions[|actions| - 1];
      RunNears(s, init, c);
      StepNears(Run(s, init), last, c);
    }
  }

  lemma {:induction false} RunConcat(s: State, a: seq<Action>, b: seq<Action>)
    ensures Run(s, a + b) == Run(Run(s, a), b)
  {
    hide Step;
    if b == [] {
      assert a + b == a;
    } else {
      assert (a + b)[..|a + b| - 1] == a + b[..|b| - 1];
      RunConcat(s, a, b[..|b| - 1]);
    }
  }

  // Main result on ending: whatever fails and whatever the others do, a client that has
  // taken twelve steps is done, and then it holds nothing.
  lemma TwelveStepsEnd(before: seq<Action>, actions: seq<Action>, c: int)
    requires c in Run(START, before).clients && Turns(actions, c) >= 12
    ensures var s := Run(START, before + actions);
            c in s.clients && s.clients[c].phase == Done && forall h :: h in s.held ==> h.client != c
  {
    hide Run;
    RunConcat(START, before, actions);
    RunNears(Run(START, before), actions, c);
    var s := Run(START, before + actions);
    forall h | h in s.held ensures h.client != c {
      DoneHoldsNothing(before + actions, c, h);
    }
  }

  // How many steps a client of a role takes until its store is open or, for maintenance,
  // until it may checkpoint.
  function StepsToOpen(role: Role): nat {
    match role
    case WriterRole => 5
    case ReaderRole => 3
    case SnapshotRole => 3
    case MaintenanceRole => 4
    case InitializerRole => 8
  }

  function Steps(s: State, c: int, n: nat): State
    requires c in s.clients
    ensures c in Steps(s, c, n).clients
  {
    if n == 0 then s
    else
      AdvanceOthers(Steps(s, c, n - 1), c, Good, c);
      Advance(Steps(s, c, n - 1), c, Good)
  }

  // Only this client holds anything, and nothing that would be in its own way.
  predicate Ready(s: State, c: int, me: Client) {
    && c in s.clients && s.clients[c] == me
    && (me.role == WriterRole || me.role == InitializerRole || (Quiescence in s.files && Writer in s.files))
    && (forall h :: h in s.held && h.lock == Quiescence ==> !h.exclusive || OwnsQuiescence(me.phase))
    && (forall h :: h in s.held && h.lock == Quiescence ==> me.guarded || OwnsQuiescence(me.phase))
    && (forall h :: h in s.held && h.lock == Writer ==> OwnsWriter(me))
  }

  // Where a client goes when all is well, up to the point where its store is open or may
  // be checkpointed.
  function Onward(me: Client): Client {
    match me.phase
    case Starting => me.(phase := if me.role == InitializerRole then NeedGuard else NeedQuiescence)
    case NeedGuard => me.(phase := Guarded, guarded := true)
    case Guarded => me.(phase := NeedQuiescence)
    case NeedQuiescence => me.(phase := Checking)
    case Checking => me.(phase := if me.role == ReaderRole || me.role == SnapshotRole then Opened else NeedWriter)
    case NeedWriter => me.(phase := Working)
    case Working =>
      if me.role == MaintenanceRole then me else me.(phase := if me.guarded then Handover else Opened)
    case Handover => me.(phase := Opened, guarded := false)
    case _ => me
  }

  lemma OnwardStep(s: State, c: int, me: Client)
    requires Ready(s, c, me) && Proper(me) && Onward(me) != me
    ensures Ready(Advance(s, c, Good), c, Onward(me)) && Proper(Onward(me))
  {
  }

  lemma StepsNext(s: State, c: int, n: nat)
    requires c in s.clients
    ensures Steps(s, c, n + 1) == Advance(Steps(s, c, n), c, Good)
  {
    hide Advance;
  }

  function OnwardBy(me: Client, n: nat): Client {
    if n == 0 then me else Onward(OnwardBy(me, n - 1))
  }

  lemma {:induction false} StepsOnward(s: State, c: int, me: Client, n: nat)
    requires c in s.clients && Ready(s, c, me) && Proper(me)
    requires forall k: nat :: k < n ==> OnwardBy(me, k) != OnwardBy(me, k + 1)
    ensures Ready(Steps(s, c, n), c, OnwardBy(me, n)) && Proper(OnwardBy(me, n))
  {
    hide Advance;
    hide Onward;
    hide Ready;
    hide Proper;
    if n > 0 {
      StepsOnward(s, c, me, n - 1);
      StepsNext(s, c, n - 1);
      assert OnwardBy(me, n - 1) != OnwardBy(me, n - 1 + 1);
      OnwardStep(Steps(s, c, n - 1), c, OnwardBy(me, n - 1));
    }
  }

  // Main result on opening: where nothing fails and nobody holds a lock, every role gets
  // what it came for; only writers and initialization do without the lock files.
  lemma OpensWhenFree(s: State, c: int, role: Role)
    requires s.held == {} && c !in s.clients
    requires role == WriterRole || role == InitializerRole || (Quiescence in s.files && Writer in s.files)
    ensures var after := Steps(Step(s, Begin(c, role)), c, StepsToOpen(role));
            && after.clients[c].role == role
            && after.clients[c].phase == (if role == MaintenanceRole then Working else Opened)
  {
    hide Advance;
    hide Steps;
    var begun, me, n := Step(s, Begin(c, role)), Client(role, Starting, false), StepsToOpen(role);
    OnwardPath(role);
    StepsOnward(begun, c, me, n);
    assert Ready(Steps(begun, c, n), c, OnwardBy(me, n));
  }

  lemma OnwardPath(role: Role)
    ensures var me := Client(role, Starting, false);
            && (forall k: nat :: k < StepsToOpen(role) ==> OnwardBy(me, k) != OnwardBy(me, k + 1))
            && OnwardBy(me, StepsToOpen(role)).role == role
            && OnwardBy(me, StepsToOpen(role)).phase == (if role == MaintenanceRole then Working else Opened)
  {
    var me := Client(role, Starting, false);
    var first := Client(role, if role == InitializerRole then NeedGuard else NeedQuiescence, false);
    assert OnwardBy(me, 1) == first;
    if role == InitializerRole {
      assert OnwardBy(me, 2) == Client(role, Guarded, true);
      assert OnwardBy(me, 3) == Client(role, NeedQuiescence, true);
      assert OnwardBy(me, 4) == Client(role, Checking, true);
      assert OnwardBy(me, 5) == Client(role, NeedWriter, true);
      assert OnwardBy(me, 6) == Client(role, Working, true);
      assert OnwardBy(me, 7) == Client(role, Handover, true);
      assert OnwardBy(me, 8) == Client(role, Opened, false);
    } else {
      assert OnwardBy(me, 2) == Client(role, Checking, false);
      assert OnwardBy(me, 3) == Client(role, if role == ReaderRole || role == SnapshotRole then Opened else NeedWriter,
              false);
      if role == WriterRole || role == MaintenanceRole {
        assert OnwardBy(me, 4) == Client(role, Working, false);
      }
    }
  }
}
