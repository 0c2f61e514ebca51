/** The lock files as objects: handles that release once, and the calls that open,
    check, initialize and close a store over them (internal/storage/lock/lock.go,
    internal/storage/sqlite/store.go and purge.go, internal/app/service.go). */
module LockFiles {
  import opened Basics
  import opened Locks

  // Handle: it releases its lock once, however often it is closed.
  class LockHandle {
    const table: LockTable
    const lock: Lock
    const exclusive: bool
    var closed: bool

    constructor (table: LockTable, lock: Lock, exclusive: bool)
      ensures this.table == table && this.lock == lock && this.exclusive == exclusive && !closed
    {
      this.table, this.lock, this.exclusive, closed := table, lock, exclusive, false;
    }

    method Close()
      requires table.Valid() && (this in table.held <==> !closed)
      modifies this`closed, table`held
      ensures closed && table.Valid() && table.held == old(table.held) - {this}
    {
      if !closed {
        closed := true;
        table.held := table.held - {this};
      }
    }
  }

  class LockTable {
    var files: set<Lock>
    var held: set<LockHandle>

    // Only open handles are held, and an exclusive one is alone on its lock.
    ghost predicate Valid()
      reads this, held
    {
      && (forall h :: h in held ==> h.table == this && !h.closed)
      && (forall g, h :: g in held && h in held && g.lock == h.lock && g != h ==> !g.exclusive && !h.exclusive)
    }

    predicate Free(lock: Lock, exclusive: bool)
      reads this, held
    {
      forall h :: h in held && h.lock == lock ==> !exclusive && !h.exclusive
    }

    // acquire: `opens` says whether the file can be opened at all.
    method Acquire(lock: Lock, exclusive: bool, create: bool, opens: bool) returns (r: Option<LockHandle>)
      requires Valid()
      modifies this
      ensures Valid()
      ensures r.Some? <==> opens && (create || lock in old(files)) && old(Free(lock, exclusive))
      ensures r.Some? ==>
                && fresh(r.value) && r.value.table == this && r.value.lock == lock && r.value.exclusive == exclusive
                && held == old(held) + {r.value}
      ensures r.None? ==> held == old(held)
      ensures files == if create && opens then old(files) + {lock} else old(files)
    {
      if !opens || (!create && lock !in files) {
        return None;
      }
      if create {
        files := files + {lock};
      }
      if exists h :: h in held && h.lock == lock && (exclusive || h.exclusive) {
        return None;
      }
      var handle := new LockHandle(this, lock, exclusive);
      held := held + {handle};
      r := Some(handle);
    }
  }

  // What the surroundings decide in one attempt to open a store.
  datatype Checks = Checks(location: bool, quiescenceOpens: bool, noMarker: bool, writerOpens: bool, noActiveWal: bool,
      database: bool)

  // A store and the handles it owns; the writer handle only when it is writable.
  class OpenStore {
    const table: LockTable
    const quiescence: LockHandle
    const writer: Option<LockHandle>

    constructor (table: LockTable, quiescence: LockHandle, writer: Option<LockHandle>)
      ensures this.table == table && this.quiescence == quiescence && this.writer == writer
    {
      this.table, this.quiescence, this.writer := table, quiescence, writer;
    }

    ghost function Owned(): set<LockHandle> {
      {quiescence} + if writer.Some? then {writer.value} else {}
    }

    // The store holds its handles.
    ghost predicate Holds()
      reads table, quiescence, if writer.Some? then {writer.value} else {}
    {
      && Owned() <= table.held && quiescence.table == table && !quiescence.closed
      && (writer.Some? ==> writer.value.table == table && !writer.value.closed && writer.value != quiescence)
    }

    // Store.Close: the writer lock first, then the quiescence lock.
    method Close()
      requires table.Valid() && Holds()
      modifies table`held, quiescence`closed, (if writer.Some? then {writer.value} else {})`closed
      ensures table.Valid() && table.held == old(table.held) - Owned()
    {
      if writer.Some? {
        writer.value.Close();
      }
      quiescence.Close();
    }
  }

  // Open: a shared quiescence lock, then the exclusive writer lock.
  method Open(table: LockTable, checks: Checks) returns (r: Option<OpenStore>)
    requires table.Valid()
    modifies table
    ensures table.Valid()
    ensures r.None? ==> table.held == old(table.held)
    ensures r.Some? <==>
            && checks.location && checks.quiescenceOpens && old(table.Free(Quiescence, false)) && checks.noMarker
            && checks.writerOpens && old(table.Free(Writer, true)) && checks.database
    ensures r.Some? ==>
              && fresh(r.value) && fresh(r.value.Owned()) && r.value.table == table && r.value.Holds()
              && table.held == old(table.held) + r.value.Owned()
              && r.value.writer.Some? && r.value.writer.value.lock == Writer && r.value.writer.value.exclusive
              && r.value.quiescence.lock == Quiescence && !r.value.quiescence.exclusive
  {
    if !checks.location {
      return None;
    }
    var quiescence := table.Acquire(Quiescence, false, true, checks.quiescenceOpens);
    if quiescence.None? {
      return None;
    }
    if !checks.noMarker {
      quiescence.value.Close();
      return None;
    }
    var writer := table.Acquire(Writer, true, true, checks.writerOpens);
    if writer.None? {
      quiescence.value.Close();
      return None;
    }
    var store := new OpenStore(table, quiescence.value, writer);
    if !checks.database {
      store.Close();
      return None;
    }
    r := Some(store);
  }

  // OpenReadOnly: an existing quiescence lock, exclusively, and no active WAL.
  method OpenReadOnly(table: LockTable, checks: Checks) returns (r: Option<OpenStore>)
    requires table.Valid()
    modifies table
    ensures table.Valid() && table.files == old(table.files)
    ensures r.None? ==> table.held == old(table.held)
    ensures r.Some? <==>
            && checks.location && checks.quiescenceOpens && Quiescence in old(table.files)
                && old(table.Free(Quiescence, true))
            && checks.noMarker && Writer in old(table.files) && checks.noActiveWal && checks.database
    ensures r.Some? ==>
              && fresh(r.value) && fresh(r.value.Owned()) && r.value.table == table && r.value.Holds()
              && table.held == old(table.held) + r.value.Owned()
              && r.value.writer.None? && r.value.quiescence.lock == Quiescence && r.value.quiescence.exclusive
  {
    if !checks.location {
      return None;
    }
    var quiescence := table.Acquire(Quiescence, true, false, checks.quiescenceOpens);
    if quiescence.None? {
      return None;
    }
    if !checks.noMarker || Writer !in table.files || !checks.noActiveWal || !checks.database {
      quiescence.value.Close();
      return None;
    }
    var store := new OpenStore(table, quiescence.value, None);
    r := Some(store);
  }

  // OpenSnapshotReadOnly: an existing quiescence lock, shared.
  method OpenSnapshotReadOnly(table: LockTable, checks: Checks) returns (r: Option<OpenStore>)
    requires table.Valid()
    modifies table
    ensures table.Valid() && table.files == old(table.files)
    ensures r.None? ==> table.held == old(table.held)
    ensures r.Some? <==>
            && checks.location && checks.quiescenceOpens && Quiescence in old(table.files)
                && old(table.Free(Quiescence, false))
            && checks.noMarker && Writer in old(table.files) && checks.database
    ensures r.Some? ==>
              && fresh(r.value) && fresh(r.value.Owned()) && r.value.table == table && r.value.Holds()
              && table.held == old(table.held) + r.value.Owned()
              && r.value.writer.None? && r.value.quiescence.lock == Quiescence && !r.value.quiescence.exclusive
  {
    if !checks.location {
      return None;
    }
    var quiescence := table.Acquire(Quiescence, false, false, checks.quiescenceOpens);
    if quiescence.None? {
      return None;
    }
    if !checks.noMarker || Writer !in table.files || !checks.database {
      quiescence.value.Close();
      return None;
    }
    var store := new OpenStore(table, quiescence.value, None);
    r := Some(store);
  }

  // Checkpoint: both existing locks, exclusively, for the duration of the call.
  method Checkpoint(table: LockTable, checks: Checks) returns (ok: bool)
    requires table.Valid()
    modifies table
    ensures table.Valid() && table.files == old(table.files) && table.held == old(table.held)
    ensures ok <==>
            && checks.location && checks.quiescenceOpens && Quiescence in old(table.files)
                && old(table.Free(Quiescence, true))
            && checks.noMarker && checks.writerOpens && Writer in old(table.files) && old(table.Free(Writer, true))
            && checks.database
  {
    if !checks.location {
      return false;
    }
    var quiescence := table.Acquire(Quiescence, true, false, checks.quiescenceOpens);
    if quiescence.None? {
      return false;
    }
    if !checks.noMarker {
      quiescence.value.Close();
      return false;
    }
    var writer := table.Acquire(Writer, true, false, checks.writerOpens);
    if writer.None? {
      quiescence.value.Close();
      return false;
    }
    ok := checks.database;
    writer.value.Close();
    quiescence.value.Close();
  }

  // Initialize: a guard on an existing home, held until Open owns its own locks.
  // `guardOpens` and `guardNoMarker` are what the guard's own check meets.
  method Initialize(table: LockTable, homeExists: bool, guardOpens: bool, guardNoMarker: bool, configured: bool,
      checks: Checks)
    returns (r: Option<OpenStore>)
    requires table.Valid()
    modifies table
    ensures table.Valid()
    ensures r.None? ==> table.held == old(table.held)
    ensures r.Some? <==>
            && checks.location && (homeExists ==> guardOpens && guardNoMarker) && configured
            && checks.quiescenceOpens && old(table.Free(Quiescence, false)) && checks.noMarker
            && checks.writerOpens && old(table.Free(Writer, true)) && checks.database
    ensures r.Some? ==>
              && fresh(r.value.Owned()) && r.value.table == table && r.value.Holds()
              && table.held == old(table.held) + r.value.Owned()
  {
    if !checks.location {
      return None;
    }
    var guard: Option<LockHandle> := None;
    if homeExists {
      guard := table.Acquire(Quiescence, false, true, guardOpens);
      if guard.None? {
        return None;
      }
      if !guardNoMarker {
        guard.value.Close();
        return None;
      }
    }
    if configured {
      r := Open(table, checks);
    } else {
      r := None;
    }
    if guard.Some? {
      guard.value.Close();
    }
  }
}
