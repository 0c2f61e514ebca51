/** The importer as an object: it reads a log line by line, moves its baseline, asks
    the store and writes to it, proved against the run it specifies
    (internal/ingest/codexsession/import.go). */
module CodexImporter {
  import opened Basics
  import opened Calls
  import opened CodexImport
  import opened Text

  class Importer {
    const resolve: Resolver
    // The projects resolved so far, by working directory.
    var projects: map<string, string>
    // The store, and the writes left before the process dies.
    var evidence: Evidence
    var budget: Option<nat>
    // The result.
    var status: Status
    var samples: nat
    var duplicates: nat
    var skipped: nat

    constructor (resolve: Resolver, evidence: Evidence, budget: Option<nat>)
      ensures this.resolve == resolve && CacheHolds()
      ensures View(Machine(None, None, 0, false)) == Start(evidence, budget)
    {
      this.resolve, projects, this.evidence, this.budget := resolve, map[], evidence, budget;
      status, samples, duplicates, skipped := Going, 0, 0, 0;
    }

    // The run this object has reached, with the loop's own variables.
    function View(m: Machine): Run
      reads `evidence, `budget, `status, `samples, `duplicates, `skipped
    {
      Run(m, evidence, budget, status, samples, duplicates, skipped)
    }

    predicate CacheHolds()
      reads `projects
    {
      forall cwd :: cwd in projects ==> resolve(cwd) == Some(projects[cwd])
    }

    // One committed transaction, or the death of the process before it.
    method Write(e: Evidence)
      requires status == Going
      modifies `evidence, `budget, `status
      ensures status == (if old(budget) == Some(0) then Crashed else Going)
      ensures evidence == if status == Crashed then old(evidence) else e
      ensures budget == if old(budget).Some? && old(budget).value > 0 then Some(old(budget).value - 1) else old(budget)
    {
      if budget == Some(0) {
        status := Crashed;
        return;
      }
      evidence := e;
      if budget.Some? {
        budget := Some(budget.value - 1);
      }
    }

    // The writes of persist: the session, the raw event and, unless it is refused,
    // the model call.
    method StoreDelta(m: Machine, sample: Sample, delta: Counters, base: Base, a: Attribution)
      requires status == Going
      modifies `evidence, `budget, `status, `samples, `duplicates
      ensures View(m) == StoreInterval(old(View(m)), sample, delta, base, a)
    {
      hide AcceptedTotal;
      var known := sample in evidence.raws;
      Write(EnsureSession(evidence, sample.session));
      if status == Crashed {
        return;
      }
      Write(AppendRaw(evidence, sample));
      if status == Crashed {
        return;
      }
      var total := AcceptedTotal(evidence, delta);
      if total.None? {
        status := Failed;
        return;
      }
      Write(LinkCall(evidence, IntervalOf(sample, delta, base, total.value, a)));
      if status == Crashed {
        return;
      }
      if known {
        duplicates := duplicates + 1;
      } else {
        samples := samples + 1;
      }
    }

    // persist: the store's checkpoint decides between a duplicate, a refusal, the
    // given interval and one that starts from the checkpoint.
    method Persist(m: Machine, sample: Sample, delta: Counters, base: Base, a: Attribution)
      requires status == Going
      modifies `evidence, `budget, `status, `samples, `duplicates
      ensures View(m) == CodexImport.Persist(old(View(m)), sample, delta, base, a)
    {
      hide Difference;
      hide Linked;
      hide Checkpoint;
      hide StoreInterval;
      if Linked(evidence, sample) {
        duplicates := duplicates + 1;
        return;
      }
      var checkpoint := Checkpoint(evidence, sample.session);
      var stored, start := delta, base;
      if checkpoint.Some? {
        if sample.at <= checkpoint.value.at {
          status := Failed;
          return;
        }
        if checkpoint.value.at > base.at {
          var rebased := ComputeDifference(sample.usage, Some(checkpoint.value.usage));
          if rebased.None? {
            status := Failed;
            return;
          }
          stored, start := rebased.value, Base(checkpoint.value.at, Some(checkpoint.value.usage));
        }
      }
      StoreDelta(m, sample, stored, start, a);
    }

    // The project of a working directory, resolved once.
    method ResolveProject(meta: Meta) returns (project: Option<string>)
      requires CacheHolds()
      modifies `projects
      ensures CacheHolds() && project == ProjectOf(meta, resolve)
    {
      hide TrimSpace;
      var cwd := TrimSpace(meta.cwd);
      if cwd == "" {
        return Some("");
      }
      if cwd in projects {
        return Some(projects[cwd]);
      }
      project := resolve(cwd);
      if project.Some? {
        projects := projects[cwd := project.value];
      }
    }

    // One snapshot: `previous`, `previousAt` and `childStarted` move as the loop's
    // own variables do.
    method TakeSnapshot(m: Machine, usage: Counters, last: Option<Counters>, at: Instant) returns (next: Machine)
      requires status == Going && CacheHolds() && m.meta.Some?
      modifies this
      ensures CacheHolds()
      ensures View(next) == Perform(old(View(m)), CountTokens(m, m.meta.value, usage, last, at,
                                                              Ask(old(evidence), Sample(m.meta.value.id, at, usage)),
                                                                  resolve))
    {
      hide Difference;
      hide CodexImport.Persist;
      hide Checkpoint;
      hide Linked;
      hide ProjectOf;
      hide SameCounters;
      hide Identifier;
      var meta := m.meta.value;
      var previous, previousAt, childStarted := m.previous, m.previousAt, m.childStarted;
      if meta.child {
        if meta.created == 0 || at <= meta.created {
          skipped := skipped + 1;
          return Machine(m.meta, Some(usage), at, childStarted);
        }
        if !childStarted {
          if previous.Some? && previous.value[CUMULATIVE].Some? && usage[CUMULATIVE] == previous.value[CUMULATIVE] {
            skipped := skipped + 1;
            return Machine(m.meta, Some(usage), at, childStarted);
          }
          childStarted := true;
          if SameCounters(usage, last) {
            previous := None;
          } else if previous.None? {
            var sample := Sample(meta.id, at, usage);
            var checkpoint := Checkpoint(evidence, meta.id);
            if Linked(evidence, sample) {
              duplicates := duplicates + 1;
              return Machine(m.meta, Some(usage), at, childStarted);
            }
            if checkpoint.Some? && at <= checkpoint.value.at {
              status := Failed;
              return Machine(m.meta, previous, previousAt, childStarted);
            }
            if checkpoint.None? {
              skipped := skipped + 1;
              return Machine(m.meta, Some(usage), at, childStarted);
            }
            previous, previousAt := Some(checkpoint.value.usage), checkpoint.value.at;
          }
        }
      }
      next := Deliver(Machine(m.meta, previous, previousAt, childStarted), meta, usage, at);
    }

    // The interval since the baseline, and the snapshot as the next baseline.
    method Deliver(m: Machine, meta: Meta, usage: Counters, at: Instant) returns (next: Machine)
      requires status == Going && CacheHolds()
      modifies this
      ensures CacheHolds()
      ensures View(next) == Perform(old(View(m)), CodexImport.Deliver(m, meta, usage, at, resolve))
    {
      hide Difference;
      hide CodexImport.Persist;
      hide ProjectOf;
      hide Identifier;
      var delta := ComputeDifference(usage, m.previous);
      var baseline := Base(m.previousAt, m.previous);
      next := m.(previous := Some(usage), previousAt := at);
      if delta.None? {
        skipped := skipped + 1;
        return;
      }
      var project := ResolveProject(meta);
      if project.None? {
        status := Failed;
        return;
      }
      Persist(next, Sample(meta.id, at, usage), delta.value, baseline,
              Attribution(OrUnavailable(meta.provider), OrUnavailable(meta.model), project.value));
    }

    // One line of the log.
    method TakeLine(m: Machine, line: Line) returns (next: Machine)
      requires status == Going && CacheHolds()
      modifies this
      ensures CacheHolds() && View(next) == StepLine(old(View(m)), line, resolve)
    {
      hide CountTokens;
      hide Ask;
      hide Perform;
      next := m;
      PerformSimple(View(m));
      match line
      case Blank =>
      case OtherEvent =>
      case Unreadable => status := Failed;
      case Invalid => status := Failed;
      case BadEvent => status := Failed;
      case Partial =>
        skipped := skipped + 1;
        status := Finished;
      case SessionMeta(meta) =>
        if meta.None? {
          status := Failed;
        } else {
          next := TakeMeta(m, meta.value);
        }
      case TurnContext(turn, at) =>
        if !ParentTurn(m, at) {
          if turn.None? {
            status := Failed;
          } else {
            next := TakeTurn(m, turn.value);
          }
        }
      case TokenCount(usage, last, at) =>
        if usage.None? || usage.value[CUMULATIVE].None? || m.meta.None? {
          skipped := skipped + 1;
        } else if at.None? {
          status := Failed;
        } else {
          next := TakeSnapshot(m, usage.value, last, at.value);
        }
    }

    // The import loop: it stops at the first line that ends it.
    method Import(lines: seq<Line>)
      requires CacheHolds() && status == Going && samples == duplicates == skipped == 0
      modifies this
      ensures CacheHolds()
      ensures exists m :: View(m) == CodexImport.Import(old(evidence), lines, old(budget), resolve)
    {
      hide StepLine;
      var m := Machine(None, None, 0, false);
      ghost var start := Start(evidence, budget);
      for i := 0 to |lines|
        invariant CacheHolds() && status == Going && View(m) == RunLines(start, lines[..i], resolve)
      {
        assert lines[..i + 1][..i] == lines[..i];
        m := TakeLine(m, lines[i]);
        if status != Going {
          Stopped(start, lines, i + 1, resolve);
          assert View(m) == CodexImport.Import(old(evidence), lines, old(budget), resolve);
          return;
        }
      }
      assert lines[..|lines|] == lines;
      status := Finished;
      assert View(m) == CodexImport.Import(old(evidence), lines, old(budget), resolve);
    }
  }

  lemma PerformSimple(r: Run)
    ensures forall m, skipped, duplicates ::
              Perform(r, Move(m, skipped, duplicates)) ==
                  r.(m := m, skipped := r.skipped + skipped, duplicates := r.duplicates + duplicates)
    ensures forall m, status, skipped ::
              Perform(r, Halt(m, status, skipped)) == r.(m := m, status := status, skipped := r.skipped + skipped)
  {
  }

  // Lines after the one that ended a run are not read.
  lemma {:induction false} Stopped(start: Run, lines: seq<Line>, n: nat, resolve: Resolver)
    requires n <= |lines| && RunLines(start, lines[..n], resolve).status != Going
    ensures RunLines(start, lines, resolve) == RunLines(start, lines[..n], resolve)
  {
    if n < |lines| {
      var init := lines[..|lines| - 1];
      assert init[..n] == lines[..n];
      Stopped(start, init, n, resolve);
    } else {
      assert lines[..n] == lines;
    }
  }
}
