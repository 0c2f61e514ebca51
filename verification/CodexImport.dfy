/** The Codex session importer (internal/ingest/codexsession/import.go) over the
    evidence it reads and writes (internal/storage/sqlite/import_checkpoint.go):
    cumulative token counters become recorded intervals. */
module CodexImport {
  import opened Basics
  import opened Calls
  import opened Text

  // ---- decoded log lines ---------------------------------------------------

  // Cumulative counters in the order of counters.values(); None is an absent one.
  const INPUT := 0
  const CACHED := 1
  const OUTPUT := 2
  const REASONING := 3
  const CUMULATIVE := 4

  type Counters = s: seq<Option<Int64>> | |s| == 5 witness [None, None, None, None, None]

  // Nanoseconds since the zero value of time.Time, which is 0.
  type Instant = nat

  // `created` is 0 when the header's timestamp is absent or unreadable.
  datatype Meta = Meta(id: string, cwd: string, version: string, provider: string, model: string,
                       created: Instant, child: bool)

  datatype Turn = Turn(model: string, cwd: string)

  datatype Line =
    | Blank
    | Unreadable
    | Partial                                           // an unfinished last line
    | Invalid                                           // a finished line that is not JSON
    | SessionMeta(meta: Option<Meta>)                   // None: not decodable, or no usable id
    | TurnContext(turn: Option<Turn>, at: Option<Instant>)
    | BadEvent
    | OtherEvent
    | TokenCount(usage: Option<Counters>, last: Option<Counters>, at: Option<Instant>)

  // ---- stored evidence -------------------------------------------------------

  // A raw event of the importer's source. Its ingestion identity is the digest
  // of exactly these values, so equal samples are duplicates.
  datatype Sample = Sample(session: string, at: Instant, usage: Counters)

  // The point an interval starts from: the instant and counters of the baseline
  // sample, or no counters when the interval starts from nothing.
  datatype Base = Base(at: Instant, usage: Option<Counters>)

  // A model call linked to its raw event, as it was submitted and with the total it
  // was stored under. `base` is not stored by the source; it is carried here so that
  // intervals can be spoken of.
  datatype Interval = Interval(sample: Sample, base: Base, delta: Counters, total: Int64, call: CallInput)

  // `others` is the sum of the tokens recorded by every other model call.
  datatype Evidence = Evidence(sessions: set<string>, raws: seq<Sample>, calls: seq<Interval>, others: nat)

  predicate Linked(e: Evidence, s: Sample) {
    exists k :: 0 <= k < |e.calls| && e.calls[k].sample == s
  }

  // The linked sample of a session with the greatest time.
  function Latest(calls: seq<Interval>, session: string): Option<Sample> {
    if calls == [] then None
    else
      var newest := calls[|calls| - 1].sample;
      var earlier := Latest(calls[..|calls| - 1], session);
      if newest.session == session && (earlier.None? || newest.at >= earlier.value.at) then Some(newest) else earlier
  }

  lemma {:induction false} LatestIsNewest(calls: seq<Interval>, session: string)
    ensures var r := Latest(calls, session);
            && (r.Some? ==> exists k :: 0 <= k < |calls| && calls[k].sample == r.value && r.value.session == session)
            && (r.Some? ==> forall k :: 0 <= k < |calls| && calls[k].sample.session == session ==>
                  calls[k].sample.at <= r.value.at)
            && (r.None? ==> forall k :: 0 <= k < |calls| ==> calls[k].sample.session != session)
  {
    if calls != [] {
      var init := calls[..|calls| - 1];
      LatestIsNewest(init, session);
      var r := Latest(init, session);
      if r.Some? {
        var k :| 0 <= k < |init| && init[k].sample == r.value && r.value.session == session;
        assert calls[k].sample == r.value;
      }
      assert forall k :: 0 <= k < |init| ==> calls[k] == init[k];
    }
  }

  // A zero checkpoint time reads as no checkpoint.
  function Checkpoint(e: Evidence, session: string): Option<Sample> {
    var newest := Latest(e.calls, session);
    if newest.Some? && newest.value.at != 0 then newest else None
  }

  // ---- counter arithmetic ------------------------------------------------------

  // A negative counter, or one that went backwards.
  predicate Reset(current: Counters, previous: Option<Counters>, i: nat)
    requires i < 5
  {
    current[i].Some? &&
    (current[i].value < 0 ||
     (previous.Some? && previous.value[i].Some? &&
      (previous.value[i].value < 0 || current[i].value < previous.value[i].value)))
  }

  // One counter's growth: a newly available counter has no baseline.
  function Growth(current: Counters, previous: Option<Counters>, i: nat): Option<Int64>
    requires i < 5 && !Reset(current, previous, i)
  {
    if current[i].None? then None
    else if previous.None? then current[i]
    else if previous.value[i].None? then None
    else
      var grown: Int64 := current[i].value - previous.value[i].value;
      Some(grown)
  }

  predicate ResetFree(current: Counters, previous: Option<Counters>) {
    forall i: nat :: i < 5 ==> !Reset(current, previous, i)
  }

  function Delta(current: Counters, previous: Option<Counters>): Counters
    requires ResetFree(current, previous)
  {
    [Growth(current, previous, 0), Growth(current, previous, 1), Growth(current, previous, 2),
     Growth(current, previous, 3), Growth(current, previous, 4)]
  }

  // Cached tokens are part of the input, reasoning tokens part of the output.
  predicate SubsetsFit(d: Counters) {
    && (d[INPUT].Some? && d[CACHED].Some? ==> d[CACHED].value <= d[INPUT].value)
    && (d[OUTPUT].Some? && d[REASONING].Some? ==> d[REASONING].value <= d[OUTPUT].value)
  }

  predicate Present(d: Counters) {
    exists i :: 0 <= i < 5 && d[i].Some?
  }

  predicate Changed(d: Counters) {
    exists i :: 0 <= i < 5 && d[i].Some? && d[i].value != 0
  }

  // difference: the usable interval between two snapshots, if there is one.
  function Difference(current: Counters, previous: Option<Counters>): Option<Counters> {
    if !ResetFree(current, previous) then None
    else
      var d := Delta(current, previous);
      if SubsetsFit(d) && Present(d) && (previous.None? || Changed(d)) then Some(d) else None
  }

  // The loop of difference, filling one delta field at a time.
  method ComputeDifference(current: Counters, previous: Option<Counters>) returns (r: Option<Counters>)
    ensures r == Difference(current, previous)
  {
    var delta: seq<Option<Int64>> := [None, None, None, None, None];
    var changed, present := false, false;
    for i := 0 to 5
      invariant |delta| == 5
      invariant forall j: nat :: j < i ==> !Reset(current, previous, j) && delta[j] == Growth(current, previous, j)
      invariant forall j :: i <= j < 5 ==> delta[j] == None
      invariant present <==> exists j :: 0 <= j < i && delta[j].Some?
      invariant changed <==> exists j :: 0 <= j < i && delta[j].Some? && delta[j].value != 0
    {
      if current[i].None? { continue; }
      if current[i].value < 0 {
        assert Reset(current, previous, i);
        return None;
      }
      var amount := current[i].value;
      if previous.Some? {
        if previous.value[i].None? { continue; }
        if previous.value[i].value < 0 || amount < previous.value[i].value {
          assert Reset(current, previous, i);
          return None;
        }
        amount := amount - previous.value[i].value;
      }
      present := true;
      changed := changed || amount != 0;
      ghost var before := delta;
      delta := delta[i := Some(amount)];
      assert forall j :: 0 <= j < i ==> delta[j] == before[j];
      assert delta[i].Some?;
    }
    assert ResetFree(current, previous);
    assert delta == Delta(current, previous);
    if !SubsetsFit(delta) { return None; }
    if present && (previous.None? || changed) { return Some(delta); }
    return None;
  }

  // sameCounters: the last interval equals the whole of a counter that just began.
  predicate SameCounters(current: Counters, last: Option<Counters>) {
    && last.Some? && last.value[CUMULATIVE].Some? && current[CUMULATIVE].Some?
    && (forall i :: 0 <= i < 5 && current[i].Some? ==> last.value[i] == current[i])
  }

  // ---- recording a delta --------------------------------------------------------

  function OrZero(c: Option<Int64>): Int64 {
    if c.Some? then c.value else 0
  }

  const SOURCE := "codex-session-jsonl"
  const METRIC_NAMES := ["input_tokens", "cached_input_tokens", "output_tokens", "reasoning_tokens", "total_tokens"]
  const RAW_KEYS := [
    "info.total_token_usage.input_tokens", "info.total_token_usage.cached_input_tokens",
    "info.total_token_usage.output_tokens", "info.total_token_usage.reasoning_output_tokens",
    "info.total_token_usage.total_tokens"]

  function MetricOf(d: Counters, i: nat): Metric
    requires i < 5
  {
    Metric(METRIC_NAMES[i], d[i], SOURCE, RAW_KEYS[i], "reported")
  }

  function MetricsFrom(d: Counters, i: nat): seq<Metric>
    requires i <= 5
    decreases 5 - i
  {
    if i == 5 then []
    else if d[i].None? then MetricsFrom(d, i + 1)
    else [MetricOf(d, i)] + MetricsFrom(d, i + 1)
  }

  predicate NonNegative(d: Counters) {
    forall i :: 0 <= i < 5 && d[i].Some? ==> d[i].value >= 0
  }

  // The counts of the model call persist submits: storage keeps disjoint token
  // components.
  function DeltaInput(d: Counters): CallInput
    requires SubsetsFit(d) && NonNegative(d)
  {
    CallInput("", "", "", "", "codex", "agent_reported", 0, "",
      if d[INPUT].Some? && d[CACHED].Some? then d[INPUT].value - d[CACHED].value else OrZero(d[INPUT]),
      if d[OUTPUT].Some? && d[REASONING].Some? then d[OUTPUT].value - d[REASONING].value else OrZero(d[OUTPUT]),
      OrZero(d[REASONING]), OrZero(d[CACHED]), 0, 0, MetricsFrom(d, 0))
  }

  function RecordedTokens(calls: seq<Interval>): int {
    if calls == [] then 0 else RecordedTokens(calls[..|calls| - 1]) + calls[|calls| - 1].total
  }

  // The total RecordModelCall stores for a delta, or None when it refuses it.
  function AcceptedTotal(e: Evidence, d: Counters): (r: Option<Int64>)
    ensures r.Some? ==> SubsetsFit(d) && NonNegative(d)
  {
    if !SubsetsFit(d) || !NonNegative(d) then None
    else
      var total := CallTotal(DeltaInput(d));
      if total.Some? && e.others + RecordedTokens(e.calls) + total.value <= MAX_INT64 then total else None
  }

  // ---- the import run -------------------------------------------------------------

  // The importer's working state while it reads one log.
  datatype Machine = Machine(meta: Option<Meta>, previous: Option<Counters>, previousAt: Instant, childStarted: bool)

  datatype Status = Going | Finished | Failed | Crashed

  // `budget` is the number of store writes left before the process dies; None
  // means it does not die.
  datatype Run = Run(m: Machine, e: Evidence, budget: Option<nat>, status: Status,
                     samples: nat, duplicates: nat, skipped: nat)

  function Start(e: Evidence, budget: Option<nat>): Run {
    Run(Machine(None, None, 0, false), e, budget, Going, 0, 0, 0)
  }

  // Commits the writes in order. A process with fewer writes left than there are
  // dies after its last one; a refusal after the last write ends the import.
  function Commit(r: Run, writes: seq<Evidence>, refused: bool): Run
    requires writes != []
  {
    if r.budget.Some? && r.budget.value < |writes| then
      r.(e := if r.budget.value == 0 then r.e else writes[r.budget.value - 1], budget := Some(0), status := Crashed)
    else
      r.(e := writes[|writes| - 1],
         budget := if r.budget.Some? then Some(r.budget.value - |writes|) else None,
         status := if refused then Failed else Going)
  }

  function EnsureSession(e: Evidence, session: string): Evidence {
    e.(sessions := e.sessions + {session})
  }

  // AppendRawEvent suppresses an ingestion identity it has seen.
  function AppendRaw(e: Evidence, s: Sample): Evidence {
    if s in e.raws then e else e.(raws := e.raws + [s])
  }

  function Appended(e: Evidence, s: Sample): Evidence {
    AppendRaw(EnsureSession(e, s.session), s)
  }

  function LinkCall(e: Evidence, call: Interval): Evidence {
    e.(calls := e.calls + [call])
  }

  predicate IdentifierChar(c: char) {
    'a' <= c <= 'z' || 'A' <= c <= 'Z' || '0' <= c <= '9' || c in "._:/-"
  }

  function Identifier(s: string): string {
    if Utf8Len(s) > 256 || exists i :: 0 <= i < |s| && !IdentifierChar(s[i]) then "" else s
  }

  function OrUnavailable(s: string): string {
    if Identifier(s) == "" then "unavailable" else Identifier(s)
  }

  // What persist does with a usable delta.
  datatype Plan = Duplicate | Refuse | Store(delta: Counters, base: Base)

  function PlanFor(e: Evidence, s: Sample, delta: Counters, base: Base): Plan {
    var checkpoint := Checkpoint(e, s.session);
    if Linked(e, s) then Duplicate
    else if checkpoint.None? then Store(delta, base)
    else if s.at <= checkpoint.value.at then Refuse
    else if checkpoint.value.at <= base.at then Store(delta, base)
    else
      match Difference(s.usage, Some(checkpoint.value.usage))
      case None => Refuse
      case Some(rebased) => Store(rebased, Base(checkpoint.value.at, Some(checkpoint.value.usage)))
  }

  // The attribution a recorded interval carries.
  datatype Attribution = Attribution(provider: string, model: string, project: string)

  // Its raw event is the sample's.
  function IntervalOf(s: Sample, delta: Counters, base: Base, total: Int64, a: Attribution): Interval
    requires SubsetsFit(delta) && NonNegative(delta)
  {
    Interval(s, base, delta, total,
             DeltaInput(delta).(session := s.session, startedAt := s.at, provider := a.provider, model := a.model,
                                project := a.project))
  }

  // EnsureSession, AppendRawEvent and RecordModelCall are separate transactions;
  // RecordModelCall may refuse the delta.
  function StoreInterval(r: Run, s: Sample, delta: Counters, base: Base, a: Attribution): Run {
    var ensured := EnsureSession(r.e, s.session);
    var appended := Appended(r.e, s);
    var total := AcceptedTotal(appended, delta);
    if total.None? then Commit(r, [ensured, appended], true)
    else
      var done := Commit(r, [ensured, appended, LinkCall(appended, IntervalOf(s, delta, base, total.value, a))], false);
      if done.status != Going then done
      else if s in r.e.raws then done.(duplicates := done.duplicates + 1)
      else done.(samples := done.samples + 1)
  }

  function Persist(r: Run, s: Sample, delta: Counters, base: Base, a: Attribution): Run {
    match PlanFor(r.e, s, delta, base)
    case Duplicate => r.(duplicates := r.duplicates + 1)
    case Refuse => r.(status := Failed)
    case Store(d, b) => StoreInterval(r, s, d, b, a)
  }

  // What one line asks for, once the store has been asked what it must be asked.
  datatype Action =
    | Move(m: Machine, skipped: nat, duplicates: nat)
    | Halt(m: Machine, status: Status, skipped: nat)
    | Offer(m: Machine, sample: Sample, delta: Counters, base: Base, attribution: Attribution)

  // What the store knows of a sample and its session.
  datatype Answer = Answer(linked: bool, checkpoint: Option<Sample>)

  function Ask(e: Evidence, s: Sample): Answer {
    Answer(Linked(e, s), Checkpoint(e, s.session))
  }

  // The snapshot becomes the next baseline whatever happens to its interval.
  function Rebase(m: Machine, usage: Counters, at: Instant): Machine {
    m.(previous := Some(usage), previousAt := at)
  }

  // The project a working directory resolves to; None when resolution fails.
  type Resolver = string -> Option<string>

  function ProjectOf(meta: Meta, resolve: Resolver): Option<string> {
    if TrimSpace(meta.cwd) == "" then Some("") else resolve(TrimSpace(meta.cwd))
  }

  function Deliver(m: Machine, meta: Meta, usage: Counters, at: Instant, resolve: Resolver): Action {
    var delta := Difference(usage, m.previous);
    var project := ProjectOf(meta, resolve);
    var next := Rebase(m, usage, at);
    if delta.None? then Move(next, 1, 0)
    else if project.None? then Halt(next, Failed, 0)
    else Offer(next, Sample(meta.id, at, usage), delta.value, Base(m.previousAt, m.previous),
               Attribution(OrUnavailable(meta.provider), OrUnavailable(meta.model), project.value))
  }

  // A snapshot of the parent's history, which belongs to the parent.
  predicate Inherited(meta: Meta, at: Instant) {
    meta.child && (meta.created == 0 || at <= meta.created)
  }

  // Repeating the inherited total does not prove usage of the child's own.
  predicate RepeatsInherited(m: Machine, usage: Counters) {
    m.previous.Some? && m.previous.value[CUMULATIVE].Some? && m.previous.value[CUMULATIVE] == usage[CUMULATIVE]
  }

  // The child's first own snapshot, with neither a native confirmation nor an
  // inherited baseline: the one case in which the store is asked for a baseline.
  predicate Looks(m: Machine, meta: Meta, usage: Counters, last: Option<Counters>, at: Instant) {
    && meta.child && !Inherited(meta, at) && !m.childStarted
    && m.previous.None? && !SameCounters(usage, last)
  }

  function LookUp(m: Machine, meta: Meta, usage: Counters, at: Instant, answer: Answer, resolve: Resolver): Action {
    if answer.linked then Move(Rebase(m, usage, at), 0, 1)
    else if answer.checkpoint.None? then Move(Rebase(m, usage, at), 1, 0)
    else if at <= answer.checkpoint.value.at then Halt(m, Failed, 0)
    else Deliver(Rebase(m, answer.checkpoint.value.usage, answer.checkpoint.value.at), meta, usage, at, resolve)
  }

  function CountTokens(m: Machine, meta: Meta, usage: Counters, last: Option<Counters>, at: Instant,
                       answer: Answer, resolve: Resolver): Action {
    var started := m.(childStarted := true);
    if Inherited(meta, at) then Move(Rebase(m, usage, at), 1, 0)
    else if !meta.child || m.childStarted then Deliver(m, meta, usage, at, resolve)
    else if RepeatsInherited(m, usage) then Move(Rebase(m, usage, at), 1, 0)
    else if SameCounters(usage, last) then Deliver(started.(previous := None), meta, usage, at, resolve)
    else if m.previous.Some? then Deliver(started, meta, usage, at, resolve)
    else LookUp(started, meta, usage, at, answer, resolve)
  }

  function Preferring(next: string, known: string): string {
    if next != "" then next else known
  }

  // A log has one primary identity: only its own header can be repeated.
  function TakeMeta(m: Machine, next: Meta): Machine {
    if m.meta.None? then m.(meta := Some(next))
    else if next.id != m.meta.value.id then m
    else
      var meta := m.meta.value;
      m.(meta := Some(meta.(cwd := Preferring(next.cwd, meta.cwd), provider := Preferring(next.provider, meta.provider),
                            version := Preferring(next.version, meta.version), model :=
                                Preferring(next.model, meta.model))))
  }

  // A turn of the parent cannot replace the child's model or project.
  predicate ParentTurn(m: Machine, at: Option<Instant>) {
    m.meta.Some? && m.meta.value.child && m.meta.value.created != 0 && at.Some? && at.value <= m.meta.value.created
  }

  // A turn that precedes the header fills a header the header line replaces.
  function TakeTurn(m: Machine, turn: Turn): Machine {
    if m.meta.None? then m
    else
      var meta := m.meta.value;
      m.(meta := Some(meta.(model := turn.model, cwd := if TrimSpace(turn.cwd) != "" then turn.cwd else meta.cwd)))
  }

  // A token_count line that carries a total and follows a header.
  predicate Counts(m: Machine, line: Line) {
    line.TokenCount? && line.usage.Some? && line.usage.value[CUMULATIVE].Some? && m.meta.Some?
  }

  function Act(m: Machine, line: Line, answer: Answer, resolve: Resolver): Action {
    match line
    case Blank => Move(m, 0, 0)
    case OtherEvent => Move(m, 0, 0)
    case Unreadable => Halt(m, Failed, 0)
    case Invalid => Halt(m, Failed, 0)
    case BadEvent => Halt(m, Failed, 0)
    case Partial => Halt(m, Finished, 1)
    case SessionMeta(meta) => if meta.None? then Halt(m, Failed, 0) else Move(TakeMeta(m, meta.value), 0, 0)
    case TurnContext(turn, at) =>
      if ParentTurn(m, at) then Move(m, 0, 0)
      else if turn.None? then Halt(m, Failed, 0)
      else Move(TakeTurn(m, turn.value), 0, 0)
    case TokenCount(usage, last, at) =>
      if !Counts(m, line) then Move(m, 1, 0)
      else if at.None? then Halt(m, Failed, 0)
      else CountTokens(m, m.meta.value, usage.value, last, at.value, answer, resolve)
  }

  // The sample a line would be identified by.
  function SampleOf(m: Machine, line: Line): Sample {
    if Counts(m, line) && line.at.Some? then Sample(m.meta.value.id, line.at.value, line.usage.value)
    else Sample("", 0, [None, None, None, None, None])
  }

  function Perform(r: Run, action: Action): Run {
    match action
    case Move(m, skipped, duplicates) =>
      r.(m := m, skipped := r.skipped + skipped, duplicates := r.duplicates + duplicates)
    case Halt(m, status, skipped) => r.(m := m, status := status, skipped := r.skipped + skipped)
    case Offer(m, sample, delta, base, attribution) => Persist(r.(m := m), sample, delta, base, attribution)
  }

  function StepLine(r: Run, line: Line, resolve: Resolver): Run {
    if r.status != Going then r
    else Perform(r, Act(r.m, line, Ask(r.e, SampleOf(r.m, line)), resolve))
  }

  function RunLines(r: Run, lines: seq<Line>, resolve: Resolver): Run {
    if lines == [] then r
    else StepLine(RunLines(r, lines[..|lines| - 1], resolve), lines[|lines| - 1], resolve)
  }

  // One import of one log.
  function Import(e: Evidence, lines: seq<Line>, budget: Option<nat>, resolve: Resolver): Run {
    var r := RunLines(Start(e, budget), lines, resolve);
    if r.status == Going then r.(status := Finished) else r
  }
}
