/** Importing event envelopes: each line is normalized as a model call, then as a
    prompt, then as a tool call (internal/ingest/jsonl/importer.go). */
module JsonlImport {
  import opened Basics
  import opened Text
  import opened Interactions

  // A decoded envelope and its payload's fields. `decodes` says whether the payload
  // is a model call's; `callAccepted` and `modeAccepted` stand for the store's own
  // checks of the call and of the prompt capture mode.
  datatype Envelope = Envelope(
    source: string, session: string, eventType: string, identity: string,
    upstream: string, agentName: string, toolName: string, provider: string, model: string,
    decodes: bool, callAccepted: bool, modeAccepted: bool)

  // A line, the raw event it was appended as or suppressed into, and a fresh id for
  // the interaction it may create.
  datatype Line = Line(envelope: Envelope, rawEventId: string, accepted: bool, interactionId: string)

  // ---- classifying events --------------------------------------------------------------

  function Dotted(s: string): string {
    if s == "" then "" else [if s[0] == '_' then '.' else s[0]] + Dotted(s[1..])
  }

  predicate HasPrefix(s: string, prefix: string) {
    prefix <= s
  }

  predicate Contains(s: string, part: string) {
    exists i :: 0 <= i <= |s| && part <= s[i..]
  }

  predicate IsInteractionEvent(eventType: string) {
    Dotted(Lower(eventType)) in {"interaction.prompt", "user.prompt", "userpromptsubmitted", "userpromptsubmit",
        "user.message"}
  }

  predicate IsModelCall(eventType: string) {
    Dotted(Lower(eventType)) == "model.call"
  }

  predicate IsToolCall(eventType: string) {
    Contains(Dotted(Lower(eventType)), "tool")
  }

  predicate IsCodexResponseRoot(e: Envelope) {
    e.source == "codex-app-server" && Lower(e.eventType) == "model.call"
  }

  predicate IsAgentTraceInteraction(e: Envelope) {
    && e.source == "otlp-http" && e.upstream != ""
    && (IsInteractionEvent(e.eventType)
        || (Lower(e.eventType) == "model.call"
            && (HasPrefix(Lower(e.agentName), "github copilot") || Lower(e.agentName) in {"claude-code", "codex"})))
  }

  // The id under which an envelope is a prompt of its session, if it is one.
  function PromptId(e: Envelope): Option<string> {
    if e.identity == "" || !(IsInteractionEvent(e.eventType) || IsCodexResponseRoot(e) || IsAgentTraceInteraction(e))
        then None
    else Some(if IsAgentTraceInteraction(e) then e.upstream else e.identity)
  }

  // ---- normalizing ------------------------------------------------------------------------

  datatype Normalized = Stored(state: State) | Failed(state: State)

  function NormalizeModelCall(s: State, l: Line): Normalized {
    var e := l.envelope;
    if !IsModelCall(e.eventType) || (l.rawEventId != "" && HasEvent(s.calls, l.rawEventId)) then Stored(s)
    else if !e.decodes then Failed(s)
    else if e.provider == "" || e.model == "" then Stored(s)
    else if !e.callAccepted then Failed(s)
    else Stored(Step(s, RecordCall(l.rawEventId, e.source, e.session, e.upstream, true)))
  }

  function NormalizeInteraction(s: State, l: Line): Normalized {
    var e := l.envelope;
    match PromptId(e)
    case None => Stored(s)
    case Some(id) =>
      if TrimSpace(e.source) == "" || TrimSpace(id) == "" || !e.modeAccepted then Failed(s)
      else Stored(Step(s, Deliver(e.source, e.session, id, l.interactionId, true, Finished)))
  }

  function NormalizeToolCall(s: State, l: Line): Normalized {
    var e := l.envelope;
    if !IsToolCall(e.eventType) then Stored(s)
    else if TrimSpace(l.rawEventId) == "" then Failed(s)
    else Stored(Step(s, RecordTool(l.rawEventId, e.source, e.session, e.upstream, true)))
  }

  // One line: the call first, so that the prompt it belongs to, even its own, can
  // still be linked by the backfill.
  function ImportLine(s: State, l: Line): Normalized {
    var call := NormalizeModelCall(s, l);
    if call.Failed? then call
    else
      var prompt := NormalizeInteraction(call.state, l);
      if prompt.Failed? then prompt else NormalizeToolCall(prompt.state, l)
  }

  // The state after a file, which stops at its first failing line.
  function ImportFile(s: State, lines: seq<Line>): Normalized {
    if lines == [] then Stored(s)
    else
      var before := ImportFile(s, lines[..|lines| - 1]);
      if before.Failed? then before else ImportLine(before.state, lines[|lines| - 1])
  }

  // Accepted lines before the first failure.
  function Count(s: State, lines: seq<Line>): nat {
    if lines == [] then 0
    else
      var init, last := lines[..|lines| - 1], lines[|lines| - 1];
      Count(s, init) + if ImportFile(s, lines).Stored? && last.accepted then 1 else 0
  }

  lemma {:induction false} FailureStops(s: State, lines: seq<Line>, n: nat)
    requires n <= |lines| && ImportFile(s, lines[..n]).Failed?
    ensures ImportFile(s, lines) == ImportFile(s, lines[..n]) && Count(s, lines) == Count(s, lines[..n])
  {
    hide ImportLine;
    if n < |lines| {
      var init := lines[..|lines| - 1];
      assert init[..n] == lines[..n];
      FailureStops(s, init, n);
    } else {
      assert lines[..n] == lines;
    }
  }

  // The import loop.
  method Import(s: State, lines: seq<Line>) returns (r: Normalized, count: nat)
    ensures r == ImportFile(s, lines) && count == Count(s, lines)
  {
    hide NormalizeModelCall;
    hide NormalizeInteraction;
    hide NormalizeToolCall;
    var now := s;
    count := 0;
    for i := 0 to |lines|
      invariant ImportFile(s, lines[..i]) == Stored(now) && count == Count(s, lines[..i])
    {
      assert lines[..i + 1][..i] == lines[..i];
      r := NormalizeModelCall(now, lines[i]);
      if r.Stored? {
        r := NormalizeInteraction(r.state, lines[i]);
      }
      if r.Stored? {
        r := NormalizeToolCall(r.state, lines[i]);
      }
      assert r == ImportLine(now, lines[i]) == ImportFile(s, lines[..i + 1]);
      if r.Failed? {
        FailureStops(s, lines, i + 1);
        return;
      }
      now := r.state;
      if lines[i].accepted {
        count := count + 1;
      }
    }
    assert lines[..|lines|] == lines;
    r := Stored(now);
  }

  // ---- what importing keeps ---------------------------------------------------------------

  predicate Whole(s: State) {
    Kept(s) && s.cut == {}
  }

  lemma StepWhole(s: State, op: Op)
    requires Whole(s) && (op.Deliver? ==> op.reach.Finished?)
    ensures Whole(Step(s, op))
  {
    hide Kept;
    hide Named;
    hide Backfilled;
    hide ByUpstream;
    hide HasEvent;
    hide HasInteractionId;
    hide Parent;
    StepKeeps(s, op);
  }

  lemma LineWhole(s: State, l: Line)
    requires Whole(s)
    ensures Whole(ImportLine(s, l).state)
  {
    hide Whole;
    hide Step;
    hide IsModelCall;
    hide IsToolCall;
    hide PromptId;
    hide HasEvent;
    hide TrimSpace;
    var e := l.envelope;
    StepWhole(s, RecordCall(l.rawEventId, e.source, e.session, e.upstream, true));
    var call := NormalizeModelCall(s, l).state;
    if PromptId(e).Some? {
      StepWhole(call, Deliver(e.source, e.session, PromptId(e).value, l.interactionId, true, Finished));
    }
    var prompt := NormalizeInteraction(call, l).state;
    StepWhole(prompt, RecordTool(l.rawEventId, e.source, e.session, e.upstream, true));
  }

  lemma {:induction false} FileWhole(s: State, lines: seq<Line>)
    requires Whole(s)
    ensures Whole(ImportFile(s, lines).state)
  {
    hide Whole;
    hide ImportLine;
    if lines != [] {
      FileWhole(s, lines[..|lines| - 1]);
      LineWhole(ImportFile(s, lines[..|lines| - 1]).state, lines[|lines| - 1]);
    }
  }

  // Main result: after any lines in any order, even a failing one, every model or
  // tool call whose session and upstream id name at most one prompt is linked
  // exactly when that prompt arrived, and to it.
  lemma ImportLinksExactly(lines: seq<Line>, c: Child)
    requires var s := ImportFile(EMPTY, lines).state;
             && Recorded(s, c) && c.session != "" && c.upstream != ""
             && |Named(s.interactions, c.session, c.upstream)| <= 1
    ensures var named := Named(ImportFile(EMPTY, lines).state.interactions, c.session, c.upstream);
            && (c.interaction != "" <==> named != [])
            && (named != [] ==> c.interaction == named[0].id)
  {
    hide ImportFile;
    EmptyKept();
    FileWhole(EMPTY, lines);
    KeptLinksExactly(ImportFile(EMPTY, lines).state, c);
  }

  // ---- what one line stores -------------------------------------------------------------

  // An event type is written like a name, in any case of letters and with an underscore
  // for a dot.
  predicate Spelled(t: string, name: string) {
    |t| == |name| && forall i :: 0 <= i < |t| ==> LowerChar(t[i]) == name[i] || (t[i] == '_' && name[i] == '.')
  }

  lemma {:induction false} DottedAt(t: string)
    ensures |Dotted(Lower(t))| == |t|
    ensures forall i :: 0 <= i < |t| ==> Dotted(Lower(t))[i] == if t[i] == '_' then '.' else LowerChar(t[i])
  {
    if t != "" {
      DottedAt(t[1..]);
    }
  }

  lemma SpelledExactly(t: string, name: string)
    requires '_' !in name
    ensures Dotted(Lower(t)) == name <==> Spelled(t, name)
  {
    hide Dotted;
    hide Lower;
    DottedAt(t);
    if Spelled(t, name) {
      forall i | 0 <= i < |t| ensures Dotted(Lower(t))[i] == name[i] {
        assert name[i] in name;
      }
    }
  }

  // The events that are model calls, prompts and tool calls, by their names.
  predicate CallEvent(t: string) {
    Spelled(t, "model.call")
  }

  predicate PromptEvent(t: string) {
    || Spelled(t, "interaction.prompt") || Spelled(t, "user.prompt") || Spelled(t, "userpromptsubmitted")
    || Spelled(t, "userpromptsubmit") || Spelled(t, "user.message")
  }

  predicate ToolEvent(t: string) {
    exists i: nat :: i <= |t| && SpelledFrom(t, i, "tool")
  }

  predicate SpelledFrom(t: string, i: nat, name: string) {
    i + |name| <= |t| && Spelled(t[i..i + |name|], name)
  }

  lemma PrefixFrom(s: string, i: nat, part: string)
    requires i <= |s|
    ensures part <= s[i..] <==> i + |part| <= |s| && s[i..i + |part|] == part
  {
    if i + |part| <= |s| {
      assert s[i..][..|part|] == s[i..i + |part|];
    }
  }

  lemma DottedPart(t: string, i: nat, j: nat)
    requires i <= j <= |t| == |Dotted(Lower(t))|
    ensures Dotted(Lower(t))[i..j] == Dotted(Lower(t[i..j]))
  {
    hide Dotted;
    hide Lower;
    DottedAt(t);
    DottedAt(t[i..j]);
  }

  lemma ToolSpelled(t: string, i: nat)
    requires i <= |t| == |Dotted(Lower(t))|
    ensures "tool" <= Dotted(Lower(t))[i..] <==> SpelledFrom(t, i, "tool")
  {
    hide Dotted;
    hide Lower;
    hide Spelled;
    PrefixFrom(Dotted(Lower(t)), i, "tool");
    if i + 4 <= |t| {
      DottedPart(t, i, i + 4);
      SpelledExactly(t[i..i + 4], "tool");
    }
  }

  lemma EventsExactly(t: string)
    ensures IsModelCall(t) <==> CallEvent(t)
    ensures IsInteractionEvent(t) <==> PromptEvent(t)
    ensures IsToolCall(t) <==> ToolEvent(t)
  {
    hide Dotted;
    hide Lower;
    hide Spelled;
    SpelledExactly(t, "model.call");
    SpelledExactly(t, "interaction.prompt");
    SpelledExactly(t, "user.prompt");
    SpelledExactly(t, "userpromptsubmitted");
    SpelledExactly(t, "userpromptsubmit");
    SpelledExactly(t, "user.message");
    DottedAt(t);
    forall i: nat | i <= |t| ensures "tool" <= Dotted(Lower(t))[i..] <==> SpelledFrom(t, i, "tool") {
      ToolSpelled(t, i);
    }
  }

  // The agents whose traced model calls stand for the prompts that caused them.
  predicate TracingAgent(name: string) {
    "github copilot" <= Lower(name) || Lower(name) == "claude-code" || Lower(name) == "codex"
  }

  // The name under which an envelope is a prompt: a traced one goes by its upstream id,
  // any other by its own.
  ghost predicate PromptNamed(e: Envelope, id: string) {
    var traced := e.source == "otlp-http" && e.upstream != ""
                  && (PromptEvent(e.eventType) || (Lower(e.eventType) == "model.call" && TracingAgent(e.agentName)));
    && e.identity != ""
    && (if traced then id == e.upstream else id == e.identity)
    && (traced || PromptEvent(e.eventType) || (e.source == "codex-app-server" && Lower(e.eventType) == "model.call"))
  }

  lemma PromptIdExactly(e: Envelope)
    ensures forall id :: PromptId(e) == Some(id) <==> PromptNamed(e, id)
  {
    hide Dotted;
    hide Lower;
    hide PromptEvent;
    hide IsInteractionEvent;
    EventsExactly(e.eventType);
  }

  // A call or tool without its link, which later prompts may still set.
  function Unlinked(children: seq<Child>): seq<Child> {
    if children == [] then []
    else Unlinked(children[..|children| - 1]) + [children[|children| - 1].(interaction := "")]
  }

  lemma UnlinkedNext(children: seq<Child>, c: Child)
    ensures Unlinked(children + [c]) == Unlinked(children) + [c.(interaction := "")]
  {
    assert (children + [c])[..|children|] == children;
  }

  lemma {:induction false} BackfillUnlinked(children: seq<Child>, id: string, session: string, upstream: string)
    ensures Unlinked(Backfilled(children, id, session, upstream)) == Unlinked(children)
  {
    if children != [] {
      BackfillUnlinked(children[..|children| - 1], id, session, upstream);
      var last := children[|children| - 1];
      UnlinkedNext(Backfilled(children[..|children| - 1], id, session, upstream),
        if last.interaction == "" && last.session == session && last.upstream == upstream
        then last.(interaction := id) else last);
    }
  }

  // The prompt is stored already.
  predicate Arrived(s: State, e: Envelope, id: string) {
    exists k :: 0 <= k < |s.interactions| && s.interactions[k].source == e.source
                && s.interactions[k].session == e.session && s.interactions[k].upstream == id
  }

  // The event already has its call, or its tool call.
  predicate Has(children: seq<Child>, rawEventId: string) {
    exists k :: 0 <= k < |children| && children[k].rawEventId == rawEventId
  }

  // What a line makes of the calls: one more exactly when it is a model call of an event
  // that has none and names its provider and model.
  lemma CallLine(s: State, l: Line)
    ensures var e, after := l.envelope, NormalizeModelCall(s, l);
            var first := CallEvent(e.eventType) && !(l.rawEventId != "" && Has(s.calls, l.rawEventId));
            && (after.Failed? <==> first && (!e.decodes || (e.provider != "" && e.model != "" && !e.callAccepted)))
            && (after.Failed? ==> after.state == s)
            && after.state.interactions == s.interactions && after.state.tools == s.tools
            && Unlinked(after.state.calls) == Unlinked(s.calls)
                 + if first && e.decodes && e.provider != "" && e.model != "" && e.callAccepted
                   then [Child(l.rawEventId, e.session, e.upstream, "")] else []
  {
    hide Unlinked;
    hide Parent;
    hide CallEvent;
    hide IsModelCall;
    var e := l.envelope;
    EventsExactly(e.eventType);
    UnlinkedNext(s.calls, Child(l.rawEventId, e.session, e.upstream,
        Parent(s.interactions, e.source, e.session, e.upstream)));
    assert Unlinked(s.calls) + [] == Unlinked(s.calls);
  }

  lemma ToolLine(s: State, l: Line)
    ensures var e, after := l.envelope, NormalizeToolCall(s, l);
            && (after.Failed? <==> ToolEvent(e.eventType) && TrimSpace(l.rawEventId) == "")
            && (after.Failed? ==> after.state == s)
            && after.state.interactions == s.interactions && after.state.calls == s.calls
            && Unlinked(after.state.tools) == Unlinked(s.tools)
                 + if ToolEvent(e.eventType) && TrimSpace(l.rawEventId) != "" && !Has(s.tools, l.rawEventId)
                   then [Child(l.rawEventId, e.session, e.upstream, "")] else []
  {
    hide Unlinked;
    hide Parent;
    hide ToolEvent;
    hide IsToolCall;
    hide TrimSpace;
    var e := l.envelope;
    EventsExactly(e.eventType);
    UnlinkedNext(s.tools, Child(l.rawEventId, e.session, e.upstream,
        Parent(s.interactions, e.source, e.session, e.upstream)));
    assert Unlinked(s.tools) + [] == Unlinked(s.tools);
  }

  lemma {:induction false} ByUpstreamExactly(s: seq<Interaction>, source: string, session: string, upstream: string)
    ensures ByUpstream(s, source, session, upstream).Some? <==>
            exists k :: 0 <= k < |s| && s[k].source == source && s[k].session == session && s[k].upstream == upstream
  {
    if s != [] && !(s[0].source == source && Names(s[0], session, upstream)) {
      ByUpstreamExactly(s[1..], source, session, upstream);
      assert forall k :: 0 <= k < |s| ==> s[k] == if k == 0 then s[0] else s[1..][k - 1];
      assert forall k :: 0 <= k < |s| - 1 ==> s[1..][k] == s[k + 1];
    }
  }

  // What it makes of the prompts: one more exactly when it is a prompt that has not
  // arrived yet.
  lemma PromptLine(s: State, l: Line, id: string)
    requires l.interactionId != "" && !HasInteractionId(s.interactions, l.interactionId)
    requires PromptNamed(l.envelope, id)
    ensures var e, after := l.envelope, NormalizeInteraction(s, l);
            && (after.Failed? <==> TrimSpace(e.source) == "" || TrimSpace(id) == "" || !e.modeAccepted)
            && (after.Failed? ==> after.state == s)
            && Unlinked(after.state.calls) == Unlinked(s.calls) && Unlinked(after.state.tools) == Unlinked(s.tools)
            && after.state.interactions == s.interactions
                 + if after.Failed? || Arrived(s, e, id) then []
                   else [Interaction(l.interactionId, e.source, e.session, id)]
  {
    hide Unlinked;
    hide Backfilled;
    hide PromptId;
    hide PromptNamed;
    hide TrimSpace;
    hide Named;
    hide ByUpstream;
    hide HasInteractionId;
    var e := l.envelope;
    PromptIdExactly(e);
    ByUpstreamExactly(s.interactions, e.source, e.session, id);
    var existing := ByUpstream(s.interactions, e.source, e.session, id);
    var root := if existing.Some? then existing.value.id else l.interactionId;
    BackfillUnlinked(s.calls, root, e.session, id);
    BackfillUnlinked(s.tools, root, e.session, id);
    assert s.interactions + [] == s.interactions;
  }

  lemma NoPromptLine(s: State, l: Line)
    requires forall id :: !PromptNamed(l.envelope, id)
    ensures NormalizeInteraction(s, l) == Stored(s)
  {
    hide PromptId;
    hide PromptNamed;
    hide Step;
    hide TrimSpace;
    PromptIdNamed(l.envelope);
  }

  lemma PromptIdNamed(e: Envelope)
    ensures PromptId(e).Some? ==> PromptNamed(e, PromptId(e).value)
  {
    hide PromptId;
    hide PromptNamed;
    PromptIdExactly(e);
  }

  lemma EmptyUnlinked(children: seq<Child>)
    ensures Unlinked(children) + [] == Unlinked(children)
  {
  }

  lemma {:induction false} UnlinkedHas(children: seq<Child>, rawEventId: string)
    ensures Has(Unlinked(children), rawEventId) == Has(children, rawEventId)
  {
    if children != [] {
      var init := children[..|children| - 1];
      UnlinkedHas(init, rawEventId);
      HasNext(init, children[|children| - 1], rawEventId);
      HasNext(Unlinked(init), children[|children| - 1].(interaction := ""), rawEventId);
      assert children == init + [children[|children| - 1]];
    }
  }

  lemma HasNext(children: seq<Child>, c: Child, rawEventId: string)
    ensures Has(children + [c], rawEventId) <==> Has(children, rawEventId) || c.rawEventId == rawEventId
  {
    var after := children + [c];
    assert after[|children|] == c;
    assert forall k :: 0 <= k < |children| ==> after[k] == children[k];
  }

  // Main result on one line that is imported: it adds at most one call, one prompt and
  // one tool call, each exactly under the condition and with the ids it names, and it
  // takes nothing away but the missing links of its session and name.
  lemma LineStores(s: State, l: Line)
    requires l.interactionId != "" && !HasInteractionId(s.interactions, l.interactionId)
    requires ImportLine(s, l).Stored?
    ensures var e, after := l.envelope, ImportLine(s, l).state;
            && Unlinked(after.calls) == Unlinked(s.calls)
                 + (if CallEvent(e.eventType) && e.provider != "" && e.model != ""
                       && !(l.rawEventId != "" && Has(s.calls, l.rawEventId))
                    then [Child(l.rawEventId, e.session, e.upstream, "")] else [])
            && Unlinked(after.tools) == Unlinked(s.tools)
                 + (if ToolEvent(e.eventType) && !Has(s.tools, l.rawEventId)
                    then [Child(l.rawEventId, e.session, e.upstream, "")] else [])
            && ((forall id :: !PromptNamed(e, id)) ==> after.interactions == s.interactions)
            && forall id :: PromptNamed(e, id) ==>
                 after.interactions == s.interactions
                   + if Arrived(s, e, id) then [] else [Interaction(l.interactionId, e.source, e.session, id)]
  {
    hide *;
    LineParts(s, l);
    var e := l.envelope;
    CallLine(s, l);
    var call := NormalizeModelCall(s, l).state;
    var prompt := NormalizeInteraction(call, l).state;
    ToolLine(prompt, l);
    SameInteractions(s, call, e);
    UnlinkedHas(s.tools, l.rawEventId);
    UnlinkedHas(prompt.tools, l.rawEventId);
    if id :| PromptNamed(e, id) {
      PromptLine(call, l, id);
      OneName(e, id);
    } else {
      NoPromptLine(call, l);
    }
  }

  lemma LineParts(s: State, l: Line)
    requires ImportLine(s, l).Stored?
    ensures var call := NormalizeModelCall(s, l);
            && call.Stored? && NormalizeInteraction(call.state, l).Stored?
            && ImportLine(s, l) == NormalizeToolCall(NormalizeInteraction(call.state, l).state, l)
            && NormalizeToolCall(NormalizeInteraction(call.state, l).state, l).Stored?
  {
    hide NormalizeModelCall;
    hide NormalizeInteraction;
    hide NormalizeToolCall;
  }

  lemma SameInteractions(s: State, t: State, e: Envelope)
    requires t.interactions == s.interactions
    ensures forall id :: HasInteractionId(t.interactions, id) == HasInteractionId(s.interactions, id)
    ensures forall id :: Arrived(t, e, id) == Arrived(s, e, id)
  {
  }

  lemma OneName(e: Envelope, id: string)
    requires PromptNamed(e, id)
    ensures forall other :: PromptNamed(e, other) ==> other == id
  {
    hide PromptEvent;
    hide TracingAgent;
    hide Lower;
  }
}
