/** What recording a prompt, a call or a tool call does to the tables, field by field
    (internal/storage/sqlite/store.go and internal/ingest/jsonl/importer.go). */
module InteractionEffects {
  import opened Basics
  import opened Text
  import opened Interactions

  // ---- the prompt a call is recorded under ------------------------------------------

  // The prompts of a session and name.
  function Matching(s: seq<Interaction>, session: string, upstream: string): set<int> {
    set k | 0 <= k < |s| && s[k].session == session && s[k].upstream == upstream
  }

  lemma MatchingNext(s: seq<Interaction>, i: Interaction, session: string, upstream: string)
    ensures Matching(s + [i], session, upstream) ==
            Matching(s, session, upstream) + if i.session == session && i.upstream == upstream then {|s|} else {}
    ensures |s| !in Matching(s, session, upstream)
  {
    var after := s + [i];
    assert after[|s|] == i;
    assert forall k :: 0 <= k < |s| ==> after[k] == s[k];
  }

  lemma {:induction false} NamedCounts(s: seq<Interaction>, session: string, upstream: string)
    ensures |Named(s, session, upstream)| == |Matching(s, session, upstream)|
  {
    hide Named;
    hide Matching;
    if s == [] {
      NoneMatch(session, upstream);
    } else {
      var init, last := s[..|s| - 1], s[|s| - 1];
      assert s == init + [last];
      NamedCounts(init, session, upstream);
      NamedNext(init, last, session, upstream);
      MatchingNext(init, last, session, upstream);
    }
  }

  lemma NoneMatch(session: string, upstream: string)
    ensures Named([], session, upstream) == [] && Matching([], session, upstream) == {}
  {
  }

  // Main result on lookup: a call or tool call without a name belongs to no prompt; one
  // with a name, to the prompt of its own source and session that has it, or else, if it
  // has a session, to the only prompt of that session that has it, or else to none.
  lemma ParentExactly(s: seq<Interaction>, source: string, session: string, upstream: string, k: nat)
    requires Unique(s) && k < |s|
    ensures Parent(s, source, session, upstream) == s[k].id <==>
            && upstream != "" && s[k].session == session && s[k].upstream == upstream
            && (s[k].source == source
                || (&& session != "" && Matching(s, session, upstream) == {k}))
    ensures (forall j :: 0 <= j < |s| ==> Parent(s, source, session, upstream) != s[j].id) ==>
              Parent(s, source, session, upstream) == ""
  {
    hide Named;
    ByUpstreamFinds(s, source, session, upstream);
    NamedMembers(s, session, upstream);
    NamedCounts(s, session, upstream);
    var named, own := Named(s, session, upstream), ByUpstream(s, source, session, upstream);
    if own.Some? {
      var j :| 0 <= j < |s| && s[j] == own.value;
      assert j in Matching(s, session, upstream);
    } else if |named| == 1 {
      assert named[0] in named;
      var j :| 0 <= j < |s| && s[j] == named[0];
      assert j in Matching(s, session, upstream);
      OnlyOne(Matching(s, session, upstream), j);
    }
    if Matching(s, session, upstream) == {k} {
      assert k in Matching(s, session, upstream);
      assert s[k] in named;
    }
  }

  lemma OnlyOne(x: set<int>, j: int)
    requires |x| == 1 && j in x
    ensures x == {j}
  {
    assert |x - {j}| == 0;
  }

  // ---- the effect of a delivery ---------------------------------------------------------

  // A child of a name that had no prompt gets this one; every other one stays as it is.
  predicate Gets(before: Child, after: Child, session: string, upstream: string, id: string, links: bool) {
    && after.rawEventId == before.rawEventId && after.session == before.session && after.upstream == before.upstream
    && after.interaction ==
       if links && session != "" && upstream != "" && before.session == session && before.upstream == upstream
          && before.interaction == ""
       then id else before.interaction
  }

  // Main result on delivery: it stores the prompt unless its source has it already, and
  // links exactly the calls of its session and name that had no prompt; the tool calls,
  // if no other source uses that name in that session.
  lemma DeliverExactly(s: State, source: string, session: string, upstream: string, id: string)
    returns (root: Interaction)
    requires id != "" && !HasInteractionId(s.interactions, id)
    requires TrimSpace(source) != "" && TrimSpace(upstream) != ""
    ensures var after := Step(s, Deliver(source, session, upstream, id, true, Finished));
            && root.source == source && root.session == session && root.upstream == upstream
            && (if exists k :: 0 <= k < |s.interactions| && s.interactions[k].source == source
                               && s.interactions[k].session == session && s.interactions[k].upstream == upstream
                then root in s.interactions && after.interactions == s.interactions
                else root.id == id && after.interactions == s.interactions + [root])
            && |after.calls| == |s.calls| && |after.tools| == |s.tools|
            && (forall k :: 0 <= k < |s.calls| ==> Gets(s.calls[k], after.calls[k], session, upstream, root.id, true))
            && forall k :: 0 <= k < |s.tools| ==>
                 Gets(s.tools[k], after.tools[k], session, upstream, root.id,
                      |Matching(after.interactions, session, upstream)| == 1)
  {
    hide Named;
    hide Backfilled;
    hide TrimSpace;
    hide HasInteractionId;
    ByUpstreamFinds(s.interactions, source, session, upstream);
    var existing := ByUpstream(s.interactions, source, session, upstream);
    root := if existing.Some? then existing.value else Interaction(id, source, session, upstream);
    var after := Step(s, Deliver(source, session, upstream, id, true, Finished));
    NamedCounts(after.interactions, session, upstream);
    BackfilledLength(s.calls, root.id, session, upstream);
    BackfilledLength(s.tools, root.id, session, upstream);
    forall k: nat | k < |s.calls| ensures Gets(s.calls[k], after.calls[k], session, upstream, root.id, true) {
      BackfilledAt(s.calls, root.id, session, upstream, k);
    }
    forall k: nat | k < |s.tools|
      ensures Gets(s.tools[k], after.tools[k], session, upstream, root.id,
                   |Matching(after.interactions, session, upstream)| == 1)
    {
      BackfilledAt(s.tools, root.id, session, upstream, k);
    }
  }

  // ---- one call and one tool call per event -----------------------------------------------

  predicate EventsApart(children: seq<Child>) {
    forall i, j :: 0 <= i < j < |children| && children[i].rawEventId != "" ==>
      children[i].rawEventId != children[j].rawEventId
  }

  lemma SameEventsApart(children: seq<Child>, now: seq<Child>)
    requires EventsApart(children) && |now| == |children|
    requires forall k :: 0 <= k < |children| ==> now[k].rawEventId == children[k].rawEventId
    ensures EventsApart(now)
  {
  }

  lemma StepKeepsApart(s: State, op: Op)
    requires EventsApart(s.calls) && EventsApart(s.tools)
    ensures EventsApart(Step(s, op).calls) && EventsApart(Step(s, op).tools)
  {
    hide Named;
    hide Backfilled;
    hide ByUpstream;
    hide HasInteractionId;
    hide TrimSpace;
    hide Parent;
    if op.Deliver? {
      hide EventsApart;
      var existing := ByUpstream(s.interactions, op.source, op.session, op.upstream);
      var root := if existing.Some? then existing.value.id else op.id;
      BackfillApart(s.calls, root, op.session, op.upstream);
      BackfillApart(s.tools, root, op.session, op.upstream);
    }
  }

  lemma BackfillApart(children: seq<Child>, id: string, session: string, upstream: string)
    requires EventsApart(children)
    ensures EventsApart(Backfilled(children, id, session, upstream))
  {
    hide Backfilled;
    hide EventsApart;
    BackfilledLength(children, id, session, upstream);
    var now := Backfilled(children, id, session, upstream);
    forall k: nat | k < |children| ensures now[k].rawEventId == children[k].rawEventId {
      BackfilledAt(children, id, session, upstream, k);
    }
    SameEventsApart(children, now);
  }

  // Every tool call has an event.
  predicate Evented(tools: seq<Child>) {
    forall k :: 0 <= k < |tools| ==> TrimSpace(tools[k].rawEventId) != ""
  }

  lemma StepKeepsEvented(s: State, op: Op)
    requires Evented(s.tools)
    ensures Evented(Step(s, op).tools)
  {
    hide Named;
    hide Backfilled;
    hide ByUpstream;
    hide HasInteractionId;
    hide HasEvent;
    hide TrimSpace;
    hide Parent;
    if op.Deliver? {
      var existing := ByUpstream(s.interactions, op.source, op.session, op.upstream);
      var root := if existing.Some? then existing.value.id else op.id;
      BackfilledLength(s.tools, root, op.session, op.upstream);
      forall k: nat | k < |s.tools|
        ensures Backfilled(s.tools, root, op.session, op.upstream)[k].rawEventId == s.tools[k].rawEventId
      {
        BackfilledAt(s.tools, root, op.session, op.upstream, k);
      }
    }
  }

  // However often an event is delivered, it has at most one call and one tool call, and
  // there is no tool call without an event.
  lemma {:induction false} RunKeepsApart(ops: seq<Op>)
    ensures EventsApart(Run(EMPTY, ops).calls) && EventsApart(Run(EMPTY, ops).tools)
    ensures Evented(Run(EMPTY, ops).tools)
  {
    hide Step;
    hide TrimSpace;
    if ops != [] {
      RunKeepsApart(ops[..|ops| - 1]);
      StepKeepsApart(Run(EMPTY, ops[..|ops| - 1]), ops[|ops| - 1]);
      StepKeepsEvented(Run(EMPTY, ops[..|ops| - 1]), ops[|ops| - 1]);
    }
  }
}
