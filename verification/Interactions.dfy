/** Prompts and the calls and tools that belong to them: lookup, recording and
    backfill in any order of arrival (internal/storage/sqlite/store.go and
    internal/ingest/jsonl/importer.go). */
module Interactions {
  import opened Basics
  import opened Text

  datatype Interaction = Interaction(id: string, source: string, session: string, upstream: string)

  // A model or tool call; an empty session or interaction stands for SQL NULL.
  datatype Child = Child(rawEventId: string, session: string, upstream: string, interaction: string)

  datatype Key = Key(session: string, upstream: string)

  // `cut` lists the keys whose last delivery stopped before its backfill was done.
  datatype State = State(interactions: seq<Interaction>, calls: seq<Child>, tools: seq<Child>, cut: set<Key>)

  // ---- reading ---------------------------------------------------------------------

  predicate Names(i: Interaction, session: string, upstream: string) {
    i.session == session && i.upstream == upstream
  }

  // InteractionByUpstream: (source, session, upstream) is unique.
  function ByUpstream(s: seq<Interaction>, source: string, session: string, upstream: string): Option<Interaction> {
    if s == [] then None
    else if s[0].source == source && Names(s[0], session, upstream) then Some(s[0])
    else ByUpstream(s[1..], source, session, upstream)
  }

  // The interactions a session and upstream id name, over all sources.
  function Named(s: seq<Interaction>, session: string, upstream: string): seq<Interaction> {
    if s == [] then []
    else (if Names(s[0], session, upstream) then [s[0]] else []) + Named(s[1..], session, upstream)
  }

  // InteractionBySessionUpstream: only an unambiguous name is followed.
  function BySessionUpstream(s: seq<Interaction>, session: string, upstream: string): Option<Interaction> {
    if session == "" || upstream == "" then None
    else if |Named(s, session, upstream)| == 1 then Some(Named(s, session, upstream)[0])
    else None
  }

  // What both normalizers look up for a child: its own source first.
  function Parent(s: seq<Interaction>, source: string, session: string, upstream: string): string {
    if upstream == "" then ""
    else
      match ByUpstream(s, source, session, upstream)
      case Some(i) => i.id
      case None =>
        match BySessionUpstream(s, session, upstream)
        case Some(i) => i.id
        case None => ""
  }

  // ---- recording ---------------------------------------------------------------------

  predicate HasEvent(children: seq<Child>, rawEventId: string) {
    exists k :: 0 <= k < |children| && children[k].rawEventId == rawEventId
  }

  // UPDATE ... SET interaction_id WHERE interaction_id IS NULL AND session and
  // upstream id agree.
  function Backfilled(children: seq<Child>, id: string, session: string, upstream: string): seq<Child> {
    if children == [] then []
    else
      var last := children[|children| - 1];
      Backfilled(children[..|children| - 1], id, session, upstream)
        + [if last.interaction == "" && last.session == session && last.upstream == upstream
            then last.(interaction := id) else last]
  }

  // How far a delivery gets: the insert, the backfill of model calls, or all of it.
  datatype Reach = Inserted | CallsLinked | Finished

  datatype Op =
    | Deliver(source: string, session: string, upstream: string, id: string, accepted: bool, reach: Reach)
    | RecordCall(rawEventId: string, source: string, session: string, upstream: string, accepted: bool)
    | RecordTool(rawEventId: string, source: string, session: string, upstream: string, accepted: bool)

  function HasInteractionId(s: seq<Interaction>, id: string): bool {
    exists k :: 0 <= k < |s| && s[k].id == id
  }

  // RecordInteraction. The backfill of tools asks again whether the name is
  // unambiguous; the backfill of model calls does not.
  function Delivered(s: State, source: string, session: string, upstream: string, id: string, reach: Reach): State {
    var existing := ByUpstream(s.interactions, source, session, upstream);
    var interactions := if existing.Some? then s.interactions
        else s.interactions + [Interaction(id, source, session, upstream)];
    var root := if existing.Some? then existing.value.id else id;
    var keyed := session != "" && upstream != "";
    var calls := if keyed && !reach.Inserted? then Backfilled(s.calls, root, session, upstream) else s.calls;
    var tools := if keyed && reach.Finished? && |Named(interactions, session, upstream)| == 1
                 then Backfilled(s.tools, root, session, upstream) else s.tools;
    State(interactions, calls, tools,
          if reach.Finished? then s.cut - {Key(session, upstream)} else s.cut + {Key(session, upstream)})
  }

  // A new interaction needs a fresh id; `accepted` stands for the other checks of
  // each call. A raw event has at most one model call and one tool call.
  function Step(s: State, op: Op): State {
    match op
    case Deliver(source, session, upstream, id, accepted, reach) =>
      if !accepted || TrimSpace(source) == "" || TrimSpace(upstream) == "" || id == ""
          || HasInteractionId(s.interactions, id) then s
      else Delivered(s, source, session, upstream, id, reach)
    case RecordCall(event, source, session, upstream, accepted) =>
      if !accepted || (event != "" && HasEvent(s.calls, event)) then s
      else s.(calls := s.calls + [Child(event, session, upstream, Parent(s.interactions, source, session, upstream))])
    case RecordTool(event, source, session, upstream, accepted) =>
      if !accepted || TrimSpace(event) == "" || HasEvent(s.tools, event) then s
      else s.(tools := s.tools + [Child(event, session, upstream, Parent(s.interactions, source, session, upstream))])
  }

  function Run(s: State, ops: seq<Op>): State {
    if ops == [] then s else Step(Run(s, ops[..|ops| - 1]), ops[|ops| - 1])
  }

  const EMPTY := State([], [], [], {})

  // ---- what is kept --------------------------------------------------------------------

  predicate Unique(s: seq<Interaction>) {
    && (forall i, j :: 0 <= i < j < |s| ==>
          s[i].id != s[j].id && !(s[i].source == s[j].source && Names(s[j], s[i].session, s[i].upstream)))
    && forall k :: 0 <= k < |s| ==> s[k].id != ""
  }

  // A link joins equal session and upstream ids.
  predicate LinkSound(s: seq<Interaction>, c: Child) {
    c.interaction != "" ==> exists k :: 0 <= k < |s| && s[k].id == c.interaction && Names(s[k], c.session, c.upstream)
  }

  // Where a name is unambiguous and its backfill done, the child has the link.
  predicate LinkComplete(s: State, c: Child) {
    var named := Named(s.interactions, c.session, c.upstream);
    c.session != "" && c.upstream != "" && Key(c.session, c.upstream) !in s.cut && |named| == 1 ==>
      c.interaction == named[0].id
  }

  predicate ChildOk(s: State, c: Child) {
    LinkSound(s.interactions, c) && LinkComplete(s, c)
  }

  predicate Kept(s: State) {
    && Unique(s.interactions)
    && (forall k :: 0 <= k < |s.calls| ==> ChildOk(s, s.calls[k]))
    && forall k :: 0 <= k < |s.tools| ==> ChildOk(s, s.tools[k])
  }

  lemma {:induction false} NamedMembers(s: seq<Interaction>, session: string, upstream: string)
    ensures forall i :: i in Named(s, session, upstream) <==> i in s && Names(i, session, upstream)
  {
    if s != [] {
      NamedMembers(s[1..], session, upstream);
      assert s == [s[0]] + s[1..];
    }
  }

  lemma {:induction false} NamedNext(s: seq<Interaction>, i: Interaction, session: string, upstream: string)
    ensures Named(s + [i], session, upstream) ==
            Named(s, session, upstream) + if Names(i, session, upstream) then [i] else []
  {
    if s != [] {
      assert (s + [i])[1..] == s[1..] + [i];
      NamedNext(s[1..], i, session, upstream);
    } else {
      assert ([] + [i])[1..] == [];
    }
  }

  lemma {:induction false} ByUpstreamFinds(s: seq<Interaction>, source: string, session: string, upstream: string)
    ensures var r := ByUpstream(s, source, session, upstream);
            && (r.Some? ==> r.value in s && r.value.source == source && Names(r.value, session, upstream))
            && (r.None? ==> forall i :: i in s && i.source == source ==> !Names(i, session, upstream))
  {
    if s != [] {
      ByUpstreamFinds(s[1..], source, session, upstream);
      assert s == [s[0]] + s[1..];
    }
  }

  lemma {:induction false} BackfilledAt(children: seq<Child>, id: string, session: string, upstream: string, k: nat)
    requires k < |children|
    ensures |Backfilled(children, id, session, upstream)| == |children|
    ensures var c := children[k];
            Backfilled(children, id, session, upstream)[k] ==
            if c.interaction == "" && c.session == session && c.upstream == upstream then c.(interaction := id) else c
  {
    var init := children[..|children| - 1];
    BackfilledLength(init, id, session, upstream);
    if k < |init| {
      BackfilledAt(init, id, session, upstream, k);
    }
  }

  lemma {:induction false} BackfilledLength(children: seq<Child>, id: string, session: string, upstream: string)
    ensures |Backfilled(children, id, session, upstream)| == |children|
  {
    if children != [] {
      BackfilledLength(children[..|children| - 1], id, session, upstream);
    }
  }

  // ---- one step ----------------------------------------------------------------------------

  // A child recorded now is linked exactly as far as its parent is known.
  lemma ParentOk(s: State, event: string, source: string, session: string, upstream: string)
    requires Unique(s.interactions)
    ensures ChildOk(s, Child(event, session, upstream, Parent(s.interactions, source, session, upstream)))
  {
    ByUpstreamFinds(s.interactions, source, session, upstream);
    NamedMembers(s.interactions, session, upstream);
    var c := Child(event, session, upstream, Parent(s.interactions, source, session, upstream));
    var named := Named(s.interactions, session, upstream);
    var own := ByUpstream(s.interactions, source, session, upstream);
    if c.interaction != "" {
      var i := if own.Some? then own.value else named[0];
      assert i in named;
      var k :| 0 <= k < |s.interactions| && s.interactions[k] == i;
    }
    if |named| == 1 && own.Some? {
      assert own.value in named;
    }
  }

  // Later interactions of other names leave a child as complete as it was.
  lemma OtherNameOk(s: State, c: Child, i: Interaction, cut: set<Key>)
    requires ChildOk(s, c) && !Names(i, c.session, c.upstream)
    requires Key(c.session, c.upstream) in s.cut ==> Key(c.session, c.upstream) in cut
    ensures ChildOk(State(s.interactions + [i], s.calls, s.tools, cut), c)
  {
    NamedNext(s.interactions, i, c.session, c.upstream);
    SoundNext(s.interactions, c, i);
  }

  lemma SoundNext(s: seq<Interaction>, c: Child, i: Interaction)
    requires LinkSound(s, c)
    ensures LinkSound(s + [i], c)
  {
    if c.interaction != "" {
      var k :| 0 <= k < |s| && s[k].id == c.interaction && Names(s[k], c.session, c.upstream);
      assert (s + [i])[k] == s[k];
    }
  }

  // The root of a name: a sound child of an unambiguous name can only point at it.
  lemma RootIsOnly(s: seq<Interaction>, c: Child, root: Interaction)
    requires LinkSound(s, c) && root in s && Names(root, c.session, c.upstream)
    requires |Named(s, c.session, c.upstream)| == 1
    ensures Named(s, c.session, c.upstream)[0] == root
    ensures c.interaction != "" ==> c.interaction == root.id
  {
    NamedMembers(s, c.session, c.upstream);
    assert root in Named(s, c.session, c.upstream);
    if c.interaction != "" {
      var k :| 0 <= k < |s| && s[k].id == c.interaction && Names(s[k], c.session, c.upstream);
      assert s[k] in Named(s, c.session, c.upstream);
    }
  }

  // Backfilling a child of the delivered name links it soundly, and completely when
  // the name is unambiguous.
  lemma BackfilledOk(s: State, c: Child, root: Interaction)
    requires LinkSound(s.interactions, c) && root in s.interactions && root.id != ""
    requires Names(root, c.session, c.upstream)
    ensures ChildOk(s, if c.interaction == "" then c.(interaction := root.id) else c)
  {
    var d := if c.interaction == "" then c.(interaction := root.id) else c;
    if c.interaction == "" {
      var k :| 0 <= k < |s.interactions| && s.interactions[k] == root;
      assert LinkSound(s.interactions, d);
    }
    if |Named(s.interactions, c.session, c.upstream)| == 1 {
      RootIsOnly(s.interactions, d, root);
    }
  }

  lemma CutOk(s: State, c: Child)
    requires LinkSound(s.interactions, c)
    requires Key(c.session, c.upstream) in s.cut || |Named(s.interactions, c.session, c.upstream)| != 1
             || c.session == "" || c.upstream == ""
    ensures ChildOk(s, c)
  {
  }

  // The interactions after a delivery, and the delivered root.
  function Roots(s: State, source: string, session: string, upstream: string, id: string): (seq<Interaction>,
      Interaction) {
    match ByUpstream(s.interactions, source, session, upstream)
    case Some(i) => (s.interactions, i)
    case None =>
      var i := Interaction(id, source, session, upstream);
      (s.interactions + [i], i)
  }

  lemma RootsUnique(s: State, source: string, session: string, upstream: string, id: string)
    requires Unique(s.interactions) && id != "" && !HasInteractionId(s.interactions, id)
    ensures var (interactions, root) := Roots(s, source, session, upstream, id);
            && Unique(interactions) && root in interactions && root.id != "" && Names(root, session, upstream)
  {
    ByUpstreamFinds(s.interactions, source, session, upstream);
  }

  // A child after a delivery, before its backfill.
  lemma DeliveredChildSound(s: State, source: string, session: string, upstream: string, id: string, c: Child)
    requires LinkSound(s.interactions, c)
    ensures LinkSound(Roots(s, source, session, upstream, id).0, c)
  {
    SoundNext(s.interactions, c, Interaction(id, source, session, upstream));
  }

  // Either kind of child after a delivery: `filled` says whether its backfill ran.
  lemma DeliveredChildOk(s: State, source: string, session: string, upstream: string, id: string, reach: Reach,
                         c: Child, filled: bool)
    requires Unique(s.interactions) && id != "" && !HasInteractionId(s.interactions, id) && ChildOk(s, c)
    requires var (interactions, _) := Roots(s, source, session, upstream, id);
             session != "" && upstream != "" && reach.Finished? && |Named(interactions, session, upstream)| == 1 ==>
                   filled
    ensures var after := Delivered(s, source, session, upstream, id, reach);
            var root := Roots(s, source, session, upstream, id).1;
            ChildOk(after, if filled && c.interaction == "" && c.session == session && c.upstream == upstream
                           then c.(interaction := root.id) else c)
  {
    hide LinkSound;
    hide LinkComplete;
    hide Unique;
    hide Named;
    hide ByUpstream;
    hide HasInteractionId;
    var after := Delivered(s, source, session, upstream, id, reach);
    var (interactions, root) := Roots(s, source, session, upstream, id);
    RootsUnique(s, source, session, upstream, id);
    DeliveredChildSound(s, source, session, upstream, id, c);
    if Names(root, c.session, c.upstream) {
      if filled {
        BackfilledOk(after, c, root);
      } else {
        CutOk(after, c);
      }
    } else if interactions == s.interactions {
      SameNamesOk(s, after, c);
    } else {
      OtherNameOk(s, c, root, after.cut);
      SameNamesOk(State(interactions, s.calls, s.tools, after.cut), after, c);
    }
  }

  lemma SameNamesOk(s: State, after: State, c: Child)
    requires ChildOk(s, c) && after.interactions == s.interactions
    requires Key(c.session, c.upstream) in s.cut ==> Key(c.session, c.upstream) in after.cut
    ensures ChildOk(after, c)
  {
  }

  predicate AllOk(s: State, children: seq<Child>) {
    forall k :: 0 <= k < |children| ==> ChildOk(s, children[k])
  }

  lemma DeliveredChildrenOk(s: State, source: string, session: string, upstream: string, id: string, reach: Reach,
                            children: seq<Child>, filled: bool)
    requires Unique(s.interactions) && id != "" && !HasInteractionId(s.interactions, id) && AllOk(s, children)
    requires var (interactions, _) := Roots(s, source, session, upstream, id);
             session != "" && upstream != "" && reach.Finished? && |Named(interactions, session, upstream)| == 1 ==>
                   filled
    ensures var after := Delivered(s, source, session, upstream, id, reach);
            var root := Roots(s, source, session, upstream, id).1;
            AllOk(after, if filled then Backfilled(children, root.id, session, upstream) else children)
  {
    hide ChildOk;
    hide Unique;
    hide Named;
    hide HasInteractionId;
    hide Delivered;
    hide Roots;
    var root := Roots(s, source, session, upstream, id).1;
    BackfilledLength(children, root.id, session, upstream);
    var now := if filled then Backfilled(children, root.id, session, upstream) else children;
    forall k | 0 <= k < |now| ensures ChildOk(Delivered(s, source, session, upstream, id, reach), now[k]) {
      DeliveredChildOk(s, source, session, upstream, id, reach, children[k], filled);
      BackfilledAt(children, root.id, session, upstream, k);
    }
  }

  lemma DeliverKeeps(s: State, source: string, session: string, upstream: string, id: string, reach: Reach)
    requires Kept(s) && id != "" && !HasInteractionId(s.interactions, id)
    ensures Kept(Delivered(s, source, session, upstream, id, reach))
  {
    hide ChildOk;
    hide Unique;
    hide Named;
    hide HasInteractionId;
    hide ByUpstream;
    hide Backfilled;
    var (interactions, root) := Roots(s, source, session, upstream, id);
    var keyed := session != "" && upstream != "";
    RootsUnique(s, source, session, upstream, id);
    DeliveredChildrenOk(s, source, session, upstream, id, reach, s.calls, keyed && !reach.Inserted?);
    DeliveredChildrenOk(s, source, session, upstream, id, reach, s.tools,
                        keyed && reach.Finished? && |Named(interactions, session, upstream)| == 1);
  }

  lemma RecordKeeps(s: State, event: string, source: string, session: string, upstream: string)
    requires Kept(s)
    ensures var c := Child(event, session, upstream, Parent(s.interactions, source, session, upstream));
            Kept(s.(calls := s.calls + [c])) && Kept(s.(tools := s.tools + [c]))
  {
    hide Unique;
    hide LinkSound;
    hide Named;
    var c := Child(event, session, upstream, Parent(s.interactions, source, session, upstream));
    ParentOk(s, event, source, session, upstream);
    var a, b := s.(calls := s.calls + [c]), s.(tools := s.tools + [c]);
    assert forall d :: ChildOk(s, d) ==> ChildOk(a, d) && ChildOk(b, d);
  }

  lemma StepKeeps(s: State, op: Op)
    requires Kept(s)
    ensures Kept(Step(s, op))
  {
    hide Kept;
    hide Delivered;
    hide Parent;
    hide HasEvent;
    hide HasInteractionId;
    hide TrimSpace;
    match op
    case Deliver(source, session, upstream, id, accepted, reach) =>
      if Step(s, op) != s { DeliverKeeps(s, source, session, upstream, id, reach); }
    case RecordCall(event, source, session, upstream, accepted) => RecordKeeps(s, event, source, session, upstream);
    case RecordTool(event, source, session, upstream, accepted) => RecordKeeps(s, event, source, session, upstream);
  }

  lemma {:induction false} RunKeeps(ops: seq<Op>)
    ensures Kept(Run(EMPTY, ops))
  {
    hide Kept;
    hide Step;
    if ops == [] {
      EmptyKept();
    } else {
      RunKeeps(ops[..|ops| - 1]);
      StepKeeps(Run(EMPTY, ops[..|ops| - 1]), ops[|ops| - 1]);
    }
  }

  lemma EmptyKept()
    ensures Kept(EMPTY)
  {
  }

  // ---- main results --------------------------------------------------------------------------

  predicate Recorded(s: State, c: Child) {
    c in s.calls || c in s.tools
  }

  // Whatever the order of arrival, a link joins equal session and upstream ids.
  lemma LinksJoinEqualIds(ops: seq<Op>, c: Child)
    requires Recorded(Run(EMPTY, ops), c) && c.interaction != ""
    ensures exists i :: i in Run(EMPTY, ops).interactions && i.id == c.interaction && Names(i, c.session, c.upstream)
  {
    hide Run;
    RunKeeps(ops);
    var s := Run(EMPTY, ops);
    assert ChildOk(s, c);
    var k :| 0 <= k < |s.interactions| && s.interactions[k].id == c.interaction
        && Names(s.interactions[k], c.session, c.upstream);
    assert s.interactions[k] in s.interactions;
  }

  lemma KeptLinksExactly(s: State, c: Child)
    requires Kept(s) && Recorded(s, c) && c.session != "" && c.upstream != "" && Key(c.session, c.upstream) !in s.cut
    requires |Named(s.interactions, c.session, c.upstream)| <= 1
    ensures var named := Named(s.interactions, c.session, c.upstream);
            && (c.interaction != "" <==> named != [])
            && (named != [] ==> c.interaction == named[0].id)
  {
    assert ChildOk(s, c);
    NamedMembers(s.interactions, c.session, c.upstream);
    var named := Named(s.interactions, c.session, c.upstream);
    if c.interaction != "" {
      var k :| 0 <= k < |s.interactions| && s.interactions[k].id == c.interaction
          && Names(s.interactions[k], c.session, c.upstream);
      assert s.interactions[k] in named;
    }
    if named != [] {
      assert named[0] in named;
      NamedIds(s.interactions, named[0]);
    }
  }

  // Main result: where a session and upstream id name at most one interaction, and
  // the last delivery of that name ran to its end, every model or tool call with
  // that name is linked exactly when the interaction exists, and to it.
  lemma LinkedExactly(ops: seq<Op>, c: Child)
    requires var s := Run(EMPTY, ops);
             && Recorded(s, c) && c.session != "" && c.upstream != "" && Key(c.session, c.upstream) !in s.cut
             && |Named(s.interactions, c.session, c.upstream)| <= 1
    ensures var named := Named(Run(EMPTY, ops).interactions, c.session, c.upstream);
            && (c.interaction != "" <==> named != [])
            && (named != [] ==> c.interaction == named[0].id)
  {
    hide Run;
    hide Kept;
    hide Recorded;
    RunKeeps(ops);
    KeptLinksExactly(Run(EMPTY, ops), c);
  }

  lemma NamedIds(s: seq<Interaction>, i: Interaction)
    requires Unique(s) && i in s
    ensures i.id != ""
  {
  }

  // A link, once set, is never moved or cleared.
  lemma LinksStay(s: State, op: Op, k: nat)
    ensures k < |s.calls| && s.calls[k].interaction != "" ==>
              k < |Step(s, op).calls| && Step(s, op).calls[k] == s.calls[k]
    ensures k < |s.tools| && s.tools[k].interaction != "" ==>
              k < |Step(s, op).tools| && Step(s, op).tools[k] == s.tools[k]
  {
    hide Named;
    hide Backfilled;
    hide ByUpstream;
    hide HasEvent;
    hide HasInteractionId;
    hide TrimSpace;
    hide Parent;
    if op.Deliver? {
      var existing := ByUpstream(s.interactions, op.source, op.session, op.upstream);
      var root := if existing.Some? then existing.value.id else op.id;
      if k < |s.calls| { BackfilledAt(s.calls, root, op.session, op.upstream, k); }
      if k < |s.tools| { BackfilledAt(s.tools, root, op.session, op.upstream, k); }
    }
  }

  lemma RunNext(s: State, ops: seq<Op>, op: Op)
    ensures Run(s, ops + [op]) == Step(Run(s, ops), op)
  {
    hide Step;
    assert (ops + [op])[..|ops|] == ops;
  }

  // ---- when the order of arrival matters ------------------------------------------------------

  // A delivery the store takes for a session and upstream id.
  predicate Brings(op: Op, session: string, upstream: string) {
    && op.Deliver? && op.accepted && TrimSpace(op.source) != "" && TrimSpace(op.upstream) != ""
    && op.session == session && op.upstream == upstream
  }

  predicate Takes(op: Op) {
    (op.RecordCall? && op.accepted) || (op.RecordTool? && op.accepted && TrimSpace(op.rawEventId) != "")
  }

  // Deliveries run to their end under ids of their own.
  predicate Finishing(ops: seq<Op>) {
    && (forall o :: o in ops && o.Deliver? ==> o.reach.Finished? && o.id != "")
    && forall o, p :: o in ops && p in ops && o.Deliver? && p.Deliver? && o != p ==> o.id != p.id
  }

  // One model or tool call, the only one of its kind for its event.
  predicate Sole(ops: seq<Op>, c: Op) {
    && c in ops && Takes(c)
    && forall o :: o in ops && Takes(o) && o.RecordTool? == c.RecordTool? && o.rawEventId == c.rawEventId ==> o == c
  }

  function SourcesOf(ops: seq<Op>, session: string, upstream: string): set<string> {
    set k | 0 <= k < |ops| && Brings(ops[k], session, upstream) :: ops[k].source
  }

  function Children(s: State, tool: bool): seq<Child> {
    if tool then s.tools else s.calls
  }

  function SourceOf(s: seq<Interaction>, id: string): string {
    if s == [] then "" else if s[0].id == id then s[0].source else SourceOf(s[1..], id)
  }

  function LinkOf(children: seq<Child>, rawEventId: string): string {
    if children == [] then ""
    else if children[0].rawEventId == rawEventId then children[0].interaction
    else LinkOf(children[1..], rawEventId)
  }

  // The source of the prompt a call ends up under; empty while it has none.
  function Origin(s: State, c: Op): string
    requires c.RecordCall? || c.RecordTool?
  {
    SourceOf(s.interactions, LinkOf(Children(s, c.RecordTool?), c.rawEventId))
  }

  // ---- two sources with one name: the first delivery wins -------------------------------------

  lemma NothingNamed(source: string, session: string, upstream: string)
    ensures ByUpstream([], source, session, upstream) == None && Named([], session, upstream) == []
  {
  }

  lemma OneInteraction(i: Interaction, source: string, session: string, upstream: string)
    ensures ByUpstream([i], source, session, upstream) ==
            if i.source == source && Names(i, session, upstream) then Some(i) else None
    ensures Names(i, session, upstream) ==> Named([i], session, upstream) == [i]
  {
    assert [i][1..] == [];
  }

  function Alone(child: Child, tool: bool): State {
    if tool then State([], [], [child], {}) else State([], [child], [], {})
  }

  lemma CallAlone(c: Op)
    requires Takes(c)
    ensures Step(EMPTY, c) == Alone(Child(c.rawEventId, c.session, c.upstream, ""), c.RecordTool?)
  {
    hide TrimSpace;
    NothingNamed(c.source, c.session, c.upstream);
  }

  lemma FirstDelivery(child: Child, tool: bool, a: Op)
    requires child.session != "" && child.upstream != "" && child.interaction == ""
             && Brings(a, child.session, child.upstream)
    requires a.reach.Finished? && a.id != ""
    ensures var s := Step(Alone(child, tool), a);
            && s.interactions == [Interaction(a.id, a.source, a.session, a.upstream)]
            && Children(s, tool) == [child.(interaction := a.id)]
  {
    hide TrimSpace;
    hide Named;
    hide ByUpstream;
    hide Backfilled;
    var i := Interaction(a.id, a.source, a.session, a.upstream);
    NothingNamed(a.source, a.session, a.upstream);
    OneInteraction(i, a.source, a.session, a.upstream);
    assert [] + [i] == [i];
    BackfilledAt([child], a.id, a.session, a.upstream, 0);
  }

  lemma CallThenFirst(c: Op, a: Op)
    requires Takes(c) && c.session != "" && c.upstream != "" && Brings(a, c.session, c.upstream)
    requires a.reach.Finished? && a.id != ""
    ensures var s := Step(Step(EMPTY, c), a);
            && s.interactions == [Interaction(a.id, a.source, a.session, a.upstream)]
            && Children(s, c.RecordTool?) == [Child(c.rawEventId, c.session, c.upstream, a.id)]
  {
    hide Step;
    hide Brings;
    hide TrimSpace;
    CallAlone(c);
    FirstDelivery(Child(c.rawEventId, c.session, c.upstream, ""), c.RecordTool?, a);
  }

  lemma InteractionsStay(s: State, op: Op)
    ensures s.interactions <= Step(s, op).interactions
  {
    hide TrimSpace;
    hide Backfilled;
    hide Named;
    hide Parent;
  }

  // What the first two arrivals fix stays fixed.
  lemma {:induction false} FirstStays(c: Op, a: Op, rest: seq<Op>)
    requires Takes(c) && c.session != "" && c.upstream != "" && Brings(a, c.session, c.upstream)
    requires a.reach.Finished? && a.id != ""
    ensures var s := Run(EMPTY, [c, a] + rest);
            && s.interactions != [] && s.interactions[0] == Interaction(a.id, a.source, a.session, a.upstream)
            && Children(s, c.RecordTool?) != []
            && Children(s, c.RecordTool?)[0] == Child(c.rawEventId, c.session, c.upstream, a.id)
  {
    hide Step;
    hide Takes;
    hide Brings;
    if rest == [] {
      assert [c, a] + rest == ([] + [c]) + [a];
      RunNext(EMPTY, [], c);
      RunNext(EMPTY, [] + [c], a);
      CallThenFirst(c, a);
    } else {
      var init, op := rest[..|rest| - 1], rest[|rest| - 1];
      FirstStays(c, a, init);
      assert [c, a] + rest == ([c, a] + init) + [op];
      RunNext(EMPTY, [c, a] + init, op);
      LinksStay(Run(EMPTY, [c, a] + init), op, 0);
      InteractionsStay(Run(EMPTY, [c, a] + init), op);
    }
  }

  // A call that arrives first belongs to whichever source delivers next.
  lemma FirstDeliveryWins(c: Op, a: Op, rest: seq<Op>)
    requires Takes(c) && c.session != "" && c.upstream != "" && Brings(a, c.session, c.upstream)
    requires a.reach.Finished? && a.id != ""
    ensures Origin(Run(EMPTY, [c, a] + rest), c) == a.source
  {
    hide Run;
    FirstStays(c, a, rest);
  }

  lemma ToFront(ops: seq<Op>, o: Op) returns (r: seq<Op>)
    requires o in ops
    ensures multiset([o] + r) == multiset(ops)
    ensures forall p :: p in ops && p != o ==> p in r
  {
    var k :| 0 <= k < |ops| && ops[k] == o;
    r := ops[..k] + ops[k + 1..];
    assert ops == ops[..k] + [o] + ops[k + 1..];
  }

  lemma LeadWith(ops: seq<Op>, c: Op, a: Op) returns (r: seq<Op>)
    requires c in ops && a in ops && c != a
    ensures multiset([c, a] + r) == multiset(ops)
  {
    var tail := ToFront(ops, c);
    r := ToFront(tail, a);
    assert [c, a] + r == [c] + ([a] + r);
  }

  // ---- one source or none: the order does not matter -------------------------------------------

  predicate BroughtBy(ops: seq<Op>, i: Interaction) {
    exists o :: o in ops && Brings(o, i.session, i.upstream) && o.source == i.source && o.id == i.id
  }

  predicate AllBrought(s: seq<Interaction>, ops: seq<Op>) {
    forall i :: i in s ==> BroughtBy(ops, i)
  }

  predicate AllRooted(s: seq<Interaction>, ops: seq<Op>) {
    forall o :: o in ops && o.Deliver? && Brings(o, o.session, o.upstream) ==> HasRoot(s, o)
  }

  // Every interaction was brought, and what was brought is there.
  predicate Brought(s: State, ops: seq<Op>) {
    s.cut == {} && AllBrought(s.interactions, ops) && AllRooted(s.interactions, ops)
  }

  predicate HasRoot(s: seq<Interaction>, o: Op)
    requires o.Deliver?
  {
    exists i :: i in s && i.source == o.source && Names(i, o.session, o.upstream)
  }

  lemma IdIsOwn(s: State, ops: seq<Op>, o: Op)
    requires Finishing(ops + [o]) && Brought(s, ops) && o.Deliver? && HasInteractionId(s.interactions, o.id)
    ensures Brings(o, o.session, o.upstream) ==> HasRoot(s.interactions, o)
  {
    hide TrimSpace;
    var k :| 0 <= k < |s.interactions| && s.interactions[k].id == o.id;
    var i := s.interactions[k];
    assert i in s.interactions;
    assert BroughtBy(ops, i);
    var p :| p in ops && Brings(p, i.session, i.upstream) && p.source == i.source && p.id == i.id;
    assert p in ops + [o] && o in ops + [o];
    assert p == o;
  }

  // A step leaves the interactions, or adds the one it brings.
  lemma StepInteractions(s: State, o: Op)
    ensures var t := Step(s, o);
            || t.interactions == s.interactions
            || (o.Deliver? && Brings(o, o.session, o.upstream)
                && t.interactions == s.interactions + [Interaction(o.id, o.source, o.session, o.upstream)])
    ensures o.Deliver? && Brings(o, o.session, o.upstream) && o.id != "" && !HasInteractionId(s.interactions, o.id)
              && ByUpstream(s.interactions, o.source, o.session, o.upstream).None?
            ==> Step(s, o).interactions == s.interactions + [Interaction(o.id, o.source, o.session, o.upstream)]
    ensures (o.Deliver? ==> o.reach.Finished? && s.cut == {}) ==> Step(s, o).cut == s.cut
  {
    hide TrimSpace;
    hide Named;
    hide Backfilled;
    hide ByUpstream;
    hide HasInteractionId;
    hide Parent;
  }

  // A delivery, taken or repeated, finds its root afterwards.
  lemma StepRoots(s: State, ops: seq<Op>, o: Op)
    requires Brought(s, ops) && Finishing(ops + [o]) && o.Deliver? && Brings(o, o.session, o.upstream)
    ensures HasRoot(Step(s, o).interactions, o)
  {
    hide Step;
    hide Brings;
    hide ByUpstream;
    hide HasInteractionId;
    StepInteractions(s, o);
    ByUpstreamFinds(s.interactions, o.source, o.session, o.upstream);
    assert o in ops + [o];
    if HasInteractionId(s.interactions, o.id) { IdIsOwn(s, ops, o); }
    if HasRoot(s.interactions, o) {
      RootsStay(s.interactions, Step(s, o).interactions, o);
    } else {
      assert Interaction(o.id, o.source, o.session, o.upstream) in Step(s, o).interactions;
    }
  }

  lemma RootsStay(s: seq<Interaction>, t: seq<Interaction>, o: Op)
    requires o.Deliver? && HasRoot(s, o) && s <= t
    ensures HasRoot(t, o)
  {
    var i :| i in s && i.source == o.source && Names(i, o.session, o.upstream);
    assert i in t;
  }

  lemma BroughtByMore(ops: seq<Op>, o: Op, i: Interaction)
    requires BroughtBy(ops, i)
    ensures BroughtBy(ops + [o], i)
  {
    hide TrimSpace;
    var p :| p in ops && Brings(p, i.session, i.upstream) && p.source == i.source && p.id == i.id;
    assert p in ops + [o];
  }

  lemma StepBrings(s: State, ops: seq<Op>, o: Op)
    requires Brought(s, ops) && Finishing(ops + [o])
    ensures Brought(Step(s, o), ops + [o])
  {
    hide Step;
    hide HasRoot;
    hide Brings;
    hide BroughtBy;
    hide ByUpstream;
    hide HasInteractionId;
    assert o in ops + [o];
    StepInteractions(s, o);
    var t := Step(s, o).interactions;
    assert s.interactions <= t;
    forall i | i in t ensures BroughtBy(ops + [o], i) {
      if i in s.interactions {
        BroughtByMore(ops, o, i);
      } else {
        BringsOwn(ops, o);
      }
    }
    forall p | p in ops + [o] && p.Deliver? && Brings(p, p.session, p.upstream) ensures HasRoot(t, p) {
      if p in ops {
        RootsStay(s.interactions, t, p);
      } else {
        StepRoots(s, ops, o);
      }
    }
  }

  lemma BringsOwn(ops: seq<Op>, o: Op)
    requires o.Deliver? && Brings(o, o.session, o.upstream)
    ensures BroughtBy(ops + [o], Interaction(o.id, o.source, o.session, o.upstream))
  {
    assert o in ops + [o];
  }

  lemma {:induction false} RunBrings(ops: seq<Op>)
    requires Finishing(ops)
    ensures Brought(Run(EMPTY, ops), ops)
  {
    hide Step;
    hide Brings;
    if ops != [] {
      var init := ops[..|ops| - 1];
      assert ops == init + [ops[|ops| - 1]];
      RunBrings(init);
      StepBrings(Run(EMPTY, init), init, ops[|ops| - 1]);
    }
  }

  lemma {:induction false} NoneNamed(s: seq<Interaction>, session: string, upstream: string)
    requires forall k :: 0 <= k < |s| ==> !Names(s[k], session, upstream)
    ensures Named(s, session, upstream) == []
  {
    if s != [] {
      NoneNamed(s[1..], session, upstream);
    }
  }

  // A name that only one source uses names one interaction.
  lemma {:induction false} NamedByOne(s: seq<Interaction>, session: string, upstream: string, source: string)
    requires Unique(s)
    requires forall k :: 0 <= k < |s| && Names(s[k], session, upstream) ==> s[k].source == source
    ensures |Named(s, session, upstream)| <= 1
  {
    if s != [] {
      if Names(s[0], session, upstream) {
        NoneNamed(s[1..], session, upstream);
      } else {
        NamedByOne(s[1..], session, upstream, source);
      }
    }
  }

  // The child of a sole call is in its table, with its keys.
  predicate HasChild(s: State, c: Op)
    requires c.RecordCall? || c.RecordTool?
  {
    HasEvent(Children(s, c.RecordTool?), c.rawEventId)
  }

  predicate ChildrenOf(s: State, c: Op)
    requires c.RecordCall? || c.RecordTool?
  {
    forall k :: 0 <= k < |Children(s, c.RecordTool?)| && Children(s, c.RecordTool?)[k].rawEventId == c.rawEventId ==>
      Children(s, c.RecordTool?)[k].session == c.session && Children(s, c.RecordTool?)[k].upstream == c.upstream
  }

  // A delivery only sets links.
  lemma DeliveryKeepsChildren(s: State, o: Op, tool: bool)
    requires o.Deliver?
    ensures |Children(Step(s, o), tool)| == |Children(s, tool)|
    ensures forall k :: 0 <= k < |Children(s, tool)| ==>
              Children(Step(s, o), tool)[k].(interaction := "") == Children(s, tool)[k].(interaction := "")
  {
    hide TrimSpace;
    hide Named;
    hide Backfilled;
    hide ByUpstream;
    hide HasInteractionId;
    var children := Children(s, tool);
    var existing := ByUpstream(s.interactions, o.source, o.session, o.upstream);
    var root := if existing.Some? then existing.value.id else o.id;
    BackfilledLength(children, root, o.session, o.upstream);
    forall k: nat | k < |children|
      ensures Backfilled(children, root, o.session, o.upstream)[k].(interaction := "") ==
              children[k].(interaction := "")
    {
      BackfilledAt(children, root, o.session, o.upstream, k);
    }
  }

  lemma StepChildren(s: State, o: Op, c: Op)
    requires Takes(c) && ChildrenOf(s, c)
    requires Takes(o) && o.RecordTool? == c.RecordTool? && o.rawEventId == c.rawEventId ==> o == c
    ensures ChildrenOf(Step(s, o), c)
    ensures HasChild(s, c) || o == c ==> HasChild(Step(s, o), c)
  {
    hide TrimSpace;
    hide Parent;
    hide Delivered;
    hide HasInteractionId;
    var tool := c.RecordTool?;
    var before, after := Children(s, tool), Children(Step(s, o), tool);
    if o.Deliver? { DeliveryKeepsChildren(s, o, tool); }
    if HasChild(s, c) {
      var k :| 0 <= k < |before| && before[k].rawEventId == c.rawEventId;
      assert after[k].(interaction := "") == before[k].(interaction := "");
      assert after[k].rawEventId == c.rawEventId;
    } else if o == c {
      assert after[|before|].rawEventId == c.rawEventId;
    }
  }

  lemma {:induction false} RunChildren(ops: seq<Op>, c: Op)
    requires Takes(c)
    requires forall o :: o in ops && Takes(o) && o.RecordTool? == c.RecordTool? && o.rawEventId == c.rawEventId ==>
               o == c
    ensures ChildrenOf(Run(EMPTY, ops), c) && (c in ops ==> HasChild(Run(EMPTY, ops), c))
  {
    hide Step;
    hide Takes;
    hide HasChild;
    if ops != [] {
      var init := ops[..|ops| - 1];
      assert ops == init + [ops[|ops| - 1]];
      RunChildren(init, c);
      StepChildren(Run(EMPTY, init), ops[|ops| - 1], c);
    }
  }

  lemma {:induction false} LinkOfFinds(children: seq<Child>, rawEventId: string)
    requires HasEvent(children, rawEventId)
    ensures exists k ::
              0 <= k < |children| && children[k].rawEventId == rawEventId
              && children[k].interaction == LinkOf(children, rawEventId)
  {
    if children[0].rawEventId != rawEventId {
      var j :| 0 <= j < |children| && children[j].rawEventId == rawEventId;
      assert children[1..][j - 1] == children[j];
      LinkOfFinds(children[1..], rawEventId);
      var k :| 0 <= k < |children[1..]| && children[1..][k].rawEventId == rawEventId
               && children[1..][k].interaction == LinkOf(children[1..], rawEventId);
      assert children[k + 1] == children[1..][k];
    }
  }

  lemma {:induction false} SourceOfFinds(s: seq<Interaction>, i: Interaction)
    requires Unique(s) && i in s
    ensures SourceOf(s, i.id) == i.source
  {
    if s[0] != i {
      var k :| 0 <= k < |s| && s[k] == i;
      assert s[1..][k - 1] == i && s[0].id != s[k].id;
      SourceOfFinds(s[1..], i);
    }
  }

  lemma {:induction false} NoSource(s: seq<Interaction>)
    requires Unique(s)
    ensures SourceOf(s, "") == ""
  {
    if s != [] {
      assert s[0].id != "";
      NoSource(s[1..]);
    }
  }

  lemma SourcesBring(ops: seq<Op>, session: string, upstream: string, source: string)
    ensures source in SourcesOf(ops, session, upstream) <==>
            exists o :: o in ops && Brings(o, session, upstream) && o.source == source
  {
    hide Brings;
    if source in SourcesOf(ops, session, upstream) {
      var k :| 0 <= k < |ops| && Brings(ops[k], session, upstream) && ops[k].source == source;
      assert ops[k] in ops;
    }
  }

  // The sources of a name are those of the interactions it names.
  lemma SourcesNamed(ops: seq<Op>, session: string, upstream: string, source: string)
    requires Finishing(ops)
    ensures source in SourcesOf(ops, session, upstream) <==>
            exists i :: i in Run(EMPTY, ops).interactions && Names(i, session, upstream) && i.source == source
  {
    hide Run;
    hide Finishing;
    hide TrimSpace;
    RunBrings(ops);
    SourcesBring(ops, session, upstream, source);
    var s := Run(EMPTY, ops);
    if source in SourcesOf(ops, session, upstream) {
      var o :| o in ops && Brings(o, session, upstream) && o.source == source;
      assert HasRoot(s.interactions, o);
    }
  }

  // The origin of a linked child whose name names at most one interaction.
  lemma OriginNamed(s: State, c: Op)
    requires (c.RecordCall? || c.RecordTool?) && c.session != "" && c.upstream != ""
    requires Kept(s) && s.cut == {} && HasChild(s, c) && ChildrenOf(s, c)
    requires |Named(s.interactions, c.session, c.upstream)| <= 1
    ensures var named := Named(s.interactions, c.session, c.upstream);
            Origin(s, c) == if named == [] then "" else named[0].source
  {
    hide ChildOk;
    var children := Children(s, c.RecordTool?);
    LinkOfFinds(children, c.rawEventId);
    var k :| 0 <= k < |children| && children[k].rawEventId == c.rawEventId
        && children[k].interaction == LinkOf(children, c.rawEventId);
    KeptLinksExactly(s, children[k]);
    NamedMembers(s.interactions, c.session, c.upstream);
    var named := Named(s.interactions, c.session, c.upstream);
    if named == [] {
      NoSource(s.interactions);
    } else {
      assert named[0] in named;
      SourceOfFinds(s.interactions, named[0]);
    }
  }

  // A call under a name of one source belongs to that source, and to none
  // without one.
  lemma OnlyOrigin(ops: seq<Op>, c: Op, source: string)
    requires Finishing(ops) && Sole(ops, c) && c.session != "" && c.upstream != ""
    requires SourcesOf(ops, c.session, c.upstream) <= {source}
    ensures Origin(Run(EMPTY, ops), c) == if SourcesOf(ops, c.session, c.upstream) == {} then "" else source
  {
    hide Run;
    hide Origin;
    hide HasChild;
    hide ChildrenOf;
    hide Kept;
    hide SourcesOf;
    hide Finishing;
    hide TrimSpace;
    hide Named;
    hide AllBrought;
    hide AllRooted;
    var s := Run(EMPTY, ops);
    RunKeeps(ops);
    RunBrings(ops);
    RunChildren(ops, c);
    NamedBySources(ops, c.session, c.upstream, source);
    OriginNamed(s, c);
  }

  // What a name of at most one source names.
  lemma NamedBySources(ops: seq<Op>, session: string, upstream: string, source: string)
    requires Finishing(ops) && SourcesOf(ops, session, upstream) <= {source}
    ensures var named := Named(Run(EMPTY, ops).interactions, session, upstream);
            |named| <= 1 && (named == [] <==> SourcesOf(ops, session, upstream) == {})
            && (named != [] ==> named[0].source == source)
  {
    hide Run;
    hide SourcesOf;
    hide Finishing;
    hide Kept;
    hide Named;
    var s := Run(EMPTY, ops);
    var named := Named(s.interactions, session, upstream);
    forall i | i in s.interactions && Names(i, session, upstream) ensures i.source == source {
      SourcesNamed(ops, session, upstream, i.source);
    }
    SourcesNamed(ops, session, upstream, source);
    NamedMembers(s.interactions, session, upstream);
    RunKeeps(ops);
    NamedOnce(s, session, upstream, source);
    if named != [] {
      assert named[0] in named;
    }
  }

  lemma NamedOnce(s: State, session: string, upstream: string, source: string)
    requires Kept(s) && forall i :: i in s.interactions && Names(i, session, upstream) ==> i.source == source
    ensures |Named(s.interactions, session, upstream)| <= 1
  {
    hide ChildOk;
    NamedByOne(s.interactions, session, upstream, source);
  }

  ghost predicate EndsElsewhere(ops: seq<Op>, c: Op, other: seq<Op>)
    requires c.RecordCall? || c.RecordTool?
  {
    multiset(other) == multiset(ops) && Origin(Run(EMPTY, other), c) != Origin(Run(EMPTY, ops), c)
  }

  lemma SameMembers(ops: seq<Op>, other: seq<Op>)
    requires multiset(other) == multiset(ops)
    ensures forall o :: o in other <==> o in ops
  {
    forall o ensures o in other <==> o in ops {
      assert o in other <==> o in multiset(other);
      assert o in ops <==> o in multiset(ops);
    }
  }

  lemma SameSources(ops: seq<Op>, other: seq<Op>, session: string, upstream: string)
    requires forall o :: o in other <==> o in ops
    ensures SourcesOf(other, session, upstream) == SourcesOf(ops, session, upstream)
  {
    forall source ensures source in SourcesOf(other, session, upstream)
        <==> source in SourcesOf(ops, session, upstream) {
      SourcesBring(ops, session, upstream, source);
      SourcesBring(other, session, upstream, source);
    }
  }

  // Two sources: of the two orders that begin with the call and one delivery, at
  // least one ends elsewhere.
  lemma TwoSourcesCompete(ops: seq<Op>, c: Op, x: string, y: string) returns (other: seq<Op>)
    requires Finishing(ops) && Sole(ops, c) && c.session != "" && c.upstream != "" && x != y
    requires x in SourcesOf(ops, c.session, c.upstream) && y in SourcesOf(ops, c.session, c.upstream)
    ensures EndsElsewhere(ops, c, other)
  {
    hide Origin;
    hide Run;
    hide SourcesOf;
    hide TrimSpace;
    SourcesBring(ops, c.session, c.upstream, x);
    SourcesBring(ops, c.session, c.upstream, y);
    var a :| a in ops && Brings(a, c.session, c.upstream) && a.source == x;
    var b :| b in ops && Brings(b, c.session, c.upstream) && b.source == y;
    var r1 := LeadWith(ops, c, a);
    var r2 := LeadWith(ops, c, b);
    FirstDeliveryWins(c, a, r1);
    FirstDeliveryWins(c, b, r2);
    other := if Origin(Run(EMPTY, ops), c) == x then [c, b] + r2 else [c, a] + r1;
  }

  lemma OneSourceSettles(ops: seq<Op>, c: Op, other: seq<Op>, source: string)
    requires Finishing(ops) && Sole(ops, c) && c.session != "" && c.upstream != ""
    requires SourcesOf(ops, c.session, c.upstream) <= {source} && multiset(other) == multiset(ops)
    ensures !EndsElsewhere(ops, c, other)
  {
    hide Origin;
    hide Run;
    hide SourcesOf;
    hide Takes;
    SameMembers(ops, other);
    SameSources(ops, other, c.session, c.upstream);
    OnlyOrigin(ops, c, source);
    OnlyOrigin(other, c, source);
  }

  // Main result, for model and tool calls alike: some order of the same arrivals
  // would have put a call under another source's prompt, or under none, exactly
  // when two sources use its session and upstream id.
  lemma OrderMattersExactly(ops: seq<Op>, c: Op)
    requires Finishing(ops) && Sole(ops, c) && c.session != "" && c.upstream != ""
    ensures (exists other :: EndsElsewhere(ops, c, other))
            <==> exists x, y ::
                  x in SourcesOf(ops, c.session, c.upstream) && y in SourcesOf(ops, c.session, c.upstream)
                  && x != y
  {
    hide Origin;
    hide Run;
    hide SourcesOf;
    hide Finishing;
    var sources := SourcesOf(ops, c.session, c.upstream);
    if x, y :| x in sources && y in sources && x != y {
      var other := TwoSourcesCompete(ops, c, x, y);
    } else {
      var source := if sources == {} then "" else var x :| x in sources; x;
      forall other | multiset(other) == multiset(ops) ensures !EndsElsewhere(ops, c, other) {
        OneSourceSettles(ops, c, other, source);
      }
    }
  }

  // Two sources with one name, and a call of either kind and of any source.
  lemma AmbiguousNamesDependOnOrder(source: string, tool: bool)
    ensures var a, b := Deliver("a", "s", "u", "i", true, Finished), Deliver("b", "s", "u", "j", true, Finished);
            var c := if tool then RecordTool("e", source, "s", "u", true) else RecordCall("e", source, "s", "u", true);
            && Origin(Run(EMPTY, [c, a, b]), c) == "a"
            && Origin(Run(EMPTY, [c, b, a]), c) == "b"
  {
    hide Origin;
    var a, b := Deliver("a", "s", "u", "i", true, Finished), Deliver("b", "s", "u", "j", true, Finished);
    var c := if tool then RecordTool("e", source, "s", "u", true) else RecordCall("e", source, "s", "u", true);
    assert TrimSpace("a") == "a" && TrimSpace("b") == "b" && TrimSpace("u") == "u" && TrimSpace("e") == "e";
    FirstDeliveryWins(c, a, [b]);
    FirstDeliveryWins(c, b, [a]);
    assert [c, a] + [b] == [c, a, b] && [c, b] + [a] == [c, b, a];
  }
}
