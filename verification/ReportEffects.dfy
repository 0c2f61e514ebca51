/** What a call contributes to the usage report: the rows it is joined to, and the part of
    its counts each project gets (internal/storage/sqlite/store.go). */
module ReportEffects {
  import opened Basics
  import opened Calls
  import opened Apportion
  import opened Usage
  import opened UsageTotals
  import Allocations
  import Revisions

  // ---- what a call is joined to ------------------------------------------------------

  // The slug of a known project.
  function Known(t: Tables, project: string, otherwise: string): string {
    if project in t.projects then t.projects[project] else otherwise
  }

  // The k-th part of a call is its k-th allocation row: as many points, and the
  // allocated project, if it is known.
  predicate PartFollows(t: Tables, slot: Allocations.Slot, otherwise: string, p: Part) {
    p.slug == Known(t, slot.entry.project, otherwise)
    && (0 <= slot.entry.points <= 10000 ==> p.points as int == slot.entry.points)
  }

  lemma {:induction false} PartsFollow(t: Tables, slots: seq<Allocations.Slot>, otherwise: string)
    ensures |PartsOf(t, slots, otherwise)| == |slots|
    ensures forall k :: 0 <= k < |slots| ==> PartFollows(t, slots[k], otherwise, PartsOf(t, slots, otherwise)[k])
  {
    if slots != [] {
      var init, n := slots[..|slots| - 1], |slots| - 1;
      PartsFollow(t, init, otherwise);
      assert slots[n] == slots[|slots| - 1];
      forall k | 0 <= k < |slots| ensures PartFollows(t, slots[k], otherwise, PartsOf(t, slots, otherwise)[k]) {
        assert k < n ==> slots[k] == init[k];
      }
    }
  }

  // Main result on the join: a call without allocation rows is one whole of its own
  // project, or of none; one with rows has a part for each, in their order. The
  // measurements do without the call's own project.
  lemma PartsExactly(t: Tables, c: ModelCall)
    ensures var own := Known(t, c.project, "unattributed");
            var usage, measured := UsageParts(t, c), MeasuredParts(t, c);
            if c.id in t.projection && t.projection[c.id] != [] then
              var slots := t.projection[c.id];
              && |usage| == |slots| == |measured|
              && (forall k :: 0 <= k < |slots| ==> PartFollows(t, slots[k], own, usage[k]))
              && forall k :: 0 <= k < |slots| ==> PartFollows(t, slots[k], "unattributed", measured[k])
            else
              usage == [Part(own, 10000)] && measured == [Part("unattributed", 10000)]
  {
    hide PartsOf;
    hide PartFollows;
    if c.id in t.projection && t.projection[c.id] != [] {
      PartsFollow(t, t.projection[c.id], Known(t, c.project, "unattributed"));
      PartsFollow(t, t.projection[c.id], "unattributed");
    }
  }

  // ---- what a project gets of a call ---------------------------------------------------

  function Earlier(parts: seq<Part>): int {
    if parts == [] then 0 else Earlier(parts[..|parts| - 1]) + parts[|parts| - 1].points
  }

  // The parts of a count up to each boundary are rounded down; a project gets the
  // differences at its own parts.
  function Contribution(count: int, parts: seq<Part>, slug: string): int {
    if parts == [] then 0
    else
      var init, last := parts[..|parts| - 1], parts[|parts| - 1];
      var from := Earlier(init);
      Contribution(count, init, slug)
      + if last.slug == slug then count * (from + last.points) / 10000 - count * from / 10000 else 0
  }

  function Contributions(calls: seq<ModelCall>, parts: ModelCall -> seq<Part>, slug: string, k: nat): int
    requires k < 7
  {
    if calls == [] then 0
    else
      var last := calls[|calls| - 1];
      Contributions(calls[..|calls| - 1], parts, slug, k) + Contribution(last.columns[k], parts(last), slug)
  }

  lemma {:induction false} EarlierIs(parts: seq<Part>)
    ensures Earlier(parts) == PointsTotal(PointsOf(parts))
  {
    if parts != [] {
      EarlierIs(parts[..|parts| - 1]);
      assert PointsOf(parts)[..|parts| - 1] == PointsOf(parts[..|parts| - 1]);
    }
  }

  lemma RowContributes(before: seq<JoinRow>, row: JoinRow, slug: string, k: nat)
    requires AllUsable(before + [row]) && k < 7
    ensures var now := Column(Shares(before, Some(slug)), k);
            var from := Offset(before, row.call);
            Column(Shares(before + [row], Some(slug)), k) == now
              + if row.slug == slug
                then row.columns[k] * (from + row.points) / 10000 - row.columns[k] * from / 10000 else 0
  {
    hide Column;
    hide Shares;
    hide ShareOf;
    hide Offset;
    hide AllUsable;
    hide ApportionShare;
    AllUsableNext(before, row);
    SharesNext(before, row, Some(slug));
    ColumnNext(Shares(before, Some(slug)), ShareOf(before, row), k);
    ShareBounds(before, row, k);
    ApportionExact(row.columns[k], Offset(before, row.call), row.points);
  }

  lemma {:induction false} CallContributes(before: seq<JoinRow>, c: ModelCall, parts: seq<Part>, slug: string, k: nat)
    requires AllUsable(before) && Offset(before, c.id) == 0 && NonNegative(c.columns) && Partial(PointsOf(parts))
             && k < 7
    ensures Column(Shares(before + CallRows(c, parts), Some(slug)), k)
            == Column(Shares(before, Some(slug)), k) + Contribution(c.columns[k], parts, slug)
  {
    hide AllUsable;
    hide Shares;
    hide Column;
    hide Offset;
    hide Partial;
    hide NonNegative;
    hide PointsOf;
    hide PointsTotal;
    if parts == [] {
      assert before + CallRows(c, parts) == before;
    } else {
      var init, last := parts[..|parts| - 1], parts[|parts| - 1];
      var row := JoinRow(c.id, last.slug, c.agent, c.provider, c.model, c.quality, c.columns, last.points);
      var earlier := before + CallRows(c, init);
      PointsInit(parts);
      CallContributes(before, c, init, slug, k);
      CallRowsAdd(before, c, parts, k);
      CallRowsAdd(before, c, init, k);
      EarlierIs(init);
      assert before + CallRows(c, parts) == earlier + [row];
      RowContributes(earlier, row, slug, k);
    }
  }

  // Main result on one project: its part of the report is the sum, over the calls
  // reported on, of what it gets of each by its points.
  lemma {:induction false} ProjectGetsExactly(calls: seq<ModelCall>, parts: ModelCall -> seq<Part>, slug: string,
      k: nat)
    requires DistinctIds(calls) && AllCounts(calls) && AllWhole(calls, parts) && k < 7
    ensures Column(Shares(JoinRows(calls, parts), Some(slug)), k) == Contributions(calls, parts, slug, k)
  {
    hide AllUsable;
    hide Shares;
    hide Column;
    hide NonNegative;
    hide CallRows;
    hide PointsTotal;
    hide PointsOf;
    hide Offset;
    hide Contribution;
    if calls == [] {
      NothingShared(slug, k);
    } else {
      var init, last := calls[..|calls| - 1], calls[|calls| - 1];
      assert AllCounts(init) && AllWhole(init, parts);
      ProjectGetsExactly(init, parts, slug, k);
      SharesConserve(init, parts, k);
      FreshCall(calls, parts);
      assert NonNegative(last.columns) && WholeParts(parts(last));
      CallContributes(JoinRows(init, parts), last, parts(last), slug, k);
    }
  }

  lemma NothingShared(slug: string, k: nat)
    requires k < 7
    ensures Column(Shares([], Some(slug)), k) == 0
  {
  }
}
