/** The slide deck: an intersection callback that marks slides `active`,
    highlights the matching navigation link and starts the chart animation on
    the statistics slide. */
module Slides {
  import opened Common
  import opened Chart

  const StatsSlideId := "slide-security-stats"

  /** The template `#${id}`; a slide without an `id` attribute yields `"#null"`. */
  function Anchor(id: Option<string>): string
  {
    match id
    case Some(s) => "#" + s
    case None => "#null"
  }

  /** Two slides with ids select the same links iff their ids are equal; a
      slide without an id selects the links of a slide whose id is "null". */
  lemma AnchorMatches(a: Option<string>, b: Option<string>)
    ensures a.Some? && b.Some? ==> (Anchor(a) == Anchor(b) <==> a == b)
    ensures Anchor(None) == Anchor(Some("null"))
  {
    if a.Some? && b.Some? && Anchor(a) == Anchor(b) {
      assert a.value == Anchor(a)[1..];
      assert b.value == Anchor(b)[1..];
    }
  }

  /** The slide of the last intersecting entry: it decides the highlighted link. */
  function LastEntered(entries: seq<Entry>): (r: Option<nat>)
    ensures r == None <==> forall k :: 0 <= k < |entries| ==> !entries[k].isIntersecting
    ensures r.Some? ==> exists k :: 0 <= k < |entries| && entries[k].isIntersecting
                                  && entries[k].target == r.value
                                  && forall j :: k < j < |entries| ==> !entries[j].isIntersecting
  {
    if entries == [] then None
    else
      var e := entries[|entries| - 1];
      if e.isIntersecting then Some(e.target) else LastEntered(entries[..|entries| - 1])
  }

  class SlideDeck {
    /** The `id` attribute of each `.slide`. */
    const ids: seq<Option<string>>
    /** The `href` attribute of each `.slide-nav a`. */
    const hrefs: seq<Option<string>>
    /** Whether each slide has the `active` class. */
    const active: array<bool>
    /** Whether each navigation link has the `active` class. */
    const linkActive: array<bool>
    const chart: ChartAnimator

    ghost predicate Valid()
      reads this, chart
    {
      active.Length == |ids| && linkActive.Length == |hrefs| && active != linkActive && chart.Valid()
    }

    /** The slides and links as the page's markup gives them, classes included. */
    constructor (ids: seq<Option<string>>, hrefs: seq<Option<string>>,
                 slidesActive: seq<bool>, linksActive: seq<bool>, chart: ChartAnimator)
      requires chart.Valid() && |slidesActive| == |ids| && |linksActive| == |hrefs|
      ensures Valid() && fresh(active) && fresh(linkActive)
      ensures this.ids == ids && this.hrefs == hrefs && this.chart == chart
      ensures active[..] == slidesActive && linkActive[..] == linksActive
    {
      this.ids, this.hrefs, this.chart := ids, hrefs, chart;
      active := new bool[|ids|](i requires 0 <= i < |ids| => slidesActive[i]);
      linkActive := new bool[|hrefs|](i requires 0 <= i < |hrefs| => linksActive[i]);
    }

    /** `updateNavigation(activeId)`: afterwards exactly the links whose `href`
        is `#activeId` are active. */
    method UpdateNavigation(activeId: Option<string>)
      requires Valid()
      modifies linkActive
      ensures forall i :: 0 <= i < linkActive.Length ==>
                (linkActive[i] <==> hrefs[i] == Some(Anchor(activeId)))
    {
      for i := 0 to linkActive.Length
        invariant forall j :: 0 <= j < i ==> (linkActive[j] <==> hrefs[j] == Some(Anchor(activeId)))
      {
        linkActive[i] := false;
        if hrefs[i] == Some(Anchor(activeId)) {
          linkActive[i] := true;
        }
      }
    }

    /** The observer callback over one batch of entries. A slide gains `active`
        when an entry for it intersects and never loses it; the links follow the
        last intersecting slide; the chart is triggered when the statistics slide
        intersects. */
    method OnIntersection(entries: seq<Entry>)
      requires Valid()
      requires forall k :: 0 <= k < |entries| ==> entries[k].target < |ids|
      modifies active, linkActive, chart
      ensures Valid()
      ensures forall i :: 0 <= i < active.Length ==> (active[i] <==> old(active[i]) || Entered(entries, i))
      ensures LastEntered(entries) == None ==> linkActive[..] == old(linkActive[..])
      ensures LastEntered(entries).Some? ==>
                forall i :: 0 <= i < linkActive.Length ==>
                  (linkActive[i] <==> hrefs[i] == Some(Anchor(ids[LastEntered(entries).value])))
      ensures StatsEntered(entries) ==> chart.chartAnimated
      ensures !StatsEntered(entries) || old(chart.chartAnimated) ==> unchanged(chart)
      ensures StatsEntered(entries) && !old(chart.chartAnimated) ==>
                chart.running == chart.hasElements && chart.currentFrame == 0
    {
      for k := 0 to |entries|
        invariant Valid()
        invariant forall i :: 0 <= i < active.Length ==>
                    (active[i] <==> old(active[i]) || Entered(entries[..k], i))
        invariant LastEntered(entries[..k]) == None ==> linkActive[..] == old(linkActive[..])
        invariant LastEntered(entries[..k]).Some? ==>
                    forall i :: 0 <= i < linkActive.Length ==>
                      (linkActive[i] <==> hrefs[i] == Some(Anchor(ids[LastEntered(entries[..k]).value])))
        invariant StatsEntered(entries[..k]) ==> chart.chartAnimated
        invariant !StatsEntered(entries[..k]) || old(chart.chartAnimated) ==> unchanged(chart)
        invariant StatsEntered(entries[..k]) && !old(chart.chartAnimated) ==>
                    chart.running == chart.hasElements && chart.currentFrame == 0
      {
        var e := entries[k];
        assert entries[..k + 1] == entries[..k] + [e];
        if e.isIntersecting {
          active[e.target] := true;
          UpdateNavigation(ids[e.target]);
          if ids[e.target] == Some(StatsSlideId) {
            chart.AnimateChart();
          }
        }
        EnteredStep(entries[..k], e);
        StatsStep(entries[..k], e);
      }
      assert entries[..|entries|] == entries;
    }

    /** Some intersecting entry of the batch is the statistics slide. */
    ghost predicate StatsEntered(entries: seq<Entry>)
      reads this
    {
      exists k :: 0 <= k < |entries| && entries[k].isIntersecting && entries[k].target < |ids|
                  && ids[entries[k].target] == Some(StatsSlideId)
    }

    /** How the batch predicates grow by one entry. */
    lemma StatsStep(prefix: seq<Entry>, e: Entry)
      ensures StatsEntered(prefix + [e]) <==>
                StatsEntered(prefix) || (e.isIntersecting && e.target < |ids| && ids[e.target] == Some(StatsSlideId))
      ensures LastEntered(prefix + [e]) == if e.isIntersecting then Some(e.target) else LastEntered(prefix)
    {
      var s := prefix + [e];
      assert s[..|s| - 1] == prefix;
      if StatsEntered(s) {
        var k :| 0 <= k < |s| && s[k].isIntersecting && s[k].target < |ids| && ids[s[k].target] == Some(StatsSlideId);
        if k < |prefix| { assert prefix[k] == s[k]; }
      }
      if StatsEntered(prefix) {
        var k :| 0 <= k < |prefix| && prefix[k].isIntersecting && prefix[k].target < |ids|
                 && ids[prefix[k].target] == Some(StatsSlideId);
        assert s[k] == prefix[k];
      }
      if e.isIntersecting && e.target < |ids| && ids[e.target] == Some(StatsSlideId) { assert s[|prefix|] == e; }
    }
  }
}
