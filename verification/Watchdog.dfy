/** The browser watchdog (src/browserWatchdog.ts): which invariants a reading breaches, and the episodes - one per
    breached key - that turn breaches lasting long enough into one report each, with one more when they stop. */
module Watchdog {
  import opened Basics

  datatype Limits = Limits(
    occlusionMs: int, ackMs: int, freezeMs: int, driftPx: int, driftMs: int, captureMs: int)

  datatype Ack = Ack(no: int, at: int)

  datatype Sample = Sample(
    at: int, tab: string, wanted: bool, visible: bool, occluder: string, hasFrame: bool, loading: bool, settled: bool,
    lastCaptureOkAt: int, capturableSince: int, drift: Option<int>, unacked: seq<Ack>)

  /** What can be in breach: an invariant of one tab, for the first two about one surface or one call. */
  datatype Key =
    | Overlap(tab: string, occluder: string)
    | Unacked(tab: string, no: int)
    | NoFrame(tab: string)
    | Drift(tab: string)
    | NoCapture(tab: string)

  /** A visibility call this reading still finds unanswered for too long. */
  predicate Late(limits: Limits, s: Sample, no: int) {
    exists u :: u in s.unacked && u.no == no && s.at - u.at > limits.ackMs
  }

  /** The five invariants, by what breaks them. */
  predicate Breaches(limits: Limits, s: Sample, k: Key) {
    k.tab == s.tab &&
    match k
    case Overlap(_, occluder) => s.visible && occluder != "" && s.occluder == occluder
    case Unacked(_, no) => Late(limits, s, no)
    case NoFrame(_) => s.wanted && !s.visible && s.occluder != "" && !s.hasFrame && !s.loading
    case Drift(_) => s.visible && s.drift.Some? && s.drift.value > limits.driftPx
    case NoCapture(_) =>
      s.visible && s.settled && !s.hasFrame && s.at - Max(s.lastCaptureOkAt, s.capturableSince) > limits.captureMs
  }

  /** A healthy reading: every visibility call answered in time; a page on show not covered, in its place and, once
      settled, photographed in time; one hidden behind an overlay with a picture in its stead, unless still loading. */
  predicate Healthy(limits: Limits, s: Sample) {
    && (forall u :: u in s.unacked ==> s.at <= u.at + limits.ackMs)
    && (if s.visible then
          && s.occluder == ""
          && (s.drift.None? || s.drift.value <= limits.driftPx)
          && (s.settled && !s.hasFrame ==>
                s.at <= s.lastCaptureOkAt + limits.captureMs || s.at <= s.capturableSince + limits.captureMs)
        else s.wanted && s.occluder != "" ==> s.hasFrame || s.loading)
  }

  /** A reading breaches nothing exactly when it is healthy. */
  lemma HealthyExactly(limits: Limits, s: Sample)
    ensures Healthy(limits, s) <==> forall k :: !Breaches(limits, s, k)
  {
    if !Healthy(limits, s) {
      if u :| u in s.unacked && s.at > u.at + limits.ackMs {
        assert Late(limits, s, u.no);
        assert Breaches(limits, s, Unacked(s.tab, u.no));
      } else if s.visible && s.occluder != "" {
        assert Breaches(limits, s, Overlap(s.tab, s.occluder));
      } else if s.visible && s.drift.Some? && s.drift.value > limits.driftPx {
        assert Breaches(limits, s, Drift(s.tab));
      } else if s.visible {
        assert Breaches(limits, s, NoCapture(s.tab));
      } else {
        assert Breaches(limits, s, NoFrame(s.tab));
      }
    }
  }

  /** What it breaches is of its own tab, names the surface in the way and calls still unanswered, and an overlay is
      either over the page or over its missing picture. */
  lemma BreachNames(limits: Limits, s: Sample, k: Key)
    requires Breaches(limits, s, k)
    ensures k.tab == s.tab
    ensures k.Overlap? ==> k.occluder == s.occluder && !Breaches(limits, s, NoFrame(s.tab))
    ensures k.Unacked? ==> exists u :: u in s.unacked && u.no == k.no && s.at > u.at + limits.ackMs
    ensures !s.visible ==> k.Unacked? || k.NoFrame?
  {
    if k.Unacked? {
      var u :| u in s.unacked && u.no == k.no && s.at - u.at > limits.ackMs;
      assert s.at > u.at + limits.ackMs;
    }
  }

  function Dwell(limits: Limits, k: Key): int {
    match k
    case Overlap(_, _) => limits.occlusionMs
    case Unacked(_, _) => 0
    case NoFrame(_) => limits.freezeMs
    case Drift(_) => limits.driftMs
    case NoCapture(_) => 0
  }

  // ------------------------------------------------------------------ one key

  datatype Violation = Violation(key: Key, since: int, at: int)

  datatype Episode = Episode(tab: string, since: int, firing: Option<Violation>)

  datatype Report = Opened(v: Violation) | Closed(v: Violation)

  datatype Input = Reading(s: Sample) | Forgotten(tab: string, at: int)

  function Ending(was: Option<Episode>, at: int): Option<Report> {
    if was.Some? && was.value.firing.Some? then Some(Closed(was.value.firing.value.(at := at))) else None
  }

  function Breaching(limits: Limits, k: Key, at: int, was: Option<Episode>): (Option<Episode>, Option<Report>) {
    var ep := if was.Some? then was.value else Episode(k.tab, at, None);
    if ep.firing.None? && at - ep.since >= Dwell(limits, k) then
      var v := Violation(k, ep.since, at);
      (Some(ep.(firing := Some(v))), Some(Opened(v)))
    else (Some(ep), None)
  }

  /** What an input does to the episode of one key, and what it makes the watchdog report about it. */
  function Next(limits: Limits, x: Input, k: Key, was: Option<Episode>): (Option<Episode>, Option<Report>) {
    match x
    case Reading(s) =>
      if s.tab != k.tab then (was, None)
      else if Breaches(limits, s, k) then Breaching(limits, k, s.at, was)
      else (None, Ending(was, s.at))
    case Forgotten(tab, at) => if tab != k.tab then (was, None) else (None, Ending(was, at))
  }

  function Watch(limits: Limits, xs: seq<Input>, k: Key): Option<Episode> {
    if xs == [] then None
    else Next(limits, xs[|xs| - 1], k, Watch(limits, xs[..|xs| - 1], k)).0
  }

  function Reports(limits: Limits, xs: seq<Input>, k: Key): seq<Report> {
    if xs == [] then []
    else
      var r := Next(limits, xs[|xs| - 1], k, Watch(limits, xs[..|xs| - 1], k)).1;
      Reports(limits, xs[..|xs| - 1], k) + if r.Some? then [r.value] else []
  }

  // ------------------------------------------------------------------ every run

  /** Opened and closed by turns, and each close is of the breach that was opened. */
  predicate Alternate(reports: seq<Report>) {
    reports == [] ||
    (var n := |reports| - 1;
     && Alternate(reports[..n])
     && (if reports[n].Opened? then n == 0 || reports[n - 1].Closed?
         else n > 0 && reports[n - 1].Opened? && reports[n].v == reports[n - 1].v.(at := reports[n].v.at)))
  }

  /** What is in breach now: the last report, if it opened. */
  function StillOpen(reports: seq<Report>): Option<Violation> {
    if reports != [] && reports[|reports| - 1].Opened? then Some(reports[|reports| - 1].v) else None
  }

  function Firing(ep: Option<Episode>): Option<Violation> {
    if ep.Some? then ep.value.firing else None
  }

  lemma NoReports()
    ensures Alternate([])
  {
  }

  lemma ReportSnoc(reports: seq<Report>, r: Report)
    requires Alternate(reports)
    requires if r.Opened? then StillOpen(reports).None?
             else StillOpen(reports).Some? && r.v == StillOpen(reports).value.(at := r.v.at)
    ensures Alternate(reports + [r]) && StillOpen(reports + [r]) == if r.Opened? then Some(r.v) else None
  {
    assert (reports + [r])[..|reports|] == reports;
  }

  lemma ReportFits(limits: Limits, x: Input, k: Key, was: Option<Episode>)
    ensures var (now, r) := Next(limits, x, k, was);
            if r.None? then Firing(now) == Firing(was)
            else if r.value.Opened? then Firing(was).None? && Firing(now) == Some(r.value.v)
            else Firing(was).Some? && Firing(now).None? && r.value.v == Firing(was).value.(at := r.value.v.at)
  {
    hide Breaches, Dwell;
  }

  /** Reports about a key strictly alternate, and it is listed as in breach exactly while its last
      report is an opening. */
  lemma {:induction false} ReportsAlternate(limits: Limits, xs: seq<Input>, k: Key)
    ensures Alternate(Reports(limits, xs, k))
    ensures StillOpen(Reports(limits, xs, k)) == Firing(Watch(limits, xs, k))
    decreases |xs|
  {
    hide Next, Alternate;
    if xs == [] {
      assert Alternate([]) by { NoReports(); }
    } else {
      var init := xs[..|xs| - 1];
      ReportFits(limits, xs[|xs| - 1], k, Watch(limits, init, k));
      var reports, r := Reports(limits, init, k), Next(limits, xs[|xs| - 1], k, Watch(limits, init, k)).1;
      ReportsAlternate(limits, init, k);
      if r.Some? { ReportSnoc(reports, r.value); } else { assert reports + [] == reports; }
    }
  }

  function Openings(reports: seq<Report>): nat {
    if reports == [] then 0 else Openings(reports[..|reports| - 1]) + if reports[|reports| - 1].Opened? then 1 else 0
  }

  function Closings(reports: seq<Report>): nat {
    if reports == [] then 0 else Closings(reports[..|reports| - 1]) + if reports[|reports| - 1].Closed? then 1 else 0
  }

  lemma {:induction false} AlternateCounts(reports: seq<Report>)
    requires Alternate(reports)
    ensures Openings(reports) == Closings(reports) + if StillOpen(reports).Some? then 1 else 0
    decreases |reports|
  {
    if reports != [] { AlternateCounts(reports[..|reports| - 1]); }
  }

  /** In breach now is opened minus closed. */
  lemma OpenIsOpenedMinusClosed(limits: Limits, xs: seq<Input>, k: Key)
    ensures Openings(Reports(limits, xs, k)) ==
              Closings(Reports(limits, xs, k)) + if Firing(Watch(limits, xs, k)).Some? then 1 else 0
  {
    ReportsAlternate(limits, xs, k);
    AlternateCounts(Reports(limits, xs, k));
  }

  // ------------------------------------------------------------------ streaks

  predicate About(x: Input, k: Key) {
    if x.Reading? then x.s.tab == k.tab else x.tab == k.tab
  }

  predicate BreachedBy(limits: Limits, x: Input, k: Key) {
    x.Reading? && Breaches(limits, x.s, k)
  }

  /** From position i to the end of the run, everything about the key's tab is a reading that breaches the key. */
  predicate Unbroken(limits: Limits, xs: seq<Input>, k: Key, i: nat) {
    |xs| <= i ||
    (Unbroken(limits, xs[..|xs| - 1], k, i) && (About(xs[|xs| - 1], k) ==> BreachedBy(limits, xs[|xs| - 1], k)))
  }

  /** The last input about the tab before position i, if any, was not a breach. */
  predicate FreshAt(limits: Limits, xs: seq<Input>, k: Key, i: nat)
    requires i <= |xs|
  {
    i == 0 ||
    if About(xs[i - 1], k) then !BreachedBy(limits, xs[i - 1], k) else FreshAt(limits, xs, k, i - 1)
  }

  /** The current streak starts at i. */
  predicate StreakFrom(limits: Limits, xs: seq<Input>, k: Key, i: nat) {
    i < |xs| && BreachedBy(limits, xs[i], k) && Unbroken(limits, xs, k, i) && FreshAt(limits, xs, k, i)
  }

  /** Somewhere in the streak from i a reading found it had lasted for the dwell. */
  predicate LastedLong(limits: Limits, xs: seq<Input>, k: Key, i: nat, since: int) {
    |xs| > i &&
    (LastedLong(limits, xs[..|xs| - 1], k, i, since)
     || (BreachedBy(limits, xs[|xs| - 1], k) && xs[|xs| - 1].s.at - since >= Dwell(limits, k)))
  }

  lemma {:induction false} FreshGrows(limits: Limits, xs: seq<Input>, x: Input, k: Key, i: nat)
    requires i <= |xs|
    ensures FreshAt(limits, xs + [x], k, i) <==> FreshAt(limits, xs, k, i)
    decreases i
  {
    if i > 0 && !About(xs[i - 1], k) { FreshGrows(limits, xs, x, k, i - 1); }
  }

  lemma {:induction false} QuietIsFresh(limits: Limits, xs: seq<Input>, k: Key, n: nat)
    requires n <= |xs| && Watch(limits, xs[..n], k).None?
    ensures FreshAt(limits, xs, k, n)
    decreases n
  {
    if n > 0 && !About(xs[n - 1], k) {
      assert xs[..n][..n - 1] == xs[..n - 1];
      QuietIsFresh(limits, xs, k, n - 1);
    }
  }

  lemma StreakGrows(limits: Limits, init: seq<Input>, x: Input, k: Key, i: nat)
    requires StreakFrom(limits, init, k, i) && (About(x, k) ==> BreachedBy(limits, x, k))
    ensures StreakFrom(limits, init + [x], k, i)
  {
    hide Breaches, About;
    assert (init + [x])[..|init|] == init;
    FreshGrows(limits, init, x, k, i);
  }

  lemma LongGrows(limits: Limits, init: seq<Input>, x: Input, k: Key, i: nat, since: int)
    requires i <= |init|
    ensures LastedLong(limits, init + [x], k, i, since) <==>
              LastedLong(limits, init, k, i, since) || (BreachedBy(limits, x, k) && x.s.at - since >= Dwell(limits, k))
  {
    assert (init + [x])[..|init|] == init;
  }

  lemma BreachIsAbout(limits: Limits, x: Input, k: Key)
    ensures BreachedBy(limits, x, k) ==> About(x, k)
  {
  }

  /** The streak at i is the key's episode. */
  predicate Tells(limits: Limits, xs: seq<Input>, k: Key, i: nat, ep: Episode) {
    && StreakFrom(limits, xs, k, i) && ep.since == xs[i].s.at
    && (ep.firing.Some? <==> LastedLong(limits, xs, k, i, ep.since))
  }

  lemma EpisodeGoesOn(limits: Limits, init: seq<Input>, x: Input, k: Key, i: nat, was: Episode)
    requires Tells(limits, init, k, i, was)
    ensures var now := Next(limits, x, k, Some(was)).0;
            now.Some? ==> Tells(limits, init + [x], k, i, now.value)
  {
    hide Breaches, Dwell, Unbroken, FreshAt, LastedLong;
    BreachIsAbout(limits, x, k);
    if !About(x, k) || BreachedBy(limits, x, k) {
      StreakGrows(limits, init, x, k, i);
      LongGrows(limits, init, x, k, i, was.since);
    }
  }

  lemma EpisodeStarts(limits: Limits, init: seq<Input>, x: Input, k: Key)
    requires Watch(limits, init, k).None?
    ensures var now := Next(limits, x, k, None).0;
            now.Some? ==> Tells(limits, init + [x], k, |init|, now.value)
  {
    hide Breaches, Dwell, Watch;
    if Next(limits, x, k, None).0.Some? {
      var n := |init|;
      assert init[..n] == init && (init + [x])[..n] == init;
      QuietIsFresh(limits, init, k, n);
      FreshGrows(limits, init, x, k, n);
      LongGrows(limits, init, x, k, n, x.s.at);
      assert !LastedLong(limits, init, k, n, x.s.at);
      assert BreachedBy(limits, x, k);
      assert Unbroken(limits, init, k, n);
      assert Unbroken(limits, init + [x], k, n);
    }
  }

  /** The episode of a key is its current streak: it exists while there is one, its `since` is the time of the streak's
      first reading, and it fires exactly once some reading of the streak finds the dwell has passed. */
  lemma {:induction false} EpisodeIsStreak(limits: Limits, xs: seq<Input>, k: Key) returns (i: nat)
    ensures Watch(limits, xs, k).Some? ==> Tells(limits, xs, k, i, Watch(limits, xs, k).value)
    decreases |xs|
  {
    hide Tells, Next;
    i := 0;
    if xs != [] {
      var init, x := xs[..|xs| - 1], xs[|xs| - 1];
      assert xs == init + [x];
      i := EpisodeIsStreak(limits, init, k);
      if Watch(limits, init, k).Some? {
        EpisodeGoesOn(limits, init, x, k, i, Watch(limits, init, k).value);
      } else {
        EpisodeStarts(limits, init, x, k);
        i := if Watch(limits, xs, k).Some? then |init| else 0;
      }
    }
  }

  /** A key is quiet exactly when its tab's last input was not a breach of it. */
  lemma {:induction false} QuietExactly(limits: Limits, xs: seq<Input>, k: Key)
    ensures Watch(limits, xs, k).None? <==> FreshAt(limits, xs, k, |xs|)
    decreases |xs|
  {
    if xs != [] {
      var init, x := xs[..|xs| - 1], xs[|xs| - 1];
      QuietExactly(limits, init, k);
      assert xs == init + [x];
      FreshGrows(limits, init, x, k, |init|);
    }
  }

  /** A reported opening: its `since` is the first reading of an unbroken streak of that tab's readings that all breach
      the key, and the dwell had passed between that reading and the reporting one. */
  lemma OpenedMeansStreak(limits: Limits, xs: seq<Input>, k: Key, x: Input) returns (i: nat)
    requires Next(limits, x, k, Watch(limits, xs, k)).1.Some?
    requires Next(limits, x, k, Watch(limits, xs, k)).1.value.Opened?
    ensures var v := Next(limits, x, k, Watch(limits, xs, k)).1.value.v;
            && v.key == k && x.Reading? && v.at == x.s.at && v.at - v.since >= Dwell(limits, k)
            && StreakFrom(limits, xs + [x], k, i) && (xs + [x])[i].s.at == v.since
  {
    i := EpisodeIsStreak(limits, xs + [x], k);
    assert (xs + [x])[..|xs|] == xs;
  }

  /** How long each kind of breach must last before it is reported: an overlay over the page, a missing picture and a
      misplaced view for their own times; an unanswered call and a missing capture, whose waits the reading itself
      measures, not at all.  A breaching reading opens the key exactly when it is not open and that time has passed
      since the first reading of the streak. */
  lemma OpensExactly(limits: Limits, xs: seq<Input>, k: Key, x: Input) returns (i: nat)
    requires BreachedBy(limits, x, k)
    ensures StreakFrom(limits, xs + [x], k, i)
    ensures var r, since := Next(limits, x, k, Watch(limits, xs, k)).1, (xs + [x])[i].s.at;
            && (r.Some? && r.value.Opened? <==>
                  && Firing(Watch(limits, xs, k)).None?
                  && x.s.at - since >= match k
                                       case Overlap(_, _) => limits.occlusionMs
                                       case NoFrame(_) => limits.freezeMs
                                       case Drift(_) => limits.driftMs
                                       case _ => 0)
            && (r.Some? ==> r.value == Opened(Violation(k, since, x.s.at)))
  {
    hide Breaches, StreakFrom, LastedLong;
    BreachIsAbout(limits, x, k);
    assert (xs + [x])[..|xs|] == xs;
    i := EpisodeIsStreak(limits, xs + [x], k);
  }

  /** An open key is closed by its tab's next input that is no breach of it, at that moment, and by nothing else. */
  lemma ClosesExactly(limits: Limits, xs: seq<Input>, k: Key, x: Input)
    ensures var was, r := Firing(Watch(limits, xs, k)), Next(limits, x, k, Watch(limits, xs, k)).1;
            && (r.Some? && r.value.Closed? <==> was.Some? && About(x, k) && !BreachedBy(limits, x, k))
            && (r.Some? && r.value.Closed? ==>
                  r.value.v == was.value.(at := if x.Reading? then x.s.at else x.at))
  {
    hide Breaches, Dwell;
    BreachIsAbout(limits, x, k);
  }

  // ------------------------------------------------------------------ the code

  function At(episodes: map<Key, Episode>, k: Key): Option<Episode> {
    if k in episodes then Some(episodes[k]) else None
  }

  /** The judgement on one reading: every key it breaches, and nothing else. */
  method ConditionsFor(s: Sample, limits: Limits) returns (out: seq<Key>)
    ensures forall k :: k in out <==> Breaches(limits, s, k)
  {
    out := [];
    if s.visible && s.occluder != "" {
      out := out + [Overlap(s.tab, s.occluder)];
    }
    ghost var first := out;
    for i := 0 to |s.unacked|
      invariant forall k :: k in first ==> k in out
      invariant forall k :: k in out ==> k in first || (k.Unacked? && k.tab == s.tab && Late(limits, s, k.no))
      invariant forall j :: 0 <= j < i && s.at - s.unacked[j].at > limits.ackMs ==>
                  Unacked(s.tab, s.unacked[j].no) in out
    {
      var waited := s.at - s.unacked[i].at;
      if waited > limits.ackMs {
        assert s.unacked[i] in s.unacked;
        out := out + [Unacked(s.tab, s.unacked[i].no)];
      }
    }
    if s.wanted && !s.visible && s.occluder != "" && !s.hasFrame && !s.loading {
      out := out + [NoFrame(s.tab)];
    }
    if s.visible && s.drift.Some? && s.drift.value > limits.driftPx {
      out := out + [Drift(s.tab)];
    }
    if s.visible && s.settled && !s.hasFrame {
      var since := s.at - Max(s.lastCaptureOkAt, s.capturableSince);
      if since > limits.captureMs {
        out := out + [NoCapture(s.tab)];
      }
    }
  }

  /** A reading and one key: either the key is a condition and its episode goes on, or it is of this tab
      and ends, or neither. */
  lemma OneKey(limits: Limits, s: Sample, k: Key, met: bool, gone: bool, before: Option<Episode>,
               middle: Option<Episode>)
    requires met <==> Breaches(limits, s, k)
    requires middle == if met then Breaching(limits, k, s.at, before).0 else before
    requires gone <==> middle.Some? && k.tab == s.tab && !met
    ensures Next(limits, Reading(s), k, before).0 == if gone then None else middle
    ensures forall v :: Next(limits, Reading(s), k, before).1 == Some(Opened(v)) <==>
                          met && Breaching(limits, k, s.at, before).1 == Some(Opened(v))
    ensures forall v :: Next(limits, Reading(s), k, before).1 == Some(Closed(v)) <==>
                          gone && Ending(middle, s.at) == Some(Closed(v))
  {
    BreachIsAbout(limits, Reading(s), k);
  }

  predicate OnePerKey(reports: seq<Violation>) {
    forall i, j :: 0 <= i < j < |reports| ==> reports[i].key != reports[j].key
  }

  class Watcher {
    const limits: Limits
    var episodes: map<Key, Episode>

    /** Every episode is filed under its own key. */
    predicate Valid()
      reads this
    {
      forall k :: k in episodes ==>
        episodes[k].tab == k.tab && (episodes[k].firing.Some? ==> episodes[k].firing.value.key == k)
    }

    constructor (limits: Limits)
      ensures this.limits == limits && episodes == map[] && Valid()
    {
      this.limits := limits;
      episodes := map[];
    }

    /** Ends the episodes of some keys. */
    method Close(keys: set<Key>, at: int) returns (closed: seq<Violation>)
      requires Valid()
      modifies this
      ensures Valid() && episodes == old(episodes) - keys && OnePerKey(closed)
      ensures forall v :: v in closed <==> v.key in keys && Ending(At(old(episodes), v.key), at) == Some(Closed(v))
    {
      closed := [];
      var todo := keys;
      while todo != {}
        invariant todo <= keys && episodes == old(episodes) - (keys - todo) && OnePerKey(closed)
        invariant forall v :: v in closed <==>
                    v.key in keys && v.key !in todo && Ending(At(old(episodes), v.key), at) == Some(Closed(v))
        decreases |todo|
      {
        var k :| k in todo;
        todo := todo - {k};
        if k in episodes {
          var ep := episodes[k];
          episodes := episodes - {k};
          if ep.firing.Some? {
            closed := closed + [ep.firing.value.(at := at)];
          }
        }
      }
    }

    /** One condition of a reading: its episode starts or goes on, and may fire. */
    method Breach(k: Key, at: int) returns (fired: Option<Violation>)
      requires Valid()
      modifies this
      ensures Valid() && episodes == old(episodes)[k := Breaching(limits, k, at, At(old(episodes), k)).0.value]
      ensures Breaching(limits, k, at, At(old(episodes), k)).1 ==
                if fired.Some? then Some(Opened(fired.value)) else None
    {
      var ep := if k in episodes then episodes[k] else Episode(k.tab, at, None);
      fired := None;
      if ep.firing.None? && at - ep.since >= Dwell(limits, k) {
        fired := Some(Violation(k, ep.since, at));
        ep := ep.(firing := fired);
      }
      episodes := episodes[k := ep];
    }

    /** All conditions of a reading, in order; a condition met twice changes nothing the second time. */
    method BreachAll(conds: seq<Key>, at: int) returns (fired: seq<Violation>)
      requires Valid()
      modifies this
      ensures Valid() && OnePerKey(fired)
      ensures forall k :: At(episodes, k) ==
                if k in conds then Breaching(limits, k, at, At(old(episodes), k)).0 else At(old(episodes), k)
      ensures forall v :: v in fired <==>
                v.key in conds && Breaching(limits, v.key, at, At(old(episodes), v.key)).1 == Some(Opened(v))
    {
      fired := [];
      for i := 0 to |conds|
        invariant Valid() && OnePerKey(fired)
        invariant forall k :: At(episodes, k) ==
                    if k in conds[..i] then Breaching(limits, k, at, At(old(episodes), k)).0 else At(old(episodes), k)
        invariant forall v :: v in fired <==>
                    v.key in conds[..i] && Breaching(limits, v.key, at, At(old(episodes), v.key)).1 == Some(Opened(v))
      {
        var k := conds[i];
        assert conds[..i + 1] == conds[..i] + [k];
        ghost var was := At(old(episodes), k);
        if k in conds[..i] {
          assert At(episodes, k) == Breaching(limits, k, at, was).0;
          assert Breaching(limits, k, at, At(episodes, k)) == (At(episodes, k), None);
        }
        var v := Breach(k, at);
        if v.Some? {
          fired := fired + [v.value];
        }
      }
      assert conds[..|conds|] == conds;
    }

    method Observe(s: Sample) returns (fired: seq<Violation>, closed: seq<Violation>)
      requires Valid()
      modifies this
      ensures Valid() && OnePerKey(fired) && OnePerKey(closed)
      ensures forall k :: At(episodes, k) == Next(limits, Reading(s), k, At(old(episodes), k)).0
      ensures forall v :: v in fired <==> Next(limits, Reading(s), v.key, At(old(episodes), v.key)).1 == Some(Opened(v))
      ensures forall v :: v in closed <==>
                Next(limits, Reading(s), v.key, At(old(episodes), v.key)).1 == Some(Closed(v))
    {
      hide Breaches, Dwell;
      var conds := ConditionsFor(s, limits);
      ghost var before := episodes;
      fired := BreachAll(conds, s.at);
      ghost var middle := episodes;
      var gone := set k | k in episodes && episodes[k].tab == s.tab && k !in conds;
      closed := Close(gone, s.at);
      forall k
        ensures At(episodes, k) == Next(limits, Reading(s), k, At(before, k)).0
      {
        OneKey(limits, s, k, k in conds, k in gone, At(before, k), At(middle, k));
      }
      forall v: Violation
        ensures v in fired <==> Next(limits, Reading(s), v.key, At(before, v.key)).1 == Some(Opened(v))
        ensures v in closed <==> Next(limits, Reading(s), v.key, At(before, v.key)).1 == Some(Closed(v))
      {
        OneKey(limits, s, v.key, v.key in conds, v.key in gone, At(before, v.key), At(middle, v.key));
      }
    }

    method Forget(tab: string, at: int) returns (closed: seq<Violation>)
      requires Valid()
      modifies this
      ensures Valid() && OnePerKey(closed)
      ensures forall k :: At(episodes, k) == Next(limits, Forgotten(tab, at), k, At(old(episodes), k)).0
      ensures forall v :: v in closed <==>
                Next(limits, Forgotten(tab, at), v.key, At(old(episodes), v.key)).1 == Some(Closed(v))
    {
      var keys := set k | k in episodes && episodes[k].tab == tab;
      closed := Close(keys, at);
    }

    /** Everything in breach. */
    method Open() returns (firing: seq<Violation>)
      requires Valid()
      ensures OnePerKey(firing)
      ensures forall v :: v in firing <==> Firing(At(episodes, v.key)) == Some(v)
    {
      firing := [];
      var todo := episodes.Keys;
      while todo != {}
        invariant todo <= episodes.Keys && OnePerKey(firing)
        invariant forall v :: v in firing <==> v.key !in todo && Firing(At(episodes, v.key)) == Some(v)
        decreases |todo|
      {
        var k :| k in todo;
        todo := todo - {k};
        if episodes[k].firing.Some? {
          firing := firing + [episodes[k].firing.value];
        }
      }
    }
  }
}
