/** The freeze frames read off the events alone (src/browserHost.ts): which page a held frame is a picture of, when its
    capture began, when a capture begins and that an undisturbed one succeeds.  Nothing here trusts the bookkeeping of
    the steps: every moment is an index into the events so far. */
module BrowserHistory {
  import opened Basics
  import opened Totals
  import opened BrowserFrames

  // ------------------------------------------------------------------ what the events say of a tab

  /** The tab was registered and not forgotten since. */
  predicate Registered(evs: seq<Event>, tab: Tab) {
    evs != [] &&
    match evs[|evs| - 1]
    case Register(t) => t == tab || Registered(evs[..|evs| - 1], tab)
    case Forget(t) => t != tab && Registered(evs[..|evs| - 1], tab)
    case _ => Registered(evs[..|evs| - 1], tab)
  }

  /** How many events there were up to the last loading navigation of the tab's page since it was registered. */
  function LastLoad(evs: seq<Event>, tab: Tab): (n: nat)
    ensures n <= |evs|
  {
    if evs == [] || evs[|evs| - 1] == Register(tab) then 0
    else if evs[|evs| - 1] == Navigated(tab, true) then |evs|
    else LastLoad(evs[..|evs| - 1], tab)
  }

  predicate Changes(ev: Event, tab: Tab) {
    (ev.Navigated? || ev.PageChanged?) && ev.tab == tab
  }

  /** And up to the last navigation or change of its page. */
  function LastChange(evs: seq<Event>, tab: Tab): (n: nat)
    ensures n <= |evs|
  {
    if evs == [] || evs[|evs| - 1] == Register(tab) then 0
    else if Changes(evs[|evs| - 1], tab) then |evs|
    else LastChange(evs[..|evs| - 1], tab)
  }

  /** The last word on whether the tab is wanted: not, until it is said. */
  predicate LastWanted(evs: seq<Event>, tab: Tab) {
    evs != [] && evs[|evs| - 1] != Register(tab) &&
    if evs[|evs| - 1].Wanted? && evs[|evs| - 1].tab == tab then evs[|evs| - 1].wanted
    else LastWanted(evs[..|evs| - 1], tab)
  }

  /** What the last layout pass made of it. */
  function LastShown(evs: seq<Event>, tab: Tab): Option<bool> {
    if evs == [] || evs[|evs| - 1] == Register(tab) then None
    else if evs[|evs| - 1].Layout? && evs[|evs| - 1].tab == tab then Some(evs[|evs| - 1].visible)
    else LastShown(evs[..|evs| - 1], tab)
  }

  lemma {:induction false} ClockCounts(evs: seq<Event>)
    ensures Run(evs).clock == |evs| + 1
    decreases |evs|
  {
    hide Handle;
    if evs != [] { ClockCounts(evs[..|evs| - 1]); }
  }

  lemma DropIs(s: State, t: Tab)
    requires t in s.views
    ensures DropFrame(s, t).views == s.views[t := s.views[t].(frame := None, bytes := 0)]
    ensures DropFrame(s, t).tasks == s.tasks && DropFrame(s, t).nextTask == s.nextTask
    ensures DropFrame(s, t).clock == s.clock && DropFrame(s, t).nextId == s.nextId
  {
    hide Release;
  }

  lemma SettleIs(s: State, k: nat)
    requires k in s.tasks
    ensures var t, s' := s.tasks[k], Settle(s, k);
            s' == s.(tasks := s.tasks - {k}, views := s'.views)
            && s'.views == if Current(s, t) then s.views[t.tab := s.views[t.tab].(capturing := false)] else s.views
  {
  }

  lemma TakeIs(s: State, t: Task)
    requires t.tab in s.views && t.stage.Decoding?
    ensures var e, s' := s.views[t.tab], TakeFrame(s, t);
            && s'.tasks == s.tasks && s'.nextTask == s.nextTask && s'.clock == s.clock
            && s'.views == s.views[t.tab := e.(dirty := false, frame := Some(t.stage.src), bytes := t.stage.bytes,
                                               heldSeq := t.seqNo, heldBegan := t.began)]
  {
    hide Adopt;
  }

  lemma LayoutIs(s: State, tab: Tab, visible: bool, now: nat)
    requires tab in s.views
    ensures var s', e := LayingOut(s, tab, visible, now), s.views[tab];
            var hiding := e.shown != Some(visible) && !visible && e.wanted && !e.capturing;
            var showing := visible && !e.capturing && e.dirty
                           && (e.lastCaptureAt == 0 || now - e.lastCaptureAt >= CAPTURE_RETRY_MS);
            var e' := e.(shown := Some(visible), dirty := e.dirty || hiding,
                         capturing := e.capturing || hiding || showing,
                         lastCaptureAt := if hiding || showing then now else e.lastCaptureAt);
            && s'.views == s.views[tab := e']
            && s'.tasks == (if hiding || showing then s.tasks[s.nextTask := Task(tab, e.id, e.seqNo, s.clock, Shooting)]
                            else s.tasks)
            && s'.nextTask == (if hiding || showing then s.nextTask + 1 else s.nextTask)
            && s'.clock == s.clock
  {
  }

  predicate Tells(s: State, s': State, ev: Event, tab: Tab) {
    && (tab in s'.views <==>
          if ev == Register(tab) then true else if ev == Forget(tab) then false else tab in s.views)
    && (tab in s'.views && ev == Register(tab) ==>
          var e := s'.views[tab];
          !e.wanted && e.shown.None? && e.loadAt == 0 && e.frame.None? && e.dirty && e.id == s.nextId)
    && (tab in s'.views && ev != Register(tab) ==>
          var e, was := s'.views[tab], s.views[tab];
          && e.id == was.id && e.seqNo >= was.seqNo && (Changes(ev, tab) ==> e.seqNo > was.seqNo)
          && (e.seqNo == was.seqNo || Changes(ev, tab) || ev == ReleaseHidden(tab))
          && e.wanted == (if ev.Wanted? && ev.tab == tab then ev.wanted else was.wanted)
          && e.shown == (if ev.Layout? && ev.tab == tab then Some(ev.visible) else was.shown)
          && e.loadAt == (if ev == Navigated(tab, true) then s.clock else was.loadAt))
  }

  predicate CallsBack(ev: Event, k: nat) {
    (ev.Arrived? || ev.Failed? || ev.Decoded?) && ev.task == k
  }

  /** A capture in flight after a step was in flight before, or this step began it; only its callbacks move it. */
  predicate TaskFollows(s: State, s': State, ev: Event, k: nat) {
    && (k in s'.tasks ==>
          var t := s'.tasks[k];
          if k in s.tasks then t == s.tasks[k].(stage := t.stage)
          else
            && ev.Layout? && ev.tab in s.views && k == s.nextTask
            && t == Task(ev.tab, s.views[ev.tab].id, s.views[ev.tab].seqNo, s.clock, Shooting))
    && (k in s.tasks && !CallsBack(ev, k) ==> k in s'.tasks && s'.tasks[k] == s.tasks[k])
  }

  /** The view and its frame are as before. */
  predicate SameFrame(e: Entry, was: Entry) {
    e.id == was.id && e.frame == was.frame && e.heldSeq == was.heldSeq && e.heldBegan == was.heldBegan
  }

  /** A frame held after a step was held before under the same moment and number, or comes from a decoded capture. */
  predicate FrameFollows(s: State, s': State, ev: Event, tab: Tab) {
    tab in s'.views && s'.views[tab].frame.Some? ==>
      && tab in s.views
      && var e := s'.views[tab];
      || SameFrame(e, s.views[tab])
      || (&& ev.Decoded? && ev.task in s.tasks && e.id == s.views[tab].id
          && var t := s.tasks[ev.task];
          && t.stage.Decoding? && t.tab == tab && t.id == e.id
          && e.heldSeq == t.seqNo && e.heldBegan == t.began && e.frame == Some(t.stage.src))
  }

  predicate Follows(s: State, s': State, ev: Event, tab: Tab, k: nat) {
    Tells(s, s', ev, tab) && TaskFollows(s, s', ev, k) && FrameFollows(s, s', ev, tab)
  }

  lemma ShotTells(s: State, ev: Event, tab: Tab, k: nat)
    requires ev.Arrived? || ev.Failed?
    ensures Follows(s, Step(s, ev), ev, tab, k)
  {
    hide Settle;
    if ev.task in s.tasks { SettleIs(s, ev.task); }
  }

  lemma DecodedTells(s: State, ev: Event, tab: Tab, k: nat)
    requires ev.Decoded?
    ensures Follows(s, Step(s, ev), ev, tab, k)
  {
    hide Settle, TakeFrame;
    if ev.task in s.tasks && s.tasks[ev.task].stage.Decoding? {
      SettleIs(s, ev.task);
      var t := s.tasks[ev.task];
      if Current(s, t) { TakeIs(Settle(s, ev.task), t); }
    }
  }

  lemma LayoutTells(s: State, ev: Event, tab: Tab, k: nat)
    requires ev.Layout? && s.nextTask !in s.tasks
    ensures Follows(s, Step(s, ev), ev, tab, k)
  {
    hide LayingOut;
    if ev.tab in s.views {
      LayoutIs(s, ev.tab, ev.visible, ev.now);
    } else {
      NothingLaidOut(s, ev.tab, ev.visible, ev.now);
    }
  }

  lemma EntryTells(s: State, ev: Event, tab: Tab, k: nat)
    requires ev.Register? || ev.Forget?
    ensures Follows(s, Step(s, ev), ev, tab, k)
  {
    hide DropFrame;
    if ev.tab in s.views { DropIs(s, ev.tab); }
  }

  lemma OutdatingTells(s: State, ev: Event, tab: Tab, k: nat)
    requires ev.Navigated? || ev.ReleaseHidden?
    ensures Follows(s, Step(s, ev), ev, tab, k)
  {
    hide DropFrame;
    if ev.tab in s.views { DropIs(MovedOn(s, ev.tab), ev.tab); }
  }

  /** One step, for one view and one capture. */
  lemma StepTells(s: State, ev: Event, tab: Tab, k: nat)
    requires s.nextTask !in s.tasks
    ensures Follows(s, Step(s, ev), ev, tab, k)
  {
    if ev.Wanted? || ev.PageChanged? {
      hide Capture;
    } else {
      hide Step, Follows;
      match ev
      case Layout(_, _, _) => LayoutTells(s, ev, tab, k);
      case Decoded(_) => DecodedTells(s, ev, tab, k);
      case Arrived(_, _) => ShotTells(s, ev, tab, k);
      case Failed(_) => ShotTells(s, ev, tab, k);
      case Register(_) => EntryTells(s, ev, tab, k);
      case Forget(_) => EntryTells(s, ev, tab, k);
      case _ => OutdatingTells(s, ev, tab, k);
    }
  }

  lemma NothingLaidOut(s: State, t: Tab, visible: bool, now: nat)
    requires t !in s.views
    ensures LayingOut(s, t, visible, now) == s
  {
  }

  lemma NoSuchTask(evs: seq<Event>)
    ensures Run(evs).nextTask !in Run(evs).tasks
  {
    RunKeeps(evs);
    hide Views, Sources, Books, TaskOk, Marked;
  }

  /** A view's flags are what its tab's events say, and so is the moment its page last started loading. */
  lemma {:induction false} FollowsEvents(evs: seq<Event>, tab: Tab)
    ensures tab in Run(evs).views <==> Registered(evs, tab)
    ensures Registered(evs, tab) ==>
              var e := Run(evs).views[tab];
              && e.wanted == LastWanted(evs, tab)
              && e.shown == LastShown(evs, tab)
              && e.loadAt == LastLoad(evs, tab)
    decreases |evs|
  {
    hide Step;
    if evs != [] {
      var n := |evs| - 1;
      FollowsEvents(evs[..n], tab);
      ClockCounts(evs[..n]);
      NoSuchTask(evs[..n]);
      StepTells(Run(evs[..n]), evs[n], tab, 0);
    }
  }

  // ------------------------------------------------------------------ where a held frame comes from

  /** The `n`-th event was a layout pass over `tab` that began a capture of the object `id` under the sequence
      number it had then. */
  predicate Began(evs: seq<Event>, tab: Tab, id: nat, seqNo: nat, n: nat) {
    && 1 <= n <= |evs| && evs[n - 1].Layout? && evs[n - 1].tab == tab
    && var before, after := Run(evs[..n - 1]), Run(evs[..n]);
    && tab in before.views && before.views[tab].id == id && before.views[tab].seqNo == seqNo
    && before.nextTask in after.tasks && after.tasks[before.nextTask] == Task(tab, id, seqNo, n, Shooting)
  }

  ghost predicate AllBegan(evs: seq<Event>) {
    var s := Run(evs);
    && (forall k :: k in s.tasks ==>
                      var t := s.tasks[k]; Began(evs, t.tab, t.id, t.seqNo, t.began))
    && (forall tab :: tab in s.views && s.views[tab].frame.Some? ==>
                        var e := s.views[tab]; Began(evs, tab, e.id, e.heldSeq, e.heldBegan))
  }

  lemma BeganStays(evs: seq<Event>, ev: Event, tab: Tab, id: nat, seqNo: nat, n: nat)
    requires Began(evs, tab, id, seqNo, n)
    ensures Began(evs + [ev], tab, id, seqNo, n)
  {
    assert (evs + [ev])[..n] == evs[..n] && (evs + [ev])[..n - 1] == evs[..n - 1];
  }

  lemma {:induction false} EveryCaptureBegan(evs: seq<Event>)
    ensures AllBegan(evs)
    decreases |evs|
  {
    hide Step, Inv;
    if evs != [] {
      var n := |evs| - 1;
      var init, s, s' := evs[..n], Run(evs[..n]), Run(evs);
      EveryCaptureBegan(init);
      assert evs == init + [evs[n]];
      forall k | k in s'.tasks
        ensures var t := s'.tasks[k]; Began(evs, t.tab, t.id, t.seqNo, t.began)
      {
        TaskBegan(init, evs[n], k);
      }
      forall tab | tab in s'.views && s'.views[tab].frame.Some?
        ensures var e := s'.views[tab]; Began(evs, tab, e.id, e.heldSeq, e.heldBegan)
      {
        FrameBegan(init, evs[n], tab);
      }
    }
  }

  lemma TaskBegan(evs: seq<Event>, ev: Event, k: nat)
    requires AllBegan(evs) && k in Step(Run(evs), ev).tasks
    ensures var t := Step(Run(evs), ev).tasks[k]; Began(evs + [ev], t.tab, t.id, t.seqNo, t.began)
  {
    hide Step, Tells, FrameFollows;
    var s := Run(evs);
    NoSuchTask(evs);
    StepTells(s, ev, 0, k);
    var all := evs + [ev];
    assert all[..|evs|] == evs && all[..|evs| + 1] == all;
    if k in s.tasks {
      var t := s.tasks[k];
      BeganStays(evs, ev, t.tab, t.id, t.seqNo, t.began);
    } else {
      ClockCounts(evs);
    }
  }

  lemma FrameBegan(evs: seq<Event>, ev: Event, tab: Tab)
    requires AllBegan(evs) && tab in Step(Run(evs), ev).views && Step(Run(evs), ev).views[tab].frame.Some?
    ensures var e := Step(Run(evs), ev).views[tab]; Began(evs + [ev], tab, e.id, e.heldSeq, e.heldBegan)
  {
    hide Step, Tells, TaskFollows;
    var e := Step(Run(evs), ev).views[tab];
    NoSuchTask(evs);
    StepTells(Run(evs), ev, tab, 0);
    BeganStays(evs, ev, tab, e.id, e.heldSeq, e.heldBegan);
  }

  /** No stale frame, from the events: the picture a view holds was begun by a layout pass over this very registration
      of the tab, later than its page last started loading. */
  lemma FrameIsOfThisPage(evs: seq<Event>, tab: Tab)
    requires Registered(evs, tab)
    ensures tab in Run(evs).views
    ensures var e := Run(evs).views[tab];
            e.frame.Some? ==>
              && Began(evs, tab, e.id, e.heldSeq, e.heldBegan)
              && e.heldBegan > LastLoad(evs, tab)
  {
    hide Began, Step;
    FollowsEvents(evs, tab);
    EveryCaptureBegan(evs);
    NoStaleFrame(evs, tab);
  }

  // ------------------------------------------------------------------ what a clean view shows

  predicate TaskFresh(evs: seq<Event>, t: Task) {
    var s := Run(evs);
    Current(s, t) && t.seqNo == s.views[t.tab].seqNo ==> t.began > LastChange(evs, t.tab)
  }

  predicate FrameFresh(evs: seq<Event>, tab: Tab)
    requires tab in Run(evs).views
  {
    var e := Run(evs).views[tab];
    e.frame.Some? && e.heldSeq == e.seqNo ==> e.heldBegan > LastChange(evs, tab)
  }

  ghost predicate AllFresh(evs: seq<Event>) {
    var s := Run(evs);
    && (forall k :: k in s.tasks ==> TaskFresh(evs, s.tasks[k]))
    && (forall tab :: tab in s.views ==> FrameFresh(evs, tab))
  }

  lemma ChangeStep(evs: seq<Event>, ev: Event, tab: Tab)
    ensures LastChange(evs + [ev], tab) ==
            if ev == Register(tab) then 0 else if Changes(ev, tab) then |evs| + 1 else LastChange(evs, tab)
    ensures Run(evs + [ev]) == Step(Run(evs), ev)
  {
    hide Step;
    assert (evs + [ev])[..|evs|] == evs;
  }

  lemma TaskStaysFresh(evs: seq<Event>, ev: Event, k: nat)
    requires AllFresh(evs) && k in Step(Run(evs), ev).tasks
    ensures TaskFresh(evs + [ev], Step(Run(evs), ev).tasks[k])
  {
    hide Step, Views, Sources, Books, Marked, LastChange, Changes, FrameFresh;
    var s, t := Run(evs), Step(Run(evs), ev).tasks[k];
    RunKeeps(evs);
    ClockCounts(evs);
    ChangeStep(evs, ev, t.tab);
    StepTells(s, ev, t.tab, k);
    if k in s.tasks { TaskFact(s, k); }
  }

  lemma FrameStaysFresh(evs: seq<Event>, ev: Event, tab: Tab)
    requires AllFresh(evs) && tab in Step(Run(evs), ev).views
    ensures Run(evs + [ev]) == Step(Run(evs), ev) && FrameFresh(evs + [ev], tab)
  {
    hide Step, Sources, Books, Marked, LastChange, Changes;
    var s := Run(evs);
    RunKeeps(evs);
    ChangeStep(evs, ev, tab);
    NoSuchTask(evs);
    StepTells(s, ev, tab, 0);
    if tab in s.views { ViewFact(s, tab); }
    if ev.Decoded? && ev.task in s.tasks { TaskFact(s, ev.task); }
  }

  lemma {:induction false} EverythingStaysFresh(evs: seq<Event>)
    ensures AllFresh(evs)
    decreases |evs|
  {
    hide Step, TaskFresh, FrameFresh;
    if evs != [] {
      var n := |evs| - 1;
      EverythingStaysFresh(evs[..n]);
      assert evs == evs[..n] + [evs[n]];
      forall k | k in Run(evs).tasks ensures TaskFresh(evs, Run(evs).tasks[k]) { TaskStaysFresh(evs[..n], evs[n], k); }
      forall tab | tab in Run(evs).views ensures FrameFresh(evs, tab) { FrameStaysFresh(evs[..n], evs[n], tab); }
    }
  }

  /** A view that is not dirty holds a frame, and its page has neither navigated nor changed since
      that frame's capture began. */
  lemma CleanMeansUnchanged(evs: seq<Event>, tab: Tab)
    requires Registered(evs, tab)
    ensures tab in Run(evs).views
    ensures var e := Run(evs).views[tab];
            !e.dirty ==> e.frame.Some? && e.heldBegan > LastChange(evs, tab)
  {
    hide Step, LastChange;
    FollowsEvents(evs, tab);
    EverythingStaysFresh(evs);
    NoStaleFrame(evs, tab);
    assert FrameFresh(evs, tab);
  }

  // ------------------------------------------------------------------ giving frames back

  predicate Leaves(ev: Event, tab: Tab) {
    ev == Navigated(tab, true) || ev == Register(tab) || ev == Forget(tab)
  }

  /** No view of the tab holds a frame any more; the one held, if any, is released, and the ledger has lost one frame
      and exactly its bytes.  The other views and every capture are as before. */
  predicate GaveBack(s: State, s': State, tab: Tab)
    requires tab in s.views
  {
    var e := s.views[tab];
    && (tab in s'.views ==> s'.views[tab].frame.None? && s'.views[tab].bytes == 0 && s'.views[tab].dirty)
    && s'.released == s.released + (if e.frame.Some? then multiset{e.frame.value} else multiset{})
    && s'.ledger.frames + (if e.frame.Some? then 1 else 0) == s.ledger.frames
    && s'.ledger.bytes + e.bytes == s.ledger.bytes
    && s'.tasks == s.tasks
    && s'.views - {tab} == s.views - {tab}
  }

  /** A loading navigation, like a new registration and the end of one, gives the held frame back, released once. */
  lemma LeavingGivesBack(s: State, ev: Event, tab: Tab)
    requires Inv(s) && tab in s.views && Leaves(ev, tab)
    ensures GaveBack(s, Step(s, ev), tab)
    ensures s.views[tab].frame.Some? ==> Step(s, ev).released[s.views[tab].frame.value] == 1
  {
    hide Inv;
    HeldIsCounted(s, tab);
    if ev.Navigated? { NavigatedGivesBack(s, tab); } else { EntryGivesBack(s, ev, tab); }
  }

  lemma NavigatedGivesBack(s: State, tab: Tab)
    requires tab in s.views && s.views[tab].bytes <= s.ledger.bytes
    requires s.views[tab].bytes > 0 <==> s.views[tab].frame.Some?
    requires s.views[tab].frame.Some? ==> 1 <= s.ledger.frames
    ensures GaveBack(s, Step(s, Navigated(tab, true)), tab)
  {
    hide DropFrame;
    DropGivesBack(MovedOn(s, tab), tab);
  }

  lemma EntryGivesBack(s: State, ev: Event, tab: Tab)
    requires tab in s.views && s.views[tab].bytes <= s.ledger.bytes
    requires s.views[tab].bytes > 0 <==> s.views[tab].frame.Some?
    requires s.views[tab].frame.Some? ==> 1 <= s.ledger.frames
    requires ev == Register(tab) || ev == Forget(tab)
    ensures GaveBack(s, Step(s, ev), tab)
  {
    hide DropFrame;
    DropGivesBack(s, tab);
  }

  lemma HeldIsCounted(s: State, tab: Tab)
    requires Inv(s) && tab in s.views
    ensures var e := s.views[tab];
            && e.bytes <= s.ledger.bytes && (e.bytes > 0 <==> e.frame.Some?)
            && (e.frame.Some? ==> 1 <= s.ledger.frames && s.released[e.frame.value] == 0)
  {
    hide Captures;
    ViewFact(s, tab);
    BooksUpdate(s.views, tab, s.views[tab]);
    if s.views[tab].frame.Some? { assert PlaceOk(s, s.views[tab].frame.value); }
  }

  lemma DropGivesBack(s: State, tab: Tab)
    requires tab in s.views && s.views[tab].bytes <= s.ledger.bytes
    requires s.views[tab].bytes > 0 <==> s.views[tab].frame.Some?
    requires s.views[tab].frame.Some? ==> 1 <= s.ledger.frames
    ensures var s', e := DropFrame(s, tab), s.views[tab];
            && s'.released == s.released + (if e.frame.Some? then multiset{e.frame.value} else multiset{})
            && s'.ledger == Ledger(s.ledger.frames - (if e.frame.Some? then 1 else 0), s.ledger.bytes - e.bytes)
            && s'.tasks == s.tasks && s'.views == s.views[tab := e.(frame := None, bytes := 0)]
  {
  }

  /** Any other navigation keeps the frame and only puts it out of date; either way what is in flight for the view is of
      an older page and can no longer be adopted. */
  lemma NavigatingOutdates(s: State, tab: Tab, loading: bool)
    requires Inv(s) && tab in s.views
    ensures var s', e := Step(s, Navigated(tab, loading)), s.views[tab];
            && tab in s'.views && s'.views[tab].dirty
            && (!loading ==> s'.views[tab].frame == e.frame && s'.views[tab].bytes == e.bytes && s'.ledger == s.ledger
                             && s'.released == s.released)
            && forall k :: k in s'.tasks && s'.tasks[k].id == e.id ==> s'.tasks[k].seqNo < s'.views[tab].seqNo
  {
    OlderTasks(s, tab);
    hide Inv, Release;
    DropIs(MovedOn(s, tab), tab);
  }

  // ------------------------------------------------------------------ a capture from its start to its end

  /** A layout pass begins a capture exactly when the view has none in flight and either goes off screen while wanted,
      or is on screen, out of date and not tried within the last second. */
  lemma CaptureBeginsExactly(s: State, tab: Tab, visible: bool, now: nat)
    requires Inv(s)
    ensures var s' := Step(s, Layout(tab, visible, now));
            s.nextTask in s'.tasks <==>
              && tab in s.views && !s.views[tab].capturing
              && if visible then s.views[tab].dirty && (s.views[tab].lastCaptureAt == 0
                                                        || now - s.views[tab].lastCaptureAt >= CAPTURE_RETRY_MS)
                 else s.views[tab].wanted && s.views[tab].shown != Some(false)
  {
    hide Views, Sources, Books;
    hide LayingOut;
    if s.nextTask in s.tasks { TaskFact(s, s.nextTask); }
    if tab in s.views { LayoutIs(s, tab, visible, now); } else { NothingLaidOut(s, tab, visible, now); }
  }

  /** The event neither touches the page, the registration or the frame of the tab, nor is a callback of the capture. */
  predicate Quiet(ev: Event, tab: Tab, k: nat) {
    match ev
    case Register(t) => t != tab
    case Forget(t) => t != tab
    case Navigated(t, _) => t != tab
    case PageChanged(t) => t != tab
    case ReleaseHidden(t) => t != tab
    case Arrived(j, _) => j != k
    case Failed(j) => j != k
    case Decoded(j) => j != k
    case _ => true
  }

  predicate AllQuiet(xs: seq<Event>, tab: Tab, k: nat) {
    xs == [] || (Quiet(xs[|xs| - 1], tab, k) && AllQuiet(xs[..|xs| - 1], tab, k))
  }

  /** The capture is in flight, for the view as it is now. */
  predicate Pending(s: State, k: nat, t: Task) {
    && k in s.tasks && s.tasks[k] == t
    && t.tab in s.views && s.views[t.tab].id == t.id && s.views[t.tab].seqNo == t.seqNo
  }

  lemma QuietKeeps(s: State, ev: Event, k: nat, t: Task)
    requires Pending(s, k, t) && Quiet(ev, t.tab, k) && s.nextTask !in s.tasks
    ensures Pending(Step(s, ev), k, t)
  {
    hide Step, FrameFollows;
    StepTells(s, ev, t.tab, k);
  }

  lemma {:induction false} StaysPending(evs: seq<Event>, xs: seq<Event>, k: nat, t: Task)
    requires Pending(Run(evs), k, t) && AllQuiet(xs, t.tab, k)
    ensures Pending(Run(evs + xs), k, t)
    decreases |xs|
  {
    hide Step, Run, Pending, Quiet, LastChange, Changes;
    if xs == [] {
      assert evs + xs == evs;
    } else {
      var init, ev := evs + xs[..|xs| - 1], xs[|xs| - 1];
      StaysPending(evs, xs[..|xs| - 1], k, t);
      NoSuchTask(init);
      QuietKeeps(Run(init), ev, k, t);
      ChangeStep(init, ev, t.tab);
      assert evs + xs == init + [ev];
    }
  }

  lemma PictureArrives(s: State, k: nat, t: Task, n: nat)
    requires Pending(s, k, t) && t.stage.Shooting? && n > 0
    ensures Pending(Step(s, Arrived(k, Picture(n))), k, t.(stage := Decoding(s.nextSrc, n)))
  {
  }

  lemma PictureIsAdopted(s: State, k: nat, t: Task)
    requires Pending(s, k, t) && t.stage.Decoding?
    ensures var s' := Step(s, Decoded(k));
            && t.tab in s'.views
            && s'.views[t.tab] == s.views[t.tab].(capturing := false, dirty := false, frame := Some(t.stage.src),
                                                  bytes := t.stage.bytes, heldSeq := t.seqNo, heldBegan := t.began)
  {
    hide Settle, TakeFrame;
    SettleIs(s, k);
    TakeIs(Settle(s, k), t);
  }

  /** A capture nothing disturbs succeeds, whatever happens elsewhere between its callbacks: the view ends up clean,
      holding the picture that arrived. */
  lemma CaptureSucceeds(evs: seq<Event>, tab: Tab, visible: bool, now: nat, xs: seq<Event>, n: nat, ys: seq<Event>)
    requires var k := Run(evs).nextTask;
             && n > 0 && AllQuiet(xs, tab, k) && AllQuiet(ys, tab, k)
             && k in Run(evs + [Layout(tab, visible, now)]).tasks
    ensures var k := Run(evs).nextTask;
            var s := Run(evs + [Layout(tab, visible, now)] + xs + [Arrived(k, Picture(n))] + ys + [Decoded(k)]);
            && tab in s.views
            && var e := s.views[tab];
               !e.dirty && !e.capturing && e.frame.Some? && e.bytes == n && e.heldBegan == |evs| + 1
  {
    var s, k := Run(evs), Run(evs).nextTask;
    var layout, arrived := Layout(tab, visible, now), Arrived(k, Picture(n));
    NoSuchTask(evs);
    ClockCounts(evs);
    ChangeStep(evs, layout, tab);
    LayoutTasks(s, tab, visible, now);
    hide Step, Pending, AllQuiet, LastChange;
    var t := Run(evs + [layout]).tasks[k];
    StaysPending(evs + [layout], xs, k, t);
    var e1 := evs + [layout] + xs;
    ChangeStep(e1, arrived, tab);
    PictureArrives(Run(e1), k, t, n);
    var t' := t.(stage := Decoding(Run(e1).nextSrc, n));
    StaysPending(e1 + [arrived], ys, k, t');
    ChangeStep(e1 + [arrived] + ys, Decoded(k), tab);
    PictureIsAdopted(Run(e1 + [arrived] + ys), k, t');
  }

  lemma LayoutTasks(s: State, tab: Tab, visible: bool, now: nat)
    requires s.nextTask !in s.tasks
    ensures var s', k := Step(s, Layout(tab, visible, now)), s.nextTask;
            k in s'.tasks ==>
              && tab in s.views && Pending(s', k, Task(tab, s.views[tab].id, s.views[tab].seqNo, s.clock, Shooting))
  {
    hide LayingOut;
    if tab in s.views { LayoutIs(s, tab, visible, now); } else { NothingLaidOut(s, tab, visible, now); }
  }

  /** One that fails, comes back empty or finds the page moved on leaves the held frame and its state alone, and the
      view free for the next attempt. */
  lemma CaptureFails(s: State, k: nat, shot: Shot, failed: bool)
    requires k in s.tasks && s.tasks[k].stage.Shooting?
    requires var t := s.tasks[k];
             failed || !Current(s, t) || s.views[t.tab].seqNo != t.seqNo || !shot.Picture? || shot.bytes == 0
    ensures var s', t := Step(s, if failed then Failed(k) else Arrived(k, shot)), s.tasks[k];
            && s'.tasks == s.tasks - {k} && s'.ledger == s.ledger && s'.released == s.released
            && s'.views == if Current(s, t) then s.views[t.tab := s.views[t.tab].(capturing := false)] else s.views
  {
  }
}
