/** The freeze-frame protocol of the embedded browser (src/browserHost.ts, src/browserFrameMetrics.ts): who owns a
    captured frame, what the ledger says is retained, and which page a held frame is a picture of.  A capture is two
    promises; each callback is a step of its own that may run at any later time. */
module BrowserFrames {
  import opened Basics
  import opened Totals

  type Tab = nat
  type Src = nat

  const CAPTURE_RETRY_MS := 1000

  // ------------------------------------------------------------------ the ledger

  datatype Ledger = Ledger(frames: nat, bytes: nat)

  function Adopt(l: Ledger, previousBytes: nat, nextBytes: nat): Ledger {
    Ledger(if previousBytes <= 0 then l.frames + 1 else l.frames,
           Max(0, l.bytes - Max(0, previousBytes) + Max(0, nextBytes)))
  }

  function Release(l: Ledger, bytes: nat): Ledger {
    if bytes <= 0 then l else Ledger(Max(0, l.frames - 1), Max(0, l.bytes - bytes))
  }

  // ------------------------------------------------------------------ the host's state

  /** A registered view.  `id` stands for the object's identity.  The last three fields are bookkeeping for the
      statements below and no step reads them: under which sequence number and at which moment the held frame's
      capture began, and when the page last started loading. */
  datatype Entry = Entry(
    id: nat, wanted: bool, shown: Option<bool>, frame: Option<Src>, bytes: nat, lastCaptureAt: nat,
    capturing: bool, seqNo: nat, dirty: bool, heldSeq: nat, heldBegan: nat, loadAt: nat)

  datatype Stage = Shooting | Decoding(src: Src, bytes: nat)

  /** A capture in flight, with what its callbacks closed over. */
  datatype Task = Task(tab: Tab, id: nat, seqNo: nat, began: nat, stage: Stage)

  /** Where a created source is now: bookkeeping too. */
  datatype Place = Held(tab: Tab) | AtDecode(task: nat) | Gone

  datatype State = State(
    views: map<Tab, Entry>, tasks: map<nat, Task>, ledger: Ledger, released: multiset<Src>,
    nextId: nat, nextTask: nat, nextSrc: nat, clock: nat, places: map<Src, Place>)

  const EMPTY := State(map[], map[], Ledger(0, 0), multiset{}, 0, 0, 0, 1, map[])

  datatype Shot = Nothing | Undecodable | Picture(bytes: nat)

  datatype Event =
    | Register(tab: Tab)
    | Forget(tab: Tab)
    | Wanted(tab: Tab, wanted: bool)
    | Layout(tab: Tab, visible: bool, now: nat)
    | Arrived(task: nat, shot: Shot)
    | Failed(task: nat)
    | Decoded(task: nat)
    | Navigated(tab: Tab, loading: bool)
    | PageChanged(tab: Tab)
    | ReleaseHidden(tab: Tab)

  // ------------------------------------------------------------------ the steps

  /** Releases the frame of a view, if it holds one: `releaseFrameSrc` and `releaseBrowserFrame` together. */
  function DropFrame(s: State, tab: Tab): State
    requires tab in s.views
  {
    var e := s.views[tab];
    var s' := s.(views := s.views[tab := e.(frame := None, bytes := 0)], ledger := Release(s.ledger, e.bytes));
    match e.frame
    case None => s'
    case Some(src) => s'.(released := s.released + multiset{src}, places := s.places[src := Gone])
  }

  function Capture(s: State, tab: Tab, now: nat): State
    requires tab in s.views
  {
    var e := s.views[tab];
    s.(views := s.views[tab := e.(capturing := true, lastCaptureAt := now)],
       tasks := s.tasks[s.nextTask := Task(tab, e.id, e.seqNo, s.clock, Shooting)],
       nextTask := s.nextTask + 1)
  }

  predicate ShouldCapture(e: Entry, now: nat) {
    && e.shown == Some(true) && !e.capturing && e.dirty
    && (e.lastCaptureAt == 0 || now - e.lastCaptureAt >= CAPTURE_RETRY_MS)
  }

  function Registering(s: State, tab: Tab): State {
    var s' := if tab in s.views then DropFrame(s, tab) else s;
    s'.(views := s'.views[tab := Entry(s.nextId, false, None, None, 0, 0, false, 0, true, 0, 0, 0)],
        nextId := s.nextId + 1)
  }

  function Forgetting(s: State, tab: Tab): State {
    if tab !in s.views then s
    else
      var s' := DropFrame(s, tab);
      s'.(views := s'.views - {tab})
  }

  /** The view's visibility changes: one more capture as it goes off screen. */
  function Shifting(s: State, tab: Tab, visible: bool, now: nat): State
    requires tab in s.views
  {
    var e := s.views[tab];
    if e.shown == Some(visible) then s
    else if !visible && e.wanted && !e.capturing
    then Capture(s.(views := s.views[tab := e.(shown := Some(visible), dirty := true)]), tab, now)
    else s.(views := s.views[tab := e.(shown := Some(visible))])
  }

  /** What one layout pass decides about captures: that one, and one whenever a shown view's picture is
      known to be wrong. */
  function LayingOut(s: State, tab: Tab, visible: bool, now: nat): State {
    if tab !in s.views then s
    else
      var s' := Shifting(s, tab, visible, now);
      if ShouldCapture(s'.views[tab], now) then Capture(s', tab, now) else s'
  }

  predicate Current(s: State, t: Task) {
    t.tab in s.views && s.views[t.tab].id == t.id
  }

  /** The capture of a view still registered is over; for a view that is gone there is nobody left to tell. */
  function Settle(s: State, k: nat): State
    requires k in s.tasks
  {
    var t := s.tasks[k];
    var s' := s.(tasks := s.tasks - {k});
    if Current(s, t) then s'.(views := s.views[t.tab := s.views[t.tab].(capturing := false)]) else s'
  }

  /** The screenshot came back: given up on when the view is gone or the page has changed, else decoded. */
  function Arriving(s: State, k: nat, shot: Shot): State {
    if k !in s.tasks || s.tasks[k].stage.Decoding? then s
    else
      var t := s.tasks[k];
      if !Current(s, t) || s.views[t.tab].seqNo != t.seqNo || !shot.Picture? || shot.bytes == 0 then Settle(s, k)
      else
        s.(tasks := s.tasks[k := t.(stage := Decoding(s.nextSrc, shot.bytes))],
           nextSrc := s.nextSrc + 1, places := s.places[s.nextSrc := AtDecode(k)])
  }

  /** A view takes a decoded picture over and lets go of the one it held. */
  function TakeFrame(s: State, t: Task): State
    requires t.tab in s.views && t.stage.Decoding?
  {
    var e, src := s.views[t.tab], t.stage.src;
    var e' := e.(dirty := false, frame := Some(src), bytes := t.stage.bytes, heldSeq := t.seqNo, heldBegan := t.began);
    var s' := s.(views := s.views[t.tab := e'], ledger := Adopt(s.ledger, e.bytes, t.stage.bytes),
                 places := s.places[src := Held(t.tab)]);
    match e.frame
    case None => s'
    case Some(was) => s'.(released := s.released + multiset{was}, places := s'.places[was := Gone])
  }

  lemma TakeFrameClock(s: State, t: Task)
    requires t.tab in s.views && t.stage.Decoding?
    ensures TakeFrame(s, t).clock == s.clock
  {
  }

  /** The picture is decoded: adopted by the view it was taken of, or released on the spot. */
  function Adopting(s: State, k: nat): State {
    if k !in s.tasks || !s.tasks[k].stage.Decoding? then s
    else
      var t := s.tasks[k];
      var src := t.stage.src;
      var s1 := Settle(s, k);
      if !Current(s, t) || s.views[t.tab].seqNo != t.seqNo then
        s1.(released := s1.released + multiset{src}, places := s1.places[src := Gone])
      else TakeFrame(s1, t)
  }

  function Navigating(s: State, tab: Tab, loading: bool): State {
    if tab !in s.views then s
    else
      var e := s.views[tab];
      var s' := s.(views := s.views[tab := e.(seqNo := e.seqNo + 1, dirty := true)]);
      if !loading then s'
      else
        var s2 := DropFrame(s', tab);
        s2.(views := s2.views[tab := s2.views[tab].(loadAt := s.clock)])
  }

  function Hiding(s: State, tab: Tab): State {
    if tab !in s.views then s
    else
      var e := s.views[tab];
      if (e.wanted && e.shown != Some(false)) || (e.frame.None? && e.bytes == 0) then s
      else DropFrame(s.(views := s.views[tab := e.(seqNo := e.seqNo + 1, dirty := true)]), tab)
  }

  function Handle(s: State, ev: Event): State {
    match ev
    case Register(tab) => Registering(s, tab)
    case Forget(tab) => Forgetting(s, tab)
    case Wanted(tab, w) => if tab in s.views then s.(views := s.views[tab := s.views[tab].(wanted := w)]) else s
    case Layout(tab, visible, now) => LayingOut(s, tab, visible, now)
    case Arrived(k, shot) => Arriving(s, k, shot)
    case Failed(k) => if k in s.tasks && s.tasks[k].stage.Shooting? then Settle(s, k) else s
    case Decoded(k) => Adopting(s, k)
    case Navigated(tab, loading) => Navigating(s, tab, loading)
    case PageChanged(tab) =>
      if tab in s.views then
        s.(views := s.views[tab := s.views[tab].(seqNo := s.views[tab].seqNo + 1, dirty := true)]) else s
    case ReleaseHidden(tab) => Hiding(s, tab)
  }

  function Step(s: State, ev: Event): State {
    var s' := Handle(s, ev);
    s'.(clock := s.clock + 1)
  }

  function Run(evs: seq<Event>): State {
    if evs == [] then EMPTY else Step(Run(evs[..|evs| - 1]), evs[|evs| - 1])
  }

  // ------------------------------------------------------------------ what every step keeps

  /** One view: a positive byte count goes with a frame, a clean view holds a frame taken at its current sequence
      number, and a held frame's capture began after the page last started loading. */
  predicate ViewOk(s: State, e: Entry) {
    && (e.bytes > 0 <==> e.frame.Some?)
    && (!e.dirty ==> e.frame.Some? && e.heldSeq == e.seqNo)
    && (e.frame.Some? ==> e.heldSeq <= e.seqNo && e.heldBegan > e.loadAt)
    && e.id < s.nextId && e.loadAt < s.clock
  }

  predicate TaskOk(s: State, t: Task) {
    && t.id < s.nextId && t.began <= s.clock
    && (Current(s, t) ==>
          var e := s.views[t.tab];
          e.capturing && t.seqNo <= e.seqNo && (t.seqNo == e.seqNo ==> t.began > e.loadAt))
  }

  ghost predicate Views(s: State) {
    && (forall tab :: tab in s.views ==> ViewOk(s, s.views[tab]))
    && (forall a, b :: a in s.views && b in s.views && s.views[a].id == s.views[b].id ==> a == b)
  }

  predicate InFlight(s: State, id: nat) {
    exists k :: k in s.tasks && s.tasks[k].id == id
  }

  /** A view marked as capturing has a capture in flight. */
  predicate Marked(s: State, tab: Tab) {
    tab in s.views && s.views[tab].capturing ==> InFlight(s, s.views[tab].id)
  }

  /** Captures: each belongs to one object, an object has at most one, and a view marked as capturing has one. */
  ghost predicate Captures(s: State) {
    && (forall k :: k in s.tasks ==> k < s.nextTask && TaskOk(s, s.tasks[k]))
    && (forall k, tab :: k in s.tasks && tab in s.views && s.views[tab].id == s.tasks[k].id ==> tab == s.tasks[k].tab)
    && (forall j, k :: j in s.tasks && k in s.tasks && s.tasks[j].id == s.tasks[k].id ==> j == k)
    && (forall tab :: Marked(s, tab))
  }

  predicate PlaceOk(s: State, src: Src)
    requires src in s.places
  {
    match s.places[src]
    case Held(tab) => tab in s.views && s.views[tab].frame == Some(src) && s.released[src] == 0
    case AtDecode(k) =>
      k in s.tasks && s.tasks[k].stage.Decoding? && s.tasks[k].stage.src == src && s.released[src] == 0
    case Gone => s.released[src] == 1
  }

  ghost predicate Sources(s: State) {
    && (forall src: Src :: src in s.places <==> src < s.nextSrc)
    && (forall src :: src in s.places ==> PlaceOk(s, src))
    && (forall src: Src :: src !in s.places ==> s.released[src] == 0)
    && (forall tab :: tab in s.views && s.views[tab].frame.Some? ==>
                        var src := s.views[tab].frame.value; src in s.places && s.places[src] == Held(tab))
    && (forall k :: k in s.tasks && s.tasks[k].stage.Decoding? ==>
                      var src := s.tasks[k].stage.src;
                      src in s.places && s.places[src] == AtDecode(k) && s.tasks[k].stage.bytes > 0)
  }

  function BytesOf(views: map<Tab, Entry>): map<Tab, nat> {
    map tab | tab in views :: views[tab].bytes
  }

  function FramesOf(views: map<Tab, Entry>): map<Tab, nat> {
    map tab | tab in views :: if views[tab].frame.Some? then 1 else 0
  }

  /** The ledger's totals are the totals over the registered views. */
  ghost predicate Books(s: State) {
    s.ledger == Ledger(Total(FramesOf(s.views)), Total(BytesOf(s.views)))
  }

  ghost predicate Inv(s: State) {
    Views(s) && Captures(s) && Sources(s) && Books(s)
  }

  // ------------------------------------------------------------------ preservation, by kind of change

  lemma BooksUpdate(views: map<Tab, Entry>, tab: Tab, e: Entry)
    ensures Total(BytesOf(views[tab := e])) ==
            Total(BytesOf(views)) + e.bytes - (if tab in views then views[tab].bytes else 0)
    ensures Total(FramesOf(views[tab := e])) ==
            Total(FramesOf(views)) + (if e.frame.Some? then 1 else 0)
            - (if tab in views && views[tab].frame.Some? then 1 else 0)
    ensures tab in views ==> views[tab].bytes <= Total(BytesOf(views))
    ensures tab in views && views[tab].frame.Some? ==> 1 <= Total(FramesOf(views))
  {
    var n := if e.frame.Some? then 1 else 0;
    TotalUpdate(BytesOf(views), tab, e.bytes);
    TotalUpdate(FramesOf(views), tab, n);
    assert BytesOf(views[tab := e]) == BytesOf(views)[tab := e.bytes];
    assert FramesOf(views[tab := e]) == FramesOf(views)[tab := n];
  }

  lemma BooksForget(views: map<Tab, Entry>, tab: Tab)
    requires tab in views && views[tab].bytes == 0 && views[tab].frame.None?
    ensures Total(BytesOf(views - {tab})) == Total(BytesOf(views))
    ensures Total(FramesOf(views - {tab})) == Total(FramesOf(views))
  {
    TotalWithout(BytesOf(views), tab);
    TotalWithout(FramesOf(views), tab);
    assert BytesOf(views - {tab}) == BytesOf(views) - {tab};
    assert FramesOf(views - {tab}) == FramesOf(views) - {tab};
  }

  lemma ViewFact(s: State, tab: Tab)
    requires Views(s) && tab in s.views
    ensures ViewOk(s, s.views[tab])
  {
  }

  lemma TaskFact(s: State, k: nat)
    requires Captures(s) && k in s.tasks
    ensures TaskOk(s, s.tasks[k]) && k < s.nextTask
  {
  }

  lemma TickKeeps(s: State)
    requires Inv(s)
    ensures Inv(s.(clock := s.clock + 1))
  {
    var s' := s.(clock := s.clock + 1);
    hide Captures, Sources, Books;
    assert Views(s');
    hide Views;
    SameCaptures(s, s');
    SameSources(s, s');
    SameBooks(s, s');
  }

  lemma SameBooks(s: State, s': State)
    requires Books(s) && s'.views == s.views && s'.ledger == s.ledger
    ensures Books(s')
  {
  }

  /** Nothing the captures depend on changes, except that sequence numbers may grow and time may pass. */
  lemma SameCaptures(s: State, s': State)
    requires Captures(s) && s'.tasks == s.tasks && s'.nextTask >= s.nextTask && s'.nextId >= s.nextId
    requires s'.clock >= s.clock
    requires forall tab :: tab in s'.views ==>
               && tab in s.views && s'.views[tab].id == s.views[tab].id
               && s'.views[tab].capturing == s.views[tab].capturing
               && s'.views[tab].seqNo >= s.views[tab].seqNo && s'.views[tab].loadAt == s.views[tab].loadAt
    ensures Captures(s')
  {
    forall k | k in s'.tasks ensures TaskOk(s', s'.tasks[k]) { assert TaskOk(s, s.tasks[k]); }
    forall tab ensures Marked(s', tab) {
      assert Marked(s, tab);
    }
  }

  /** Nothing that says where a source is changes. */
  lemma SameSources(s: State, s': State)
    requires Sources(s) && s'.tasks == s.tasks && s'.released == s.released && s'.places == s.places
    requires s'.nextSrc == s.nextSrc
    requires s'.views.Keys == s.views.Keys && forall tab :: tab in s.views ==> s'.views[tab].frame == s.views[tab].frame
    ensures Sources(s')
  {
    forall src | src in s'.places ensures PlaceOk(s', src) { assert PlaceOk(s, src); }
  }

  /** A view's flags and sequence number may move on; its identity, frame and capture mark stay. */
  lemma UpdateKeeps(s: State, tab: Tab, e: Entry)
    requires Inv(s) && tab in s.views && ViewOk(s, e)
    requires var was := s.views[tab];
             && e.id == was.id && e.frame == was.frame && e.bytes == was.bytes && e.capturing == was.capturing
             && e.loadAt == was.loadAt && e.seqNo >= was.seqNo
    ensures Inv(s.(views := s.views[tab := e]))
  {
    hide Views, Captures, Sources, Books;
    var s' := s.(views := s.views[tab := e]);
    OneView(s, s', tab);
    SameCaptures(s, s');
    SameSources(s, s');
    SameTotals(s, tab, e);
  }

  lemma SameTotals(s: State, tab: Tab, e: Entry)
    requires Books(s) && tab in s.views && e.frame == s.views[tab].frame && e.bytes == s.views[tab].bytes
    ensures Books(s.(views := s.views[tab := e]))
  {
    BooksUpdate(s.views, tab, e);
  }

  /** One view is replaced by a sound one of the same identity. */
  lemma OneView(s: State, s': State, tab: Tab)
    requires Views(s) && s'.views.Keys == s.views.Keys && tab in s.views
    requires forall t :: t in s.views && t != tab ==> s'.views[t] == s.views[t]
    requires s'.views[tab].id == s.views[tab].id && ViewOk(s', s'.views[tab]) && s'.nextId == s.nextId
    requires s'.clock == s.clock
    ensures Views(s')
  {
  }

  lemma SameViews(s: State, s': State)
    requires Views(s) && s'.views == s.views && s'.nextId == s.nextId && s'.clock == s.clock
    ensures Views(s')
  {
  }

  lemma DropKeeps(s: State, tab: Tab)
    requires Inv(s) && tab in s.views && s.views[tab].dirty
    ensures Inv(DropFrame(s, tab))
  {
    hide Views, Captures, Sources, Books;
    var s' := DropFrame(s, tab);
    ViewFact(s, tab);
    OneView(s, s', tab);
    SameCaptures(s, s');
    DropSources(s, tab);
    DropBooks(s, tab);
  }

  /** Neither of the ledger's clamps acts on a frame that is really held. */
  lemma DropBooks(s: State, tab: Tab)
    requires Books(s) && tab in s.views && ViewOk(s, s.views[tab])
    ensures Books(DropFrame(s, tab))
  {
    BooksUpdate(s.views, tab, DropFrame(s, tab).views[tab]);
  }

  lemma DropSources(s: State, tab: Tab)
    requires Sources(s) && tab in s.views
    ensures Sources(DropFrame(s, tab))
  {
    var s' := DropFrame(s, tab);
    forall src | src in s'.places ensures PlaceOk(s', src) { assert PlaceOk(s, src); }
  }

  lemma CaptureKeeps(s: State, tab: Tab, now: nat)
    requires Inv(s) && tab in s.views && !s.views[tab].capturing
    ensures Inv(Capture(s, tab, now))
  {
    hide Views, Captures, Sources, Books;
    var s' := Capture(s, tab, now);
    ViewFact(s, tab);
    OneView(s, s', tab);
    CaptureCaptures(s, tab, now);
    CaptureSources(s, tab, now);
    SameTotals(s, tab, s'.views[tab]);
    SameBooks(s.(views := s'.views), s');
  }

  lemma CaptureSources(s: State, tab: Tab, now: nat)
    requires Sources(s) && tab in s.views && s.nextTask !in s.tasks
    ensures Sources(Capture(s, tab, now))
  {
    var s' := Capture(s, tab, now);
    forall src | src in s'.places ensures PlaceOk(s', src) { assert PlaceOk(s, src); }
  }

  lemma CaptureCaptures(s: State, tab: Tab, now: nat)
    requires Views(s) && tab in s.views && Captures(s) && !s.views[tab].capturing
    ensures Captures(Capture(s, tab, now)) && s.nextTask !in s.tasks
  {
    var s', id := Capture(s, tab, now), s.views[tab].id;
    ViewFact(s, tab);
    forall k | k in s.tasks ensures s.tasks[k].id != id { assert TaskOk(s, s.tasks[k]); }
    forall k | k in s'.tasks ensures TaskOk(s', s'.tasks[k]) {
      if k != s.nextTask { assert TaskOk(s, s.tasks[k]); }
    }
    CaptureInFlight(s, tab, now);
    hide Marked;
  }

  lemma CaptureInFlight(s: State, tab: Tab, now: nat)
    requires tab in s.views && s.nextTask !in s.tasks && forall t :: Marked(s, t)
    ensures forall t :: Marked(Capture(s, tab, now), t)
  {
    var s' := Capture(s, tab, now);
    forall t ensures Marked(s', t) {
      assert Marked(s, t);
      if t == tab {
        assert s'.tasks[s.nextTask].id == s.views[tab].id;
      } else if t in s'.views && s'.views[t].capturing {
        var k :| k in s.tasks && s.tasks[k].id == s.views[t].id;
        assert s'.tasks[k].id == s'.views[t].id;
      }
    }
  }

  lemma SettleCaptures(s: State, k: nat)
    requires Captures(s) && k in s.tasks
    ensures Captures(Settle(s, k))
  {
    var s' := Settle(s, k);
    forall j | j in s'.tasks ensures TaskOk(s', s'.tasks[j]) { assert TaskOk(s, s.tasks[j]); }
    forall tab ensures Marked(s', tab) {
      assert Marked(s, tab);
      if tab in s'.views && s'.views[tab].capturing {
        var j :| j in s.tasks && s.tasks[j].id == s.views[tab].id;
        assert j in s'.tasks && s'.tasks[j].id == s'.views[tab].id;
      }
    }
  }

  lemma SettleSources(s: State, k: nat)
    requires Sources(s) && k in s.tasks && s.tasks[k].stage.Shooting?
    ensures Sources(Settle(s, k))
  {
    var s' := Settle(s, k);
    forall src | src in s'.places ensures PlaceOk(s', src) { assert PlaceOk(s, src); }
  }

  lemma SettleRest(s: State, k: nat)
    requires Views(s) && Books(s) && k in s.tasks
    ensures Views(Settle(s, k)) && Books(Settle(s, k))
  {
    hide Views, Books;
    var s', t := Settle(s, k), s.tasks[k];
    if Current(s, t) {
      ViewFact(s, t.tab);
      OneView(s, s', t.tab);
      SameTotals(s, t.tab, s'.views[t.tab]);
      SameBooks(s.(views := s'.views), s');
    } else {
      SameBooks(s, s');
      assert s'.views == s.views;
      SameViews(s, s');
    }
  }

  // ------------------------------------------------------------------ preservation, event by event

  lemma RegisterKeeps(s: State, tab: Tab)
    requires Inv(s) && s.clock > 0
    ensures Inv(Registering(s, tab))
  {
    hide Views, Captures, Sources, Books;
    if tab in s.views {
      var s0 := s.(views := s.views[tab := s.views[tab].(dirty := true)]);
      DirtyKeeps(s, tab);
      DropKeeps(s0, tab);
      EnterKeeps(DropFrame(s0, tab), tab);
      assert Registering(s, tab) == Entered(DropFrame(s0, tab), tab);
    } else {
      EnterKeeps(s, tab);
    }
  }

  lemma DirtyKeeps(s: State, tab: Tab)
    requires Inv(s) && tab in s.views
    ensures Inv(s.(views := s.views[tab := s.views[tab].(dirty := true)]))
  {
    hide Views, Captures, Sources, Books;
    ViewFact(s, tab);
    UpdateKeeps(s, tab, s.views[tab].(dirty := true));
  }

  function Entered(s: State, tab: Tab): State {
    s.(views := s.views[tab := Entry(s.nextId, false, None, None, 0, 0, false, 0, true, 0, 0, 0)],
       nextId := s.nextId + 1)
  }

  /** A fresh object under a tab whose previous object, if any, holds no frame. */
  lemma EnterKeeps(s: State, tab: Tab)
    requires Inv(s) && s.clock > 0 && (tab in s.views ==> s.views[tab].frame.None? && s.views[tab].bytes == 0)
    ensures Inv(Entered(s, tab))
  {
    var s' := Entered(s, tab);
    hide Sources, Books, Captures;
    EnterCaptures(s, tab);
    assert Views(s');
    hide Views;
    EnterRest(s, tab);
  }

  lemma EnterCaptures(s: State, tab: Tab)
    requires Views(s) && Captures(s)
    ensures Captures(Entered(s, tab))
  {
    var s' := Entered(s, tab);
    forall k | k in s'.tasks ensures TaskOk(s', s'.tasks[k]) { assert TaskOk(s, s.tasks[k]); }
    forall t ensures Marked(s', t) {
      assert Marked(s, t);
    }
  }

  lemma EnterRest(s: State, tab: Tab)
    requires Sources(s) && Books(s) && (tab in s.views ==> s.views[tab].frame.None? && s.views[tab].bytes == 0)
    ensures Sources(Entered(s, tab)) && Books(Entered(s, tab))
  {
    var s' := Entered(s, tab);
    forall src | src in s'.places ensures PlaceOk(s', src) { assert PlaceOk(s, src); }
    assert Sources(s');
    hide Sources;
    BooksUpdate(s.views, tab, s'.views[tab]);
  }

  lemma ForgetKeeps(s: State, tab: Tab)
    requires Inv(s)
    ensures Inv(Forgetting(s, tab))
  {
    hide Views, Captures, Sources, Books;
    if tab in s.views {
      var s0 := s.(views := s.views[tab := s.views[tab].(dirty := true)]);
      DirtyKeeps(s, tab);
      DropKeeps(s0, tab);
      LeaveKeeps(DropFrame(s0, tab), tab);
      assert Forgetting(s, tab).views == DropFrame(s0, tab).views - {tab};
    }
  }

  lemma LeaveKeeps(s: State, tab: Tab)
    requires Inv(s) && tab in s.views && s.views[tab].frame.None? && s.views[tab].bytes == 0
    ensures Inv(s.(views := s.views - {tab}))
  {
    var s' := s.(views := s.views - {tab});
    hide Captures, Books;
    assert Sources(s') by {
      forall src | src in s'.places ensures PlaceOk(s', src) { assert PlaceOk(s, src); }
    }
    hide Sources;
    assert Views(s');
    hide Views;
    SameCaptures(s, s');
    LeaveBooks(s, tab);
  }

  lemma LeaveBooks(s: State, tab: Tab)
    requires Books(s) && tab in s.views && s.views[tab].frame.None? && s.views[tab].bytes == 0
    ensures Books(s.(views := s.views - {tab}))
  {
    BooksForget(s.views, tab);
  }

  lemma LayoutKeeps(s: State, tab: Tab, visible: bool, now: nat)
    requires Inv(s)
    ensures Inv(LayingOut(s, tab, visible, now))
  {
    if tab in s.views {
      hide Inv, Capture;
      ShiftKeeps(s, tab, visible, now);
      var s' := Shifting(s, tab, visible, now);
      if ShouldCapture(s'.views[tab], now) { CaptureKeeps(s', tab, now); }
    }
  }

  lemma ShiftKeeps(s: State, tab: Tab, visible: bool, now: nat)
    requires Inv(s) && tab in s.views
    ensures Inv(Shifting(s, tab, visible, now)) && tab in Shifting(s, tab, visible, now).views
  {
    hide Views, Captures, Sources, Books;
    var e := s.views[tab];
    ViewFact(s, tab);
    UpdateKeeps(s, tab, e.(shown := Some(visible)));
    if e.shown != Some(visible) && !visible && e.wanted && !e.capturing {
      var s1 := s.(views := s.views[tab := e.(shown := Some(visible))]);
      DirtyKeeps(s1, tab);
      var d := s1.(views := s1.views[tab := s1.views[tab].(dirty := true)]);
      assert d == s.(views := s.views[tab := e.(shown := Some(visible), dirty := true)]);
      CaptureKeeps(d, tab, now);
    }
  }

  lemma ArrivedKeeps(s: State, k: nat, shot: Shot)
    requires Inv(s)
    ensures Inv(Arriving(s, k, shot))
  {
    hide Inv;
    if k in s.tasks && s.tasks[k].stage.Shooting? {
      var t := s.tasks[k];
      if Current(s, t) && s.views[t.tab].seqNo == t.seqNo && shot.Picture? && shot.bytes > 0 {
        DecodeKeeps(s, k, shot.bytes);
      } else {
        GiveUpKeeps(s, k);
      }
    }
  }

  lemma GiveUpKeeps(s: State, k: nat)
    requires Inv(s) && k in s.tasks && s.tasks[k].stage.Shooting?
    ensures Inv(Settle(s, k))
  {
    hide Views, Captures, Sources, Books;
    SettleCaptures(s, k);
    SettleRest(s, k);
    SettleSources(s, k);
  }

  lemma DecodeKeeps(s: State, k: nat, bytes: nat)
    requires Inv(s) && k in s.tasks && s.tasks[k].stage.Shooting? && bytes > 0
    ensures Inv(s.(tasks := s.tasks[k := s.tasks[k].(stage := Decoding(s.nextSrc, bytes))],
                   nextSrc := s.nextSrc + 1, places := s.places[s.nextSrc := AtDecode(k)]))
  {
    var s' := s.(tasks := s.tasks[k := s.tasks[k].(stage := Decoding(s.nextSrc, bytes))],
                 nextSrc := s.nextSrc + 1, places := s.places[s.nextSrc := AtDecode(k)]);
    hide Views, Captures, Sources, Books;
    SameViews(s, s');
    DecodeCaptures(s, s', k);
    DecodeSources(s, s', k, bytes);
    SameBooks(s, s');
  }

  lemma DecodeCaptures(s: State, s': State, k: nat)
    requires Captures(s) && k in s.tasks && s'.tasks.Keys == s.tasks.Keys && s'.views == s.views
    requires s'.tasks[k] == s.tasks[k].(stage := s'.tasks[k].stage) && s'.nextTask == s.nextTask
    requires forall j :: j in s.tasks && j != k ==> s'.tasks[j] == s.tasks[j]
    requires s'.nextId == s.nextId && s'.clock == s.clock
    ensures Captures(s')
  {
    forall j | j in s'.tasks ensures TaskOk(s', s'.tasks[j]) { assert TaskOk(s, s.tasks[j]); }
    forall tab ensures Marked(s', tab) {
      assert Marked(s, tab);
      if tab in s'.views && s'.views[tab].capturing {
        var j :| j in s.tasks && s.tasks[j].id == s.views[tab].id;
        assert s'.tasks[j].id == s'.views[tab].id;
      }
    }
  }

  lemma DecodeSources(s: State, s': State, k: nat, bytes: nat)
    requires Sources(s) && k in s.tasks && s.tasks[k].stage.Shooting? && bytes > 0
    requires s' == s.(tasks := s.tasks[k := s.tasks[k].(stage := Decoding(s.nextSrc, bytes))],
                      nextSrc := s.nextSrc + 1, places := s.places[s.nextSrc := AtDecode(k)])
    ensures Sources(s')
  {
    forall src | src in s'.places ensures PlaceOk(s', src) {
      if src != s.nextSrc { assert PlaceOk(s, src); }
    }
  }

  lemma DecodedKeeps(s: State, k: nat)
    requires Inv(s)
    ensures Inv(Adopting(s, k))
  {
    hide Views, Captures, Sources, Books;
    if k in s.tasks && s.tasks[k].stage.Decoding? {
      var s', t, s1 := Adopting(s, k), s.tasks[k], Settle(s, k);
      TaskFact(s, k);
      AdoptSources(s, k);
      SettleCaptures(s, k);
      SettleRest(s, k);
      SameCaptures(s1, s');
      if Current(s, t) && s.views[t.tab].seqNo == t.seqNo {
        ViewFact(s1, t.tab);
        OneView(s1, s', t.tab);
        AdoptBooks(s1, s', t.tab);
      } else {
        SameViews(s1, s');
        SameBooks(s1, s');
      }
    }
  }

  /** Adopting counts one frame more exactly when the view held none, and swaps the byte counts. */
  lemma AdoptBooks(s: State, s': State, tab: Tab)
    requires Books(s) && tab in s.views && ViewOk(s, s.views[tab])
    requires s'.views.Keys == s.views.Keys && s'.views == s.views[tab := s'.views[tab]]
    requires s'.views[tab].bytes > 0 && s'.views[tab].frame.Some?
    requires s'.ledger == Adopt(s.ledger, s.views[tab].bytes, s'.views[tab].bytes)
    ensures Books(s')
  {
    BooksUpdate(s.views, tab, s'.views[tab]);
  }

  lemma AdoptSources(s: State, k: nat)
    requires Sources(s) && k in s.tasks && s.tasks[k].stage.Decoding?
    ensures Sources(Adopting(s, k)) && s.tasks[k].stage.bytes > 0
  {
    var s', t := Adopting(s, k), s.tasks[k];
    var src := t.stage.src;
    assert PlaceOk(s, src);
    if Current(s, t) && s.views[t.tab].seqNo == t.seqNo {
      AdoptedSources(s, s', k, src);
    } else {
      forall x | x in s'.places ensures PlaceOk(s', x) { assert PlaceOk(s, x); }
    }
  }

  lemma AdoptedSources(s: State, s': State, k: nat, src: Src)
    requires Sources(s) && k in s.tasks && s.tasks[k].stage.Decoding? && s' == Adopting(s, k)
    requires src == s.tasks[k].stage.src && Current(s, s.tasks[k]) && s.views[s.tasks[k].tab].seqNo == s.tasks[k].seqNo
    ensures Sources(s')
  {
    hide Adopting, PlaceOk;
    AdoptedPlaces(s, s', k, src);
    AdoptedHolders(s, s', k, src);
  }

  lemma AdoptedHolders(s: State, s': State, k: nat, src: Src)
    requires Sources(s) && k in s.tasks && s.tasks[k].stage.Decoding? && s' == Adopting(s, k)
    requires src == s.tasks[k].stage.src && Current(s, s.tasks[k]) && s.views[s.tasks[k].tab].seqNo == s.tasks[k].seqNo
    ensures s'.nextSrc == s.nextSrc && s'.places.Keys == s.places.Keys
    ensures forall x: Src :: x !in s'.places ==> s'.released[x] == 0
    ensures forall tab :: tab in s'.views && s'.views[tab].frame.Some? ==>
                            var x := s'.views[tab].frame.value; x in s'.places && s'.places[x] == Held(tab)
    ensures forall j :: j in s'.tasks && s'.tasks[j].stage.Decoding? ==>
                          var x := s'.tasks[j].stage.src;
                          x in s'.places && s'.places[x] == AtDecode(j) && s'.tasks[j].stage.bytes > 0
  {
    hide Adopting, PlaceOk;
    AdoptedParts(s, k);
    var tab := s.tasks[k].tab;
    assert forall t :: t in s.views && t != tab ==> s'.views[t] == s.views[t];
  }

  /** The parts of the state after an adoption, one by one. */
  lemma AdoptedParts(s: State, k: nat)
    requires k in s.tasks && s.tasks[k].stage.Decoding?
    requires Current(s, s.tasks[k]) && s.views[s.tasks[k].tab].seqNo == s.tasks[k].seqNo
    ensures var s', t := Adopting(s, k), s.tasks[k];
            var src, was := t.stage.src, s.views[t.tab].frame;
            && s'.nextSrc == s.nextSrc && s'.tasks == s.tasks - {k}
            && s'.views.Keys == s.views.Keys && s'.views[t.tab].frame == Some(src)
            && (forall x :: x in s.views && x != t.tab ==> s'.views[x] == s.views[x])
            && s'.places == (if was.Some? then s.places[src := Held(t.tab)][was.value := Gone]
                             else s.places[src := Held(t.tab)])
            && s'.released == (if was.Some? then s.released + multiset{was.value} else s.released)
  {
    hide Adopt;
  }

  lemma AdoptedPlaces(s: State, s': State, k: nat, src: Src)
    requires Sources(s) && k in s.tasks && s.tasks[k].stage.Decoding? && s' == Adopting(s, k)
    requires src == s.tasks[k].stage.src && Current(s, s.tasks[k]) && s.views[s.tasks[k].tab].seqNo == s.tasks[k].seqNo
    ensures forall x :: x in s'.places ==> PlaceOk(s', x)
  {
    hide Adopting;
    AdoptedParts(s, k);
    forall x | x in s'.places ensures PlaceOk(s', x) { assert x == src || PlaceOk(s, x); }
  }

  lemma NavigatedKeeps(s: State, tab: Tab, loading: bool)
    requires Inv(s)
    ensures Inv(Navigating(s, tab, loading).(clock := s.clock + 1))
  {
    hide Inv;
    if tab in s.views {
      MovedOnKeeps(s, tab);
      var s1 := MovedOn(s, tab);
      if loading {
        DropKeeps(s1, tab);
        var s2 := DropFrame(s1, tab);
        TickKeeps(s2);
        LoadKeeps(s2.(clock := s.clock + 1), tab, s.clock);
      } else {
        TickKeeps(s1);
      }
    } else {
      TickKeeps(s);
    }
  }

  function MovedOn(s: State, tab: Tab): State
    requires tab in s.views
  {
    s.(views := s.views[tab := s.views[tab].(seqNo := s.views[tab].seqNo + 1, dirty := true)])
  }

  lemma MovedOnKeeps(s: State, tab: Tab)
    requires Inv(s) && tab in s.views
    ensures Inv(MovedOn(s, tab))
    ensures forall k :: k in s.tasks && s.tasks[k].id == s.views[tab].id ==> s.tasks[k].seqNo <= s.views[tab].seqNo
  {
    hide Views, Captures, Sources, Books;
    ViewFact(s, tab);
    OlderTasks(s, tab);
    UpdateKeeps(s, tab, MovedOn(s, tab).views[tab]);
  }

  lemma OlderTasks(s: State, tab: Tab)
    requires Captures(s) && tab in s.views
    ensures forall k :: k in s.tasks && s.tasks[k].id == s.views[tab].id ==> s.tasks[k].seqNo <= s.views[tab].seqNo
  {
    forall k | k in s.tasks && s.tasks[k].id == s.views[tab].id ensures s.tasks[k].seqNo <= s.views[tab].seqNo {
      assert TaskOk(s, s.tasks[k]);
    }
  }

  /** A view without a frame, whose captures in flight are all of an older page, starts loading. */
  lemma LoadKeeps(s: State, tab: Tab, at: nat)
    requires Inv(s) && tab in s.views && s.views[tab].frame.None? && s.views[tab].dirty && at < s.clock
    requires forall k :: k in s.tasks && s.tasks[k].id == s.views[tab].id ==> s.tasks[k].seqNo < s.views[tab].seqNo
    ensures Inv(s.(views := s.views[tab := s.views[tab].(loadAt := at)]))
  {
    var s' := s.(views := s.views[tab := s.views[tab].(loadAt := at)]);
    hide Views, Sources, Books;
    ViewFact(s, tab);
    OneView(s, s', tab);
    SameSources(s, s');
    SameTotals(s, tab, s'.views[tab]);
    hide Inv;
    LoadCaptures(s, s', tab, at);
    assert Inv(s') by { Assemble(s'); }
  }

  lemma Assemble(s: State)
    requires Views(s) && Captures(s) && Sources(s) && Books(s)
    ensures Inv(s)
  {
  }

  lemma LoadCaptures(s: State, s': State, tab: Tab, at: nat)
    requires Captures(s) && tab in s.views && at < s.clock
    requires s' == s.(views := s.views[tab := s.views[tab].(loadAt := at)])
    requires forall k :: k in s.tasks && s.tasks[k].id == s.views[tab].id ==> s.tasks[k].seqNo < s.views[tab].seqNo
    ensures Captures(s')
  {
    forall k | k in s'.tasks ensures TaskOk(s', s'.tasks[k]) { assert TaskOk(s, s.tasks[k]); }
    forall t ensures Marked(s', t) {
      assert Marked(s, t);
    }
  }

  lemma HideKeeps(s: State, tab: Tab)
    requires Inv(s)
    ensures Inv(Hiding(s, tab))
  {
    hide Inv;
    if tab in s.views {
      MovedOnKeeps(s, tab);
      DropKeeps(MovedOn(s, tab), tab);
    }
  }

  lemma WantedKeeps(s: State, tab: Tab, w: bool)
    requires Inv(s) && tab in s.views
    ensures Inv(s.(views := s.views[tab := s.views[tab].(wanted := w)]))
  {
    hide Views, Captures, Sources, Books;
    ViewFact(s, tab);
    UpdateKeeps(s, tab, s.views[tab].(wanted := w));
  }

  /** Every event, in whatever order the callbacks come, keeps the invariant. */
  lemma StepKeeps(s: State, ev: Event)
    requires Inv(s) && s.clock > 0
    ensures Inv(Step(s, ev)) && Step(s, ev).clock > 0
  {
    hide Inv;
    if ev.Navigated? {
      NavigatedKeeps(s, ev.tab, ev.loading);
    } else {
      HandleKeeps(s, ev);
      TickKeeps(Handle(s, ev));
    }
  }

  lemma HandleKeeps(s: State, ev: Event)
    requires Inv(s) && s.clock > 0 && !ev.Navigated?
    ensures Inv(Handle(s, ev)) && Handle(s, ev).clock == s.clock
  {
    hide Inv;
    match ev {
      case Register(tab) => RegisterKeeps(s, tab);
      case Forget(tab) => ForgetKeeps(s, tab);
      case Wanted(tab, w) => if tab in s.views { WantedKeeps(s, tab, w); }
      case Layout(tab, visible, now) => LayoutKeeps(s, tab, visible, now);
      case Arrived(k, shot) => ArrivedKeeps(s, k, shot);
      case Failed(k) => if k in s.tasks && s.tasks[k].stage.Shooting? { GiveUpKeeps(s, k); }
      case Decoded(k) => DecodedKeeps(s, k);
      case PageChanged(tab) => if tab in s.views { MovedOnKeeps(s, tab); }
      case ReleaseHidden(tab) => HideKeeps(s, tab);
    }
  }

  lemma EmptyIsSound()
    ensures Inv(EMPTY)
  {
    assert BytesOf(EMPTY.views) == map[] && FramesOf(EMPTY.views) == map[];
    assert Views(EMPTY) && Books(EMPTY);
    assert Captures(EMPTY);
  }

  lemma {:induction false} RunKeeps(evs: seq<Event>)
    ensures Inv(Run(evs)) && Run(evs).clock > 0
    decreases |evs|
  {
    if evs == [] {
      EmptyIsSound();
    } else {
      RunKeeps(evs[..|evs| - 1]);
      hide Inv;
      StepKeeps(Run(evs[..|evs| - 1]), evs[|evs| - 1]);
    }
  }

  // ------------------------------------------------------------------ what the invariant means

  function Holders(s: State, src: Src): set<Tab> {
    set tab | tab in s.views && s.views[tab].frame == Some(src)
  }

  function Decoders(s: State, src: Src): set<nat> {
    set k | k in s.tasks && s.tasks[k].stage.Decoding? && s.tasks[k].stage.src == src
  }

  /** After any sequence of events every source ever created is in exactly one place: held by one registered view,
      waiting in one decode, or released - once, and by then held by nobody. */
  lemma Ownership(evs: seq<Event>, src: Src)
    ensures var s := Run(evs);
            |Holders(s, src)| + |Decoders(s, src)| + s.released[src] == if src < s.nextSrc then 1 else 0
  {
    RunKeeps(evs);
    var s := Run(evs);
    if src < s.nextSrc {
      assert PlaceOk(s, src);
      match s.places[src] {
        case Held(tab) => assert Holders(s, src) == {tab}; assert Decoders(s, src) == {};
        case AtDecode(k) => assert Holders(s, src) == {}; assert Decoders(s, src) == {k};
        case Gone => assert Holders(s, src) == {}; assert Decoders(s, src) == {};
      }
    } else {
      assert Holders(s, src) == {} && Decoders(s, src) == {};
    }
  }

  /** The ledger is exactly the sum over the registered views, and covers every frame a release could take off it, so
      neither of its clamps ever changes a figure. */
  lemma LedgerAgrees(evs: seq<Event>, tab: Tab)
    ensures var s := Run(evs); s.ledger == Ledger(Total(FramesOf(s.views)), Total(BytesOf(s.views)))
    ensures var s := Run(evs);
            tab in s.views && s.views[tab].frame.Some? ==> s.views[tab].bytes <= s.ledger.bytes && 1 <= s.ledger.frames
    ensures var s := Run(evs); tab in s.views ==> (s.views[tab].bytes > 0 <==> s.views[tab].frame.Some?)
  {
    RunKeeps(evs);
    var s := Run(evs);
    hide Captures, Sources;
    if tab in s.views { BooksUpdate(s.views, tab, s.views[tab]); }
  }

  /** No stale frame is ever shown: the capture behind a held frame began after the page last started loading, a view
      that is not dirty holds a picture of its current sequence number, and no view has two captures in flight. */
  lemma NoStaleFrame(evs: seq<Event>, tab: Tab)
    ensures var s := Run(evs);
            tab in s.views ==>
              var e := s.views[tab];
              && (e.frame.Some? ==> e.heldBegan > e.loadAt)
              && (!e.dirty ==> e.frame.Some? && e.heldSeq == e.seqNo)
              && (forall j, k ::
                    j in s.tasks && k in s.tasks && s.tasks[j].id == e.id && s.tasks[k].id == e.id ==> j == k)
              && (e.capturing <==> InFlight(s, e.id))
  {
    RunKeeps(evs);
    var s := Run(evs);
    if tab in s.views {
      var e := s.views[tab];
      ViewFact(s, tab);
      assert Marked(s, tab);
      hide Views, Sources, Books;
      if k :| k in s.tasks && s.tasks[k].id == e.id { TaskFact(s, k); }
    }
  }

  // ------------------------------------------------------------------ the host

  /** The module's state and its entry points.  `tasks` are the callbacks still to come, `released` the revoked
      sources; `clock` and `places` are the bookkeeping of the statements above. */
  class BrowserHost {
    var views: map<Tab, Entry>
    var ledger: Ledger
    var tasks: map<nat, Task>
    var released: multiset<Src>
    var nextId: nat
    var nextTask: nat
    var nextSrc: nat
    var clock: nat
    var places: map<Src, Place>

    ghost function Model(): State
      reads this
    {
      State(views, tasks, ledger, released, nextId, nextTask, nextSrc, clock, places)
    }

    constructor ()
      ensures Model() == EMPTY
    {
      views, tasks, ledger, released := map[], map[], Ledger(0, 0), multiset{};
      nextId, nextTask, nextSrc, clock, places := 0, 0, 0, 1, map[];
    }

    method ReleaseFrameSrc(src: Option<Src>)
      modifies this`released, this`places
      ensures released == if src.Some? then old(released) + multiset{src.value} else old(released)
      ensures places == if src.Some? then old(places)[src.value := Gone] else old(places)
    {
      if src.Some? {
        released := released + multiset{src.value};
        places := places[src.value := Gone];
      }
    }

    /** Lets go of the frame a view holds. */
    method LetGo(tab: Tab)
      requires tab in views
      modifies this`views, this`ledger, this`released, this`places
      ensures Model() == DropFrame(old(Model()), tab)
    {
      var e := views[tab];
      views := views[tab := e.(frame := None, bytes := 0)];
      ReleaseFrameSrc(e.frame);
      ledger := Release(ledger, e.bytes);
    }

    method RegisterBrowserView(tab: Tab)
      modifies this
      ensures Model() == Step(old(Model()), Register(tab))
    {
      if tab in views { LetGo(tab); }
      views := views[tab := Entry(nextId, false, None, None, 0, 0, false, 0, true, 0, 0, 0)];
      nextId := nextId + 1;
      clock := clock + 1;
    }

    method ForgetBrowserView(tab: Tab)
      modifies this
      ensures Model() == Step(old(Model()), Forget(tab))
    {
      if tab in views {
        LetGo(tab);
        views := views - {tab};
      }
      clock := clock + 1;
    }

    method StartCapture(tab: Tab, now: nat)
      requires tab in views
      modifies this`views, this`tasks, this`nextTask
      ensures Model() == Capture(old(Model()), tab, now)
    {
      var e := views[tab];
      views := views[tab := e.(capturing := true, lastCaptureAt := now)];
      tasks := tasks[nextTask := Task(tab, e.id, e.seqNo, clock, Shooting)];
      nextTask := nextTask + 1;
    }

    /** The view's visibility is pushed when it changed; one hidden just now is photographed once more. */
    method PushVisible(tab: Tab, visible: bool, now: nat)
      requires tab in views
      modifies this`views, this`tasks, this`nextTask
      ensures Model() == Shifting(old(Model()), tab, visible, now)
    {
      if Some(visible) != views[tab].shown {
        var hiding := !visible && views[tab].wanted && !views[tab].capturing;
        views := views[tab := views[tab].(shown := Some(visible))];
        if hiding {
          views := views[tab := views[tab].(dirty := true)];
          StartCapture(tab, now);
        }
      }
    }

    /** The capture decisions of one layout pass. */
    method Apply(tab: Tab, visible: bool, now: nat)
      modifies this
      ensures Model() == Step(old(Model()), Layout(tab, visible, now))
    {
      if tab in views {
        PushVisible(tab, visible, now);
        if ShouldCapture(views[tab], now) { StartCapture(tab, now); }
      }
      clock := clock + 1;
    }

    /** The first callback of a capture: the screenshot arrived. */
    method FrameArrived(k: nat, shot: Shot)
      modifies this
      ensures Model() == Step(old(Model()), Arrived(k, shot))
    {
      if k in tasks && tasks[k].stage.Shooting? {
        var t := tasks[k];
        if t.tab !in views || views[t.tab].id != t.id {
          SettleCapture(k);
        } else if views[t.tab].seqNo != t.seqNo || !shot.Picture? || shot.bytes == 0 {
          SettleCapture(k);
        } else {
          tasks := tasks[k := t.(stage := Decoding(nextSrc, shot.bytes))];
          places := places[nextSrc := AtDecode(k)];
          nextSrc := nextSrc + 1;
        }
      }
      clock := clock + 1;
    }

    method FrameFailed(k: nat)
      modifies this
      ensures Model() == Step(old(Model()), Failed(k))
    {
      if k in tasks && tasks[k].stage.Shooting? {
        SettleCapture(k);
      }
      clock := clock + 1;
    }

    method SettleCapture(k: nat)
      requires k in tasks
      modifies this`views, this`tasks
      ensures Model() == Settle(old(Model()), k)
    {
      var t := tasks[k];
      tasks := tasks - {k};
      if t.tab in views && views[t.tab].id == t.id {
        views := views[t.tab := views[t.tab].(capturing := false)];
      }
    }

    method TakeOver(t: Task)
      requires t.tab in views && t.stage.Decoding?
      modifies this
      ensures Model() == TakeFrame(old(Model()), t)
    {
      var e := views[t.tab];
      views := views[t.tab := e.(dirty := false, frame := Some(t.stage.src), bytes := t.stage.bytes,
                                 heldSeq := t.seqNo, heldBegan := t.began)];
      ledger := Adopt(ledger, e.bytes, t.stage.bytes);
      places := places[t.stage.src := Held(t.tab)];
      ReleaseFrameSrc(e.frame);
    }

    /** The second callback of a capture: the picture is decoded. */
    method FrameDecoded(k: nat)
      modifies this
      ensures Model() == Step(old(Model()), Decoded(k))
    {
      hide TakeFrame;
      if k in tasks && tasks[k].stage.Decoding? {
        var t := tasks[k];
        SettleCapture(k);
        if t.tab !in views || views[t.tab].id != t.id || views[t.tab].seqNo != t.seqNo {
          ReleaseFrameSrc(Some(t.stage.src));
        } else {
          TakeFrameClock(Model(), t);
          TakeOver(t);
        }
      }
      clock := clock + 1;
    }

    method BrowserViewChanged(tab: Tab, loading: bool)
      modifies this
      ensures Model() == Step(old(Model()), Navigated(tab, loading))
    {
      if tab in views {
        views := views[tab := views[tab].(seqNo := views[tab].seqNo + 1, dirty := true)];
        if loading {
          LetGo(tab);
          views := views[tab := views[tab].(loadAt := clock)];
        }
      }
      clock := clock + 1;
    }

    method BrowserPageChanged(tab: Tab)
      modifies this
      ensures Model() == Step(old(Model()), PageChanged(tab))
    {
      if tab in views {
        views := views[tab := views[tab].(seqNo := views[tab].seqNo + 1, dirty := true)];
      }
      clock := clock + 1;
    }

    method SetBrowserViewWanted(tab: Tab, wanted: bool)
      modifies this
      ensures Model() == Step(old(Model()), Wanted(tab, wanted))
    {
      if tab in views { views := views[tab := views[tab].(wanted := wanted)]; }
      clock := clock + 1;
    }

    /** Drops the frame of every view that is already hidden, in the order given - the map's own, of which the model
        keeps no trace - leaves the views on show and those without one alone, and says how much that was. */
    method ReleaseHiddenBrowserFrames(order: seq<Tab>) returns (frames: nat, bytes: nat)
      requires Inv(Model()) && clock > 0
      requires forall tab :: tab in views ==> tab in order
      modifies this
      ensures Model() == Hidden(old(Model()), order)
      ensures views.Keys == old(views).Keys
      ensures forall tab :: tab in views ==>
                if OnShow(old(views)[tab]) || HoldsNothing(old(views)[tab]) then views[tab] == old(views)[tab]
                else HoldsNothing(views[tab])
      ensures frames + ledger.frames == old(ledger.frames) && bytes + ledger.bytes == old(ledger.bytes)
    {
      frames, bytes := 0, 0;
      ghost var s := Model();
      hide Inv;
      var i := 0;
      while i < |order|
        invariant 0 <= i <= |order| && Model() == Hidden(s, order[..i])
        invariant frames + ledger.frames == s.ledger.frames && bytes + ledger.bytes == s.ledger.bytes
      {
        assert order[..i + 1][..i] == order[..i];
        HiddenKeeps(s, order[..i]);
        GivesUpExactly(Model(), order[i]);
        var f, b := ReleaseHiddenFrame(order[i]);
        frames, bytes := frames + f, bytes + b;
        i := i + 1;
      }
      assert order[..|order|] == order;
      forall tab: Tab
        ensures tab in views <==> tab in s.views
        ensures tab in s.views ==>
                  if OnShow(s.views[tab]) || HoldsNothing(s.views[tab]) then views[tab] == s.views[tab]
                  else HoldsNothing(views[tab])
      {
        HiddenDrops(s, order, tab);
      }
    }

    method ReleaseHiddenFrame(tab: Tab) returns (frames: nat, bytes: nat)
      modifies this
      ensures Model() == Step(old(Model()), ReleaseHidden(tab))
      ensures (frames, bytes) == GivesUp(old(Model()), tab)
    {
      hide Release;
      frames, bytes := 0, 0;
      if tab in views && !(views[tab].wanted && views[tab].shown != Some(false))
         && !(views[tab].frame.None? && views[tab].bytes == 0)
      {
        frames, bytes := 1, views[tab].bytes;
        views := views[tab := views[tab].(seqNo := views[tab].seqNo + 1, dirty := true)];
        LetGo(tab);
      }
      clock := clock + 1;
    }
  }

  function Hidden(s: State, order: seq<Tab>): State {
    if order == [] then s else Step(Hidden(s, order[..|order| - 1]), ReleaseHidden(order[|order| - 1]))
  }

  /** The view is in front, and was not hidden by anything. */
  predicate OnShow(e: Entry) {
    e.wanted && e.shown != Some(false)
  }

  predicate HoldsNothing(e: Entry) {
    e.frame.None? && e.bytes == 0
  }

  /** One view after a pass over some tabs: left alone when it is on show or has nothing to give up - a capture in
      flight for it may still land - and without a frame when the pass met it. */
  lemma {:induction false} HiddenDrops(s: State, order: seq<Tab>, tab: Tab)
    ensures var t := Hidden(s, order);
            && (tab in t.views <==> tab in s.views)
            && (tab in s.views ==>
                  if OnShow(s.views[tab]) || HoldsNothing(s.views[tab]) then t.views[tab] == s.views[tab]
                  else !OnShow(t.views[tab]) && (tab in order ==> HoldsNothing(t.views[tab])))
    decreases |order|
  {
    hide Step;
    if order != [] {
      var init, k := order[..|order| - 1], order[|order| - 1];
      HiddenDrops(s, init, tab);
      HidingOne(Hidden(s, init), k, tab);
      assert tab in order ==> tab in init || tab == k;
    }
  }

  lemma HidingOne(s: State, k: Tab, tab: Tab)
    ensures var t := Step(s, ReleaseHidden(k));
            && (tab in t.views <==> tab in s.views)
            && (tab in s.views && (tab != k || OnShow(s.views[tab]) || HoldsNothing(s.views[tab])) ==>
                  t.views[tab] == s.views[tab])
            && (tab in s.views && tab == k && !OnShow(s.views[tab]) ==>
                  !OnShow(t.views[tab]) && HoldsNothing(t.views[tab]))
  {
    hide Release;
  }

  /** What a hidden view's frame counts for. */
  function GivesUp(s: State, tab: Tab): (nat, nat) {
    if tab !in s.views || (s.views[tab].wanted && s.views[tab].shown != Some(false))
       || (s.views[tab].frame.None? && s.views[tab].bytes == 0) then (0, 0)
    else (1, s.views[tab].bytes)
  }

  /** What one hidden view gives up is exactly what the ledger loses. */
  lemma GivesUpExactly(s: State, tab: Tab)
    requires Inv(s)
    ensures var s', (f, b) := Step(s, ReleaseHidden(tab)), GivesUp(s, tab);
            s'.ledger.frames + f == s.ledger.frames && s'.ledger.bytes + b == s.ledger.bytes
  {
    hide Captures, Sources, Views;
    if tab in s.views {
      ViewFact(s, tab);
      BooksUpdate(s.views, tab, s.views[tab]);
    }
  }

  lemma {:induction false} HiddenKeeps(s: State, order: seq<Tab>)
    requires Inv(s) && s.clock > 0
    ensures Inv(Hidden(s, order)) && Hidden(s, order).clock > 0
    decreases |order|
  {
    hide Inv;
    if order != [] {
      HiddenKeeps(s, order[..|order| - 1]);
      StepKeeps(Hidden(s, order[..|order| - 1]), ReleaseHidden(order[|order| - 1]));
    }
  }
}
