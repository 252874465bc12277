/** The attention queue (src/attention.ts): one list of things that happened or are being asked, newest first; posts
    that wait out a dwell before anyone can see them; and the bridge that announces items to the system once. */
module Attention {
  import opened Basics

  datatype Resolution = Answered | Withdrawn | Dismissed

  /** What a poster says.  An absent optional field leaves the stored one alone when a post lands on an item. */
  datatype Content = Content(
    tone: string, title: string, source: string, body: Option<string>, projectId: Option<string>,
    projectName: Option<string>, target: Option<string>, osHandled: Option<bool>)

  datatype Input = Input(question: bool, content: Content, key: Option<string>, ts: Option<int>)

  datatype Item = Item(
    id: nat, question: bool, content: Content, key: Option<string>, ts: int, readAt: Option<int>,
    resolvedAt: Option<int>, resolution: Option<Resolution>, toastDismissedAt: Option<int>)

  const MAX_ITEMS := 300

  predicate IsOutstanding(x: Item) {
    x.question && x.resolvedAt.None?
  }

  /** A key that identifies an asker: the empty string does not. */
  predicate Keyed(input: Input) {
    input.key.Some? && input.key.value != ""
  }

  function Over<T>(old': Option<T>, new': Option<T>): Option<T> {
    if new'.Some? then new' else old'
  }

  function Overlay(c: Content, d: Content): Content {
    Content(d.tone, d.title, d.source, Over(c.body, d.body), Over(c.projectId, d.projectId),
            Over(c.projectName, d.projectName), Over(c.target, d.target), Over(c.osHandled, d.osHandled))
  }

  /** The item with the input's fields over its own; identity and times stay. */
  function Merge(x: Item, input: Input): Item {
    x.(question := input.question, content := Overlay(x.content, input.content), key := Over(x.key, input.key))
  }

  predicate Same(a: Item, b: Item) {
    a.question == b.question && a.content.(osHandled := None) == b.content.(osHandled := None)
  }

  function Signature(input: Input): (bool, Content) {
    (input.question, input.content.(osHandled := None))
  }

  // ------------------------------------------------------------------ looking things up

  datatype Query =
    | Outstanding(key: string)
    | Waiting(id: nat, asker: Option<string>, since: int)
    | Fyi(key: string)
    | Collapsible(input: Input, now: int, window: int)
    | WithId(id: nat)

  predicate Fits(q: Query, x: Item) {
    match q
    case Outstanding(key) => IsOutstanding(x) && x.key == Some(key)
    case Waiting(id, asker, since) => IsOutstanding(x) && x.id == id && x.key == asker && x.ts == since
    case Fyi(key) => !x.question && x.key == Some(key)
    case Collapsible(input, now, window) =>
      && x.question && x.key == input.key && x.resolvedAt.Some? && x.resolution == Some(Withdrawn)
      && now - x.resolvedAt.value <= window && Same(x, Merge(x, input))
    case WithId(id) => x.id == id
  }

  /** The position of the first item that fits, or the length. */
  function First(items: seq<Item>, q: Query): nat {
    if items == [] then 0
    else
      var n := |items| - 1;
      var i := First(items[..n], q);
      if i < n then i else if Fits(q, items[n]) then n else n + 1
  }

  function Count(items: seq<Item>, q: Query): nat {
    if items == [] then 0
    else Count(items[..|items| - 1], q) + if Fits(q, items[|items| - 1]) then 1 else 0
  }

  function One(q: Query, x: Item): nat {
    if Fits(q, x) then 1 else 0
  }

  // ------------------------------------------------------------------ the list operations

  function Unresolved(items: seq<Item>): seq<Item> {
    if items == [] then []
    else Unresolved(items[..|items| - 1]) + if IsOutstanding(items[|items| - 1]) then [items[|items| - 1]] else []
  }

  function Trim(items: seq<Item>): seq<Item> {
    if |items| <= MAX_ITEMS then items else items[..MAX_ITEMS] + Unresolved(items[MAX_ITEMS..])
  }

  function ResolveOne(x: Item, now: int, how: Resolution): Item {
    x.(resolvedAt := Some(now), resolution := Some(how))
  }

  function ResolveUnder(items: seq<Item>, key: string, now: int, how: Resolution): seq<Item> {
    if items == [] then []
    else
      var x := items[|items| - 1];
      ResolveUnder(items[..|items| - 1], key, now, how)
      + [if Fits(Outstanding(key), x) then ResolveOne(x, now, how) else x]
  }

  function ReadAll(items: seq<Item>, now: int): seq<Item> {
    if items == [] then []
    else
      var x := items[|items| - 1];
      ReadAll(items[..|items| - 1], now) + [if x.readAt.None? then x.(readAt := Some(now)) else x]
  }

  predicate SomeUnread(items: seq<Item>) {
    items != [] && (items[|items| - 1].readAt.None? || SomeUnread(items[..|items| - 1]))
  }

  function ToFront(items: seq<Item>, j: nat, x: Item): seq<Item>
    requires j < |items|
  {
    [x] + (items[..j] + items[j + 1..])
  }

  // ------------------------------------------------------------------ committing a post

  datatype Committed = Committed(items: seq<Item>, id: nat, nextId: nat)

  function Refreshed(x: Item, input: Input, ts: int): Item {
    Merge(x, input).(ts := ts, readAt := None, toastDismissedAt := None)
  }

  function Reopened(x: Item, input: Input, ts: int): Item {
    Refreshed(x, input, ts).(resolvedAt := None, resolution := None)
  }

  function Insert(items: seq<Item>, input: Input, ts: int, fixedId: Option<nat>, nextId: nat): Committed {
    var id := if fixedId.Some? then fixedId.value else nextId;
    var fresh' := Item(id, input.question, input.content, input.key, ts, None, None, None, None);
    Committed(Trim([fresh'] + items), id, if fixedId.Some? then nextId else nextId + 1)
  }

  function Commit(items: seq<Item>, input: Input, fixedId: Option<nat>, window: int, now: int, nextId: nat): Committed {
    var ts := if input.ts.Some? then input.ts.value else now;
    if !Keyed(input) then Insert(items, input, ts, fixedId, nextId)
    else
      var i := First(items, Outstanding(input.key.value));
      var j := First(items, Fyi(input.key.value));
      var k := First(items, Collapsible(input, ts, window));
      FirstIsWithin(items, Outstanding(input.key.value));
      FirstIsWithin(items, Fyi(input.key.value));
      FirstIsWithin(items, Collapsible(input, ts, window));
      if i < |items| then
        var merged := Merge(items[i], input);
        Committed(if Same(items[i], merged) then items else Trim(items[i := merged]), items[i].id, nextId)
      else if !input.question && j < |items| then
        Committed(Trim(ToFront(items, j, Refreshed(items[j], input, ts))), items[j].id, nextId)
      else if input.question && window > 0 && k < |items| then
        Committed(Trim(ToFront(items, k, Reopened(items[k], input, ts))), items[k].id, nextId)
      else Insert(items, input, ts, fixedId, nextId)
  }

  lemma {:induction false} FirstIsWithin(items: seq<Item>, q: Query)
    ensures First(items, q) <= |items|
    ensures First(items, q) < |items| ==> Fits(q, items[First(items, q)])
    ensures First(items, q) == |items| <==> Count(items, q) == 0
    decreases |items|
  {
    if items != [] { FirstIsWithin(items[..|items| - 1], q); }
  }

  // ------------------------------------------------------------------ the store

  /** A post waiting out its dwell.  `token` stands for the object's identity, which its timer closed over. */
  datatype Staged = Staged(token: nat, id: nat, input: Input, window: int, signature: (bool, Content))

  datatype State = State(items: seq<Item>, staged: map<string, Staged>, nextId: nat, nextToken: nat)

  datatype Event =
    | Post(input: Input, dwellMs: int, collapseMs: int, now: int)
    | TimerFires(key: string, token: nat, now: int)
    | Resolve(id: nat, how: Resolution, now: int)
    | ResolveByKey(key: string, how: Resolution, now: int)
    | DismissToast(id: nat, now: int)
    | MarkAllRead(now: int)
    | Clear

  function Committing(s: State, input: Input, fixedId: Option<nat>, window: int, now: int): State {
    var c := Commit(s.items, input, fixedId, window, now, s.nextId);
    s.(items := c.items, nextId := c.nextId)
  }

  predicate Staging(ev: Event) {
    ev.Post? && ev.dwellMs > 0 && Keyed(ev.input)
  }

  /** The id a new candidate carries: its predecessor's, else that of the withdrawn item it would reopen,
      else a new one. */
  function StagedId(s: State, input: Input, ts: int, window: int): (id: Option<nat>) {
    var key := input.key;
    if key.Some? && key.value in s.staged then Some(s.staged[key.value].id)
    else if input.question && window > 0 then
      var k := First(s.items, Collapsible(input, ts, window));
      FirstIsWithin(s.items, Collapsible(input, ts, window));
      if k < |s.items| then Some(s.items[k].id) else None
    else None
  }

  function StagePost(s: State, input: Input, collapseMs: int, now: int): State
    requires Keyed(input)
  {
    var key := input.key.value;
    if key in s.staged && s.staged[key].signature == Signature(input) then
      s.(staged := s.staged[key := s.staged[key].(input := input.(ts := s.staged[key].input.ts))])
    else
      var ts := if input.ts.Some? then input.ts.value else now;
      var window := Max(0, collapseMs);
      var id := StagedId(s, input, ts, window);
      s.(staged := s.staged[key := Staged(s.nextToken, if id.Some? then id.value else s.nextId, input.(ts := Some(ts)),
                                          window, Signature(input))],
         nextId := if id.Some? then s.nextId else s.nextId + 1,
         nextToken := s.nextToken + 1)
  }

  function Without(staged: map<string, Staged>, id: nat): map<string, Staged> {
    map k | k in staged && staged[k].id != id :: staged[k]
  }

  function ResolveItem(items: seq<Item>, id: nat, now: int, how: Resolution): seq<Item> {
    var i := First(items, WithId(id));
    if i >= |items| || items[i].resolvedAt.Some? then items else Trim(items[i := ResolveOne(items[i], now, how)])
  }

  function Dismiss(items: seq<Item>, id: nat, now: int): seq<Item> {
    var i := First(items, WithId(id));
    if i >= |items| || items[i].toastDismissedAt.Some? then items
    else Trim(items[i := items[i].(toastDismissedAt := Some(now))])
  }

  function Step(s: State, ev: Event): State {
    match ev
    case Post(input, dwellMs, collapseMs, now) =>
      if Staging(ev) then StagePost(s, input, collapseMs, now) else Committing(s, input, None, collapseMs, now)
    case TimerFires(key, token, now) =>
      if key in s.staged && s.staged[key].token == token then
        var t := s.staged[key];
        Committing(s.(staged := s.staged - {key}), t.input, Some(t.id), t.window, now)
      else s
    case Resolve(id, how, now) => s.(staged := Without(s.staged, id), items := ResolveItem(s.items, id, now, how))
    case ResolveByKey(key, how, now) =>
      s.(staged := s.staged - {key},
         items := if Count(s.items, Outstanding(key)) == 0 then s.items
                  else Trim(ResolveUnder(s.items, key, now, how)))
    case DismissToast(id, now) => s.(items := Dismiss(s.items, id, now))
    case MarkAllRead(now) => if SomeUnread(s.items) then s.(items := Trim(ReadAll(s.items, now))) else s
    case Clear => s.(items := Trim(Unresolved(s.items)))
  }

  function Run(s: State, evs: seq<Event>): State {
    if evs == [] then s else Step(Run(s, evs[..|evs| - 1]), evs[|evs| - 1])
  }

  // ------------------------------------------------------------------ counting

  predicate AboutOutstanding(q: Query) {
    q.Outstanding? || q.Waiting?
  }

  lemma {:induction false} CountAppend(a: seq<Item>, b: seq<Item>, q: Query)
    ensures Count(a + b, q) == Count(a, q) + Count(b, q)
    decreases |b|
  {
    if b == [] {
      assert a + b == a;
    } else {
      assert (a + b)[..|a + b| - 1] == a + b[..|b| - 1];
      CountAppend(a, b[..|b| - 1], q);
    }
  }

  lemma CountOne(x: Item, q: Query)
    ensures Count([x], q) == One(q, x)
  {
    assert [x][..0] == [];
  }

  lemma CountSplit(items: seq<Item>, i: nat, q: Query)
    requires i < |items|
    ensures Count(items, q) == Count(items[..i], q) + One(q, items[i]) + Count(items[i + 1..], q)
  {
    assert items == (items[..i] + [items[i]]) + items[i + 1..];
    CountAppend(items[..i] + [items[i]], items[i + 1..], q);
    CountAppend(items[..i], [items[i]], q);
    CountOne(items[i], q);
  }

  lemma CountUpdate(items: seq<Item>, i: nat, x: Item, q: Query)
    requires i < |items|
    ensures Count(items[i := x], q) == Count(items, q) - One(q, items[i]) + One(q, x)
  {
    CountSplit(items, i, q);
    CountSplit(items[i := x], i, q);
    assert items[i := x][..i] == items[..i] && items[i := x][i + 1..] == items[i + 1..];
  }

  lemma CountToFront(items: seq<Item>, j: nat, x: Item, q: Query)
    requires j < |items|
    ensures Count(ToFront(items, j, x), q) == Count(items, q) - One(q, items[j]) + One(q, x)
  {
    CountSplit(items, j, q);
    CountAppend([x], items[..j] + items[j + 1..], q);
    CountAppend(items[..j], items[j + 1..], q);
    CountOne(x, q);
  }

  lemma {:induction false} CountUnresolved(items: seq<Item>, q: Query)
    requires AboutOutstanding(q)
    ensures Count(Unresolved(items), q) == Count(items, q)
    decreases |items|
  {
    if items != [] {
      var rest, x := Unresolved(items[..|items| - 1]), items[|items| - 1];
      CountUnresolved(items[..|items| - 1], q);
      CountAppend(rest, [x], q);
      CountOne(x, q);
      assert rest + [] == rest;
    }
  }

  /** The cap loses no outstanding question. */
  lemma TrimLosesNoQuestion(items: seq<Item>, q: Query)
    requires AboutOutstanding(q)
    ensures Count(Trim(items), q) == Count(items, q)
  {
    if |items| > MAX_ITEMS {
      assert items == items[..MAX_ITEMS] + items[MAX_ITEMS..];
      CountAppend(items[..MAX_ITEMS], items[MAX_ITEMS..], q);
      CountAppend(items[..MAX_ITEMS], Unresolved(items[MAX_ITEMS..]), q);
      CountUnresolved(items[MAX_ITEMS..], q);
    }
  }

  lemma {:induction false} CountReadAll(items: seq<Item>, now: int, q: Query)
    requires AboutOutstanding(q)
    ensures Count(ReadAll(items, now), q) == Count(items, q)
    decreases |items|
  {
    if items != [] {
      var rest, x := ReadAll(items[..|items| - 1], now), items[|items| - 1];
      CountReadAll(items[..|items| - 1], now, q);
      var y := if x.readAt.None? then x.(readAt := Some(now)) else x;
      CountAppend(rest, [y], q);
      CountOne(y, q);
    }
  }

  lemma {:induction false} CountResolveUnder(items: seq<Item>, key: string, now: int, how: Resolution, q: Query)
    requires AboutOutstanding(q)
    ensures Count(ResolveUnder(items, key, now, how), q) <= Count(items, q)
    ensures q == Outstanding(key) ==> Count(ResolveUnder(items, key, now, how), q) == 0
    ensures q.Waiting? && q.asker != Some(key) ==> Count(ResolveUnder(items, key, now, how), q) == Count(items, q)
    decreases |items|
  {
    if items != [] {
      var rest, x := ResolveUnder(items[..|items| - 1], key, now, how), items[|items| - 1];
      CountResolveUnder(items[..|items| - 1], key, now, how, q);
      var y := if Fits(Outstanding(key), x) then ResolveOne(x, now, how) else x;
      CountAppend(rest, [y], q);
      CountOne(y, q);
    }
  }

  // ------------------------------------------------------------------ past the cap

  predicate AllOutstanding(items: seq<Item>) {
    items == [] || (IsOutstanding(items[|items| - 1]) && AllOutstanding(items[..|items| - 1]))
  }

  /** Whatever stands past the cap is still outstanding. */
  predicate Capped(items: seq<Item>) {
    |items| <= MAX_ITEMS || AllOutstanding(items[MAX_ITEMS..])
  }

  lemma {:induction false} UnresolvedAreOutstanding(items: seq<Item>)
    ensures AllOutstanding(Unresolved(items))
    decreases |items|
  {
    if items != [] {
      var rest, x := Unresolved(items[..|items| - 1]), items[|items| - 1];
      UnresolvedAreOutstanding(items[..|items| - 1]);
      assert (rest + [x])[..|rest|] == rest && rest + [] == rest;
    }
  }

  lemma TrimIsCapped(items: seq<Item>)
    ensures Capped(Trim(items))
  {
    if |items| > MAX_ITEMS {
      UnresolvedAreOutstanding(items[MAX_ITEMS..]);
      assert Trim(items)[MAX_ITEMS..] == Unresolved(items[MAX_ITEMS..]);
    }
  }

  lemma CommitIsCapped(items: seq<Item>, input: Input, fixedId: Option<nat>, window: int, now: int, nextId: nat)
    requires Capped(items)
    ensures Capped(Commit(items, input, fixedId, window, now, nextId).items)
  {
    hide Capped, Trim, First, Same, Merge;
    forall l: seq<Item> ensures Capped(Trim(l)) { TrimIsCapped(l); }
  }

  lemma StepIsCapped(s: State, ev: Event)
    requires Capped(s.items)
    ensures Capped(Step(s, ev).items)
  {
    hide Capped, Trim, Commit, ResolveUnder, ReadAll, Unresolved, First;
    forall l: seq<Item> ensures Capped(Trim(l)) { TrimIsCapped(l); }
    match ev
    case Post(input, _, collapseMs, now) => CommitIsCapped(s.items, input, None, collapseMs, now, s.nextId);
    case TimerFires(key, _, now) =>
      if key in s.staged {
        var t := s.staged[key];
        CommitIsCapped(s.items, t.input, Some(t.id), t.window, now, s.nextId);
      }
    case _ =>
  }

  // ------------------------------------------------------------------ one commit

  /** Committing leaves at most one outstanding question under each key, and exactly one under the key of a question;
      it takes the place of an outstanding question only by an FYI under that question's own key. */
  lemma CommitCounts(items: seq<Item>, input: Input, fixedId: Option<nat>, window: int, now: int, nextId: nat, q: Query)
    requires AboutOutstanding(q)
    requires q.Outstanding? ==> q.key != ""
    ensures var after := Count(Commit(items, input, fixedId, window, now, nextId).items, q);
            && (q.Outstanding? && input.key == Some(q.key) && input.question ==>
                  after == if Count(items, q) == 0 then 1 else Count(items, q))
            && (q.Outstanding? && input.key == Some(q.key) && !input.question ==>
                  after == if Count(items, q) == 0 then 0 else Count(items, q) - 1)
            && (q.Outstanding? && input.key != Some(q.key) ==> after == Count(items, q))
            && (q.Waiting? && (input.question || !Keyed(input) || input.key != q.asker) ==> after >= Count(items, q))
  {
    hide Trim, First, Same, Count;
    var ts := if input.ts.Some? then input.ts.value else now;
    if Keyed(input) {
      var key := input.key.value;
      var i, j := First(items, Outstanding(key)), First(items, Fyi(key));
      var k := First(items, Collapsible(input, ts, window));
      FirstIsWithin(items, Outstanding(key));
      FirstIsWithin(items, Fyi(key));
      FirstIsWithin(items, Collapsible(input, ts, window));
      if i < |items| {
        CountUpdate(items, i, Merge(items[i], input), q);
        TrimLosesNoQuestion(items[i := Merge(items[i], input)], q);
        if Same(items[i], Merge(items[i], input)) { SameKeepsKind(items[i], input); }
        CountSplit(items, i, q);
      } else if !input.question && j < |items| {
        CountToFront(items, j, Refreshed(items[j], input, ts), q);
        TrimLosesNoQuestion(ToFront(items, j, Refreshed(items[j], input, ts)), q);
      } else if input.question && window > 0 && k < |items| {
        CountToFront(items, k, Reopened(items[k], input, ts), q);
        TrimLosesNoQuestion(ToFront(items, k, Reopened(items[k], input, ts)), q);
      } else {
        InsertCounts(items, input, ts, fixedId, nextId, q);
      }
    } else {
      InsertCounts(items, input, ts, fixedId, nextId, q);
    }
  }

  lemma SameKeepsKind(x: Item, input: Input)
    ensures Same(x, Merge(x, input)) ==> x.question == input.question
  {
  }

  lemma InsertCounts(items: seq<Item>, input: Input, ts: int, fixedId: Option<nat>, nextId: nat, q: Query)
    requires AboutOutstanding(q)
    ensures var c := Insert(items, input, ts, fixedId, nextId);
            Count(c.items, q) ==
              Count(items, q) + One(q, Item(c.id, input.question, input.content, input.key, ts, None, None, None, None))
  {
    var c := Insert(items, input, ts, fixedId, nextId);
    var x := Item(c.id, input.question, input.content, input.key, ts, None, None, None, None);
    TrimLosesNoQuestion([x] + items, q);
    CountAppend([x], items, q);
    CountOne(x, q);
  }

  lemma CountAt(items: seq<Item>, i: nat, q: Query)
    requires i < |items| && Fits(q, items[i])
    ensures Count(items, q) > 0
  {
    CountSplit(items, i, q);
  }

  lemma PlacedIsListed(items: seq<Item>, i: nat, x: Item, q: Query)
    requires i < |items| && AboutOutstanding(q) && Fits(q, x)
    ensures Count(Trim(items[i := x]), q) > 0 && Count(Trim(ToFront(items, i, x)), q) > 0
  {
    TrimLosesNoQuestion(items[i := x], q);
    TrimLosesNoQuestion(ToFront(items, i, x), q);
    CountAt(items[i := x], i, q);
    CountAt(ToFront(items, i, x), 0, q);
  }

  /** The id a committed question's asker is handed is that of an outstanding question under its key. */
  lemma QuestionIsListed(items: seq<Item>, input: Input, fixedId: Option<nat>, window: int, now: int, nextId: nat)
    returns (since: int)
    requires input.question
    ensures var c := Commit(items, input, fixedId, window, now, nextId);
            Count(c.items, Waiting(c.id, input.key, since)) > 0
  {
    hide Trim, First, Same, Count, ToFront, Overlay;
    var c := Commit(items, input, fixedId, window, now, nextId);
    var ts := if input.ts.Some? then input.ts.value else now;
    since := ts;
    var i := |items|;
    if Keyed(input) {
      var key := input.key.value;
      i := First(items, Outstanding(key));
      var k := First(items, Collapsible(input, ts, window));
      FirstIsWithin(items, Outstanding(key));
      FirstIsWithin(items, Collapsible(input, ts, window));
      if i < |items| {
        since := items[i].ts;
        CountAt(items, i, Waiting(c.id, input.key, since));
        PlacedIsListed(items, i, Merge(items[i], input), Waiting(c.id, input.key, since));
      } else if window > 0 && k < |items| {
        i := k;
        PlacedIsListed(items, k, Reopened(items[k], input, ts), Waiting(c.id, input.key, since));
      }
    }
    if i >= |items| {
      InsertCounts(items, input, ts, fixedId, nextId, Waiting(c.id, input.key, since));
    }
  }

  // ------------------------------------------------------------------ every run

  /** What an event commits, if it commits anything. */
  function Commits(s: State, ev: Event): Option<Input> {
    match ev
    case Post(input, _, _, _) => if Staging(ev) then None else Some(input)
    case TimerFires(key, token, _) =>
      if key in s.staged && s.staged[key].token == token then Some(s.staged[key].input) else None
    case _ => None
  }

  /** The only ways an outstanding question stops being one: it is resolved, by id or by key, or an FYI is committed
      under its own key. */
  predicate Ends(s: State, ev: Event, id: nat, asker: Option<string>) {
    || (ev.Resolve? && ev.id == id)
    || (ev.ResolveByKey? && asker == Some(ev.key))
    || (var c := Commits(s, ev); c.Some? && !c.value.question && Keyed(c.value) && c.value.key == asker)
  }

  lemma ResolveItemCounts(items: seq<Item>, id: nat, now: int, how: Resolution, q: Query)
    requires AboutOutstanding(q)
    ensures Count(ResolveItem(items, id, now, how), q) <= Count(items, q)
    ensures q.Waiting? && q.id != id ==> Count(ResolveItem(items, id, now, how), q) == Count(items, q)
  {
    hide Trim, First, Count;
    var i := First(items, WithId(id));
    FirstIsWithin(items, WithId(id));
    if i < |items| && items[i].resolvedAt.None? {
      CountUpdate(items, i, ResolveOne(items[i], now, how), q);
      TrimLosesNoQuestion(items[i := ResolveOne(items[i], now, how)], q);
    }
  }

  lemma DismissCounts(items: seq<Item>, id: nat, now: int, q: Query)
    requires AboutOutstanding(q)
    ensures Count(Dismiss(items, id, now), q) == Count(items, q)
  {
    hide Trim, First, Count;
    var i := First(items, WithId(id));
    if i < |items| && items[i].toastDismissedAt.None? {
      CountUpdate(items, i, items[i].(toastDismissedAt := Some(now)), q);
      TrimLosesNoQuestion(items[i := items[i].(toastDismissedAt := Some(now))], q);
    }
  }

  /** Events that post nothing. */
  lemma QuietCounts(s: State, ev: Event, q: Query)
    requires AboutOutstanding(q) && !ev.Post? && !ev.TimerFires?
    ensures Count(Step(s, ev).items, q) <= Count(s.items, q)
    ensures q.Waiting? && !Ends(s, ev, q.id, q.asker) ==> Count(Step(s, ev).items, q) == Count(s.items, q)
  {
    hide Trim, First, Count, ResolveUnder, ReadAll, Unresolved, ResolveItem, Dismiss, SomeUnread;
    match ev
    case Resolve(id, how, now) => ResolveItemCounts(s.items, id, now, how, q);
    case ResolveByKey(key, how, now) =>
      CountResolveUnder(s.items, key, now, how, q);
      TrimLosesNoQuestion(ResolveUnder(s.items, key, now, how), q);
    case DismissToast(id, now) => DismissCounts(s.items, id, now, q);
    case MarkAllRead(now) =>
      CountReadAll(s.items, now, q);
      TrimLosesNoQuestion(ReadAll(s.items, now), q);
    case Clear =>
      CountUnresolved(s.items, q);
      TrimLosesNoQuestion(Unresolved(s.items), q);
  }

  lemma PostingCounts(s: State, ev: Event, q: Query)
    requires AboutOutstanding(q) && (ev.Post? || ev.TimerFires?) && (q.Outstanding? ==> q.key != "")
    ensures Commits(s, ev).None? ==> Step(s, ev).items == s.items
    ensures q.Outstanding? && Count(s.items, q) <= 1 ==> Count(Step(s, ev).items, q) <= 1
    ensures q.Waiting? && !Ends(s, ev, q.id, q.asker) ==> Count(Step(s, ev).items, q) >= Count(s.items, q)
  {
    hide Trim, First, Count, Commit, Fits;
    match ev
    case Post(input, _, collapseMs, now) => CommitCounts(s.items, input, None, collapseMs, now, s.nextId, q);
    case TimerFires(key, _, now) =>
      if key in s.staged {
        var t := s.staged[key];
        CommitCounts(s.items, t.input, Some(t.id), t.window, now, s.nextId, q);
      }
  }

  /** Over every run: at most one outstanding question per key, and everything past the cap is outstanding. */
  lemma {:induction false} RunKeeps(s: State, evs: seq<Event>, key: string)
    requires key != "" && Count(s.items, Outstanding(key)) <= 1 && Capped(s.items)
    ensures Count(Run(s, evs).items, Outstanding(key)) <= 1 && Capped(Run(s, evs).items)
    decreases |evs|
  {
    hide Count, Capped, Step;
    if evs != [] {
      var was, ev := Run(s, evs[..|evs| - 1]), evs[|evs| - 1];
      RunKeeps(s, evs[..|evs| - 1], key);
      StepIsCapped(was, ev);
      if ev.Post? || ev.TimerFires? {
        PostingCounts(was, ev, Outstanding(key));
      } else {
        QuietCounts(was, ev, Outstanding(key));
      }
    }
  }

  predicate NeverEnds(s: State, evs: seq<Event>, id: nat, asker: Option<string>) {
    evs == [] ||
    (NeverEnds(s, evs[..|evs| - 1], id, asker) && !Ends(Run(s, evs[..|evs| - 1]), evs[|evs| - 1], id, asker))
  }

  /** A question nobody resolves, and under whose key no FYI is committed, is there after any run - past any number
      of other posts, trims and clears - with the id its asker holds and the time it has been waiting since. */
  lemma {:induction false} QuestionsWait(s: State, evs: seq<Event>, id: nat, asker: Option<string>, since: int)
    requires NeverEnds(s, evs, id, asker)
    ensures Count(Run(s, evs).items, Waiting(id, asker, since)) >= Count(s.items, Waiting(id, asker, since))
    decreases |evs|
  {
    hide Count, Step, Ends;
    if evs != [] {
      var was, ev := Run(s, evs[..|evs| - 1]), evs[|evs| - 1];
      QuestionsWait(s, evs[..|evs| - 1], id, asker, since);
      if ev.Post? || ev.TimerFires? {
        PostingCounts(was, ev, Waiting(id, asker, since));
      } else {
        QuietCounts(was, ev, Waiting(id, asker, since));
      }
    }
  }

  /** And those two do end it: nothing is outstanding under a key that was just resolved, or under which
      an FYI just landed. */
  lemma ResolvedMeansNoneOutstanding(s: State, ev: Event, key: string)
    requires key != "" && Count(s.items, Outstanding(key)) <= 1
    requires
      || (ev.ResolveByKey? && ev.key == key)
      || (Commits(s, ev).Some? && !Commits(s, ev).value.question && Commits(s, ev).value.key == Some(key))
    ensures Count(Step(s, ev).items, Outstanding(key)) == 0
  {
    hide Trim, First, Count, Commit, Fits, ResolveUnder;
    match ev
    case Post(input, _, collapseMs, now) =>
      CommitCounts(s.items, input, None, collapseMs, now, s.nextId, Outstanding(key));
    case TimerFires(k, _, now) =>
      var t := s.staged[k];
      CommitCounts(s.items, t.input, Some(t.id), t.window, now, s.nextId, Outstanding(key));
    case ResolveByKey(_, how, now) =>
      CountResolveUnder(s.items, key, now, how, Outstanding(key));
      TrimLosesNoQuestion(ResolveUnder(s.items, key, now, how), Outstanding(key));
  }

  // ------------------------------------------------------------------ dwelling

  /** The post that a timer closed over is no longer staged, and never will be again. */
  predicate Gone(s: State, token: nat) {
    token < s.nextToken && forall k :: k in s.staged ==> s.staged[k].token != token
  }

  /** Tokens are handed out once. */
  predicate TokensAreUnique(s: State) {
    && (forall k :: k in s.staged ==> s.staged[k].token < s.nextToken)
    && (forall j, k :: j in s.staged && k in s.staged && s.staged[j].token == s.staged[k].token ==> j == k)
  }

  /** Where the staged posts of the next state come from: the same post, its text refreshed or not, or a new one. */
  lemma StagedAfter(s: State, ev: Event, k: string)
    ensures s.nextToken <= Step(s, ev).nextToken
    ensures var t := Step(s, ev);
            k in t.staged ==>
              || (k in s.staged && t.staged[k].token == s.staged[k].token)
              || (Staging(ev) && ev.input.key == Some(k)
                  && t.staged[k].token == s.nextToken && t.nextToken > s.nextToken)
  {
    hide Commit, Trim, First, Count, ResolveUnder, ReadAll, Unresolved, ResolveItem, Dismiss, SomeUnread, StagedId;
  }

  lemma StepKeepsTokens(s: State, ev: Event)
    requires TokensAreUnique(s)
    ensures TokensAreUnique(Step(s, ev))
  {
    hide Step;
    var t := Step(s, ev);
    forall k | k in t.staged
      ensures t.staged[k].token < t.nextToken
      ensures (k in s.staged && t.staged[k].token == s.staged[k].token)
              || (Staging(ev) && ev.input.key == Some(k) && t.staged[k].token == s.nextToken)
    {
      StagedAfter(s, ev, k);
    }
  }

  lemma GoneStays(s: State, ev: Event, token: nat)
    requires Gone(s, token)
    ensures Gone(Step(s, ev), token)
  {
    hide Step;
    StagedAfter(s, ev, "");
    forall k | k in Step(s, ev).staged
      ensures Step(s, ev).staged[k].token != token
    {
      StagedAfter(s, ev, k);
    }
  }

  lemma {:induction false} RunKeepsTokens(s: State, evs: seq<Event>)
    requires TokensAreUnique(s)
    ensures TokensAreUnique(Run(s, evs))
    decreases |evs|
  {
    hide Step, TokensAreUnique;
    if evs != [] {
      RunKeepsTokens(s, evs[..|evs| - 1]);
      StepKeepsTokens(Run(s, evs[..|evs| - 1]), evs[|evs| - 1]);
    }
  }

  lemma {:induction false} GoneForever(s: State, evs: seq<Event>, token: nat)
    requires Gone(s, token)
    ensures Gone(Run(s, evs), token)
    decreases |evs|
  {
    hide Step, Gone;
    if evs != [] {
      GoneForever(s, evs[..|evs| - 1], token);
      GoneStays(Run(s, evs[..|evs| - 1]), evs[|evs| - 1], token);
    }
  }

  /** A post staged and then cancelled - by its key, or by its id - before its timer fires is never seen: staging it
      changed no item, and its timer, whenever it fires in whatever follows, changes nothing at all. */
  lemma CancelledNeverShows(s: State, key: string, cancel: Event, evs: seq<Event>, now: int)
    requires TokensAreUnique(s) && key in s.staged
    requires (cancel.ResolveByKey? && cancel.key == key) || (cancel.Resolve? && cancel.id == s.staged[key].id)
    ensures var later := Run(Step(s, cancel), evs);
            Step(later, TimerFires(key, s.staged[key].token, now)) == later
  {
    var token, after := s.staged[key].token, Step(s, cancel);
    assert Gone(after, token) by {
      hide Trim, First, Count, ResolveUnder, ResolveItem;
      assert key !in after.staged;
      assert forall k :: k in after.staged ==> k in s.staged && after.staged[k] == s.staged[k];
    }
    GoneForever(after, evs, token);
  }

  /** Staging shows nothing. */
  lemma StagingIsInvisible(s: State, ev: Event)
    requires Staging(ev)
    ensures Step(s, ev).items == s.items
    ensures var staged, key := Step(s, ev).staged, ev.input.key.value;
            key in staged && Signature(staged[key].input) == Signature(ev.input)
  {
    hide First, Commit;
  }

  // ------------------------------------------------------------------ the bridge to the system

  /** Which items are sent, and what has been considered afterwards. */
  function Announce(seen: set<nat>, items: seq<Item>, reaches: Item -> bool): (set<nat>, seq<Item>) {
    if items == [] then (seen, [])
    else
      var (was, sent) := Announce(seen, items[..|items| - 1], reaches);
      var x := items[|items| - 1];
      if x.id in was then (was, sent) else (was + {x.id}, if reaches(x) then sent + [x] else sent)
  }

  lemma {:induction false} SeenAfter(seen: set<nat>, items: seq<Item>, reaches: Item -> bool, id: nat)
    ensures id in Announce(seen, items, reaches).0 <==> id in seen || First(items, WithId(id)) < |items|
    decreases |items|
  {
    if items != [] {
      SeenAfter(seen, items[..|items| - 1], reaches, id);
      FirstIsWithin(items[..|items| - 1], WithId(id));
    }
  }

  /** Exactly one announcement for an id not considered before whose first item may reach the system; else none. */
  lemma {:induction false} AnnouncedExactly(seen: set<nat>, items: seq<Item>, reaches: Item -> bool, id: nat)
    ensures var i := First(items, WithId(id));
            Count(Announce(seen, items, reaches).1, WithId(id)) ==
              if id !in seen && i < |items| && reaches(items[i]) then 1 else 0
    decreases |items|
  {
    if items != [] {
      var n := |items| - 1;
      var (was, sent) := Announce(seen, items[..n], reaches);
      AnnouncedExactly(seen, items[..n], reaches, id);
      SeenAfter(seen, items[..n], reaches, items[n].id);
      FirstIsWithin(items[..n], WithId(id));
      CountAppend(sent, [items[n]], WithId(id));
      CountOne(items[n], WithId(id));
    }
  }

  /** One look at the store: the items then, and what the settings let through. */
  datatype Look = Look(items: seq<Item>, reaches: Item -> bool)

  function SeenBy(seen: set<nat>, looks: seq<Look>): set<nat> {
    if looks == [] then seen
    else Announce(SeenBy(seen, looks[..|looks| - 1]), looks[|looks| - 1].items, looks[|looks| - 1].reaches).0
  }

  function Announcements(seen: set<nat>, looks: seq<Look>, id: nat): nat {
    if looks == [] then 0
    else
      var n := |looks| - 1;
      Announcements(seen, looks[..n], id)
      + Count(Announce(SeenBy(seen, looks[..n]), looks[n].items, looks[n].reaches).1, WithId(id))
  }

  /** Whatever the store does between looks, an id is announced at most once, and never if it was already stored. */
  lemma {:induction false} AnnouncedAtMostOnce(seen: set<nat>, looks: seq<Look>, id: nat)
    ensures Announcements(seen, looks, id) <= if id in SeenBy(seen, looks) && id !in seen then 1 else 0
    decreases |looks|
  {
    if looks != [] {
      var n := |looks| - 1;
      var was := SeenBy(seen, looks[..n]);
      AnnouncedAtMostOnce(seen, looks[..n], id);
      AnnouncedExactly(was, looks[n].items, looks[n].reaches, id);
      SeenAfter(was, looks[n].items, looks[n].reaches, id);
      SeenGrows(seen, looks[..n], id);
    }
  }

  lemma {:induction false} SeenGrows(seen: set<nat>, looks: seq<Look>, id: nat)
    ensures id in seen ==> id in SeenBy(seen, looks)
    decreases |looks|
  {
    if looks != [] {
      var n := |looks| - 1;
      SeenGrows(seen, looks[..n], id);
      SeenAfter(SeenBy(seen, looks[..n]), looks[n].items, looks[n].reaches, id);
    }
  }

  // ------------------------------------------------------------------ a post that lands is not announced again

  predicate AllSeen(items: seq<Item>, seen: set<nat>) {
    items == [] || (items[|items| - 1].id in seen && AllSeen(items[..|items| - 1], seen))
  }

  lemma {:induction false} AllSeenAppend(a: seq<Item>, b: seq<Item>, seen: set<nat>)
    ensures AllSeen(a + b, seen) <==> AllSeen(a, seen) && AllSeen(b, seen)
    decreases |b|
  {
    if b == [] {
      assert a + b == a;
    } else {
      assert (a + b)[..|a + b| - 1] == a + b[..|b| - 1];
      AllSeenAppend(a, b[..|b| - 1], seen);
    }
  }

  lemma AllSeenOne(x: Item, seen: set<nat>)
    ensures AllSeen([x], seen) <==> x.id in seen
  {
    assert [x][..0] == [];
  }

  lemma {:induction false} AllSeenUnresolved(items: seq<Item>, seen: set<nat>)
    requires AllSeen(items, seen)
    ensures AllSeen(Unresolved(items), seen)
    decreases |items|
  {
    if items != [] {
      var rest, x := Unresolved(items[..|items| - 1]), items[|items| - 1];
      AllSeenUnresolved(items[..|items| - 1], seen);
      AllSeenAppend(rest, [x], seen);
      AllSeenOne(x, seen);
      assert rest + [] == rest;
    }
  }

  lemma AllSeenTrim(items: seq<Item>, seen: set<nat>)
    requires AllSeen(items, seen)
    ensures AllSeen(Trim(items), seen)
  {
    if |items| > MAX_ITEMS {
      assert items == items[..MAX_ITEMS] + items[MAX_ITEMS..];
      AllSeenAppend(items[..MAX_ITEMS], items[MAX_ITEMS..], seen);
      AllSeenUnresolved(items[MAX_ITEMS..], seen);
      AllSeenAppend(items[..MAX_ITEMS], Unresolved(items[MAX_ITEMS..]), seen);
    }
  }

  lemma AllSeenPlaced(items: seq<Item>, j: nat, x: Item, seen: set<nat>)
    requires AllSeen(items, seen) && j < |items| && x.id == items[j].id
    ensures x.id in seen && AllSeen(ToFront(items, j, x), seen) && AllSeen(items[j := x], seen)
  {
    var a, b := items[..j], items[j + 1..];
    assert items == (a + [items[j]]) + b && items[j := x] == (a + [x]) + b;
    AllSeenAppend(a + [items[j]], b, seen);
    AllSeenAppend(a, [items[j]], seen);
    AllSeenOne(items[j], seen);
    AllSeenOne(x, seen);
    AllSeenAppend(a + [x], b, seen);
    AllSeenAppend(a, [x], seen);
    AllSeenAppend([x], a + b, seen);
    AllSeenAppend(a, b, seen);
  }

  lemma PlacedAndTrimmed(items: seq<Item>, j: nat, x: Item, seen: set<nat>)
    requires AllSeen(items, seen) && j < |items| && x.id == items[j].id
    ensures AllSeen(Trim(ToFront(items, j, x)), seen) && AllSeen(Trim(items[j := x]), seen)
  {
    AllSeenPlaced(items, j, x, seen);
    AllSeenTrim(ToFront(items, j, x), seen);
    AllSeenTrim(items[j := x], seen);
  }

  lemma {:induction false} AllSeenMore(items: seq<Item>, seen: set<nat>, id: nat)
    requires AllSeen(items, seen)
    ensures AllSeen(items, seen + {id})
    decreases |items|
  {
    if items != [] { AllSeenMore(items[..|items| - 1], seen, id); }
  }

  lemma InsertIds(items: seq<Item>, input: Input, ts: int, fixedId: Option<nat>, nextId: nat, seen: set<nat>)
    requires AllSeen(items, seen) && (fixedId.Some? ==> fixedId.value in seen)
    ensures var c := Insert(items, input, ts, fixedId, nextId);
            if fixedId.Some? then AllSeen(c.items, seen) else AllSeen(c.items, seen + {nextId})
  {
    var c := Insert(items, input, ts, fixedId, nextId);
    var x := Item(c.id, input.question, input.content, input.key, ts, None, None, None, None);
    var all := if fixedId.Some? then seen else seen + {nextId};
    if fixedId.None? { AllSeenMore(items, seen, nextId); }
    AllSeenOne(x, all);
    AllSeenAppend([x], items, all);
    AllSeenTrim([x] + items, all);
  }

  /** Committing puts no id on the list but one that was there, the one it was given, or the next new one - the last
      only when it found nothing to land on. */
  lemma CommitIds(items: seq<Item>, input: Input, fixedId: Option<nat>, window: int, now: int, nextId: nat,
                  seen: set<nat>)
    requires AllSeen(items, seen) && (fixedId.Some? ==> fixedId.value in seen)
    ensures var c := Commit(items, input, fixedId, window, now, nextId);
            if c.nextId == nextId then AllSeen(c.items, seen) else c.id == nextId && AllSeen(c.items, seen + {nextId})
  {
    hide Trim, First, Same, AllSeen, ToFront, Overlay;
    var ts := if input.ts.Some? then input.ts.value else now;
    var c := Commit(items, input, fixedId, window, now, nextId);
    InsertIds(items, input, ts, fixedId, nextId, seen);
    if Keyed(input) {
      var key := input.key.value;
      var i, j := First(items, Outstanding(key)), First(items, Fyi(key));
      var k := First(items, Collapsible(input, ts, window));
      if i < |items| {
        PlacedAndTrimmed(items, i, Merge(items[i], input), seen);
      } else if !input.question && j < |items| {
        PlacedAndTrimmed(items, j, Refreshed(items[j], input, ts), seen);
      } else if input.question && window > 0 && k < |items| {
        PlacedAndTrimmed(items, k, Reopened(items[k], input, ts), seen);
      }
    }
  }

  /** Whether a post lands on an item that is already listed. */
  predicate Lands(items: seq<Item>, input: Input, window: int, now: int) {
    && Keyed(input)
    && (|| Count(items, Outstanding(input.key.value)) > 0
        || (!input.question && Count(items, Fyi(input.key.value)) > 0)
        || (input.question && window > 0
            && Count(items, Collapsible(input, if input.ts.Some? then input.ts.value else now, window)) > 0))
  }

  lemma {:induction false} UnresolvedAreFewer(items: seq<Item>, q: Query)
    ensures Count(Unresolved(items), q) <= Count(items, q)
    decreases |items|
  {
    if items != [] {
      var rest, x := Unresolved(items[..|items| - 1]), items[|items| - 1];
      UnresolvedAreFewer(items[..|items| - 1], q);
      CountAppend(rest, [x], q);
      CountOne(x, q);
      assert rest + [] == rest;
    }
  }

  lemma TrimAddsNothing(items: seq<Item>, q: Query)
    ensures Count(Trim(items), q) <= Count(items, q)
    ensures |items| <= MAX_ITEMS ==> Trim(items) == items
  {
    if |items| > MAX_ITEMS {
      assert items == items[..MAX_ITEMS] + items[MAX_ITEMS..];
      CountAppend(items[..MAX_ITEMS], items[MAX_ITEMS..], q);
      CountAppend(items[..MAX_ITEMS], Unresolved(items[MAX_ITEMS..]), q);
      UnresolvedAreFewer(items[MAX_ITEMS..], q);
    }
  }

  lemma PlacedKeepsIds(items: seq<Item>, j: nat, x: Item, id: nat)
    requires j < |items| && x.id == items[j].id
    ensures Count(Trim(items[j := x]), WithId(id)) <= Count(items, WithId(id))
    ensures Count(Trim(ToFront(items, j, x)), WithId(id)) <= Count(items, WithId(id))
    ensures |items| <= MAX_ITEMS ==>
              && Count(Trim(items[j := x]), WithId(id)) == Count(items, WithId(id))
              && Count(Trim(ToFront(items, j, x)), WithId(id)) == Count(items, WithId(id))
  {
    CountUpdate(items, j, x, WithId(id));
    CountToFront(items, j, x, WithId(id));
    TrimAddsNothing(items[j := x], WithId(id));
    TrimAddsNothing(ToFront(items, j, x), WithId(id));
  }

  /** How often an id is listed grows in one way only: a post that lands on nothing adds the id it is filed under. */
  lemma IdsAfterCommit(items: seq<Item>, input: Input, fixedId: Option<nat>, window: int, now: int, nextId: nat,
                       id: nat)
    ensures var c := Commit(items, input, fixedId, window, now, nextId);
            var expected := Count(items, WithId(id)) + if !Lands(items, input, window, now) && c.id == id then 1 else 0;
            && Count(c.items, WithId(id)) <= expected
            && (|items| < MAX_ITEMS ==> Count(c.items, WithId(id)) == expected)
  {
    hide Trim, First, Same, Count, ToFront, Overlay;
    var ts := if input.ts.Some? then input.ts.value else now;
    var i := |items|;
    if Keyed(input) {
      var key := input.key.value;
      i := First(items, Outstanding(key));
      var j, k := First(items, Fyi(key)), First(items, Collapsible(input, ts, window));
      FirstIsWithin(items, Outstanding(key));
      FirstIsWithin(items, Fyi(key));
      FirstIsWithin(items, Collapsible(input, ts, window));
      if i < |items| {
        PlacedKeepsIds(items, i, Merge(items[i], input), id);
      } else if !input.question && j < |items| {
        i := j;
        PlacedKeepsIds(items, j, Refreshed(items[j], input, ts), id);
      } else if input.question && window > 0 && k < |items| {
        i := k;
        PlacedKeepsIds(items, k, Reopened(items[k], input, ts), id);
      }
    }
    if i >= |items| { InsertAddsId(items, input, ts, fixedId, nextId, id); }
  }

  // ------------------------------------------------------------------ when an id repeats

  /** Every id in use was handed out: those to come are neither listed nor staged. */
  ghost predicate FreshIds(s: State) {
    && (forall id: nat :: id >= s.nextId ==> Count(s.items, WithId(id)) == 0)
    && (forall k :: k in s.staged ==> s.staged[k].id < s.nextId)
  }

  /** The id a commit is filed under when it lands on nothing, and what it leaves for the next. */
  lemma CommitTakesId(items: seq<Item>, input: Input, fixedId: Option<nat>, window: int, now: int, nextId: nat)
    ensures var c := Commit(items, input, fixedId, window, now, nextId);
            if Lands(items, input, window, now) then c.nextId == nextId
            else if fixedId.Some? then c.id == fixedId.value && c.nextId == nextId
            else c.id == nextId && c.nextId == nextId + 1
  {
    hide Trim, First, Same, Count, ToFront, Overlay;
    if Keyed(input) {
      FirstIsWithin(items, Outstanding(input.key.value));
      FirstIsWithin(items, Fyi(input.key.value));
      FirstIsWithin(items, Collapsible(input, if input.ts.Some? then input.ts.value else now, window));
    }
  }

  /** The timer's post finds nothing to land on while the id it carries is already listed. */
  predicate Repeats(s: State, ev: Event, id: nat) {
    && ev.TimerFires? && ev.key in s.staged && s.staged[ev.key].token == ev.token && s.staged[ev.key].id == id
    && !Lands(s.items, s.staged[ev.key].input, s.staged[ev.key].window, ev.now)
    && Count(s.items, WithId(id)) > 0
  }

  lemma {:induction false} ReadAllKeepsIds(items: seq<Item>, now: int, id: nat)
    ensures Count(ReadAll(items, now), WithId(id)) == Count(items, WithId(id))
    decreases |items|
  {
    if items != [] {
      var rest, x := ReadAll(items[..|items| - 1], now), items[|items| - 1];
      ReadAllKeepsIds(items[..|items| - 1], now, id);
      var y := if x.readAt.None? then x.(readAt := Some(now)) else x;
      CountAppend(rest, [y], WithId(id));
      CountOne(y, WithId(id));
    }
  }

  lemma {:induction false} ResolveUnderKeepsIds(items: seq<Item>, key: string, now: int, how: Resolution, id: nat)
    ensures Count(ResolveUnder(items, key, now, how), WithId(id)) == Count(items, WithId(id))
    decreases |items|
  {
    if items != [] {
      var rest, x := ResolveUnder(items[..|items| - 1], key, now, how), items[|items| - 1];
      ResolveUnderKeepsIds(items[..|items| - 1], key, now, how, id);
      var y := if Fits(Outstanding(key), x) then ResolveOne(x, now, how) else x;
      CountAppend(rest, [y], WithId(id));
      CountOne(y, WithId(id));
    }
  }

  lemma UpdatedIds(s: State, ev: Event, id: nat)
    requires ev.Resolve? || ev.DismissToast?
    ensures Count(Step(s, ev).items, WithId(id)) <= Count(s.items, WithId(id))
  {
    hide Trim, First, Count;
    var i := First(s.items, WithId(ev.id));
    FirstIsWithin(s.items, WithId(ev.id));
    if i < |s.items| {
      var x := s.items[i];
      if ev.Resolve? {
        PlacedKeepsIds(s.items, i, ResolveOne(x, ev.now, ev.how), id);
      } else {
        PlacedKeepsIds(s.items, i, x.(toastDismissedAt := Some(ev.now)), id);
      }
    }
  }

  lemma QuietIds(s: State, ev: Event, id: nat)
    requires !ev.Post? && !ev.TimerFires?
    ensures Count(Step(s, ev).items, WithId(id)) <= Count(s.items, WithId(id))
  {
    hide Trim, First, Count, ResolveUnder, ReadAll, Unresolved, ResolveItem, Dismiss, SomeUnread;
    match ev
    case Resolve(_, _, _) => UpdatedIds(s, ev, id);
    case DismissToast(_, _) => UpdatedIds(s, ev, id);
    case ResolveByKey(key, how, now) =>
      ResolveUnderKeepsIds(s.items, key, now, how, id);
      TrimAddsNothing(ResolveUnder(s.items, key, now, how), WithId(id));
    case MarkAllRead(now) =>
      ReadAllKeepsIds(s.items, now, id);
      TrimAddsNothing(ReadAll(s.items, now), WithId(id));
    case Clear =>
      UnresolvedAreFewer(s.items, WithId(id));
      TrimAddsNothing(Unresolved(s.items), WithId(id));
  }

  /** The item with the id outlives one item put in front of it: the cap does not reach it, or it is outstanding. */
  predicate Stays(items: seq<Item>, id: nat) {
    var i := First(items, WithId(id));
    i < |items| && (i < MAX_ITEMS - 1 || IsOutstanding(items[i]))
  }

  lemma {:induction false} OnlyOneUnresolved(items: seq<Item>, i: nat, q: Query)
    requires i < |items| && Fits(q, items[i]) && Count(items, q) == 1
    ensures Count(Unresolved(items), q) == if IsOutstanding(items[i]) then 1 else 0
    decreases |items|
  {
    hide Fits;
    var init, x := items[..|items| - 1], items[|items| - 1];
    var rest := Unresolved(init);
    CountAppend(rest, [x], q);
    CountOne(x, q);
    assert rest + [] == rest;
    if i < |items| - 1 {
      CountAt(init, i, q);
      OnlyOneUnresolved(init, i, q);
    } else {
      UnresolvedAreFewer(init, q);
    }
  }

  /** A second item under a listed id: both are there afterwards exactly when the older one stays. */
  lemma InsertDoubles(items: seq<Item>, x: Item, id: nat)
    requires x.id == id && Count(items, WithId(id)) == 1
    ensures Count(Trim([x] + items), WithId(id)) == if Stays(items, id) then 2 else 1
  {
    hide Count, Unresolved;
    var q, i := WithId(id), First(items, WithId(id));
    FirstIsWithin(items, q);
    CountAppend([x], items, q);
    CountOne(x, q);
    if |items| >= MAX_ITEMS {
      var n := MAX_ITEMS - 1;
      var near, far := items[..n], items[n..];
      assert items == near + far && ([x] + items)[..MAX_ITEMS] == [x] + near && ([x] + items)[MAX_ITEMS..] == far;
      CountAppend(near, far, q);
      CountAppend([x], near, q);
      CountAppend([x] + near, Unresolved(far), q);
      UnresolvedAreFewer(far, q);
      if i < n {
        CountAt(near, i, q);
      } else {
        CountAt(far, i - n, q);
        OnlyOneUnresolved(far, i - n, q);
      }
    }
  }

  /** A post that lands on nothing is put in front of the list. */
  lemma CommitInserts(items: seq<Item>, input: Input, fixedId: Option<nat>, window: int, now: int, nextId: nat)
    requires !Lands(items, input, window, now)
    ensures var ts := if input.ts.Some? then input.ts.value else now;
            Commit(items, input, fixedId, window, now, nextId) == Insert(items, input, ts, fixedId, nextId)
  {
    hide Trim, First, Same, Count, ToFront, Overlay;
    if Keyed(input) {
      FirstIsWithin(items, Outstanding(input.key.value));
      FirstIsWithin(items, Fyi(input.key.value));
      FirstIsWithin(items, Collapsible(input, if input.ts.Some? then input.ts.value else now, window));
    }
  }

  /** The commit an event makes, if any. */
  lemma CommittingIds(s: State, input: Input, fixedId: Option<nat>, window: int, now: int, id: nat)
    requires FreshIds(s) && (fixedId.Some? ==> fixedId.value < s.nextId)
    ensures var t := Committing(s, input, fixedId, window, now);
            var expected := Count(s.items, WithId(id)) +
                              if Lands(s.items, input, window, now) then 0
                              else if id == (if fixedId.Some? then fixedId.value else s.nextId) then 1 else 0;
            && t.nextId >= s.nextId && Count(t.items, WithId(id)) <= expected
            && (|s.items| < MAX_ITEMS ==> Count(t.items, WithId(id)) == expected)
            && (id >= t.nextId ==> Count(t.items, WithId(id)) == 0)
  {
    hide Count, Commit, Lands;
    IdsAfterCommit(s.items, input, fixedId, window, now, s.nextId, id);
    CommitTakesId(s.items, input, fixedId, window, now, s.nextId);
  }

  lemma PostingIds(s: State, ev: Event, id: nat)
    requires FreshIds(s) && (ev.Post? || ev.TimerFires?)
    ensures Count(s.items, WithId(id)) <= 1 && !Repeats(s, ev, id) ==> Count(Step(s, ev).items, WithId(id)) <= 1
    ensures id >= Step(s, ev).nextId ==> Count(Step(s, ev).items, WithId(id)) == 0
  {
    hide Count, Commit, Lands, First, Signature, Fits;
    match ev
    case Post(input, _, collapseMs, now) => CommittingIds(s, input, None, collapseMs, now, id);
    case TimerFires(key, token, now) =>
      if key in s.staged && s.staged[key].token == token {
        var t := s.staged[key];
        var s' := s.(staged := s.staged - {key});
        CommittingIds(s', t.input, Some(t.id), t.window, now, id);
      }
  }

  lemma StagedIdIsListed(s: State, input: Input, ts: int, window: int)
    requires FreshIds(s)
    ensures StagedId(s, input, ts, window).Some? ==> StagedId(s, input, ts, window).value < s.nextId
  {
    hide Count, Fits;
    var k := First(s.items, Collapsible(input, ts, window));
    FirstIsWithin(s.items, Collapsible(input, ts, window));
    if k < |s.items| {
      assert Fits(WithId(s.items[k].id), s.items[k]) by { FitsOwnId(s.items[k]); }
      CountAt(s.items, k, WithId(s.items[k].id));
    }
  }

  lemma FitsOwnId(x: Item)
    ensures Fits(WithId(x.id), x)
  {
  }

  /** Ids are never handed out twice: kept by every step, and true of an empty store. */
  lemma StepKeepsFreshIds(s: State, ev: Event)
    requires FreshIds(s)
    ensures FreshIds(Step(s, ev))
  {
    var t := Step(s, ev);
    forall id: nat | id >= t.nextId
      ensures Count(t.items, WithId(id)) == 0
    {
      NoLaterIds(s, ev, id);
    }
    forall k | k in t.staged
      ensures t.staged[k].id < t.nextId
    {
      StagedIdsBelow(s, ev, k);
    }
  }

  lemma NoLaterIds(s: State, ev: Event, id: nat)
    requires FreshIds(s) && id >= Step(s, ev).nextId
    ensures Count(Step(s, ev).items, WithId(id)) == 0
  {
    hide Count, Commit, First, Trim, ResolveItem, Dismiss, ResolveUnder, ReadAll, Unresolved, SomeUnread, StagedId;
    if ev.Post? || ev.TimerFires? { PostingIds(s, ev, id); } else { QuietIds(s, ev, id); }
  }

  lemma StagedIdsBelow(s: State, ev: Event, k: string)
    requires FreshIds(s) && k in Step(s, ev).staged
    ensures Step(s, ev).staged[k].id < Step(s, ev).nextId
  {
    hide Count, Commit, First, Trim, Lands, StagedId;
    hide ResolveItem, Dismiss, ResolveUnder, ReadAll, Unresolved, SomeUnread;
    match ev
    case Post(input, _, collapseMs, now) =>
      CommitTakesId(s.items, input, None, collapseMs, now, s.nextId);
      StagedIdIsListed(s, input, if input.ts.Some? then input.ts.value else now, Max(0, collapseMs));
    case TimerFires(key, _, now) =>
      if key in s.staged {
        var t := s.staged[key];
        CommitTakesId(s.items, t.input, Some(t.id), t.window, now, s.nextId);
      }
    case _ =>
  }

  /** The event lists an id a second time, and the cap leaves both items there. */
  predicate Doubles(s: State, ev: Event, id: nat) {
    Repeats(s, ev, id) && Stays(s.items, id)
  }

  lemma TimerDoubles(s: State, ev: Event, id: nat)
    requires Repeats(s, ev, id) && Count(s.items, WithId(id)) == 1
    ensures Count(Step(s, ev).items, WithId(id)) == if Stays(s.items, id) then 2 else 1
  {
    hide Count, Commit, Lands, Stays, First, Trim;
    var t := s.staged[ev.key];
    CommitInserts(s.items, t.input, Some(t.id), t.window, ev.now, s.nextId);
    var ts := if t.input.ts.Some? then t.input.ts.value else ev.now;
    InsertDoubles(s.items, Item(id, t.input.question, t.input.content, t.input.key, ts, None, None, None, None), id);
  }

  /** One step makes an id stand twice exactly when a timer's post lands on nothing while the id it carries is listed by
      an item the cap leaves there.  There is no other condition: the list may be as long as it likes. */
  lemma IdRepeatsExactly(s: State, ev: Event, id: nat)
    requires FreshIds(s) && Count(s.items, WithId(id)) <= 1
    ensures Count(Step(s, ev).items, WithId(id)) <= 1 <==> !Doubles(s, ev, id)
  {
    hide Count, Step, FreshIds, Stays;
    if Repeats(s, ev, id) {
      TimerDoubles(s, ev, id);
    } else if ev.Post? || ev.TimerFires? {
      PostingIds(s, ev, id);
    } else {
      QuietIds(s, ev, id);
    }
  }

  predicate NeverDoubles(s: State, evs: seq<Event>, id: nat) {
    evs == [] ||
    (NeverDoubles(s, evs[..|evs| - 1], id) && !Doubles(Run(s, evs[..|evs| - 1]), evs[|evs| - 1], id))
  }

  /** After every prefix of the run the id is listed at most once. */
  predicate AlwaysOnce(s: State, evs: seq<Event>, id: nat) {
    Count(Run(s, evs).items, WithId(id)) <= 1 && (evs == [] || AlwaysOnce(s, evs[..|evs| - 1], id))
  }

  /** Over every run ids are handed out once, and one that stands at most once does so after every prefix exactly when
      no event of the run is such a timer. */
  lemma {:induction false} IdsStayDistinct(s: State, evs: seq<Event>, id: nat)
    requires FreshIds(s)
    ensures FreshIds(Run(s, evs))
    ensures Count(s.items, WithId(id)) <= 1 ==> (AlwaysOnce(s, evs, id) <==> NeverDoubles(s, evs, id))
    decreases |evs|
  {
    hide Count, Step, FreshIds, Doubles;
    if evs != [] {
      var was := Run(s, evs[..|evs| - 1]);
      IdsStayDistinct(s, evs[..|evs| - 1], id);
      StepKeepsFreshIds(was, evs[|evs| - 1]);
      OnceAtTheEnd(s, evs[..|evs| - 1], id);
      if Count(was.items, WithId(id)) <= 1 { IdRepeatsExactly(was, evs[|evs| - 1], id); }
    }
  }

  lemma OnceAtTheEnd(s: State, evs: seq<Event>, id: nat)
    ensures AlwaysOnce(s, evs, id) ==> Count(Run(s, evs).items, WithId(id)) <= 1
  {
  }

  lemma InsertAddsId(items: seq<Item>, input: Input, ts: int, fixedId: Option<nat>, nextId: nat, id: nat)
    ensures var c := Insert(items, input, ts, fixedId, nextId);
            var expected := Count(items, WithId(id)) + if c.id == id then 1 else 0;
            && Count(c.items, WithId(id)) <= expected
            && (|items| < MAX_ITEMS ==> Count(c.items, WithId(id)) == expected)
  {
    hide Count, Trim;
    var c := Insert(items, input, ts, fixedId, nextId);
    var x := Item(c.id, input.question, input.content, input.key, ts, None, None, None, None);
    CountAppend([x], items, WithId(id));
    CountOne(x, WithId(id));
    TrimAddsNothing([x] + items, WithId(id));
  }

  lemma {:induction false} SeenSendsNothing(seen: set<nat>, items: seq<Item>, reaches: Item -> bool)
    requires AllSeen(items, seen)
    ensures Announce(seen, items, reaches) == (seen, [])
    decreases |items|
  {
    if items != [] { SeenSendsNothing(seen, items[..|items| - 1], reaches); }
  }

  /** A post that lands on an item the bridge has considered - a question re-derived, an FYI repeated, a withdrawn
      question asked again inside its window - sends nothing.  Nor does a staged post that carries such an id, even
      when, its text having changed while it waited, it is listed as an item of its own. */
  lemma RepostSendsNothing(items: seq<Item>, input: Input, fixedId: Option<nat>, window: int, now: int, nextId: nat,
                           seen: set<nat>, reaches: Item -> bool)
    requires AllSeen(items, seen) && (fixedId.Some? ==> fixedId.value in seen)
    requires Commit(items, input, fixedId, window, now, nextId).nextId == nextId
    ensures Announce(seen, Commit(items, input, fixedId, window, now, nextId).items, reaches) == (seen, [])
  {
    CommitIds(items, input, fixedId, window, now, nextId, seen);
    SeenSendsNothing(seen, Commit(items, input, fixedId, window, now, nextId).items, reaches);
  }

  /** Ids do repeat.  A withdrawn question is asked again with a dwell, so its id is staged; the text then changes; the
      timer finds nothing to reopen and lists a second item under the same id. */
  lemma IdsCanRepeat(old': Item, key: string, first: Content, second: Content)
    requires key != "" && old'.question && old'.key == Some(key) && old'.resolvedAt == Some(0)
    requires old'.resolution == Some(Withdrawn)
    requires Same(old', Merge(old', Input(true, first, Some(key), None))) && first.title != second.title && old'.id == 0
    ensures var s0 := State([old'], map[], 1, 0);
            var s1 := Step(s0, Post(Input(true, first, Some(key), None), 10, 100, 1));
            var s2 := Step(s1, Post(Input(true, second, Some(key), None), 10, 100, 2));
            var s3 := Step(s2, TimerFires(key, 1, 12));
            |s3.items| == 2 && s3.items[0].id == s3.items[1].id && !Same(s3.items[0], s3.items[1])
  {
    var s0 := State([old'], map[], 1, 0);
    var one, two := Input(true, first, Some(key), None), Input(true, second, Some(key), None);
    OnlyItem(old', Collapsible(one, 1, 100));
    var s1 := Step(s0, Post(one, 10, 100, 1));
    assert key in s1.staged && s1.staged[key].id == 0;
    var s2 := Step(s1, Post(two, 10, 100, 2));
    assert s2.staged[key] == Staged(1, 0, two.(ts := Some(2)), 100, Signature(two));
    OnlyItem(old', Outstanding(key));
    OnlyItem(old', Collapsible(two.(ts := Some(2)), 2, 100));
  }

  lemma OnlyItem(x: Item, q: Query)
    ensures First([x], q) == if Fits(q, x) then 0 else 1
  {
    assert [x][..0] == [];
  }

  // ------------------------------------------------------------------ the code

  lemma {:induction false} FirstInPrefix(items: seq<Item>, n: nat, q: Query)
    requires n <= |items| && First(items[..n], q) < n
    ensures First(items, q) == First(items[..n], q)
    decreases |items|
  {
    if n < |items| {
      assert items[..|items| - 1][..n] == items[..n];
      FirstInPrefix(items[..|items| - 1], n, q);
    } else {
      assert items[..n] == items;
    }
  }

  method FindIndex(items: seq<Item>, q: Query) returns (i: nat)
    ensures i == First(items, q) <= |items|
  {
    i := 0;
    while i < |items|
      invariant i <= |items| && First(items[..i], q) == i
    {
      assert items[..i + 1][..i] == items[..i];
      if Fits(q, items[i]) {
        FirstInPrefix(items, i + 1, q);
        return;
      }
      i := i + 1;
    }
    assert items[..|items|] == items;
  }

  class AttentionStore {
    var items: seq<Item>
    var staged: map<string, Staged>
    var nextId: nat
    var nextToken: nat

    function Model(): State
      reads this
    {
      State(items, staged, nextId, nextToken)
    }

    constructor ()
      ensures Model() == State([], map[], 0, 0)
    {
      items, staged, nextId, nextToken := [], map[], 0, 0;
    }

    method Write(next: seq<Item>)
      modifies this`items
      ensures items == Trim(next)
    {
      items := Trim(next);
    }

    method NewId() returns (id: nat)
      modifies this`nextId
      ensures id == old(nextId) && nextId == id + 1
    {
      id := nextId;
      nextId := nextId + 1;
    }

    method CommitAttention(input: Input, fixedId: Option<nat>, window: int, now: int) returns (id: nat)
      modifies this`items, this`nextId
      ensures Committed(items, id, nextId) == Commit(old(items), input, fixedId, window, now, old(nextId))
    {
      var ts := if input.ts.Some? then input.ts.value else now;
      if Keyed(input) {
        var i := FindIndex(items, Outstanding(input.key.value));
        if i < |items| {
          var merged := Merge(items[i], input);
          id := merged.id;
          if !Same(items[i], merged) {
            Write(items[i := merged]);
          }
          return;
        }
        if !input.question {
          var j := FindIndex(items, Fyi(input.key.value));
          if j < |items| {
            id := items[j].id;
            Write(ToFront(items, j, Refreshed(items[j], input, ts)));
            return;
          }
        }
        if input.question && window > 0 {
          var k := FindIndex(items, Collapsible(input, ts, window));
          if k < |items| {
            id := items[k].id;
            Write(ToFront(items, k, Reopened(items[k], input, ts)));
            return;
          }
        }
      }
      if fixedId.Some? {
        id := fixedId.value;
      } else {
        id := NewId();
      }
      Write([Item(id, input.question, input.content, input.key, ts, None, None, None, None)] + items);
    }

    method PostAttention(input: Input, dwellMs: int, collapseMs: int, now: int) returns (id: nat)
      modifies this
      ensures Model() == Step(old(Model()), Post(input, dwellMs, collapseMs, now))
      ensures if dwellMs > 0 && Keyed(input) then input.key.value in staged && id == staged[input.key.value].id
              else id == Commit(old(items), input, None, collapseMs, now, old(nextId)).id
    {
      if dwellMs <= 0 || !Keyed(input) {
        id := CommitAttention(input, None, collapseMs, now);
        return;
      }
      var key := input.key.value;
      if key in staged && staged[key].signature == Signature(input) {
        staged := staged[key := staged[key].(input := input.(ts := staged[key].input.ts))];
        return staged[key].id;
      }
      var window := Max(0, collapseMs);
      var ts := if input.ts.Some? then input.ts.value else now;
      if key in staged {
        id := staged[key].id;
      } else {
        var k := |items|;
        if input.question && window > 0 {
          k := FindIndex(items, Collapsible(input, ts, window));
        }
        if k < |items| {
          id := items[k].id;
        } else {
          id := NewId();
        }
      }
      staged := staged[key := Staged(nextToken, id, input.(ts := Some(ts)), window, Signature(input))];
      nextToken := nextToken + 1;
    }

    method Fire(key: string, token: nat, now: int)
      modifies this
      ensures Model() == Step(old(Model()), TimerFires(key, token, now))
    {
      if key in staged && staged[key].token == token {
        var t := staged[key];
        staged := staged - {key};
        var _ := CommitAttention(t.input, Some(t.id), t.window, now);
      }
    }

    /** Every staged post with the id is dropped, one key at a time. */
    method DropStaged(id: nat)
      modifies this`staged
      ensures staged == Without(old(staged), id)
    {
      var todo := staged.Keys;
      while todo != {}
        invariant todo <= old(staged).Keys
        invariant staged == map k | k in old(staged) && (k in todo || old(staged)[k].id != id) :: old(staged)[k]
        decreases |todo|
      {
        var k :| k in todo;
        if staged[k].id == id {
          staged := staged - {k};
        }
        todo := todo - {k};
      }
    }

    method ResolveAttention(id: nat, how: Resolution, now: int)
      modifies this
      ensures Model() == Step(old(Model()), Resolve(id, how, now))
    {
      DropStaged(id);
      var i := FindIndex(items, WithId(id));
      if i < |items| && items[i].resolvedAt.None? {
        Write(items[i := ResolveOne(items[i], now, how)]);
      }
    }

    method ResolveAttentionByKey(key: string, how: Resolution, now: int)
      modifies this
      ensures Model() == Step(old(Model()), ResolveByKey(key, how, now))
    {
      staged := staged - {key};
      var i := FindIndex(items, Outstanding(key));
      FirstIsWithin(items, Outstanding(key));
      if i < |items| {
        Write(ResolveUnder(items, key, now, how));
      }
    }

    method WaveAway(id: nat, now: int)
      modifies this
      ensures Model() == Step(old(Model()), DismissToast(id, now))
    {
      var i := FindIndex(items, WithId(id));
      if i < |items| && items[i].toastDismissedAt.None? {
        Write(items[i := items[i].(toastDismissedAt := Some(now))]);
      }
    }

    method OpenList(now: int)
      modifies this
      ensures Model() == Step(old(Model()), MarkAllRead(now))
    {
      if SomeUnread(items) {
        Write(ReadAll(items, now));
      }
    }

    method ClearHistory()
      modifies this
      ensures Model() == Step(old(Model()), Clear)
    {
      Write(Unresolved(items));
    }
  }

  /** The bridge's memory. */
  class OsBridge {
    var seen: set<nat>

    constructor (stored: seq<Item>)
      ensures forall x :: x in stored ==> x.id in seen
      ensures forall id :: id in seen ==> exists x :: x in stored && x.id == id
    {
      seen := set x | x in stored :: x.id;
    }

    method Consider(items: seq<Item>, reaches: Item -> bool) returns (send: seq<Item>)
      modifies this
      ensures (seen, send) == Announce(old(seen), items, reaches)
    {
      send := [];
      for i := 0 to |items|
        invariant (seen, send) == Announce(old(seen), items[..i], reaches)
      {
        assert items[..i + 1][..i] == items[..i];
        if items[i].id !in seen {
          seen := seen + {items[i].id};
          if reaches(items[i]) {
            send := send + [items[i]];
          }
        }
      }
      assert items[..|items|] == items;
    }
  }
}
