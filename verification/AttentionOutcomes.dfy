/** What each operation of the attention queue does to the list (src/attention.ts), said of the items themselves: which
    one changes, into what, and that nothing else does. */
module AttentionOutcomes {
  import opened Basics
  import opened Attention

  /** `i` is the first position whose item satisfies `q`. */
  predicate IsFirst(items: seq<Item>, i: nat, q: Query) {
    i < |items| && Fits(q, items[i]) && forall j :: 0 <= j < i ==> !Fits(q, items[j])
  }

  predicate NoneFits(items: seq<Item>, q: Query) {
    forall j :: 0 <= j < |items| ==> !Fits(q, items[j])
  }

  lemma {:induction false} FirstMeans(items: seq<Item>, q: Query)
    ensures if First(items, q) < |items| then IsFirst(items, First(items, q), q)
            else First(items, q) == |items| && NoneFits(items, q)
    decreases |items|
  {
    hide Fits;
    if items != [] { FirstMeans(items[..|items| - 1], q); }
  }

  lemma FirstIs(items: seq<Item>, i: nat, q: Query)
    requires IsFirst(items, i, q)
    ensures First(items, q) == i
  {
    hide Fits;
    FirstMeans(items, q);
  }

  // ------------------------------------------------------------------ the cap

  lemma {:induction false} UnresolvedIs(items: seq<Item>, x: Item)
    ensures multiset(Unresolved(items))[x] == if IsOutstanding(x) then multiset(items)[x] else 0
    decreases |items|
  {
    if items != [] {
      UnresolvedIs(items[..|items| - 1], x);
      assert items == items[..|items| - 1] + [items[|items| - 1]];
    }
  }

  /** The cap leaves the newest 300 as they are, and of the others exactly the outstanding questions. */
  lemma TrimKeeps(items: seq<Item>, x: Item)
    ensures |items| <= 300 ==> Trim(items) == items
    ensures |items| > 300 ==>
              var kept := Trim(items);
              && |kept| >= 300 && kept[..300] == items[..300]
              && multiset(kept[300..])[x] == if IsOutstanding(x) then multiset(items[300..])[x] else 0
  {
    if |items| > 300 {
      UnresolvedIs(items[300..], x);
      assert Trim(items)[..300] == items[..300] && Trim(items)[300..] == Unresolved(items[300..]);
    }
  }

  // ------------------------------------------------------------------ ending a question

  /** By id: the first item with it is resolved, unless it was already - the first writer wins - and no staged post
      carries the id any more.  Nothing else changes. */
  lemma ResolveDoes(s: State, id: nat, how: Resolution, now: int, i: nat)
    ensures var t := Step(s, Resolve(id, how, now));
            && (IsFirst(s.items, i, WithId(id)) ==>
                  var x := s.items[i];
                  if x.resolvedAt.Some? then t.items == s.items
                  else t.items == Trim(s.items[i := x.(resolvedAt := Some(now), resolution := Some(how))]))
            && (NoneFits(s.items, WithId(id)) ==> t.items == s.items)
            && (forall k :: k in t.staged <==> k in s.staged && s.staged[k].id != id)
            && (forall k :: k in t.staged ==> t.staged[k] == s.staged[k])
            && t.nextId == s.nextId && t.nextToken == s.nextToken
  {
    hide Trim, First, Fits;
    FirstMeans(s.items, WithId(id));
  }

  /** The asker's question is over: of the outstanding ones with that id, key and waiting time one is gone, so none is
      left where the id stands once. */
  lemma ResolveEnds(s: State, id: nat, how: Resolution, now: int, i: nat)
    requires IsFirst(s.items, i, WithId(id)) && IsOutstanding(s.items[i])
    ensures var q, t := Waiting(id, s.items[i].key, s.items[i].ts), Step(s, Resolve(id, how, now));
            && Count(t.items, q) == Count(s.items, q) - 1
            && (Count(s.items, WithId(id)) == 1 ==> Count(t.items, q) == 0)
  {
    hide Trim, First, Count, Step;
    var q := Waiting(id, s.items[i].key, s.items[i].ts);
    var x := s.items[i].(resolvedAt := Some(now), resolution := Some(how));
    ResolveDoes(s, id, how, now, i);
    CountUpdate(s.items, i, x, q);
    TrimLosesNoQuestion(s.items[i := x], q);
    FewerWait(s.items, q);
  }

  lemma {:induction false} FewerWait(items: seq<Item>, q: Query)
    requires q.Waiting?
    ensures Count(items, q) <= Count(items, WithId(q.id))
    decreases |items|
  {
    if items != [] { FewerWait(items[..|items| - 1], q); }
  }

  /** Each item of `next` is that of `items`, resolved if it is outstanding under the key. */
  predicate ResolvedUnder(items: seq<Item>, next: seq<Item>, key: string, how: Resolution, now: int) {
    |next| == |items| && forall i :: 0 <= i < |items| ==>
      next[i] == if IsOutstanding(items[i]) && items[i].key == Some(key)
                 then items[i].(resolvedAt := Some(now), resolution := Some(how)) else items[i]
  }

  lemma {:induction false} ResolveUnderIs(items: seq<Item>, key: string, now: int, how: Resolution)
    ensures ResolvedUnder(items, ResolveUnder(items, key, now, how), key, how, now)
    decreases |items|
  {
    if items != [] { ResolveUnderIs(items[..|items| - 1], key, now, how); }
  }

  lemma {:induction false} NoneCounted(items: seq<Item>, q: Query)
    ensures Count(items, q) == 0 <==> NoneFits(items, q)
    decreases |items|
  {
    hide Fits;
    if items != [] { NoneCounted(items[..|items| - 1], q); }
  }

  /** By key: every question outstanding under it is resolved, and its staged post dropped. */
  lemma ResolveByKeyDoes(s: State, key: string, how: Resolution, now: int) returns (next: seq<Item>)
    ensures ResolvedUnder(s.items, next, key, how, now)
    ensures var t := Step(s, ResolveByKey(key, how, now));
            && t.items == (if NoneFits(s.items, Outstanding(key)) then s.items else Trim(next))
            && t == s.(items := t.items, staged := s.staged - {key})
  {
    hide Trim, Count, ResolveUnder;
    NoneCounted(s.items, Outstanding(key));
    ResolveUnderIs(s.items, key, now, how);
    next := ResolveUnder(s.items, key, now, how);
  }

  // ------------------------------------------------------------------ looking and clearing

  /** A toast waved away: the first item with the id is marked, once, and stays as answered or unanswered as it was. */
  lemma DismissDoes(s: State, id: nat, now: int, i: nat)
    ensures var t := Step(s, DismissToast(id, now));
            && (IsFirst(s.items, i, WithId(id)) ==>
                  var x := s.items[i];
                  t.items == if x.toastDismissedAt.Some? then s.items
                             else Trim(s.items[i := x.(toastDismissedAt := Some(now))]))
            && (NoneFits(s.items, WithId(id)) ==> t.items == s.items)
            && t == s.(items := t.items)
  {
    hide Trim, First, Fits;
    FirstMeans(s.items, WithId(id));
  }

  predicate AllRead(items: seq<Item>, next: seq<Item>, now: int) {
    |next| == |items| && forall i :: 0 <= i < |items| ==>
      next[i] == if items[i].readAt.None? then items[i].(readAt := Some(now)) else items[i]
  }

  lemma {:induction false} ReadAllIs(items: seq<Item>, now: int)
    ensures AllRead(items, ReadAll(items, now), now)
    ensures SomeUnread(items) <==> exists i :: 0 <= i < |items| && items[i].readAt.None?
    decreases |items|
  {
    if items != [] {
      var init := items[..|items| - 1];
      ReadAllIs(init, now);
      if SomeUnread(init) {
        var i :| 0 <= i < |init| && init[i].readAt.None?;
        assert items[i].readAt.None?;
      }
      if i :| 0 <= i < |items| && items[i].readAt.None? {
        assert i < |init| ==> init[i].readAt.None?;
      }
    }
  }

  /** Opening the list reads what was unread, at that moment, and answers nothing. */
  lemma MarkAllReadDoes(s: State, now: int) returns (next: seq<Item>)
    ensures AllRead(s.items, next, now)
    ensures var t := Step(s, MarkAllRead(now));
            && t.items == (if exists i :: 0 <= i < |s.items| && s.items[i].readAt.None? then Trim(next) else s.items)
            && t == s.(items := t.items)
  {
    hide Trim, ReadAll;
    ReadAllIs(s.items, now);
    next := ReadAll(s.items, now);
  }

  /** Clearing leaves exactly the outstanding questions. */
  lemma ClearDoes(s: State, x: Item)
    ensures var t := Step(s, Clear);
            multiset(t.items)[x] == (if IsOutstanding(x) then multiset(s.items)[x] else 0) && t == s.(items := t.items)
  {
    hide Trim, Unresolved;
    var left := Unresolved(s.items);
    UnresolvedIs(s.items, x);
    TrimKeeps(left, x);
    if |left| > 300 {
      UnresolvedIs(s.items, x);
      assert left == left[..300] + left[300..];
      assert Trim(left) == Trim(left)[..300] + Trim(left)[300..];
      if !IsOutstanding(x) { assert x !in multiset(left); assert x !in left[300..]; }
    }
  }

  // ------------------------------------------------------------------ landing a post

  predicate Takes<T(==)>(before: Option<T>, given: Option<T>, after: Option<T>) {
    if given.Some? then after == given else after == before
  }

  /** `y` is `x` with what the poster said: every field it gave, and the stored ones where it gave none. */
  predicate Carries(x: Item, input: Input, y: Item) {
    var c, d := input.content, y.content;
    && y.id == x.id && y.question == input.question && Takes(x.key, input.key, y.key)
    && d.tone == c.tone && d.title == c.title && d.source == c.source && Takes(x.content.body, c.body, d.body)
    && Takes(x.content.projectId, c.projectId, d.projectId)
    && Takes(x.content.projectName, c.projectName, d.projectName)
    && Takes(x.content.target, c.target, d.target) && Takes(x.content.osHandled, c.osHandled, d.osHandled)
  }

  predicate SameTimes(x: Item, y: Item) {
    && y.ts == x.ts && y.readAt == x.readAt && y.toastDismissedAt == x.toastDismissedAt
    && y.resolvedAt == x.resolvedAt && y.resolution == x.resolution
  }

  /** The poster gives nothing that is not stored already; who passes it on to the system is not shown. */
  predicate NothingNew(x: Item, input: Input) {
    var c, d := input.content, x.content;
    && x.question == input.question && d.tone == c.tone && d.title == c.title && d.source == c.source
    && c.body in {None, d.body} && c.projectId in {None, d.projectId} && c.projectName in {None, d.projectName}
    && c.target in {None, d.target}
  }

  /** What the queries look for: an outstanding question under a key, the very question an asker holds, an announcement
      under a key, and a question of the same key and text that was withdrawn no longer ago than the window. */
  lemma FitsMeans(x: Item, key: string, id: nat, asker: Option<string>, since: int, input: Input, now: int, window: int)
    ensures Fits(Outstanding(key), x) <==> x.question && x.resolvedAt.None? && x.key == Some(key)
    ensures Fits(Waiting(id, asker, since), x) <==>
              x.question && x.resolvedAt.None? && (x.id, x.key, x.ts) == (id, asker, since)
    ensures Fits(Fyi(key), x) <==> !x.question && x.key == Some(key)
    ensures Fits(Collapsible(input, now, window), x) <==>
              && x.question && x.key == input.key && NothingNew(x, input)
              && x.resolution == Some(Withdrawn) && x.resolvedAt.Some? && now <= x.resolvedAt.value + window
  {
  }

  /** A question asked again while it is outstanding is still that question: it keeps its id, its place and the time it
      has been waiting since, and only says what was said last. */
  lemma AskedAgain(items: seq<Item>, input: Input, fixedId: Option<nat>, window: int, now: int, nextId: nat, i: nat)
    returns (y: Item)
    requires Keyed(input) && IsFirst(items, i, Outstanding(input.key.value))
    ensures Carries(items[i], input, y) && SameTimes(items[i], y)
    ensures var c := Commit(items, input, fixedId, window, now, nextId);
            && c.id == items[i].id && c.nextId == nextId
            && c.items == if NothingNew(items[i], input) then items else Trim(items[i := y])
  {
    hide Trim, First;
    FirstIs(items, i, Outstanding(input.key.value));
    y := Merge(items[i], input);
  }

  /** An announcement made again is that announcement, at the top, with a new time, unread and with its toast back. */
  lemma AnnouncedAgain(items: seq<Item>, input: Input, fixedId: Option<nat>, window: int, now: int, nextId: nat, j: nat)
    returns (y: Item)
    requires Keyed(input) && !input.question && NoneFits(items, Outstanding(input.key.value))
    requires IsFirst(items, j, Fyi(input.key.value))
    ensures Carries(items[j], input, y) && y.ts == (if input.ts.Some? then input.ts.value else now)
    ensures y.readAt.None? && y.toastDismissedAt.None?
    ensures y.resolvedAt == items[j].resolvedAt && y.resolution == items[j].resolution
    ensures var c := Commit(items, input, fixedId, window, now, nextId);
            c.id == items[j].id && c.nextId == nextId && c.items == Trim([y] + (items[..j] + items[j + 1..]))
  {
    hide Trim, First;
    FirstMeans(items, Outstanding(input.key.value));
    FirstIs(items, j, Fyi(input.key.value));
    y := Refreshed(items[j], input, if input.ts.Some? then input.ts.value else now);
  }

  /** A withdrawn question of the same text, asked again inside its window, is reopened under its old id, at the top. */
  lemma AskedSoonAgain(items: seq<Item>, input: Input, fixedId: Option<nat>, window: int, now: int, nextId: nat, k: nat)
    returns (y: Item)
    requires Keyed(input) && input.question && window > 0 && NoneFits(items, Outstanding(input.key.value))
    requires IsFirst(items, k, Collapsible(input, if input.ts.Some? then input.ts.value else now, window))
    ensures Carries(items[k], input, y) && y.ts == (if input.ts.Some? then input.ts.value else now)
    ensures y.readAt.None? && y.toastDismissedAt.None? && y.resolvedAt.None? && y.resolution.None?
    ensures items[k].resolution == Some(Withdrawn) && items[k].resolvedAt.Some?
    ensures y.ts - items[k].resolvedAt.value <= window && y.key == items[k].key
    ensures y.content.(osHandled := items[k].content.osHandled) == items[k].content
    ensures var c := Commit(items, input, fixedId, window, now, nextId);
            c.id == items[k].id && c.nextId == nextId && c.items == Trim([y] + (items[..k] + items[k + 1..]))
  {
    hide Trim, First;
    FirstMeans(items, Outstanding(input.key.value));
    FirstIs(items, k, Collapsible(input, if input.ts.Some? then input.ts.value else now, window));
    y := Reopened(items[k], input, if input.ts.Some? then input.ts.value else now);
  }

  /** A post lands on nothing. */
  predicate FindsNothing(items: seq<Item>, input: Input, ts: int, window: int) {
    input.key.Some? && input.key.value != "" ==>
      && NoneFits(items, Outstanding(input.key.value))
      && (!input.question ==> NoneFits(items, Fyi(input.key.value)))
      && (input.question && window > 0 ==> NoneFits(items, Collapsible(input, ts, window)))
  }

  /** Then it queues: a new item at the top, and every other item where it was. */
  lemma PostedNew(items: seq<Item>, input: Input, fixedId: Option<nat>, window: int, now: int, nextId: nat)
    requires FindsNothing(items, input, if input.ts.Some? then input.ts.value else now, window)
    ensures var ts := if input.ts.Some? then input.ts.value else now;
            var c := Commit(items, input, fixedId, window, now, nextId);
            && c.id == (if fixedId.Some? then fixedId.value else nextId)
            && c.nextId == (if fixedId.Some? then nextId else nextId + 1)
            && var x := Item(c.id, input.question, input.content, input.key, ts, None, None, None, None);
               c.items == Trim([x] + items)
  {
    hide Trim, First, Same;
    if Keyed(input) {
      FirstMeans(items, Outstanding(input.key.value));
      FirstMeans(items, Fyi(input.key.value));
      FirstMeans(items, Collapsible(input, if input.ts.Some? then input.ts.value else now, window));
    }
  }

  // ------------------------------------------------------------------ waiting out a dwell

  /** A post with a key and a dwell waits, shown nowhere; any other is committed at once and leaves
      those that wait alone. */
  lemma PostsNowOrLater(s: State, input: Input, dwellMs: int, collapseMs: int, now: int)
    ensures var t := Step(s, Post(input, dwellMs, collapseMs, now));
            var c := Commit(s.items, input, None, collapseMs, now, s.nextId);
            if dwellMs > 0 && input.key.Some? && input.key.value != ""
            then t.items == s.items && input.key.value in t.staged
            else t == s.(items := c.items, nextId := c.nextId)
  {
    hide Commit, StagedId;
  }

  /** Every staged post's signature is that of what it would say. */
  predicate Signed(s: State) {
    forall k :: k in s.staged ==> s.staged[k].signature == Signature(s.staged[k].input)
  }

  lemma StepKeepsSigned(s: State, ev: Event)
    requires Signed(s)
    ensures Signed(Step(s, ev))
  {
    hide Commit, Trim, First, Count, ResolveUnder, ReadAll, Unresolved, ResolveItem, Dismiss, SomeUnread, StagedId;
  }

  /** Says the same thing, as far as anyone is shown. */
  predicate SaysTheSame(a: Input, b: Input) {
    && a.question == b.question && a.content.tone == b.content.tone && a.content.title == b.content.title
    && a.content.source == b.content.source && a.content.body == b.content.body
    && a.content.projectId == b.content.projectId && a.content.projectName == b.content.projectName
    && a.content.target == b.content.target
  }

  /** Staging under a key: said again, a post keeps its timer, its id and the time it first arrived; said differently,
      it starts over.  Nothing is listed, and no other key is touched. */
  lemma StagedIs(s: State, ev: Event)
    requires Signed(s) && Staging(ev)
    ensures var key, input, t := ev.input.key.value, ev.input, Step(s, ev);
            && key in t.staged && t.items == s.items && t.staged - {key} == s.staged - {key}
            && t.staged[key].input.(ts := input.ts) == input
            && if key in s.staged && SaysTheSame(s.staged[key].input, input)
               then t.staged[key] == s.staged[key].(input := t.staged[key].input)
                    && t.staged[key].input.ts == s.staged[key].input.ts
               else t.staged[key].token == s.nextToken
                    && t.staged[key].input.ts == Some(if input.ts.Some? then input.ts.value else ev.now)
                    && t.staged[key].window == if ev.collapseMs > 0 then ev.collapseMs else 0
  {
    hide First, Fits;
  }

  /** Its id is that of the post it replaces; or that of the withdrawn question it would reopen; or a new one. */
  lemma StagedUnder(s: State, ev: Event, k: nat)
    requires Signed(s) && Staging(ev)
    ensures var key, input, t := ev.input.key.value, ev.input, Step(s, ev);
            var q := Collapsible(input, if input.ts.Some? then input.ts.value else ev.now, ev.collapseMs);
            var reopens := input.question && ev.collapseMs > 0;
            if key in s.staged then t.staged[key].id == s.staged[key].id && t.nextId == s.nextId
            else
              && (reopens && IsFirst(s.items, k, q) ==> t.staged[key].id == s.items[k].id && t.nextId == s.nextId)
              && (!reopens || NoneFits(s.items, q) ==> t.staged[key].id == s.nextId && t.nextId == s.nextId + 1)
  {
    hide First, Fits;
    var q := Collapsible(ev.input, if ev.input.ts.Some? then ev.input.ts.value else ev.now, ev.collapseMs);
    FirstMeans(s.items, q);
    if IsFirst(s.items, k, q) { FirstIs(s.items, k, q); }
  }

  /** The event replaces, cancels or fires the post staged under the key. */
  predicate Touches(ev: Event, key: string, t: Staged) {
    match ev
    case Post(input, _, _, _) => Staging(ev) && input.key == Some(key)
    case TimerFires(k, token, _) => k == key && token == t.token
    case Resolve(id, _, _) => id == t.id
    case ResolveByKey(k, _, _) => k == key
    case _ => false
  }

  predicate NoneTouches(evs: seq<Event>, key: string, t: Staged) {
    evs == [] || (!Touches(evs[|evs| - 1], key, t) && NoneTouches(evs[..|evs| - 1], key, t))
  }

  lemma StaysStaged(s: State, ev: Event, key: string)
    requires key in s.staged && !Touches(ev, key, s.staged[key])
    ensures key in Step(s, ev).staged && Step(s, ev).staged[key] == s.staged[key]
  {
    hide Commit, Trim, First, Count, ResolveUnder, ReadAll, Unresolved, ResolveItem, Dismiss, SomeUnread, StagedId;
  }

  /** A post that nobody replaces or cancels is committed when its timer fires, whatever was posted and resolved in the
      meantime: with what it said, and under the id its poster was given. */
  lemma {:induction false} DwellEndsInAPost(s: State, evs: seq<Event>, key: string, now: int)
    requires key in s.staged && NoneTouches(evs, key, s.staged[key])
    ensures var was, p := Run(s, evs), s.staged[key];
            var then', c := Step(was, TimerFires(key, p.token, now)),
                Commit(was.items, p.input, Some(p.id), p.window, now, was.nextId);
            && key in was.staged && was.staged[key] == p
            && then' == was.(items := c.items, nextId := c.nextId, staged := was.staged - {key})
    decreases |evs|
  {
    hide Commit;
    if evs != [] {
      hide Step, Touches;
      DwellEndsInAPost(s, evs[..|evs| - 1], key, now);
      StaysStaged(Run(s, evs[..|evs| - 1]), evs[|evs| - 1], key);
      Fires(Run(s, evs), key, now);
    }
  }

  lemma Fires(s: State, key: string, now: int)
    requires key in s.staged
    ensures var p := s.staged[key];
            var c := Commit(s.items, p.input, Some(p.id), p.window, now, s.nextId);
            Step(s, TimerFires(key, p.token, now)) ==
              s.(items := c.items, nextId := c.nextId, staged := s.staged - {key})
  {
    hide Commit;
  }
}
