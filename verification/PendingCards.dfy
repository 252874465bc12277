/** Deriving the cards "an agent is waiting on you" from the hook-event stream (shared/notifications.ts
    `derivePending`): a fold over the events, one list of cards per session, newest first in the result. */
module PendingCards {
  import opened Basics

  /** How a CLI's own notices are to be read; looked up by agent. */
  datatype Fidelity = Mixed | Silent | Unmapped | Explicit

  /** What the fold consults but does not define: the fidelity table and the two text patterns. */
  datatype Rules = Rules(fidelity: string -> Fidelity, saysIdle: string -> bool, turnComplete: string -> bool)

  datatype Data = Data(
    sessionId: string, cwd: string, pty: Option<int>, event: string, tool: string, agent: string,
    signal: string, message: Option<string>, notificationType: string, lastAssistantMessage: string)

  datatype Entry = Entry(ts: int, data: Option<Data>)

  datatype Kind = Question | Notification | Idle

  datatype Item = Item(
    kind: Kind, agent: string, sessionId: string, cwd: string, pty: Option<int>, ts: int, message: string)

  function AgentOf(d: Data): string {
    if d.agent == "" then "claude" else d.agent
  }

  /** Read as a completion: by its signal if it has one, else by its words where the CLI's notices are of both kinds. */
  predicate MeansFinished(r: Rules, d: Data) {
    if d.signal != "" then d.signal == "turn-end"
    else r.fidelity(AgentOf(d)) == Mixed && r.saysIdle(if d.message.Some? then d.message.value else "")
  }

  predicate IsAsk(d: Data) {
    d.event == "PreToolUse" && d.tool == "AskUserQuestion"
  }

  predicate IsNotice(d: Data) {
    d.event == "Notification" || d.event == "PermissionRequest"
  }

  predicate IsStop(r: Rules, d: Data) {
    d.event == "Stop" || r.turnComplete(d.event)
  }

  /** A notification that says nothing about being blocked: no signal, and either its CLI's notices carry no such
      meaning or it is one of claude's typed ones. */
  predicate IsNoEvidence(r: Rules, d: Data) {
    && d.event == "Notification" && d.signal == ""
    && (r.fidelity(AgentOf(d)) == Silent || r.fidelity(AgentOf(d)) == Unmapped
        || (AgentOf(d) == "claude" && d.notificationType != ""))
  }

  function Clip(s: string, n: nat): string {
    if |s| <= n then s else s[..n]
  }

  function Card(kind: Kind, e: Entry, agent: string, message: string): Item
    requires e.data.Some?
  {
    Item(kind, agent, e.data.value.sessionId, e.data.value.cwd, e.data.value.pty, e.ts, message)
  }

  function NoticeText(d: Data): string {
    if d.message.Some? then d.message.value
    else if d.event == "PermissionRequest"
    then AgentOf(d) + " needs permission" + (if d.tool != "" then ": " + d.tool else "")
    else "Agent needs attention"
  }

  // ------------------------------------------------------------------ lists of cards

  function Only(list: seq<Item>, kind: Kind): seq<Item> {
    if list == [] then []
    else Only(list[..|list| - 1], kind) + if list[|list| - 1].kind == kind then [list[|list| - 1]] else []
  }

  function Without(list: seq<Item>, kind: Kind): seq<Item> {
    if list == [] then []
    else Without(list[..|list| - 1], kind) + if list[|list| - 1].kind != kind then [list[|list| - 1]] else []
  }

  function NewerThan(list: seq<Item>, ts: int): seq<Item> {
    if list == [] then []
    else NewerThan(list[..|list| - 1], ts) + if list[|list| - 1].ts > ts then [list[|list| - 1]] else []
  }

  function Count(list: seq<Item>, kind: Kind): nat {
    if list == [] then 0 else Count(list[..|list| - 1], kind) + if list[|list| - 1].kind == kind then 1 else 0
  }

  // ------------------------------------------------------------------ one event

  /** What an event does to its session's list: a new list, or nothing at all. */
  function Effect(r: Rules, known: bool, list: seq<Item>, e: Entry): Option<seq<Item>>
    requires e.data.Some?
  {
    var d := e.data.value;
    if IsAsk(d) then Some(Only(list, Idle) + [Card(Question, e, AgentOf(d), "")])
    else if IsNotice(d) then
      if IsNoEvidence(r, d) then None
      else if MeansFinished(r, d) then Some(Without(list, Idle) + [Card(Idle, e, AgentOf(d), NoticeText(d))])
      else if Count(list, Question) > 0 then None
      else Some(Without(list, Notification) + [Card(Notification, e, AgentOf(d), NoticeText(d))])
    else if IsStop(r, d) then
      var agent := if d.agent != "" then d.agent else if d.event == "Stop" then "claude" else "codex";
      var last := d.lastAssistantMessage;
      var words := if last != "" then Clip(last, 140) else "Finished \U{2014} waiting for you";
      Some(NewerThan(list, e.ts) + [Card(Idle, e, agent, words)])
    else if known then Some(NewerThan(list, e.ts))
    else None
  }

  /** One session's cards after some events: none before the first event that sets them. */
  function CardsOf(r: Rules, events: seq<Entry>, s: string): Option<seq<Item>> {
    if events == [] then None
    else
      var was, e := CardsOf(r, events[..|events| - 1], s), events[|events| - 1];
      if e.data.None? || e.data.value.sessionId != s || s == "" then was
      else
        match Effect(r, was.Some?, if was.Some? then was.value else [], e)
        case None => was
        case Some(list) => Some(list)
  }

  // ------------------------------------------------------------------ what a session can show

  /** At most one calm card, and at most one urgent one: a question or a notification, never both. */
  predicate Calm(list: seq<Item>) {
    Count(list, Idle) <= 1 && Count(list, Question) + Count(list, Notification) <= 1
  }

  predicate AllBy(list: seq<Item>, ts: int) {
    list == [] || (list[|list| - 1].ts <= ts && AllBy(list[..|list| - 1], ts))
  }

  lemma {:induction false} CountAppend(a: seq<Item>, b: seq<Item>, kind: Kind)
    ensures Count(a + b, kind) == Count(a, kind) + Count(b, kind)
    decreases |b|
  {
    if b == [] {
      assert a + b == a;
    } else {
      assert (a + b)[..|a + b| - 1] == a + b[..|b| - 1];
      CountAppend(a, b[..|b| - 1], kind);
    }
  }

  lemma CountOne(x: Item, kind: Kind)
    ensures Count([x], kind) == if x.kind == kind then 1 else 0
  {
    assert [x][..0] == [];
  }

  lemma {:induction false} CountOnly(list: seq<Item>, kind: Kind, k: Kind)
    ensures Count(Only(list, kind), k) == if k == kind then Count(list, k) else 0
    decreases |list|
  {
    if list != [] {
      var x, rest := list[|list| - 1], Only(list[..|list| - 1], kind);
      CountOnly(list[..|list| - 1], kind, k);
      if x.kind == kind {
        CountOne(x, k);
        CountAppend(rest, [x], k);
      } else {
        assert rest + [] == rest;
      }
    }
  }

  lemma {:induction false} CountWithout(list: seq<Item>, kind: Kind, k: Kind)
    ensures Count(Without(list, kind), k) == if k == kind then 0 else Count(list, k)
    decreases |list|
  {
    if list != [] {
      var x, rest := list[|list| - 1], Without(list[..|list| - 1], kind);
      CountWithout(list[..|list| - 1], kind, k);
      if x.kind != kind {
        CountOne(x, k);
        CountAppend(rest, [x], k);
      } else {
        assert rest + [] == rest;
      }
    }
  }

  lemma {:induction false} AllByFiltered(list: seq<Item>, kind: Kind, ts: int)
    requires AllBy(list, ts)
    ensures AllBy(Only(list, kind), ts) && AllBy(Without(list, kind), ts) && NewerThan(list, ts) == []
    decreases |list|
  {
    if list != [] {
      AllByFiltered(list[..|list| - 1], kind, ts);
      AllBySnoc(Only(list[..|list| - 1], kind), list[|list| - 1], ts);
      AllBySnoc(Without(list[..|list| - 1], kind), list[|list| - 1], ts);
    }
  }

  lemma AllBySnoc(list: seq<Item>, x: Item, ts: int)
    requires AllBy(list, ts) && x.ts <= ts
    ensures AllBy(list + [x], ts) && AllBy(list + [], ts)
  {
    assert (list + [x])[..|list|] == list;
    assert list + [] == list;
  }

  lemma {:induction false} AllByLater(list: seq<Item>, ts: int, ts': int)
    requires AllBy(list, ts) && ts <= ts'
    ensures AllBy(list, ts')
    decreases |list|
  {
    if list != [] { AllByLater(list[..|list| - 1], ts, ts'); }
  }

  lemma {:induction false} NothingNewer(list: seq<Item>, ts: int)
    ensures NewerThan(list, ts) == [] <==> AllBy(list, ts)
    decreases |list|
  {
    if list != [] { NothingNewer(list[..|list| - 1], ts); }
  }

  /** A turn's end resolves everything and leaves its one calm card, and any other event of the session leaves none -
      exactly when no pending card is newer than the event.  Out of order, an older card would be kept. */
  lemma EndsAreExact(r: Rules, known: bool, list: seq<Item>, e: Entry)
    requires e.data.Some? && !IsAsk(e.data.value) && !IsNotice(e.data.value)
    ensures var after := Effect(r, known, list, e);
            if IsStop(r, e.data.value)
            then after.Some? && (|after.value| == 1 <==> AllBy(list, e.ts)) && |after.value| >= 1
                 && after.value[|after.value| - 1].kind == Idle
            else known ==> after.Some? && (after.value == [] <==> AllBy(list, e.ts))
  {
    NothingNewer(list, e.ts);
  }

  lemma {:induction false} CountNewer(list: seq<Item>, ts: int, k: Kind)
    ensures Count(NewerThan(list, ts), k) <= Count(list, k)
    decreases |list|
  {
    if list != [] {
      var x, rest := list[|list| - 1], NewerThan(list[..|list| - 1], ts);
      CountNewer(list[..|list| - 1], ts, k);
      CountAppend(rest, [x], k);
      CountOne(x, k);
      assert rest + [] == rest;
    }
  }

  /** The event ends a turn, whatever else it might be read as. */
  predicate IsEnd(r: Rules, d: Data) {
    IsStop(r, d) && !IsAsk(d) && !IsNotice(d)
  }

  /** The event is no turn's end that finds a calm card newer than itself. */
  predicate FindsNoNewerCalm(r: Rules, list: seq<Item>, e: Entry)
    requires e.data.Some?
  {
    IsEnd(r, e.data.value) ==> Count(NewerThan(list, e.ts), Idle) == 0
  }

  /** One event keeps a session calm exactly when it is no turn's end that finds a newer calm card: asks, notices and
      steps forward do, whatever their timestamps. */
  lemma CalmExactly(r: Rules, known: bool, list: seq<Item>, e: Entry)
    requires e.data.Some? && Calm(list)
    ensures var after := Effect(r, known, list, e);
            after.Some? ==> (Calm(after.value) <==> FindsNoNewerCalm(r, list, e))
  {
    hide Only, Without, NewerThan, NoticeText, Clip;
    var d := e.data.value;
    if IsAsk(d) {
      AddKeepsCalm(Only(list, Idle), Card(Question, e, AgentOf(d), ""), list);
    } else if IsNotice(d) {
      if !IsNoEvidence(r, d) {
        if MeansFinished(r, d) {
          AddKeepsCalm(Without(list, Idle), Card(Idle, e, AgentOf(d), NoticeText(d)), list);
        } else if Count(list, Question) == 0 {
          AddKeepsCalm(Without(list, Notification), Card(Notification, e, AgentOf(d), NoticeText(d)), list);
        }
      }
    } else {
      NewerIsCalm(list, e.ts);
      if IsStop(r, d) {
        var after := Effect(r, known, list, e).value;
        AddIdle(NewerThan(list, e.ts), after[|after| - 1]);
      }
    }
  }

  lemma NewerIsCalm(list: seq<Item>, ts: int)
    requires Calm(list)
    ensures Calm(NewerThan(list, ts))
  {
    CountNewer(list, ts, Idle);
    CountNewer(list, ts, Question);
    CountNewer(list, ts, Notification);
  }

  lemma AddIdle(kept: seq<Item>, x: Item)
    requires Calm(kept) && x.kind == Idle
    ensures Calm(kept + [x]) <==> Count(kept, Idle) == 0
  {
    forall k: Kind ensures Count(kept + [x], k) == Count(kept, k) + if k == Idle then 1 else 0 {
      CountAppend(kept, [x], k);
      CountOne(x, k);
    }
  }

  /** Cards as old as an event stay so. */
  lemma EffectIsBy(r: Rules, known: bool, list: seq<Item>, e: Entry)
    requires e.data.Some? && AllBy(list, e.ts)
    ensures var after := Effect(r, known, list, e);
            after.Some? ==> AllBy(after.value, e.ts)
  {
    hide Only, Without, NewerThan, AllBy, NoticeText, Clip, Count;
    NoCards(e.ts);
    var d := e.data.value;
    AllByFiltered(list, Idle, e.ts);
    AllByFiltered(list, Notification, e.ts);
    if IsAsk(d) {
      AllBySnoc(Only(list, Idle), Card(Question, e, AgentOf(d), ""), e.ts);
    } else if IsNotice(d) {
      AllBySnoc(Without(list, Idle), Card(Idle, e, AgentOf(d), NoticeText(d)), e.ts);
      AllBySnoc(Without(list, Notification), Card(Notification, e, AgentOf(d), NoticeText(d)), e.ts);
    } else if IsStop(r, d) {
      var after := Effect(r, known, list, e).value;
      AllBySnoc([], after[|after| - 1], e.ts);
    }
  }

  lemma AddKeepsCalm(kept: seq<Item>, x: Item, list: seq<Item>)
    requires Calm(list)
    requires
      || (x.kind == Question && kept == Only(list, Idle))
      || (x.kind == Idle && kept == Without(list, Idle))
      || (x.kind == Notification && kept == Without(list, Notification) && Count(list, Question) == 0)
    ensures Calm(kept + [x])
  {
    CountKind(kept, x, list, Idle);
    CountKind(kept, x, list, Question);
    CountKind(kept, x, list, Notification);
  }

  lemma CountKind(kept: seq<Item>, x: Item, list: seq<Item>, k: Kind)
    ensures Count(kept + [x], k) == Count(kept, k) + if x.kind == k then 1 else 0
    ensures Count(Only(list, Idle), k) == if k == Idle then Count(list, k) else 0
    ensures Count(Without(list, Idle), k) == if k == Idle then 0 else Count(list, k)
    ensures Count(Without(list, Notification), k) == if k == Notification then 0 else Count(list, k)
  {
    CountAppend(kept, [x], k);
    CountOne(x, k);
    CountOnly(list, Idle, k);
    CountWithout(list, Idle, k);
    CountWithout(list, Notification, k);
  }

  // ------------------------------------------------------------------ over a whole stream

  predicate Of(e: Entry, s: string) {
    e.data.Some? && e.data.value.sessionId == s
  }

  /** A session's own events come with non-decreasing timestamps. */
  predicate InOrder(events: seq<Entry>, s: string) {
    events == [] ||
    (var n := |events| - 1;
     InOrder(events[..n], s) && (Of(events[n], s) ==> AllBefore(events[..n], s, events[n].ts)))
  }

  predicate AllBefore(events: seq<Entry>, s: string, ts: int) {
    events == [] ||
    (var n := |events| - 1;
     AllBefore(events[..n], s, ts) && (Of(events[n], s) ==> events[n].ts <= ts))
  }

  /** What a session shows: nothing before the first event that sets its cards. */
  function Now(r: Rules, events: seq<Entry>, s: string): seq<Item> {
    if CardsOf(r, events, s).Some? then CardsOf(r, events, s).value else []
  }

  lemma NoCards(ts: int)
    ensures AllBy([], ts) && Calm([]) && NewerThan([], ts) == []
  {
  }

  /** The last event of a stream, as one session sees it. */
  lemma NowSnoc(r: Rules, init: seq<Entry>, e: Entry, s: string)
    ensures var was := Now(r, init, s);
            Now(r, init + [e], s) ==
              if !Of(e, s) || s == "" then was
              else
                var after := Effect(r, CardsOf(r, init, s).Some?, was, e);
                if after.None? then was else after.value
  {
    hide Effect;
    assert (init + [e])[..|init|] == init;
  }

  /** Every card of a session whose events come in order is as old as one of them. */
  lemma {:induction false} CardsAreBefore(r: Rules, events: seq<Entry>, s: string, ts: int)
    requires AllBefore(events, s, ts) && InOrder(events, s)
    ensures AllBy(Now(r, events, s), ts)
    decreases |events|
  {
    hide Effect, AllBy, Now, CardsOf;
    if events == [] {
      assert Now(r, [], s) == [] by { NowNothing(r, s); }
      NoCards(ts);
    } else {
      var init, e := events[..|events| - 1], events[|events| - 1];
      assert events == init + [e];
      CardsAreBefore(r, init, s, ts);
      NowSnoc(r, init, e, s);
      if Of(e, s) && s != "" {
        CardsAreBefore(r, init, s, e.ts);
        EffectIsBy(r, CardsOf(r, init, s).Some?, Now(r, init, s), e);
        var after := Effect(r, CardsOf(r, init, s).Some?, Now(r, init, s), e);
        if after.Some? { AllByLater(after.value, e.ts, ts); }
      }
    }
  }

  lemma NowNothing(r: Rules, s: string)
    ensures Now(r, [], s) == []
  {
  }

  /** In the stream no turn's end of the session finds a calm card newer than itself. */
  predicate NoEndFindsNewerCalm(r: Rules, events: seq<Entry>, s: string) {
    events == [] ||
    (var init, e := events[..|events| - 1], events[|events| - 1];
     NoEndFindsNewerCalm(r, init, s) && (Of(e, s) && s != "" ==> FindsNoNewerCalm(r, Now(r, init, s), e)))
  }

  /** After every prefix of the stream the session shows at most one calm and at most one urgent card. */
  predicate AlwaysCalm(r: Rules, events: seq<Entry>, s: string) {
    Calm(Now(r, events, s)) && (events == [] || AlwaysCalm(r, events[..|events| - 1], s))
  }

  /** Exactly so. */
  lemma {:induction false} EverySessionStaysCalm(r: Rules, events: seq<Entry>, s: string)
    ensures AlwaysCalm(r, events, s) <==> NoEndFindsNewerCalm(r, events, s)
    decreases |events|
  {
    hide Effect, Now, CardsOf, Calm, FindsNoNewerCalm;
    if events == [] {
      assert Now(r, [], s) == [] by { NowNothing(r, s); }
      NoCards(0);
    } else {
      var init, e := events[..|events| - 1], events[|events| - 1];
      assert events == init + [e];
      EverySessionStaysCalm(r, init, s);
      LastOfAlways(r, init, s);
      NowSnoc(r, init, e, s);
      if Of(e, s) && s != "" && Calm(Now(r, init, s)) {
        CalmExactly(r, CardsOf(r, init, s).Some?, Now(r, init, s), e);
        NoChangeIsNoEnd(r, CardsOf(r, init, s).Some?, Now(r, init, s), e);
      }
    }
  }

  lemma LastOfAlways(r: Rules, events: seq<Entry>, s: string)
    ensures AlwaysCalm(r, events, s) ==> Calm(Now(r, events, s))
  {
  }

  lemma NoChangeIsNoEnd(r: Rules, known: bool, list: seq<Item>, e: Entry)
    requires e.data.Some?
    ensures Effect(r, known, list, e).None? ==> FindsNoNewerCalm(r, list, e)
  {
    hide Only, Without, NewerThan, NoticeText, Clip;
  }

  /** Timestamps that do not run backwards are enough. */
  lemma {:induction false} InOrderIsEnough(r: Rules, events: seq<Entry>, s: string)
    requires InOrder(events, s)
    ensures NoEndFindsNewerCalm(r, events, s)
    decreases |events|
  {
    hide Now;
    if events != [] {
      var init, e := events[..|events| - 1], events[|events| - 1];
      InOrderIsEnough(r, init, s);
      if Of(e, s) {
        CardsAreBefore(r, init, s, e.ts);
        NothingNewer(Now(r, init, s), e.ts);
      }
    }
  }

  /** After a turn's end the session shows exactly its one calm card, and after any other step forward none. */
  lemma LastEventDecides(r: Rules, events: seq<Entry>, s: string)
    requires events != [] && InOrder(events, s) && s != "" && Of(events[|events| - 1], s)
    requires var d := events[|events| - 1].data.value; !IsAsk(d) && !IsNotice(d)
    ensures var d, cards := events[|events| - 1].data.value, CardsOf(r, events, s);
            if IsStop(r, d) then cards.Some? && |cards.value| == 1 && cards.value[0].kind == Idle
            else cards.Some? ==> cards.value == []
  {
    var n := |events| - 1;
    CardsAreBefore(r, events[..n], s, events[n].ts);
    var was := CardsOf(r, events[..n], s);
    EndsAreExact(r, was.Some?, if was.Some? then was.value else [], events[n]);
  }

  lemma AfterStop(r: Rules, events: seq<Entry>, e: Entry, s: string)
    requires Of(e, s) && s != "" && e.data.value.event == "Stop"
    ensures var was, now := CardsOf(r, events, s), CardsOf(r, events + [e], s);
            && now.Some? && |now.value| >= 1
            && now.value[|now.value| - 1].kind == Idle && now.value[|now.value| - 1].ts == e.ts
            && now.value[..|now.value| - 1] == NewerThan(if was.Some? then was.value else [], e.ts)
  {
    assert (events + [e])[..|events|] == events;
    assert |"Stop"| == 4 && |"PreToolUse"| == 10 && |"Notification"| == 12 && |"PermissionRequest"| == 17;
  }

  /** The order matters: a Stop stamped before the calm card it finds leaves two of them. */
  lemma TwoIdleCardsOutOfOrder(r: Rules, a: Entry, b: Entry, s: string)
    requires Of(a, s) && Of(b, s) && s != "" && a.data.value.event == "Stop" && b.data.value.event == "Stop"
    requires a.ts > b.ts
    ensures CardsOf(r, [a, b], s).Some? && Count(CardsOf(r, [a, b], s).value, Idle) == 2
  {
    AfterStop(r, [], a, s);
    AfterStop(r, [a], b, s);
    assert [] + [a] == [a] && [a] + [b] == [a, b];
    var one, two := CardsOf(r, [a], s).value, CardsOf(r, [a, b], s).value;
    assert one == [one[0]] && one[..0] == [];
    assert NewerThan(one, b.ts) == [] + [one[0]] == one;
    assert two == one + [two[1]];
    CountOne(one[0], Idle);
    CountOne(two[1], Idle);
    CountAppend(one, [two[1]], Idle);
  }

  // ------------------------------------------------------------------ all sessions together

  /** The map the fold updates, with its keys in order of insertion. */
  datatype Board = Board(order: seq<string>, lists: map<string, seq<Item>>)

  function Put(b: Board, s: string, list: seq<Item>): Board {
    Board(if s in b.lists then b.order else b.order + [s], b.lists[s := list])
  }

  function Derive(r: Rules, events: seq<Entry>): Board {
    if events == [] then Board([], map[])
    else
      var b, e := Derive(r, events[..|events| - 1]), events[|events| - 1];
      if e.data.None? || e.data.value.sessionId == "" then b
      else
        var s := e.data.value.sessionId;
        match Effect(r, s in b.lists, if s in b.lists then b.lists[s] else [], e)
        case None => b
        case Some(list) => Put(b, s, list)
  }

  function Flat(order: seq<string>, lists: map<string, seq<Item>>): seq<Item> {
    if order == [] then []
    else
      var s := order[|order| - 1];
      Flat(order[..|order| - 1], lists) + if s in lists then lists[s] else []
  }

  /** The stable sort, newest first. */
  function Insert(sorted: seq<Item>, x: Item): seq<Item> {
    if sorted == [] || sorted[|sorted| - 1].ts >= x.ts then sorted + [x]
    else Insert(sorted[..|sorted| - 1], x) + [sorted[|sorted| - 1]]
  }

  function NewestFirst(list: seq<Item>): seq<Item> {
    if list == [] then [] else Insert(NewestFirst(list[..|list| - 1]), list[|list| - 1])
  }

  function Pending(r: Rules, events: seq<Entry>): seq<Item> {
    var b := Derive(r, events);
    NewestFirst(Flat(b.order, b.lists))
  }

  function Mine(list: seq<Item>, s: string): seq<Item> {
    if list == [] then []
    else Mine(list[..|list| - 1], s) + if list[|list| - 1].sessionId == s then [list[|list| - 1]] else []
  }

  function EventsOf(events: seq<Entry>, s: string): seq<Entry> {
    if events == [] then []
    else EventsOf(events[..|events| - 1], s) + if Of(events[|events| - 1], s) then [events[|events| - 1]] else []
  }

  /** The board's list for a session is that session's own fold. */
  lemma {:induction false} BoardIsPerSession(r: Rules, events: seq<Entry>, s: string)
    ensures var b := Derive(r, events);
            if s in b.lists then CardsOf(r, events, s) == Some(b.lists[s]) else CardsOf(r, events, s) == None
    decreases |events|
  {
    if events != [] { BoardIsPerSession(r, events[..|events| - 1], s); }
  }

  lemma CardsSnoc(r: Rules, events: seq<Entry>, e: Entry, s: string)
    ensures CardsOf(r, events + [e], s) ==
              var was := CardsOf(r, events, s);
              if e.data.None? || e.data.value.sessionId != s || s == "" then was
              else
                var after := Effect(r, was.Some?, if was.Some? then was.value else [], e);
                if after.None? then was else after
  {
    hide Effect;
    assert (events + [e])[..|events|] == events;
  }

  lemma {:induction false} OwnEventsSuffice(r: Rules, events: seq<Entry>, s: string)
    ensures CardsOf(r, EventsOf(events, s), s) == CardsOf(r, events, s)
    decreases |events|
  {
    hide Effect, CardsOf;
    if events == [] {
      assert EventsOf([], s) == [];
    } else {
      var init, e := events[..|events| - 1], events[|events| - 1];
      var own := EventsOf(init, s);
      OwnEventsSuffice(r, init, s);
      assert events == init + [e] && own + [] == own;
      CardsSnoc(r, init, e, s);
      CardsSnoc(r, own, e, s);
    }
  }

  // ------------------------------------------------------------------ sorting commutes with choosing a session

  predicate AllFrom(list: seq<Item>, ts: int) {
    list == [] || (list[|list| - 1].ts >= ts && AllFrom(list[..|list| - 1], ts))
  }

  predicate Descending(list: seq<Item>) {
    list == [] || (Descending(list[..|list| - 1]) && AllFrom(list[..|list| - 1], list[|list| - 1].ts))
  }

  lemma {:induction false} AllFromEarlier(list: seq<Item>, ts: int, lower: int)
    requires AllFrom(list, ts) && lower <= ts
    ensures AllFrom(list, lower)
    decreases |list|
  {
    if list != [] { AllFromEarlier(list[..|list| - 1], ts, lower); }
  }

  lemma {:induction false} InsertBelow(q: seq<Item>, x: Item, ts: int)
    requires AllFrom(q, ts) && x.ts >= ts
    ensures AllFrom(Insert(q, x), ts)
    decreases |q|
  {
    if q == [] || q[|q| - 1].ts >= x.ts {
      assert (q + [x])[..|q|] == q;
    } else {
      var rest := Insert(q[..|q| - 1], x);
      InsertBelow(q[..|q| - 1], x, ts);
      assert (rest + [q[|q| - 1]])[..|rest|] == rest;
    }
  }

  lemma {:induction false} InsertDescends(q: seq<Item>, x: Item)
    requires Descending(q)
    ensures Descending(Insert(q, x))
    decreases |q|
  {
    if q == [] || q[|q| - 1].ts >= x.ts {
      assert (q + [x])[..|q|] == q;
      if q != [] { AllFromEarlier(q[..|q| - 1], q[|q| - 1].ts, x.ts); }
    } else {
      var rest, last := Insert(q[..|q| - 1], x), q[|q| - 1];
      InsertDescends(q[..|q| - 1], x);
      InsertBelow(q[..|q| - 1], x, last.ts);
      assert (rest + [last])[..|rest|] == rest;
    }
  }

  lemma {:induction false} NewestFirstDescends(list: seq<Item>)
    ensures Descending(NewestFirst(list))
    decreases |list|
  {
    if list != [] {
      NewestFirstDescends(list[..|list| - 1]);
      InsertDescends(NewestFirst(list[..|list| - 1]), list[|list| - 1]);
    }
  }

  lemma MineSnoc(q: seq<Item>, x: Item, s: string)
    ensures Mine(q + [x], s) == if x.sessionId == s then Mine(q, s) + [x] else Mine(q, s)
  {
    assert (q + [x])[..|q|] == q;
    assert Mine(q, s) + [] == Mine(q, s);
  }

  lemma {:induction false} MineFrom(q: seq<Item>, ts: int, s: string)
    requires AllFrom(q, ts)
    ensures AllFrom(Mine(q, s), ts)
    decreases |q|
  {
    if q != [] {
      var rest, last := Mine(q[..|q| - 1], s), q[|q| - 1];
      MineFrom(q[..|q| - 1], ts, s);
      assert (rest + [last])[..|rest|] == rest && rest + [] == rest;
    }
  }

  lemma InsertSkips(q: seq<Item>, last: Item, x: Item)
    requires last.ts < x.ts
    ensures Insert(q + [last], x) == Insert(q, x) + [last]
  {
    assert (q + [last])[..|q|] == q;
  }

  /** A session's share of a descending list takes a card no newer than any at its end too. */
  lemma MineLast(q: seq<Item>, x: Item, s: string)
    requires Descending(q) && (q == [] || q[|q| - 1].ts >= x.ts)
    ensures Insert(Mine(q, s), x) == Mine(q, s) + [x]
  {
    if q != [] {
      AllFromEarlier(q[..|q| - 1], q[|q| - 1].ts, x.ts);
      MineFrom(q, x.ts, s);
    }
  }

  lemma {:induction false} MineInsert(q: seq<Item>, x: Item, s: string)
    requires Descending(q)
    ensures Mine(Insert(q, x), s) == if x.sessionId == s then Insert(Mine(q, s), x) else Mine(q, s)
    decreases |q|
  {
    hide Mine, AllFrom;
    if q == [] || q[|q| - 1].ts >= x.ts {
      MineSnoc(q, x, s);
      MineLast(q, x, s);
    } else {
      var init, last := q[..|q| - 1], q[|q| - 1];
      MineInsert(init, x, s);
      MineSnoc(Insert(init, x), last, s);
      MineSnoc(init, last, s);
      assert q == init + [last];
      InsertSkips(init, last, x);
      InsertSkips(Mine(init, s), last, x);
    }
  }

  lemma EmptyLists(s: string)
    ensures Mine([], s) == [] && NewestFirst([]) == []
  {
  }

  lemma NewestFirstSnoc(list: seq<Item>, x: Item)
    ensures NewestFirst(list + [x]) == Insert(NewestFirst(list), x)
  {
    assert (list + [x])[..|list|] == list;
  }

  lemma {:induction false} MineNewestFirst(list: seq<Item>, s: string)
    ensures Mine(NewestFirst(list), s) == NewestFirst(Mine(list, s))
    decreases |list|
  {
    hide Insert, Mine, NewestFirst;
    if list == [] {
      assert Mine([], s) == [] && NewestFirst([]) == [] by { EmptyLists(s); }
    } else {
      var init, last := list[..|list| - 1], list[|list| - 1];
      MineNewestFirst(init, s);
      NewestFirstDescends(init);
      MineInsert(NewestFirst(init), last, s);
      MineSnoc(init, last, s);
      NewestFirstSnoc(init, last);
      NewestFirstSnoc(Mine(init, s), last);
      assert list == init + [last];
    }
  }

  // ------------------------------------------------------------------ the board, one session at a time

  predicate AllOf(list: seq<Item>, s: string) {
    list == [] || (list[|list| - 1].sessionId == s && AllOf(list[..|list| - 1], s))
  }

  lemma AllOfSnoc(list: seq<Item>, x: Item, s: string)
    requires AllOf(list, s) && x.sessionId == s
    ensures AllOf(list + [x], s)
  {
    assert (list + [x])[..|list|] == list;
  }

  lemma {:induction false} AllOfOnly(list: seq<Item>, kind: Kind, s: string)
    requires AllOf(list, s)
    ensures AllOf(Only(list, kind), s)
    decreases |list|
  {
    if list != [] {
      var rest := Only(list[..|list| - 1], kind);
      AllOfOnly(list[..|list| - 1], kind, s);
      AllOfSnoc(rest, list[|list| - 1], s);
      assert rest + [] == rest;
    }
  }

  lemma {:induction false} AllOfWithout(list: seq<Item>, kind: Kind, s: string)
    requires AllOf(list, s)
    ensures AllOf(Without(list, kind), s)
    decreases |list|
  {
    if list != [] {
      var rest := Without(list[..|list| - 1], kind);
      AllOfWithout(list[..|list| - 1], kind, s);
      AllOfSnoc(rest, list[|list| - 1], s);
      assert rest + [] == rest;
    }
  }

  lemma {:induction false} AllOfNewer(list: seq<Item>, ts: int, s: string)
    requires AllOf(list, s)
    ensures AllOf(NewerThan(list, ts), s)
    decreases |list|
  {
    if list != [] {
      var rest := NewerThan(list[..|list| - 1], ts);
      AllOfNewer(list[..|list| - 1], ts, s);
      AllOfSnoc(rest, list[|list| - 1], s);
      assert rest + [] == rest;
    }
  }

  lemma EffectIsOwn(r: Rules, known: bool, list: seq<Item>, e: Entry, s: string)
    requires Of(e, s) && AllOf(list, s)
    ensures var after := Effect(r, known, list, e);
            after.Some? ==> AllOf(after.value, s)
  {
    hide Only, Without, NewerThan, AllOf, NoticeText, Count;
    var d := e.data.value;
    AllOfOnly(list, Idle, s);
    AllOfWithout(list, Idle, s);
    AllOfWithout(list, Notification, s);
    AllOfNewer(list, e.ts, s);
    if IsAsk(d) {
      AllOfSnoc(Only(list, Idle), Card(Question, e, AgentOf(d), ""), s);
    } else if IsNotice(d) {
      AllOfSnoc(Without(list, Idle), Card(Idle, e, AgentOf(d), NoticeText(d)), s);
      AllOfSnoc(Without(list, Notification), Card(Notification, e, AgentOf(d), NoticeText(d)), s);
    } else if IsStop(r, d) {
      var after := Effect(r, known, list, e).value;
      AllOfSnoc(NewerThan(list, e.ts), after[|after| - 1], s);
    }
  }

  lemma {:induction false} CardsAreOwn(r: Rules, events: seq<Entry>, s: string)
    ensures AllOf(Now(r, events, s), s)
    decreases |events|
  {
    hide Effect, Now, CardsOf;
    if events == [] {
      assert Now(r, [], s) == [] by { NowNothing(r, s); }
    } else {
      var init, e := events[..|events| - 1], events[|events| - 1];
      assert events == init + [e];
      CardsAreOwn(r, init, s);
      NowSnoc(r, init, e, s);
      if Of(e, s) { EffectIsOwn(r, CardsOf(r, init, s).Some?, Now(r, init, s), e, s); }
    }
  }

  lemma {:induction false} MineAppend(a: seq<Item>, b: seq<Item>, s: string)
    ensures Mine(a + b, s) == Mine(a, s) + Mine(b, s)
    decreases |b|
  {
    if b == [] {
      assert a + b == a;
    } else {
      assert (a + b)[..|a + b| - 1] == a + b[..|b| - 1];
      MineAppend(a, b[..|b| - 1], s);
    }
  }

  lemma {:induction false} MineOfOne(list: seq<Item>, k: string, s: string)
    requires AllOf(list, k)
    ensures Mine(list, s) == if k == s then list else []
    decreases |list|
  {
    if list != [] {
      var init, x := list[..|list| - 1], list[|list| - 1];
      MineOfOne(init, k, s);
      assert list == init + [x];
      MineSnoc(init, x, s);
    }
  }

  predicate Distinct(order: seq<string>) {
    order == [] || (order[|order| - 1] !in order[..|order| - 1] && Distinct(order[..|order| - 1]))
  }

  lemma {:induction false} OrderIsKeys(r: Rules, events: seq<Entry>, s: string)
    ensures var b := Derive(r, events); Distinct(b.order) && (s in b.order <==> s in b.lists)
    decreases |events|
  {
    if events != [] {
      var b, e := Derive(r, events[..|events| - 1]), events[|events| - 1];
      OrderIsKeys(r, events[..|events| - 1], s);
      if e.data.Some? {
        var k := e.data.value.sessionId;
        OrderIsKeys(r, events[..|events| - 1], k);
        assert (b.order + [k])[..|b.order|] == b.order;
      }
    }
  }

  lemma MineOfList(r: Rules, events: seq<Entry>, k: string, s: string)
    ensures var lists := Derive(r, events).lists;
            k in lists ==> Mine(lists[k], s) == if k == s then lists[k] else []
  {
    hide Derive, AllOf, CardsOf;
    var lists := Derive(r, events).lists;
    if k in lists {
      BoardIsPerSession(r, events, k);
      CardsAreOwn(r, events, k);
      MineOfOne(lists[k], k, s);
    }
  }

  lemma {:induction false} MineOfBoard(r: Rules, events: seq<Entry>, order: seq<string>, s: string)
    requires Distinct(order)
    ensures var lists := Derive(r, events).lists;
            Mine(Flat(order, lists), s) == if s in order && s in lists then lists[s] else []
    decreases |order|
  {
    hide Derive, Mine;
    if order == [] {
      assert Mine([], s) == [] by { EmptyLists(s); }
    } else {
      var lists, init, k := Derive(r, events).lists, order[..|order| - 1], order[|order| - 1];
      MineOfBoard(r, events, init, s);
      MineAppend(Flat(init, lists), if k in lists then lists[k] else [], s);
      assert s in order <==> s in init || s == k;
      MineOfList(r, events, k, s);
      EmptyLists(s);
    }
  }

  lemma EmptyBoard(r: Rules)
    ensures Derive(r, []) == Board([], map[])
  {
  }

  lemma PutKeepsSmall(r: Rules, own: seq<Entry>, e: Entry, s: string)
    requires Of(e, s) && var b := Derive(r, own); (b.order == [] || b.order == [s]) && (s in b.order <==> s in b.lists)
    ensures var order := Derive(r, own + [e]).order; order == [] || order == [s]
  {
    hide Effect;
    assert (own + [e])[..|own|] == own;
  }

  lemma {:induction false} OwnBoardIsSmall(r: Rules, events: seq<Entry>, s: string)
    ensures var order := Derive(r, EventsOf(events, s)).order; order == [] || order == [s]
    decreases |events|
  {
    hide Effect, Derive;
    if events == [] {
      assert Derive(r, []).order == [] by { EmptyBoard(r); }
    } else {
      var n := |events| - 1;
      var own := EventsOf(events[..n], s);
      OwnBoardIsSmall(r, events[..n], s);
      OrderIsKeys(r, own, s);
      if Of(events[n], s) { PutKeepsSmall(r, own, events[n], s); } else { assert own + [] == own; }
    }
  }

  /** Filtering the result by session is deriving from that session's events alone: no session's events move another's
      cards, and the sort is stable. */
  lemma PendingIsPerSession(r: Rules, events: seq<Entry>, s: string)
    ensures Mine(Pending(r, events), s) == Pending(r, EventsOf(events, s))
  {
    var all, own := Derive(r, events), Derive(r, EventsOf(events, s));
    MineNewestFirst(Flat(all.order, all.lists), s);
    OrderIsKeys(r, events, s);
    MineOfBoard(r, events, all.order, s);
    OwnBoardIsSmall(r, events, s);
    OrderIsKeys(r, EventsOf(events, s), s);
    BoardIsPerSession(r, events, s);
    BoardIsPerSession(r, EventsOf(events, s), s);
    OwnEventsSuffice(r, events, s);
    if own.order == [s] {
      assert own.order[..0] == [];
      assert Flat([], own.lists) + own.lists[s] == own.lists[s];
    }
  }

  lemma {:induction false} CountInsert(q: seq<Item>, x: Item, k: Kind)
    ensures Count(Insert(q, x), k) == Count(q, k) + Count([x], k)
    decreases |q|
  {
    if q == [] || q[|q| - 1].ts >= x.ts {
      CountAppend(q, [x], k);
    } else {
      var init, last := q[..|q| - 1], q[|q| - 1];
      CountInsert(init, x, k);
      CountAppend(Insert(init, x), [last], k);
      CountAppend(init, [last], k);
      assert q == init + [last];
    }
  }

  lemma {:induction false} CountNewestFirst(list: seq<Item>, k: Kind)
    ensures Count(NewestFirst(list), k) == Count(list, k)
    decreases |list|
  {
    if list != [] {
      var init, last := list[..|list| - 1], list[|list| - 1];
      CountNewestFirst(init, k);
      CountInsert(NewestFirst(init), last, k);
      CountAppend(init, [last], k);
      assert list == init + [last];
    }
  }

  /** In the sorted result a session's share is as calm as its own cards. */
  lemma ShownIsNow(r: Rules, events: seq<Entry>, s: string)
    ensures Calm(Mine(Pending(r, events), s)) <==> Calm(Now(r, events, s))
  {
    hide Derive, Flat, NewestFirst, Mine, CardsOf;
    var all := Derive(r, events);
    MineNewestFirst(Flat(all.order, all.lists), s);
    OrderIsKeys(r, events, s);
    MineOfBoard(r, events, all.order, s);
    BoardIsPerSession(r, events, s);
    var list := Mine(Flat(all.order, all.lists), s);
    CountNewestFirst(list, Idle);
    CountNewestFirst(list, Question);
    CountNewestFirst(list, Notification);
  }

  /** What is shown after every prefix of the stream has at most one calm and one urgent card of the session. */
  predicate AlwaysShownCalm(r: Rules, events: seq<Entry>, s: string) {
    Calm(Mine(Pending(r, events), s)) && (events == [] || AlwaysShownCalm(r, events[..|events| - 1], s))
  }

  /** So in what is shown: exactly when no turn's end of the session finds a newer calm card of it. */
  lemma PendingStaysCalm(r: Rules, events: seq<Entry>, s: string)
    ensures AlwaysShownCalm(r, events, s) <==> NoEndFindsNewerCalm(r, events, s)
  {
    EverySessionStaysCalm(r, events, s);
    ShownIsAlways(r, events, s);
  }

  lemma {:induction false} ShownIsAlways(r: Rules, events: seq<Entry>, s: string)
    ensures AlwaysShownCalm(r, events, s) <==> AlwaysCalm(r, events, s)
    decreases |events|
  {
    hide Calm, Mine, Pending, Now;
    ShownIsNow(r, events, s);
    if events != [] { ShownIsAlways(r, events[..|events| - 1], s); }
  }

  // ------------------------------------------------------------------ the loop

  lemma DeriveStep(r: Rules, events: seq<Entry>, i: nat)
    requires i < |events|
    ensures var b, e := Derive(r, events[..i]), events[i];
            Derive(r, events[..i + 1]) ==
              if e.data.None? || e.data.value.sessionId == "" then b
              else
                var s := e.data.value.sessionId;
                var after := Effect(r, s in b.lists, if s in b.lists then b.lists[s] else [], e);
                if after.None? then b else Put(b, s, after.value)
  {
    assert events[..i + 1][..i] == events[..i];
  }

  /** One event against the map, its branches in the order of the source. */
  method Apply(r: Rules, b: Board, e: Entry) returns (after: Board)
    requires e.data.Some?
    ensures var s := e.data.value.sessionId;
            var list := Effect(r, s in b.lists, if s in b.lists then b.lists[s] else [], e);
            after == if list.None? then b else Put(b, s, list.value)
  {
    var d := e.data.value;
    var s := d.sessionId;
    var agent := AgentOf(d);
    var list := if s in b.lists then b.lists[s] else [];
    if d.event == "PreToolUse" && d.tool == "AskUserQuestion" {
      return Put(b, s, Only(list, Idle) + [Card(Question, e, agent, "")]);
    }
    if d.event == "Notification" || d.event == "PermissionRequest" {
      var mode := r.fidelity(agent);
      if d.event == "Notification" && d.signal == "" &&
         (mode == Silent || mode == Unmapped || (agent == "claude" && d.notificationType != ""))
      {
        return b;
      }
      if MeansFinished(r, d) {
        return Put(b, s, Without(list, Idle) + [Card(Idle, e, agent, NoticeText(d))]);
      }
      if Count(list, Question) > 0 {
        return b;
      }
      return Put(b, s, Without(list, Notification) + [Card(Notification, e, agent, NoticeText(d))]);
    }
    if d.event == "Stop" || r.turnComplete(d.event) {
      var who := if d.agent != "" then d.agent else if d.event == "Stop" then "claude" else "codex";
      var last := d.lastAssistantMessage;
      var words := if last != "" then Clip(last, 140) else "Finished \U{2014} waiting for you";
      return Put(b, s, NewerThan(list, e.ts) + [Card(Idle, e, who, words)]);
    }
    after := if s in b.lists then Put(b, s, NewerThan(list, e.ts)) else b;
  }

  method DerivePending(r: Rules, events: seq<Entry>) returns (items: seq<Item>)
    ensures items == Pending(r, events)
  {
    var b := Board([], map[]);
    for i := 0 to |events|
      invariant b == Derive(r, events[..i])
    {
      DeriveStep(r, events, i);
      if events[i].data.Some? && events[i].data.value.sessionId != "" {
        b := Apply(r, b, events[i]);
      }
    }
    assert events[..|events|] == events;
    items := NewestFirst(Flat(b.order, b.lists));
  }
}
