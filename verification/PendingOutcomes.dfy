/** What one more event leaves of a session's cards in the derived list (shared/notifications.ts `derivePending`): for
    each kind of event, told from its own fields, exactly which cards are shown after it. */
module PendingOutcomes {
  import opened Basics
  import opened PendingCards

  // ------------------------------------------------------------------ what is shown, as a bag of cards

  lemma {:induction false} InsertAdds(q: seq<Item>, x: Item)
    ensures multiset(Insert(q, x)) == multiset(q) + multiset{x}
    decreases |q|
  {
    if q != [] && q[|q| - 1].ts < x.ts {
      InsertAdds(q[..|q| - 1], x);
      assert q == q[..|q| - 1] + [q[|q| - 1]];
    }
  }

  lemma {:induction false} SortKeepsAll(list: seq<Item>)
    ensures multiset(NewestFirst(list)) == multiset(list)
    decreases |list|
  {
    if list != [] {
      SortKeepsAll(list[..|list| - 1]);
      InsertAdds(NewestFirst(list[..|list| - 1]), list[|list| - 1]);
      assert list == list[..|list| - 1] + [list[|list| - 1]];
    }
  }

  /** The cards shown for one session after some events. */
  function Shown(r: Rules, events: seq<Entry>, s: string): multiset<Item> {
    multiset(Mine(Pending(r, events), s))
  }

  lemma ShownIsFold(r: Rules, events: seq<Entry>, s: string)
    ensures Shown(r, events, s) == multiset(Now(r, events, s))
  {
    hide Derive, Flat, NewestFirst, Mine, CardsOf;
    var all := Derive(r, events);
    MineNewestFirst(Flat(all.order, all.lists), s);
    OrderIsKeys(r, events, s);
    MineOfBoard(r, events, all.order, s);
    BoardIsPerSession(r, events, s);
    SortKeepsAll(Mine(Flat(all.order, all.lists), s));
  }

  lemma {:induction false} OnlyKeeps(list: seq<Item>, kind: Kind, x: Item)
    ensures multiset(Only(list, kind))[x] == if x.kind == kind then multiset(list)[x] else 0
    decreases |list|
  {
    if list != [] {
      OnlyKeeps(list[..|list| - 1], kind, x);
      assert list == list[..|list| - 1] + [list[|list| - 1]];
    }
  }

  lemma {:induction false} WithoutKeeps(list: seq<Item>, kind: Kind, x: Item)
    ensures multiset(Without(list, kind))[x] == if x.kind == kind then 0 else multiset(list)[x]
    decreases |list|
  {
    if list != [] {
      WithoutKeeps(list[..|list| - 1], kind, x);
      assert list == list[..|list| - 1] + [list[|list| - 1]];
    }
  }

  lemma OneMore(list: seq<Item>, y: Item, x: Item)
    ensures multiset(list + [y])[x] == multiset(list)[x] + if x == y then 1 else 0
  {
  }

  lemma NewerSnoc(list: seq<Item>, ts: int)
    requires list != []
    ensures var init, last := list[..|list| - 1], list[|list| - 1];
            NewerThan(list, ts) == if last.ts > ts then NewerThan(init, ts) + [last] else NewerThan(init, ts)
  {
    assert NewerThan(list[..|list| - 1], ts) + [] == NewerThan(list[..|list| - 1], ts);
  }

  lemma {:induction false} NewerKeeps(list: seq<Item>, ts: int, x: Item)
    ensures multiset(NewerThan(list, ts))[x] == if x.ts > ts then multiset(list)[x] else 0
    decreases |list|
  {
    if list != [] {
      var init, last := list[..|list| - 1], list[|list| - 1];
      NewerKeeps(init, ts, x);
      NewerSnoc(list, ts);
      hide NewerThan;
      OneMore(init, last, x);
      OneMore(NewerThan(init, ts), last, x);
      assert list == init + [last];
    }
  }

  lemma {:induction false} CountIsAny(list: seq<Item>, kind: Kind)
    ensures Count(list, kind) > 0 <==> exists x: Item :: x in multiset(list) && x.kind == kind
    decreases |list|
  {
    if list != [] {
      var init, last := list[..|list| - 1], list[|list| - 1];
      CountIsAny(init, kind);
      assert multiset(list) == multiset(init) + multiset{last} by { assert list == init + [last]; }
      if Count(init, kind) > 0 {
        var x: Item :| x in multiset(init) && x.kind == kind;
        assert x in multiset(list);
      } else if last.kind == kind {
        assert last in multiset(list);
      }
    }
  }

  /** The session's cards before and after one more event, in terms of the fold's step. */
  lemma ShownStep(r: Rules, events: seq<Entry>, e: Entry, s: string)
    ensures var list := Now(r, events, s);
            && Shown(r, events, s) == multiset(list)
            && Shown(r, events + [e], s) ==
               if !Of(e, s) || s == "" then multiset(list)
               else
                 var after := Effect(r, CardsOf(r, events, s).Some?, list, e);
                 if after.None? then multiset(list) else multiset(after.value)
    ensures CardsOf(r, events, s).None? ==> Now(r, events, s) == []
  {
    hide Shown, Effect;
    ShownIsFold(r, events, s);
    ShownIsFold(r, events + [e], s);
    NowSnoc(r, events, e, s);
  }

  // ------------------------------------------------------------------ event by event

  predicate Asking(cards: multiset<Item>) {
    exists x: Item :: x in cards && x.kind == Question
  }

  /** An ask leaves exactly one urgent card, its own question, and the calm cards there were: a blocked agent is
      always shown, and once. */
  lemma AskIsShown(r: Rules, events: seq<Entry>, e: Entry, x: Item)
    requires e.data.Some? && e.data.value.sessionId != ""
    requires e.data.value.event == "PreToolUse" && e.data.value.tool == "AskUserQuestion"
    ensures var d := e.data.value;
            var agent := if d.agent == "" then "claude" else d.agent;
            var card := Item(Question, agent, d.sessionId, d.cwd, d.pty, e.ts, "");
            Shown(r, events + [e], d.sessionId)[x] ==
              if x.kind == Idle then Shown(r, events, d.sessionId)[x] else if x == card then 1 else 0
  {
    hide Shown, Pending, Now, Only;
    var s := e.data.value.sessionId;
    ShownStep(r, events, e, s);
    OnlyKeeps(Now(r, events, s), Idle, x);
  }

  /** A notice says of itself that nobody is blocked, or that its program's notices carry no such meaning. */
  predicate Empty(r: Rules, d: Data) {
    var agent := if d.agent == "" then "claude" else d.agent;
    && d.event == "Notification" && d.signal == ""
    && (r.fidelity(agent) in {Silent, Unmapped} || (agent == "claude" && d.notificationType != ""))
  }

  /** A notice means the turn is over. */
  predicate Over(r: Rules, d: Data) {
    || d.signal == "turn-end"
    || (&& d.signal == "" && r.fidelity(if d.agent == "" then "claude" else d.agent) == Mixed
        && r.saysIdle(match d.message case Some(m) => m case None => ""))
  }

  /** The card a notice makes. */
  predicate IsCardOf(x: Item, kind: Kind, e: Entry)
    requires e.data.Some?
  {
    var d := e.data.value;
    && x.kind == kind && x.ts == e.ts && x.sessionId == d.sessionId && x.cwd == d.cwd && x.pty == d.pty
    && x.agent == (if d.agent == "" then "claude" else d.agent)
    && (d.message.Some? ==> x.message == d.message.value)
    && (d.message.None? && d.event == "Notification" ==> x.message == "Agent needs attention")
    && (d.message.None? && d.event == "PermissionRequest" ==>
          x.message == x.agent + " needs permission" + (if d.tool != "" then ": " + d.tool else ""))
  }

  /** Card for card, a notice's own card is the one the fold makes. */
  lemma NoticeMakes(e: Entry, kind: Kind, x: Item)
    requires e.data.Some? && (e.data.value.event == "Notification" || e.data.value.event == "PermissionRequest")
    ensures IsCardOf(x, kind, e) <==> x == Card(kind, e, AgentOf(e.data.value), NoticeText(e.data.value))
  {
    DistinctNames(e.data.value);
  }

  lemma NoticeDoes(r: Rules, known: bool, list: seq<Item>, e: Entry)
    requires e.data.Some? && (e.data.value.event == "Notification" || e.data.value.event == "PermissionRequest")
    ensures var d := e.data.value;
            Effect(r, known, list, e) ==
              if Empty(r, d) then None
              else if Over(r, d) then Some(Without(list, Idle) + [Card(Idle, e, AgentOf(d), NoticeText(d))])
              else if Count(list, Question) > 0 then None
              else Some(Without(list, Notification) + [Card(Notification, e, AgentOf(d), NoticeText(d))])
  {
    hide Without, Count, NoticeText;
    DistinctNames(e.data.value);
  }

  /** A notice that the agent is blocked leaves exactly one notification, its own, beside whatever calm cards there
      were - unless a question is shown already, which says so: then nothing changes. */
  lemma BlockedIsShown(r: Rules, events: seq<Entry>, e: Entry, x: Item)
    requires e.data.Some? && e.data.value.sessionId != ""
    requires e.data.value.event == "Notification" || e.data.value.event == "PermissionRequest"
    requires !Empty(r, e.data.value) && !Over(r, e.data.value)
    ensures var s := e.data.value.sessionId;
            var was, now := Shown(r, events, s), Shown(r, events + [e], s);
            if Asking(was) || x.kind != Notification then now[x] == was[x]
            else now[x] == if IsCardOf(x, Notification, e) then 1 else 0
  {
    hide Shown, Now, Without, Effect, Empty, Over, IsCardOf, NoticeText;
    var s := e.data.value.sessionId;
    ShownStep(r, events, e, s);
    var list := Now(r, events, s);
    NoticeDoes(r, CardsOf(r, events, s).Some?, list, e);
    NoticeMakes(e, Notification, x);
    CountIsAny(list, Question);
    WithoutKeeps(list, Notification, x);
  }

  /** A notice that the turn is over leaves exactly one calm card, its own, and every urgent card there was. */
  lemma OverIsShown(r: Rules, events: seq<Entry>, e: Entry, x: Item)
    requires e.data.Some? && e.data.value.sessionId != ""
    requires e.data.value.event == "Notification" || e.data.value.event == "PermissionRequest"
    requires !Empty(r, e.data.value) && Over(r, e.data.value)
    ensures var s := e.data.value.sessionId;
            var was, now := Shown(r, events, s), Shown(r, events + [e], s);
            now[x] == if x.kind != Idle then was[x] else if IsCardOf(x, Idle, e) then 1 else 0
  {
    hide Shown, Now, Without, Effect, Empty, Over, IsCardOf, NoticeText;
    var s := e.data.value.sessionId;
    ShownStep(r, events, e, s);
    NoticeDoes(r, CardsOf(r, events, s).Some?, Now(r, events, s), e);
    NoticeMakes(e, Idle, x);
    WithoutKeeps(Now(r, events, s), Idle, x);
  }

  lemma DistinctNames(d: Data)
    ensures d.event == "Notification" || d.event == "PermissionRequest" || d.event == "Stop" ==> d.event != "PreToolUse"
    ensures d.event == "Notification" ==> d.event != "PermissionRequest"
    ensures d.event == "Stop" ==> d.event != "Notification" && d.event != "PermissionRequest"
  {
    assert |"Notification"| == 12 && |"PermissionRequest"| == 17 && |"Stop"| == 4 && |"PreToolUse"| == 10;
  }

  /** The card a turn's end makes: its words are the agent's last, at most 140 characters of them. */
  predicate IsEndOf(x: Item, e: Entry)
    requires e.data.Some?
  {
    var d, last := e.data.value, e.data.value.lastAssistantMessage;
    && x.kind == Idle && x.ts == e.ts && x.sessionId == d.sessionId && x.cwd == d.cwd && x.pty == d.pty
    && x.agent == (if d.agent != "" then d.agent else if d.event == "Stop" then "claude" else "codex")
    && if last == "" then x.message == "Finished \U{2014} waiting for you"
       else x.message <= last && |x.message| == if |last| < 140 then |last| else 140
  }

  lemma EndDoes(r: Rules, known: bool, list: seq<Item>, e: Entry) returns (card: Item)
    requires e.data.Some?
    requires e.data.value.event == "Stop" || r.turnComplete(e.data.value.event)
    requires e.data.value.event !in {"PreToolUse", "Notification", "PermissionRequest"}
    ensures Effect(r, known, list, e) == Some(NewerThan(list, e.ts) + [card])
    ensures forall x :: IsEndOf(x, e) <==> x == card
  {
    hide NewerThan;
    var after := Effect(r, known, list, e).value;
    card := after[|after| - 1];
    assert after[..|after| - 1] == NewerThan(list, e.ts);
  }

  /** A turn's end leaves its own calm card and, of the cards there were, exactly those newer than it. */
  lemma EndIsShown(r: Rules, events: seq<Entry>, e: Entry, x: Item)
    requires e.data.Some? && e.data.value.sessionId != ""
    requires e.data.value.event == "Stop" || r.turnComplete(e.data.value.event)
    requires e.data.value.event !in {"PreToolUse", "Notification", "PermissionRequest"}
    ensures var s := e.data.value.sessionId;
            var was, now := Shown(r, events, s), Shown(r, events + [e], s);
            now[x] == (if x.ts > e.ts then was[x] else 0) + if IsEndOf(x, e) then 1 else 0
  {
    hide Shown, Now, NewerThan, Effect, IsEndOf;
    var s := e.data.value.sessionId;
    ShownStep(r, events, e, s);
    var card := EndDoes(r, CardsOf(r, events, s).Some?, Now(r, events, s), e);
    NewerKeeps(Now(r, events, s), e.ts, x);
  }

  /** Any other event of the session leaves exactly the cards newer than it: the agent has moved on. */
  lemma ProgressClears(r: Rules, events: seq<Entry>, e: Entry, x: Item)
    requires e.data.Some? && e.data.value.sessionId != ""
    requires e.data.value.event !in {"Stop", "Notification", "PermissionRequest"} && !r.turnComplete(e.data.value.event)
    requires e.data.value.event == "PreToolUse" ==> e.data.value.tool != "AskUserQuestion"
    ensures var s := e.data.value.sessionId;
            Shown(r, events + [e], s)[x] == if x.ts > e.ts then Shown(r, events, s)[x] else 0
  {
    hide Shown, Pending, Now, NewerThan;
    var s := e.data.value.sessionId;
    ShownStep(r, events, e, s);
    NewerKeeps(Now(r, events, s), e.ts, x);
  }

  /** A notice that carries no meaning changes nothing, and neither does an event of another session or of none. */
  lemma OthersChangeNothing(r: Rules, events: seq<Entry>, e: Entry, s: string)
    requires e.data.Some? && e.data.value.sessionId == s && s != "" ==> Empty(r, e.data.value)
    ensures Shown(r, events + [e], s) == Shown(r, events, s)
  {
    hide Shown, Pending, Now;
    ShownStep(r, events, e, s);
    if e.data.Some? { DistinctNames(e.data.value); }
  }
}
