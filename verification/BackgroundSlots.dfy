/** The queue for background brain calls (src/brainCall.ts `acquireBackground`, `releaseBackground`): two slots,
    waiters in order of arrival, and a release that hands its slot on instead of freeing it. */
module BackgroundSlots {
  import opened Basics

  const CONCURRENCY: nat := 2

  /** `active` and `waiters` are the queue; callers are numbered as they arrive.  The sets are bookkeeping for the
      statements below: who holds a slot, who was ever given one, and whose wait was aborted. */
  datatype State = State(
    active: nat, waiters: seq<nat>, next: nat, holders: set<nat>, granted: set<nat>, aborted: set<nat>)

  const EMPTY := State(0, [], 0, {}, {}, {})

  datatype Event = Acquire | Abort(c: nat) | Release(c: nat)

  function IndexOf(ws: seq<nat>, c: nat): (i: nat)
    ensures i <= |ws| && (i < |ws| ==> ws[i] == c) && (i == |ws| ==> c !in ws)
  {
    if ws == [] then 0 else if ws[0] == c then 0 else 1 + IndexOf(ws[1..], c)
  }

  function Splice(ws: seq<nat>, c: nat): seq<nat> {
    var i := IndexOf(ws, c);
    if i < |ws| then ws[..i] + ws[i + 1..] else ws
  }

  /** The queue's own part of a release. */
  function Handing(active: nat, waiters: seq<nat>): (nat, seq<nat>) {
    if waiters != [] then (active, waiters[1..]) else (Max(0, active - 1), [])
  }

  /** An abort reaches only a caller that still waits; a release is made by a caller that holds a slot. */
  function Step(s: State, ev: Event): State {
    match ev
    case Acquire =>
      if s.active < CONCURRENCY
      then s.(active := s.active + 1, next := s.next + 1,
              holders := s.holders + {s.next}, granted := s.granted + {s.next})
      else s.(waiters := s.waiters + [s.next], next := s.next + 1)
    case Abort(c) =>
      if c in s.waiters then s.(waiters := Splice(s.waiters, c), aborted := s.aborted + {c}) else s
    case Release(c) =>
      if c !in s.holders then s
      else
        var (active, waiters) := Handing(s.active, s.waiters);
        var left := s.holders - {c};
        s.(active := active, waiters := waiters,
           holders := if s.waiters != [] then left + {s.waiters[0]} else left,
           granted := if s.waiters != [] then s.granted + {s.waiters[0]} else s.granted)
  }

  function Run(evs: seq<Event>): State {
    if evs == [] then EMPTY else Step(Run(evs[..|evs| - 1]), evs[|evs| - 1])
  }

  // ------------------------------------------------------------------ what every run keeps

  /** The count is the number of holders and never exceeds the slots, and nobody waits while a slot is free. */
  predicate Counted(s: State) {
    s.active == |s.holders| <= CONCURRENCY && (s.waiters != [] ==> s.active == CONCURRENCY)
  }

  predicate Ascending(ws: seq<nat>) {
    forall i, j :: 0 <= i < j < |ws| ==> ws[i] < ws[j]
  }

  /** Everyone who ever arrived was granted a slot, or waits, or was aborted - only one of these - and everyone granted
      a slot arrived before everyone who still waits. */
  ghost predicate Fair(s: State) {
    && Ascending(s.waiters)
    && s.holders <= s.granted
    && (forall c: nat :: c in s.granted || c in s.waiters || c in s.aborted <==> c < s.next)
    && (forall c, w :: c in s.granted && w in s.waiters ==> c < w)
    && s.granted !! s.aborted
    && (forall w :: w in s.waiters ==> w !in s.aborted)
  }

  lemma SplicedIsAscending(ws: seq<nat>, c: nat)
    requires Ascending(ws) && c in ws
    ensures Ascending(Splice(ws, c))
    ensures forall w :: w in Splice(ws, c) <==> w in ws && w != c
  {
    var i := IndexOf(ws, c);
    var cut := ws[..i] + ws[i + 1..];
    forall w
      ensures w in cut <==> w in ws && w != c
    {
      if w in ws && w != c {
        var j :| 0 <= j < |ws| && ws[j] == w;
        assert if j < i then cut[j] == w else cut[j - 1] == w;
      }
    }
  }

  lemma AcquireKeeps(s: State)
    requires Counted(s) && Fair(s)
    ensures Counted(Step(s, Acquire)) && Fair(Step(s, Acquire))
  {
    assert s.next !in s.holders;
    var t := Step(s, Acquire);
    if s.active >= CONCURRENCY {
      assert forall w :: w in t.waiters <==> w in s.waiters || w == s.next;
      assert forall w :: w in s.waiters ==> w < s.next;
      assert forall i :: 0 <= i < |s.waiters| ==> s.waiters[i] in s.waiters;
    }
  }

  lemma AbortKeeps(s: State, c: nat)
    requires Counted(s) && Fair(s)
    ensures Counted(Step(s, Abort(c))) && Fair(Step(s, Abort(c)))
  {
    if c in s.waiters {
      SplicedIsAscending(s.waiters, c);
    }
  }

  lemma HeadOrRest(ws: seq<nat>)
    requires ws != []
    ensures forall w :: w in ws <==> w == ws[0] || w in ws[1..]
  {
    assert ws == [ws[0]] + ws[1..];
  }

  lemma ReleaseKeeps(s: State, c: nat)
    requires Counted(s) && Fair(s)
    ensures Counted(Step(s, Release(c))) && Fair(Step(s, Release(c)))
  {
    if c in s.holders && s.waiters != [] {
      var head, rest := s.waiters[0], s.waiters[1..];
      forall w | w in rest
        ensures head < w
      {
        var j :| 0 <= j < |rest| && rest[j] == w;
        assert s.waiters[j + 1] == w;
      }
      HeadOrRest(s.waiters);
      assert head in s.waiters;
      assert head in s.holders ==> head in s.granted;
    }
  }

  lemma {:induction false} RunKeeps(evs: seq<Event>)
    ensures Counted(Run(evs)) && Fair(Run(evs))
    decreases |evs|
  {
    hide Step, Counted, Fair;
    if evs == [] {
      assert Counted(EMPTY) && Fair(EMPTY) by { EmptyIsFair(); }
    } else {
      var s := Run(evs[..|evs| - 1]);
      RunKeeps(evs[..|evs| - 1]);
      match evs[|evs| - 1]
      case Acquire => AcquireKeeps(s);
      case Abort(c) => AbortKeeps(s, c);
      case Release(c) => ReleaseKeeps(s, c);
    }
  }

  lemma EmptyIsFair()
    ensures Counted(EMPTY) && Fair(EMPTY)
  {
  }

  /** A release passes its slot to the oldest caller still waiting, leaving the count alone; with nobody waiting it
      frees one slot.  Either way the count's clamp at zero does nothing. */
  lemma ReleasePassesOn(evs: seq<Event>, c: nat)
    requires c in Run(evs).holders
    ensures var s, t := Run(evs), Step(Run(evs), Release(c));
            if s.waiters == [] then t.active == s.active - 1 && t.holders == s.holders - {c}
            else
              && t.active == s.active && t.holders == s.holders - {c} + {s.waiters[0]}
              && s.waiters[0] !in s.aborted
              && forall w :: w in s.waiters ==> s.waiters[0] <= w
  {
    RunKeeps(evs);
    assert |Run(evs).holders| >= 1;
  }

  function From(s: State, evs: seq<Event>): State {
    if evs == [] then s else Step(From(s, evs[..|evs| - 1]), evs[|evs| - 1])
  }

  lemma {:induction false} RunFrom(evs: seq<Event>, more: seq<Event>)
    ensures Run(evs + more) == From(Run(evs), more)
    decreases |more|
  {
    if more == [] {
      assert evs + more == evs;
    } else {
      assert (evs + more)[..|evs + more| - 1] == evs + more[..|more| - 1];
      RunFrom(evs, more[..|more| - 1]);
    }
  }

  lemma {:induction false} AbortedStays(s: State, evs: seq<Event>, c: nat)
    requires c in s.aborted
    ensures c in From(s, evs).aborted
    decreases |evs|
  {
    if evs != [] { AbortedStays(s, evs[..|evs| - 1], c); }
  }

  /** Once aborted while waiting, never given a slot, whatever happens next. */
  lemma AbortedNeverGranted(evs: seq<Event>, c: nat, more: seq<Event>)
    requires c in Run(evs).waiters
    ensures c !in Run(evs + [Abort(c)] + more).granted && c !in Run(evs + [Abort(c)] + more).waiters
  {
    var all := evs + [Abort(c)];
    assert all[..|evs|] == evs;
    RunFrom(all, more);
    AbortedStays(Run(all), more, c);
    RunKeeps(all + more);
  }

  /** No newcomer overtakes: of two callers, one that arrived earlier and was not aborted has its slot by the time
      the later one has. */
  lemma NoOvertaking(evs: seq<Event>, early: nat, late: nat)
    requires early < late && late in Run(evs).granted
    ensures early in Run(evs).granted || early in Run(evs).aborted
  {
    RunKeeps(evs);
  }

  /** A waiter only moves forward: by one with every release, and into a slot when it is first. */
  lemma WaiterMovesForward(s: State, ev: Event, i: nat)
    requires Fair(s) && i < |s.waiters| && ev != Abort(s.waiters[i])
    ensures var w, t := s.waiters[i], Step(s, ev);
            if ev.Release? && ev.c in s.holders
            then if i == 0 then w in t.holders else i - 1 < |t.waiters| && t.waiters[i - 1] == w
            else (i < |t.waiters| && t.waiters[i] == w) || (i > 0 && i - 1 < |t.waiters| && t.waiters[i - 1] == w)
  {
    if ev.Abort? && ev.c in s.waiters {
      var k := IndexOf(s.waiters, ev.c);
      assert k != i;
    }
  }

  // ------------------------------------------------------------------ the code

  lemma {:induction false} IndexAt(ws: seq<nat>, i: nat, c: nat)
    requires i < |ws| && c !in ws[..i] && ws[i] == c
    ensures IndexOf(ws, c) == i
    decreases i
  {
    if i > 0 {
      assert ws[0] == ws[..i][0];
      assert ws[1..][..i - 1] == ws[..i][1..];
      IndexAt(ws[1..], i - 1, c);
    }
  }

  /** The queue: a count and the waiters, each known by its number.  The ghost fields are the bookkeeping of `State`. */
  class BackgroundQueue {
    var active: nat
    var waiters: seq<nat>
    var next: nat
    ghost var holders: set<nat>
    ghost var granted: set<nat>
    ghost var aborted: set<nat>

    ghost function Model(): State
      reads this
    {
      State(active, waiters, next, holders, granted, aborted)
    }

    constructor ()
      ensures Model() == EMPTY
    {
      active, waiters, next := 0, [], 0;
      holders, granted, aborted := {}, {}, {};
    }

    /** True when the caller has its slot at once; otherwise it waits its turn. */
    method AcquireBackground() returns (c: nat, now: bool)
      modifies this
      ensures Model() == Step(old(Model()), Acquire)
      ensures c == old(next) && now == (old(active) < CONCURRENCY) && (now ==> c in holders)
      ensures !now ==> waiters == old(waiters) + [c]
    {
      c := next;
      next := next + 1;
      now := active < CONCURRENCY;
      if now {
        active := active + 1;
        holders, granted := holders + {c}, granted + {c};
      } else {
        waiters := waiters + [c];
      }
    }

    /** The abort signal of one caller.  Only a caller that still waits is rejected. */
    method OnAbort(c: nat) returns (rejected: bool)
      modifies this
      ensures Model() == Step(old(Model()), Abort(c)) && rejected == (c in old(waiters))
    {
      var at := 0;
      while at < |waiters| && waiters[at] != c
        invariant at <= |waiters| && c !in waiters[..at]
      {
        at := at + 1;
      }
      rejected := at < |waiters|;
      if rejected {
        IndexAt(waiters, at, c);
        waiters := waiters[..at] + waiters[at + 1..];
        aborted := aborted + {c};
      }
    }

    /** A holder's release: the slot goes to the head of the queue, or is freed. */
    method ReleaseBackground(ghost c: nat) returns (granted': Option<nat>)
      requires c in holders
      modifies this
      ensures Model() == Step(old(Model()), Release(c))
      ensures granted' == if old(waiters) != [] then Some(old(waiters)[0]) else None
    {
      holders := holders - {c};
      if waiters != [] {
        granted' := Some(waiters[0]);
        holders, granted := holders + {waiters[0]}, granted + {waiters[0]};
        waiters := waiters[1..];
      } else {
        granted' := None;
        active := Max(0, active - 1);
      }
    }
  }
}
