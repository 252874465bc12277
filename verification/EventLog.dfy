/** The bounded hook-event log (shared/notifications.ts `trimAgentEvents`, run on every batch at src/App.tsx): entries
    are told apart by where they stand in the log, never by what they say. */
module EventLog {
  import opened Basics

  /** The parts of an entry trimming reads; `data` is absent for a line that was not JSON. */
  datatype Data = Data(sessionId: string, pty: Option<int>)
  datatype Entry = Entry(ts: nat, data: Option<Data>)

  /** The terminal a session-bearing entry is stamped with. */
  function Stamp(e: Entry): set<int> {
    if e.data.Some? && e.data.value.pty.Some? && e.data.value.sessionId != "" then {e.data.value.pty.value} else {}
  }

  function StampsOf(h: seq<Entry>): set<int> {
    if h == [] then {} else StampsOf(h[..|h| - 1]) + Stamp(h[|h| - 1])
  }

  function Less(a: nat, b: nat): nat { if a <= b then 0 else a - b }

  /** Reading the log from its end: the last `quota` entries stay, and before them the newest entry of every
      terminal not in `seen`. */
  function Keep(h: seq<Entry>, quota: nat, seen: set<int>): seq<Entry> {
    if h == [] then []
    else
      var n := |h| - 1;
      var e := h[n];
      Keep(h[..n], Less(quota, 1), seen + Stamp(e)) + if quota > 0 || !(Stamp(e) <= seen) then [e] else []
  }

  /** The whole operation.  A cap of 0 asks the source for its last minus-zero entries, which is all of them. */
  function Trim(h: seq<Entry>, cap: nat): seq<Entry> {
    if |h| <= cap || cap == 0 then h else Keep(h, cap, {})
  }

  // ------------------------------------------------------------------ trimming what was trimmed

  lemma {:induction false} KeepAll(h: seq<Entry>, quota: nat, seen: set<int>)
    requires |h| <= quota
    ensures Keep(h, quota, seen) == h
    decreases |h|
  {
    hide Stamp;
    if h != [] {
      var n := |h| - 1;
      var before := seen + Stamp(h[n]);
      KeepAll(h[..n], quota - 1, before);
      assert Keep(h, quota, seen) == Keep(h[..n], quota - 1, before) + [h[n]];
      assert h == h[..n] + [h[n]];
    }
  }

  lemma {:induction false} KeepSplit(h: seq<Entry>, b: seq<Entry>, quota: nat, seen: set<int>)
    ensures Keep(h + b, quota, seen) == Keep(h, Less(quota, |b|), seen + StampsOf(b)) + Keep(b, quota, seen)
    decreases |b|
  {
    if b == [] {
      assert h + b == h && seen + StampsOf(b) == seen;
    } else {
      var n := |b| - 1;
      var e := b[n];
      assert (h + b)[..|h + b| - 1] == h + b[..n];
      KeepSplit(h, b[..n], Less(quota, 1), seen + Stamp(e));
      assert seen + Stamp(e) + StampsOf(b[..n]) == seen + StampsOf(b);
      var tail := if quota > 0 || !(Stamp(e) <= seen) then [e] else [];
      var head, mid := Keep(h, Less(quota, |b|), seen + StampsOf(b)), Keep(b[..n], Less(quota, 1), seen + Stamp(e));
      assert head + mid + tail == head + (mid + tail);
    }
  }

  lemma KeepSnoc(h: seq<Entry>, e: Entry, quota: nat, seen: set<int>)
    ensures Keep(h + [e], quota, seen) ==
              Keep(h, Less(quota, 1), seen + Stamp(e)) + if quota > 0 || !(Stamp(e) <= seen) then [e] else []
  {
    assert (h + [e])[..|h|] == h;
  }

  /** Whatever a stricter pass would keep of the log, it keeps of the trimmed log. */
  lemma {:induction false} KeepAgain(h: seq<Entry>, quota: nat, seen: set<int>, quota': nat, seen': set<int>)
    requires quota' <= quota && seen <= seen'
    ensures Keep(Keep(h, quota, seen), quota', seen') == Keep(h, quota', seen')
    decreases |h|
  {
    if h != [] {
      hide Keep, Stamp;
      var init, e := h[..|h| - 1], h[|h| - 1];
      assert h == init + [e];
      var first := Keep(init, Less(quota, 1), seen + Stamp(e));
      KeepSnoc(init, e, quota, seen);
      KeepSnoc(init, e, quota', seen');
      if quota > 0 || !(Stamp(e) <= seen) {
        KeepAgain(init, Less(quota, 1), seen + Stamp(e), Less(quota', 1), seen' + Stamp(e));
        KeepSnoc(first, e, quota', seen');
      } else {
        assert seen + Stamp(e) == seen && seen' + Stamp(e) == seen';
        KeepAgain(init, 0, seen, 0, seen');
        assert first + [] == first;
      }
    }
  }

  lemma TrimIsKeep(h: seq<Entry>, cap: nat)
    requires cap > 0
    ensures Trim(h, cap) == Keep(h, cap, {})
  {
    if |h| <= cap { KeepAll(h, cap, {}); }
  }

  /** Trimming a trimmed log with a batch appended is trimming the whole history with that batch appended. */
  lemma TrimStep(h: seq<Entry>, batch: seq<Entry>, cap: nat)
    ensures Trim(Trim(h, cap) + batch, cap) == Trim(h + batch, cap)
  {
    if cap > 0 {
      TrimIsKeep(h, cap);
      TrimIsKeep(Trim(h, cap) + batch, cap);
      TrimIsKeep(h + batch, cap);
      KeepSplit(Keep(h, cap, {}), batch, cap, {});
      KeepSplit(h, batch, cap, {});
      KeepAgain(h, cap, {}, Less(cap, |batch|), {} + StampsOf(batch));
    }
  }

  // ------------------------------------------------------------------ over a whole run

  /** The log after some batches, trimmed at each. */
  function Log(batches: seq<seq<Entry>>, cap: nat): seq<Entry> {
    if batches == [] then [] else Trim(Log(batches[..|batches| - 1], cap) + batches[|batches| - 1], cap)
  }

  function History(batches: seq<seq<Entry>>): seq<Entry> {
    if batches == [] then [] else History(batches[..|batches| - 1]) + batches[|batches| - 1]
  }

  /** Incremental trimming loses nothing a single trim of the full history would have kept. */
  lemma {:induction false} IncrementalIsWhole(batches: seq<seq<Entry>>, cap: nat)
    ensures Log(batches, cap) == Trim(History(batches), cap)
    decreases |batches|
  {
    if batches != [] {
      var n := |batches| - 1;
      IncrementalIsWhole(batches[..n], cap);
      TrimStep(History(batches[..n]), batches[n], cap);
    }
  }

  /** A terminal's newest session-bearing entry. */
  function Newest(h: seq<Entry>, pty: int): Option<Entry> {
    if h == [] then None else if pty in Stamp(h[|h| - 1]) then Some(h[|h| - 1]) else Newest(h[..|h| - 1], pty)
  }

  function Last(h: seq<Entry>, k: nat): seq<Entry> {
    h[Less(|h|, k)..]
  }

  lemma {:induction false} KeepsNewest(h: seq<Entry>, quota: nat, seen: set<int>, pty: int)
    requires pty !in seen
    ensures Newest(Keep(h, quota, seen), pty) == Newest(h, pty)
    decreases |h|
  {
    if h != [] {
      var n := |h| - 1;
      var e := h[n];
      var rest := Keep(h[..n], Less(quota, 1), seen + Stamp(e));
      assert (rest + [e])[..|rest|] == rest;
      if pty !in Stamp(e) {
        KeepsNewest(h[..n], Less(quota, 1), seen + Stamp(e), pty);
        assert rest + [] == rest;
      }
    }
  }

  lemma {:induction false} KeepsLast(h: seq<Entry>, quota: nat, seen: set<int>)
    ensures Last(Keep(h, quota, seen), quota) == Last(h, quota)
    decreases |h|
  {
    if h != [] && quota > 0 {
      var n := |h| - 1;
      var rest := Keep(h[..n], quota - 1, seen + Stamp(h[n]));
      KeepsLast(h[..n], quota - 1, seen + Stamp(h[n]));
      assert h == h[..n] + [h[n]];
      assert Last(h, quota) == Last(h[..n], quota - 1) + [h[n]];
      assert Last(rest + [h[n]], quota) == Last(rest, quota - 1) + [h[n]];
    }
  }

  lemma SubsetSize(a: set<int>, b: set<int>)
    requires a <= b
    ensures |a| <= |b|
  {
    assert b == a + (b - a);
    assert |b| == |a| + |b - a|;
  }

  lemma {:induction false} KeepIsBounded(h: seq<Entry>, quota: nat, seen: set<int>)
    ensures |Keep(h, quota, seen)| <= quota + |StampsOf(h) - seen|
    decreases |h|
  {
    if h != [] {
      var n := |h| - 1;
      var st := Stamp(h[n]);
      var before, all := StampsOf(h[..n]) - (seen + st), StampsOf(h) - seen;
      KeepIsBounded(h[..n], Less(quota, 1), seen + st);
      SubsetSize(before, all);
      if quota == 0 && !(st <= seen) {
        SubsetSize(before + st, all);
        assert |before + st| == |before| + 1;
      }
    }
  }

  /** What every consumer may rely on after any number of batches: the newest session-bearing entry of each
      terminal and the last `cap` entries are those of the untrimmed history, and the log holds at most `cap`
      entries and one per terminal. */
  lemma LogMatchesHistory(batches: seq<seq<Entry>>, cap: nat, pty: int)
    requires cap > 0
    ensures Newest(Log(batches, cap), pty) == Newest(History(batches), pty)
    ensures Last(Log(batches, cap), cap) == Last(History(batches), cap)
    ensures |Log(batches, cap)| <= cap + |StampsOf(History(batches))|
  {
    var h := History(batches);
    IncrementalIsWhole(batches, cap);
    TrimIsKeep(h, cap);
    KeepsNewest(h, cap, {}, pty);
    KeepsLast(h, cap, {});
    KeepIsBounded(h, cap, {});
    assert StampsOf(h) - {} == StampsOf(h);
  }

  /** The entry was made in the terminal by a session that has a name. */
  predicate Names(e: Entry, pty: int) {
    e.data.Some? && e.data.value.pty == Some(pty) && e.data.value.sessionId != ""
  }

  lemma {:induction false} NewestIsThere(h: seq<Entry>, pty: int)
    ensures Newest(h, pty).Some? ==> Newest(h, pty).value in h
    decreases |h|
  {
    if h != [] { NewestIsThere(h[..|h| - 1], pty); }
  }

  lemma {:induction false} LastNamed(h: seq<Entry>, pty: int, i: nat)
    requires i < |h| && Names(h[i], pty) && forall j :: i < j < |h| ==> !Names(h[j], pty)
    ensures Newest(h, pty) == Some(h[i])
    decreases |h|
  {
    if i < |h| - 1 { LastNamed(h[..|h| - 1], pty, i); }
  }

  /** So whichever entry of the whole history was the last to name a terminal and a session in it is still in the log,
      after any number of batches and under any cap. */
  lemma LastNamedStays(batches: seq<seq<Entry>>, cap: nat, pty: int, i: nat)
    requires i < |History(batches)| && Names(History(batches)[i], pty)
    requires forall j :: i < j < |History(batches)| ==> !Names(History(batches)[j], pty)
    ensures History(batches)[i] in Log(batches, cap)
  {
    LastNamed(History(batches), pty, i);
    if cap > 0 {
      LogMatchesHistory(batches, cap, pty);
      NewestIsThere(Log(batches, cap), pty);
    } else {
      IncrementalIsWhole(batches, cap);
    }
  }

  /** The one cap that does not bound anything. */
  lemma ZeroCapKeepsAll(h: seq<Entry>)
    ensures Trim(h, 0) == h
  {
  }

  // ------------------------------------------------------------------ the loop

  /** Terminal to position of its newest stamp among the first `n` entries. */
  function NewestAt(h: seq<Entry>, n: nat): map<int, nat>
    requires n <= |h|
  {
    if n == 0 then map[]
    else
      var m, st := NewestAt(h, n - 1), Stamp(h[n - 1]);
      if st == {} then m else m[h[n - 1].data.value.pty.value := n - 1]
  }

  function StampsFrom(h: seq<Entry>, i: nat, n: nat): set<int>
    requires i <= n <= |h|
    decreases n
  {
    if i == n then {} else StampsFrom(h, i, n - 1) + Stamp(h[n - 1])
  }

  /** Position i is the one the map holds for its own terminal. */
  predicate IsNewest(h: seq<Entry>, n: nat, i: nat)
    requires i < n <= |h|
  {
    Stamp(h[i]) != {} &&
    var p := h[i].data.value.pty.value; p in NewestAt(h, n) && NewestAt(h, n)[p] == i
  }

  /** A position is a terminal's newest exactly when no later entry carries its stamp. */
  lemma {:induction false} NewestPosition(h: seq<Entry>, i: nat, n: nat)
    requires i < n <= |h|
    ensures IsNewest(h, n, i) <==> !(Stamp(h[i]) <= StampsFrom(h, i + 1, n))
    decreases n
  {
    if i < n - 1 { NewestPosition(h, i, n - 1); }
  }

  lemma {:induction false} NewestOwn(h: seq<Entry>, n: nat, p: int)
    requires n <= |h| && p in NewestAt(h, n)
    ensures NewestAt(h, n)[p] < n && IsNewest(h, n, NewestAt(h, n)[p]) && h[NewestAt(h, n)[p]].data.value.pty.value == p
    decreases n
  {
    if n > 0 && !(Stamp(h[n - 1]) != {} && h[n - 1].data.value.pty.value == p) { NewestOwn(h, n - 1, p); }
  }

  /** The entries among the first `n` whose position is in `keep`. */
  function Filter(h: seq<Entry>, keep: set<nat>, n: nat): seq<Entry>
    requires n <= |h|
  {
    if n == 0 then [] else Filter(h, keep, n - 1) + if n - 1 in keep then [h[n - 1]] else []
  }

  lemma {:induction false} FilterIsKeep(h: seq<Entry>, keep: set<nat>, cap: nat, n: nat)
    requires n <= |h|
    requires forall i: nat :: i < |h| ==> (i in keep <==> IsNewest(h, |h|, i) || i >= |h| - cap)
    ensures Filter(h, keep, n) == Keep(h[..n], Less(cap, |h| - n), StampsFrom(h, n, |h|))
    decreases n
  {
    if n > 0 {
      FilterIsKeep(h, keep, cap, n - 1);
      assert h[..n][..n - 1] == h[..n - 1];
      NewestPosition(h, n - 1, |h|);
      StampsHead(h, n - 1, |h|);
      assert n - 1 in keep <==> Less(cap, |h| - n) > 0 || !(Stamp(h[n - 1]) <= StampsFrom(h, n, |h|));
    }
  }

  lemma {:induction false} StampsHead(h: seq<Entry>, i: nat, n: nat)
    requires i < n <= |h|
    ensures StampsFrom(h, i, n) == StampsFrom(h, i + 1, n) + Stamp(h[i])
    decreases n
  {
    if i < n - 1 { StampsHead(h, i, n - 1); }
  }

  /** The map from terminal to its newest entry, its keys in order of insertion, and where each key
      stands in that order. */
  method CollectNewest(entries: seq<Entry>)
    returns (newestByPty: map<int, nat>, order: seq<int>, ghost slot: map<int, nat>)
    ensures newestByPty == NewestAt(entries, |entries|)
    ensures forall j :: 0 <= j < |order| ==> order[j] in newestByPty
    ensures forall p :: p in newestByPty ==> p in slot && slot[p] < |order| && order[slot[p]] == p
  {
    newestByPty, order, slot := map[], [], map[];
    for i := 0 to |entries|
      invariant newestByPty == NewestAt(entries, i)
      invariant forall j :: 0 <= j < |order| ==> order[j] in newestByPty
      invariant forall p :: p in newestByPty ==> p in slot && slot[p] < |order| && order[slot[p]] == p
    {
      var e := entries[i];
      if e.data.Some? && e.data.value.pty.Some? && e.data.value.sessionId != "" {
        var pty := e.data.value.pty.value;
        if pty !in newestByPty {
          slot := slot[pty := |order|];
          order := order + [pty];
        }
        newestByPty := newestByPty[pty := i];
      }
    }
  }

  /** The positions to keep: each terminal's newest, and the last ones from `from` on. */
  method CollectKeep(entries: seq<Entry>, from: nat) returns (keep: set<nat>)
    requires from <= |entries|
    ensures forall k: nat :: k < |entries| ==> (k in keep <==> IsNewest(entries, |entries|, k) || k >= from)
  {
    var n := |entries|;
    var newestByPty, order, slot := CollectNewest(entries);
    keep := {};
    for i := 0 to |order|
      invariant forall j :: 0 <= j < i ==> newestByPty[order[j]] in keep
      invariant forall k: nat :: k in keep ==> k < n && IsNewest(entries, n, k)
    {
      NewestOwn(entries, n, order[i]);
      keep := keep + {newestByPty[order[i]]};
    }
    forall k: nat | k < n && IsNewest(entries, n, k)
      ensures k in keep
    {
      var p := entries[k].data.value.pty.value;
      assert newestByPty[order[slot[p]]] in keep;
    }
    for j := from to n
      invariant forall k: nat :: k < n ==> (k in keep <==> IsNewest(entries, n, k) || from <= k < j)
    {
      keep := keep + {j};
    }
  }

  method TrimAgentEvents(entries: seq<Entry>, cap: nat) returns (out: seq<Entry>)
    ensures out == Trim(entries, cap)
  {
    var n := |entries|;
    if n <= cap { return entries; }
    var keep := CollectKeep(entries, if cap == 0 then 0 else n - cap);
    out := [];
    for i := 0 to n
      invariant out == Filter(entries, keep, i)
    {
      if i in keep { out := out + [entries[i]]; }
    }
    if cap == 0 { FilterAll(entries, keep, n); } else { FilterIsKeep(entries, keep, cap, n); }
    assert entries[..n] == entries;
  }

  lemma {:induction false} FilterAll(h: seq<Entry>, keep: set<nat>, n: nat)
    requires n <= |h| && forall i: nat :: i < |h| ==> i in keep
    ensures Filter(h, keep, n) == h[..n]
    decreases n
  {
    if n > 0 { FilterAll(h, keep, n - 1); }
  }
}
