/** Turn starts, turn ends and session ends out of the hook stream (src/agentTurns.ts).  Each session has a chain of
    tasks run one after another; a task is split at its first `await`, and its second half may run at any later time. */
module AgentTurns {
  import opened Basics

  // ------------------------------------------------------------------ one session

  datatype Job = Start | End | Over

  /** A turn, known by the index of the observation that opened it. */
  datatype Turn = Turn(n: nat, at: int)

  /** What the second half of a task closed over: for a turn's end, the turn it found open and
      where its window begins. */
  datatype Phase = Queued | Awaiting(began: Option<nat>, startedAt: int)

  datatype Task = Task(job: Job, n: nat, at: int, phase: Phase)

  datatype Emission =
    | Started(n: nat, at: int)
    | Ended(n: nat, at: int, began: Option<nat>, startedAt: int)
    | Finished(n: nat, at: int)

  datatype Session = Session(
    known: bool, ended: bool, open: Option<Turn>, lastEnd: Option<int>, chain: seq<Task>, out: seq<Emission>)

  const NEW := Session(false, false, None, None, [], [])

  datatype Kind = Prompt | Stop | SessionEnd | Other

  datatype Input =
    | Hear(kind: Kind, n: nat, at: int)
    | Exit(n: nat, at: int)
    | Begin
    | Finish

  function Queue(v: Session, job: Job, n: nat, at: int): Session {
    v.(chain := v.chain + [Task(job, n, at, Queued)])
  }

  /** The first half of the head of the chain. */
  function Beginning(v: Session): Session {
    if v.chain == [] || v.chain[0].phase != Queued then v
    else
      var t, rest := v.chain[0], v.chain[1..];
      match t.job
      case Start => v.(chain := [t.(phase := Awaiting(None, t.at))] + rest)
      case End =>
        var startedAt := if v.open.Some? then v.open.value.at else if v.lastEnd.Some? then v.lastEnd.value else t.at;
        var began := if v.open.Some? then Some(v.open.value.n) else None;
        v.(open := None, lastEnd := Some(t.at), chain := [t.(phase := Awaiting(began, startedAt))] + rest)
      case Over =>
        if !v.known || v.ended then v.(chain := rest)
        else v.(ended := true, open := None, chain := [t.(phase := Awaiting(None, t.at))] + rest)
  }

  /** The second half: its lookups are back. */
  function Finishing(v: Session): Session {
    if v.chain == [] || v.chain[0].phase == Queued then v
    else
      var t, rest := v.chain[0], v.chain[1..];
      match t.job
      case Start => v.(chain := rest, open := Some(Turn(t.n, t.at)), out := v.out + [Started(t.n, t.at)])
      case End => v.(chain := rest, out := v.out + [Ended(t.n, t.at, t.phase.began, t.phase.startedAt)])
      case Over => v.(chain := rest, out := v.out + [Finished(t.n, t.at)])
  }

  /** `remember` runs at once; only what follows is queued. */
  function Hearing(v: Session, kind: Kind, n: nat, at: int): Session {
    var v' := v.(known := true, ended := v.ended && kind != Prompt);
    match kind
    case Prompt => Queue(v', Start, n, at)
    case Stop => Queue(v', End, n, at)
    case SessionEnd => Queue(v', Over, n, at)
    case Other => v'
  }

  function React(v: Session, x: Input): Session {
    match x
    case Hear(kind, n, at) => Hearing(v, kind, n, at)
    case Exit(n, at) => Queue(v, Over, n, at)
    case Begin => Beginning(v)
    case Finish => Finishing(v)
  }

  function Play(xs: seq<Input>): Session {
    if xs == [] then NEW else React(Play(xs[..|xs| - 1]), xs[|xs| - 1])
  }

  // ------------------------------------------------------------------ order

  /** An observed prompt or Stop. */
  datatype Mark = Mark(prompt: bool, n: nat, at: int)

  function Observed(xs: seq<Input>): seq<Mark> {
    if xs == [] then []
    else
      var x := xs[|xs| - 1];
      Observed(xs[..|xs| - 1]) +
        if x.Hear? && x.kind == Prompt then [Mark(true, x.n, x.at)]
        else if x.Hear? && x.kind == Stop then [Mark(false, x.n, x.at)] else []
  }

  function Announced(out: seq<Emission>): seq<Mark> {
    if out == [] then []
    else
      var e := out[|out| - 1];
      Announced(out[..|out| - 1]) +
        match e
        case Started(n, at) => [Mark(true, n, at)]
        case Ended(n, at, _, _) => [Mark(false, n, at)]
        case Finished(_, _) => []
  }

  function Pending(chain: seq<Task>): seq<Mark> {
    if chain == [] then []
    else
      var t := chain[|chain| - 1];
      Pending(chain[..|chain| - 1]) +
        match t.job
        case Start => [Mark(true, t.n, t.at)]
        case End => [Mark(false, t.n, t.at)]
        case Over => []
  }

  function MarkOf(t: Task): seq<Mark> {
    match t.job
    case Start => [Mark(true, t.n, t.at)]
    case End => [Mark(false, t.n, t.at)]
    case Over => []
  }

  lemma PendingSnoc(chain: seq<Task>, t: Task)
    ensures Pending(chain + [t]) == Pending(chain) + MarkOf(t)
  {
    assert (chain + [t])[..|chain|] == chain;
  }

  lemma {:induction false} PendingCons(t: Task, rest: seq<Task>)
    ensures Pending([t] + rest) == MarkOf(t) + Pending(rest)
    decreases |rest|
  {
    if rest == [] {
      assert [t] + rest == [] + [t];
      PendingSnoc([], t);
    } else {
      var n := |rest| - 1;
      PendingCons(t, rest[..n]);
      assert [t] + rest == ([t] + rest[..n]) + [rest[n]] && rest == rest[..n] + [rest[n]];
      PendingSnoc([t] + rest[..n], rest[n]);
      PendingSnoc(rest[..n], rest[n]);
    }
  }

  lemma PendingHead(chain: seq<Task>)
    requires chain != []
    ensures Pending(chain) == MarkOf(chain[0]) + Pending(chain[1..])
  {
    PendingCons(chain[0], chain[1..]);
    assert chain == [chain[0]] + chain[1..];
  }

  lemma AnnouncedSnoc(out: seq<Emission>, e: Emission)
    ensures Announced(out + [e]) == Announced(out) +
              match e
              case Started(n, at) => [Mark(true, n, at)]
              case Ended(n, at, _, _) => [Mark(false, n, at)]
              case Finished(_, _) => []
  {
    assert (out + [e])[..|out|] == out;
  }

  /** Nothing observed is lost or reordered: what was announced, and then what is still queued, is what was observed. */
  lemma {:induction false} NothingLost(xs: seq<Input>)
    ensures Announced(Play(xs).out) + Pending(Play(xs).chain) == Observed(xs)
    decreases |xs|
  {
    if xs != [] {
      var v, x := Play(xs[..|xs| - 1]), xs[|xs| - 1];
      NothingLost(xs[..|xs| - 1]);
      ReactKeepsOrder(v, x);
    }
  }

  lemma ReactKeepsOrder(v: Session, x: Input)
    ensures Announced(React(v, x).out) + Pending(React(v, x).chain) ==
              Announced(v.out) + Pending(v.chain) +
                if x.Hear? && x.kind == Prompt then [Mark(true, x.n, x.at)]
                else if x.Hear? && x.kind == Stop then [Mark(false, x.n, x.at)] else []
  {
    hide Announced, Pending;
    match x
    case Hear(kind, n, at) =>
      PendingSnoc(v.chain, Task(if kind == Prompt then Start else if kind == Stop then End else Over, n, at, Queued));
    case Exit(n, at) => PendingSnoc(v.chain, Task(Over, n, at, Queued));
    case Begin =>
      if v.chain != [] {
        PendingHead(v.chain);
        PendingHead(React(v, x).chain + if React(v, x).chain == [] then v.chain else []);
        SameHead(v, React(v, x));
      }
    case Finish =>
      if v.chain != [] {
        PendingHead(v.chain);
        var t := v.chain[0];
        AnnouncedSnoc(v.out, Started(t.n, t.at));
        AnnouncedSnoc(v.out, Finished(t.n, t.at));
        if t.phase.Awaiting? { AnnouncedSnoc(v.out, Ended(t.n, t.at, t.phase.began, t.phase.startedAt)); }
      }
  }

  lemma SameHead(v: Session, w: Session)
    requires v.chain != [] && w == Beginning(v)
    ensures Pending(w.chain) == Pending(v.chain) && w.out == v.out
  {
    hide Pending;
    PendingHead(v.chain);
    if w.chain != [] && w.chain != v.chain[1..] {
      PendingHead(w.chain);
      assert w.chain[1..] == v.chain[1..];
    }
  }

  /** Turn starts and ends come out as a prefix of the observed prompts and Stops. */
  lemma TurnsComeInOrder(xs: seq<Input>)
    ensures Announced(Play(xs).out) <= Observed(xs)
  {
    NothingLost(xs);
  }

  // ------------------------------------------------------------------ starts and ends belong together

  /** The turn that is open after these emissions: the last emission's, if that was a start. */
  function OpenAfter(out: seq<Emission>): Option<Turn> {
    if out != [] && out[|out| - 1].Started? then Some(Turn(out[|out| - 1].n, out[|out| - 1].at)) else None
  }

  function EndAfter(out: seq<Emission>): Option<int> {
    if out == [] then None
    else if out[|out| - 1].Ended? then Some(out[|out| - 1].at)
    else EndAfter(out[..|out| - 1])
  }

  /** What the end of a turn must say, given everything announced before it. */
  predicate EndsRightly(before: seq<Emission>, e: Emission)
    requires e.Ended?
  {
    var open, last := OpenAfter(before), EndAfter(before);
    && e.began == (if open.Some? then Some(open.value.n) else None)
    && e.startedAt == (if open.Some? then open.value.at else if last.Some? then last.value else e.at)
  }

  /** Each end closes the start announced immediately before it, or is partial: then its window runs from
      the end before it. */
  predicate Paired(out: seq<Emission>) {
    out == [] ||
    (var n := |out| - 1;
     Paired(out[..n]) && (out[n].Ended? ==> EndsRightly(out[..n], out[n])))
  }

  /** How the maps relate to what was announced, by where the head of the chain is. */
  predicate InStep(v: Session) {
    var open, last := OpenAfter(v.out), EndAfter(v.out);
    if v.chain != [] && v.chain[0].phase.Awaiting? && v.chain[0].job != Start then
      && v.open == None
      && (v.chain[0].job == Over ==> v.lastEnd == last)
      && (v.chain[0].job == End ==>
            v.lastEnd == Some(v.chain[0].at) &&
            EndsRightly(v.out, Ended(v.chain[0].n, v.chain[0].at, v.chain[0].phase.began, v.chain[0].phase.startedAt)))
    else v.open == open && v.lastEnd == last
  }

  /** Only the head of a chain has begun. */
  predicate OnlyHeadBegun(chain: seq<Task>) {
    |chain| <= 1 || (chain[|chain| - 1].phase == Queued && OnlyHeadBegun(chain[..|chain| - 1]))
  }

  lemma {:induction false} TailIsQueued(chain: seq<Task>, k: nat)
    requires OnlyHeadBegun(chain) && 0 < k < |chain|
    ensures chain[k].phase == Queued
    decreases |chain|
  {
    if k < |chain| - 1 { TailIsQueued(chain[..|chain| - 1], k); }
  }

  lemma {:induction false} QueuedTail(chain: seq<Task>, t: Task)
    requires OnlyHeadBegun(chain) && chain != []
    ensures OnlyHeadBegun([t] + chain[1..]) && OnlyHeadBegun(chain[1..])
    decreases |chain|
  {
    var n := |chain| - 1;
    if n == 0 {
      assert chain[1..] == [];
    } else {
      QueuedTail(chain[..n], t);
      assert chain[..n][1..] == chain[1..n];
      assert ([t] + chain[1..])[..n] == [t] + chain[1..n];
      assert chain[1..][..n - 1] == chain[1..n];
    }
  }

  predicate Sound(v: Session) {
    Paired(v.out) && InStep(v) && OnlyHeadBegun(v.chain)
  }

  lemma OutSnoc(out: seq<Emission>, e: Emission)
    requires Paired(out) && (e.Ended? ==> EndsRightly(out, e))
    ensures Paired(out + [e])
    ensures OpenAfter(out + [e]) == if e.Started? then Some(Turn(e.n, e.at)) else None
    ensures EndAfter(out + [e]) == if e.Ended? then Some(e.at) else EndAfter(out)
  {
    assert (out + [e])[..|out|] == out;
  }

  lemma QueueKeepsSound(v: Session, job: Job, n: nat, at: int)
    requires Sound(v)
    ensures Sound(Queue(v, job, n, at))
  {
    hide Paired, EndAfter, EndsRightly;
    var t := Task(job, n, at, Queued);
    assert (v.chain + [t])[..|v.chain|] == v.chain;
  }

  lemma BeginKeepsSound(v: Session)
    requires Sound(v)
    ensures Sound(Beginning(v))
  {
    hide Paired, EndAfter, OpenAfter, OnlyHeadBegun, EndsRightly;
    if v.chain != [] && v.chain[0].phase == Queued {
      var t := v.chain[0];
      if |v.chain| > 1 { TailIsQueued(v.chain, 1); }
      match t.job
      case Start => QueuedTail(v.chain, t.(phase := Awaiting(None, t.at)));
      case End => EndBeginsSoundly(v);
      case Over => QueuedTail(v.chain, t.(phase := Awaiting(None, t.at)));
    }
  }

  lemma EndBeginsSoundly(v: Session)
    requires Sound(v) && v.chain != [] && v.chain[0].phase == Queued && v.chain[0].job == End
    ensures Sound(Beginning(v))
  {
    hide Paired, EndAfter, OpenAfter, OnlyHeadBegun;
    QueuedTail(v.chain, Beginning(v).chain[0]);
  }

  lemma FinishKeepsSound(v: Session)
    requires Sound(v)
    ensures Sound(Finishing(v))
  {
    hide Paired, EndAfter, OpenAfter, OnlyHeadBegun, EndsRightly;
    if v.chain != [] && v.chain[0].phase.Awaiting? {
      var t := v.chain[0];
      QueuedTail(v.chain, t);
      if |v.chain| > 1 { TailIsQueued(v.chain, 1); }
      match t.job
      case Start => OutSnoc(v.out, Started(t.n, t.at));
      case End => OutSnoc(v.out, Ended(t.n, t.at, t.phase.began, t.phase.startedAt));
      case Over => OutSnoc(v.out, Finished(t.n, t.at));
    }
  }

  lemma {:induction false} PlayIsSound(xs: seq<Input>)
    ensures Sound(Play(xs))
    decreases |xs|
  {
    hide Sound;
    if xs == [] {
      assert Sound(NEW) by { NewIsSound(); }
    } else {
      var v, x := Play(xs[..|xs| - 1]), xs[|xs| - 1];
      PlayIsSound(xs[..|xs| - 1]);
      match x
      case Hear(kind, n, at) =>
        var v' := v.(known := true, ended := v.ended && kind != Prompt);
        FlagsKeepSound(v, true, v'.ended);
        QueueKeepsSound(v', if kind == Prompt then Start else if kind == Stop then End else Over, n, at);
      case Exit(n, at) => QueueKeepsSound(v, Over, n, at);
      case Begin => BeginKeepsSound(v);
      case Finish => FinishKeepsSound(v);
    }
  }

  lemma NewIsSound()
    ensures Sound(NEW)
  {
  }

  lemma FlagsKeepSound(v: Session, known: bool, ended: bool)
    ensures Sound(v.(known := known, ended := ended)) <==> Sound(v)
  {
  }

  /** An end that is not partial sits right behind the start it names; so a start has at most one such
      end, and it follows. */
  lemma {:induction false} EndFollowsItsStart(out: seq<Emission>, j: nat)
    requires Paired(out) && j < |out| && out[j].Ended?
    ensures out[j].began.Some? <==> j > 0 && out[j - 1].Started?
    ensures out[j].began.Some? ==> out[j].began.value == out[j - 1].n && out[j].startedAt == out[j - 1].at
    decreases |out|
  {
    var n := |out| - 1;
    if j < n { EndFollowsItsStart(out[..n], j); }
  }

  lemma StartIsClosedOnce(xs: seq<Input>, j: nat)
    requires var out := Play(xs).out; j < |out| && out[j].Ended?
    ensures var out := Play(xs).out;
            && (out[j].began.Some? <==> j > 0 && out[j - 1].Started?)
            && (out[j].began.Some? ==> out[j].began.value == out[j - 1].n)
  {
    PlayIsSound(xs);
    EndFollowsItsStart(Play(xs).out, j);
  }

  // ------------------------------------------------------------------ windows

  predicate InOrder(marks: seq<Mark>) {
    |marks| <= 1 || (marks[|marks| - 2].at <= marks[|marks| - 1].at && InOrder(marks[..|marks| - 1]))
  }

  /** Every announced time is at most `at`. */
  predicate AllBy(marks: seq<Mark>, at: int) {
    marks == [] || (marks[|marks| - 1].at <= at && AllBy(marks[..|marks| - 1], at))
  }

  lemma {:induction false} EarlierBy(marks: seq<Mark>, at: int)
    requires InOrder(marks) && (marks != [] ==> marks[|marks| - 1].at <= at)
    ensures AllBy(marks, at)
    decreases |marks|
  {
    if |marks| > 1 { EarlierBy(marks[..|marks| - 1], at); } else if |marks| == 1 { assert marks[..0] == []; }
  }

  lemma {:induction false} PrefixInOrder(marks: seq<Mark>, n: nat)
    requires InOrder(marks) && n <= |marks|
    ensures InOrder(marks[..n])
    decreases |marks|
  {
    if n < |marks| {
      assert marks[..|marks| - 1][..n] == marks[..n];
      PrefixInOrder(marks[..|marks| - 1], n);
    } else {
      assert marks[..n] == marks;
    }
  }

  lemma {:induction false} LastEndIsBy(out: seq<Emission>, at: int)
    requires AllBy(Announced(out), at)
    ensures EndAfter(out).Some? ==> EndAfter(out).value <= at
    decreases |out|
  {
    if out != [] {
      var rest := Announced(out[..|out| - 1]);
      if out[|out| - 1].Finished? {
        assert rest + [] == rest;
      } else {
        assert Announced(out)[..|rest|] == rest;
      }
      LastEndIsBy(out[..|out| - 1], at);
    }
  }

  predicate WindowsApart(out: seq<Emission>) {
    out == [] ||
    (var n := |out| - 1;
     && WindowsApart(out[..n])
     && (out[n].Ended? ==>
           && out[n].startedAt <= out[n].at
           && (EndAfter(out[..n]).Some? ==> EndAfter(out[..n]).value <= out[n].startedAt)))
  }

  /** The end of a turn, announced after these emissions. */
  lemma WindowFollows(before: seq<Emission>, e: Emission)
    requires e.Ended? && EndsRightly(before, e) && InOrder(Announced(before) + [Mark(false, e.n, e.at)])
    ensures e.startedAt <= e.at && (EndAfter(before).Some? ==> EndAfter(before).value <= e.startedAt)
  {
    hide Announced, InOrder, AllBy;
    var marks := Announced(before) + [Mark(false, e.n, e.at)];
    TimesOfLast(Announced(before), Mark(false, e.n, e.at));
    LastEndIsBy(before, e.at);
    if OpenAfter(before).Some? {
      var init, x := before[..|before| - 1], before[|before| - 1];
      assert before == init + [x];
      AnnouncedSnoc(init, x);
      PrefixInOrder(marks, |Announced(before)|);
      assert marks[..|Announced(before)|] == Announced(before);
      TimesOfLast(Announced(init), Mark(true, x.n, x.at));
      LastEndIsBy(init, x.at);
      assert (Announced(init) + [Mark(true, x.n, x.at)])[..|Announced(init)|] == Announced(init);
      assert marks[|Announced(init)|] == Mark(true, x.n, x.at);
      AllByMember(Announced(before), |Announced(init)|, e.at);
    }
  }

  lemma {:induction false} AllByMember(marks: seq<Mark>, i: nat, at: int)
    requires AllBy(marks, at) && i < |marks|
    ensures marks[i].at <= at
    decreases |marks|
  {
    if i < |marks| - 1 { AllByMember(marks[..|marks| - 1], i, at); }
  }

  lemma TimesOfLast(marks: seq<Mark>, m: Mark)
    requires InOrder(marks + [m])
    ensures AllBy(marks, m.at)
  {
    assert (marks + [m])[..|marks|] == marks;
    EarlierBy(marks, m.at);
  }

  lemma {:induction false} PairedWindowsApart(out: seq<Emission>)
    requires Paired(out) && InOrder(Announced(out))
    ensures WindowsApart(out)
    decreases |out|
  {
    hide Announced, InOrder, EndAfter, EndsRightly;
    if out != [] {
      var n := |out| - 1;
      var rest := Announced(out[..n]);
      assert out == out[..n] + [out[n]];
      AnnouncedSnoc(out[..n], out[n]);
      assert Announced(out)[..|rest|] == rest;
      PrefixInOrder(Announced(out), |rest|);
      PairedWindowsApart(out[..n]);
      if out[n].Ended? { WindowFollows(out[..n], out[n]); }
    }
  }

  /** With observation times that never run backwards, no two turns of a session claim the same moment: each window ends
      at its Stop and begins no earlier than the end before it. */
  lemma WindowsNeverOverlap(xs: seq<Input>)
    requires InOrder(Observed(xs))
    ensures WindowsApart(Play(xs).out)
  {
    PlayIsSound(xs);
    NothingLost(xs);
    var out := Announced(Play(xs).out);
    assert Observed(xs)[..|out|] == out;
    PrefixInOrder(Observed(xs), |out|);
    PairedWindowsApart(Play(xs).out);
  }

  // ------------------------------------------------------------------ session ends

  function Prompts(xs: seq<Input>): nat {
    if xs == [] then 0
    else Prompts(xs[..|xs| - 1]) + if xs[|xs| - 1].Hear? && xs[|xs| - 1].kind == Prompt then 1 else 0
  }

  function SessionEnds(out: seq<Emission>): nat {
    if out == [] then 0 else SessionEnds(out[..|out| - 1]) + if out[|out| - 1].Finished? then 1 else 0
  }

  /** Session ends announced, and the one under way. */
  function EndsBegun(v: Session): nat {
    SessionEnds(v.out) + if v.chain != [] && v.chain[0].job == Over && v.chain[0].phase.Awaiting? then 1 else 0
  }

  lemma SessionEndsSnoc(out: seq<Emission>, e: Emission)
    ensures SessionEnds(out + [e]) == SessionEnds(out) + if e.Finished? then 1 else 0
  {
    assert (out + [e])[..|out|] == out;
  }

  /** One input: an end begins only where none had since the last prompt, and only a prompt makes room for another. */
  lemma EndsBegunAfter(v: Session, x: Input)
    requires OnlyHeadBegun(v.chain)
    ensures EndsBegun(React(v, x)) + (if v.ended then 1 else 0) <=
              EndsBegun(v) + (if React(v, x).ended then 1 else 0) + if x.Hear? && x.kind == Prompt then 1 else 0
  {
    hide SessionEnds;
    if v.chain != [] {
      if |v.chain| > 1 { TailIsQueued(v.chain, 1); }
      if x.Finish? && v.chain[0].phase.Awaiting? { SessionEndsAfter(v); }
    }
  }

  lemma SessionEndsAfter(v: Session)
    requires v.chain != [] && v.chain[0].phase.Awaiting?
    ensures SessionEnds(Finishing(v).out) == SessionEnds(v.out) + if v.chain[0].job == Over then 1 else 0
  {
    hide SessionEnds;
    var t := v.chain[0];
    match t.job
    case Start => SessionEndsSnoc(v.out, Started(t.n, t.at));
    case End => SessionEndsSnoc(v.out, Ended(t.n, t.at, t.phase.began, t.phase.startedAt));
    case Over => SessionEndsSnoc(v.out, Finished(t.n, t.at));
  }

  lemma {:induction false} EndsAreBounded(xs: seq<Input>)
    ensures EndsBegun(Play(xs)) <= Prompts(xs) + if Play(xs).ended then 1 else 0
    decreases |xs|
  {
    hide SessionEnds, React, EndsBegun;
    if xs == [] {
      assert EndsBegun(NEW) == 0 by { NoEnds(); }
    } else {
      EndsAreBounded(xs[..|xs| - 1]);
      PlayIsSound(xs[..|xs| - 1]);
      EndsBegunAfter(Play(xs[..|xs| - 1]), xs[|xs| - 1]);
    }
  }

  lemma NoEnds()
    ensures SessionEnds([]) == 0 && Announced([]) == [] && EndsBegun(NEW) == 0
  {
  }

  /** A session is announced over at most once more often than it was prompted. */
  lemma SessionEndsAreFew(xs: seq<Input>)
    ensures SessionEnds(Play(xs).out) <= Prompts(xs) + 1
  {
    EndsAreBounded(xs);
  }

  predicate EndBegins(v: Session, x: Input) {
    x == Begin && v.chain != [] && v.chain[0].job == Over && v.chain[0].phase == Queued
  }

  predicate Heard(xs: seq<Input>) {
    xs != [] && (xs[|xs| - 1].Hear? || Heard(xs[..|xs| - 1]))
  }

  /** A session end has begun since the session last heard a prompt. */
  predicate EndedSince(xs: seq<Input>) {
    xs != [] &&
    var init, x := xs[..|xs| - 1], xs[|xs| - 1];
    if x.Hear? && x.kind == Prompt then false
    else EndedSince(init) || (EndBegins(Play(init), x) && Heard(init))
  }

  lemma {:induction false} FlagsMean(xs: seq<Input>)
    ensures Play(xs).known == Heard(xs) && Play(xs).ended == EndedSince(xs)
    decreases |xs|
  {
    if xs != [] { FlagsMean(xs[..|xs| - 1]); }
  }

  /** When its turn comes, a session end is announced exactly if the session was ever heard of and no end has begun
      since it last heard a prompt. */
  lemma EndIsAnnouncedExactly(xs: seq<Input>)
    requires EndBegins(Play(xs), Begin)
    ensures var v := Play(xs);
            SessionEnds(Finishing(Beginning(v)).out) ==
              SessionEnds(v.out) + if Heard(xs) && !EndedSince(xs) then 1 else 0
  {
    hide Play, Heard, EndedSince, SessionEnds;
    FlagsMean(xs);
    PlayIsSound(xs);
    var v := Play(xs);
    SessionEndsSnoc(v.out, Finished(v.chain[0].n, v.chain[0].at));
    if |v.chain| > 1 { TailIsQueued(v.chain, 1); }
  }

  function From(v: Session, xs: seq<Input>): Session {
    if xs == [] then v else React(From(v, xs[..|xs| - 1]), xs[|xs| - 1])
  }

  predicate NoEndBegins(v: Session, xs: seq<Input>) {
    xs == [] || (NoEndBegins(v, xs[..|xs| - 1]) && !EndBegins(From(v, xs[..|xs| - 1]), xs[|xs| - 1]))
  }

  /** A prompt re-arms the session: the first session end to begin after it was heard is announced. */
  lemma {:induction false} PromptRearms(v: Session, n: nat, at: int, xs: seq<Input>)
    requires NoEndBegins(Hearing(v, Prompt, n, at), xs)
    ensures var w := From(Hearing(v, Prompt, n, at), xs);
            && w.known && !w.ended
            && (EndBegins(w, Begin) ==>
                  Finishing(Beginning(w)).out == w.out + [Finished(w.chain[0].n, w.chain[0].at)])
    decreases |xs|
  {
    if xs != [] { PromptRearms(v, n, at, xs[..|xs| - 1]); }
  }

  function WaitingEnd(t: Task): nat {
    if t.job == Over && t.phase == Queued then 1 else 0
  }

  /** Session ends that still wait their turn. */
  function QueuedEnds(chain: seq<Task>): nat {
    if chain == [] then 0
    else
      var t := chain[|chain| - 1];
      QueuedEnds(chain[..|chain| - 1]) + WaitingEnd(t)
  }

  /** Session ends observed, either way. */
  function EndsHeard(xs: seq<Input>): nat {
    if xs == [] then 0
    else
      var x := xs[|xs| - 1];
      EndsHeard(xs[..|xs| - 1]) + if x.Exit? || (x.Hear? && x.kind == SessionEnd) then 1 else 0
  }

  /** Session ends whose turn came. */
  function EndsMet(v: Session, xs: seq<Input>): nat {
    if xs == [] then 0
    else EndsMet(v, xs[..|xs| - 1]) + if EndBegins(From(v, xs[..|xs| - 1]), xs[|xs| - 1]) then 1 else 0
  }

  lemma QueuedEndsSnoc(chain: seq<Task>, t: Task)
    ensures QueuedEnds(chain + [t]) == QueuedEnds(chain) + WaitingEnd(t)
  {
    assert (chain + [t])[..|chain|] == chain;
  }

  lemma {:induction false} QueuedEndsCons(t: Task, rest: seq<Task>)
    ensures QueuedEnds([t] + rest) == QueuedEnds(rest) + WaitingEnd(t)
    decreases |rest|
  {
    if rest == [] {
      assert [t] + rest == [] + [t];
      QueuedEndsSnoc([], t);
    } else {
      var n := |rest| - 1;
      QueuedEndsCons(t, rest[..n]);
      assert [t] + rest == ([t] + rest[..n]) + [rest[n]] && rest == rest[..n] + [rest[n]];
      QueuedEndsSnoc([t] + rest[..n], rest[n]);
      QueuedEndsSnoc(rest[..n], rest[n]);
    }
  }

  /** Every end observed waits until its turn comes. */
  lemma EndsWait(v: Session, x: Input)
    ensures QueuedEnds(React(v, x).chain) + (if EndBegins(v, x) then 1 else 0) ==
              QueuedEnds(v.chain) + if x.Exit? || (x.Hear? && x.kind == SessionEnd) then 1 else 0
  {
    hide QueuedEnds;
    match x
    case Hear(kind, n, at) =>
      var job := if kind == Prompt then Start else if kind == Stop then End else Over;
      QueuedEndsSnoc(v.chain, Task(job, n, at, Queued));
    case Exit(n, at) => QueuedEndsSnoc(v.chain, Task(Over, n, at, Queued));
    case Begin => HeadEnds(v, Beginning(v));
    case Finish => HeadEnds(v, Finishing(v));
  }

  lemma HeadEnds(v: Session, w: Session)
    requires v.chain != [] ==>
               || w.chain == v.chain || w.chain == v.chain[1..]
               || (w.chain != [] && w.chain[1..] == v.chain[1..])
    ensures v.chain != [] ==> QueuedEnds(v.chain) == QueuedEnds(v.chain[1..]) + WaitingEnd(v.chain[0])
    ensures v.chain != [] && w.chain != [] && w.chain[1..] == v.chain[1..] ==>
              QueuedEnds(w.chain) == QueuedEnds(v.chain[1..]) + WaitingEnd(w.chain[0])
  {
    hide QueuedEnds;
    if v.chain != [] {
      QueuedEndsCons(v.chain[0], v.chain[1..]);
      assert v.chain == [v.chain[0]] + v.chain[1..];
      if w.chain != [] {
        QueuedEndsCons(w.chain[0], w.chain[1..]);
        assert w.chain == [w.chain[0]] + w.chain[1..];
      }
    }
  }

  lemma {:induction false} EndsAreConserved(v: Session, xs: seq<Input>)
    ensures QueuedEnds(From(v, xs).chain) + EndsMet(v, xs) == QueuedEnds(v.chain) + EndsHeard(xs)
    ensures v.known && !v.ended && Prompts(xs) == 0 ==> From(v, xs).known && (From(v, xs).ended <==> EndsMet(v, xs) > 0)
    decreases |xs|
  {
    hide QueuedEnds;
    if xs != [] {
      EndsAreConserved(v, xs[..|xs| - 1]);
      EndsWait(From(v, xs[..|xs| - 1]), xs[|xs| - 1]);
    }
  }

  /** Whether a resumed session's own end is announced is settled when its prompt is heard.  Once every end that waited
      then has had its turn, the next to have it was reported after the prompt; it is announced exactly if none waited
      and it is the first - a terminal's exit and a hook may both report it. */
  lemma OwnEndIsAnnouncedExactly(v: Session, n: nat, at: int, xs: seq<Input>)
    requires Prompts(xs) == 0 && EndsMet(Hearing(v, Prompt, n, at), xs) >= QueuedEnds(v.chain)
    requires EndBegins(From(Hearing(v, Prompt, n, at), xs), Begin)
    ensures var w := Hearing(v, Prompt, n, at);
            var u := From(w, xs);
            if QueuedEnds(v.chain) == 0 && EndsMet(w, xs) == 0
            then Finishing(Beginning(u)).out == u.out + [Finished(u.chain[0].n, u.chain[0].at)]
            else Beginning(u) == u.(chain := u.chain[1..])
  {
    hide QueuedEnds, From, EndsMet;
    var w := Hearing(v, Prompt, n, at);
    QueuedEndsSnoc(v.chain, Task(Start, n, at, Queued));
    EndsAreConserved(w, xs);
  }

  /** But it is heard at once while session ends wait their turn.  An end still queued when its session is prompted
      again uses up the re-arming, and the end of the resumed session is then never announced. */
  lemma ResumedEndCanBeLost(at: int)
    ensures var v := Hearing(Hearing(Hearing(NEW, SessionEnd, 0, at), Prompt, 1, at), SessionEnd, 2, at);
            var w := Beginning(Finishing(Beginning(Finishing(Beginning(v)))));
            w.chain == [] && SessionEnds(w.out) == 1 && Announced(w.out) == [Mark(true, 1, at)]
  {
    hide SessionEnds, Announced;
    NoEnds();
    var v := Hearing(Hearing(Hearing(NEW, SessionEnd, 0, at), Prompt, 1, at), SessionEnd, 2, at);
    assert v.chain == [Task(Over, 0, at, Queued), Task(Start, 1, at, Queued), Task(Over, 2, at, Queued)];
    var a := Finishing(Beginning(v));
    assert a.chain == [Task(Start, 1, at, Queued), Task(Over, 2, at, Queued)] && a.out == [Finished(0, at)];
    var b := Finishing(Beginning(a));
    assert b.chain == [Task(Over, 2, at, Queued)] && b.out == [Finished(0, at), Started(1, at)];
    SessionEndsSnoc([], Finished(0, at));
    SessionEndsSnoc([Finished(0, at)], Started(1, at));
    AnnouncedSnoc([], Finished(0, at));
    AnnouncedSnoc([Finished(0, at)], Started(1, at));
    assert [] + [Finished(0, at)] == [Finished(0, at)];
    assert b.out == [Finished(0, at)] + [Started(1, at)];
    assert Beginning(b).chain == [];
  }

  // ------------------------------------------------------------------ all sessions together

  datatype Hook = Hook(sessionId: string, cwd: string, pty: Option<int>, kind: Kind)

  /** The module's maps, and what its listeners were told so far.  `observations` numbers what was observed. */
  datatype State = State(
    known: set<string>, ended: set<string>, open: map<string, Turn>, lastEnd: map<string, int>,
    chains: map<string, seq<Task>>, sessionByPty: map<int, string>, out: seq<(string, Emission)>, observations: nat)

  const IDLE := State({}, {}, map[], map[], map[], map[], [], 0)

  datatype Event =
    | Observe(hook: Hook, at: int)
    | PtyExit(pty: int, at: int)
    | BeginTask(sid: string)
    | FinishTask(sid: string)

  function Get<T>(m: map<string, T>, k: string): Option<T> {
    if k in m then Some(m[k]) else None
  }

  function ChainOf(s: State, sid: string): seq<Task> {
    if sid in s.chains then s.chains[sid] else []
  }

  function OutOf(out: seq<(string, Emission)>, sid: string): seq<Emission> {
    if out == [] then []
    else OutOf(out[..|out| - 1], sid) + if out[|out| - 1].0 == sid then [out[|out| - 1].1] else []
  }

  /** What one session sees of the whole. */
  function View(s: State, sid: string): Session {
    Session(sid in s.known, sid in s.ended, Get(s.open, sid), Get(s.lastEnd, sid), ChainOf(s, sid), OutOf(s.out, sid))
  }

  predicate Skipped(hook: Hook) {
    hook.sessionId == "" || hook.cwd == ""
  }

  /** What an event means to one session, if it concerns it. */
  function Concerns(s: State, ev: Event, sid: string): Option<Input> {
    match ev
    case Observe(hook, at) =>
      if !Skipped(hook) && hook.sessionId == sid then Some(Hear(hook.kind, s.observations, at)) else None
    case PtyExit(pty, at) =>
      if pty in s.sessionByPty && s.sessionByPty[pty] == sid then Some(Exit(s.observations, at)) else None
    case BeginTask(k) => if k == sid then Some(Begin) else None
    case FinishTask(k) => if k == sid then Some(Finish) else None
  }

  function Enqueue(s: State, sid: string, job: Job, at: int): State {
    s.(chains := s.chains[sid := ChainOf(s, sid) + [Task(job, s.observations, at, Queued)]])
  }

  function Remember(s: State, hook: Hook): State {
    s.(known := s.known + {hook.sessionId},
       sessionByPty := if hook.pty.Some? then s.sessionByPty[hook.pty.value := hook.sessionId] else s.sessionByPty,
       ended := if hook.kind == Prompt then s.ended - {hook.sessionId} else s.ended)
  }

  function ObserveHook(s: State, hook: Hook, at: int): State {
    if Skipped(hook) then s
    else
      var s' := Remember(s, hook);
      var s'' :=
        match hook.kind
        case Prompt => Enqueue(s', hook.sessionId, Start, at)
        case Stop => Enqueue(s', hook.sessionId, End, at)
        case SessionEnd => Enqueue(s', hook.sessionId, Over, at)
        case Other => s';
      s''.(observations := s.observations + 1)
  }

  function ObserveExit(s: State, pty: int, at: int): State {
    if pty !in s.sessionByPty then s
    else
      Enqueue(s.(sessionByPty := s.sessionByPty - {pty}), s.sessionByPty[pty], Over, at)
      .(observations := s.observations + 1)
  }

  function BeginHead(s: State, sid: string): State {
    var chain := ChainOf(s, sid);
    if chain == [] || chain[0].phase != Queued then s
    else
      var t, rest := chain[0], chain[1..];
      match t.job
      case Start => s.(chains := s.chains[sid := [t.(phase := Awaiting(None, t.at))] + rest])
      case End =>
        var startedAt := if sid in s.open then s.open[sid].at else if sid in s.lastEnd then s.lastEnd[sid] else t.at;
        var began := if sid in s.open then Some(s.open[sid].n) else None;
        s.(open := s.open - {sid}, lastEnd := s.lastEnd[sid := t.at],
           chains := s.chains[sid := [t.(phase := Awaiting(began, startedAt))] + rest])
      case Over =>
        if sid !in s.known || sid in s.ended then s.(chains := s.chains[sid := rest])
        else
          s.(ended := s.ended + {sid}, open := s.open - {sid},
             chains := s.chains[sid := [t.(phase := Awaiting(None, t.at))] + rest])
  }

  function FinishHead(s: State, sid: string): State {
    var chain := ChainOf(s, sid);
    if chain == [] || chain[0].phase == Queued then s
    else
      var t := chain[0];
      var s' := s.(chains := s.chains[sid := chain[1..]]);
      match t.job
      case Start => s'.(open := s.open[sid := Turn(t.n, t.at)], out := s.out + [(sid, Started(t.n, t.at))])
      case End => s'.(out := s.out + [(sid, Ended(t.n, t.at, t.phase.began, t.phase.startedAt))])
      case Over => s'.(out := s.out + [(sid, Finished(t.n, t.at))])
  }

  function Step(s: State, ev: Event): State {
    match ev
    case Observe(hook, at) => ObserveHook(s, hook, at)
    case PtyExit(pty, at) => ObserveExit(s, pty, at)
    case BeginTask(sid) => BeginHead(s, sid)
    case FinishTask(sid) => FinishHead(s, sid)
  }

  function Run(evs: seq<Event>): State {
    if evs == [] then IDLE else Step(Run(evs[..|evs| - 1]), evs[|evs| - 1])
  }

  function InputsOf(evs: seq<Event>, sid: string): seq<Input> {
    if evs == [] then []
    else
      var x := Concerns(Run(evs[..|evs| - 1]), evs[|evs| - 1], sid);
      InputsOf(evs[..|evs| - 1], sid) + if x.Some? then [x.value] else []
  }

  /** The session a terminal runs, read off the hooks: the one its last hook named, until the terminal exits. */
  function RunningIn(evs: seq<Event>, pty: int): Option<string> {
    if evs == [] then None
    else
      var init := evs[..|evs| - 1];
      match evs[|evs| - 1]
      case Observe(hook, _) =>
        if hook.pty == Some(pty) && hook.sessionId != "" && hook.cwd != "" then Some(hook.sessionId)
        else RunningIn(init, pty)
      case PtyExit(p, _) => if p == pty then None else RunningIn(init, pty)
      case _ => RunningIn(init, pty)
  }

  lemma {:induction false} TerminalsAreKnown(evs: seq<Event>, pty: int)
    ensures RunningIn(evs, pty) ==
            if pty in Run(evs).sessionByPty then Some(Run(evs).sessionByPty[pty]) else None
    decreases |evs|
  {
    hide Step;
    if evs != [] {
      TerminalsAreKnown(evs[..|evs| - 1], pty);
      TerminalsAfter(Run(evs[..|evs| - 1]), evs[|evs| - 1]);
    }
  }

  lemma TasksKeepTerminals(s: State, sid: string)
    ensures BeginHead(s, sid).sessionByPty == s.sessionByPty && FinishHead(s, sid).sessionByPty == s.sessionByPty
  {
  }

  lemma TerminalsAfter(s: State, ev: Event)
    ensures Step(s, ev).sessionByPty ==
            match ev
            case Observe(hook, _) =>
              if hook.pty.Some? && hook.sessionId != "" && hook.cwd != ""
              then s.sessionByPty[hook.pty.value := hook.sessionId] else s.sessionByPty
            case PtyExit(p, _) => s.sessionByPty - {p}
            case _ => s.sessionByPty
  {
    hide BeginHead, FinishHead, ChainOf;
    if ev.BeginTask? || ev.FinishTask? { TasksKeepTerminals(s, ev.sid); }
  }

  /** A terminal's exit queues one end, for exactly the session the hooks say it was running, and says nothing yet. */
  lemma ExitEndsItsSession(evs: seq<Event>, pty: int, at: int, sid: string)
    ensures var was, now := View(Run(evs), sid), View(Run(evs + [PtyExit(pty, at)]), sid);
            now == if RunningIn(evs, pty) == Some(sid)
                   then was.(chain := was.chain + [Task(Over, Run(evs).observations, at, Queued)])
                   else was
  {
    hide OutOf;
    TerminalsAreKnown(evs, pty);
    assert (evs + [PtyExit(pty, at)])[..|evs|] == evs;
  }

  lemma OutOfSnoc(out: seq<(string, Emission)>, x: (string, Emission), sid: string)
    ensures OutOf(out + [x], sid) == OutOf(out, sid) + if x.0 == sid then [x.1] else []
  {
    assert (out + [x])[..|out|] == out;
  }

  /** An event moves the session it concerns, as that session's own automaton would, and no other. */
  lemma StepIsLocal(s: State, ev: Event, sid: string)
    ensures View(Step(s, ev), sid) ==
              if Concerns(s, ev, sid).Some? then React(View(s, sid), Concerns(s, ev, sid).value) else View(s, sid)
  {
    match ev
    case Observe(hook, at) => ObserveIsLocal(s, hook, at, sid);
    case PtyExit(pty, at) =>
    case BeginTask(k) => BeginIsLocal(s, k, sid);
    case FinishTask(k) => FinishIsLocal(s, k, sid);
  }

  lemma RememberIsLocal(s: State, hook: Hook, sid: string)
    ensures View(Remember(s, hook), sid) ==
              var v := View(s, sid);
              if hook.sessionId == sid then v.(known := true, ended := v.ended && hook.kind != Prompt) else v
  {
    hide OutOf;
  }

  lemma EnqueueIsLocal(s: State, k: string, job: Job, at: int, sid: string)
    ensures View(Enqueue(s, k, job, at), sid) ==
              if k == sid then Queue(View(s, sid), job, s.observations, at) else View(s, sid)
  {
    hide OutOf;
  }

  lemma ObserveIsLocal(s: State, hook: Hook, at: int, sid: string)
    ensures View(ObserveHook(s, hook, at), sid) ==
              if !Skipped(hook) && hook.sessionId == sid then Hearing(View(s, sid), hook.kind, s.observations, at)
              else View(s, sid)
  {
    hide OutOf, Enqueue, Remember;
    if !Skipped(hook) {
      RememberIsLocal(s, hook, sid);
      assert Remember(s, hook).observations == s.observations by { RememberKeepsCount(s, hook); }
      EnqueueIsLocal(Remember(s, hook), hook.sessionId, Start, at, sid);
      EnqueueIsLocal(Remember(s, hook), hook.sessionId, End, at, sid);
      EnqueueIsLocal(Remember(s, hook), hook.sessionId, Over, at, sid);
    }
  }

  lemma RememberKeepsCount(s: State, hook: Hook)
    ensures Remember(s, hook).observations == s.observations
  {
  }

  lemma BeginIsLocal(s: State, k: string, sid: string)
    ensures View(BeginHead(s, k), sid) == if k == sid then Beginning(View(s, sid)) else View(s, sid)
  {
    hide OutOf;
    if k != sid {
      BeginLeavesOthers(s, k, sid);
    } else if ChainOf(s, sid) != [] {
      BeginOwn(s, sid, ChainOf(s, sid)[0].job);
    }
  }

  lemma BeginOwn(s: State, sid: string, job: Job)
    requires ChainOf(s, sid) != [] && ChainOf(s, sid)[0].job == job
    ensures View(BeginHead(s, sid), sid) == Beginning(View(s, sid))
  {
    hide OutOf;
    match job
    case Start =>
    case End =>
    case Over => assert View(BeginHead(s, sid), sid).chain == Beginning(View(s, sid)).chain;
  }

  lemma BeginLeavesOthers(s: State, k: string, sid: string)
    requires k != sid
    ensures View(BeginHead(s, k), sid) == View(s, sid)
  {
    hide OutOf;
  }

  lemma FinishIsLocal(s: State, k: string, sid: string)
    ensures View(FinishHead(s, k), sid) == if k == sid then Finishing(View(s, sid)) else View(s, sid)
  {
    hide OutOf;
    var chain := ChainOf(s, k);
    if chain != [] && chain[0].phase.Awaiting? {
      var t := chain[0];
      match t.job
      case Start => OutOfSnoc(s.out, (k, Started(t.n, t.at)), sid);
      case End => OutOfSnoc(s.out, (k, Ended(t.n, t.at, t.phase.began, t.phase.startedAt)), sid);
      case Over => OutOfSnoc(s.out, (k, Finished(t.n, t.at)), sid);
    }
  }

  /** Sessions do not disturb each other, however their tasks interleave. */
  lemma {:induction false} SessionsAreIndependent(evs: seq<Event>, sid: string)
    ensures View(Run(evs), sid) == Play(InputsOf(evs, sid))
    decreases |evs|
  {
    hide Step, React, View, Concerns;
    if evs == [] {
      assert View(IDLE, sid) == NEW by { IdleView(sid); }
    } else {
      var s, ev := Run(evs[..|evs| - 1]), evs[|evs| - 1];
      SessionsAreIndependent(evs[..|evs| - 1], sid);
      StepIsLocal(s, ev, sid);
      var xs, x := InputsOf(evs[..|evs| - 1], sid), Concerns(s, ev, sid);
      if x.Some? { assert (xs + [x.value])[..|xs|] == xs; } else { assert xs + [] == xs; }
    }
  }

  lemma IdleView(sid: string)
    ensures View(IDLE, sid) == NEW
  {
  }

  /** For every interleaving of every session's lookups: one session's announced starts and ends are a prefix of its
      observed prompts and Stops; each end either closes the start announced just before it or is partial; windows do
      not overlap; and its session ends number at most its prompts and one more. */
  lemma EveryInterleaving(evs: seq<Event>, sid: string)
    ensures var out, xs := OutOf(Run(evs).out, sid), InputsOf(evs, sid);
            && Announced(out) <= Observed(xs)
            && Paired(out)
            && (InOrder(Observed(xs)) ==> WindowsApart(out))
            && SessionEnds(out) <= Prompts(xs) + 1
  {
    var xs := InputsOf(evs, sid);
    SessionsAreIndependent(evs, sid);
    assert OutOf(Run(evs).out, sid) == View(Run(evs), sid).out;
    TurnsComeInOrder(xs);
    PlayIsSound(xs);
    if InOrder(Observed(xs)) { WindowsNeverOverlap(xs); }
    SessionEndsAreFew(xs);
  }

  // ------------------------------------------------------------------ what the hooks themselves say

  predicate Speaks(ev: Event, sid: string) {
    ev.Observe? && ev.hook.sessionId == sid && sid != "" && ev.hook.cwd != ""
  }

  /** A session's prompts and Stops, with their times, read off the hooks. */
  function Hooked(evs: seq<Event>, sid: string): seq<(bool, int)> {
    if evs == [] then []
    else
      var ev := evs[|evs| - 1];
      Hooked(evs[..|evs| - 1], sid) +
        if Speaks(ev, sid) && ev.hook.kind in {Prompt, Stop} then [(ev.hook.kind == Prompt, ev.at)] else []
  }

  /** How often its end was reported: by a hook of its own, or by the exit of the terminal it was running in. */
  function EndsReported(evs: seq<Event>, sid: string): nat {
    if evs == [] then 0
    else
      var init, ev := evs[..|evs| - 1], evs[|evs| - 1];
      EndsReported(init, sid) +
        if Speaks(ev, sid) && ev.hook.kind == SessionEnd then 1
        else if ev.PtyExit? && RunningIn(init, ev.pty) == Some(sid) then 1 else 0
  }

  function Timed(marks: seq<Mark>): seq<(bool, int)> {
    seq(|marks|, i requires 0 <= i < |marks| => (marks[i].prompt, marks[i].at))
  }

  /** Every mark has a number of its own, below `n`. */
  predicate Numbered(marks: seq<Mark>, n: nat) {
    marks == [] || (marks[|marks| - 1].n < n && Numbered(marks[..|marks| - 1], marks[|marks| - 1].n))
  }

  lemma NumberedWiden(marks: seq<Mark>, n: nat, m: nat)
    requires Numbered(marks, n) && n <= m
    ensures Numbered(marks, m)
  {
  }

  lemma NumberedSnoc(marks: seq<Mark>, x: Mark, n: nat)
    requires Numbered(marks, x.n) && x.n < n
    ensures Numbered(marks + [x], n)
  {
    assert (marks + [x])[..|marks|] == marks;
  }

  /** What one event adds to a session's marks and to its reported ends. */
  lemma ConcernsMeans(evs: seq<Event>, ev: Event, sid: string)
    ensures var x := Concerns(Run(evs), ev, sid);
            && (Speaks(ev, sid) ==> x == Some(Hear(ev.hook.kind, Run(evs).observations, ev.at)))
            && (ev.Observe? && !Speaks(ev, sid) ==> x.None?)
            && (ev.PtyExit? ==> if RunningIn(evs, ev.pty) == Some(sid) then x.Some? && x.value.Exit? else x.None?)
            && (ev.BeginTask? || ev.FinishTask? ==> x.Some? ==> x.value == Begin || x.value == Finish)
  {
    hide Run;
    if ev.PtyExit? { TerminalsAreKnown(evs, ev.pty); }
  }

  lemma HeardSnoc(xs: seq<Input>, x: Input)
    ensures Observed(xs + [x]) == Observed(xs) +
              if x.Hear? && x.kind in {Prompt, Stop} then [Mark(x.kind == Prompt, x.n, x.at)] else []
    ensures EndsHeard(xs + [x]) == EndsHeard(xs) + if x.Exit? || (x.Hear? && x.kind == SessionEnd) then 1 else 0
  {
    assert (xs + [x])[..|xs|] == xs;
  }

  lemma TimedSnoc(marks: seq<Mark>, x: Mark)
    ensures Timed(marks + [x]) == Timed(marks) + [(x.prompt, x.at)]
  {
  }

  lemma {:induction false} ReportsAreHeard(evs: seq<Event>, sid: string)
    ensures Timed(Observed(InputsOf(evs, sid))) == Hooked(evs, sid)
    ensures EndsHeard(InputsOf(evs, sid)) == EndsReported(evs, sid)
    ensures Numbered(Observed(InputsOf(evs, sid)), Run(evs).observations)
    decreases |evs|
  {
    hide Step, Concerns, Observed, EndsHeard, Timed, RunningIn, Numbered;
    if evs == [] {
      assert Timed(Observed([])) == [] && EndsHeard([]) == 0 && Numbered(Observed([]), 0) by { NothingHeard(); }
    } else {
      var init, ev := evs[..|evs| - 1], evs[|evs| - 1];
      var xs, x := InputsOf(init, sid), Concerns(Run(init), ev, sid);
      ReportsAreHeard(init, sid);
      ConcernsMeans(init, ev, sid);
      CountsUp(Run(init), ev);
      NumberedWiden(Observed(xs), Run(init).observations, Run(evs).observations);
      assert Observed(xs) + [] == Observed(xs) && xs + [] == xs && Hooked(init, sid) + [] == Hooked(init, sid);
      if x.Some? { HeardSnoc(xs, x.value); }
      if Speaks(ev, sid) {
        var mark := Mark(ev.hook.kind == Prompt, Run(init).observations, ev.at);
        TimedSnoc(Observed(xs), mark);
        NumberedSnoc(Observed(xs), mark, Run(evs).observations);
      }
    }
  }

  lemma NothingHeard()
    ensures Timed(Observed([])) == [] && EndsHeard([]) == 0 && Numbered(Observed([]), 0)
  {
  }

  lemma CountsUp(s: State, ev: Event)
    ensures Step(s, ev).observations >= s.observations
    ensures ev.Observe? && !Skipped(ev.hook) ==> Step(s, ev).observations > s.observations
  {
  }

  /** So for every interleaving, what a session announces is a prefix of its hooks' own prompts and Stops, in their
      order and with their times, each under a number of its own; and it announces no more ends than were reported. */
  lemma AnnouncedAreHooks(evs: seq<Event>, sid: string)
    ensures var out := OutOf(Run(evs).out, sid);
            && Timed(Announced(out)) <= Hooked(evs, sid)
            && Numbered(Announced(out), Run(evs).observations)
            && SessionEnds(out) <= EndsReported(evs, sid)
  {
    var xs := InputsOf(evs, sid);
    SessionsAreIndependent(evs, sid);
    assert OutOf(Run(evs).out, sid) == View(Run(evs), sid).out;
    hide *;
    ReportsAreHeard(evs, sid);
    TurnsComeInOrder(xs);
    TimedPrefix(Announced(Play(xs).out), Observed(xs));
    PrefixNumbered(Announced(Play(xs).out), Observed(xs), Run(evs).observations);
    EndsAreReported(xs);
  }

  lemma TimedPrefix(a: seq<Mark>, b: seq<Mark>)
    requires a <= b
    ensures Timed(a) <= Timed(b)
  {
  }

  lemma BegunWhenItsTurn(v: Session, x: Input)
    requires Sound(v)
    ensures EndsBegun(React(v, x)) <= EndsBegun(v) + if EndBegins(v, x) then 1 else 0
  {
    hide SessionEnds;
    if v.chain != [] {
      if |v.chain| > 1 { TailIsQueued(v.chain, 1); }
      if x.Finish? && v.chain[0].phase.Awaiting? { SessionEndsAfter(v); }
    }
  }

  lemma {:induction false} EndsAreReported(xs: seq<Input>)
    ensures EndsBegun(Play(xs)) + QueuedEnds(Play(xs).chain) <= EndsHeard(xs)
    ensures SessionEnds(Play(xs).out) <= EndsBegun(Play(xs))
    decreases |xs|
  {
    hide SessionEnds, React, EndBegins;
    if xs == [] {
      assert EndsBegun(NEW) == 0 by { NoEnds(); }
    } else {
      var init, x := xs[..|xs| - 1], xs[|xs| - 1];
      EndsAreReported(init);
      PlayIsSound(init);
      BegunWhenItsTurn(Play(init), x);
      EndsWait(Play(init), x);
    }
  }

  lemma {:induction false} PrefixNumbered(a: seq<Mark>, b: seq<Mark>, n: nat)
    requires Numbered(b, n) && a <= b
    ensures Numbered(a, n)
    decreases |b|
  {
    if |a| < |b| {
      var init, last := b[..|b| - 1], b[|b| - 1];
      NumberedWiden(init, last.n, n);
      PrefixNumbered(a, init, n);
    } else {
      assert a == b;
    }
  }

  // ------------------------------------------------------------------ the code

  function RunFrom(s: State, hooks: seq<Hook>, at: int): State {
    if hooks == [] then s else ObserveHook(RunFrom(s, hooks[..|hooks| - 1], at), hooks[|hooks| - 1], at)
  }

  class AgentTurnHub {
    var known: set<string>
    var ended: set<string>
    var open: map<string, Turn>
    var lastEnd: map<string, int>
    var chains: map<string, seq<Task>>
    var sessionByPty: map<int, string>
    var out: seq<(string, Emission)>
    var observations: nat

    function Model(): State
      reads this
    {
      State(known, ended, open, lastEnd, chains, sessionByPty, out, observations)
    }

    constructor ()
      ensures Model() == IDLE
    {
      known, ended, open, lastEnd := {}, {}, map[], map[];
      chains, sessionByPty, out, observations := map[], map[], [], 0;
    }

    method Chain(sid: string, job: Job, at: int)
      modifies this`chains
      ensures Model() == Enqueue(old(Model()), sid, job, at)
    {
      var prev := if sid in chains then chains[sid] else [];
      chains := chains[sid := prev + [Task(job, observations, at, Queued)]];
    }

    /** One batch from the hook bridge; every event in it carries the batch's time. */
    method ObserveAgentTurns(hooks: seq<Hook>, at: int)
      modifies this
      ensures Model() == RunFrom(old(Model()), hooks, at)
    {
      for i := 0 to |hooks|
        invariant Model() == RunFrom(old(Model()), hooks[..i], at)
      {
        assert hooks[..i + 1][..i] == hooks[..i];
        ObserveOne(hooks[i], at);
      }
      assert hooks[..|hooks|] == hooks;
    }

    method ObserveOne(hook: Hook, at: int)
      modifies this
      ensures Model() == Step(old(Model()), Observe(hook, at))
    {
      if hook.sessionId == "" || hook.cwd == "" {
        return;
      }
      known := known + {hook.sessionId};
      if hook.pty.Some? {
        sessionByPty := sessionByPty[hook.pty.value := hook.sessionId];
      }
      if hook.kind == Prompt {
        ended := ended - {hook.sessionId};
      }
      if hook.kind != Other {
        Chain(hook.sessionId, if hook.kind == Prompt then Start else if hook.kind == Stop then End else Over, at);
      }
      observations := observations + 1;
    }

    method ObserveAgentPtyExit(pty: int, at: int)
      modifies this
      ensures Model() == Step(old(Model()), PtyExit(pty, at))
    {
      if pty !in sessionByPty {
        return;
      }
      var sid := sessionByPty[pty];
      sessionByPty := sessionByPty - {pty};
      Chain(sid, Over, at);
      observations := observations + 1;
    }

    /** The head of a chain runs up to its first lookup. */
    method RunToAwait(sid: string)
      modifies this
      ensures Model() == Step(old(Model()), BeginTask(sid))
    {
      var chain := if sid in chains then chains[sid] else [];
      if chain == [] || chain[0].phase != Queued {
        return;
      }
      var t := chain[0];
      var waiting := t.(phase := Awaiting(None, t.at));
      match t.job {
        case Start =>
        case End =>
          var startedAt := if sid in open then open[sid].at else if sid in lastEnd then lastEnd[sid] else t.at;
          waiting := t.(phase := Awaiting(if sid in open then Some(open[sid].n) else None, startedAt));
          open := open - {sid};
          lastEnd := lastEnd[sid := t.at];
        case Over =>
          if sid !in known || sid in ended {
            chains := chains[sid := chain[1..]];
            return;
          }
          ended := ended + {sid};
          open := open - {sid};
      }
      chains := chains[sid := [waiting] + chain[1..]];
    }

    /** Its lookups are back: it announces, and the chain moves on. */
    method RunToEnd(sid: string)
      modifies this
      ensures Model() == Step(old(Model()), FinishTask(sid))
    {
      var chain := if sid in chains then chains[sid] else [];
      if chain == [] || chain[0].phase == Queued {
        return;
      }
      var t := chain[0];
      chains := chains[sid := chain[1..]];
      match t.job {
        case Start =>
          open := open[sid := Turn(t.n, t.at)];
          out := out + [(sid, Started(t.n, t.at))];
        case End => out := out + [(sid, Ended(t.n, t.at, t.phase.began, t.phase.startedAt))];
        case Over => out := out + [(sid, Finished(t.n, t.at))];
      }
    }
  }
}
