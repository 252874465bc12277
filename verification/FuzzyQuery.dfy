/** A whole query (shared/fuzzy.ts: `exactTerm`, `run`, `fuzzy`, `fuzzyRanges`): literal terms, the AND of the
    terms as a cost, and the ranges a highlight is drawn from. */
module FuzzyQuery {
  import opened Basics
  import opened FuzzyScore
  import opened FuzzyMatrix
  import opened FuzzyMatcher

  // ------------------------------------------------------------------ literal terms

  datatype Anchor = Anywhere | Prefix | Suffix | Equal

  predicate Occurs(pat: string, low: string, at: int) {
    0 <= at <= |low| - |pat| && low[at..at + |pat|] == pat
  }

  predicate Allowed(anchor: Anchor, m: nat, n: nat, at: int) {
    match anchor
    case Anywhere => true
    case Prefix => at == 0
    case Suffix => at == n - m
    case Equal => n == m && at == 0
  }

  predicate Candidate(pat: string, low: string, anchor: Anchor, at: int) {
    Occurs(pat, low, at) && Allowed(anchor, |pat|, |low|, at)
  }

  /** The `m` offsets from `at` on. */
  function Span(at: nat, m: nat): (p: seq<nat>)
    ensures |p| == m && Up(p, at, at + m)
    ensures m > 0 ==> p[0] == at && p[m - 1] == at + m - 1
  {
    if m == 0 then []
    else
      var q := Span(at, m - 1);
      assert (q + [at + m - 1])[..m - 1] == q;
      q + [at + m - 1]
  }

  lemma OccursAt(pat: string, low: string, at: nat, k: nat)
    requires Occurs(pat, low, at) && k < |pat|
    ensures low[at + k] == pat[k]
  {
    assert low[at..at + |pat|][k] == low[at + k];
  }

  /** Scanning a literal occurrence takes every one of its characters. */
  lemma {:induction false} ScanOfOccurrence(pat: string, low: string, at: nat, k: nat)
    requires Occurs(pat, low, at) && k <= |pat|
    ensures Scan(pat, low, at, at + k) == Span(at, k)
    decreases k
  {
    hide Occurs;
    if k > 0 {
      ScanOfOccurrence(pat, low, at, k - 1);
      OccursAt(pat, low, at, k - 1);
    }
  }

  function Worth(pat: string, low: string, b: seq<Bonus>, at: nat): int
    requires |b| == |low| && pat != [] && Occurs(pat, low, at)
  {
    Placement(b, Span(at, |pat|))
  }

  /** The best candidate start below `n`, the first of several. */
  function BestStart(pat: string, low: string, b: seq<Bonus>, anchor: Anchor, n: nat): (r: Option<nat>)
    requires |b| == |low| && pat != []
    ensures r.Some? ==> r.value < n && Candidate(pat, low, anchor, r.value)
  {
    if n == 0 then None
    else
      var r := BestStart(pat, low, b, anchor, n - 1);
      if Candidate(pat, low, anchor, n - 1) && (r.None? || Worth(pat, low, b, n - 1) > Worth(pat, low, b, r.value))
      then Some(n - 1) else r
  }

  function ExactStart(pat: string, low: string, b: seq<Bonus>, anchor: Anchor): (r: Option<nat>)
    requires |b| == |low| && pat != []
    ensures r.Some? ==> Candidate(pat, low, anchor, r.value)
  {
    BestStart(pat, low, b, anchor, |low| + 1)
  }

  /** A literal term matches exactly when an allowed occurrence exists, and takes the best placed one. */
  lemma {:induction false} BestStartIsMaximal(pat: string, low: string, b: seq<Bonus>, anchor: Anchor, n: nat, at: nat)
    requires |b| == |low| && pat != [] && at < n && Candidate(pat, low, anchor, at)
    ensures var r := BestStart(pat, low, b, anchor, n);
            && r.Some? && Worth(pat, low, b, at) <= Worth(pat, low, b, r.value)
            && (Worth(pat, low, b, at) == Worth(pat, low, b, r.value) ==> r.value <= at)
    decreases n
  {
    hide Worth, Occurs, Allowed;
    if at < n - 1 { BestStartIsMaximal(pat, low, b, anchor, n - 1, at); }
  }

  lemma {:induction false} NoCandidates(pat: string, low: string, b: seq<Bonus>, anchor: Anchor, m: nat, n: nat)
    requires |b| == |low| && pat != [] && m <= n
    requires forall at :: m <= at < n ==> !Candidate(pat, low, anchor, at)
    ensures BestStart(pat, low, b, anchor, n) == BestStart(pat, low, b, anchor, m)
    decreases n - m
  {
    if m < n { NoCandidates(pat, low, b, anchor, m, n - 1); }
  }

  /** The first occurrence at or after `from`, -1 when there is none. */
  function IndexOf(low: string, pat: string, from: nat): (r: int)
    ensures r >= 0 ==> from <= r && Occurs(pat, low, r) && forall k :: from <= k < r ==> !Occurs(pat, low, k)
    ensures r < 0 ==> forall k :: from <= k ==> !Occurs(pat, low, k)
    decreases |low| - from
  {
    if from > |low| - |pat| then -1
    else if Occurs(pat, low, from) then from
    else IndexOf(low, pat, from + 1)
  }

  predicate NoneIn(pat: string, low: string, anchor: Anchor, m: nat, n: nat) {
    forall at :: m <= at < n ==> !Candidate(pat, low, anchor, at)
  }

  /** Ascending starts below `n` that miss no candidate below `n`. */
  predicate Covering(pat: string, low: string, anchor: Anchor, starts: seq<nat>, n: nat) {
    if starts == [] then NoneIn(pat, low, anchor, 0, n)
    else
      var k := |starts| - 1;
      && starts[k] < n && Allowed(anchor, |pat|, |low|, starts[k])
      && NoneIn(pat, low, anchor, starts[k] + 1, n)
      && Covering(pat, low, anchor, starts[..k], starts[k])
  }

  /** The best placed of some starts, the first of several. */
  function BestAmong(pat: string, low: string, b: seq<Bonus>, starts: seq<nat>): (r: Option<nat>)
    requires |b| == |low| && pat != []
    ensures r.Some? ==> Occurs(pat, low, r.value)
  {
    if starts == [] then None
    else
      var r, at := BestAmong(pat, low, b, starts[..|starts| - 1]), starts[|starts| - 1];
      if Occurs(pat, low, at) && (r.None? || Worth(pat, low, b, at) > Worth(pat, low, b, r.value)) then Some(at) else r
  }

  lemma TryStart(pat: string, low: string, b: seq<Bonus>, anchor: Anchor, x: nat, r: Option<nat>, n: nat)
    requires |b| == |low| && pat != [] && x < n && Allowed(anchor, |pat|, |low|, x)
    requires r == BestStart(pat, low, b, anchor, x)
    requires NoneIn(pat, low, anchor, x + 1, n)
    ensures BestStart(pat, low, b, anchor, n) ==
            if Occurs(pat, low, x) && (r.None? || Worth(pat, low, b, x) > Worth(pat, low, b, r.value))
            then Some(x) else r
  {
    NoCandidates(pat, low, b, anchor, x + 1, n);
  }

  lemma {:induction false} CoveringIsEnough(pat: string, low: string, b: seq<Bonus>, anchor: Anchor,
                                            starts: seq<nat>, n: nat)
    requires |b| == |low| && pat != [] && Covering(pat, low, anchor, starts, n)
    ensures BestAmong(pat, low, b, starts) == BestStart(pat, low, b, anchor, n)
    decreases |starts|
  {
    if starts == [] {
      NoCandidates(pat, low, b, anchor, 0, n);
    } else {
      var k := |starts| - 1;
      CoveringIsEnough(pat, low, b, anchor, starts[..k], starts[k]);
      TryStart(pat, low, b, anchor, starts[k], BestAmong(pat, low, b, starts[..k]), n);
    }
  }

  /** The starts `exactTerm` tries, in order. */
  method Starts(pat: string, low: string, anchor: Anchor) returns (starts: seq<nat>)
    requires 0 < |pat| <= |low|
    ensures Covering(pat, low, anchor, starts, |low| + 1)
  {
    var m, n := |pat|, |low|;
    if anchor == Prefix {
      starts := [0];
      assert starts[..0] == [];
    } else if anchor == Suffix {
      starts := [n - m];
      assert starts[..0] == [];
    } else if anchor == Equal {
      starts := if n != m then [] else [0];
      assert n == m ==> starts[..0] == [];
    } else {
      starts := [];
      var i := IndexOf(low, pat, 0);
      while i >= 0
        invariant i < 0 || Occurs(pat, low, i)
        invariant Covering(pat, low, anchor, starts, if i < 0 then n + 1 else i)
        decreases if i < 0 then 0 else n + 1 - i
      {
        var next := IndexOf(low, pat, i + 1);
        assert (starts + [i])[..|starts|] == starts;
        starts := starts + [i];
        i := next;
      }
    }
  }

  lemma NowhereToStart(pat: string, low: string, b: seq<Bonus>, anchor: Anchor)
    requires |b| == |low| < |pat|
    ensures ExactPlacement(pat, low, b, anchor) == None
  {
    NoCandidates(pat, low, b, anchor, 0, |low| + 1);
  }

  method ExactTerm(pat: string, cls: seq<Class>, low: string, anchor: Anchor, want: bool)
    returns (r: Option<int>, pos: seq<nat>)
    requires |cls| == |low|
    ensures pat == [] ==> r == Some(0) && pos == []
    ensures pat != [] ==> IsTermResult(ExactPlacement(pat, low, Bonuses(cls), anchor), Bonuses(cls), want, r, pos)
  {
    hide BestStart, BestAmong, Bonuses;
    if pat == [] { return Some(0), []; }
    if |pat| > |low| {
      NowhereToStart(pat, low, Bonuses(cls), anchor);
      return None, [];
    }
    var starts := Starts(pat, low, anchor);
    CoveringIsEnough(pat, low, Bonuses(cls), anchor, starts, |low| + 1);
    var best, bestAt := BestOf(pat, cls, low, starts);
    r, pos := best, [];
    if best != None {
        if want { pos := Offsets(bestAt, |pat|); }
    }
  }

  method Offsets(at: nat, m: nat) returns (pos: seq<nat>)
    ensures pos == Span(at, m)
  {
    pos := [];
    var i := 0;
    while i < m
      invariant 0 <= i <= m && pos == Span(at, i)
    {
      pos := pos + [at + i];
      i := i + 1;
    }
  }

  method BestOf(pat: string, cls: seq<Class>, low: string, starts: seq<nat>) returns (best: Option<int>, bestAt: nat)
    requires |cls| == |low| && pat != []
    ensures Leads(pat, low, Bonuses(cls), BestAmong(pat, low, Bonuses(cls), starts), best, bestAt)
  {
    best, bestAt := None, 0;
    var k := 0;
    while k < |starts|
      invariant 0 <= k <= |starts|
      invariant Leads(pat, low, Bonuses(cls), BestAmong(pat, low, Bonuses(cls), starts[..k]), best, bestAt)
    {
      var at := starts[k];
      assert starts[..k + 1][..k] == starts[..k];
      if Occurs(pat, low, at) {
        var s := ScoreSpan(pat, cls, low, at);
        if best == None || s > best.value {
          best, bestAt := Some(s), at;
        }
      }
      k := k + 1;
    }
    assert starts[..|starts|] == starts;
  }

  ghost predicate Leads(pat: string, low: string, b: seq<Bonus>, start: Option<nat>, best: Option<int>, bestAt: nat)
    requires |b| == |low| && pat != [] && (start.Some? ==> Occurs(pat, low, start.value))
  {
    match start
    case None => best == None
    case Some(at) => bestAt == at && best == Some(Worth(pat, low, b, at))
  }

  method ScoreSpan(pat: string, cls: seq<Class>, low: string, at: nat) returns (s: int)
    requires |cls| == |low| && pat != [] && Occurs(pat, low, at)
    ensures s == Worth(pat, low, Bonuses(cls), at)
  {
    hide Scan, Placement, Bonuses;
    ScanOfOccurrence(pat, low, at, |pat|);
    var none;
    s, none := ScoreRegion(pat, cls, low, at, at + |pat|, false);
  }

  function ExactPlacement(pat: string, low: string, b: seq<Bonus>, anchor: Anchor): Option<seq<nat>>
    requires |b| == |low| && pat != []
  {
    match ExactStart(pat, low, b, anchor)
    case None => None
    case Some(at) => Some(Span(at, |pat|))
  }

  // ------------------------------------------------------------------ the AND of a query's terms

  /** A parsed term; without an anchor it is a fuzzy one.  The parser drops empty terms. */
  datatype ParsedTerm = Term(anchor: Option<Anchor>, text: string, negated: bool)

  type Term = t: ParsedTerm | t.text != [] witness Term(None, "a", false)

  function TermPlacement(t: Term, low: string, b: seq<Bonus>): Option<seq<nat>>
    requires |b| == |low|
  {
    match if t.negated && t.anchor.None? then Some(Anywhere) else t.anchor
    case None => FuzzyPlacement(t.text, low, b)
    case Some(a) => ExactPlacement(t.text, low, b, a)
  }

  lemma TermIsSound(t: Term, low: string, b: seq<Bonus>)
    requires |b| == |low|
    ensures TermPlacement(t, low, b).Some? ==> Embeds(t.text, low, 0, |low|, TermPlacement(t, low, b).value)
  {
    hide FuzzyPlacement, ExactStart, Scan, Up, Spells;
    match if t.negated && t.anchor.None? then Some(Anywhere) else t.anchor
    case None => FuzzyIsSound(t.text, low, b);
    case Some(a) =>
      if ExactStart(t.text, low, b, a).Some? {
        var at := ExactStart(t.text, low, b, a).value;
        ScanOfOccurrence(t.text, low, at, |t.text|);
        UpWiden(Span(at, |t.text|), at, at + |t.text|, 0, |low|);
        ScanPlaces(t.text, low, at, at + |t.text|);
      }
  }

  /** A plain term has to match, a negated one must not. */
  predicate Meets(t: Term, low: string, b: seq<Bonus>)
    requires |b| == |low|
  {
    TermPlacement(t, low, b).Some? <==> !t.negated
  }

  predicate Uses(t: Term, low: string, b: seq<Bonus>, x: nat)
    requires |b| == |low|
  {
    TermPlacement(t, low, b).Some? && x in TermPlacement(t, low, b).value
  }

  /** What the four kinds of literal term ask of a text: to contain it, to begin or end with it, or to be it. */
  ghost predicate Has(low: string, anchor: Anchor, text: string) {
    match anchor
    case Anywhere => exists before, after :: low == before + text + after
    case Prefix => text <= low
    case Suffix => |text| <= |low| && low[|low| - |text|..] == text
    case Equal => low == text
  }

  lemma HasMeans(low: string, anchor: Anchor, text: string)
    requires text != []
    ensures Has(low, anchor, text) <==> exists at :: Candidate(text, low, anchor, at)
  {
    var tail := |low| - |text|;
    if Has(low, anchor, text) {
      match anchor
      case Anywhere =>
        var before, after :| low == before + text + after;
        assert low[|before|..|before| + |text|] == text;
        assert Candidate(text, low, anchor, |before|);
      case Prefix =>
        assert low[0..|text|] == text;
        assert Candidate(text, low, anchor, 0);
      case Suffix =>
        assert low[tail..tail + |text|] == text;
        assert Candidate(text, low, anchor, tail);
      case Equal =>
        assert low[0..|text|] == text;
        assert Candidate(text, low, anchor, 0);
    }
    if at :| Candidate(text, low, anchor, at) {
      assert low == low[..at] + text + low[at + |text|..];
    }
  }

  /** A literal term matches exactly the texts it describes, on one unbroken occurrence. */
  lemma LiteralMeans(text: string, low: string, b: seq<Bonus>, anchor: Anchor)
    requires |b| == |low| && text != []
    ensures var r := ExactPlacement(text, low, b, anchor);
            && (r.Some? <==> Has(low, anchor, text))
            && (r.Some? ==>
                  && |r.value| == |text| && r.value[0] + |text| <= |low|
                  && r.value == Span(r.value[0], |text|) && low[r.value[0]..r.value[0] + |text|] == text)
  {
    hide Has, Worth, Placement;
    HasMeans(low, anchor, text);
    if at :| Candidate(text, low, anchor, at) {
      assert 0 <= at < |low| + 1;
      BestStartIsMaximal(text, low, b, anchor, |low| + 1, at);
    }
  }

  /** A term that carries an anchor is met as its anchor says, and so is every negated one: without an anchor the text
      must not contain it, whatever a fuzzy match would make of it. */
  lemma MeetsMeans(t: Term, low: string, b: seq<Bonus>)
    requires |b| == |low|
    ensures t.anchor.Some? ==> (Meets(t, low, b) <==> (Has(low, t.anchor.value, t.text) <==> !t.negated))
    ensures t.anchor.None? && t.negated ==> (Meets(t, low, b) <==> !Has(low, Anywhere, t.text))
    ensures t.anchor.None? && !t.negated ==> (Meets(t, low, b) <==> FuzzyPlacement(t.text, low, b).Some?)
  {
    hide Has, ExactPlacement, FuzzyPlacement;
    if t.anchor.Some? { LiteralMeans(t.text, low, b, t.anchor.value); } else { LiteralMeans(t.text, low, b, Anywhere); }
  }

  datatype Sum = Sum(score: int, best: int, pos: seq<nat>)

  /** What the terms add up to, or nothing when a negated term occurs or any other does not match. */
  function Fold(ts: seq<Term>, low: string, b: seq<Bonus>): Option<Sum>
    requires |b| == |low|
  {
    if ts == [] then Some(Sum(0, 0, []))
    else
      var n := |ts| - 1;
      match Fold(ts[..n], low, b)
      case None => None
      case Some(s) => Add(s, ts[n], low, b)
  }

  function Kept(s: Sum, want: bool): seq<nat> {
    if want then s.pos else []
  }

  /** A query matches exactly when every plain term does and no negated one does. */
  lemma {:induction false} FoldIsAnd(ts: seq<Term>, low: string, b: seq<Bonus>)
    requires |b| == |low|
    ensures Fold(ts, low, b).Some? <==> forall t :: t in ts ==> Meets(t, low, b)
    decreases |ts|
  {
    if ts != [] {
      var n := |ts| - 1;
      FoldIsAnd(ts[..n], low, b);
      Snoc(ts);
      assert forall t :: t in ts[..n] ==> t in ts;
      assert ts[n] in ts;
      if Fold(ts[..n], low, b).Some? {
        assert Fold(ts, low, b) == Add(Fold(ts[..n], low, b).value, ts[n], low, b);
        assert Fold(ts, low, b).Some? <==> Meets(ts[n], low, b);
      }
    }
  }

  lemma Snoc<T>(s: seq<T>)
    requires s != []
    ensures forall x :: x in s <==> x in s[..|s| - 1] || x == s[|s| - 1]
  {
    assert s == s[..|s| - 1] + [s[|s| - 1]];
  }

  /** One more term: it either drops the query or adds its own score, ideal and offsets. */
  function Add(s: Sum, t: Term, low: string, b: seq<Bonus>): Option<Sum>
    requires |b| == |low|
  {
    match TermPlacement(t, low, b)
    case None => if t.negated then Some(s) else None
    case Some(p) =>
      TermIsSound(t, low, b);
      if t.negated then None else Some(Sum(s.score + Placement(b, p), s.best + Ideal(|t.text|), s.pos + p))
  }

  /** How far a query's terms fall short of their ideals, term by term. */
  function Shortfall(ts: seq<Term>, low: string, b: seq<Bonus>): int
    requires |b| == |low|
  {
    if ts == [] then 0
    else
      var n := |ts| - 1;
      match TermPlacement(ts[n], low, b)
      case None => Shortfall(ts[..n], low, b)
      case Some(p) =>
        TermIsSound(ts[n], low, b);
        Shortfall(ts[..n], low, b) + Ideal(|ts[n].text|) - Placement(b, p)
  }

  /** The cost is a sum of terms none of which is negative, so clamping it at 0 never changes it. */
  lemma {:induction false} ClampNeverActs(ts: seq<Term>, low: string, b: seq<Bonus>)
    requires |b| == |low| && Fold(ts, low, b).Some?
    ensures var s := Fold(ts, low, b).value; s.best - s.score == Shortfall(ts, low, b) >= 0
    decreases |ts|
  {
    if ts != [] {
      var n := |ts| - 1;
      ClampNeverActs(ts[..n], low, b);
      if TermPlacement(ts[n], low, b).Some? {
        TermIsSound(ts[n], low, b);
        PlacementAtMostIdeal(b, TermPlacement(ts[n], low, b).value);
      }
    }
  }

  /** The offsets collected are exactly those some term's placement uses. */
  lemma {:induction false} CollectedOffsets(ts: seq<Term>, low: string, b: seq<Bonus>, x: nat)
    requires |b| == |low| && Fold(ts, low, b).Some?
    ensures x in Fold(ts, low, b).value.pos <==> exists t :: t in ts && Uses(t, low, b, x)
    decreases |ts|
  {
    if ts != [] {
      var n := |ts| - 1;
      CollectedOffsets(ts[..n], low, b, x);
      Snoc(ts);
      assert Fold(ts, low, b) == Add(Fold(ts[..n], low, b).value, ts[n], low, b);
      assert x in Fold(ts, low, b).value.pos <==> x in Fold(ts[..n], low, b).value.pos || Uses(ts[n], low, b, x);
    }
  }

  /** The cost of a query, and the offsets it matched when they are wanted.  The cost does not depend on whether
      they are, so a highlight cannot disagree with a rank. */
  method Run(m: Matcher, ts: seq<Term>, cls: seq<Class>, low: string, want: bool)
    returns (r: Option<nat>, pos: seq<nat>)
    requires m.Valid() && |cls| == |low|
    modifies m.Repr
    ensures m.Valid() && fresh(m.Repr - old(m.Repr))
    ensures r.Some? <==> Fold(ts, low, Bonuses(cls)).Some?
    ensures r.Some? ==> var s := Fold(ts, low, Bonuses(cls)).value; r.value == s.best - s.score && pos == Kept(s, want)
  {
    var sum := AddUp(m, ts, cls, low, want);
    if sum.None? { return None, []; }
    ClampNeverActs(ts, low, Bonuses(cls));
    r := Some(Max(0, sum.value.best - sum.value.score));
    pos := sum.value.pos;
  }

  /** The loop over the terms. */
  method AddUp(m: Matcher, ts: seq<Term>, cls: seq<Class>, low: string, want: bool) returns (r: Option<Sum>)
    requires m.Valid() && |cls| == |low|
    modifies m.Repr
    ensures m.Valid() && fresh(m.Repr - old(m.Repr))
    ensures r.Some? <==> Fold(ts, low, Bonuses(cls)).Some?
    ensures r.Some? ==> var s := Fold(ts, low, Bonuses(cls)).value; r.value == Sum(s.score, s.best, Kept(s, want))
  {
    ghost var b := Bonuses(cls);
    ghost var sum := Sum(0, 0, []);
    var score, best, pos := 0, 0, [];
    var k := 0;
    while k < |ts|
      invariant 0 <= k <= |ts| && m.Valid() && fresh(m.Repr - old(m.Repr))
      invariant Fold(ts[..k], low, b) == Some(sum)
      invariant score == sum.score && best == sum.best && pos == Kept(sum, want)
      modifies m.Repr
    {
      var t := ts[k];
      var s, found := RunTerm(m, t, cls, low, want && !t.negated);
      FoldTerm(ts, low, b, k, sum, want, s, found);
      if s.Some? == t.negated { return None; }
      if !t.negated {
        pos := pos + found;
        score := score + s.value;
        best := best + Ideal(|t.text|);
      }
      sum := Fold(ts[..k + 1], low, b).value;
      k := k + 1;
    }
    assert ts[..|ts|] == ts;
    r := Some(Sum(score, best, pos));
  }

  lemma FoldNext(ts: seq<Term>, low: string, b: seq<Bonus>, k: nat)
    requires |b| == |low| && k < |ts| && Fold(ts[..k], low, b).Some?
    ensures Fold(ts[..k + 1], low, b) == Add(Fold(ts[..k], low, b).value, ts[k], low, b)
    ensures Fold(ts[..k + 1], low, b).None? ==> Fold(ts, low, b).None?
  {
    assert ts[..k + 1][..k] == ts[..k];
    FoldPrefix(ts, low, b, k + 1);
  }

  /** What one term's answer means for the running sum. */
  lemma FoldTerm(ts: seq<Term>, low: string, b: seq<Bonus>, k: nat, sum: Sum, want: bool, s: Option<int>,
                 found: seq<nat>)
    requires |b| == |low| && k < |ts| && Fold(ts[..k], low, b) == Some(sum)
    requires IsTermResult(TermPlacement(ts[k], low, b), b, want && !ts[k].negated, s, found)
    ensures s.Some? == ts[k].negated ==> Fold(ts, low, b) == None
    ensures s.Some? != ts[k].negated ==>
              && Fold(ts[..k + 1], low, b).Some?
              && var sum' := Fold(ts[..k + 1], low, b).value;
              if ts[k].negated then sum' == sum else
                && sum'.score == sum.score + s.value && sum'.best == sum.best + Ideal(|ts[k].text|)
                && Kept(sum', want) == Kept(sum, want) + found
  {
    FoldNext(ts, low, b, k);
  }

  method RunTerm(m: Matcher, t: Term, cls: seq<Class>, low: string, want: bool) returns (r: Option<int>, pos: seq<nat>)
    requires m.Valid() && |cls| == |low|
    modifies m.Repr
    ensures m.Valid() && fresh(m.Repr - old(m.Repr))
    ensures IsTermResult(TermPlacement(t, low, Bonuses(cls)), Bonuses(cls), want, r, pos)
  {
    if t.negated {
      r, pos := ExactTerm(t.text, cls, low, if t.anchor.Some? then t.anchor.value else Anywhere, want);
    } else if t.anchor.None? {
      r, pos := m.FuzzyTerm(t.text, cls, low, want);
    } else {
      r, pos := ExactTerm(t.text, cls, low, t.anchor.value, want);
    }
  }

  lemma {:induction false} FoldPrefix(ts: seq<Term>, low: string, b: seq<Bonus>, k: nat)
    requires |b| == |low| && k <= |ts|
    ensures Fold(ts, low, b).Some? ==> Fold(ts[..k], low, b).Some?
    decreases |ts|
  {
    if k < |ts| {
      FoldPrefix(ts[..|ts| - 1], low, b, k);
      assert ts[..|ts| - 1][..k] == ts[..k];
    } else {
      assert ts[..k] == ts;
    }
  }

  // ------------------------------------------------------------------ ranges

  predicate Sorted(s: seq<nat>) {
    |s| <= 1 || (s[|s| - 2] <= s[|s| - 1] && Sorted(s[..|s| - 1]))
  }

  function Insert(s: seq<nat>, x: nat): seq<nat> {
    if s == [] then [x]
    else if s[|s| - 1] <= x then s + [x]
    else Insert(s[..|s| - 1], x) + [s[|s| - 1]]
  }

  lemma SortedSnoc(s: seq<nat>, x: nat)
    requires Sorted(s) && (s == [] || s[|s| - 1] <= x)
    ensures Sorted(s + [x])
  {
    assert (s + [x])[..|s|] == s;
  }

  lemma {:induction false} InsertSorts(s: seq<nat>, x: nat)
    requires Sorted(s)
    ensures var r := Insert(s, x);
            && Sorted(r) && |r| == |s| + 1 && r[|s|] == (if s == [] || s[|s| - 1] <= x then x else s[|s| - 1])
    decreases |s|
  {
    if s == [] {
    } else if s[|s| - 1] <= x {
      SortedSnoc(s, x);
    } else {
      var n := |s| - 1;
      InsertSorts(s[..n], x);
      SortedSnoc(Insert(s[..n], x), s[n]);
    }
  }

  lemma {:induction false} InsertKeeps(s: seq<nat>, x: nat, y: nat)
    ensures y in Insert(s, x) <==> y in s || y == x
    decreases |s|
  {
    if s != [] && s[|s| - 1] > x {
      InsertKeeps(s[..|s| - 1], x, y);
      Snoc(s);
    }
  }

  /** The ascending sort `fuzzyRanges` applies to the offsets. */
  function SortedOf(s: seq<nat>): seq<nat> {
    if s == [] then [] else Insert(SortedOf(s[..|s| - 1]), s[|s| - 1])
  }

  lemma {:induction false} SortSorts(s: seq<nat>, y: nat)
    ensures Sorted(SortedOf(s)) && (y in SortedOf(s) <==> y in s)
    decreases |s|
  {
    if s != [] {
      var q, x := SortedOf(s[..|s| - 1]), s[|s| - 1];
      SortSorts(s[..|s| - 1], y);
      InsertSorts(q, x);
      InsertKeeps(q, x, y);
      Snoc(s);
    }
  }

  type Range = (nat, nat)

  function Extend(out: seq<Range>, p: nat): seq<Range> {
    var n := |out| - 1;
    if out != [] && p <= out[n].1 then out[..n] + [(out[n].0, Max(out[n].1, p + 1))] else out + [(p, p + 1)]
  }

  function Merge(s: seq<nat>): seq<Range> {
    if s == [] then [] else Extend(Merge(s[..|s| - 1]), s[|s| - 1])
  }

  /** Non-empty ranges in ascending order, at least one character apart. */
  predicate Separated(out: seq<Range>) {
    out == [] ||
    var n := |out| - 1;
    out[n].0 < out[n].1 && (n > 0 ==> out[n - 1].1 < out[n].0) && Separated(out[..n])
  }

  predicate Covers(out: seq<Range>, x: nat) {
    exists k :: 0 <= k < |out| && out[k].0 <= x < out[k].1
  }

  lemma ExtendCovers(out: seq<Range>, p: nat, x: nat)
    requires Separated(out) && (out != [] ==> out[|out| - 1].1 <= p + 1 && out[|out| - 1].0 <= p)
    ensures Separated(Extend(out, p)) && Extend(out, p) != []
    ensures var last := Extend(out, p)[|Extend(out, p)| - 1]; last.1 == p + 1 && last.0 <= p
    ensures Covers(Extend(out, p), x) <==> Covers(out, x) || x == p
  {
    var n, r := |out| - 1, Extend(out, p);
    if out != [] && p <= out[n].1 {
      assert r[..n] == out[..n];
      if Covers(out, x) {
        var k :| 0 <= k < |out| && out[k].0 <= x < out[k].1;
        assert r[k].0 <= x < r[k].1;
      }
      if x == p { assert r[n].0 <= x < r[n].1; }
      if Covers(r, x) {
        var k :| 0 <= k < |r| && r[k].0 <= x < r[k].1;
        if x != p { assert out[k].0 <= x < out[k].1; }
      }
    } else {
      assert r[..|out|] == out;
      if Covers(out, x) {
        var k :| 0 <= k < |out| && out[k].0 <= x < out[k].1;
        assert r[k].0 <= x < r[k].1;
      }
      if x == p { assert r[|out|].0 <= x < r[|out|].1; }
      if Covers(r, x) {
        var k :| 0 <= k < |r| && r[k].0 <= x < r[k].1;
        if x != p { assert out[k].0 <= x < out[k].1; }
      }
    }
  }

  /** Merging a sorted list loses no offset, adds none, and leaves a gap between every two ranges. */
  lemma {:induction false} MergeCovers(s: seq<nat>, x: nat)
    requires Sorted(s)
    ensures Separated(Merge(s)) && (Covers(Merge(s), x) <==> x in s)
    ensures s != [] ==> Merge(s) != [] && Merge(s)[|Merge(s)| - 1].1 == s[|s| - 1] + 1
    ensures s != [] ==> Merge(s)[|Merge(s)| - 1].0 <= s[|s| - 1]
    decreases |s|
  {
    if s != [] {
      var n := |s| - 1;
      MergeCovers(s[..n], x);
      ExtendCovers(Merge(s[..n]), s[n], x);
      Snoc(s);
    }
  }

  /** Where a query landed: null exactly when the query has no cost, and otherwise separated ranges that cover
      exactly the offsets the terms matched. */
  method FuzzyRanges(m: Matcher, ts: seq<Term>, cls: seq<Class>, low: string) returns (out: Option<seq<Range>>)
    requires m.Valid() && |cls| == |low|
    modifies m.Repr
    ensures m.Valid() && fresh(m.Repr - old(m.Repr))
    ensures out.None? <==> Fold(ts, low, Bonuses(cls)).None?
    ensures out.Some? ==> out.value == Merge(SortedOf(Fold(ts, low, Bonuses(cls)).value.pos))
  {
    var cost, pos := Run(m, ts, cls, low, true);
    if cost == None { return None; }
    var ranges := MergeOffsets(SortedOf(pos));
    out := Some(ranges);
  }

  method MergeOffsets(pos: seq<nat>) returns (out: seq<Range>)
    ensures out == Merge(pos)
  {
    out := [];
    var k := 0;
    while k < |pos|
      invariant 0 <= k <= |pos| && out == Merge(pos[..k])
    {
      var p, n := pos[k], |out| - 1;
      MergeNext(pos, k);
      if out != [] && p <= out[n].1 {
        out := out[..n] + [(out[n].0, Max(out[n].1, p + 1))];
      } else {
        out := out + [(p, p + 1)];
      }
      k := k + 1;
    }
    assert pos[..|pos|] == pos;
  }

  lemma MergeNext(s: seq<nat>, k: nat)
    requires k < |s|
    ensures Merge(s[..k + 1]) == Extend(Merge(s[..k]), s[k])
  {
    assert s[..k + 1][..k] == s[..k];
  }

  /** What `FuzzyRanges` returns, stated of the query: separated ranges whose union is the set of offsets that the
      placements of its terms use, however much the terms overlap. */
  lemma RangesAreTheMatch(ts: seq<Term>, low: string, b: seq<Bonus>, x: nat)
    requires |b| == |low| && Fold(ts, low, b).Some?
    ensures var out := Merge(SortedOf(Fold(ts, low, b).value.pos));
            && Separated(out)
            && (Covers(out, x) <==>
                exists t :: t in ts && Uses(t, low, b, x))
  {
    var pos := Fold(ts, low, b).value.pos;
    SortSorts(pos, x);
    MergeCovers(SortedOf(pos), x);
    CollectedOffsets(ts, low, b, x);
  }
}
