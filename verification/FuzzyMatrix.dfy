/** The matrix pass of the fuzzy matcher (shared/fuzzy.ts, `fuzzyTerm`): the cells as a recursive definition, what a
    traced placement is worth, and when the pass answers null. */
module FuzzyMatrix {
  import opened Basics
  import opened FuzzyScore

  const DP_BUDGET := 0x10_0000
  const MAX_PATTERN := 512

  newtype int16 = x: int | -0x8000 <= x < 0x8000

  /** One matrix: `pat` down, the `width` characters of `low` from `lo` on across. */
  datatype Grid = Grid(pat: string, low: string, bonus: seq<Bonus>, lo: nat, width: nat) {
    predicate Valid() {
      pat != [] && lo + width <= |low| == |bonus|
    }
  }

  /** What one cell keeps: reachability, best score, length of the run ending here, and how it was reached. */
  datatype Cell = Cell(reach: bool, score: int, run: nat, matched: bool)

  const UNREACHED := Cell(false, 0, 0, false)

  function Gap(left: Cell): int {
    if left.reach then left.score + (if left.matched then SCORE_GAP_START else SCORE_GAP_EXTENSION) else -1
  }

  /** The run length and the score of matching `pat[i]` at column `j`, given the cell up and to the left. */
  function Take(g: Grid, i: nat, j: nat, diag: Cell): (r: (nat, int))
    requires g.Valid() && i < |g.pat| && j < g.width && diag.run <= j
    ensures 1 <= r.0 <= diag.run + 1
    ensures i == 0 ==> SCORE_MATCH <= r.1 <= IDEAL_FIRST
    ensures i > 0 ==> diag.score + SCORE_MATCH <= r.1 <= diag.score + IDEAL_REST
  {
    var bonus := g.bonus[g.lo + j];
    if i == 0 then (1, SCORE_MATCH + bonus * BONUS_FIRST_CHAR_MULTIPLIER)
    else
      var run := diag.run + 1;
      var first := g.bonus[g.lo + j - run + 1];
      if run > 1 && bonus >= BONUS_BOUNDARY && bonus > first then (1, diag.score + SCORE_MATCH + bonus)
      else if run > 1 then (run, diag.score + SCORE_MATCH + Max(bonus, Max(BONUS_CONSECUTIVE, first)))
      else (run, diag.score + SCORE_MATCH + bonus)
  }

  function Fill(g: Grid, i: nat, j: nat, left: Cell, diag: Cell): Cell
    requires g.Valid() && i < |g.pat| && j < g.width && diag.run <= j
  {
    var s2 := Gap(left);
    var (run, s1) := if g.low[g.lo + j] == g.pat[i] && (i == 0 || diag.reach) then Take(g, i, j, diag) else (0, -1);
    if s1 >= 0 && s1 >= s2 then Cell(true, s1, run, true)
    else if s2 >= 0 then Cell(true, s2, 0, false)
    else UNREACHED
  }

  /** Row `i`, column `j`.  No cell of the matrix outgrows the ideal of its row, and no run reaches back past the
      start of the window. */
  function At(g: Grid, i: nat, j: nat): (c: Cell)
    requires g.Valid() && i < |g.pat| && j < g.width
    ensures 0 <= c.score <= IDEAL_FIRST + IDEAL_REST * i
    ensures c.run <= i + 1 && c.run <= j + 1
    ensures c.matched ==> c.reach && c.run >= 1 && c.score >= SCORE_MATCH && g.low[g.lo + j] == g.pat[i]
    ensures c.run == 0 <==> !c.matched
    ensures c.reach && !c.matched ==> j > 0
    decreases j
  {
    var left := if j > 0 then At(g, i, j - 1) else UNREACHED;
    var diag := if i > 0 && j > 0 then At(g, i - 1, j - 1) else UNREACHED;
    Fill(g, i, j, left, diag)
  }

  /** The placement a cell's back pointers spell. */
  function Trace(g: Grid, i: nat, j: nat): (p: seq<nat>)
    requires g.Valid() && i < |g.pat| && j < g.width && At(g, i, j).reach
    ensures p != []
    decreases j
  {
    if !At(g, i, j).matched then Trace(g, i, j - 1)
    else (if i == 0 then [] else Trace(g, i - 1, j - 1)) + [g.lo + j]
  }

  /** What a cell promises of a placement: it spells the row's prefix inside the columns so far, the cell holds
      exactly its score less the gap since, and the run plane points at the run's first bonus. */
  predicate Records(g: Grid, i: nat, j: nat, c: Cell, p: seq<nat>)
    requires g.Valid() && i < |g.pat| && j < g.width
  {
    && |p| == i + 1
    && Up(p, g.lo, g.lo + j + 1)
    && Spells(g.pat, 0, g.low, p)
    && c.score == Placement(g.bonus, p) - GapCost(g.lo + j - p[i] as int)
    && (c.matched <==> p[i] == g.lo + j)
    && (c.run > 0 <==> c.matched) && c.run <= j + 1
    && (c.matched ==> Here(g.bonus, g.lo + j - c.run + 1) == RunFirst(g.bonus, p))
  }

  lemma RecordsGap(g: Grid, i: nat, j: nat, left: Cell, diag: Cell, p: seq<nat>)
    requires g.Valid() && i < |g.pat| && 0 < j < g.width && diag.run <= j
    requires left.reach && Records(g, i, j - 1, left, p)
    requires var c := Fill(g, i, j, left, diag); c.reach && !c.matched
    ensures Records(g, i, j, Fill(g, i, j, left, diag), p)
  {
    UpWiden(p, g.lo, g.lo + j, g.lo, g.lo + j + 1);
  }

  lemma RecordsFirst(g: Grid, j: nat, left: Cell)
    requires g.Valid() && j < g.width && Fill(g, 0, j, left, UNREACHED).matched
    ensures Records(g, 0, j, Fill(g, 0, j, left, UNREACHED), [g.lo + j])
  {
    var p := [g.lo + j];
    assert p[..0] == [];
  }

  lemma RecordsMatch(g: Grid, i: nat, j: nat, left: Cell, diag: Cell, q: seq<nat>)
    requires g.Valid() && 0 < i < |g.pat| && 0 < j < g.width && diag.reach
    requires Records(g, i - 1, j - 1, diag, q) && Fill(g, i, j, left, diag).matched
    ensures Records(g, i, j, Fill(g, i, j, left, diag), q + [g.lo + j])
  {
    var p := q + [g.lo + j];
    assert p[..i] == q;
    RunStep(g.bonus, g.lo + j, q);
    TakeScores(g, i, j, diag, q);
  }

  /** Matching one more character adds to a cell exactly what the placement rules add, and moves the run's start
      exactly when they restart the run. */
  lemma TakeScores(g: Grid, i: nat, j: nat, d: Cell, q: seq<nat>)
    requires g.Valid() && 0 < i < |g.pat| && 0 < j < g.width && d.run <= j && |q| == i
    requires q[i - 1] < g.lo + j
    requires d.score == Placement(g.bonus, q) - GapCost(g.lo + j - 1 - q[i - 1] as int)
    requires d.run == 0 <==> q[i - 1] < g.lo + j - 1
    requires d.run > 0 ==> Here(g.bonus, g.lo + j - d.run) == RunFirst(g.bonus, q)
    ensures var p, x := q + [g.lo + j], g.lo + j;
            && p[..i] == q
            && Take(g, i, j, d).1 == Placement(g.bonus, p)
            && Here(g.bonus, x - Take(g, i, j, d).0 + 1) == RunFirst(g.bonus, p)
  {
    RunStep(g.bonus, g.lo + j, q);
  }

  /** A reachable cell was reached from a reachable one. */
  lemma TracesBack(g: Grid, i: nat, j: nat)
    requires g.Valid() && i < |g.pat| && j < g.width && At(g, i, j).reach
    ensures !At(g, i, j).matched ==> j > 0 && At(g, i, j - 1).reach
    ensures At(g, i, j).matched && i > 0 ==> j > 0 && At(g, i - 1, j - 1).reach
  {
  }

  lemma RecordsStart(g: Grid, j: nat)
    requires g.Valid() && j < g.width && At(g, 0, j).matched
    ensures Records(g, 0, j, At(g, 0, j), [g.lo + j])
  {
    RecordsFirst(g, j, if j > 0 then At(g, 0, j - 1) else UNREACHED);
  }

  /** What one cell records, the next one along its trace records in turn. */
  lemma RecordsOn(g: Grid, i: nat, j: nat, q: seq<nat>)
    requires g.Valid() && i < |g.pat| && 0 < j < g.width && At(g, i, j).reach
    requires if At(g, i, j).matched
             then i > 0 && At(g, i - 1, j - 1).reach && Records(g, i - 1, j - 1, At(g, i - 1, j - 1), q)
             else At(g, i, j - 1).reach && Records(g, i, j - 1, At(g, i, j - 1), q)
    ensures Records(g, i, j, At(g, i, j), if At(g, i, j).matched then q + [g.lo + j] else q)
  {
    hide Records, Fill;
    var left := At(g, i, j - 1);
    var diag := if i > 0 then At(g, i - 1, j - 1) else UNREACHED;
    if At(g, i, j).matched { RecordsMatch(g, i, j, left, diag, q); } else { RecordsGap(g, i, j, left, diag, q); }
  }

  /** Soundness of the matrix: every reachable cell holds the score of the very placement it traces back to. */
  lemma {:induction false} MatrixIsSound(g: Grid, i: nat, j: nat)
    requires g.Valid() && i < |g.pat| && j < g.width && At(g, i, j).reach
    ensures Records(g, i, j, At(g, i, j), Trace(g, i, j))
    decreases j
  {
    hide At, Records;
    if !At(g, i, j).matched {
      TracesBack(g, i, j);
      MatrixIsSound(g, i, j - 1);
      RecordsOn(g, i, j, Trace(g, i, j - 1));
    } else if i == 0 {
      RecordsStart(g, j);
      assert Trace(g, 0, j) == [g.lo + j];
    } else {
      TracesBack(g, i, j);
      MatrixIsSound(g, i - 1, j - 1);
      RecordsOn(g, i, j, Trace(g, i - 1, j - 1));
    }
  }

  // ------------------------------------------------------------------ what a cell chooses

  /** What matching `pat[i]` at column `j` is worth: the kept placement up to there, with this offset added. */
  function MatchWorth(g: Grid, i: nat, j: nat): Option<int>
    requires g.Valid() && i < |g.pat| && j < g.width
  {
    if g.low[g.lo + j] != g.pat[i] then None
    else if i == 0 then Some(Placement(g.bonus, [g.lo + j]))
    else if j > 0 && At(g, i - 1, j - 1).reach
    then Some(Placement(g.bonus, Trace(g, i - 1, j - 1) + [g.lo + j]))
    else None
  }

  /** What keeping the placement of the cell to the left is worth, less the gap since: nothing once it is in debt. */
  function GapWorth(g: Grid, i: nat, j: nat): Option<int>
    requires g.Valid() && i < |g.pat| && j < g.width
  {
    if j == 0 || !At(g, i, j - 1).reach then None
    else
      var p := Trace(g, i, j - 1);
      var worth := Placement(g.bonus, p) - GapCost(g.lo + j - p[|p| - 1] as int);
      if worth < 0 then None else Some(worth)
  }

  lemma GapWorthIs(g: Grid, i: nat, j: nat)
    requires g.Valid() && i < |g.pat| && j < g.width
    ensures GapWorth(g, i, j) ==
            if j == 0 || Gap(At(g, i, j - 1)) < 0 then None else Some(Gap(At(g, i, j - 1)))
  {
    hide At, Trace, Placement, Spells;
    if j > 0 && At(g, i, j - 1).reach {
      MatrixIsSound(g, i, j - 1);
    }
  }

  lemma MatchWorthIs(g: Grid, i: nat, j: nat)
    requires g.Valid() && i < |g.pat| && j < g.width
    ensures var diag := if i > 0 && j > 0 then At(g, i - 1, j - 1) else UNREACHED;
            diag.run <= j &&
            MatchWorth(g, i, j) ==
            if g.low[g.lo + j] == g.pat[i] && (i == 0 || diag.reach) then Some(Take(g, i, j, diag).1) else None
  {
    hide At, Trace, Spells;
    if i > 0 && j > 0 && At(g, i - 1, j - 1).reach {
      MatrixIsSound(g, i - 1, j - 1);
      TakeScores(g, i, j, At(g, i - 1, j - 1), Trace(g, i - 1, j - 1));
    }
  }

  /** Every cell keeps the better of its two choices, the match when they tie, and is reached when either can be. */
  lemma KeepsTheBetter(g: Grid, i: nat, j: nat)
    requires g.Valid() && i < |g.pat| && j < g.width
    ensures var c, m, k := At(g, i, j), MatchWorth(g, i, j), GapWorth(g, i, j);
            && (c.matched <==> m.Some? && (k.None? || m.value >= k.value))
            && (c.reach <==> m.Some? || k.Some?)
            && (c.reach ==> c.score == if c.matched then m.value else k.value)
  {
    hide MatchWorth, GapWorth;
    MatchWorthIs(g, i, j);
    GapWorthIs(g, i, j);
  }

  /** So a row never loses more than three a column, whatever matches it takes on the way. */
  lemma {:induction false} LosesAtMostThree(g: Grid, i: nat, j: nat, t: nat)
    requires g.Valid() && i < |g.pat| && j + t < g.width && At(g, i, j).reach && At(g, i, j).score >= 3 * t
    ensures At(g, i, j + t).reach && At(g, i, j + t).score >= At(g, i, j).score - 3 * t
    decreases t
  {
    if t > 0 { LosesAtMostThree(g, i, j, t - 1); }
  }

  /** A placement's score without its run bonuses, and with every skipped character at the price of a first one. */
  function Floor(b: seq<Bonus>, p: seq<nat>): int
    requires p != []
  {
    var n := |p| - 1;
    if n == 0 then SCORE_MATCH + Here(b, p[0]) * BONUS_FIRST_CHAR_MULTIPLIER
    else Floor(b, p[..n]) - 3 * (p[n] as int - p[n - 1] as int - 1) + SCORE_MATCH + Here(b, p[n])
  }

  /** At that price, each prefix of `p` is worth the gap that follows it. */
  predicate Solvent(b: seq<Bonus>, p: seq<nat>)
    requires p != []
  {
    var n := |p| - 1;
    n == 0 || (Floor(b, p[..n]) - 3 * (p[n] as int - p[n - 1] as int - 1) >= 0 && Solvent(b, p[..n]))
  }

  lemma StartReaches(g: Grid, j: nat)
    requires g.Valid() && j < g.width && g.low[g.lo + j] == g.pat[0]
    ensures At(g, 0, j).reach && At(g, 0, j).score >= SCORE_MATCH + g.bonus[g.lo + j] * BONUS_FIRST_CHAR_MULTIPLIER
  {
  }

  lemma NextReaches(g: Grid, i: nat, j: nat)
    requires g.Valid() && 0 < i < |g.pat| && 0 < j < g.width && g.low[g.lo + j] == g.pat[i]
    requires At(g, i - 1, j - 1).reach
    ensures At(g, i, j).reach
    ensures At(g, i, j).score >= At(g, i - 1, j - 1).score + SCORE_MATCH + g.bonus[g.lo + j]
  {
  }

  /** The matrix is never worse than any solvent placement is at its floor. */
  lemma {:induction false} NoneIsMissed(g: Grid, p: seq<nat>)
    requires g.Valid() && p != [] && |p| <= |g.pat|
    requires Up(p, g.lo, g.lo + g.width) && Spells(g.pat, 0, g.low, p) && Solvent(g.bonus, p)
    ensures var n := |p| - 1;
            && At(g, n, p[n] - g.lo).reach
            && At(g, n, p[n] - g.lo).score >= Floor(g.bonus, p)
    decreases |p|
  {
    hide At;
    var n := |p| - 1;
    if n == 0 {
      StartReaches(g, p[0] - g.lo);
    } else {
      UpWiden(p[..n], g.lo, p[n], g.lo, g.lo + g.width);
      NoneIsMissed(g, p[..n]);
      LosesAtMostThree(g, n - 1, p[n - 1] - g.lo, p[n] - 1 - p[n - 1]);
      NextReaches(g, n, p[n] - g.lo);
    }
  }

  // ------------------------------------------------------------------ when the last row holds a match

  /** Each prefix of `p` is worth at least the gap that follows it. */
  predicate Affordable(b: seq<Bonus>, p: seq<nat>)
    requires p != []
  {
    var n := |p| - 1;
    n == 0 || (GapCost(p[n] as int - p[n - 1] as int - 1) <= Placement(b, p[..n]) && Affordable(b, p[..n]))
  }

  lemma AffordsOneMore(g: Grid, i: nat, j: nat, q: seq<nat>)
    requires g.Valid() && 0 < i < |g.pat| && 0 < j < g.width && |q| == i
    requires Records(g, i - 1, j - 1, At(g, i - 1, j - 1), q) && Affordable(g.bonus, q)
    ensures Affordable(g.bonus, q + [g.lo + j])
  {
    hide At, Placement, Up, Spells;
    assert (q + [g.lo + j])[..i] == q;
  }

  /** A traced placement never goes into debt: the matrix only reaches a cell through cells worth at least 0. */
  lemma {:induction false} TraceIsAffordable(g: Grid, i: nat, j: nat)
    requires g.Valid() && i < |g.pat| && j < g.width && At(g, i, j).reach
    ensures Records(g, i, j, At(g, i, j), Trace(g, i, j)) && Affordable(g.bonus, Trace(g, i, j))
    decreases j
  {
    MatrixIsSound(g, i, j);
    if !At(g, i, j).matched {
      TraceIsAffordable(g, i, j - 1);
    } else if i > 0 {
      TraceIsAffordable(g, i - 1, j - 1);
      AffordsOneMore(g, i, j, Trace(g, i - 1, j - 1));
    }
  }

  /** A gap of at most 14 after a cell worth a match still leaves a reachable cell. */
  lemma {:induction false} StaysReachable(g: Grid, i: nat, j: nat, t: nat)
    requires g.Valid() && i < |g.pat| && j + t < g.width && t <= 14
    requires At(g, i, j).reach && At(g, i, j).score >= SCORE_MATCH
    ensures At(g, i, j + t).reach && At(g, i, j + t).score >= SCORE_MATCH - GapCost(t)
    decreases t
  {
    if t > 0 { StaysReachable(g, i, j, t - 1); }
  }

  /** No two consecutive offsets of `p` are more than `n` characters apart. */
  predicate Close(p: seq<nat>, n: nat) {
    forall k :: 0 < k < |p| ==> p[k] - p[k - 1] - 1 <= n
  }

  lemma {:induction false} EmbedsAt(pat: string, low: string, p: seq<nat>, k: nat)
    requires k < |p| && Spells(pat, 0, low, p)
    ensures p[k] < |low| && low[p[k]] == pat[k]
    decreases |p|
  {
    if k < |p| - 1 { EmbedsAt(pat, low, p[..|p| - 1], k); }
  }

  lemma {:induction false} UpNext(p: seq<nat>, lo: nat, hi: nat, k: nat)
    requires 0 < k < |p| && Up(p, lo, hi)
    ensures p[k - 1] < p[k]
    decreases |p|
  {
    if k < |p| - 1 { UpNext(p[..|p| - 1], lo, p[|p| - 1], k); }
  }

  lemma ReachesNext(g: Grid, i: nat, j: nat, j': nat)
    requires g.Valid() && 0 < i < |g.pat| && j < j' < g.width && j' - j - 1 <= 14
    requires At(g, i - 1, j).reach && At(g, i - 1, j).score >= SCORE_MATCH
    requires g.low[g.lo + j'] == g.pat[i]
    ensures At(g, i, j').reach && At(g, i, j').score >= SCORE_MATCH
  {
    StaysReachable(g, i - 1, j, j' - j - 1);
  }

  lemma {:induction false} CloseEmbeddingReaches(g: Grid, p: seq<nat>, i: nat)
    requires g.Valid() && Embeds(g.pat, g.low, g.lo, g.lo + g.width, p) && Close(p, 14) && i < |p|
    ensures g.lo <= p[i] < g.lo + g.width
    ensures At(g, i, p[i] - g.lo).reach && At(g, i, p[i] - g.lo).score >= SCORE_MATCH
    decreases i
  {
    UpAt(p, g.lo, g.lo + g.width, i);
    EmbedsAt(g.pat, g.low, p, i);
    if i > 0 {
      CloseEmbeddingReaches(g, p, i - 1);
      UpNext(p, g.lo, g.lo + g.width, i);
      ReachesNext(g, i, p[i - 1] - g.lo, p[i] - g.lo);
    }
  }

  /** The leftmost best match of the last row among its first `n` columns. */
  function Best(g: Grid, n: nat): (r: Option<nat>)
    requires g.Valid() && n <= g.width
    ensures r.Some? ==> r.value < n && At(g, |g.pat| - 1, r.value).matched
  {
    if n == 0 then None
    else
      var r, c := Best(g, n - 1), At(g, |g.pat| - 1, n - 1);
      if c.matched && (r.None? || c.score > At(g, |g.pat| - 1, r.value).score) then Some(n - 1) else r
  }

  /** `Best` is the maximum of the row, and the first column to attain it. */
  lemma {:induction false} BestIsMaximal(g: Grid, n: nat, j: nat)
    requires g.Valid() && j < n <= g.width && At(g, |g.pat| - 1, j).matched
    ensures Best(g, n).Some?
    ensures var c := At(g, |g.pat| - 1, Best(g, n).value);
            At(g, |g.pat| - 1, j).score <= c.score && (At(g, |g.pat| - 1, j).score == c.score ==> Best(g, n).value <= j)
    decreases n
  {
    hide At;
    if j < n - 1 { BestIsMaximal(g, n - 1, j); }
  }

  lemma {:induction false} ReachedMeansMatched(g: Grid, j: nat)
    requires g.Valid() && j < g.width && At(g, |g.pat| - 1, j).reach
    ensures Best(g, g.width).Some?
    decreases j
  {
    if At(g, |g.pat| - 1, j).matched { BestIsMaximal(g, g.width, j); } else { ReachedMeansMatched(g, j - 1); }
  }

  // ------------------------------------------------------------------ the whole term

  function FirstOf(low: string, c: char): (i: nat)
    ensures i <= |low| && (i < |low| ==> low[i] == c) && forall k :: 0 <= k < i ==> low[k] != c
  {
    if low == [] then 0 else if low[0] == c then 0 else FirstOf(low[1..], c) + 1
  }

  /** One past the last occurrence of `c`, 0 when there is none. */
  function LastOf(low: string, c: char): (i: nat)
    ensures i <= |low| && (i > 0 ==> low[i - 1] == c) && forall k :: i <= k < |low| ==> low[k] != c
  {
    if low == [] then 0 else if low[|low| - 1] == c then |low| else LastOf(low[..|low| - 1], c)
  }

  /** From the first `pat[0]` to past the last `pat[M - 1]`, when the pattern fits in between. */
  function Window(pat: string, low: string): (r: Option<(nat, nat)>)
    requires pat != []
    ensures r.Some? ==> r.value.0 < r.value.1 <= |low|
  {
    var lo, hi := FirstOf(low, pat[0]), LastOf(low, pat[|pat| - 1]);
    if |pat| > |low| || lo == |low| || hi - lo < |pat| then None
    else if |Scan(pat, low, lo, hi)| < |pat| then None
    else Some((lo, hi))
  }

  /** No embedding leaves the window, so it is null exactly for a text the pattern is no subsequence of. */
  lemma WindowDecides(pat: string, low: string)
    requires pat != []
    ensures Window(pat, low).None? ==> !exists p :: Embeds(pat, low, 0, |low|, p)
    ensures Window(pat, low).Some? ==> exists p :: Embeds(pat, low, 0, |low|, p)
  {
    var lo, hi := FirstOf(low, pat[0]), LastOf(low, pat[|pat| - 1]);
    forall p | Embeds(pat, low, 0, |low|, p) ensures Window(pat, low).Some? {
      StaysInWindow(pat, low, p);
      ScanIsLeftmost(pat, low, lo, hi, p);
    }
    if Window(pat, low).Some? {
      var p := Scan(pat, low, lo, hi);
      ScanPlaces(pat, low, lo, hi);
      UpWiden(p, lo, hi, 0, |low|);
      assert Embeds(pat, low, 0, |low|, p);
    }
  }

  lemma StaysInWindow(pat: string, low: string, p: seq<nat>)
    requires pat != [] && Embeds(pat, low, 0, |low|, p)
    ensures var lo, hi := FirstOf(low, pat[0]), LastOf(low, pat[|pat| - 1]);
            lo + |pat| <= hi && Embeds(pat, low, lo, hi, p)
  {
    UpFirst(p, 0, |low|);
    EmbedsAt(pat, low, p, 0);
    EmbedsAt(pat, low, p, |p| - 1);
    var hi := LastOf(low, pat[|pat| - 1]);
    UpWiden(p, p[0], p[|p| - 1] + 1, FirstOf(low, pat[0]), hi);
    UpLength(p, FirstOf(low, pat[0]), hi);
  }

  lemma {:induction false} UpLength(p: seq<nat>, lo: nat, hi: nat)
    requires p != [] && Up(p, lo, hi)
    ensures lo + |p| <= p[|p| - 1] + 1 <= hi
    decreases |p|
  {
    if |p| > 1 { UpLength(p[..|p| - 1], lo, p[|p| - 1]); }
  }

  function GridOf(pat: string, low: string, b: seq<Bonus>, lo: nat, hi: nat): Grid
    requires lo <= hi
  {
    Grid(pat, low, b, lo, hi - lo)
  }

  predicate TooWide(pat: string, lo: nat, hi: nat) {
    |pat| > MAX_PATTERN || |pat| * (hi - lo) > DP_BUDGET
  }

  /** Where a fuzzy term lands, or nowhere. */
  function FuzzyPlacement(pat: string, low: string, b: seq<Bonus>): (r: Option<seq<nat>>)
    requires |b| == |low| && pat != []
  {
    match Window(pat, low)
    case None => None
    case Some((lo, hi)) =>
      if TooWide(pat, lo, hi) then GreedyPlacement(pat, low, lo, hi)
      else
        var g := GridOf(pat, low, b, lo, hi);
        match Best(g, g.width)
        case None => None
        case Some(j) => Some(Trace(g, |pat| - 1, j))
  }

  /** Soundness: an answered term has a placement that spells the pattern in order.  Inside the budget every prefix
      of it also pays for the gap that follows. */
  lemma FuzzyIsSound(pat: string, low: string, b: seq<Bonus>)
    requires |b| == |low| && pat != []
    ensures FuzzyPlacement(pat, low, b).Some? ==>
              var p := FuzzyPlacement(pat, low, b).value;
              && Embeds(pat, low, 0, |low|, p)
              && var (lo, hi) := Window(pat, low).value; (TooWide(pat, lo, hi) || Affordable(b, p))
  {
    if FuzzyPlacement(pat, low, b).Some? {
      var (lo, hi) := Window(pat, low).value;
      if TooWide(pat, lo, hi) {
        GreedyIsSound(pat, low, lo, hi);
      } else {
        var g := GridOf(pat, low, b, lo, hi);
        var j := Best(g, g.width).value;
        TraceIsAffordable(g, |pat| - 1, j);
        var p := Trace(g, |pat| - 1, j);
        UpWiden(p, lo, lo + j + 1, 0, |low|);
      }
    }
  }

  lemma GreedyIsSound(pat: string, low: string, lo: nat, hi: nat)
    requires lo <= hi <= |low| && pat != [] && GreedyPlacement(pat, low, lo, hi).Some?
    ensures Embeds(pat, low, 0, |low|, GreedyPlacement(pat, low, lo, hi).value)
  {
    var s, e := RegionExists(pat, low, lo, hi);
    UpWiden(Scan(pat, low, s, e), s, e, 0, |low|);
  }

  /** Completeness for bounded gaps: a pattern that embeds with no more than 14 characters between neighbours is
      always found.  Past the budget, where the greedy pass answers, any embedding will do. */
  lemma FuzzyIsComplete(pat: string, low: string, b: seq<Bonus>, p: seq<nat>)
    requires |b| == |low| && pat != [] && Embeds(pat, low, 0, |low|, p)
    requires
      || Close(p, 14)
      || (Window(pat, low).Some? &&
          (|pat| > 512 || |pat| * (Window(pat, low).value.1 - Window(pat, low).value.0) > 0x10_0000))
    ensures FuzzyPlacement(pat, low, b).Some?
  {
    hide Up, Spells, Close, Placement, Scan, Back, Trace, At, Best, GreedyRegion;
    WindowDecides(pat, low);
    StaysInWindow(pat, low, p);
    var (lo, hi) := Window(pat, low).value;
    if TooWide(pat, lo, hi) {
      var s, e := RegionExists(pat, low, lo, hi);
    } else {
      var g := GridOf(pat, low, b, lo, hi);
      CloseEmbeddingReaches(g, p, |p| - 1);
      ReachedMeansMatched(g, p[|p| - 1] - lo);
    }
  }

  lemma AbLandsOn(low: string, b: seq<Bonus>, n: nat)
    requires |b| == |low| == n + 3 && 2 * (n + 2) <= DP_BUDGET
    requires low[0] == 'z' && low[1] == 'a' && low[n + 2] == 'b' && b[1] == 0
    requires forall k :: 1 < k < n + 2 ==> low[k] == 'x'
    requires FuzzyPlacement("ab", low, b).Some?
    ensures n <= 14
  {
    FuzzyIsSound("ab", low, b);
    var q := FuzzyPlacement("ab", low, b).value;
    EmbedsAt("ab", low, q, 0);
    EmbedsAt("ab", low, q, 1);
    assert q == [1, n + 2] && q[..1] == [1];
    assert !TooWide("ab", Window("ab", low).value.0, Window("ab", low).value.1);
    assert Placement(b, q[..1]) == SCORE_MATCH;
  }

  lemma AbEmbeds(low: string, n: nat)
    requires |low| == n + 3 && low[1] == 'a' && low[n + 2] == 'b'
    ensures Embeds("ab", low, 0, |low|, [1, n + 2]) && (n <= 14 ==> Close([1, n + 2], 14))
  {
    var p: seq<nat> := [1, n + 2];
    assert p[..1] == [1] && p[..1][..0] == [];
  }

  /** A subsequence the matrix rejects: `ab` against an `a`, then `n` other characters, then a `b`.  Where the `a`
      earns no bonus it is found exactly up to a gap of 14, so the bound above cannot be raised. */
  lemma FourteenIsSharp(low: string, b: seq<Bonus>, n: nat)
    requires |b| == |low| == n + 3 && 2 * (n + 2) <= DP_BUDGET
    requires low[0] == 'z' && low[1] == 'a' && low[n + 2] == 'b' && b[1] == 0
    requires forall k :: 1 < k < n + 2 ==> low[k] == 'x'
    ensures Embeds("ab", low, 0, |low|, [1, n + 2])
    ensures FuzzyPlacement("ab", low, b).Some? <==> n <= 14
  {
    hide FuzzyPlacement, Embeds, Close;
    var p: seq<nat> := [1, n + 2];
    AbEmbeds(low, n);
    if n <= 14 {
      FuzzyIsComplete("ab", low, b, p);
    }
    if FuzzyPlacement("ab", low, b).Some? {
      AbLandsOn(low, b, n);
    }
  }

  lemma BestBeats(g: Grid, j: nat)
    requires g.Valid() && j < g.width && At(g, |g.pat| - 1, j).matched
    ensures Best(g, g.width).Some?
    ensures var k := Best(g, g.width).value;
            Placement(g.bonus, Trace(g, |g.pat| - 1, k)) >= At(g, |g.pat| - 1, j).score
  {
    hide At, Trace, Placement, Up, Spells;
    BestIsMaximal(g, g.width, j);
    MatrixIsSound(g, |g.pat| - 1, Best(g, g.width).value);
  }

  lemma {:induction false} MatchedNoWorse(g: Grid, j: nat) returns (k: nat)
    requires g.Valid() && j < g.width && At(g, |g.pat| - 1, j).reach
    ensures k <= j && At(g, |g.pat| - 1, k).matched && At(g, |g.pat| - 1, k).score >= At(g, |g.pat| - 1, j).score
    decreases j
  {
    if At(g, |g.pat| - 1, j).matched { k := j; } else { k := MatchedNoWorse(g, j - 1); }
  }

  lemma GridIsNoWorse(g: Grid, p: seq<nat>)
    requires g.Valid() && Embeds(g.pat, g.low, g.lo, g.lo + g.width, p) && Solvent(g.bonus, p)
    ensures Best(g, g.width).Some?
    ensures Placement(g.bonus, Trace(g, |g.pat| - 1, Best(g, g.width).value)) >= Floor(g.bonus, p)
  {
    hide Spells, Placement, Floor, Solvent, Trace, At, Best;
    NoneIsMissed(g, p);
    var k := MatchedNoWorse(g, p[|p| - 1] - g.lo);
    BestBeats(g, k);
  }

  /** Up to 512 characters and a million cells, every embedding of the pattern that stays solvent is a lower bound: the
      term is answered, and the answer scores at least that embedding's floor. */
  lemma FuzzyIsNoWorse(pat: string, low: string, b: seq<Bonus>, p: seq<nat>)
    requires |b| == |low| && pat != [] && Embeds(pat, low, 0, |low|, p) && Solvent(b, p)
    requires Window(pat, low).Some? ==>
               |pat| <= 512 && |pat| * (Window(pat, low).value.1 - Window(pat, low).value.0) <= 0x10_0000
    ensures FuzzyPlacement(pat, low, b).Some? && FuzzyPlacement(pat, low, b).value != []
    ensures Placement(b, FuzzyPlacement(pat, low, b).value) >= Floor(b, p)
  {
    hide Up, Spells, Placement, Floor, Solvent, Scan, Trace, At, Best;
    WindowDecides(pat, low);
    StaysInWindow(pat, low, p);
    var (lo, hi) := Window(pat, low).value;
    GridIsNoWorse(GridOf(pat, low, b, lo, hi), p);
  }

  /** For a single character that bound is the score itself, so the answer is the best placement there is. */
  lemma SingleIsBest(pat: string, low: string, b: seq<Bonus>, x: nat)
    requires |b| == |low| && |pat| == 1 && x < |low| && low[x] == pat[0] && |low| <= DP_BUDGET
    ensures FuzzyPlacement(pat, low, b).Some? && FuzzyPlacement(pat, low, b).value != []
    ensures Placement(b, FuzzyPlacement(pat, low, b).value) >= Placement(b, [x])
  {
    hide FuzzyPlacement, Window;
    var p: seq<nat> := [x];
    assert p[..0] == [] && Up(p[..0], 0, x) && Spells(pat, 0, low, p[..0]);
    assert Embeds(pat, low, 0, |low|, p) && Floor(b, p) == Placement(b, p);
    FuzzyIsNoWorse(pat, low, b, p);
  }

  /** Past a match, where its character does not come again, a row stays reachable exactly as long as the match
      pays for the gap. */
  lemma {:induction false} DecaysExactly(g: Grid, i: nat, j: nat, t: nat)
    requires g.Valid() && i < |g.pat| && j + t < g.width && At(g, i, j).matched
    requires forall x :: g.lo + j < x <= g.lo + j + t ==> g.low[x] != g.pat[i]
    ensures At(g, i, j + t).reach <==> GapCost(t) <= At(g, i, j).score
    ensures At(g, i, j + t).reach ==> At(g, i, j + t).score == At(g, i, j).score - GapCost(t)
    ensures At(g, i, j + t).matched <==> t == 0
    decreases t
  {
    if t > 0 { DecaysExactly(g, i, j, t - 1); }
  }

  /** The second `a` ties with the gap behind the first, takes the cell, and cannot pay for the gap before the `b`. */
  lemma SecondTakesTheCell(g: Grid)
    requires g.Valid() && g.pat == "ab" && g.lo == 0 && g.width == 35
    requires g.low[0] == 'a' && g.low[18] == 'a' && g.bonus[0] == 10 && g.bonus[18] == 0
    requires forall k :: 0 < k < 34 && k != 18 ==> g.low[k] == 'x'
    ensures !At(g, 0, 33).reach
  {
    DecaysExactly(g, 0, 0, 17);
    assert At(g, 0, 18) == Fill(g, 0, 18, At(g, 0, 17), UNREACHED);
    DecaysExactly(g, 0, 18, 15);
  }

  lemma FirstPays(low: string, b: seq<Bonus>)
    requires |low| == |b| == 35 && low[0] == 'a' && low[34] == 'b' && b[0] == 10
    ensures Embeds("ab", low, 0, |low|, [0, 34]) && Affordable(b, [0, 34])
  {
    var p: seq<nat> := [0, 34];
    assert p[..1] == [0] && p[..1][..0] == [];
  }

  /** With the cell before it unreached, the only `b` is no match either. */
  lemma LastIsUnmatched(g: Grid, j: nat)
    requires g.Valid() && g.pat == "ab" && g.lo == 0 && j < g.width == 35 && !At(g, 0, 33).reach
    requires forall k :: 0 <= k < 34 ==> g.low[k] != 'b'
    ensures !At(g, 1, j).matched
  {
    if j == 34 { assert At(g, 1, 34) == Fill(g, 1, 34, At(g, 1, 33), At(g, 0, 33)); }
  }

  lemma {:induction false} NoneIsBest(g: Grid, n: nat)
    requires g.Valid() && g.pat == "ab" && g.lo == 0 && n <= g.width == 35 && !At(g, 0, 33).reach
    requires forall k :: 0 <= k < 34 ==> g.low[k] != 'b'
    ensures Best(g, n).None?
    decreases n
  {
    hide At;
    if n > 0 {
      LastIsUnmatched(g, n - 1);
      NoneIsBest(g, n - 1);
    }
  }

  /** Being affordable is not enough: here the matrix drops the first `a`, which reaches the `b`, for the second,
      which does not.  A tie goes to the match and restarts the gap, so whether a placement is found depends on
      more than the placement. */
  lemma AffordableIsNotEnough(low: string, b: seq<Bonus>)
    requires |low| == |b| == 35 && low[0] == 'a' && low[18] == 'a' && low[34] == 'b' && b[0] == 10 && b[18] == 0
    requires forall k :: 0 < k < 34 && k != 18 ==> low[k] == 'x'
    ensures Embeds("ab", low, 0, |low|, [0, 34]) && Affordable(b, [0, 34])
    ensures FuzzyPlacement("ab", low, b).None?
  {
    hide Embeds, Affordable, At, Best, Scan, Trace;
    FirstPays(low, b);
    WindowDecides("ab", low);
    var g := GridOf("ab", low, b, 0, 35);
    SecondTakesTheCell(g);
    NoneIsBest(g, 35);
  }

  lemma TwoStartsRow(g: Grid, n: nat)
    requires g.Valid() && g.pat == "ab" && g.lo == 0 && g.width == n + 3
    requires g.low[0] == 'a' && g.low[n + 1] == 'a' && forall k :: 0 < k <= n ==> g.low[k] == 'x'
    ensures At(g, 0, n + 1).reach
    ensures Trace(g, 0, n + 1) == if 2 * g.bonus[n + 1] >= 2 * g.bonus[0] - GapCost(n + 1) then [n + 1] else [0]
  {
    DecaysExactly(g, 0, 0, n);
    GapWorthIs(g, 0, n + 1);
    KeepsTheBetter(g, 0, n + 1);
    MatchWorthIs(g, 0, n + 1);
    hide At, GapWorth, MatchWorth;
    if !At(g, 0, n + 1).matched {
      TracesBack(g, 0, n + 1);
      MatrixIsSound(g, 0, n);
      var p := Trace(g, 0, n);
      EmbedsAt(g.pat, g.low, p, 0);
      assert p == [0];
    }
  }

  lemma TwoStartsFound(low: string, b: seq<Bonus>, n: nat)
    requires |b| == |low| == n + 3 && 2 * (n + 3) <= DP_BUDGET
    requires low[0] == 'a' && low[n + 1] == 'a' && low[n + 2] == 'b'
    ensures FuzzyPlacement("ab", low, b).Some?
    ensures Window("ab", low) == Some((0, n + 3))
  {
    hide FuzzyPlacement, Scan;
    var p: seq<nat> := [n + 1, n + 2];
    UpMeans(p, 0, |low|);
    SpellsMeans("ab", low, p);
    FuzzyIsComplete("ab", low, b, p);
    WindowDecides("ab", low);
  }

  /** Two places to start: the term begins at the later `a`, next to the `b`, exactly when matching there is worth no
      less than carrying the first one over the gap - for every gap and every pair of bonuses. */
  lemma LaterStartExactly(low: string, b: seq<Bonus>, n: nat)
    requires |b| == |low| == n + 3 && 2 * (n + 3) <= DP_BUDGET
    requires low[0] == 'a' && low[n + 1] == 'a' && low[n + 2] == 'b' && forall k :: 0 < k <= n ==> low[k] == 'x'
    ensures FuzzyPlacement("ab", low, b) ==
            Some([if 2 * b[n + 1] >= 2 * b[0] - GapCost(n + 1) then n + 1 else 0, n + 2])
  {
    hide Scan, At, GapCost;
    TwoStartsFound(low, b, n);
    var g := GridOf("ab", low, b, 0, n + 3);
    TwoStartsRow(g, n);
    var j := Best(g, g.width).value;
    assert j == n + 2;
    var first := if 2 * b[n + 1] >= 2 * b[0] - GapCost(n + 1) then n + 1 else 0;
    assert Trace(g, 1, j) == Trace(g, 0, n + 1) + [n + 2] == [first, n + 2];
    assert !TooWide("ab", 0, n + 3);
    assert FuzzyPlacement("ab", low, b) == Some(Trace(g, 1, j));
  }
}
