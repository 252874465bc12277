/** The matrix pass as the source runs it (shared/fuzzy.ts, `fuzzyTerm`): loops over 16-bit buffers that outlive a
    call, and the traceback, proved to compute the definition. */
module FuzzyMatcher {
  import opened Basics
  import opened FuzzyScore
  import opened FuzzyMatrix

  // ------------------------------------------------------------------ the matrix, row by row

  function Row(g: Grid, i: nat, n: nat): (r: seq<Cell>)
    requires g.Valid() && i < |g.pat| && n <= g.width
    ensures |r| == n && forall j :: 0 <= j < n ==> r[j] == At(g, i, j)
  {
    seq(n, j requires 0 <= j < n => At(g, i, j))
  }

  /** The first `i` rows of the matrix, one after another, as the buffers store them. */
  function Rows(g: Grid, i: nat): (r: seq<Cell>)
    requires g.Valid() && i <= |g.pat|
    ensures |r| == i * g.width
  {
    if i == 0 then [] else Rows(g, i - 1) + Row(g, i - 1, g.width)
  }

  lemma {:induction false} RowsAt(g: Grid, n: nat, i: nat, j: nat)
    requires g.Valid() && i < n <= |g.pat| && j < g.width
    ensures 0 <= i * g.width + j < n * g.width && Rows(g, n)[i * g.width + j] == At(g, i, j)
    decreases n
  {
    assert n * g.width == (n - 1) * g.width + g.width;
    if i < n - 1 { RowsAt(g, n - 1, i, j); }
  }

  lemma RowFits(m: nat, w: nat, i: nat)
    requires i < m
    ensures i * w + w <= m * w
  {
    assert (m - 1 - i) * w >= 0;
    assert m * w == (m - 1 - i) * w + i * w + w;
  }

  /** Within the pattern limit no cell outgrows its 16 bits. */
  lemma CellFits(g: Grid, i: nat, j: nat)
    requires g.Valid() && i < |g.pat| <= MAX_PATTERN && j < g.width
    ensures At(g, i, j).score <= 13322 < 0x8000 && At(g, i, j).run <= 512
  {
    assert IDEAL_FIRST + IDEAL_REST * i <= IDEAL_FIRST + IDEAL_REST * 511 == 13322;
  }

  /** What the buffers hold for `cells`, whatever lies past them. */
  ghost predicate Holds(H: array<int16>, C: array<int16>, R: array<bool>, cells: seq<Cell>)
    reads H, C, R
  {
    && |cells| <= H.Length && |cells| <= C.Length && |cells| <= R.Length
    && forall a :: 0 <= a < |cells| ==>
                     H[a] as int == cells[a].score && C[a] as int == cells[a].run && R[a] == cells[a].reach
  }

  ghost predicate Traces(trace: array?<bool>, cells: seq<Cell>)
    reads if trace == null then {} else {trace}
  {
    trace != null ==> |cells| <= trace.Length && forall a :: 0 <= a < |cells| ==> trace[a] == cells[a].matched
  }

  /** One cell, from the cell to its left and the one up and to the left, as the loop body computes it. */
  method FillCell(g: Grid, B: array<int16>, i: nat, j: nat, ghost leftCell: Cell, ghost diag: Cell,
                  inGap: bool, left: int, diagReach: bool, diagScore: int, diagRun: nat)
    returns (match_: bool, best: int, consecutive: nat)
    requires g.Valid() && i < |g.pat| && j < g.width && g.width <= B.Length
    requires forall k :: 0 <= k < g.width ==> B[k] as int == g.bonus[g.lo + k]
    requires diag.run <= j && diag.score >= 0 && leftCell.score >= 0
    requires left == (if leftCell.reach then leftCell.score else -1)
    requires inGap == (leftCell.reach && !leftCell.matched)
    requires diagReach == diag.reach && diagScore == diag.score && diagRun == diag.run
    requires diag.reach ==> j > 0
    ensures Fill(g, i, j, leftCell, diag) ==
            Cell(best >= 0, if best > 0 then best else 0, if match_ then consecutive else 0, match_)
  {
    var s2 := if left < 0 then -1 else left + if inGap then SCORE_GAP_EXTENSION else SCORE_GAP_START;
    var s1 := -1;
    consecutive := 0;
    if g.low[g.lo + j] == g.pat[i] && (i == 0 || (j > 0 && diagReach)) {
      var bonus := B[j] as int;
      if i == 0 {
        s1 := SCORE_MATCH + bonus * BONUS_FIRST_CHAR_MULTIPLIER;
        consecutive := 1;
      } else {
        consecutive := diagRun + 1;
        if consecutive > 1 {
          var first := B[j - consecutive + 1] as int;
          if bonus >= BONUS_BOUNDARY && bonus > first {
            consecutive := 1;
          } else {
            bonus := Max(bonus, Max(BONUS_CONSECUTIVE, first));
          }
        }
        s1 := diagScore + SCORE_MATCH + bonus;
      }
      assert (consecutive, s1) == Take(g, i, j, diag);
    }
    match_ := s1 >= 0 && s1 >= s2;
    best := if match_ then s1 else s2;
  }

  /** Writes one cell after the ones already held.  The conversions are where the 16-bit buffers could overflow. */
  method Store(H: array<int16>, C: array<int16>, R: array<bool>, trace: array?<bool>, at: nat,
               match_: bool, best: int, consecutive: nat, ghost cells: seq<Cell>)
    requires H != C && trace != R && |cells| == at
    requires at < H.Length && at < C.Length && at < R.Length && (trace != null ==> at < trace.Length)
    requires best < 0x8000 && (match_ ==> consecutive < 0x8000)
    requires Holds(H, C, R, cells) && Traces(trace, cells)
    modifies H, C, R, trace
    ensures var c := Cell(best >= 0, if best > 0 then best else 0, if match_ then consecutive else 0, match_);
            Holds(H, C, R, cells + [c]) && Traces(trace, cells + [c])
  {
    R[at] := best >= 0;
    H[at] := if best > 0 then best as int16 else 0;
    C[at] := if match_ then consecutive as int16 else 0;
    if trace != null { trace[at] := match_; }
  }

  /** What the buffers say of one cell already written. */
  method Load(H: array<int16>, C: array<int16>, R: array<bool>, at: nat, ghost cells: seq<Cell>)
    returns (reach: bool, score: int, run: int)
    requires at < |cells| && Holds(H, C, R, cells)
    ensures reach == cells[at].reach && score == cells[at].score && run == cells[at].run
  {
    reach, score, run := R[at], H[at] as int, C[at] as int;
  }

  /** The cells written so far, read from the current one: its left neighbour is one back, the cell up and to the
      left a row and one back. */
  lemma Neighbours(g: Grid, i: nat, j: nat)
    requires g.Valid() && i < |g.pat| && j <= g.width
    ensures var cells, at := Rows(g, i) + Row(g, i, j), i * g.width + j;
            && |cells| == at
            && (j > 0 ==> cells[at - 1] == At(g, i, j - 1))
            && (j > 0 && i > 0 ==> at - g.width - 1 >= 0 && cells[at - g.width - 1] == At(g, i - 1, j - 1))
  {
    if i > 0 && j > 0 {
      RowsAt(g, i, i - 1, j - 1);
      assert (i - 1) * g.width + (j - 1) == i * g.width + j - g.width - 1;
    }
  }

  /** The matrix pass.  Every value stored fits its 16-bit cell, every cell read was written in this pass, the buffers
      end up holding the matrix, and what comes out is the leftmost best match of its last row: nothing depends on what
      the buffers held before. */
  method FillMatrix(g: Grid, B: array<int16>, H: array<int16>, C: array<int16>, R: array<bool>, trace: array?<bool>)
    returns (maxScore: int, maxAt: int)
    requires g.Valid() && |g.pat| <= MAX_PATTERN && g.width > 0
    requires g.width <= B.Length && |g.pat| * g.width <= H.Length
    requires |g.pat| * g.width <= C.Length && |g.pat| * g.width <= R.Length
    requires trace != null ==> |g.pat| * g.width == trace.Length && trace != R
    requires B != H && B != C && H != C
    requires forall k :: 0 <= k < g.width ==> B[k] as int == g.bonus[g.lo + k]
    modifies H, C, R, trace
    ensures Leading(g, g.width, maxScore, maxAt)
    ensures Holds(H, C, R, Rows(g, |g.pat|)) && Traces(trace, Rows(g, |g.pat|))
  {
    var M, W := |g.pat|, g.width;
    maxScore, maxAt := -1, -1;
    ghost var cells: seq<Cell> := [];
    var i := 0;
    while i < M
      invariant 0 <= i <= M
      invariant cells == Rows(g, i)
      invariant Holds(H, C, R, cells) && Traces(trace, cells)
      invariant i < M ==> maxAt == -1 && maxScore == -1
      invariant i == M ==> Leading(g, W, maxScore, maxAt)
    {
      RowFits(M, W, i);
      maxScore, maxAt := FillRow(g, B, H, C, R, trace, i);
      cells := Rows(g, i + 1);
      i := i + 1;
    }
  }

  /** The state of the pass before column `j` of row `i`. */
  ghost predicate Filling(g: Grid, i: nat, j: nat, H: array<int16>, C: array<int16>, R: array<bool>,
                          trace: array?<bool>,
                          inGap: bool, maxScore: int, maxAt: int)
    requires g.Valid() && i < |g.pat| && j <= g.width
    reads H, C, R, if trace == null then {} else {trace}
  {
    var cells := Rows(g, i) + Row(g, i, j);
    && Holds(H, C, R, cells) && Traces(trace, cells)
    && inGap == (j > 0 && At(g, i, j - 1).reach && !At(g, i, j - 1).matched)
    && (if i < |g.pat| - 1 then maxScore == -1 && maxAt == -1 else Leading(g, j, maxScore, maxAt))
  }

  /** One row of the matrix pass. */
  method FillRow(g: Grid, B: array<int16>, H: array<int16>, C: array<int16>, R: array<bool>, trace: array?<bool>,
                 i: nat)
    returns (maxScore: int, maxAt: int)
    requires g.Valid() && i < |g.pat| <= MAX_PATTERN && g.width > 0
    requires i * g.width + g.width <= H.Length && i * g.width + g.width <= C.Length && i * g.width + g.width <= R.Length
    requires trace != null ==> i * g.width + g.width <= trace.Length && trace != R
    requires B != H && B != C && H != C && g.width <= B.Length
    requires forall k :: 0 <= k < g.width ==> B[k] as int == g.bonus[g.lo + k]
    requires Holds(H, C, R, Rows(g, i)) && Traces(trace, Rows(g, i))
    modifies H, C, R, trace
    ensures Holds(H, C, R, Rows(g, i + 1)) && Traces(trace, Rows(g, i + 1))
    ensures i < |g.pat| - 1 ==> maxScore == -1 && maxAt == -1
    ensures i == |g.pat| - 1 ==> Leading(g, g.width, maxScore, maxAt)
  {
    maxScore, maxAt := -1, -1;
    var inGap := false;
    var j := 0;
    assert Rows(g, i) + Row(g, i, 0) == Rows(g, i);
    while j < g.width
      invariant 0 <= j <= g.width && Filling(g, i, j, H, C, R, trace, inGap, maxScore, maxAt)
      invariant forall k :: 0 <= k < g.width ==> B[k] as int == g.bonus[g.lo + k]
    {
      inGap, maxScore, maxAt := FillColumn(g, B, H, C, R, trace, i, j, inGap, maxScore, maxAt);
      j := j + 1;
    }
  }

  lemma RowLength(g: Grid, i: nat, j: nat)
    requires g.Valid() && i < |g.pat| && j < g.width
    ensures |Rows(g, i) + Row(g, i, j)| == i * g.width + j < i * g.width + g.width
  {
  }

  /** What the loop body reads before it writes: all of it was written earlier in this pass. */
  method LoadNeighbours(g: Grid, H: array<int16>, C: array<int16>, R: array<bool>, i: nat, j: nat)
    returns (left: int, diagReach: bool, diagScore: int, diagRun: nat)
    requires g.Valid() && i < |g.pat| && j < g.width
    requires Holds(H, C, R, Rows(g, i) + Row(g, i, j))
    ensures var leftCell := if j > 0 then At(g, i, j - 1) else UNREACHED;
            left == if leftCell.reach then leftCell.score else -1
    ensures var diag := if i > 0 && j > 0 then At(g, i - 1, j - 1) else UNREACHED;
            diagReach == diag.reach && diagScore == diag.score && diagRun == diag.run
  {
    Neighbours(g, i, j);
    ghost var cells := Rows(g, i) + Row(g, i, j);
    var at := i * g.width + j;
    left := -1;
    if j > 0 {
      var reach, score, _ := Load(H, C, R, at - 1, cells);
      if reach { left := score; }
    }
    diagReach, diagScore, diagRun := false, 0, 0;
    if i > 0 && j > 0 {
      diagReach, diagScore, diagRun := Load(H, C, R, at - g.width - 1, cells);
    }
  }

  /** The body of the inner loop. */
  method FillColumn(g: Grid, B: array<int16>, H: array<int16>, C: array<int16>, R: array<bool>, trace: array?<bool>,
                    i: nat, j: nat, wasInGap: bool, maxScore: int, maxAt: int)
    returns (inGap: bool, maxScore': int, maxAt': int)
    requires g.Valid() && i < |g.pat| <= MAX_PATTERN && j < g.width
    requires i * g.width + g.width <= H.Length && i * g.width + g.width <= C.Length && i * g.width + g.width <= R.Length
    requires trace != null ==> i * g.width + g.width <= trace.Length && trace != R
    requires B != H && B != C && H != C && g.width <= B.Length
    requires forall k :: 0 <= k < g.width ==> B[k] as int == g.bonus[g.lo + k]
    requires Filling(g, i, j, H, C, R, trace, wasInGap, maxScore, maxAt)
    modifies H, C, R, trace
    ensures Filling(g, i, j + 1, H, C, R, trace, inGap, maxScore', maxAt')
  {
    ghost var leftCell := if j > 0 then At(g, i, j - 1) else UNREACHED;
    ghost var diag := if i > 0 && j > 0 then At(g, i - 1, j - 1) else UNREACHED;
    var left, diagReach, diagScore, diagRun := LoadNeighbours(g, H, C, R, i, j);
    var match_, best, consecutive :=
      FillCell(g, B, i, j, leftCell, diag, wasInGap, left, diagReach, diagScore, diagRun);
    assert At(g, i, j) == Fill(g, i, j, leftCell, diag);
    CellFits(g, i, j);
    LeadingStep(g, i, j, maxScore, maxAt);
    RowStep(g, i, j);
    RowLength(g, i, j);
    Store(H, C, R, trace, i * g.width + j, match_, best, consecutive, Rows(g, i) + Row(g, i, j));
    inGap := !match_ && best >= 0;
    maxScore', maxAt' := maxScore, maxAt;
    if i == |g.pat| - 1 && match_ && best > maxScore {
      maxScore', maxAt' := best, j;
    }
  }

  lemma RowStep(g: Grid, i: nat, j: nat)
    requires g.Valid() && i < |g.pat| && j < g.width
    ensures Rows(g, i) + Row(g, i, j) + [At(g, i, j)] == Rows(g, i) + Row(g, i, j + 1)
  {
    assert Row(g, i, j + 1) == Row(g, i, j) + [At(g, i, j)];
  }

  lemma LeadingStep(g: Grid, i: nat, n: nat, maxScore: int, maxAt: int)
    requires g.Valid() && n < g.width && i < |g.pat|
    ensures i == |g.pat| - 1 && Leading(g, n, maxScore, maxAt) ==>
            var c := At(g, |g.pat| - 1, n);
            if c.matched && c.score > maxScore then Leading(g, n + 1, c.score, n)
            else Leading(g, n + 1, maxScore, maxAt)
  {
  }

  /** The running maximum of the last row. */
  ghost predicate Leading(g: Grid, n: nat, maxScore: int, maxAt: int)
    requires g.Valid() && n <= g.width
  {
    match Best(g, n)
    case None => maxAt == -1 && maxScore == -1
    case Some(j) => maxAt == j && maxScore == At(g, |g.pat| - 1, j).score
  }

  // ------------------------------------------------------------------ one fuzzy term

  lemma TraceStep(g: Grid, i: nat, j: nat, pos: seq<nat>)
    requires g.Valid() && i < |g.pat| && j < g.width && At(g, i, j).reach
    ensures !At(g, i, j).matched ==> j > 0 && At(g, i, j - 1).reach && Trace(g, i, j) + pos == Trace(g, i, j - 1) + pos
    ensures At(g, i, j).matched && i == 0 ==> Trace(g, i, j) + pos == [g.lo + j] + pos
    ensures At(g, i, j).matched && i > 0 ==>
              j > 0 && At(g, i - 1, j - 1).reach && Trace(g, i, j) + pos == Trace(g, i - 1, j - 1) + ([g.lo + j] + pos)
  {
    hide At;
    TracesBack(g, i, j);
    if At(g, i, j).matched {
      var before := if i == 0 then [] else Trace(g, i - 1, j - 1);
      assert (before + [g.lo + j]) + pos == before + ([g.lo + j] + pos);
    }
  }

  /** Follows the back pointers from column `maxAt` of the last row; offsets come out last first. */
  method TraceBack(g: Grid, trace: array<bool>, maxAt: nat) returns (pos: seq<nat>)
    requires g.Valid() && maxAt < g.width && At(g, |g.pat| - 1, maxAt).reach
    requires Traces(trace, Rows(g, |g.pat|))
    ensures pos == Trace(g, |g.pat| - 1, maxAt)
  {
    hide At, Trace;
    var M, W := |g.pat|, g.width;
    pos := [];
    ghost var all := Trace(g, M - 1, maxAt);
    var i, j := M - 1, maxAt as int;
    assert all + [] == all;
    while i >= 0 && j >= 0
      invariant -1 <= i < M && -1 <= j < W
      invariant i >= 0 ==> j >= 0 && At(g, i, j).reach && all == Trace(g, i, j) + pos
      invariant i < 0 ==> all == pos
      decreases j
    {
      RowsAt(g, M, i, j);
      TraceStep(g, i, j, pos);
      var at := i * W + j;
      if trace[at] {
        pos := [g.lo + j] + pos;
        i := i - 1;
      }
      j := j - 1;
    }
  }

  /** The buffers a palette keeps between candidates.  They only ever grow. */
  class Matcher {
    var bufB: array<int16>
    var bufH: array<int16>
    var bufC: array<int16>
    var bufR: array<bool>
    ghost var Repr: set<object>

    ghost predicate Valid()
      reads this, Repr
    {
      && Repr == {this, bufB, bufH, bufC, bufR}
      && bufB != bufH && bufB != bufC && bufH != bufC
      && bufH.Length == bufC.Length == bufR.Length
    }

    constructor ()
      ensures Valid() && fresh(Repr)
    {
      bufB := new int16[0];
      bufH := new int16[0];
      bufC := new int16[0];
      bufR := new bool[0];
      new;
      Repr := {this, bufB, bufH, bufC, bufR};
    }

    /** Room for a window of `w` columns and its bonuses. */
    method LoadBonuses(cls: seq<Class>, minIdx: nat, w: nat)
      requires Valid() && minIdx + w <= |cls|
      modifies Repr
      ensures Valid() && fresh(Repr - old(Repr)) && bufH == old(bufH) && bufC == old(bufC) && bufR == old(bufR)
      ensures w <= bufB.Length
      ensures forall k :: 0 <= k < w ==> bufB[k] as int == Bonuses(cls)[minIdx + k]
    {
      if bufB.Length < w {
        bufB := new int16[w * 2];
        Repr := {this, bufB, bufH, bufC, bufR};
      }
      var prev := if minIdx > 0 then cls[minIdx - 1] else White;
      var j := 0;
      while j < w
        invariant 0 <= j <= w && prev == if minIdx + j == 0 then White else cls[minIdx + j - 1]
        invariant forall k :: 0 <= k < j ==> bufB[k] as int == Bonuses(cls)[minIdx + k]
        invariant Valid() && w <= bufB.Length
        modifies bufB
      {
        var cur := cls[minIdx + j];
        bufB[j] := BonusFor(prev, cur) as int16;
        prev := cur;
        j := j + 1;
      }
    }

    method Grow(size: nat)
      requires Valid()
      modifies this
      ensures Valid() && fresh(Repr - old(Repr)) && bufB == old(bufB)
      ensures size <= bufH.Length
    {
      if bufH.Length < size {
        bufH := new int16[size * 2];
        bufC := new int16[size * 2];
        bufR := new bool[size * 2];
        Repr := {this, bufB, bufH, bufC, bufR};
      }
    }

    /** One fuzzy term.  The answer is the placement `FuzzyPlacement` names and its score, whatever an earlier call
        left in the buffers and whether or not the caller wants the offsets. */
    method FuzzyTerm(pat: string, cls: seq<Class>, low: string, want: bool) returns (r: Option<int>, pos: seq<nat>)
      requires Valid() && |cls| == |low|
      modifies Repr
      ensures Valid() && fresh(Repr - old(Repr))
      ensures pat == [] ==> r == Some(0) && pos == []
      ensures pat != [] ==> IsTermResult(FuzzyPlacement(pat, low, Bonuses(cls)), Bonuses(cls), want, r, pos)
    {
      if pat == [] { return Some(0), []; }
      var w := FindWindow(pat, low);
      if w.None? { return None, []; }
      var (minIdx, maxIdx) := w.value;
      if |pat| > MAX_PATTERN || |pat| * (maxIdx - minIdx) > DP_BUDGET {
        r, pos := GreedyTerm(pat, cls, low, minIdx, maxIdx, want);
      } else {
        var g := GridOf(pat, low, Bonuses(cls), minIdx, maxIdx);
        MatrixAnswer(pat, low, Bonuses(cls), minIdx, maxIdx);
        r, pos := MatrixTerm(g, cls, want);
      }
    }

    /** Grows the buffers as needed, fills them, and reads the answer and its offsets back out of them. */
    method MatrixTerm(g: Grid, cls: seq<Class>, want: bool) returns (r: Option<int>, pos: seq<nat>)
      requires Valid() && g.Valid() && g.bonus == Bonuses(cls) && g.width > 0 && |g.pat| <= MAX_PATTERN
      modifies Repr
      ensures Valid() && fresh(Repr - old(Repr))
      ensures match Best(g, g.width)
              case None => r == None && pos == []
              case Some(j) =>
                && r == Some(At(g, |g.pat| - 1, j).score)
                && pos == if want then Trace(g, |g.pat| - 1, j) else []
    {
      LoadBonuses(cls, g.lo, g.width);
      assert |g.pat| * g.width >= 0;
      Grow(|g.pat| * g.width);
      var trace: array?<bool> := null;
      if want { trace := new bool[|g.pat| * g.width]; }
      var maxScore, maxAt := FillMatrix(g, bufB, bufH, bufC, bufR, trace);
      if maxAt < 0 { return None, []; }
      pos := [];
      if trace != null { pos := TraceBack(g, trace, maxAt); }
      r := Some(maxScore);
    }
  }

  lemma MatrixAnswer(pat: string, low: string, b: seq<Bonus>, lo: nat, hi: nat)
    requires |b| == |low| && pat != [] && Window(pat, low) == Some((lo, hi)) && !TooWide(pat, lo, hi)
    ensures var g, p := GridOf(pat, low, b, lo, hi), FuzzyPlacement(pat, low, b);
            match Best(g, g.width)
            case None => p == None
            case Some(j) =>
              && p == Some(Trace(g, |pat| - 1, j)) && p.value != []
              && At(g, |pat| - 1, j).score == Placement(b, p.value)
  {
    hide At, Trace, Best, Window, Placement, GreedyPlacement;
    var g := GridOf(pat, low, b, lo, hi);
    if Best(g, g.width).Some? {
      MatrixIsSound(g, |pat| - 1, Best(g, g.width).value);
    }
  }

  /** An answer and the offsets handed back with it agree with a placement and with each other. */
  ghost predicate IsTermResult(p: Option<seq<nat>>, b: seq<Bonus>, want: bool, r: Option<int>, pos: seq<nat>) {
    match p
    case None => r == None && pos == []
    case Some(q) => q != [] && r == Some(Placement(b, q)) && pos == if want then q else []
  }

  /** Every reason a text is turned away before any matrix is filled, or the window the pattern has to lie in. */
  method FindWindow(pat: string, low: string) returns (w: Option<(nat, nat)>)
    requires pat != []
    ensures w == Window(pat, low)
  {
    var M, N := |pat|, |low|;
    if M > N { return None; }
    var minIdx := FirstOf(low, pat[0]);
    if minIdx == N { return None; }
    var maxIdx := LastOf(low, pat[M - 1]);
    if maxIdx as int - minIdx as int < M { return None; }
    var fits := IsSubsequence(pat, low, minIdx, maxIdx);
    w := if fits then Some((minIdx, maxIdx)) else None;
  }

  /** A single left-to-right look at the window says whether the pattern is a subsequence of it. */
  method IsSubsequence(pat: string, low: string, lo: nat, hi: nat) returns (fits: bool)
    requires lo <= hi <= |low| && pat != []
    ensures fits <==> |Scan(pat, low, lo, hi)| == |pat|
  {
    var i, p := lo, 0;
    while i < hi
      invariant lo <= i <= hi && p == |Scan(pat, low, lo, i)| < |pat|
    {
      if low[i] == pat[p] {
        p := p + 1;
        if p == |pat| {
          ScanGrows(pat, low, lo, i + 1, hi, 0);
          return true;
        }
      }
      i := i + 1;
    }
    return false;
  }
}
