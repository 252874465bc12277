/** Scoring rules of the fuzzy matcher (shared/fuzzy.ts): position bonuses by character class, the score of a
    placement, and the two greedy scans.  Everything the matcher ranks by is stated through `Placement`. */
module FuzzyScore {
  import opened Basics

  const SCORE_MATCH := 16
  const SCORE_GAP_START := -3
  const SCORE_GAP_EXTENSION := -1
  const BONUS_BOUNDARY := SCORE_MATCH / 2
  const BONUS_NON_WORD := SCORE_MATCH / 2
  const BONUS_CAMEL_123 := BONUS_BOUNDARY + SCORE_GAP_EXTENSION
  const BONUS_CONSECUTIVE := -(SCORE_GAP_START + SCORE_GAP_EXTENSION)
  const BONUS_FIRST_CHAR_MULTIPLIER := 2
  const BONUS_BOUNDARY_WHITE := BONUS_BOUNDARY + 2
  const BONUS_BOUNDARY_DELIMITER := BONUS_BOUNDARY + 1
  const IDEAL_FIRST := SCORE_MATCH + BONUS_BOUNDARY_WHITE * BONUS_FIRST_CHAR_MULTIPLIER
  const IDEAL_REST := SCORE_MATCH + BONUS_BOUNDARY_WHITE

  type Bonus = b: int | 0 <= b <= 10

  datatype Class = White | NonWord | Delimiter | Lower | Upper | Number

  function BonusFor(prev: Class, cur: Class): Bonus {
    if cur != White && cur != NonWord && prev == White then BONUS_BOUNDARY_WHITE
    else if cur != White && cur != NonWord && prev == Delimiter then BONUS_BOUNDARY_DELIMITER
    else if cur != White && cur != NonWord && prev == NonWord then BONUS_BOUNDARY
    else if (prev == Lower && cur == Upper) || (prev != Number && cur == Number) then BONUS_CAMEL_123
    else if cur == NonWord || cur == Delimiter then BONUS_NON_WORD
    else if cur == White then BONUS_BOUNDARY_WHITE
    else 0
  }

  /** What a position is worth: a letter, digit or delimiter most after white space, less after a delimiter, less after
      any other sign; a hump or a number's first digit less than any word's start; a sign as much as that, white space
      the most; and the inside of a word nothing. */
  lemma BonusMeans(prev: Class, cur: Class)
    ensures var word := cur in {Delimiter, Lower, Upper, Number};
            var hump := (prev == Lower && cur == Upper) || (prev != Number && cur == Number);
            && (BonusFor(prev, cur) == 10 <==> cur == White || (word && prev == White))
            && (BonusFor(prev, cur) == 9 <==> word && prev == Delimiter)
            && (BonusFor(prev, cur) == 8 <==>
                  cur == NonWord || (word && prev == NonWord) || (cur == Delimiter && prev in {Lower, Upper, Number}))
            && (BonusFor(prev, cur) == 7 <==> hump && prev in {Lower, Upper, Number})
            && (BonusFor(prev, cur) in {0, 7, 8, 9, 10})
  {
  }

  /** The bonus of matching at offset `i`: it reads the class of the character before, whitespace at the start. */
  function BonusAt(cls: seq<Class>, i: nat): Bonus
    requires i < |cls|
  {
    BonusFor(if i == 0 then White else cls[i - 1], cls[i])
  }

  function Bonuses(cls: seq<Class>): (b: seq<Bonus>)
    ensures |b| == |cls| && forall i :: 0 <= i < |cls| ==> b[i] == BonusAt(cls, i)
  {
    seq(|cls|, i requires 0 <= i < |cls| => BonusAt(cls, i))
  }

  function Ideal(len: nat): int {
    if len == 0 then 0 else IDEAL_FIRST + IDEAL_REST * (len - 1)
  }

  // ------------------------------------------------------------------ placements

  /** The offsets of `p` increase strictly and lie in [lo, hi). */
  predicate Up(p: seq<nat>, lo: nat, hi: nat) {
    p == [] || (lo <= p[|p| - 1] < hi && Up(p[..|p| - 1], lo, p[|p| - 1]))
  }

  /** The characters of `low` at the offsets of `p` are those of `pat` from position `off` on. */
  predicate Spells(pat: string, off: nat, low: string, p: seq<nat>) {
    && off + |p| <= |pat|
    && (p == [] || (p[|p| - 1] < |low| && low[p[|p| - 1]] == pat[off + |p| - 1] && Spells(pat, off, low, p[..|p| - 1])))
  }

  /** `p` places every character of `pat`, in order, at offsets of `low[lo..hi)`. */
  predicate Embeds(pat: string, low: string, lo: nat, hi: nat, p: seq<nat>) {
    |p| == |pat| && Up(p, lo, hi) && Spells(pat, 0, low, p)
  }

  lemma {:induction false} UpMeans(p: seq<nat>, lo: nat, hi: nat)
    ensures Up(p, lo, hi) <==>
            && (forall k :: 0 <= k < |p| ==> lo <= p[k] < hi)
            && (forall i, j :: 0 <= i < j < |p| ==> p[i] < p[j])
    decreases |p|
  {
    if p != [] {
      var n := |p| - 1;
      UpMeans(p[..n], lo, p[n]);
      if Up(p, lo, hi) {
        forall i, j | 0 <= i < j < |p|
          ensures p[i] < p[j]
        {
          assert p[i] == p[..n][i] && (j == n || p[j] == p[..n][j]);
        }
      } else if forall i, j :: 0 <= i < j < |p| ==> p[i] < p[j] {
        forall k | 0 <= k < n ensures p[..n][k] < p[n] { assert p[k] < p[n]; }
      }
    }
  }

  lemma {:induction false} UpAt(p: seq<nat>, lo: nat, hi: nat, k: nat)
    requires k < |p| && Up(p, lo, hi)
    ensures lo <= p[k] < hi
    decreases |p|
  {
    if k < |p| - 1 { UpAt(p[..|p| - 1], lo, p[|p| - 1], k); }
  }

  lemma {:induction false} SpellsMeans(pat: string, low: string, p: seq<nat>)
    requires |p| <= |pat|
    ensures Spells(pat, 0, low, p) <==> forall k :: 0 <= k < |p| ==> p[k] < |low| && low[p[k]] == pat[k]
    decreases |p|
  {
    if p != [] {
      var n := |p| - 1;
      SpellsMeans(pat, low, p[..n]);
      assert forall k :: 0 <= k < n ==> p[..n][k] == p[k];
    }
  }

  lemma {:induction false} UpWiden(p: seq<nat>, lo: nat, hi: nat, lo': nat, hi': nat)
    requires Up(p, lo, hi) && lo' <= lo && hi <= hi'
    ensures Up(p, lo', hi')
    decreases |p|
  {
    if p != [] { UpWiden(p[..|p| - 1], lo, p[|p| - 1], lo', p[|p| - 1]); }
  }

  /** The first offset of an ascending list is its least. */
  lemma {:induction false} UpFirst(p: seq<nat>, lo: nat, hi: nat)
    requires p != [] && Up(p, lo, hi)
    ensures lo <= p[0] <= p[|p| - 1] && Up(p, p[0], p[|p| - 1] + 1)
    decreases |p|
  {
    var n := |p| - 1;
    if n > 0 {
      UpFirst(p[..n], lo, p[n]);
      UpWiden(p[..n], p[0], p[n - 1] + 1, p[0], p[n]);
    }
  }

  lemma {:induction false} UpTail(p: seq<nat>, lo: nat, hi: nat)
    requires p != [] && Up(p, lo, hi)
    ensures Up(p[1..], p[0] + 1, hi)
    decreases |p|
  {
    var n := |p| - 1;
    if n > 0 {
      UpTail(p[..n], lo, p[n]);
      assert p[1..][..n - 1] == p[..n][1..];
      UpFirst(p[..n], lo, p[n]);
    }
  }

  lemma {:induction false} UpCons(x: nat, q: seq<nat>, hi: nat)
    requires Up(q, x + 1, hi) && x < hi
    ensures Up([x] + q, x, hi)
    decreases |q|
  {
    if q != [] {
      var n := |q| - 1;
      UpCons(x, q[..n], q[n]);
      assert ([x] + q)[..|q|] == [x] + q[..n];
    } else {
      assert [x] + q == [x];
    }
  }

  lemma {:induction false} SpellsTail(pat: string, off: nat, low: string, p: seq<nat>)
    requires p != [] && Spells(pat, off, low, p)
    ensures p[0] < |low| && low[p[0]] == pat[off] && Spells(pat, off + 1, low, p[1..])
    decreases |p|
  {
    var n := |p| - 1;
    if n > 0 {
      SpellsTail(pat, off, low, p[..n]);
      assert p[1..][..n - 1] == p[..n][1..];
    }
  }

  lemma {:induction false} SpellsCons(pat: string, off: nat, low: string, x: nat, q: seq<nat>)
    requires Spells(pat, off + 1, low, q) && off < |pat| && x < |low| && low[x] == pat[off]
    ensures Spells(pat, off, low, [x] + q)
    decreases |q|
  {
    if q != [] {
      SpellsCons(pat, off, low, x, q[..|q| - 1]);
      assert ([x] + q)[..|q|] == [x] + q[..|q| - 1];
    } else {
      assert [x] + q == [x];
    }
  }

  /** What `g` skipped characters in a row cost. */
  function GapCost(g: int): int {
    if g <= 0 then 0 else -SCORE_GAP_START - SCORE_GAP_EXTENSION * (g - 1)
  }

  /** The bonus at one offset. */
  function Here(b: seq<Bonus>, i: nat): Bonus {
    if i < |b| then b[i] else 0
  }

  /** The bonus that opened the run the last offset of `p` belongs to; a stronger boundary restarts the run. */
  function RunFirst(b: seq<Bonus>, p: seq<nat>): Bonus
    requires |p| > 0
  {
    var n := |p| - 1;
    if n == 0 || p[n] != p[n - 1] + 1 then Here(b, p[n])
    else if Here(b, p[n]) >= BONUS_BOUNDARY && Here(b, p[n]) > RunFirst(b, p[..n]) then Here(b, p[n])
    else RunFirst(b, p[..n])
  }

  /** What the last offset of `p` earns on top of the match itself. */
  function CharBonus(b: seq<Bonus>, p: seq<nat>): Bonus
    requires |p| > 1
  {
    var n := |p| - 1;
    if p[n] != p[n - 1] + 1 then Here(b, p[n])
    else Max(Here(b, p[n]), Max(RunFirst(b, p), BONUS_CONSECUTIVE))
  }

  /** The score of a placement: the one definition the scorer, the matrix and the literal terms are held to. */
  function Placement(b: seq<Bonus>, p: seq<nat>): int
    requires |p| > 0
  {
    var n := |p| - 1;
    if n == 0 then SCORE_MATCH + Here(b, p[0]) * BONUS_FIRST_CHAR_MULTIPLIER
    else Placement(b, p[..n]) - GapCost(p[n] as int - p[n - 1] as int - 1) + SCORE_MATCH + CharBonus(b, p)
  }

  /** No placement is worth more than the ideal of its length, so a cost is never negative. */
  lemma {:induction false} PlacementAtMostIdeal(b: seq<Bonus>, p: seq<nat>)
    requires |p| > 0
    ensures Placement(b, p) <= Ideal(|p|)
    decreases |p|
  {
    if |p| > 1 { PlacementAtMostIdeal(b, p[..|p| - 1]); }
  }

  function Firsts(n: nat): seq<nat> {
    if n == 0 then [] else Firsts(n - 1) + [n - 1]
  }

  lemma {:induction false} BlanksScore(b: seq<Bonus>, n: nat)
    requires 0 < n <= |b| && forall i :: 0 <= i < |b| ==> b[i] == BONUS_BOUNDARY_WHITE
    ensures |Firsts(n)| == n && Firsts(n)[n - 1] == n - 1
    ensures Placement(b, Firsts(n)) == Ideal(n) && RunFirst(b, Firsts(n)) == BONUS_BOUNDARY_WHITE
    decreases n
  {
    if n == 1 {
      assert Firsts(0) == [] && Firsts(1) == [0];
    } else {
      BlanksScore(b, n - 1);
      assert Firsts(n)[..n - 1] == Firsts(n - 1);
    }
  }

  /** And the ideal is attained, at every length: by a run of blanks at the start of a text. */
  lemma IdealIsAttained(n: nat)
    ensures Ideal(0) == 0
    ensures n > 0 ==>
              var b, p := Bonuses(seq(n, _ => White)), Firsts(n);
              |p| == n && |b| == n && Placement(b, p) == Ideal(n)
  {
    if n > 0 { BlanksScore(Bonuses(seq(n, _ => White)), n); }
  }

  /** The offsets follow one another without a gap. */
  predicate Contiguous(p: seq<nat>) {
    |p| <= 1 || (p[|p| - 1] == p[|p| - 2] + 1 && Contiguous(p[..|p| - 1]))
  }

  /** Where position earns nothing a run is best: of all ways to place as many characters, exactly the contiguous ones
      score the most, four more for each character that follows its predecessor at once. */
  lemma {:induction false} ContiguousIsBest(b: seq<Bonus>, p: seq<nat>, lo: nat, hi: nat)
    requires p != [] && Up(p, lo, hi) && forall i :: 0 <= i < |b| ==> b[i] == 0
    ensures Placement(b, p) <= 20 * |p| - 4
    ensures Placement(b, p) == 20 * |p| - 4 <==> Contiguous(p)
    ensures RunFirst(b, p) == 0
    decreases |p|
  {
    var n := |p| - 1;
    if n > 0 { ContiguousIsBest(b, p[..n], lo, p[n]); }
  }

  /** Skipping characters costs three for the first and one for each further one, and starts the run over. */
  lemma GapIsCharged(b: seq<Bonus>, q: seq<nat>, y: nat)
    requires q != [] && q[|q| - 1] + 1 < y < |b|
    ensures Placement(b, q + [y]) == Placement(b, q) + 16 + b[y] - (y - q[|q| - 1]) - 1
    ensures RunFirst(b, q + [y]) == b[y]
  {
    assert (q + [y])[..|q|] == q;
  }

  /** A character that follows at once earns the best of its own bonus, the run's first and four; one at a stronger word
      start than the run's makes that the run's first. */
  lemma RunIsRewarded(b: seq<Bonus>, q: seq<nat>, y: nat)
    requires q != [] && q[|q| - 1] + 1 == y < |b|
    ensures var first := RunFirst(b, q);
            var earned := Placement(b, q + [y]) - Placement(b, q) - 16;
            && earned >= b[y] && earned >= first && earned >= 4 && earned in {b[y] as int, first as int, 4}
            && RunFirst(b, q + [y]) == if b[y] >= 8 && b[y] > first then b[y] else first
  {
    assert (q + [y])[..|q|] == q;
  }

  /** A region's score: its placement, less the characters skipped before and after it. */
  function RegionScore(b: seq<Bonus>, s: nat, e: nat, p: seq<nat>): int {
    if p == [] then -GapCost(e - s)
    else -GapCost(p[0] - s) + Placement(b, p) - GapCost(e - 1 - p[|p| - 1])
  }

  // ------------------------------------------------------------------ the forward scan

  /** The offsets a left-to-right greedy scan of `low[s..e)` takes, for as much of `pat` as it finds. */
  function Scan(pat: string, low: string, s: nat, e: nat): (p: seq<nat>)
    requires s <= e <= |low|
    ensures |p| <= |pat| && (p != [] ==> s <= p[|p| - 1] < e)
    decreases e
  {
    if s == e then []
    else
      var q := Scan(pat, low, s, e - 1);
      if |q| < |pat| && low[e - 1] == pat[|q|] then q + [e - 1] else q
  }

  lemma {:induction false} ScanPlaces(pat: string, low: string, s: nat, e: nat)
    requires s <= e <= |low|
    ensures Up(Scan(pat, low, s, e), s, e) && Spells(pat, 0, low, Scan(pat, low, s, e))
    decreases e
  {
    if s < e {
      ScanPlaces(pat, low, s, e - 1);
      var q := Scan(pat, low, s, e - 1);
      assert (q + [e - 1])[..|q|] == q;
    }
  }

  /** A longer region only appends to the scan. */
  lemma {:induction false} ScanGrows(pat: string, low: string, s: nat, m: nat, e: nat, k: nat)
    requires s <= m <= e <= |low|
    ensures |Scan(pat, low, s, m)| <= |Scan(pat, low, s, e)|
    ensures k < |Scan(pat, low, s, m)| ==> Scan(pat, low, s, m)[k] == Scan(pat, low, s, e)[k]
    decreases e
  {
    if m < e { ScanGrows(pat, low, s, m, e - 1, k); }
  }

  lemma ScanReaches(pat: string, low: string, s: nat, x: nat, e: nat, n: nat)
    requires s <= x < e <= |low| && n < |pat|
    requires |Scan(pat, low, s, x)| >= n && low[x] == pat[n]
    ensures n < |Scan(pat, low, s, e)| && Scan(pat, low, s, e)[n] <= x
  {
    hide Up, Spells;
    var q := Scan(pat, low, s, x + 1);
    ScanPlaces(pat, low, s, x + 1);
    UpAt(q, s, x + 1, n);
    ScanGrows(pat, low, s, x + 1, e, n);
  }

  /** A placement of a prefix of `pat` is never ahead of the scan: the scan finds at least as many characters and
      has its own copy of the last one no later. */
  lemma {:induction false} ScanIsLeftmost(pat: string, low: string, s: nat, e: nat, p: seq<nat>)
    requires s <= e <= |low| && Up(p, s, e) && Spells(pat, 0, low, p)
    ensures |p| <= |Scan(pat, low, s, e)|
    ensures p != [] ==> Scan(pat, low, s, e)[|p| - 1] <= p[|p| - 1]
    decreases |p|
  {
    if p != [] {
      var n := |p| - 1;
      var x := p[n];
      ScanIsLeftmost(pat, low, s, x, p[..n]);
      ScanReaches(pat, low, s, x, e, n);
    }
  }

  /** The scan finds the whole pattern exactly when the pattern embeds at all. */
  lemma ScanDecides(pat: string, low: string, s: nat, e: nat)
    requires s <= e <= |low|
    ensures |Scan(pat, low, s, e)| == |pat| <==> exists p :: Embeds(pat, low, s, e, p)
  {
    var q := Scan(pat, low, s, e);
    ScanPlaces(pat, low, s, e);
    if |q| == |pat| {
      assert Embeds(pat, low, s, e, q);
    }
    if p :| Embeds(pat, low, s, e, p) {
      ScanIsLeftmost(pat, low, s, e, p);
    }
  }

  /** A scan that starts on the first pattern character takes it. */
  lemma ScanStart(pat: string, low: string, s: nat, e: nat)
    requires s < e <= |low| && pat != [] && low[s] == pat[0]
    ensures Scan(pat, low, s, e) != [] && Scan(pat, low, s, e)[0] == s
  {
    var one := [s];
    assert one[..0] == [];
    assert Up(one[..0], s, s) && Spells(pat, 0, low, one[..0]);
    ScanIsLeftmost(pat, low, s, e, one);
    ScanPlaces(pat, low, s, e);
    UpFirst(Scan(pat, low, s, e), s, e);
  }

  // ------------------------------------------------------------------ the backward scan

  /** The offsets a right-to-left greedy scan of `low[s..e)` takes, for as long a suffix of `pat` as it finds. */
  function Back(pat: string, low: string, s: nat, e: nat): (p: seq<nat>)
    requires s <= e <= |low|
    ensures |p| <= |pat| && (p != [] ==> s <= p[0] < e)
    decreases e - s
  {
    if s == e then []
    else
      var q := Back(pat, low, s + 1, e);
      if |q| < |pat| && low[s] == pat[|pat| - 1 - |q|] then [s] + q else q
  }

  lemma {:induction false} BackPlaces(pat: string, low: string, s: nat, e: nat)
    requires s <= e <= |low|
    ensures var p := Back(pat, low, s, e); Up(p, s, e) && Spells(pat, |pat| - |p|, low, p)
    decreases e - s
  {
    if s < e {
      BackPlaces(pat, low, s + 1, e);
      var q := Back(pat, low, s + 1, e);
      UpWiden(q, s + 1, e, s, e);
      UpCons(s, q, e);
      if |q| < |pat| && low[s] == pat[|pat| - 1 - |q|] { SpellsCons(pat, |pat| - 1 - |q|, low, s, q); }
    }
  }

  /** A longer region only prepends to the backward scan: its `k`-th offset from the right stays. */
  lemma {:induction false} BackGrows(pat: string, low: string, s: nat, m: nat, e: nat, k: nat)
    requires s <= m <= e <= |low|
    ensures |Back(pat, low, m, e)| <= |Back(pat, low, s, e)|
    ensures 0 < k <= |Back(pat, low, m, e)| ==>
              Back(pat, low, m, e)[|Back(pat, low, m, e)| - k] == Back(pat, low, s, e)[|Back(pat, low, s, e)| - k]
    decreases m - s
  {
    if s < m { BackGrows(pat, low, s + 1, m, e, k); }
  }

  /** Once the backward scan holds the whole pattern, looking further left changes nothing. */
  lemma {:induction false} BackStops(pat: string, low: string, s: nat, m: nat, e: nat)
    requires s <= m <= e <= |low| && |Back(pat, low, m, e)| == |pat|
    ensures Back(pat, low, s, e) == Back(pat, low, m, e)
    decreases m - s
  {
    if s < m { BackStops(pat, low, s + 1, m, e); }
  }

  /** If the scan of what lies right of `x` holds `n - 1` characters and `x` is the next one, the whole scan holds
      `n`, and its `n`-th from the right lies at `x` or later. */
  lemma BackReaches(pat: string, low: string, s: nat, x: nat, e: nat, n: nat)
    requires s <= x < e <= |low| && 0 < n <= |pat|
    requires |Back(pat, low, x + 1, e)| >= n - 1 && low[x] == pat[|pat| - n]
    ensures n <= |Back(pat, low, s, e)| && x <= Back(pat, low, s, e)[|Back(pat, low, s, e)| - n]
  {
    var q, r := Back(pat, low, x, e), Back(pat, low, s, e);
    assert |q| >= n;
    BackPlaces(pat, low, x, e);
    UpAt(q, x, e, |q| - n);
    BackGrows(pat, low, s, x, e, n);
  }

  /** A placement of a suffix of `pat` is never behind the backward scan. */
  lemma {:induction false} BackIsRightmost(pat: string, low: string, s: nat, e: nat, p: seq<nat>)
    requires s <= e <= |low| && |p| <= |pat| && Up(p, s, e) && Spells(pat, |pat| - |p|, low, p)
    ensures |p| <= |Back(pat, low, s, e)|
    ensures p != [] ==> p[0] <= Back(pat, low, s, e)[|Back(pat, low, s, e)| - |p|]
    decreases |p|
  {
    if p != [] {
      var x := p[0];
      UpFirst(p, s, e);
      UpTail(p, s, e);
      SpellsTail(pat, |pat| - |p|, low, p);
      BackIsRightmost(pat, low, x + 1, e, p[1..]);
      BackReaches(pat, low, s, x, e, |p|);
    }
  }

  // ------------------------------------------------------------------ the greedy region

  /** The region the greedy pass settles on: it ends where the forward scan first completes the pattern, and
      starts where the backward scan from there completes it. */
  function GreedyRegion(pat: string, low: string, s: nat, e: nat): Option<(nat, nat)>
    requires s <= e <= |low| && pat != []
  {
    var f := Scan(pat, low, s, e);
    if |f| < |pat| then None
    else
      var end := f[|f| - 1] + 1;
      var r := Back(pat, low, s, end);
      if |r| < |pat| then None else Some((r[0], end))
  }

  function GreedyPlacement(pat: string, low: string, s: nat, e: nat): Option<seq<nat>>
    requires s <= e <= |low| && pat != []
  {
    match GreedyRegion(pat, low, s, e)
    case None => None
    case Some((a, b)) => if a <= b <= |low| then Some(Scan(pat, low, a, b)) else None
  }

  /** The region ends at the least end of any embedding. */
  lemma LeastEnd(pat: string, low: string, s: nat, e: nat, p: seq<nat>)
    requires s <= e <= |low| && pat != [] && Embeds(pat, low, s, e, p)
    ensures |Scan(pat, low, s, e)| == |pat| && Scan(pat, low, s, e)[|pat| - 1] <= p[|p| - 1]
  {
    ScanIsLeftmost(pat, low, s, e, p);
  }

  /** The backward scan starts at the greatest start of any embedding that stays in its region. */
  lemma GreatestStart(pat: string, low: string, s: nat, e: nat, p: seq<nat>)
    requires s <= e <= |low| && pat != [] && Embeds(pat, low, s, e, p)
    ensures |Back(pat, low, s, e)| == |pat| && p[0] <= Back(pat, low, s, e)[0]
  {
    BackIsRightmost(pat, low, s, e, p);
  }

  lemma RegionIsFull(pat: string, low: string, s: nat, e: nat, a: nat, end: nat)
    requires s <= e <= |low| && pat != [] && |Scan(pat, low, s, e)| == |pat|
    requires end == Scan(pat, low, s, e)[|pat| - 1] + 1
    requires |Back(pat, low, s, end)| == |pat| && a == Back(pat, low, s, end)[0]
    ensures s <= a < end <= e
    ensures Embeds(pat, low, a, end, Scan(pat, low, a, end))
    ensures Scan(pat, low, a, end)[0] == a && Scan(pat, low, a, end)[|pat| - 1] == end - 1
  {
    var r := Back(pat, low, s, end);
    BackPlaces(pat, low, s, end);
    UpFirst(r, s, end);
    UpWiden(r, a, r[|r| - 1] + 1, a, end);
    SpellsTail(pat, 0, low, r);
    LeastEnd(pat, low, a, end, r);
    ScanStart(pat, low, a, end);
    ScanPlaces(pat, low, a, end);
    var g := Scan(pat, low, a, end);
    UpWiden(g, a, end, s, e);
    LeastEnd(pat, low, s, e, g);
  }

  /** The greedy pass answers null exactly when the pattern does not embed.  Otherwise its region has the least
      end of any embedding and the greatest start among embeddings with that end, and the forward scan of the
      region consumes the whole pattern, from the region's first character to its last. */
  lemma GreedyRegionIsTight(pat: string, low: string, s: nat, e: nat)
    requires s <= e <= |low| && pat != []
    ensures GreedyRegion(pat, low, s, e).None? <==> !exists p :: Embeds(pat, low, s, e, p)
    ensures GreedyRegion(pat, low, s, e).Some? ==>
              var (a, b) := GreedyRegion(pat, low, s, e).value;
              && s <= a < b <= e
              && (forall p :: Embeds(pat, low, s, e, p) ==> b - 1 <= p[|p| - 1])
              && (forall p :: Embeds(pat, low, s, e, p) && p[|p| - 1] == b - 1 ==> p[0] <= a)
              && Embeds(pat, low, a, b, Scan(pat, low, a, b))
              && Scan(pat, low, a, b)[0] == a
              && Scan(pat, low, a, b)[|pat| - 1] == b - 1
  {
    ScanDecides(pat, low, s, e);
    if |Scan(pat, low, s, e)| == |pat| {
      var a, end := RegionExists(pat, low, s, e);
      forall p | Embeds(pat, low, s, e, p)
        ensures end - 1 <= p[|p| - 1] && (p[|p| - 1] == end - 1 ==> p[0] <= a)
      {
        LeastEnd(pat, low, s, e, p);
        if p[|p| - 1] == end - 1 { GreatestStart(pat, low, s, end, p); }
      }
    }
  }

  lemma {:induction false} FirstOnes(pat: string, low: string, p: seq<nat>, lo: nat, hi: nat, k: nat)
    requires k <= |p| && Up(p, lo, hi) && Spells(pat, 0, low, p)
    ensures Up(p[..k], lo, hi) && Spells(pat, 0, low, p[..k])
    decreases |p|
  {
    if k < |p| {
      var n := |p| - 1;
      assert p[..n][..k] == p[..k];
      FirstOnes(pat, low, p[..n], lo, p[n], k);
      UpWiden(p[..k], lo, p[n], lo, hi);
    } else {
      assert p[..k] == p;
    }
  }

  /** So where the greedy pass lands: nowhere exactly when nothing embeds; else on an embedding with the least end, the
      greatest start for that end, and from there on every offset as early as it can be. */
  lemma GreedyIsTight(pat: string, low: string, s: nat, e: nat, p: seq<nat>)
    requires s <= e <= |low| && pat != []
    ensures var r := GreedyPlacement(pat, low, s, e);
            && (r.Some? ==> Embeds(pat, low, s, e, r.value))
            && (Embeds(pat, low, s, e, p) ==>
                  && r.Some? && |r.value| == |p| && r.value[|p| - 1] <= p[|p| - 1]
                  && (p[|p| - 1] == r.value[|p| - 1] ==> p[0] <= r.value[0])
                  && (r.value[0] <= p[0] && p[|p| - 1] == r.value[|p| - 1] ==>
                        forall k :: 0 <= k < |p| ==> r.value[k] <= p[k]))
  {
    hide Up, Spells, Scan, GreedyRegion;
    GreedyRegionIsTight(pat, low, s, e);
    if GreedyRegion(pat, low, s, e).Some? {
      var (a, b) := GreedyRegion(pat, low, s, e).value;
      var q := Scan(pat, low, a, b);
      UpWiden(q, a, b, s, e);
      if Embeds(pat, low, s, e, p) && a <= p[0] && p[|p| - 1] == b - 1 {
        UpFirst(p, s, e);
        UpWiden(p, p[0], p[|p| - 1] + 1, a, b);
        forall k | 0 <= k < |p| ensures q[k] <= p[k] {
          FirstOnes(pat, low, p, a, b, k + 1);
          ScanIsLeftmost(pat, low, a, b, p[..k + 1]);
        }
      }
    }
  }

  lemma RegionExists(pat: string, low: string, s: nat, e: nat) returns (a: nat, end: nat)
    requires s <= e <= |low| && pat != [] && |Scan(pat, low, s, e)| == |pat|
    ensures GreedyRegion(pat, low, s, e) == Some((a, end))
    ensures s <= a < end <= e && end == Scan(pat, low, s, e)[|pat| - 1] + 1
    ensures Embeds(pat, low, a, end, Scan(pat, low, a, end))
    ensures Scan(pat, low, a, end)[0] == a && Scan(pat, low, a, end)[|pat| - 1] == end - 1
  {
    end := Scan(pat, low, s, e)[|pat| - 1] + 1;
    BackIsFull(pat, low, s, e, end);
    a := Back(pat, low, s, end)[0];
    RegionIsFull(pat, low, s, e, a, end);
  }

  lemma BackIsFull(pat: string, low: string, s: nat, e: nat, end: nat)
    requires s <= e <= |low| && pat != [] && |Scan(pat, low, s, e)| == |pat|
    requires end == Scan(pat, low, s, e)[|pat| - 1] + 1
    ensures |Back(pat, low, s, end)| == |pat|
  {
    ScanPlaces(pat, low, s, e);
    GreatestStart(pat, low, s, end, Scan(pat, low, s, e));
  }

  // ------------------------------------------------------------------ the loops

  /** Whether the character before `i` was skipped, given the offsets taken so far. */
  predicate InGap(s: nat, i: nat, q: seq<nat>) {
    i > s && (q == [] || q[|q| - 1] < i - 1)
  }

  lemma TakeStep(b: seq<Bonus>, s: nat, i: nat, q: seq<nat>)
    requires s <= i
    ensures RegionScore(b, s, i + 1, q + [i]) ==
            RegionScore(b, s, i, q) + SCORE_MATCH
            + if q == [] then Here(b, i) * BONUS_FIRST_CHAR_MULTIPLIER
            else CharBonus(b, q + [i]) + GapCost(i - 1 - q[|q| - 1]) - GapCost(i - q[|q| - 1] - 1)
  {
    assert (q + [i])[..|q|] == q;
  }

  lemma SkipStep(b: seq<Bonus>, s: nat, i: nat, q: seq<nat>)
    requires s <= i && (q != [] ==> s <= q[|q| - 1] < i)
    ensures RegionScore(b, s, i + 1, q) ==
            RegionScore(b, s, i, q) + if InGap(s, i, q) then SCORE_GAP_EXTENSION else SCORE_GAP_START
  {
  }

  /** How the run's first bonus and the character's own bonus follow from the run so far. */
  lemma RunStep(b: seq<Bonus>, i: nat, q: seq<nat>)
    requires q != [] ==> q[|q| - 1] < i
    ensures var q', h := q + [i], Here(b, i);
            if q == [] || q[|q| - 1] < i - 1
            then RunFirst(b, q') == h && (q != [] ==> CharBonus(b, q') == h)
            else
              && RunFirst(b, q') == (if h >= BONUS_BOUNDARY && h > RunFirst(b, q) then h else RunFirst(b, q))
              && CharBonus(b, q') == Max(h, Max(RunFirst(b, q'), BONUS_CONSECUTIVE))
  {
    assert (q + [i])[..|q|] == q;
  }

  /** The running variables of the scorer, before character `i`, in terms of the offsets taken so far. */
  ghost predicate Tallied(b: seq<Bonus>, s: nat, i: nat, q: seq<nat>, score: int, inGap: bool, consecutive: nat,
                          firstBonus: Bonus)
  {
    && s <= i && (q != [] ==> s <= q[|q| - 1] < i)
    && score == RegionScore(b, s, i, q)
    && inGap == InGap(s, i, q)
    && (consecutive == 0 <==> (q == [] || q[|q| - 1] < i - 1))
    && (consecutive > 0 ==> firstBonus == RunFirst(b, q))
  }

  lemma TallySkip(b: seq<Bonus>, s: nat, i: nat, q: seq<nat>, score: int, inGap: bool, consecutive: nat,
                  firstBonus: Bonus)
    requires Tallied(b, s, i, q, score, inGap, consecutive, firstBonus)
    ensures Tallied(b, s, i + 1, q, score + if inGap then SCORE_GAP_EXTENSION else SCORE_GAP_START, true, 0, 0)
  {
    SkipStep(b, s, i, q);
  }

  lemma TallyTake(b: seq<Bonus>, s: nat, i: nat, q: seq<nat>, score: int, inGap: bool, consecutive: nat,
                  firstBonus: Bonus)
    requires Tallied(b, s, i, q, score, inGap, consecutive, firstBonus)
    ensures var h := Here(b, i);
            var first := if consecutive == 0 || (h >= BONUS_BOUNDARY && h > firstBonus) then h else firstBonus;
            var bonus := if consecutive == 0 then h else Max(h, Max(first, BONUS_CONSECUTIVE));
            Tallied(b, s, i + 1, q + [i],
                    score + SCORE_MATCH + (if q == [] then bonus * BONUS_FIRST_CHAR_MULTIPLIER else bonus),
                    false, consecutive + 1, first)
  {
    TakeStep(b, s, i, q);
    RunStep(b, i, q);
  }

  lemma HereIs(cls: seq<Class>, i: nat)
    requires i < |cls|
    ensures Here(Bonuses(cls), i) == BonusFor(if i == 0 then White else cls[i - 1], cls[i])
  {
  }

  lemma TallyStart(b: seq<Bonus>, s: nat)
    ensures Tallied(b, s, s, [], 0, false, 0, 0)
  {
  }

  lemma TallyEnd(b: seq<Bonus>, s: nat, e: nat, q: seq<nat>, score: int, inGap: bool, consecutive: nat,
                 firstBonus: Bonus)
    requires Tallied(b, s, e, q, score, inGap, consecutive, firstBonus)
    ensures score == RegionScore(b, s, e, q)
  {
  }

  /** Scores `[sidx, eidx)` by the running rules and appends what it matched; `want` is whether a caller passed
      a list to collect offsets in. */
  method ScoreRegion(pat: string, cls: seq<Class>, low: string, sidx: nat, eidx: nat, want: bool)
    returns (score: int, pos: seq<nat>)
    requires |cls| == |low| && sidx <= eidx <= |low|
    ensures score == RegionScore(Bonuses(cls), sidx, eidx, Scan(pat, low, sidx, eidx))
    ensures pos == if want then Scan(pat, low, sidx, eidx) else []
  {
    hide Tallied, RegionScore, Bonuses, BonusFor;
    var pidx := 0;
    score := 0;
    pos := [];
    var inGap := false;
    var consecutive := 0;
    var firstBonus: Bonus := 0;
    var prev := if sidx > 0 then cls[sidx - 1] else White;
    ghost var b := Bonuses(cls);
    var i := sidx;
    ghost var q: seq<nat> := [];
    TallyStart(b, sidx);
    while i < eidx
      invariant sidx <= i <= eidx
      invariant prev == if i == 0 then White else cls[i - 1]
      invariant q == Scan(pat, low, sidx, i) && pidx == |q|
      invariant pos == if want then q else []
      invariant consecutive >= 0 && Tallied(b, sidx, i, q, score, inGap, consecutive, firstBonus)
    {
      var cur := cls[i];
      if pidx < |pat| && low[i] == pat[pidx] {
        TallyTake(b, sidx, i, q, score, inGap, consecutive, firstBonus);
        if want { pos := pos + [i]; }
        score := score + SCORE_MATCH;
        var bonus := BonusFor(prev, cur);
        HereIs(cls, i);
        if consecutive == 0 {
          firstBonus := bonus;
        } else {
          if bonus >= BONUS_BOUNDARY && bonus > firstBonus { firstBonus := bonus; }
          bonus := Max(bonus, Max(firstBonus, BONUS_CONSECUTIVE));
        }
        score := score + if pidx == 0 then bonus * BONUS_FIRST_CHAR_MULTIPLIER else bonus;
        inGap := false;
        consecutive := consecutive + 1;
        pidx := pidx + 1;
        q := q + [i];
      } else {
        TallySkip(b, sidx, i, q, score, inGap, consecutive, firstBonus);
        score := score + if inGap then SCORE_GAP_EXTENSION else SCORE_GAP_START;
        inGap := true;
        consecutive := 0;
        firstBonus := 0;
      }
      prev := cur;
      i := i + 1;
    }
    TallyEnd(b, sidx, eidx, q, score, inGap, consecutive, firstBonus);
  }

  /** After the forward loop: the offsets it found also fit the window it leaves for the backward loop. */
  lemma AfterForward(pat: string, low: string, from: nat, to: nat, first: nat, eidx: nat)
    requires from <= to <= |low| && pat != [] && |Scan(pat, low, from, to)| == |pat|
    requires eidx == Scan(pat, low, from, to)[|pat| - 1] + 1 && first == Scan(pat, low, from, to)[0]
    ensures from <= first < eidx <= to
    ensures |Back(pat, low, first, eidx)| == |pat|
  {
    var f := Scan(pat, low, from, to);
    ScanPlaces(pat, low, from, to);
    UpFirst(f, from, to);
    GreatestStart(pat, low, first, eidx, f);
  }

  lemma RegionFound(pat: string, low: string, from: nat, to: nat, first: nat, a: nat, eidx: nat)
    requires from <= to <= |low| && pat != [] && |Scan(pat, low, from, to)| == |pat|
    requires eidx == Scan(pat, low, from, to)[|pat| - 1] + 1 <= to
    requires from <= first <= a < eidx && |Back(pat, low, a, eidx)| == |pat| && Back(pat, low, a, eidx)[0] == a
    ensures GreedyRegion(pat, low, from, to) == Some((a, eidx))
    ensures var p := Scan(pat, low, a, eidx); |p| == |pat| && p[0] == a && p[|p| - 1] == eidx - 1
  {
    hide Scan, Back, Up, Spells;
    BackStops(pat, low, from, a, eidx);
    var a', end := RegionExists(pat, low, from, to);
  }

  /** After the backward loop: where it stopped starts the greedy region, and the region's scan is scored. */
  lemma AfterBackward(pat: string, cls: seq<Class>, low: string, from: nat, to: nat, first: nat, a: nat, eidx: nat)
    requires |cls| == |low| && from <= to <= |low| && pat != [] && |Scan(pat, low, from, to)| == |pat|
    requires eidx == Scan(pat, low, from, to)[|pat| - 1] + 1 <= to
    requires from <= first <= a < eidx && |Back(pat, low, a, eidx)| == |pat| && Back(pat, low, a, eidx)[0] == a
    ensures GreedyRegion(pat, low, from, to) == Some((a, eidx))
    ensures var p := Scan(pat, low, a, eidx);
            && Embeds(pat, low, from, to, p)
            && RegionScore(Bonuses(cls), a, eidx, p) == Placement(Bonuses(cls), p)
  {
    hide RegionScore, Placement, Embeds, Bonuses, GreedyRegion, Scan, Back;
    RegionFound(pat, low, from, to, first, a, eidx);
    FullRegion(pat, Bonuses(cls), low, from, to, a, eidx);
  }

  /** A region that starts and ends on a match is charged for nothing outside the match. */
  lemma FullRegion(pat: string, b: seq<Bonus>, low: string, from: nat, to: nat, s: nat, e: nat)
    requires |b| == |low| && from <= s < e <= to <= |low| && pat != []
    requires var p := Scan(pat, low, s, e); |p| == |pat| && p[0] == s && p[|p| - 1] == e - 1
    ensures var p := Scan(pat, low, s, e);
            Embeds(pat, low, from, to, p) && RegionScore(b, s, e, p) == Placement(b, p)
  {
    ScanPlaces(pat, low, s, e);
    UpWiden(Scan(pat, low, s, e), s, e, from, to);
  }

  /** The greedy pass puts the two loops below together and hands the region they delimit to the scorer. */
  method GreedyTerm(pat: string, cls: seq<Class>, low: string, from: nat, to: nat, want: bool)
    returns (r: Option<int>, pos: seq<nat>)
    requires |cls| == |low| && from <= to <= |low| && pat != []
    ensures r.None? <==> GreedyPlacement(pat, low, from, to).None?
    ensures r.None? ==> pos == []
    ensures r.Some? ==>
              var p := GreedyPlacement(pat, low, from, to).value;
              && Embeds(pat, low, from, to, p)
              && r.value == Placement(Bonuses(cls), p)
              && pos == if want then p else []
  {
    var sidx, eidx := EarliestEnd(pat, low, from, to);
    if sidx < 0 || eidx < 0 {
      return None, [];
    }
    AfterForward(pat, low, from, to, sidx, eidx);
    var a := LatestStart(pat, low, sidx, eidx);
    AfterBackward(pat, cls, low, from, to, sidx, a, eidx);
    var score;
    score, pos := ScoreRegion(pat, cls, low, a, eidx, want);
    r := Some(score);
  }

  /** The forward loop of the greedy pass: the first offset taken, and one past the offset that completes `pat`. */
  method EarliestEnd(pat: string, low: string, from: nat, to: nat) returns (sidx: int, eidx: int)
    requires from <= to <= |low| && pat != []
    ensures eidx < 0 ==> |Scan(pat, low, from, to)| < |pat|
    ensures eidx >= 0 ==>
              var f := Scan(pat, low, from, to);
              |f| == |pat| && sidx == f[0] && eidx == f[|pat| - 1] + 1
  {
    var m := |pat|;
    sidx, eidx := -1, -1;
    var pidx := 0;
    var i := from;
    while i < to
      invariant from <= i <= to
      invariant eidx < 0
      invariant pidx == |Scan(pat, low, from, i)| < m
      invariant sidx == if pidx == 0 then -1 else Scan(pat, low, from, i)[0]
    {
      if low[i] == pat[pidx] {
        if sidx < 0 { sidx := i; }
        pidx := pidx + 1;
        if pidx == m {
          eidx := i + 1;
          ScanGrows(pat, low, from, eidx, to, 0);
          ScanGrows(pat, low, from, eidx, to, m - 1);
          break;
        }
      }
      i := i + 1;
    }
  }

  /** The backward loop of the greedy pass: from the end, back to the offset that completes `pat`. */
  method LatestStart(pat: string, low: string, first: nat, eidx: nat) returns (sidx: nat)
    requires first < eidx <= |low| && pat != [] && |Back(pat, low, first, eidx)| == |pat|
    ensures first <= sidx < eidx && |Back(pat, low, sidx, eidx)| == |pat| && Back(pat, low, sidx, eidx)[0] == sidx
  {
    sidx := first;
    var pidx := |pat| - 1;
    var i := eidx - 1;
    while i >= sidx
      invariant first - 1 <= i < eidx
      invariant sidx == first
      invariant pidx == |pat| - 1 - |Back(pat, low, i + 1, eidx)| && pidx >= 0
    {
      ghost var g := Back(pat, low, i, eidx);
      if low[i] == pat[pidx] {
        pidx := pidx - 1;
        if pidx < 0 {
          sidx := i;
          break;
        }
      }
      i := i - 1;
    }
  }
}
