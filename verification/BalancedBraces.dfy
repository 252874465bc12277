/** Finding a JSON object in a model's reply (src/brainCall.ts `extractJsonObject`, `balancedEnd`): the brace counter
    as an automaton, the text of an object by the grammar of RFC 8259, and why the counter stops on its last brace. */
module BalancedBraces {
  import opened Basics

  // ------------------------------------------------------------------ the counter

  /** Outside a string at some depth, inside one, behind a backslash in one, or past the closing brace. */
  datatype Mode = Out(depth: int) | In(depth: int) | Esc(depth: int) | Done

  function Next(m: Mode, c: char): Mode {
    match m
    case Out(d) =>
      if c == '"' then In(d)
      else if c == '{' then Out(d + 1)
      else if c == '}' then if d - 1 == 0 then Done else Out(d - 1)
      else m
    case In(d) => if c == '\\' then Esc(d) else if c == '"' then Out(d) else m
    case Esc(d) => In(d)
    case Done => Done
  }

  function Feed(m: Mode, t: string): Mode {
    if t == [] then m else Next(Feed(m, t[..|t| - 1]), t[|t| - 1])
  }

  lemma {:induction false} FeedAppend(m: Mode, a: string, b: string)
    ensures Feed(m, a + b) == Feed(Feed(m, a), b)
    decreases |b|
  {
    if b == [] {
      assert a + b == a;
    } else {
      assert (a + b)[..|a + b| - 1] == a + b[..|b| - 1];
      FeedAppend(m, a, b[..|b| - 1]);
    }
  }

  lemma FeedOne(m: Mode, c: char)
    ensures Feed(m, [c]) == Next(m, c)
  {
    assert [c][..0] == [];
  }

  lemma {:induction false} DoneStays(t: string)
    ensures Feed(Done, t) == Done
    decreases |t|
  {
    if t != [] { DoneStays(t[..|t| - 1]); }
  }

  /** The counter, started at `start`, stops on `end`. */
  predicate StopsAt(s: string, start: nat, end: nat) {
    start <= end < |s| && Feed(Out(0), s[start..end]) != Done && Feed(Out(0), s[start..end + 1]) == Done
  }

  lemma StopsOnce(s: string, start: nat, a: nat, b: nat)
    requires StopsAt(s, start, a) && StopsAt(s, start, b)
    ensures a == b
  {
    if a < b {
      DoneBefore(s, start, a, b);
    } else if b < a {
      DoneBefore(s, start, b, a);
    }
  }

  lemma FeedNext(s: string, start: nat, i: nat)
    requires start <= i < |s|
    ensures Feed(Out(0), s[start..i + 1]) == Next(Feed(Out(0), s[start..i]), s[i])
  {
    assert s[start..i + 1][..i - start] == s[start..i];
  }

  lemma FeedNothing(m: Mode)
    ensures Feed(m, []) == m
  {
  }

  lemma DoneBefore(s: string, start: nat, a: nat, b: nat)
    requires start <= a < b <= |s| && Feed(Out(0), s[start..a + 1]) == Done
    ensures Feed(Out(0), s[start..b]) == Done
  {
    assert s[start..b] == s[start..a + 1] + s[a + 1..b];
    FeedAppend(Out(0), s[start..a + 1], s[a + 1..b]);
    DoneStays(s[a + 1..b]);
  }

  /** The loop, a backslash in a string skipping the character behind it. */
  method BalancedEnd(s: string, start: nat) returns (end: int)
    requires start <= |s|
    ensures end >= 0 ==> StopsAt(s, start, end)
    ensures end < 0 ==> Feed(Out(0), s[start..]) != Done
  {
    hide Feed;
    assert s[start..start] == [];
    FeedNothing(Out(0));
    var depth := 0;
    var inString := false;
    var i := start;
    while i < |s|
      invariant start <= i <= |s| + 1
      invariant i <= |s| ==> Feed(Out(0), s[start..i]) == if inString then In(depth) else Out(depth)
      invariant i > |s| ==> Feed(Out(0), s[start..]) != Done
      decreases |s| + 1 - i
    {
      var c := s[i];
      FeedNext(s, start, i);
      if inString {
        if c == '\\' {
          if i + 1 < |s| {
            FeedNext(s, start, i + 1);
          } else {
            assert s[start..i + 1] == s[start..];
          }
          i := i + 1;
        } else if c == '"' {
          inString := false;
        }
      } else if c == '"' {
        inString := true;
      } else if c == '{' {
        depth := depth + 1;
      } else if c == '}' {
        depth := depth - 1;
        if depth == 0 { return i; }
      }
      i := i + 1;
    }
    if i == |s| { assert s[start..i] == s[start..]; }
    end := -1;
  }

  // ------------------------------------------------------------------ JSON texts

  predicate IsBlank(c: char) {
    c == ' ' || c == '\t' || c == '\n' || c == '\r'
  }

  type Blank = s: string | forall i :: 0 <= i < |s| ==> IsBlank(s[i])

  /** What a number or one of the three literal names is made of. */
  predicate IsWordChar(c: char) {
    ('0' <= c <= '9') || ('a' <= c <= 'z') || c == '-' || c == '+' || c == '.' || c == 'E'
  }

  type Word = s: string | forall i :: 0 <= i < |s| ==> IsWordChar(s[i])

  predicate IsHex(c: char) {
    ('0' <= c <= '9') || ('a' <= c <= 'f') || ('A' <= c <= 'F')
  }

  type Hex = c: char | IsHex(c) witness '0'

  type Unescaped = c: char | c >= ' ' && c != '"' && c != '\\' witness 'a'

  type Escapable = c: char | c in "\"\\/bfnrt" witness 'n'

  /** One character of a string as section 7 writes it. */
  datatype Unit = Raw(c: Unescaped) | Escaped(e: Escapable) | Code(a: Hex, b: Hex, c': Hex, d: Hex)

  /** A value with the white space the grammar allows around its parts. */
  datatype Json = Literal(text: Word) | Text(units: seq<Unit>) | Array(items: Items) | Object(members: Members)

  datatype Items = NoItems(gap: Blank) | Item(lead: Blank, value: Json, trail: Blank, rest: Option<Items>)

  datatype Members =
    | NoMembers(gap: Blank)
    | Member(lead: Blank, key: seq<Unit>, before: Blank, after: Blank, value: Json, trail: Blank, rest: Option<Members>)

  function PrintUnit(u: Unit): string {
    match u
    case Raw(c) => [c]
    case Escaped(e) => ['\\', e]
    case Code(a, b, c, d) => ['\\', 'u', a, b, c, d]
  }

  function PrintUnits(units: seq<Unit>): string {
    if units == [] then [] else PrintUnits(units[..|units| - 1]) + PrintUnit(units[|units| - 1])
  }

  function PrintText(units: seq<Unit>): string {
    ['"'] + PrintUnits(units) + ['"']
  }

  function Print(v: Json): string {
    match v
    case Literal(text) => text
    case Text(units) => PrintText(units)
    case Array(items) => ['['] + PrintItems(items) + [']']
    case Object(members) => ['{'] + PrintMembers(members) + ['}']
  }

  function PrintItems(items: Items): string {
    match items
    case NoItems(gap) => gap
    case Item(lead, value, trail, rest) =>
      lead + Print(value) + trail + (match rest case None => [] case Some(more) => [','] + PrintItems(more))
  }

  function PrintMembers(members: Members): string {
    match members
    case NoMembers(gap) => gap
    case Member(lead, key, before, after, value, trail, rest) =>
      lead + PrintText(key) + before + [':'] + after + Print(value) + trail
      + (match rest case None => [] case Some(more) => [','] + PrintMembers(more))
  }

  // ------------------------------------------------------------------ what a printed value does to the counter

  /** Text the counter comes out of as it went in. */
  ghost predicate Neutral(t: string) {
    forall d: int :: d >= 1 ==> Feed(Out(d), t) == Out(d)
  }

  lemma NeutralAppend(a: string, b: string)
    requires Neutral(a) && Neutral(b)
    ensures Neutral(a + b)
  {
    forall d: int | d >= 1
      ensures Feed(Out(d), a + b) == Out(d)
    {
      FeedAppend(Out(d), a, b);
    }
  }

  predicate IsPlain(c: char) {
    c != '"' && c != '{' && c != '}'
  }

  lemma {:induction false} PlainKeeps(t: string, d: int)
    requires forall i :: 0 <= i < |t| ==> IsPlain(t[i])
    ensures Feed(Out(d), t) == Out(d)
    decreases |t|
  {
    if t != [] {
      PlainKeeps(t[..|t| - 1], d);
      assert IsPlain(t[|t| - 1]);
    }
  }

  lemma PlainIsNeutral(t: string)
    requires forall i :: 0 <= i < |t| ==> IsPlain(t[i])
    ensures Neutral(t)
  {
    forall d: int | d >= 1 ensures Feed(Out(d), t) == Out(d) { PlainKeeps(t, d); }
  }

  lemma BlankIsNeutral(t: Blank)
    ensures Neutral(t)
  {
    assert forall i :: 0 <= i < |t| ==> IsBlank(t[i]);
    PlainIsNeutral(t);
  }

  lemma WordIsNeutral(t: Word)
    ensures Neutral(t)
  {
    assert forall i :: 0 <= i < |t| ==> IsWordChar(t[i]);
    PlainIsNeutral(t);
  }

  /** Whatever a string spells, escaping keeps the counter inside it. */
  lemma UnitStaysInside(u: Unit, d: int)
    ensures Feed(In(d), PrintUnit(u)) == In(d)
  {
    match u
    case Raw(c) => FeedOne(In(d), c);
    case Escaped(e) =>
      assert ['\\', e] == ['\\'] + [e];
      FeedAppend(In(d), ['\\'], [e]);
      FeedOne(In(d), '\\');
      FeedOne(Esc(d), e);
    case Code(a, b, c, e) =>
      assert ['\\', 'u', a, b, c, e] == ['\\'] + ['u'] + [a] + [b] + [c] + [e];
      FeedOne(In(d), '\\');
      FeedOne(Esc(d), 'u');
      FeedAppend(In(d), ['\\'], ['u']);
      FeedAppend(In(d), ['\\'] + ['u'], [a]);
      FeedAppend(In(d), ['\\'] + ['u'] + [a], [b]);
      FeedAppend(In(d), ['\\'] + ['u'] + [a] + [b], [c]);
      FeedAppend(In(d), ['\\'] + ['u'] + [a] + [b] + [c], [e]);
      HexStaysInside(a, d);
      HexStaysInside(b, d);
      HexStaysInside(c, d);
      HexStaysInside(e, d);
  }

  lemma HexStaysInside(h: Hex, d: int)
    ensures Feed(In(d), [h]) == In(d)
  {
    FeedOne(In(d), h);
  }

  lemma {:induction false} UnitsStayInside(units: seq<Unit>, d: int)
    ensures Feed(In(d), PrintUnits(units)) == In(d)
    decreases |units|
  {
    if units != [] {
      var n := |units| - 1;
      UnitsStayInside(units[..n], d);
      UnitStaysInside(units[n], d);
      FeedAppend(In(d), PrintUnits(units[..n]), PrintUnit(units[n]));
    }
  }

  lemma TextIsNeutral(units: seq<Unit>)
    ensures Neutral(PrintText(units))
  {
    forall d: int | d >= 1
      ensures Feed(Out(d), PrintText(units)) == Out(d)
    {
      UnitsStayInside(units, d);
      FeedOne(Out(d), '"');
      FeedOne(In(d), '"');
      FeedAppend(Out(d), ['"'], PrintUnits(units));
      FeedAppend(Out(d), ['"'] + PrintUnits(units), ['"']);
    }
  }

  lemma MarkIsNeutral(c: char)
    requires IsPlain(c)
    ensures Neutral([c])
  {
    PlainIsNeutral([c]);
  }

  /** An object between its braces: one level down for its members, and back up - or done, at the top. */
  lemma BracesAround(inner: string, d: int)
    requires Neutral(inner) && d >= 0
    ensures Feed(Out(d), ['{'] + inner) == Out(d + 1)
    ensures Feed(Out(d), ['{'] + inner + ['}']) == if d == 0 then Done else Out(d)
  {
    FeedOne(Out(d), '{');
    FeedOne(Out(d + 1), '}');
    FeedAppend(Out(d), ['{'], inner);
    FeedAppend(Out(d), ['{'] + inner, ['}']);
  }

  lemma {:induction false} ValueIsNeutral(v: Json)
    ensures Neutral(Print(v))
    decreases v
  {
    hide Neutral;
    match v
    case Literal(text) => WordIsNeutral(text);
    case Text(units) => TextIsNeutral(units);
    case Array(items) =>
      ItemsAreNeutral(items);
      MarkIsNeutral('[');
      MarkIsNeutral(']');
      NeutralAppend(['['], PrintItems(items));
      NeutralAppend(['['] + PrintItems(items), [']']);
    case Object(members) =>
      MembersAreNeutral(members);
      ObjectIsNeutral(PrintMembers(members));
  }

  lemma ObjectIsNeutral(inner: string)
    requires Neutral(inner)
    ensures Neutral(['{'] + inner + ['}'])
  {
    forall d: int | d >= 1
      ensures Feed(Out(d), ['{'] + inner + ['}']) == Out(d)
    {
      BracesAround(inner, d);
    }
  }

  lemma EmptyIsNeutral()
    ensures Neutral([])
  {
  }

  lemma {:induction false} ItemsAreNeutral(items: Items)
    ensures Neutral(PrintItems(items))
    decreases items
  {
    hide Neutral;
    match items
    case NoItems(gap) => BlankIsNeutral(gap);
    case Item(lead, value, trail, rest) =>
      BlankIsNeutral(lead);
      ValueIsNeutral(value);
      BlankIsNeutral(trail);
      NeutralAppend(lead, Print(value));
      NeutralAppend(lead + Print(value), trail);
      EmptyIsNeutral();
      if rest.Some? {
        ItemsAreNeutral(rest.value);
        MarkIsNeutral(',');
        NeutralAppend([','], PrintItems(rest.value));
      }
      NeutralAppend(lead + Print(value) + trail, if rest.Some? then [','] + PrintItems(rest.value) else []);
  }

  lemma {:induction false} MembersAreNeutral(members: Members)
    ensures Neutral(PrintMembers(members))
    decreases members
  {
    hide Neutral;
    match members
    case NoMembers(gap) => BlankIsNeutral(gap);
    case Member(lead, key, before, after, value, trail, rest) =>
      MemberIsNeutral(lead, key, before, after);
      ValueIsNeutral(value);
      BlankIsNeutral(trail);
      var head := lead + PrintText(key) + before + [':'] + after;
      NeutralAppend(head, Print(value));
      NeutralAppend(head + Print(value), trail);
      EmptyIsNeutral();
      if rest.Some? {
        MembersAreNeutral(rest.value);
        MarkIsNeutral(',');
        NeutralAppend([','], PrintMembers(rest.value));
      }
      NeutralAppend(head + Print(value) + trail, if rest.Some? then [','] + PrintMembers(rest.value) else []);
  }

  lemma MemberIsNeutral(lead: Blank, key: seq<Unit>, before: Blank, after: Blank)
    ensures Neutral(lead + PrintText(key) + before + [':'] + after)
  {
    hide Neutral, PrintText;
    BlankIsNeutral(lead);
    BlankIsNeutral(before);
    BlankIsNeutral(after);
    TextIsNeutral(key);
    MarkIsNeutral(':');
    NeutralAppend(lead, PrintText(key));
    NeutralAppend(lead + PrintText(key), before);
    NeutralAppend(lead + PrintText(key) + before, [':']);
    NeutralAppend(lead + PrintText(key) + before + [':'], after);
  }

  /** In any text, the counter started on the first brace of a printed object stops on its last one - whatever its
      strings contain and whatever follows. */
  lemma StopsOnItsLastBrace(pre: string, o: Json, post: string)
    requires o.Object?
    ensures StopsAt(pre + Print(o) + post, |pre|, |pre| + |Print(o)| - 1)
  {
    var inner := PrintMembers(o.members);
    var s := pre + Print(o) + post;
    MembersAreNeutral(o.members);
    BracesAround(inner, 0);
    assert s[|pre|..|pre| + |Print(o)| - 1] == ['{'] + inner;
    assert s[|pre|..|pre| + |Print(o)|] == ['{'] + inner + ['}'];
  }

  // ------------------------------------------------------------------ the search

  /** The first brace at or after `from`. */
  function BraceFrom(s: string, from: nat): (i: nat)
    requires from <= |s|
    ensures from <= i <= |s| && (i < |s| ==> s[i] == '{') && forall k :: from <= k < i ==> s[k] != '{'
    decreases |s| - from
  {
    if from == |s| || s[from] == '{' then from else BraceFrom(s, from + 1)
  }

  /** A slice that the counter delimits and the parser takes for an object. */
  predicate Hit(s: string, parse: string -> Option<Json>, start: nat, end: nat) {
    StopsAt(s, start, end) && parse(s[start..end + 1]).Some? && parse(s[start..end + 1]).value.Object?
  }

  /** The counter, started at `start`, stops somewhere. */
  predicate Closes(s: string, start: nat) {
    start <= |s| && Feed(Out(0), s[start..]) == Done
  }

  /** The search goes on past the brace at k: it closes, and no slice of it is taken for an object. */
  ghost predicate Passed(s: string, parse: string -> Option<Json>, k: nat) {
    Closes(s, k) && forall e :: !Hit(s, parse, k, e)
  }

  /** Every brace before n is passed, so the search gets as far as n. */
  ghost predicate Reaches(s: string, parse: string -> Option<Json>, n: nat) {
    n <= |s| && forall k :: 0 <= k < n && s[k] == '{' ==> Passed(s, parse, k)
  }

  /** The search gives up: at a brace that is never closed, or at the end of the text. */
  ghost predicate GivesUpAt(s: string, parse: string -> Option<Json>, k: nat) {
    Reaches(s, parse, k) && (k == |s| || (s[k] == '{' && !Closes(s, k)))
  }

  ghost predicate Barren(s: string, parse: string -> Option<Json>) {
    exists k :: GivesUpAt(s, parse, k)
  }

  /** What one search answers, and where it stopped. */
  ghost predicate Answers(s: string, parse: string -> Option<Json>, r: Option<Json>, at: nat, last: nat) {
    Reaches(s, parse, at) &&
    if r.None? then GivesUpAt(s, parse, at)
    else at < |s| && s[at] == '{' && Hit(s, parse, at, last) && r == parse(s[at..last + 1])
  }

  /** From each brace in turn, until one is never closed. */
  method ObjectIn(s: string, parse: string -> Option<Json>) returns (r: Option<Json>, at: nat, last: nat)
    ensures Answers(s, parse, r, at, last)
    ensures r.None? <==> Barren(s, parse)
  {
    var start := BraceFrom(s, 0);
    last := 0;
    while start < |s|
      invariant start <= |s| && (start < |s| ==> s[start] == '{') && Reaches(s, parse, start)
    {
      var end := BalancedEnd(s, start);
      if end < 0 {
        assert GivesUpAt(s, parse, start);
        return None, start, last;
      }
      StopMeansCloses(s, start, end);
      var value := parse(s[start..end + 1]);
      if value.Some? && value.value.Object? {
        HitIsNotBarren(s, parse, start, end);
        return value, start, end;
      }
      forall e | Hit(s, parse, start, e)
        ensures false
      {
        StopsOnce(s, start, e, end);
      }
      start := BraceFrom(s, start + 1);
    }
    r, at := None, |s|;
    assert GivesUpAt(s, parse, at);
  }

  lemma StopMeansCloses(s: string, start: nat, end: nat)
    requires StopsAt(s, start, end)
    ensures Closes(s, start)
  {
    DoneBefore(s, start, end, |s|);
    assert s[start..|s|] == s[start..];
  }

  lemma HitIsNotPassed(s: string, parse: string -> Option<Json>, at: nat, last: nat)
    requires Hit(s, parse, at, last)
    ensures Closes(s, at) && !Passed(s, parse, at)
  {
    StopMeansCloses(s, at, last);
  }

  lemma HitIsNotBarren(s: string, parse: string -> Option<Json>, at: nat, last: nat)
    requires at < |s| && s[at] == '{' && Reaches(s, parse, at) && Hit(s, parse, at, last)
    ensures !Barren(s, parse)
  {
    hide Passed, Closes, Hit;
    HitIsNotPassed(s, parse, at, last);
    forall k
      ensures !GivesUpAt(s, parse, k)
    {
      ClosesWhenPassed(s, parse, k);
    }
  }

  lemma ClosesWhenPassed(s: string, parse: string -> Option<Json>, k: nat)
    ensures Passed(s, parse, k) ==> Closes(s, k)
  {
  }

  /** The same of every object printed anywhere in a text. */
  lemma FoundAnywhere(s: string, parse: string -> Option<Json>, r: Option<Json>, at: nat, last: nat)
    requires Answers(s, parse, r, at, last)
    ensures forall pre, o, post :: s == pre + Print(o) + post && o.Object? && parse(Print(o)) == Some(o) ==>
              && ((r.Some? && at == |pre|) <==> Reaches(s, parse, |pre|))
              && (Reaches(s, parse, |pre|) ==> r == Some(o))
  {
    hide Reaches, Print, Answers;
    forall pre, o, post | s == pre + Print(o) + post && o.Object? && parse(Print(o)) == Some(o)
      ensures (r.Some? && at == |pre|) <==> Reaches(s, parse, |pre|)
      ensures Reaches(s, parse, |pre|) ==> r == Some(o)
    {
      FoundExactlyWhenReached(pre, o, post, parse, r, at, last);
    }
  }

  /** The fenced blocks in their order, then the whole reply: the answer comes from the first of them that is not
      barren, and there is none when all are. */
  method ExtractJsonObject(fenced: seq<string>, text: string, parse: string -> Option<Json>)
    returns (r: Option<Json>, ghost source: string, ghost i: nat, ghost at: nat, ghost last: nat)
    ensures i <= |fenced| && source == if i < |fenced| then fenced[i] else text
    ensures forall j :: 0 <= j < i ==> Barren(fenced[j], parse)
    ensures r.Some? <==> !Barren(source, parse)
    ensures r.Some? ==> r.value.Object?
    ensures r.None? ==> i == |fenced|
    ensures Answers(source, parse, r, at, last)
    ensures forall pre, o, post :: source == pre + Print(o) + post && o.Object? && parse(Print(o)) == Some(o) ==>
              && ((r.Some? && at == |pre|) <==> Reaches(source, parse, |pre|))
              && (Reaches(source, parse, |pre|) ==> r == Some(o))
  {
    hide Reaches, Print;
    i := 0;
    for n := 0 to |fenced|
      invariant i == n && forall j :: 0 <= j < i ==> Barren(fenced[j], parse)
    {
      source := fenced[n];
      r, at, last := ObjectIn(fenced[n], parse);
      if r.Some? {
        FoundAnywhere(source, parse, r, at, last);
        return;
      }
      i := i + 1;
    }
    source := text;
    r, at, last := ObjectIn(text, parse);
    FoundAnywhere(text, parse, r, at, last);
  }

  /** A printed object in a text is the one a search stops on exactly when every brace before it is passed: it closes
      somewhere in the text, and the parser takes no slice of it for an object.  Then the search returns that object. */
  lemma FoundExactlyWhenReached(pre: string, o: Json, post: string, parse: string -> Option<Json>,
                                r: Option<Json>, at: nat, last: nat)
    requires o.Object? && parse(Print(o)) == Some(o) && Answers(pre + Print(o) + post, parse, r, at, last)
    ensures (r.Some? && at == |pre|) <==> Reaches(pre + Print(o) + post, parse, |pre|)
    ensures Reaches(pre + Print(o) + post, parse, |pre|) ==> r == Some(o) && last == |pre| + |Print(o)| - 1
  {
    hide Feed, Print, Hit, Reaches, Answers;
    var s, n, m := pre + Print(o) + post, |pre|, |Print(o)|;
    ObjectIsHit(pre, o, post, parse);
    AnswerIsReached(s, parse, r, at, last);
    if Reaches(s, parse, n) { ReachedIsAnswered(s, parse, n, n + m - 1, r, at, last); }
  }

  lemma ObjectIsHit(pre: string, o: Json, post: string, parse: string -> Option<Json>)
    requires o.Object? && parse(Print(o)) == Some(o)
    ensures var s, n, m := pre + Print(o) + post, |pre|, |Print(o)|;
            m > 0 && s[n] == '{' && s[n..n + m] == Print(o) && Hit(s, parse, n, n + m - 1)
  {
    hide Feed, StopsAt;
    StopsOnItsLastBrace(pre, o, post);
    var s, n, m := pre + Print(o) + post, |pre|, |Print(o)|;
    assert s[n..n + m] == Print(o);
    assert s[n] == Print(o)[0] == '{';
  }

  lemma AnswerIsReached(s: string, parse: string -> Option<Json>, r: Option<Json>, at: nat, last: nat)
    requires Answers(s, parse, r, at, last)
    ensures Reaches(s, parse, at)
  {
  }

  lemma ReachedIsAnswered(s: string, parse: string -> Option<Json>, n: nat, end: nat, r: Option<Json>, at: nat,
                          last: nat)
    requires n < |s| && s[n] == '{' && Reaches(s, parse, n) && Hit(s, parse, n, end) && Answers(s, parse, r, at, last)
    ensures at == n && last == end && r == parse(s[n..end + 1])
  {
    hide Passed, Closes, Hit;
    HitIsNotPassed(s, parse, n, end);
    ClosesWhenPassed(s, parse, at);
    if r.Some? {
      HitIsNotPassed(s, parse, at, last);
      OneEnd(s, parse, n, end, at, last);
    }
  }

  lemma OneEnd(s: string, parse: string -> Option<Json>, n: nat, end: nat, at: nat, last: nat)
    requires Hit(s, parse, n, end) && Hit(s, parse, at, last)
    ensures n == at ==> end == last
  {
    if n == at { StopsOnce(s, n, end, last); }
  }

  /** After text without a brace, then, an object is always found, whatever follows it. */
  lemma NoBraceBeforeIsEnough(pre: string, o: Json, post: string, parse: string -> Option<Json>)
    requires '{' !in pre
    ensures Reaches(pre + Print(o) + post, parse, |pre|)
  {
    hide Print;
    var s := pre + Print(o) + post;
    assert forall k :: 0 <= k < |pre| ==> s[k] == pre[k];
  }

  /** A brace left open in prose before the object: it closes exactly when the text behind the object closes it. */
  lemma StrayBraceClosesBehind(a: string, b: string, o: Json, post: string)
    requires o.Object? && forall i :: 0 <= i < |b| ==> IsPlain(b[i])
    ensures Closes(a + ['{'] + b + Print(o) + post, |a|) <==> Feed(Out(1), post) == Done
  {
    hide Print, Feed;
    ValueIsNeutral(o);
    PlainKeeps(b, 1);
    FeedOne(Out(0), '{');
    FeedAppend(Out(0), ['{'], b);
    FeedAppend(Out(0), ['{'] + b, Print(o));
    FeedAppend(Out(0), ['{'] + b + Print(o), post);
    assert (a + ['{'] + b + Print(o) + post)[|a|..] == ['{'] + b + Print(o) + post;
  }

  /** Prose with one stray brace, anywhere in it, before the object.  The object is reached exactly when
      the text behind it closes that brace and the parser refuses the slice; when nothing closes it, the
      search gives up there. */
  lemma StrayBraceHides(a: string, b: string, o: Json, post: string, parse: string -> Option<Json>)
    requires o.Object?
    requires (forall i :: 0 <= i < |a| ==> IsPlain(a[i])) && (forall i :: 0 <= i < |b| ==> IsPlain(b[i]))
    ensures var s := a + ['{'] + b + Print(o) + post;
            && (Reaches(s, parse, |a| + 1 + |b|) <==> Feed(Out(1), post) == Done && forall e :: !Hit(s, parse, |a|, e))
            && (Feed(Out(1), post) != Done ==> GivesUpAt(s, parse, |a|))
  {
    hide Print, Feed, Hit;
    StrayBraceClosesBehind(a, b, o, post);
    var s := a + ['{'] + b + Print(o) + post;
    assert s[|a|] == '{';
    assert forall k :: 0 <= k < |a| ==> s[k] == a[k] && IsPlain(a[k]);
    assert forall k :: 0 <= k < |b| ==> s[|a| + 1 + k] == b[k] && IsPlain(b[k]);
    forall k | 0 <= k < |a| + 1 + |b| && k != |a|
      ensures s[k] != '{'
    {
      if k > |a| { assert s[k] == b[k - |a| - 1]; }
    }
  }
}
