/** The preflight check of zip containers (src/archiveBudget.ts): a search for the end-of-central-directory record and a
    walk over the central directory, against the layout of sections 4.3.12 and 4.3.16 of PKWARE's APPNOTE.TXT. */
module ArchiveBudget {
  import opened Basics

  type Byte = x: int | 0 <= x < 256

  const EOCD := 0x0605_4b50
  const CENTRAL_FILE := 0x0201_4b50
  const NO_16 := 0xffff
  const NO_32 := 0xffff_ffff
  const MAX_SAFE := 0x1f_ffff_ffff_ffff

  datatype Budget = Budget(maxEntries: nat, maxExpandedBytes: nat, maxEntryBytes: nat)

  /** The source's answer: null, or which complaint. */
  datatype Verdict =
    | Fine | NoDirectory | Unsupported | TooManyEntries | OutsideFile
    | Malformed | Zip64Entry | EntryTooBig | ExpandsTooFar

  /** Little-endian reads; asking outside the buffer would throw. */
  function U16(b: seq<Byte>, at: nat): (r: nat)
    requires at + 2 <= |b|
    ensures r <= 0xffff
  {
    b[at] as int + 0x100 * b[at + 1] as int
  }

  function U32(b: seq<Byte>, at: nat): (r: nat)
    requires at + 4 <= |b|
    ensures r <= 0xffff_ffff
  {
    b[at] as int + 0x100 * b[at + 1] as int + 0x1_0000 * b[at + 2] as int + 0x100_0000 * b[at + 3] as int
  }

  /** The last signature at or below `at` and not below `low`, -1 when there is none. */
  function Search(b: seq<Byte>, at: int, low: nat): (r: int)
    requires at + 22 <= |b|
    ensures r == -1 || (low <= r <= at && U32(b, r) == EOCD)
    decreases at
  {
    if at < low then -1 else if U32(b, at) == EOCD then at else Search(b, at - 1, low)
  }

  /** The remaining entries of the directory. */
  function Walk(b: seq<Byte>, at: nat, left: nat, expanded: nat, budget: Budget): Verdict
    decreases left
  {
    if left == 0 then Fine
    else if at + 46 > |b| || U32(b, at) != CENTRAL_FILE then Malformed
    else
      var size := U32(b, at + 24);
      if size == NO_32 then Zip64Entry
      else if size > budget.maxEntryBytes then EntryTooBig
      else if expanded + size > MAX_SAFE || expanded + size > budget.maxExpandedBytes then ExpandsTooFar
      else Walk(b, at + 46 + U16(b, at + 28) + U16(b, at + 30) + U16(b, at + 32), left - 1, expanded + size, budget)
  }

  function Directory(b: seq<Byte>, eocd: nat, budget: Budget): Verdict
    requires eocd + 22 <= |b|
  {
    var entries, size, offset := U16(b, eocd + 10), U32(b, eocd + 12), U32(b, eocd + 16);
    if U16(b, eocd + 4) != 0 || U16(b, eocd + 6) != 0 then Unsupported
    else if entries == NO_16 || size == NO_32 || offset == NO_32 then Unsupported
    else if entries > budget.maxEntries then TooManyEntries
    else if offset > |b| || size > |b| - offset then OutsideFile
    else Walk(b, offset, entries, 0, budget)
  }

  function Check(b: seq<Byte>, budget: Budget): Verdict {
    if |b| < 4 || b[0] != 0x50 || b[1] != 0x4b then Fine
    else
      var eocd := Search(b, |b| - 22, Max(0, |b| - (65535 + 22)));
      if eocd < 0 then NoDirectory else Directory(b, eocd, budget)
  }

  // ------------------------------------------------------------------ the format

  function Le16(n: nat): seq<Byte>
    requires n <= 0xffff
  {
    [n % 0x100, n / 0x100]
  }

  function Le32(n: nat): seq<Byte>
    requires n <= 0xffff_ffff
  {
    [n % 0x100, n / 0x100 % 0x100, n / 0x1_0000 % 0x100, n / 0x100_0000]
  }

  /** Bytes of a fixed length that the check does not look at. */
  type Twenty = s: seq<Byte> | |s| == 20 witness seq(20, _ => 0)
  type Twelve = s: seq<Byte> | |s| == 12 witness seq(12, _ => 0)
  type Short = s: seq<Byte> | |s| <= 0xffff
  type Size = n: nat | n < NO_32

  /** A file header of the central directory, section 4.3.12: `head` runs from the versions to the compressed size,
      `tail` from the disk number to the local header's offset. */
  datatype Entry = Entry(head: Twenty, size: Size, tail: Twelve, name: Short, extra: Short, comment: Short)

  function PrintEntry(e: Entry): seq<Byte> {
    Le32(CENTRAL_FILE) + e.head + Le32(e.size) + Le16(|e.name|) + Le16(|e.extra|) + Le16(|e.comment|) + e.tail
    + (e.name + e.extra + e.comment)
  }

  function PrintEntries(es: seq<Entry>): seq<Byte> {
    if es == [] then [] else PrintEntry(es[0]) + PrintEntries(es[1..])
  }

  /** The end record, section 4.3.16, of an archive on one disk. */
  function PrintEnd(entries: nat, size: nat, offset: nat, comment: Short): seq<Byte>
    requires entries < NO_16 && size < NO_32 && offset < NO_32
  {
    Le32(EOCD) + Le16(0) + Le16(0) + Le16(entries) + Le16(entries) + Le32(size) + Le32(offset) + Le16(|comment|)
    + comment
  }

  predicate Printable(local: seq<Byte>, es: seq<Entry>) {
    |es| < NO_16 && |PrintEntries(es)| < NO_32 && |local| < NO_32
  }

  /** A whole archive: the local files, of which the check reads nothing but the first two bytes, and the directory. */
  function PrintArchive(local: seq<Byte>, es: seq<Entry>, comment: Short): seq<Byte>
    requires Printable(local, es)
  {
    local + PrintEntries(es) + PrintEnd(|es|, |PrintEntries(es)|, |local|, comment)
  }

  function Expanded(es: seq<Entry>): nat {
    if es == [] then 0 else es[0].size + Expanded(es[1..])
  }

  predicate Within(es: seq<Entry>, limit: nat) {
    es == [] || (es[0].size <= limit && Within(es[1..], limit))
  }

  // ------------------------------------------------------------------ reading back what was printed

  predicate At(b: seq<Byte>, at: nat, t: seq<Byte>) {
    at + |t| <= |b| && b[at..at + |t|] == t
  }

  lemma AtParts(b: seq<Byte>, at: nat, s: seq<Byte>, t: seq<Byte>)
    requires At(b, at, s + t)
    ensures At(b, at, s) && At(b, at + |s|, t)
  {
    assert b[at..at + |s|] == (s + t)[..|s|];
    assert b[at + |s|..at + |s| + |t|] == (s + t)[|s|..];
  }

  lemma ReadLe16(b: seq<Byte>, at: nat, n: nat)
    requires n <= 0xffff && At(b, at, Le16(n))
    ensures U16(b, at) == n
  {
    assert b[at..at + 2][0] == b[at] && b[at..at + 2][1] == b[at + 1];
  }

  lemma ReadLe32(b: seq<Byte>, at: nat, n: nat)
    requires n <= 0xffff_ffff && At(b, at, Le32(n))
    ensures U32(b, at) == n
  {
    var t := b[at..at + 4];
    assert t[0] == b[at] && t[1] == b[at + 1] && t[2] == b[at + 2] && t[3] == b[at + 3];
    Digits(n);
  }

  lemma Digits(n: nat)
    ensures n % 0x100 + 0x100 * (n / 0x100 % 0x100) + 0x1_0000 * (n / 0x1_0000 % 0x100)
            + 0x100_0000 * (n / 0x100_0000) == n
  {
    assert n / 0x100 / 0x100 == n / 0x1_0000;
    assert n / 0x1_0000 / 0x100 == n / 0x100_0000;
  }

  /** The fields of a printed file header, where the walk looks for them. */
  lemma EntryFields(b: seq<Byte>, at: nat, e: Entry)
    requires At(b, at, PrintEntry(e))
    ensures at + 46 <= |b| && U32(b, at) == CENTRAL_FILE && U32(b, at + 24) == e.size
    ensures U16(b, at + 28) == |e.name| && U16(b, at + 30) == |e.extra| && U16(b, at + 32) == |e.comment|
    ensures |PrintEntry(e)| == 46 + |e.name| + |e.extra| + |e.comment|
  {
    hide Le16, Le32, At, U16, U32;
    Lengths(e);
    var s1 := Le32(CENTRAL_FILE) + e.head;
    var s2 := s1 + Le32(e.size);
    var s3 := s2 + Le16(|e.name|);
    var s4 := s3 + Le16(|e.extra|);
    var s5 := s4 + Le16(|e.comment|);
    var s6 := s5 + e.tail;
    AtParts(b, at, s6, e.name + e.extra + e.comment);
    AtBound(b, at, s6);
    AtParts(b, at, s5, e.tail);
    AtParts(b, at, s4, Le16(|e.comment|));
    AtParts(b, at, s3, Le16(|e.extra|));
    AtParts(b, at, s2, Le16(|e.name|));
    AtParts(b, at, s1, Le32(e.size));
    AtParts(b, at, Le32(CENTRAL_FILE), e.head);
    ReadLe32(b, at, CENTRAL_FILE);
    ReadLe32(b, at + 24, e.size);
    ReadLe16(b, at + 28, |e.name|);
    ReadLe16(b, at + 30, |e.extra|);
    ReadLe16(b, at + 32, |e.comment|);
  }

  lemma AtBound(b: seq<Byte>, at: nat, t: seq<Byte>)
    requires At(b, at, t)
    ensures at + |t| <= |b|
  {
  }

  lemma Lengths(e: Entry)
    ensures |Le32(CENTRAL_FILE)| == 4 && |Le32(e.size)| == 4
    ensures |Le16(|e.name|)| == 2 && |Le16(|e.extra|)| == 2 && |Le16(|e.comment|)| == 2
  {
  }

  lemma EndFields(b: seq<Byte>, at: nat, entries: nat, size: nat, offset: nat, comment: Short)
    requires entries < NO_16 && size < NO_32 && offset < NO_32 && At(b, at, PrintEnd(entries, size, offset, comment))
    ensures at + 22 <= |b| && U32(b, at) == EOCD && U16(b, at + 4) == 0 && U16(b, at + 6) == 0
    ensures U16(b, at + 10) == entries && U32(b, at + 12) == size && U32(b, at + 16) == offset
    ensures |PrintEnd(entries, size, offset, comment)| == 22 + |comment|
  {
    hide Le16, Le32, At, U16, U32;
    EndLengths(entries, size, offset, comment);
    var s1 := Le32(EOCD) + Le16(0);
    var s2 := s1 + Le16(0);
    var s3 := s2 + Le16(entries);
    var s4 := s3 + Le16(entries);
    var s5 := s4 + Le32(size);
    var s6 := s5 + Le32(offset);
    var s7 := s6 + Le16(|comment|);
    AtParts(b, at, s7, comment);
    AtBound(b, at, s7);
    AtParts(b, at, s6, Le16(|comment|));
    AtParts(b, at, s5, Le32(offset));
    AtParts(b, at, s4, Le32(size));
    AtParts(b, at, s3, Le16(entries));
    AtParts(b, at, s2, Le16(entries));
    AtParts(b, at, s1, Le16(0));
    AtParts(b, at, Le32(EOCD), Le16(0));
    ReadLe32(b, at, EOCD);
    ReadLe16(b, at + 4, 0);
    ReadLe16(b, at + 6, 0);
    ReadLe16(b, at + 10, entries);
    ReadLe32(b, at + 12, size);
    ReadLe32(b, at + 16, offset);
  }

  lemma EndLengths(entries: nat, size: nat, offset: nat, comment: Short)
    requires entries < NO_16 && size < NO_32 && offset < NO_32
    ensures |Le32(EOCD)| == |Le32(size)| == |Le32(offset)| == 4
    ensures |Le16(0)| == |Le16(entries)| == |Le16(|comment|)| == 2
  {
  }

  // ------------------------------------------------------------------ the walk and the search

  lemma {:induction false} WalkDecides(b: seq<Byte>, at: nat, es: seq<Entry>, expanded: nat, budget: Budget)
    requires At(b, at, PrintEntries(es)) && expanded <= budget.maxExpandedBytes
    requires expanded + Expanded(es) <= MAX_SAFE
    ensures Walk(b, at, |es|, expanded, budget) == Fine <==>
              Within(es, budget.maxEntryBytes) && expanded + Expanded(es) <= budget.maxExpandedBytes
    decreases |es|
  {
    hide At, PrintEntry, U16, U32;
    if es != [] {
      var e := es[0];
      AtParts(b, at, PrintEntry(e), PrintEntries(es[1..]));
      EntryFields(b, at, e);
      if e.size <= budget.maxEntryBytes && expanded + e.size <= budget.maxExpandedBytes {
        WalkDecides(b, at + |PrintEntry(e)|, es[1..], expanded + e.size, budget);
      }
    }
  }

  lemma {:induction false} SumIsSafe(es: seq<Entry>)
    ensures Expanded(es) <= 0xffff_ffff * |es|
    decreases |es|
  {
    if es != [] { SumIsSafe(es[1..]); }
  }

  lemma {:induction false} SearchFinds(b: seq<Byte>, at: int, low: nat, found: nat)
    requires at + 22 <= |b| && low <= found <= at && U32(b, found) == EOCD
    requires forall k :: found < k <= at ==> U32(b, k) != EOCD
    ensures Search(b, at, low) == found
    decreases at
  {
    if found < at { SearchFinds(b, at - 1, low, found); }
  }

  /** For every archive laid out by the two sections, on one disk and without the ZIP64 sentinels, whose end record is
      the last signature the search can meet: the check passes it exactly when the number of entries, each expanded
      size and their sum fit the budget. */
  lemma FineMeansWithinBudget(local: seq<Byte>, es: seq<Entry>, comment: Short, budget: Budget)
    requires Printable(local, es)
    requires var b := PrintArchive(local, es, comment); |b| >= 2 && b[0] == 0x50 && b[1] == 0x4b
    requires var b, eocd := PrintArchive(local, es, comment), |local| + |PrintEntries(es)|;
             forall k :: eocd < k <= |b| - 22 ==> U32(b, k) != EOCD
    ensures Check(PrintArchive(local, es, comment), budget) == Fine <==>
              |es| <= budget.maxEntries && Within(es, budget.maxEntryBytes) && Expanded(es) <= budget.maxExpandedBytes
  {
    hide U16, U32, Walk, Search, PrintEnd, PrintEntries, Within, Expanded;
    var b, dir := PrintArchive(local, es, comment), PrintEntries(es);
    var end, eocd := PrintEnd(|es|, |dir|, |local|, comment), |local| + |dir|;
    assert At(b, eocd, end) && At(b, |local|, dir);
    EndFields(b, eocd, |es|, |dir|, |local|, comment);
    SearchFinds(b, |b| - 22, Max(0, |b| - (65535 + 22)), eocd);
    SumIsSafe(es);
    WalkDecides(b, |local|, es, 0, budget);
  }

  // ------------------------------------------------------------------ any bytes at all

  /** Where the walk looks for the header after `k` others: each says how long its own three texts are. */
  function HeaderAt(b: seq<Byte>, at: nat, k: nat): nat {
    if k == 0 then at
    else
      var p := HeaderAt(b, at, k - 1);
      if p + 46 > |b| then |b| else p + 46 + U16(b, p + 28) + U16(b, p + 30) + U16(b, p + 32)
  }

  predicate IsHeader(b: seq<Byte>, p: nat) {
    p + 46 <= |b| && U32(b, p) == CENTRAL_FILE
  }

  /** What the first `k` headers announce to expand to. */
  function Announced(b: seq<Byte>, at: nat, k: nat): nat {
    if k == 0 then 0
    else
      var p := HeaderAt(b, at, k - 1);
      Announced(b, at, k - 1) + if p + 46 <= |b| then U32(b, p + 24) else 0
  }

  /** The first `k` headers are there, and none of them, alone or with those before it, is over the budget. */
  predicate Passes(b: seq<Byte>, at: nat, k: nat, budget: Budget) {
    k == 0 ||
    (var p := HeaderAt(b, at, k - 1);
     && Passes(b, at, k - 1, budget) && IsHeader(b, p)
     && U32(b, p + 24) != NO_32 && U32(b, p + 24) <= budget.maxEntryBytes
     && Announced(b, at, k) <= MAX_SAFE && Announced(b, at, k) <= budget.maxExpandedBytes)
  }

  lemma {:induction false} WalkGoesOn(b: seq<Byte>, at: nat, entries: nat, k: nat, budget: Budget)
    requires k <= entries && Passes(b, at, k, budget)
    ensures Walk(b, at, entries, 0, budget) ==
            Walk(b, HeaderAt(b, at, k), entries - k, Announced(b, at, k), budget)
    decreases k
  {
    hide U16, U32;
    if k > 0 { WalkGoesOn(b, at, entries, k - 1, budget); }
  }

  /** The verdict on any directory: fine exactly when every header passes; otherwise the complaint is about the first
      one that does not. */
  lemma WalkIsJudged(b: seq<Byte>, at: nat, entries: nat, budget: Budget, k: nat)
    ensures Passes(b, at, entries, budget) ==> Walk(b, at, entries, 0, budget) == Fine
    ensures k < entries && Passes(b, at, k, budget) && !Passes(b, at, k + 1, budget) ==>
              var p := HeaderAt(b, at, k);
              Walk(b, at, entries, 0, budget) ==
                if !IsHeader(b, p) then Malformed
                else if U32(b, p + 24) == NO_32 then Zip64Entry
                else if U32(b, p + 24) > budget.maxEntryBytes then EntryTooBig
                else ExpandsTooFar
  {
    hide U16, U32;
    if Passes(b, at, entries, budget) { WalkGoesOn(b, at, entries, entries, budget); }
    if k < entries && Passes(b, at, k, budget) { WalkGoesOn(b, at, entries, k, budget); }
  }

  lemma {:induction false} FirstFailure(b: seq<Byte>, at: nat, n: nat, budget: Budget) returns (k: nat)
    requires !Passes(b, at, n, budget)
    ensures k < n && Passes(b, at, k, budget) && !Passes(b, at, k + 1, budget)
    decreases n
  {
    if n > 0 && Passes(b, at, n - 1, budget) { k := n - 1; } else { k := FirstFailure(b, at, n - 1, budget); }
  }

  /** The last end-of-directory signature far enough from the end to leave room for the record and its comment. */
  predicate IsLast(b: seq<Byte>, e: nat) {
    e + 22 <= |b| <= e + 22 + 65535 && U32(b, e) == EOCD && forall k :: e < k <= |b| - 22 ==> U32(b, k) != EOCD
  }

  lemma {:induction false} SearchMeans(b: seq<Byte>, at: int, low: nat)
    requires at + 22 <= |b|
    ensures forall k :: Max(low, Search(b, at, low) + 1) <= k <= at ==> U32(b, k) != EOCD
    decreases at
  {
    if at >= low && U32(b, at) != EOCD { SearchMeans(b, at - 1, low); }
  }

  predicate OnOneDisk(b: seq<Byte>, e: nat)
    requires e + 22 <= |b|
  {
    && U16(b, e + 4) == 0 && U16(b, e + 6) == 0
    && U16(b, e + 10) != NO_16 && U32(b, e + 12) != NO_32 && U32(b, e + 16) != NO_32
  }

  /** The verdict on any bytes that start like a zip, laid out well or not: fine exactly when the last end record is
      that of an archive on one disk, its directory lies inside the file and has no more entries than the budget
      allows, and every header walked passes.  Bytes that start otherwise are no zip and are let through. */
  lemma CheckDecides(b: seq<Byte>, budget: Budget)
    ensures |b| < 4 || b[0] != 0x50 || b[1] != 0x4b ==> Check(b, budget) == Fine
    ensures |b| >= 4 && b[0] == 0x50 && b[1] == 0x4b ==>
              && (Check(b, budget) == NoDirectory <==> !exists e: nat :: IsLast(b, e))
              && forall e: nat :: IsLast(b, e) ==>
                   (Check(b, budget) == Fine <==>
                      && OnOneDisk(b, e) && U16(b, e + 10) <= budget.maxEntries
                      && U32(b, e + 16) + U32(b, e + 12) <= |b|
                      && Passes(b, U32(b, e + 16), U16(b, e + 10), budget))
  {
    hide U16, U32, Passes, Walk;
    if |b| >= 4 && b[0] == 0x50 && b[1] == 0x4b {
      var low := Max(0, |b| - (65535 + 22));
      SearchMeans(b, |b| - 22, low);
      var eocd := Search(b, |b| - 22, low);
      if eocd >= 0 {
        assert IsLast(b, eocd);
        JudgedBy(b, eocd, budget);
        forall e: nat | IsLast(b, e) ensures e == eocd { OneLast(b, e, eocd); }
      }
    }
  }

  lemma OneLast(b: seq<Byte>, d: nat, e: nat)
    requires IsLast(b, d) && IsLast(b, e)
    ensures d == e
  {
  }

  lemma JudgedBy(b: seq<Byte>, e: nat, budget: Budget)
    requires e + 22 <= |b|
    ensures Directory(b, e, budget) != NoDirectory
    ensures Directory(b, e, budget) == Fine <==>
              && OnOneDisk(b, e) && U16(b, e + 10) <= budget.maxEntries
              && U32(b, e + 16) + U32(b, e + 12) <= |b|
              && Passes(b, U32(b, e + 16), U16(b, e + 10), budget)
  {
    hide U16, U32, Passes, Walk, IsHeader, HeaderAt, Announced;
    var at, n := U32(b, e + 16), U16(b, e + 10);
    if Passes(b, at, n, budget) {
      WalkIsJudged(b, at, n, budget, 0);
    } else {
      var k := FirstFailure(b, at, n, budget);
      WalkIsJudged(b, at, n, budget, k);
    }
  }

  // ------------------------------------------------------------------ the code

  method FindEnd(bytes: seq<Byte>) returns (eocd: int)
    ensures eocd == Search(bytes, |bytes| - 22, Max(0, |bytes| - (65535 + 22)))
  {
    var searchStart: nat := Max(0, |bytes| - (65535 + 22));
    var at := |bytes| - 22;
    while at >= searchStart
      invariant at <= |bytes| - 22
      invariant Search(bytes, |bytes| - 22, searchStart) == Search(bytes, at, searchStart)
      decreases at
    {
      if U32(bytes, at) == EOCD {
        return at;
      }
      at := at - 1;
    }
    eocd := -1;
  }

  method WalkDirectory(bytes: seq<Byte>, start: nat, entries: nat, budget: Budget) returns (r: Verdict)
    ensures r == Walk(bytes, start, entries, 0, budget)
  {
    var at: nat := start;
    var expanded: nat := 0;
    for index := 0 to entries
      invariant Walk(bytes, start, entries, 0, budget) == Walk(bytes, at, entries - index, expanded, budget)
    {
      if at + 46 > |bytes| || U32(bytes, at) != CENTRAL_FILE {
        return Malformed;
      }
      var entryBytes := U32(bytes, at + 24);
      if entryBytes == NO_32 {
        return Zip64Entry;
      }
      if entryBytes > budget.maxEntryBytes {
        return EntryTooBig;
      }
      expanded := expanded + entryBytes;
      if expanded > MAX_SAFE || expanded > budget.maxExpandedBytes {
        return ExpandsTooFar;
      }
      at := at + 46 + U16(bytes, at + 28) + U16(bytes, at + 30) + U16(bytes, at + 32);
    }
    r := Fine;
  }

  /** No precondition: whatever the bytes, every read is inside them. */
  method ArchiveBudgetError(bytes: seq<Byte>, budget: Budget) returns (r: Verdict)
    ensures r == Check(bytes, budget)
  {
    if |bytes| < 4 || bytes[0] != 0x50 || bytes[1] != 0x4b {
      return Fine;
    }
    var eocd := FindEnd(bytes);
    if eocd < 0 {
      return NoDirectory;
    }
    var disk, centralDisk := U16(bytes, eocd + 4), U16(bytes, eocd + 6);
    var entries := U16(bytes, eocd + 10);
    var centralBytes, centralOffset := U32(bytes, eocd + 12), U32(bytes, eocd + 16);
    if disk != 0 || centralDisk != 0 || entries == NO_16 || centralBytes == NO_32 || centralOffset == NO_32 {
      return Unsupported;
    }
    if entries > budget.maxEntries {
      return TooManyEntries;
    }
    if centralOffset > |bytes| || centralBytes > |bytes| - centralOffset {
      return OutsideFile;
    }
    r := WalkDirectory(bytes, centralOffset, entries, budget);
  }
}
