/** Which lines of a Markdown document are marked as a design that is not built. */
module Markdown {

  // ---- one line

  predicate IsSpace(c: char) {
    c == ' ' || '\t' <= c <= '\r'
  }

  predicate IsDigit(c: char) {
    '0' <= c <= '9'
  }

  /** The end of the run of characters satisfying `p` that starts at `i`. */
  function RunEnd(s: string, i: nat, p: char -> bool): (e: nat)
    requires i <= |s|
    ensures i <= e <= |s|
    decreases |s| - i
  {
    if i < |s| && p(s[i]) then RunEnd(s, i + 1, p) else i
  }

  function StripLeft(s: string): string {
    s[RunEnd(s, 0, IsSpace)..]
  }

  /** One to six hashes followed by white space: the number of hashes, otherwise 0. */
  function Level(s: string): (n: nat)
    ensures n <= 6
  {
    var n := RunEnd(s, 0, c => c == '#');
    if n <= 6 && n < |s| && IsSpace(s[n]) then n else 0
  }

  predicate Heading(s: string) {
    Level(s) > 0
  }

  predicate Item(s: string) {
    "- " <= s
  }

  predicate Boundary(s: string) {
    Item(s) || Heading(s)
  }

  datatype Fence = NoFence | Backticks | Tildes

  function FenceOf(s: string): Fence {
    var t := StripLeft(s);
    if "```" <= t then Backticks else if "~~~" <= t then Tildes else NoFence
  }

  // ---- the marker

  const DESIGN_MARK := "Design (not built)"

  const BOLD_MARK := "**" + DESIGN_MARK + "**"

  /** Removes inline code: each backtick up to the next one. */
  function WithoutCode(s: string): string
    decreases |s|
  {
    if s == [] then []
    else if s[0] != '`' then [s[0]] + WithoutCode(s[1..])
    else
      var e := RunEnd(s, 1, c => c != '`');
      if e < |s| then WithoutCode(s[e + 1..]) else [s[0]] + WithoutCode(s[1..])
  }

  /** The end of one list bullet, quote mark or number at `i`, or `i` itself. */
  function BulletEnd(s: string, i: nat): (e: nat)
    requires i <= |s|
    ensures i <= e <= |s|
  {
    if i == |s| then i
    else if s[i] in "-*+" then
      var e := RunEnd(s, i + 1, IsSpace);
      if e > i + 1 then e else i
    else if s[i] == '>' then RunEnd(s, i + 1, IsSpace)
    else
      var d := RunEnd(s, i, IsDigit);
      if d > i && d < |s| && s[d] in ".)" then
        var e := RunEnd(s, d + 1, IsSpace);
        if e > d + 1 then e else i
      else i
  }

  function BulletsEnd(s: string, i: nat): (e: nat)
    requires i <= |s|
    ensures i <= e <= |s|
    decreases |s| - i
  {
    var e := BulletEnd(s, i);
    if e > i then BulletsEnd(s, e) else i
  }

  function WithoutBullets(s: string): string {
    s[BulletsEnd(s, RunEnd(s, 0, IsSpace))..]
  }

  /** Drops a leading `**word**:` of at most forty characters. */
  function WithoutStatus(s: string): string {
    if !("**" <= s) then s
    else
      var e := RunEnd(s, 2, c => c != '*');
      if 1 <= e - 2 <= 40 && "**" <= s[e..] then
        var c := RunEnd(s, e + 2, IsSpace);
        if c < |s| && s[c] == ':' then s[RunEnd(s, c + 1, IsSpace)..] else s
      else s
  }

  predicate Contains(s: string, t: string) {
    exists i :: 0 <= i <= |s| && t <= s[i..]
  }

  predicate Marks(line: string) {
    var bare := WithoutCode(line);
    if Heading(bare) then Contains(bare, DESIGN_MARK)
    else
      var rest := WithoutBullets(bare);
      BOLD_MARK <= rest || BOLD_MARK <= WithoutStatus(rest)
  }

  // ---- fences

  /** Line `j` opens a fence: it has a fence mark, and every earlier fence was closed by a
      mark of its own kind before `j`. */
  ghost predicate Opens(lines: seq<string>, j: nat)
    requires j < |lines|
    decreases j
  {
    FenceOf(lines[j]) != NoFence &&
    forall k | 0 <= k < j :: Opens(lines, k) ==> exists c :: k < c < j && FenceOf(lines[c]) == FenceOf(lines[k])
  }

  /** Line `i` lies in the fence opened at `j`, which its own closing line still belongs to. */
  ghost predicate FencedBy(lines: seq<string>, j: nat, i: nat)
    requires j <= i < |lines|
  {
    Opens(lines, j) && forall c :: j < c < i ==> FenceOf(lines[c]) != FenceOf(lines[j])
  }

  ghost predicate InFence(lines: seq<string>, i: nat)
    requires i < |lines|
  {
    exists j :: 0 <= j <= i && FencedBy(lines, j, i)
  }

  /** `mark` is the kind of the fence still open after the first `n` lines. */
  ghost predicate StillOpen(lines: seq<string>, n: nat, mark: Fence)
    requires n <= |lines|
  {
    if mark == NoFence then
      forall k :: 0 <= k < n && Opens(lines, k) ==> exists c :: k < c < n && FenceOf(lines[c]) == FenceOf(lines[k])
    else
      exists j :: 0 <= j < n && OnlyOpen(lines, n, j) && FenceOf(lines[j]) == mark
  }

  /** Fence `j` is open after `n` lines and every other one is closed. */
  ghost predicate OnlyOpen(lines: seq<string>, n: nat, j: nat)
    requires j < n <= |lines|
  {
    Opens(lines, j) && (forall c :: j < c < n ==> FenceOf(lines[c]) != FenceOf(lines[j])) &&
    forall k :: 0 <= k < n && k != j && Opens(lines, k) ==> exists c ::
      k < c < n && FenceOf(lines[c]) == FenceOf(lines[k])
  }

  /** One pass with the open mark decides membership of every line. */
  method Fenced(lines: seq<string>) returns (out: seq<bool>)
    ensures |out| == |lines| && forall i :: 0 <= i < |lines| ==> (out[i] <==> InFence(lines, i))
  {
    hide FenceOf;
    out := [];
    var openMark := NoFence;
    for i := 0 to |lines|
      invariant |out| == i && StillOpen(lines, i, openMark)
      invariant forall k :: 0 <= k < i ==> (out[k] <==> InFence(lines, k))
    {
      var m := FenceOf(lines[i]);
      var inside: bool;
      FenceStep(lines, i, openMark);
      if openMark == NoFence && m != NoFence {
        openMark, inside := m, true;
      } else if openMark != NoFence && m == openMark {
        openMark, inside := NoFence, true;
      } else {
        inside := openMark != NoFence;
      }
      out := out + [inside];
    }
  }

  ghost function NextMark(mark: Fence, m: Fence): Fence {
    if mark == NoFence then m else if m == mark then NoFence else mark
  }

  lemma FenceStep(lines: seq<string>, i: nat, mark: Fence)
    requires i < |lines| && StillOpen(lines, i, mark)
    ensures StillOpen(lines, i + 1, NextMark(mark, FenceOf(lines[i])))
    ensures InFence(lines, i) <==> mark != NoFence || FenceOf(lines[i]) != NoFence
  {
    hide FenceOf;
    if mark == NoFence {
      FenceOpens(lines, i);
    } else {
      var j :| 0 <= j < i && OnlyOpen(lines, i, j) && FenceOf(lines[j]) == mark;
      FenceGoesOn(lines, i, j);
    }
  }

  lemma FenceOpens(lines: seq<string>, i: nat)
    requires i < |lines| && StillOpen(lines, i, NoFence)
    ensures StillOpen(lines, i + 1, FenceOf(lines[i]))
    ensures InFence(lines, i) <==> FenceOf(lines[i]) != NoFence
  {
    hide FenceOf;
    assert Opens(lines, i) <==> FenceOf(lines[i]) != NoFence;
    if FenceOf(lines[i]) != NoFence {
      assert FencedBy(lines, i, i);
      assert OnlyOpen(lines, i + 1, i);
    } else {
      forall j | 0 <= j <= i
        ensures !FencedBy(lines, j, i)
      {
        if j < i && Opens(lines, j) {
          var c :| j < c < i && FenceOf(lines[c]) == FenceOf(lines[j]);
        }
      }
    }
  }

  lemma FenceGoesOn(lines: seq<string>, i: nat, j: nat)
    requires j < i < |lines| && OnlyOpen(lines, i, j)
    ensures StillOpen(lines, i + 1, NextMark(FenceOf(lines[j]), FenceOf(lines[i])))
    ensures InFence(lines, i)
  {
    hide FenceOf;
    assert FencedBy(lines, j, i);
    assert !Opens(lines, i);
    if FenceOf(lines[i]) != FenceOf(lines[j]) {
      assert OnlyOpen(lines, i + 1, j);
    } else {
      forall k | 0 <= k < i + 1 && Opens(lines, k)
        ensures exists c :: k < c < i + 1 && FenceOf(lines[c]) == FenceOf(lines[k])
      {
        if k == j {
          assert FenceOf(lines[i]) == FenceOf(lines[k]);
        }
      }
    }
  }

  // ---- headings

  /** Heading `j` is still open after the first `n` lines: every later heading is deeper. */
  ghost predicate OpenHeading(lines: seq<string>, j: nat, n: nat)
    requires n <= |lines|
  {
    j < n && Heading(lines[j]) && forall k :: j < k < n && Heading(lines[k]) ==> Level(lines[k]) > Level(lines[j])
  }

  /** Line `i` is under heading `j`: the heading itself, or below it with only deeper headings between. */
  ghost predicate Encloses(lines: seq<string>, j: nat, i: nat)
    requires i < |lines|
  {
    OpenHeading(lines, j, i + 1)
  }

  ghost predicate UnderMarkedHeading(lines: seq<string>, i: nat)
    requires i < |lines|
  {
    exists j :: 0 <= j <= i && Encloses(lines, j, i) && Marks(lines[j])
  }

  datatype Entry = Entry(level: nat, marked: bool)

  /** `stack` describes the headings `at`, which are exactly the open ones, from outermost
      to innermost with strictly growing levels. */
  ghost predicate StackOf(lines: seq<string>, n: nat, stack: seq<Entry>, at: seq<nat>)
    requires n <= |lines|
  {
    && |stack| == |at|
    && (forall a :: 0 <= a < |at| ==>
      OpenHeading(lines, at[a], n) && stack[a] == Entry(Level(lines[at[a]]), Marks(lines[at[a]])))
    && (forall a, b :: 0 <= a < b < |at| ==> at[a] < at[b] && stack[a].level < stack[b].level)
    && (forall j :: OpenHeading(lines, j, n) ==> j in at)
  }

  /** `stack` is exactly the open headings after `n` lines. */
  ghost predicate IsStack(lines: seq<string>, n: nat, stack: seq<Entry>)
    requires n <= |lines|
  {
    exists at :: StackOf(lines, n, stack, at)
  }

  /** A heading pops every entry at its own level or deeper and is pushed. */
  method EnterHeading(lines: seq<string>, i: nat, stack: seq<Entry>) returns (now: seq<Entry>)
    requires i < |lines| && Heading(lines[i]) && IsStack(lines, i, stack)
    ensures IsStack(lines, i + 1, now)
  {
    hide Level, Marks, Heading, StackOf;
    var level := Level(lines[i]);
    now := stack;
    while now != [] && now[|now| - 1].level >= level
      invariant |now| <= |stack| && now == stack[..|now|]
      invariant forall a :: |now| <= a < |stack| ==> stack[a].level >= level
    {
      now := now[..|now| - 1];
    }
    ghost var kept := |now|;
    now := now + [Entry(level, Marks(lines[i]))];
    ghost var at :| StackOf(lines, i, stack, at);
    SameLength(lines, i, stack, at);
    StackPushed(lines, i, stack, at, kept);
  }

  lemma SameLength(lines: seq<string>, n: nat, stack: seq<Entry>, at: seq<nat>)
    requires n <= |lines| && StackOf(lines, n, stack, at)
    ensures |stack| == |at|
  {
  }

  /** Entries kept below the new heading stay open. */
  lemma StillBelow(lines: seq<string>, i: nat, stack: seq<Entry>, at: seq<nat>, kept: nat, a: nat)
    requires i < |lines| && StackOf(lines, i, stack, at) && a < kept <= |stack|
    requires stack[kept - 1].level < Level(lines[i])
    ensures stack[a].level < Level(lines[i]) && OpenHeading(lines, at[a], i + 1)
  {
    hide Level, Marks, Heading;
    if a < kept - 1 {
      assert stack[a].level < stack[kept - 1].level;
    }
  }

  /** A heading open past line `i` is a kept entry or line `i` itself. */
  lemma KeptOrNew(lines: seq<string>, i: nat, stack: seq<Entry>, at: seq<nat>, kept: nat, j: nat)
    requires i < |lines| && Heading(lines[i]) && StackOf(lines, i, stack, at) && kept <= |stack|
    requires forall a :: kept <= a < |stack| ==> stack[a].level >= Level(lines[i])
    requires OpenHeading(lines, j, i + 1)
    ensures j == i || j in at[..kept]
  {
    hide Level, Marks, Heading;
    if j < i {
      assert OpenHeading(lines, j, i);
      var a :| 0 <= a < |at| && at[a] == j;
      assert Level(lines[i]) > Level(lines[j]);
      assert at[..kept][a] == j;
    }
  }

  lemma StackPushed(lines: seq<string>, i: nat, stack: seq<Entry>, at: seq<nat>, kept: nat)
    requires i < |lines| && Heading(lines[i]) && StackOf(lines, i, stack, at) && kept <= |stack|
    requires kept > 0 ==> stack[kept - 1].level < Level(lines[i])
    requires forall a :: kept <= a < |stack| ==> stack[a].level >= Level(lines[i])
    ensures StackOf(lines, i + 1, stack[..kept] + [Entry(Level(lines[i]), Marks(lines[i]))], at[..kept] + [i])
  {
    hide Level, Marks, Heading;
    forall a | 0 <= a < kept
      ensures stack[a].level < Level(lines[i]) && OpenHeading(lines, at[a], i + 1)
    {
      StillBelow(lines, i, stack, at, kept, a);
    }
    forall j: nat | OpenHeading(lines, j, i + 1)
      ensures j in at[..kept] + [i]
    {
      KeptOrNew(lines, i, stack, at, kept, j);
    }
  }

  /** A line that is no heading leaves the open headings as they are. */
  lemma StackKept(lines: seq<string>, i: nat, stack: seq<Entry>, at: seq<nat>)
    requires i < |lines| && !Heading(lines[i]) && StackOf(lines, i, stack, at)
    ensures StackOf(lines, i + 1, stack, at)
  {
    hide Level, Marks, Heading;
    forall a | 0 <= a < |at|
      ensures OpenHeading(lines, at[a], i + 1)
    {
      assert OpenHeading(lines, at[a], i);
    }
    forall j: nat | OpenHeading(lines, j, i + 1)
      ensures j in at
    {
      assert j < i;
      assert OpenHeading(lines, j, i);
    }
  }

  lemma StackAnswers(lines: seq<string>, i: nat, stack: seq<Entry>, at: seq<nat>)
    requires i < |lines| && StackOf(lines, i + 1, stack, at)
    ensures (exists a :: 0 <= a < |stack| && stack[a].marked) <==> UnderMarkedHeading(lines, i)
  {
    hide Level, Marks, Heading, OpenHeading;
    if a :| 0 <= a < |stack| && stack[a].marked {
      assert OpenHeading(lines, at[a], i + 1);
      EarlierOpen(lines, at[a], i + 1);
      assert Encloses(lines, at[a], i);
    }
    if j :| 0 <= j <= i && Encloses(lines, j, i) && Marks(lines[j]) {
      var a :| 0 <= a < |at| && at[a] == j;
      assert stack[a].marked;
    }
  }

  lemma LineKept(lines: seq<string>, i: nat, stack: seq<Entry>)
    requires i < |lines| && !Heading(lines[i]) && IsStack(lines, i, stack)
    ensures IsStack(lines, i + 1, stack)
  {
    hide StackOf, Heading;
    var at :| StackOf(lines, i, stack, at);
    StackKept(lines, i, stack, at);
  }

  lemma LineAnswered(lines: seq<string>, i: nat, stack: seq<Entry>)
    requires i < |lines| && IsStack(lines, i + 1, stack)
    ensures (exists a :: 0 <= a < |stack| && stack[a].marked) <==> UnderMarkedHeading(lines, i)
  {
    hide StackOf, UnderMarkedHeading;
    var at :| StackOf(lines, i + 1, stack, at);
    StackAnswers(lines, i, stack, at);
  }

  lemma EmptyStack(lines: seq<string>)
    ensures IsStack(lines, 0, [])
  {
    assert StackOf(lines, 0, [], []);
  }

  lemma EarlierOpen(lines: seq<string>, j: nat, n: nat)
    requires n <= |lines| && OpenHeading(lines, j, n)
    ensures j < n
  {
  }

  method MarkSections(lines: seq<string>, section: array<bool>)
    requires section.Length == |lines|
    modifies section
    ensures forall i :: 0 <= i < |lines| ==> (section[i] <==> UnderMarkedHeading(lines, i))
  {
    hide Level, Marks, Heading, UnderMarkedHeading, IsStack;
    var stack: seq<Entry> := [];
    EmptyStack(lines);
    for i := 0 to |lines|
      invariant IsStack(lines, i, stack)
      invariant forall k :: 0 <= k < i ==> (section[k] <==> UnderMarkedHeading(lines, k))
    {
      if Heading(lines[i]) {
        stack := EnterHeading(lines, i, stack);
      } else {
        LineKept(lines, i, stack);
      }
      LineAnswered(lines, i, stack);
      section[i] := exists a :: 0 <= a < |stack| && stack[a].marked;
    }
  }

  // ---- blocks and list entries

  /** No heading separates the two lines. */
  ghost predicate SameBlock(lines: seq<string>, i: nat, j: nat)
    requires i < |lines| && j < |lines|
  {
    forall k :: (i < k <= j || j < k <= i) ==> !Heading(lines[k])
  }

  ghost predicate BlockMarked(lines: seq<string>, i: nat)
    requires i < |lines|
  {
    exists j :: 0 <= j < |lines| && SameBlock(lines, i, j) && Marks(lines[j])
  }

  /** Line `i` belongs to the top-level list entry that starts at `s`. */
  ghost predicate InEntry(lines: seq<string>, s: nat, i: nat)
    requires i < |lines|
  {
    s <= i && Item(lines[s]) && forall k :: s < k <= i ==> !Boundary(lines[k])
  }

  ghost predicate MarkedEntry(lines: seq<string>, s: nat)
    requires s < |lines|
  {
    exists j :: s <= j < |lines| && InEntry(lines, s, j) && Marks(lines[j])
  }

  ghost predicate EntryMarked(lines: seq<string>, i: nat)
    requires i < |lines|
  {
    exists s :: 0 <= s <= i && InEntry(lines, s, i) && MarkedEntry(lines, s)
  }

  /** Sets a stretch of the table. */
  method Fill(table: array<bool>, start: nat, end: nat)
    requires start <= end <= table.Length
    modifies table
    ensures forall i :: 0 <= i < table.Length ==> table[i] == (start <= i < end || old(table[i]))
  {
    for j := start to end
      invariant forall i :: 0 <= i < table.Length ==> table[i] == (start <= i < j || old(table[i]))
    {
      table[j] := true;
    }
  }

  /** The lines from `start` to `end` are one block. */
  ghost predicate Block(lines: seq<string>, start: nat, end: nat) {
    start <= end <= |lines| && (end < |lines| ==> Heading(lines[end])) && (start > 0 ==>
      start < |lines| && Heading(lines[start])) &&
    forall k :: start < k < end ==> !Heading(lines[k])
  }

  lemma BlockDecides(lines: seq<string>, start: nat, end: nat, i: nat)
    requires Block(lines, start, end) && start <= i < end
    ensures BlockMarked(lines, i) <==> exists j :: start <= j < end && Marks(lines[j])
  {
    hide Marks, Heading;
    if j :| start <= j < end && Marks(lines[j]) {
      assert SameBlock(lines, i, j);
    }
    if j :| 0 <= j < |lines| && SameBlock(lines, i, j) && Marks(lines[j]) {
      assert start <= j < end;
    }
  }

  method MarkBlocks(lines: seq<string>, section: array<bool>)
    requires section.Length == |lines|
    modifies section
    ensures forall i :: 0 <= i < |lines| ==> (section[i] <==> old(section[i]) || BlockMarked(lines, i))
  {
    hide Marks, Heading, BlockMarked;
    var start := 0;
    for i := 0 to |lines| + 1
      invariant start <= i && start <= |lines| && (start > 0 && start < |lines| ==> Heading(lines[start]))
      invariant forall k :: start < k < i && k < |lines| ==> !Heading(lines[k])
      invariant start == 0 || start < |lines| || i == |lines| + 1
      invariant i == |lines| + 1 ==> start == |lines|
      invariant forall k :: 0 <= k < start ==> (section[k] <==> old(section[k]) || BlockMarked(lines, k))
      invariant forall k :: start <= k < |lines| ==> section[k] == old(section[k])
    {
      if i == |lines| || Heading(lines[i]) {
        if start < i {
          assert Block(lines, start, i);
          forall k | start <= k < i
            ensures BlockMarked(lines, k) <==> exists j :: start <= j < i && Marks(lines[j])
          {
            BlockDecides(lines, start, i, k);
          }
        }
        if exists j :: start <= j < i && Marks(lines[j]) {
          Fill(section, start, i);
        }
        start := i;
      }
    }
  }

  /** The lines from `start` to `end` are one whole list entry. */
  ghost predicate WholeEntry(lines: seq<string>, start: nat, end: nat) {
    start < end <= |lines| && Item(lines[start]) && (end < |lines| ==> Boundary(lines[end])) &&
    forall k :: start < k < end ==> !Boundary(lines[k])
  }

  lemma EntryDecides(lines: seq<string>, start: nat, end: nat, i: nat)
    requires WholeEntry(lines, start, end) && start <= i < end
    ensures EntryMarked(lines, i) <==> exists j :: start <= j < end && Marks(lines[j])
  {
    hide Marks, Heading, Item;
    assert InEntry(lines, start, i);
    if j :| start <= j < end && Marks(lines[j]) {
      assert InEntry(lines, start, j);
      assert MarkedEntry(lines, start);
    }
    if s :| 0 <= s <= i && InEntry(lines, s, i) && MarkedEntry(lines, s) {
      assert s == start;
      var j :| s <= j < |lines| && InEntry(lines, s, j) && Marks(lines[j]);
      assert j < end;
    }
  }

  /** A line with no list item above it in the same stretch belongs to no entry. */
  lemma OutsideEntries(lines: seq<string>, b: nat, i: nat)
    requires b <= i < |lines| && !Item(lines[b]) && (b > 0 ==> Boundary(lines[b]))
    requires forall k :: b < k <= i ==> !Boundary(lines[k])
    ensures !EntryMarked(lines, i)
  {
    hide Marks, Heading, Item;
  }

  method MarkEntries(lines: seq<string>, design: array<bool>)
    requires design.Length == |lines| && forall i :: 0 <= i < |lines| ==> !design[i]
    modifies design
    ensures forall i :: 0 <= i < |lines| ==> (design[i] <==> EntryMarked(lines, i))
  {
    hide Marks, Heading, Item, EntryMarked;
    var start, inEntry := 0, false;
    for i := 0 to |lines| + 1
      invariant start <= i && start <= |lines|
      invariant i == 0 ==> start == 0 && !inEntry
      invariant i == |lines| + 1 ==> start == |lines|
      invariant 0 < i <= |lines| ==> start < i && StretchOf(lines, start, i, inEntry)
      invariant forall k :: 0 <= k < start ==> (design[k] <==> EntryMarked(lines, k))
      invariant forall k :: start <= k < |lines| ==> !design[k]
    {
      if i == |lines| || Boundary(lines[i]) {
        if 0 < i {
          StretchDecides(lines, start, i, inEntry);
        }
        if inEntry && exists j :: start <= j < i && Marks(lines[j]) {
          Fill(design, start, i);
        }
        start, inEntry := i, i < |lines| && Item(lines[i]);
      }
    }
  }

  /** The lines from `start` up to `end` follow one boundary, or open the document. */
  ghost predicate StretchOf(lines: seq<string>, start: nat, end: nat, inEntry: bool) {
    && start < end <= |lines| && inEntry == Item(lines[start])
    && (start > 0 ==> Boundary(lines[start]))
    && forall k :: start < k < end ==> !Boundary(lines[k])
  }

  lemma StretchDecides(lines: seq<string>, start: nat, end: nat, inEntry: bool)
    requires StretchOf(lines, start, end, inEntry) && (end < |lines| ==> Boundary(lines[end]))
    ensures forall k ::
      start <= k < end ==> (EntryMarked(lines, k) <==> inEntry && exists j :: start <= j < end && Marks(lines[j]))
  {
    hide Marks, Heading, Item, EntryMarked, Boundary;
    forall k | start <= k < end
      ensures EntryMarked(lines, k) <==> inEntry && exists j :: start <= j < end && Marks(lines[j])
    {
      if inEntry {
        assert WholeEntry(lines, start, end);
        EntryDecides(lines, start, end, k);
      } else {
        OutsideEntries(lines, start, k);
      }
    }
  }

  // ---- the document

  /** What the marker means: an enclosing heading is marked, or the line's own block between
      headings contains a mark, or its top-level list entry does. */
  ghost predicate Design(lines: seq<string>, i: nat)
    requires i < |lines|
  {
    UnderMarkedHeading(lines, i) || BlockMarked(lines, i) || EntryMarked(lines, i)
  }

  /** Fenced lines read as empty. */
  ghost function Blanked(lines: seq<string>): (r: seq<string>)
    ensures |r| == |lines| && forall i :: 0 <= i < |lines| ==> r[i] == if InFence(lines, i) then "" else lines[i]
  {
    seq(|lines|, i requires 0 <= i < |lines| => if InFence(lines, i) then "" else lines[i])
  }

  method DesignLines(text: seq<string>) returns (r: seq<bool>)
    ensures |r| == |text| && forall i :: 0 <= i < |text| ==> (r[i] <==> Design(Blanked(text), i))
  {
    hide UnderMarkedHeading, BlockMarked, EntryMarked, InFence;
    var inFence := Fenced(text);
    var n := |text|;
    var lines := seq(n, i requires 0 <= i < n => if inFence[i] then "" else text[i]);
    assert lines == Blanked(text);
    var section := new bool[n];
    var design := new bool[n](_ => false);
    MarkSections(lines, section);
    MarkBlocks(lines, section);
    MarkEntries(lines, design);
    r := seq(n, i requires 0 <= i < n reads design, section => design[i] || section[i]);
  }
}
