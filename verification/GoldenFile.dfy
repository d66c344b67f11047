/** Writing and reading the golden-token file: one line a prompt. */
module GoldenFile {
  import opened Digits
  import opened Golden
  import opened Options

  const WORDS := MODULUS
  const IDS := 0x1_0000_0000

  // ---- writing

  function PrintIds(ids: seq<Id>): string
    decreases |ids|
  {
    if ids == [] then "" else " " + DecimalText(ids[0]) + PrintIds(ids[1..])
  }

  /** Index, length, digest and the ids. */
  function PrintRun(index: nat, ids: seq<Id>): string {
    DecimalText(index) + " " + DecimalText(|ids|) + " " + DecimalText(Digest(ids)) + PrintIds(ids)
  }

  function PrintRuns(runs: seq<seq<Id>>, index: nat): string
    decreases |runs|
  {
    if runs == [] then "" else PrintRun(index, runs[0]) + "\n" + PrintRuns(runs[1..], index + 1)
  }

  lemma {:induction false} PrintIdsSnoc(ids: seq<Id>, id: Id)
    ensures PrintIds(ids + [id]) == PrintIds(ids) + " " + DecimalText(id)
    decreases |ids|
  {
    hide DecimalText;
    if ids == [] {
      assert ids + [id] == [id] && [id][1..] == [];
    } else {
      assert (ids + [id])[1..] == ids[1..] + [id];
      PrintIdsSnoc(ids[1..], id);
    }
  }

  lemma {:induction false} PrintRunsSnoc(runs: seq<seq<Id>>, index: nat, ids: seq<Id>)
    ensures PrintRuns(runs + [ids], index) == PrintRuns(runs, index) + PrintRun(index + |runs|, ids) + "\n"
    decreases |runs|
  {
    hide PrintRun;
    var all := runs + [ids];
    if runs == [] {
      assert all == [ids] && all[1..] == [];
    } else {
      assert all[1..] == runs[1..] + [ids];
      PrintRunsSnoc(runs[1..], index + 1, ids);
    }
  }

  method WriteGolden(runs: seq<seq<Id>>) returns (out: string)
    ensures out == PrintRuns(runs, 0)
  {
    hide DecimalText, Digest;
    out := "";
    assert runs[..0] == [];
    for i := 0 to |runs|
      invariant out == PrintRuns(runs[..i], 0)
    {
      var d := ComputeDigest(runs[i]);
      var line := DecimalText(i) + " " + DecimalText(|runs[i]|) + " " + DecimalText(d);
      ghost var head := line;
      assert runs[i][..0] == [];
      assert head + "" == head;
      for k := 0 to |runs[i]|
        invariant line == head + PrintIds(runs[i][..k])
      {
        assert runs[i][..k + 1] == runs[i][..k] + [runs[i][k]];
        PrintIdsSnoc(runs[i][..k], runs[i][k]);
        line := line + " " + DecimalText(runs[i][k]);
      }
      assert runs[i][..|runs[i]|] == runs[i];
      assert runs[..i + 1] == runs[..i] + [runs[i]];
      PrintRunsSnoc(runs[..i], 0, runs[i]);
      out := out + line + "\n";
    }
    assert runs[..|runs|] == runs;
  }

  // ---- reading

  predicate Space(c: char) {
    c == ' ' || '\t' <= c <= '\r'
  }

  /** The six white space characters a stream skips. */
  lemma SpacesAre(c: char)
    ensures Space(c) <==> c == ' ' || c as int in {9, 10, 11, 12, 13}
  {
  }

  function SkipSpace(s: string): (r: string)
    ensures |r| <= |s|
    decreases |s|
  {
    if s != "" && Space(s[0]) then SkipSpace(s[1..]) else s
  }

  /** One extraction: the number below `limit` and what follows it. */
  function Extract(s: string, limit: nat): (r: Option<(nat, string)>)
    ensures r.Some? ==> |r.value.1| < |s| && r.value.0 < limit
  {
    var t := SkipSpace(s);
    var e := DigitsEnd(t, 0);
    if e == 0 then None
    else
      assert forall k :: 0 <= k < e ==> Digit(t[..e][k]) by {
        forall k | 0 <= k < e
          ensures Digit(t[..e][k])
        {
          DigitsInRun(t, 0, k);
        }
      }
      var n := ValueOf(t[..e]);
      if n < limit then Some((n, t[e..])) else None
  }

  function ExtractIds(s: string): seq<Id>
    decreases |s|
  {
    match Extract(s, IDS)
    case None => []
    case Some((id, rest)) => [id] + ExtractIds(rest)
  }

  /** A line: None unless it starts with an index, a length and a digest. */
  function ReadLine(line: string): Option<seq<Id>> {
    match Extract(line, WORDS)
    case None => None
    case Some((_, a)) =>
      match Extract(a, WORDS)
      case None => None
      case Some((_, b)) =>
        match Extract(b, WORDS)
        case None => None
        case Some((_, c)) => Some(ExtractIds(c))
  }

  function LineEnd(text: string, i: nat): (e: nat)
    requires i <= |text|
    ensures i <= e <= |text|
    decreases |text| - i
  {
    if i < |text| && text[i] != '\n' then LineEnd(text, i + 1) else i
  }

  function AfterLine(text: string): string {
    var e := LineEnd(text, 0);
    if e < |text| then text[e + 1..] else ""
  }

  function ReadRuns(text: string): seq<seq<Id>>
    decreases |text|
  {
    if text == "" then []
    else (match ReadLine(text[..LineEnd(text, 0)]) case None => [] case Some(ids) => [ids]) + ReadRuns(AfterLine(text))
  }

  lemma ReadRunsStep(text: string, before: seq<seq<Id>>)
    requires text != ""
    ensures |AfterLine(text)| < |text|
    ensures before + ReadRuns(text) ==
      (match ReadLine(text[..LineEnd(text, 0)]) case None => before case Some(ids) => before + [ids]) +
        ReadRuns(AfterLine(text))
  {
    hide ReadLine, LineEnd;
    match ReadLine(text[..LineEnd(text, 0)]) {
      case None => assert [] + ReadRuns(AfterLine(text)) == ReadRuns(AfterLine(text));
      case Some(ids) =>
    }
  }

  method ReadGolden(text: string) returns (runs: seq<seq<Id>>)
    ensures runs == ReadRuns(text)
  {
    hide Extract, LineEnd, ReadLine, ReadRuns, AfterLine;
    runs := [];
    var rest := text;
    while rest != ""
      invariant runs + ReadRuns(rest) == ReadRuns(text)
      decreases |rest|
    {
      ReadRunsStep(rest, runs);
      var ids := ReadRun(rest[..LineEnd(rest, 0)]);
      match ids {
        case None =>
        case Some(v) => runs := runs + [v];
      }
      rest := AfterLine(rest);
    }
    NoRuns();
    assert runs + [] == runs;
  }

  lemma NoRuns()
    ensures ReadRuns("") == []
  {
  }

  method ReadRun(line: string) returns (r: Option<seq<Id>>)
    ensures r == ReadLine(line)
  {
    hide Extract;
    var index := Extract(line, WORDS);
    if index == None {
      return None;
    }
    var count := Extract(index.value.1, WORDS);
    if count == None {
      return None;
    }
    var digest := Extract(count.value.1, WORDS);
    if digest == None {
      return None;
    }
    var rest := digest.value.1;
    var ids: seq<Id> := [];
    var id := Extract(rest, IDS);
    while id.Some?
      invariant id == Extract(rest, IDS) && ids + ExtractIds(rest) == ExtractIds(digest.value.1)
      decreases |rest|
    {
      assert ids + ([id.value.0] + ExtractIds(id.value.1)) == (ids + [id.value.0]) + ExtractIds(id.value.1);
      ids := ids + [id.value.0];
      rest := id.value.1;
      id := Extract(rest, IDS);
    }
    assert ids + [] == ids;
    return Some(ids);
  }

  // ---- the round trip

  lemma SkipNoSpace(s: string)
    requires s != "" && !Space(s[0])
    ensures SkipSpace(s) == s && SkipSpace(" " + s) == s
  {
    assert (" " + s)[1..] == s;
  }

  /** A printed number is extracted, with or without a space before it. */
  lemma NumberExtracted(n: nat, rest: string, limit: nat)
    requires n < limit && (rest != "" ==> !Digit(rest[0]))
    ensures Extract(DecimalText(n) + rest, limit) == Some((n, rest))
    ensures Extract(" " + DecimalText(n) + rest, limit) == Some((n, rest))
  {
    hide DecimalText, SkipSpace;
    var d := DecimalText(n);
    DecimalReadsBack(n);
    DigitsRun(d, rest, 0);
    assert (d + rest)[0] == d[0];
    SkipNoSpace(d + rest);
    assert " " + d + rest == " " + (d + rest);
    assert (d + rest)[..|d|] == d && (d + rest)[|d|..] == rest;
  }

  lemma {:induction false} IdsExtracted(ids: seq<Id>)
    ensures ExtractIds(PrintIds(ids)) == ids
    ensures PrintIds(ids) != "" ==> PrintIds(ids)[0] == ' '
    decreases |ids|
  {
    hide Extract, DecimalText;
    if ids == [] {
      NothingExtracted();
    } else {
      var rest := PrintIds(ids[1..]);
      IdsExtracted(ids[1..]);
      NumberExtracted(ids[0], rest, IDS);
      assert [ids[0]] + ids[1..] == ids;
    }
  }

  lemma NothingExtracted()
    ensures Extract("", IDS) == None
  {
  }

  lemma LineReadsBack(index: nat, ids: seq<Id>)
    requires index < WORDS && |ids| < WORDS
    ensures ReadLine(PrintRun(index, ids)) == Some(ids)
  {
    hide Extract, DecimalText, Digest, PrintIds, ExtractIds;
    IdsExtracted(ids);
    var c := PrintIds(ids);
    var b := " " + DecimalText(Digest(ids)) + c;
    var a := " " + DecimalText(|ids|) + b;
    NumberExtracted(Digest(ids), c, WORDS);
    NumberExtracted(|ids|, b, WORDS);
    NumberExtracted(index, a, WORDS);
    assert PrintRun(index, ids) == DecimalText(index) + a;
  }

  predicate OneLine(s: string) {
    forall i :: 0 <= i < |s| ==> s[i] != '\n'
  }

  lemma NumberOneLine(n: nat)
    ensures OneLine(DecimalText(n))
  {
    hide DecimalText;
    DecimalDigits(n);
  }

  lemma {:induction false} IdsOneLine(ids: seq<Id>)
    ensures OneLine(PrintIds(ids))
    decreases |ids|
  {
    hide DecimalText;
    if ids != [] {
      NumberOneLine(ids[0]);
      IdsOneLine(ids[1..]);
    }
  }

  lemma RunOneLine(index: nat, ids: seq<Id>)
    ensures OneLine(PrintRun(index, ids))
  {
    hide DecimalText, PrintIds, Digest;
    NumberOneLine(index);
    NumberOneLine(|ids|);
    NumberOneLine(Digest(ids));
    IdsOneLine(ids);
  }

  lemma {:induction false} LineEndFound(line: string, rest: string, i: nat)
    requires OneLine(line) && i <= |line|
    ensures LineEnd(line + "\n" + rest, i) == |line|
    decreases |line| - i
  {
    if i < |line| {
      LineEndFound(line, rest, i + 1);
    }
  }

  /** Reading a written file gives back every run, in order. */
  lemma {:induction false} RunsReadBack(runs: seq<seq<Id>>, index: nat)
    requires index + |runs| <= WORDS && forall i :: 0 <= i < |runs| ==> |runs[i]| < WORDS
    ensures ReadRuns(PrintRuns(runs, index)) == runs
    decreases |runs|
  {
    hide PrintRun, ReadLine, LineEnd;
    if runs != [] {
      var line, rest := PrintRun(index, runs[0]), PrintRuns(runs[1..], index + 1);
      var text := line + "\n" + rest;
      RunOneLine(index, runs[0]);
      LineEndFound(line, rest, 0);
      LineReadsBack(index, runs[0]);
      RunsReadBack(runs[1..], index + 1);
      assert text[..|line|] == line && text[|line| + 1..] == rest;
      assert [runs[0]] + runs[1..] == runs;
    }
  }
}
