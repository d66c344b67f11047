/** Merging a key into a registry keeps every entry it already had, in order, and adds the
    new one at the end. */
module IssueKeyMerge {
  import opened IssueKey
  import opened Json
  import opened JsonPrint
  import opened JsonSplice
  import opened Options

  // ---- what is left after reading is an end of the text

  predicate Suffix(r: string, s: string) {
    |r| <= |s| && r == s[|s| - |r|..]
  }

  lemma SuffixTrans(a: string, b: string, c: string)
    requires Suffix(a, b) && Suffix(b, c)
    ensures Suffix(a, c)
  {
    assert c[|c| - |b|..][|b| - |a|..] == c[|c| - |a|..];
  }

  lemma SuffixFrom(s: string, n: nat)
    requires n <= |s|
    ensures Suffix(s[n..], s)
  {
  }

  lemma {:induction false} SkipSuffix(s: string)
    ensures Suffix(SkipWs(s), s)
    ensures SkipWs(s) == "" ==> forall i :: 0 <= i < |s| ==> Ws(s[i])
    decreases |s|
  {
    if s != "" && Ws(s[0]) {
      SkipSuffix(s[1..]);
      SuffixFrom(s, 1);
      SuffixTrans(SkipWs(s[1..]), s[1..], s);
    }
  }

  lemma CharSuffix(s: string)
    requires s != "" && CharP(s).Got?
    ensures Suffix(CharP(s).rest, s)
  {
    hide CodeUnit, Escaped, Utf8;
  }

  lemma {:induction false} StringSuffix(s: string)
    requires StringTail(s).Got?
    ensures Suffix(StringTail(s).rest, s)
    decreases |s|
  {
    hide CharP, Suffix;
    if s[0] == '\"' {
      SuffixFrom(s, 1);
    } else {
      var next := CharP(s).rest;
      CharSuffix(s);
      StringSuffix(next);
      SuffixTrans(StringTail(next).rest, next, s);
    }
  }

  lemma WordSuffix(s: string)
    requires WordP(s).Got?
    ensures Suffix(WordP(s).rest, s)
  {
    hide NumberEnd;
  }

  /** The tail after the first character, with white space skipped. */
  lemma StepSuffix(s: string)
    requires s != ""
    ensures Suffix(s[1..], s) && Suffix(SkipWs(s[1..]), s)
  {
    hide SkipWs;
    SuffixFrom(s, 1);
    SkipSuffix(s[1..]);
    SuffixTrans(SkipWs(s[1..]), s[1..], s);
  }

  lemma {:induction false} ValueSuffix(s: string)
    requires ValueP(s).Got?
    ensures Suffix(ValueP(s).rest, s)
    decreases |s|, 0
  {
    hide Suffix, SkipWs, StringTail, MembersP, ItemsP, WordP;
    StepSuffix(s);
    var r := SkipWs(s[1..]);
    if s[0] == '\"' {
      StringSuffix(s[1..]);
      SuffixTrans(StringTail(s[1..]).rest, s[1..], s);
    } else if s[0] == '{' {
      if Starts(r, '}') {
        SuffixFrom(r, 1);
        SuffixTrans(r[1..], r, s);
      } else {
        MembersSuffix(r);
        SuffixTrans(MembersP(r).rest, r, s);
      }
    } else if s[0] == '[' {
      if Starts(r, ']') {
        SuffixFrom(r, 1);
        SuffixTrans(r[1..], r, s);
      } else {
        ItemsSuffix(r);
        SuffixTrans(ItemsP(r).rest, r, s);
      }
    } else {
      WordSuffix(s);
    }
  }

  lemma {:induction false} MemberSuffix(s: string)
    requires MemberP(s).Got?
    ensures Suffix(MemberP(s).rest, s)
    decreases |s|, 1
  {
    hide Suffix, SkipWs, StringTail, ValueP;
    StepSuffix(s);
    StringSuffix(s[1..]);
    var r := StringTail(s[1..]).rest;
    SuffixTrans(r, s[1..], s);
    SkipSuffix(r);
    var c := SkipWs(r);
    SuffixTrans(c, r, s);
    StepSuffix(c);
    var v := SkipWs(c[1..]);
    SuffixTrans(v, c, s);
    ValueSuffix(v);
    var rest := ValueP(v).rest;
    SuffixTrans(rest, v, s);
    SkipSuffix(rest);
    SuffixTrans(SkipWs(rest), rest, s);
  }

  lemma {:induction false} MembersSuffix(s: string)
    requires MembersP(s).Got?
    ensures Suffix(MembersP(s).rest, s) && (MembersP(s).rest == "" ==> Closed(s))
    decreases |s|, 2
  {
    hide Suffix, SkipWs, MemberP;
    MemberSuffix(s);
    var r := MemberP(s).rest;
    StepSuffix(r);
    if Starts(r, '}') {
      SuffixTrans(r[1..], r, s);
      if r[1..] == "" {
        LastOfSuffix(r, s);
      }
    } else {
      var next := SkipWs(r[1..]);
      SuffixTrans(next, r, s);
      MembersSuffix(next);
      SuffixTrans(MembersP(next).rest, next, s);
      if MembersP(next).rest == "" {
        LastOfSuffix(next, s);
      }
    }
  }

  lemma LastOfSuffix(r: string, s: string)
    requires Suffix(r, s) && r != ""
    ensures s != "" && s[|s| - 1] == r[|r| - 1]
  {
  }

  lemma {:induction false} ItemsSuffix(s: string)
    requires ItemsP(s).Got?
    ensures Suffix(ItemsP(s).rest, s)
    decreases |s|, 1
  {
    hide Suffix, SkipWs, ValueP;
    ValueSuffix(s);
    var after := ValueP(s).rest;
    SkipSuffix(after);
    var r := SkipWs(after);
    SuffixTrans(r, after, s);
    StepSuffix(r);
    if Starts(r, ']') {
      SuffixTrans(r[1..], r, s);
    } else {
      var next := SkipWs(r[1..]);
      SuffixTrans(next, r, s);
      ItemsSuffix(next);
      SuffixTrans(ItemsP(next).rest, next, s);
    }
  }

  // ---- an object text ends in its brace

  /** A trimmed text that is an object starts and ends with its braces. */
  lemma ObjectText(base: string, ms: seq<Member>)
    requires base != "" && Trimmed(base) && ParseText(base) == Some(Obj(ms))
    ensures Closed(base) && base[0] == '{'
    ensures if ms == [] then SkipWs(base[1..]) == "}"
      else MembersP(SkipWs(base[1..])) == Got(ms, "") && Closed(SkipWs(base[1..]))
  {
    hide MembersP, WordP, StringTail, ItemsP, SkipWs, Ws, Space, Closed;
    SpaceCoversWs(base[0]);
    SkipsNothing(base);
    var p := ValueP(base);
    NothingLeft(base, p.rest);
    OnlyBraces(base, ms);
    StepSuffix(base);
    var r := SkipWs(base[1..]);
    if Starts(r, '}') {
      assert r == [r[0]] + r[1..];
      AfterBrace(base, r);
    } else {
      MembersSuffix(r);
      AfterBrace(base, r);
      MembersNotEmpty(r);
    }
  }

  lemma AfterBrace(base: string, r: string)
    requires Suffix(r, base) && (r == "}" || Closed(r))
    ensures Closed(base) && Closed(r)
  {
  }

  lemma MembersNotEmpty(s: string)
    requires MembersP(s).Got?
    ensures MembersP(s).value != []
  {
  }

  lemma SpaceCoversWs(c: char)
    requires !Space(c)
    ensures !Ws(c)
  {
  }

  /** White space cannot be left over at the end of a trimmed text. */
  lemma NothingLeft(base: string, rest: string)
    requires base != "" && Trimmed(base) && ValueP(base).Got? && ValueP(base).rest == rest && SkipWs(rest) == ""
    ensures rest == ""
  {
    hide ValueP, Space, SkipWs;
    ValueSuffix(base);
    SkipSuffix(rest);
    if rest != "" {
      LastOfSuffix(rest, base);
      SpaceCoversWs(base[|base| - 1]);
    }
  }

  /** Only a brace starts an object. */
  lemma OnlyBraces(s: string, ms: seq<Member>)
    requires ValueP(s).Got? && ValueP(s).value == Obj(ms)
    ensures s[0] == '{'
  {
    hide NumberEnd;
  }

  // ---- the theorem

  /** Splicing printed members before the last brace of an object text. */
  lemma SpliceReads(base: string, ms: seq<Member>, m: Member)
    requires base != "" && Trimmed(base) && ParseText(base) == Some(Obj(ms)) && Printable(m.value)
    ensures ParseText(base[..|base| - 1] + (if ms == [] then "" else ",") + PrintMember(m) + "}") == Some(Obj(ms + [m]))
  {
    hide PrintMember, MembersP, SkipWs, Ws, Closed, Swap;
    ObjectText(base, ms);
    var more := PrintMember(m) + "}";
    EntryReads(m);
    var r := SkipWs(base[1..]);
    if ms == [] {
      var out := base[..|base| - 1] + "" + PrintMember(m) + "}";
      assert out == base[..|base| - 1] + more;
      EmptyObject(base, more);
      ObjectAround(out, [m]);
      assert [] + [m] == [m];
    } else {
      var t := "," + more;
      var out := base[..|base| - 1] + "," + PrintMember(m) + "}";
      SwapIs(base, t, out);
      MembersSpliced(r, more, ms, [m]);
      TailIsClosed(base);
      SkipWsSwap(base[1..], t);
      ObjectAround(out, ms + [m]);
    }
  }

  lemma TailIsClosed(base: string)
    requires Closed(base) && base[0] == '{'
    ensures |base| > 1 && Closed(base[1..])
  {
  }

  lemma SwapIs(base: string, t: string, out: string)
    requires Closed(base) && base[0] == '{' && t != "" && |out| > 0 && out == base[..|base| - 1] + t[..1] + t[1..]
    ensures out[0] == '{' && out[1..] == Swap(base[1..], t) && |base| > 1
  {
    assert t == t[..1] + t[1..];
    assert out == Swap(base, t);
    SwapTail(base, t, 1);
  }

  lemma {:induction false} EmptyGap(gap: string, more: string)
    requires SkipWs(gap) == "}" && more != "" && !Ws(more[0])
    ensures gap != "" && SkipWs(gap[..|gap| - 1] + more) == more
    decreases |gap|
  {
    if Ws(gap[0]) {
      EmptyGap(gap[1..], more);
      assert (gap[..|gap| - 1] + more)[1..] == gap[1..][..|gap| - 2] + more;
    } else {
      assert gap == "}";
      assert gap[..|gap| - 1] + more == more;
    }
  }

  /** `{`, white space, then members in place of the closing brace. */
  lemma EmptyObject(base: string, more: string)
    requires base != "" && base[0] == '{' && SkipWs(base[1..]) == "}" && more != "" && more[0] == '\"'
    ensures var out := base[..|base| - 1] + more; out[0] == '{' && SkipWs(out[1..]) == more
  {
    hide SkipWs;
    var gap := base[1..];
    QuoteIsNoSpace();
    EmptyGap(gap, more);
    assert |base| > 1;
    assert (base[..|base| - 1] + more)[1..] == gap[..|gap| - 1] + more;
  }

  /** An opening brace and members that read to the end are a whole text. */
  lemma ObjectAround(out: string, ms: seq<Member>)
    requires out != "" && out[0] == '{' && MembersP(SkipWs(out[1..])) == Got(ms, "")
    ensures ParseText(out) == Some(Obj(ms))
  {
    hide SkipWs, MembersP;
    BraceIsNoSpace(out);
    StartsWithQuote(SkipWs(out[1..]));
    SkipNothing();
  }

  lemma BraceIsNoSpace(out: string)
    requires out != "" && out[0] == '{'
    ensures SkipWs(out) == out
  {
  }

  lemma StartsWithQuote(s: string)
    requires MembersP(s).Got?
    ensures Starts(s, '\"')
  {
  }

  lemma EntryReads(m: Member)
    requires Printable(m.value)
    ensures var more := PrintMember(m) + "}"; more[0] == '\"' && SkipWs(more) == more && MembersP(more) == Got([m], "")
  {
    hide MembersP, Ws;
    MembersReadBack([m], "");
    MembersStart([m]);
    var more := PrintMember(m) + "}";
    assert PrintMembers([m]) + "}" + "" == more;
    QuoteIsNoSpace();
    assert more[0] == '\"';
    SkipsNothing(more);
  }

  /** Whether the merge succeeds is whether the registry is empty or an object; then the
      result is an object with the old members in order and the new entry last. */
  lemma MergeAppends(existing: string, hash: string, o: Issue)
    ensures var base := TrimBoth(existing); var m := EntryOf(hash, o); var out := Merged(base, PrintMember(m));
      && (out.Some? <==> base == "" || (ParseText(base).Some? && ParseText(base).value.Obj?))
      && (out.Some? ==> ParseText(out.value) == Some(Obj((if base == "" then [] else ParseText(base).value.members) + [m])))
  {
    hide PrintMember, ParseText, Printable, Closed, Trimmed, TrimBoth;
    TrimBothTrims(existing);
    var base := TrimBoth(existing);
    var m := EntryOf(hash, o);
    EntryPrintable(hash, o);
    if base == "" {
      EntryReads(m);
      var more := PrintMember(m) + "}";
      var out := "{" + PrintMember(m) + "}";
      assert out[1..] == more;
      ObjectAround(out, [m]);
      assert [] + [m] == [m];
    } else if ParseText(base).Some? && ParseText(base).value.Obj? {
      ObjectText(base, ParseText(base).value.members);
      SpliceReads(base, ParseText(base).value.members, m);
    }
  }
}
