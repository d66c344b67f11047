/** What stays of a JSON reading when the text's last brace is replaced by a comma and more
    text: everything read before it. */
module JsonSplice {
  import opened Digits
  import opened Json

  predicate Closed(s: string) {
    s != "" && s[|s| - 1] == '}'
  }

  /** `s` with `t` in place of its last character. */
  function Swap(s: string, t: string): (r: string)
    requires s != ""
    ensures |r| == |s| - 1 + |t|
  {
    s[..|s| - 1] + t
  }

  /** A reading of `s` that stops before its end reads the same of the swapped text. */
  predicate Kept<T(==)>(a: Parse<T>, b: Parse<T>, t: string) {
    a.Got? && a.rest != "" ==> Closed(a.rest) && b == Got(a.value, Swap(a.rest, t))
  }

  lemma SwapTail(s: string, t: string, n: nat)
    requires n < |s|
    ensures Swap(s, t)[n..] == Swap(s[n..], t)
    ensures forall i :: 0 <= i < |s| - 1 ==> Swap(s, t)[i] == s[i]
    ensures Closed(s) ==> Closed(s[n..])
  {
  }

  lemma SwapFront(s: string, t: string)
    requires Closed(s) && Starts(t, ',')
    ensures Swap(s, t) != ""
    ensures Swap(s, t)[0] == if |s| == 1 then ',' else s[0]
  {
    assert t[0] == ',';
  }

  lemma SwapSlice(s: string, t: string, lo: nat, hi: nat)
    requires lo <= hi < |s|
    ensures Swap(s, t)[lo..hi] == s[lo..hi]
  {
  }

  lemma {:induction false} SkipWsSwap(s: string, t: string)
    requires Closed(s) && Starts(t, ',')
    ensures Closed(SkipWs(s)) && SkipWs(Swap(s, t)) == Swap(SkipWs(s), t)
    decreases |s|
  {
    SwapFront(s, t);
    if Ws(s[0]) {
      SwapTail(s, t, 1);
      SkipWsSwap(s[1..], t);
    }
  }

  // ---- strings

  lemma CharSwap(s: string, t: string)
    requires Closed(s) && Starts(t, ',')
    ensures Swap(s, t) != "" && Kept(CharP(s), CharP(Swap(s, t)), t)
  {
    hide CodeUnit, Escaped, Utf8;
    SwapFront(s, t);
    if CharP(s).Got? && CharP(s).rest != "" {
      var n := |s| - |CharP(s).rest|;
      SwapTail(s, t, n);
      if n == 6 {
        SwapSlice(s, t, 2, 6);
      }
    }
  }

  lemma {:induction false} StringSwap(s: string, t: string)
    requires Closed(s) && Starts(t, ',')
    ensures Kept(StringTail(s), StringTail(Swap(s, t)), t)
    decreases |s|
  {
    hide CharP;
    SwapFront(s, t);
    if s[0] == '\"' {
      if |s| > 1 {
        SwapTail(s, t, 1);
      }
    } else if CharP(s).Got? {
      CharSwap(s, t);
      var next := CharP(s).rest;
      if next != "" {
        StringSwap(next, t);
        if |s| == 1 {
          CharOfOne(s);
        }
      }
    }
  }

  lemma CharOfOne(s: string)
    requires |s| == 1
    ensures CharP(s).Got? ==> CharP(s).rest == ""
  {
  }

  // ---- numbers and names

  lemma {:induction false} DigitsSwap(s: string, t: string, i: nat)
    requires Closed(s) && Starts(t, ',') && i < |s|
    ensures DigitsEnd(s, i) < |s| && DigitsEnd(Swap(s, t), i) == DigitsEnd(s, i)
    decreases |s| - i
  {
    At(s, t, i);
    if Digit(s[i]) {
      DigitsSwap(s, t, i + 1);
    }
  }

  /** The characters at `i`: the same, or the closing brace and the comma. */
  lemma At(s: string, t: string, i: nat)
    requires Closed(s) && Starts(t, ',') && i < |s|
    ensures i < |Swap(s, t)| && Swap(s, t)[i] == if i < |s| - 1 then s[i] else ','
    ensures i == |s| - 1 ==> s[i] == '}'
  {
    assert t[0] == ',';
  }

  lemma WholeSwap(s: string, t: string)
    requires Closed(s) && Starts(t, ',')
    ensures WholeEnd(s) < |s| && WholeEnd(Swap(s, t)) == WholeEnd(s)
  {
    hide DigitsEnd;
    At(s, t, 0);
    var i := if Starts(s, '-') then 1 else 0;
    At(s, t, i);
    DigitsSwap(s, t, i);
  }

  lemma FractionSwap(s: string, t: string, i: nat)
    requires Closed(s) && Starts(t, ',') && i < |s|
    ensures FractionEnd(s, i) < |s| && FractionEnd(Swap(s, t), i) == FractionEnd(s, i)
  {
    hide DigitsEnd;
    At(s, t, i);
    if i + 1 < |s| {
      DigitsSwap(s, t, i + 1);
    }
  }

  lemma ExponentSwap(s: string, t: string, i: nat)
    requires Closed(s) && Starts(t, ',') && i < |s|
    ensures ExponentEnd(s, i) < |s| && ExponentEnd(Swap(s, t), i) == ExponentEnd(s, i)
  {
    hide DigitsEnd;
    At(s, t, i);
    if i + 1 < |s| {
      At(s, t, i + 1);
      DigitsSwap(s, t, i + 1);
      if i + 2 < |s| {
        DigitsSwap(s, t, i + 2);
      }
    }
  }

  lemma NumberSwap(s: string, t: string)
    requires Closed(s) && Starts(t, ',')
    ensures NumberEnd(s) < |s| && NumberEnd(Swap(s, t)) == NumberEnd(s)
  {
    hide WholeEnd, FractionEnd, ExponentEnd;
    WholeSwap(s, t);
    var w := WholeEnd(s);
    if w > 0 {
      FractionSwap(s, t, w);
      if FractionEnd(s, w) > 0 {
        ExponentSwap(s, t, FractionEnd(s, w));
      }
    }
  }

  lemma LiteralSwap(w: string, s: string, t: string)
    requires Closed(s) && Starts(t, ',') && ',' !in w && '}' !in w
    ensures w <= s ==> |w| < |s|
    ensures w <= s <==> w <= Swap(s, t)
  {
    var r := Swap(s, t);
    At(s, t, |s| - 1);
    PrefixStops(w, s, |s| - 1);
    PrefixStops(w, r, |s| - 1);
    if |w| < |s| {
      assert r[..|w|] == s[..|w|];
      assert w <= s <==> w == s[..|w|];
      assert w <= r <==> w == r[..|w|];
    }
  }

  /** A prefix ends before a character it does not contain. */
  lemma PrefixStops(w: string, s: string, i: nat)
    requires i < |s| && s[i] !in w
    ensures w <= s ==> |w| <= i
  {
  }

  lemma WordSwap(s: string, t: string)
    requires Closed(s) && Starts(t, ',')
    ensures Kept(WordP(s), WordP(Swap(s, t)), t)
  {
    hide NumberEnd;
    LiteralSwap("true", s, t);
    LiteralSwap("false", s, t);
    LiteralSwap("null", s, t);
    NumberSwap(s, t);
    if WordP(s).Got? {
      var n := |s| - |WordP(s).rest|;
      SwapTail(s, t, n);
      SwapSlice(s, t, 0, n);
      assert Swap(s, t)[..n] == Swap(s, t)[0..n] && s[..n] == s[0..n];
    }
  }

  // ---- values

  /** The first character: the closing brace alone, or the same in both texts. */
  lemma Look(s: string, t: string)
    requires Closed(s) && Starts(t, ',')
    ensures Swap(s, t) != ""
    ensures if |s| == 1 then s == "}" && Swap(s, t)[0] == ','
            else Swap(s, t)[0] == s[0] && Closed(s[1..]) && Swap(s, t)[1..] == Swap(s[1..], t)
  {
    At(s, t, 0);
    if |s| > 1 {
      SwapTail(s, t, 1);
    } else {
      assert s == [s[0]];
    }
  }

  lemma {:induction false} ValueSwap(s: string, t: string)
    requires Closed(s) && Starts(t, ',')
    ensures Kept(ValueP(s), ValueP(Swap(s, t)), t)
    decreases |s|, 0
  {
    hide Ws, SkipWs, StringTail, MembersP, ItemsP, WordP, Swap, Closed;
    Look(s, t);
    if |s| == 1 {
      WordSwap(s, t);
      BraceIsNoValue();
    } else if s[0] == '\"' {
      StringSwap(s[1..], t);
    } else if s[0] == '{' {
      SkipWsSwap(s[1..], t);
      var r := SkipWs(s[1..]);
      Look(r, t);
      if !Starts(r, '}') {
        MembersSwap(r, t);
      }
    } else if s[0] == '[' {
      SkipWsSwap(s[1..], t);
      var r := SkipWs(s[1..]);
      Look(r, t);
      if !Starts(r, ']') {
        ItemsSwap(r, t);
      }
    } else {
      WordSwap(s, t);
    }
  }

  lemma BraceIsNoValue()
    ensures ValueP("}") == Fail
  {
    assert WordP("}") == Fail;
  }

  lemma {:induction false} MemberSwap(s: string, t: string)
    requires Closed(s) && Starts(t, ',')
    ensures Kept(MemberP(s), MemberP(Swap(s, t)), t)
    decreases |s|, 1
  {
    hide Ws, SkipWs, StringTail, ValueP, Swap, Closed;
    Look(s, t);
    if Starts(s, '\"') && StringTail(s[1..]).Got? {
      StringSwap(s[1..], t);
      var r := StringTail(s[1..]).rest;
      SkipNothing();
      if r != "" {
        SkipWsSwap(r, t);
        var c := SkipWs(r);
        Look(c, t);
        if Starts(c, ':') {
          SkipWsSwap(c[1..], t);
          ValueSwap(SkipWs(c[1..]), t);
          var v := ValueP(SkipWs(c[1..]));
          if v.Got? && v.rest != "" {
            SkipWsSwap(v.rest, t);
          }
        }
      }
    }
  }

  lemma SkipNothing()
    ensures SkipWs("") == ""
  {
  }

  lemma {:induction false} MembersSwap(s: string, t: string)
    requires Closed(s) && Starts(t, ',')
    ensures Kept(MembersP(s), MembersP(Swap(s, t)), t)
    decreases |s|, 2
  {
    hide Ws, SkipWs, MemberP, Swap, Closed;
    MemberSwap(s, t);
    if MemberP(s).Got? && MemberP(s).rest != "" {
      var r := MemberP(s).rest;
      Look(r, t);
      if Starts(r, ',') {
        SkipWsSwap(r[1..], t);
        MembersSwap(SkipWs(r[1..]), t);
      }
    }
  }

  lemma {:induction false} ItemsSwap(s: string, t: string)
    requires Closed(s) && Starts(t, ',')
    ensures Kept(ItemsP(s), ItemsP(Swap(s, t)), t)
    decreases |s|, 1
  {
    hide Ws, SkipWs, ValueP, Swap, Closed;
    ValueSwap(s, t);
    SkipNothing();
    if ValueP(s).Got? && ValueP(s).rest != "" {
      var after := ValueP(s).rest;
      SkipWsSwap(after, t);
      var r := SkipWs(after);
      Look(r, t);
      if Starts(r, ',') {
        SkipWsSwap(r[1..], t);
        ItemsSwap(SkipWs(r[1..]), t);
      }
    }
  }

  // ---- the splice

  /** Members that end with the text's last brace, continued by a comma and more members. */
  lemma {:induction false} MembersSpliced(s: string, more: string, ms: seq<Member>, added: seq<Member>)
    requires Closed(s) && MembersP(s) == Got(ms, "")
    requires MembersP(SkipWs(more)) == Got(added, "")
    ensures MembersP(Swap(s, "," + more)) == Got(ms + added, "")
    decreases |s|
  {
    hide Ws, SkipWs, MemberP, Swap, Closed;
    var t := "," + more;
    assert t[1..] == more;
    MemberSwap(s, t);
    var r := MemberP(s).rest;
    assert r != "";
    Look(r, t);
    var m := MemberP(s).value;
    if Starts(r, '}') {
      assert r[1..] == "";
      assert |r| == 1;
      SwapAll(r, t);
      assert ms == [m];
    } else {
      SkipWsSwap(r[1..], t);
      var rest := SkipWs(r[1..]);
      MembersSpliced(rest, more, MembersP(rest).value, added);
      assert [m] + (MembersP(rest).value + added) == ([m] + MembersP(rest).value) + added;
    }
  }

  lemma SwapAll(r: string, t: string)
    requires |r| == 1
    ensures Swap(r, t) == t
  {
  }
}
