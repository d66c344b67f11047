/** JSON strings and values as the key-issuing tool prints them, and that the parser reads
    them back. */
module JsonPrint {
  import opened Digits
  import opened Json
  import opened Options

  // ---- strings

  /** Lower-case hexadecimal digit. */
  function HexDigit(n: nat): char
    requires n < 16
  {
    if n < 10 then '0' + n as char else 'a' + (n - 10) as char
  }

  function EscapeChar(c: char): (e: string)
    ensures e != ""
  {
    match c
    case '\"' => "\\\""
    case '\\' => "\\\\"
    case '\n' => "\\n"
    case '\r' => "\\r"
    case '\t' => "\\t"
    case _ => if c < ' ' then "\\u00" + [HexDigit(c as int / 16), HexDigit(c as int % 16)] else [c]
  }

  function Escape(s: string): string
    decreases |s|
  {
    if s == "" then "" else EscapeChar(s[0]) + Escape(s[1..])
  }

  function JsonString(s: string): string {
    "\"" + Escape(s) + "\""
  }

  lemma HexReadsBack(n: nat)
    requires n < 16
    ensures HexValue(HexDigit(n)) == n
  {
    if n < 10 {
      assert HexDigit(n) - '0' == n as char;
    } else {
      assert HexDigit(n) - 'a' == (n - 10) as char;
    }
  }

  lemma ControlReadsBack(c: char, rest: string)
    requires c < ' '
    ensures CharP("\\u00" + [HexDigit(c as int / 16), HexDigit(c as int % 16)] + rest) == Got([c], rest)
  {
    hide HexDigit, HexValue;
    var s := "\\u00" + [HexDigit(c as int / 16), HexDigit(c as int % 16)] + rest;
    HexReadsBack(c as int / 16);
    HexReadsBack(c as int % 16);
    HexReadsBack(0);
    ZeroDigit();
    assert s[2..6] == ['0', '0', HexDigit(c as int / 16), HexDigit(c as int % 16)];
    assert CodeUnit(s[2..6]) == Some(c as int);
    assert s[6..] == rest;
  }

  lemma ZeroDigit()
    ensures HexDigit(0) == '0'
  {
  }

  /** One escaped character reads back, and does not look like the closing quote. */
  lemma CharReadsBack(c: char, rest: string)
    ensures EscapeChar(c)[0] != '\"' && CharP(EscapeChar(c) + rest) == Got([c], rest)
  {
    hide CodeUnit, HexDigit;
    var s := EscapeChar(c) + rest;
    if c < ' ' && c != '\n' && c != '\r' && c != '\t' {
      ControlReadsBack(c, rest);
    } else {
      assert s[|EscapeChar(c)|..] == rest;
    }
  }

  lemma {:induction false} TailReadsBack(s: string, rest: string)
    ensures StringTail(Escape(s) + "\"" + rest) == Got(s, rest)
    decreases |s|
  {
    hide EscapeChar, CharP;
    var text := Escape(s) + "\"" + rest;
    if s == "" {
      assert text[0] == '\"' && text[1..] == rest;
    } else {
      var next := Escape(s[1..]) + "\"" + rest;
      assert text == EscapeChar(s[0]) + next;
      CharReadsBack(s[0], next);
      TailReadsBack(s[1..], rest);
      assert [s[0]] + s[1..] == s;
    }
  }

  /** For every string, parsing what is printed returns it and consumes exactly it. */
  lemma StringReadsBack(s: string, rest: string)
    ensures ValueP(JsonString(s) + rest) == Got(Str(s), rest)
  {
    hide StringTail, Escape;
    var text := JsonString(s) + rest;
    TailReadsBack(s, rest);
    assert text[0] == '\"' && text[1..] == Escape(s) + "\"" + rest;
  }

  /** Text without quotes, backslashes and control characters is printed as it is. */
  lemma {:induction false} PlainEscape(s: string)
    requires forall i :: 0 <= i < |s| ==> s[i] >= ' ' && s[i] != '\"' && s[i] != '\\'
    ensures Escape(s) == s
    decreases |s|
  {
    if s != "" {
      PlainEscape(s[1..]);
      assert [s[0]] + s[1..] == s;
    }
  }

  // ---- numbers

  /** Characters that end a value: a comma or a closing bracket or brace. */
  predicate Ends(rest: string) {
    rest == "" || rest[0] in ",]}"
  }

  lemma NumberReadsBack(n: nat, rest: string)
    requires Ends(rest)
    ensures ValueP(DecimalText(n) + rest) == Got(Num(DecimalText(n)), rest)
  {
    hide DecimalText;
    var d := DecimalText(n);
    var s := d + rest;
    DecimalDigits(n);
    DigitsRun(d, rest, 0);
    assert s[0] == d[0];
    if rest != "" {
      assert s[|d|] == rest[0];
    }
    assert WholeEnd(s) == |d|;
    assert NumberEnd(s) == |d|;
    assert s[..|d|] == d && s[|d|..] == rest;
  }

  // ---- values

  function PrintValue(v: Json): string
    decreases v
  {
    match v
    case Null => "null"
    case Bool(b) => if b then "true" else "false"
    case Num(text) => text
    case Str(s) => JsonString(s)
    case Arr(items) => "[" + PrintItems(items) + "]"
    case Obj(members) => "{" + PrintMembers(members) + "}"
  }

  function PrintItems(items: seq<Json>): string
    decreases items
  {
    if items == [] then "" else PrintValue(items[0]) + if |items| == 1 then "" else ", " + PrintItems(items[1..])
  }

  function PrintMember(m: Member): string
    decreases m
  {
    JsonString(m.key) + ": " + PrintValue(m.value)
  }

  function PrintMembers(ms: seq<Member>): string
    decreases ms
  {
    if ms == [] then "" else PrintMember(ms[0]) + if |ms| == 1 then "" else ", " + PrintMembers(ms[1..])
  }

  /** Every number in the value is a natural in decimal. */
  ghost predicate Printable(v: Json)
    decreases v
  {
    match v
    case Num(text) => exists n: nat :: text == DecimalText(n)
    case Arr(items) => forall i :: 0 <= i < |items| ==> Printable(items[i])
    case Obj(members) => forall i :: 0 <= i < |members| ==> Printable(members[i].value)
    case _ => true
  }

  predicate NoMark(c: char) {
    !Ws(c) && c !in "]}:,"
  }

  lemma PrintStarts(v: Json)
    requires Printable(v)
    ensures PrintValue(v) != "" && NoMark(PrintValue(v)[0])
  {
    hide DecimalText;
    match v {
      case Num(text) =>
        var n: nat :| text == DecimalText(n);
        DecimalDigits(n);
      case _ =>
    }
  }

  lemma {:induction false} ValueReadsBack(v: Json, rest: string)
    requires Printable(v) && Ends(rest)
    ensures ValueP(PrintValue(v) + rest) == Got(v, rest)
    decreases v
  {
    hide DecimalText, JsonString, PrintItems, PrintMembers, ItemsP, MembersP;
    match v {
      case Null => WordReadsBack("null", rest);
      case Bool(b) => WordReadsBack(if b then "true" else "false", rest);
      case Num(text) =>
        var n: nat :| text == DecimalText(n);
        NumberReadsBack(n, rest);
      case Str(s) => StringReadsBack(s, rest);
      case Arr(items) => ArrayReadsBack(items, rest);
      case Obj(members) => ObjectReadsBack(members, rest);
    }
  }

  lemma WordReadsBack(w: string, rest: string)
    requires w == "null" || w == "true" || w == "false"
    ensures ValueP(w + rest) == Got(if w == "null" then Null else Bool(w == "true"), rest)
  {
    var s := w + rest;
    assert s[0] == w[0];
    assert s[|w|..] == rest;
    assert w <= s;
  }

  lemma SkipsNothing(s: string)
    requires s == "" || !Ws(s[0])
    ensures SkipWs(s) == s
  {
  }

  lemma {:induction false} ArrayReadsBack(items: seq<Json>, rest: string)
    requires forall i :: 0 <= i < |items| ==> Printable(items[i])
    ensures ValueP(PrintValue(Arr(items)) + rest) == Got(Arr(items), rest)
    decreases items, 1
  {
    hide PrintItems, ItemsP, Ws, Printable;
    var s := PrintValue(Arr(items)) + rest;
    var inner := PrintItems(items) + "]" + rest;
    assert s[0] == '[' && s[1..] == inner;
    if items == [] {
      ItemsNothing();
      assert inner == "]" + rest && inner[1..] == rest;
      BracketsAreMarks(inner);
    } else {
      ItemsStart(items);
      assert inner[0] == PrintItems(items)[0];
      BracketsAreMarks(inner);
      ItemsReadBack(items, rest);
    }
    SkipsNothing(inner);
  }

  lemma ItemsNothing()
    ensures PrintItems([]) == "" && PrintMembers([]) == ""
  {
  }

  lemma BracketsAreMarks(s: string)
    requires s != ""
    ensures s[0] in "]}" ==> !Ws(s[0])
    ensures NoMark(s[0]) ==> !Ws(s[0]) && s[0] != ']' && s[0] != '}'
  {
  }

  lemma ItemsStart(items: seq<Json>)
    requires items != [] && Printable(items[0])
    ensures PrintItems(items) != "" && NoMark(PrintItems(items)[0])
  {
    PrintStarts(items[0]);
  }

  lemma {:induction false} ItemsReadBack(items: seq<Json>, rest: string)
    requires items != [] && forall i :: 0 <= i < |items| ==> Printable(items[i])
    ensures ItemsP(PrintItems(items) + "]" + rest) == Got(items, rest)
    decreases items, 0
  {
    hide PrintValue, ValueP, Printable, Ws;
    var v := items[0];
    if |items| == 1 {
      var after := "]" + rest;
      assert PrintItems(items) + "]" + rest == PrintValue(v) + after;
      ValueReadsBack(v, after);
      BracketsAreMarks(after);
      SkipsNothing(after);
      assert after[1..] == rest;
      assert items == [v];
    } else {
      var more := PrintItems(items[1..]) + "]" + rest;
      var after := ", " + more;
      assert PrintItems(items) + "]" + rest == PrintValue(v) + after;
      ValueReadsBack(v, after);
      CommaSkipped(more);
      ItemsStart(items[1..]);
      assert more[0] == PrintItems(items[1..])[0];
      BracketsAreMarks(more);
      SkipsNothing(more);
      ItemsReadBack(items[1..], rest);
      assert [v] + items[1..] == items;
    }
  }

  lemma CommaSkipped(more: string)
    ensures SkipWs(", " + more) == ", " + more && (", " + more)[1..] == " " + more && SkipWs(" " + more) == SkipWs(more)
    ensures Starts(", " + more, ',') && Ends(", " + more)
  {
    assert (" " + more)[1..] == more;
  }

  lemma {:induction false} ObjectReadsBack(ms: seq<Member>, rest: string)
    requires forall i :: 0 <= i < |ms| ==> Printable(ms[i].value)
    ensures ValueP(PrintValue(Obj(ms)) + rest) == Got(Obj(ms), rest)
    decreases ms, 1
  {
    hide PrintMembers, MembersP, Ws, Printable;
    var s := PrintValue(Obj(ms)) + rest;
    var inner := PrintMembers(ms) + "}" + rest;
    assert s[0] == '{' && s[1..] == inner;
    if ms == [] {
      ItemsNothing();
      assert inner == "}" + rest && inner[1..] == rest;
    } else {
      MembersStart(ms);
      assert inner[0] == '\"';
      MembersReadBack(ms, rest);
    }
    QuoteIsNoSpace();
    SkipsNothing(inner);
  }

  lemma QuoteIsNoSpace()
    ensures !Ws('\"') && !Ws('}') && !Ws(':') && !Ws(',')
  {
  }

  lemma MembersStart(ms: seq<Member>)
    requires ms != []
    ensures PrintMembers(ms) != "" && PrintMembers(ms)[0] == '\"'
  {
  }

  lemma {:induction false} MemberReadsBack(m: Member, rest: string)
    requires Printable(m.value) && Ends(rest)
    ensures MemberP(PrintMember(m) + rest) == Got(m, SkipWs(rest))
    decreases m
  {
    hide Escape, PrintValue, ValueP, StringTail, Ws, Printable;
    var value := PrintValue(m.value) + rest;
    var colon := ": " + value;
    var text := PrintMember(m) + rest;
    assert text == "\"" + (Escape(m.key) + "\"" + colon);
    assert text[1..] == Escape(m.key) + "\"" + colon;
    TailReadsBack(m.key, colon);
    QuoteIsNoSpace();
    SkipsNothing(colon);
    ColonSkipped(value);
    PrintStarts(m.value);
    assert value[0] == PrintValue(m.value)[0];
    BracketsAreMarks(value);
    SkipsNothing(value);
    ValueReadsBack(m.value, rest);
  }

  lemma ColonSkipped(more: string)
    ensures (": " + more)[1..] == " " + more && SkipWs(" " + more) == SkipWs(more) && (": " + more)[0] == ':'
  {
    assert (" " + more)[1..] == more;
  }

  lemma {:induction false} MembersReadBack(ms: seq<Member>, rest: string)
    requires ms != [] && forall i :: 0 <= i < |ms| ==> Printable(ms[i].value)
    ensures MembersP(PrintMembers(ms) + "}" + rest) == Got(ms, rest)
    decreases ms, 0
  {
    hide PrintMember, MemberP, Printable, Ws;
    var m := ms[0];
    if |ms| == 1 {
      var after := "}" + rest;
      assert PrintMembers(ms) + "}" + rest == PrintMember(m) + after;
      MemberReadsBack(m, after);
      QuoteIsNoSpace();
      SkipsNothing(after);
      assert after[1..] == rest;
      assert ms == [m];
    } else {
      var more := PrintMembers(ms[1..]) + "}" + rest;
      var after := ", " + more;
      assert PrintMembers(ms) + "}" + rest == PrintMember(m) + after;
      CommaSkipped(more);
      MemberReadsBack(m, after);
      MembersStart(ms[1..]);
      assert more[0] == '\"';
      QuoteIsNoSpace();
      SkipsNothing(more);
      MembersReadBack(ms[1..], rest);
      assert [m] + ms[1..] == ms;
    }
  }
}
