/** The tool that issues API keys: printing one registry entry and splicing it into the
    registry text already in the configuration. */
module IssueKey {
  import opened Digits
  import opened Json
  import opened JsonPrint
  import opened JsonSplice
  import opened Options

  // ---- printing

  method JsonEscape(s: string) returns (out: string)
    ensures out == Escape(s)
  {
    hide EscapeChar;
    out := "";
    assert s[..0] == "";
    for i := 0 to |s|
      invariant out == Escape(s[..i])
    {
      assert s[..i + 1] == s[..i] + [s[i]];
      EscapeSnoc(s[..i], s[i]);
      out := out + EscapeChar(s[i]);
    }
    assert s[..|s|] == s;
  }

  lemma {:induction false} EscapeSnoc(s: string, c: char)
    ensures Escape(s + [c]) == Escape(s) + EscapeChar(c)
    decreases |s|
  {
    hide EscapeChar;
    if s == "" {
      assert "" + [c] == [c] && [c][1..] == "";
    } else {
      assert (s + [c])[1..] == s[1..] + [c];
      EscapeSnoc(s[1..], c);
    }
  }

  /** One key: its limits are whole numbers here. */
  datatype Issue = Issue(id: string, tier: string, publishable: bool, rpm: Option<nat>, computeUnits: Option<nat>,
                         expires: string, scopes: seq<string>, origins: seq<string>)

  function Strings(ss: seq<string>): (r: Json)
  {
    Arr(seq(|ss|, i requires 0 <= i < |ss| => Str(ss[i])))
  }

  function Limit(key: string, n: Option<nat>): seq<Member> {
    match n case None => [] case Some(v) => [Member(key, Num(DecimalText(v)))]
  }

  function Expiry(date: string): seq<Member> {
    if date == "" then [] else [Member("expires", Str(date))]
  }

  function Origins(urls: seq<string>): seq<Member> {
    if urls == [] then [] else [Member("origins", Strings(urls))]
  }

  /** The members of the entry, in the order they are printed. */
  function Spec(o: Issue): seq<Member> {
    [Member("id", Str(o.id))] + [Member("tier", Str(o.tier))] +
      [Member("type", Str(if o.publishable then "publishable" else "secret"))]
    + Limit("requests_per_minute", o.rpm) + Limit("compute_units_per_hour", o.computeUnits) + Expiry(o.expires)
    + [Member("scopes", Strings(o.scopes))] + Origins(o.origins)
  }

  function EntryOf(hash: string, o: Issue): Member {
    Member(hash, Obj(Spec(o)))
  }

  predicate PlainKey(key: string) {
    forall i :: 0 <= i < |key| ==> key[i] >= ' ' && key[i] != '\"' && key[i] != '\\'
  }

  /** A field under a plain key prints as the quoted key, a colon and the value. */
  lemma FieldText(key: string, v: Json)
    requires PlainKey(key)
    ensures PrintMember(Member(key, v)) == "\"" + key + "\": " + PrintValue(v)
  {
    hide PrintValue;
    PlainEscape(key);
    assert "\"" + key + "\"" + ": " == "\"" + key + "\": ";
  }

  lemma {:induction false} MembersSnoc(ms: seq<Member>, m: Member)
    requires ms != []
    ensures PrintMembers(ms + [m]) == PrintMembers(ms) + ", " + PrintMember(m)
    decreases |ms|
  {
    hide PrintMember;
    if |ms| == 1 {
      assert (ms + [m])[1..] == [m];
    } else {
      assert (ms + [m])[1..] == ms[1..] + [m];
      MembersSnoc(ms[1..], m);
    }
  }

  lemma {:induction false} ItemsSnoc(vs: seq<Json>, v: Json)
    requires vs != []
    ensures PrintItems(vs + [v]) == PrintItems(vs) + ", " + PrintValue(v)
    decreases |vs|
  {
    hide PrintValue;
    if |vs| == 1 {
      assert (vs + [v])[1..] == [v];
    } else {
      assert (vs + [v])[1..] == vs[1..] + [v];
      ItemsSnoc(vs[1..], v);
    }
  }

  method StringList(ss: seq<string>) returns (out: string)
    ensures out == PrintValue(Strings(ss))
  {
    hide JsonString;
    out := "[";
    ghost var vs: seq<Json> := [];
    ItemsNothing();
    for i := 0 to |ss|
      invariant vs == Strings(ss[..i]).items && out == "[" + PrintItems(vs)
    {
      ghost var v := Str(ss[i]);
      assert ss[..i + 1] == ss[..i] + [ss[i]];
      assert Strings(ss[..i + 1]).items == vs + [v];
      if i > 0 {
        ItemsSnoc(vs, v);
        out := out + ", ";
      } else {
        OneItem(v);
        assert vs + [v] == [v];
      }
      out := out + JsonString(ss[i]);
      vs := vs + [v];
    }
    assert ss[..|ss|] == ss;
    out := out + "]";
  }

  lemma OneItem(v: Json)
    ensures PrintItems([v]) == PrintValue(v)
  {
  }

  /** Adds one field to a specification under construction, which prints the members `ms`. */
  method AddField(spec: string, key: string, text: string, ghost ms: seq<Member>, ghost v: Json) returns (out: string)
    requires PlainKey(key) && ms != [] && spec == PrintMembers(ms) && text == PrintValue(v)
    ensures out == PrintMembers(ms + [Member(key, v)])
  {
    hide PrintMembers, PrintMember, PrintValue;
    out := spec + ", \"" + key + "\": " + text;
    FieldText(key, v);
    MembersSnoc(ms, Member(key, v));
    assert spec + ", " + ("\"" + key + "\": " + text) == out;
  }

  method AddLimit(spec: string, key: string, n: Option<nat>, ghost ms: seq<Member>) returns (out: string)
    requires PlainKey(key) && ms != [] && spec == PrintMembers(ms)
    ensures out == PrintMembers(ms + Limit(key, n))
  {
    hide PrintMembers, DecimalText, PlainKey;
    out := spec;
    match n {
      case None => assert ms + [] == ms;
      case Some(v) => out := AddField(spec, key, DecimalText(v), ms, Num(DecimalText(v)));
    }
  }

  method AddExpiry(spec: string, date: string, ghost ms: seq<Member>) returns (out: string)
    requires ms != [] && spec == PrintMembers(ms)
    ensures out == PrintMembers(ms + Expiry(date))
  {
    hide PrintMembers, JsonString, PlainKey;
    PlainKeys();
    out := spec;
    if date != "" {
      out := AddField(spec, "expires", JsonString(date), ms, Str(date));
    } else {
      assert ms + [] == ms;
    }
  }

  method AddOrigins(spec: string, urls: seq<string>, ghost ms: seq<Member>) returns (out: string)
    requires ms != [] && spec == PrintMembers(ms)
    ensures out == PrintMembers(ms + Origins(urls))
  {
    hide PrintMembers, PlainKey, Strings;
    PlainKeys();
    out := spec;
    if urls != [] {
      var list := StringList(urls);
      out := AddField(spec, "origins", list, ms, Strings(urls));
    } else {
      assert ms + [] == ms;
    }
  }

  /** The printed entry is the printed form of its members. */
  method BuildEntry(hash: string, o: Issue) returns (entry: string)
    ensures entry == PrintMember(EntryOf(hash, o))
  {
    hide PrintMembers, JsonString, PlainKey, Strings, Limit, Expiry, Origins;
    PlainKeys();
    var spec := "\"id\": " + JsonString(o.id);
    ghost var ms := [Member("id", Str(o.id))];
    OneMember("id", Str(o.id));
    spec := AddField(spec, "tier", JsonString(o.tier), ms, Str(o.tier));
    ms := ms + [Member("tier", Str(o.tier))];
    var kind := if o.publishable then "publishable" else "secret";
    PlainQuoted(kind);
    spec := AddField(spec, "type", "\"" + kind + "\"", ms, Str(kind));
    ms := ms + [Member("type", Str(kind))];
    spec := AddLimit(spec, "requests_per_minute", o.rpm, ms);
    ms := ms + Limit("requests_per_minute", o.rpm);
    spec := AddLimit(spec, "compute_units_per_hour", o.computeUnits, ms);
    ms := ms + Limit("compute_units_per_hour", o.computeUnits);
    spec := AddExpiry(spec, o.expires, ms);
    ms := ms + Expiry(o.expires);
    var scopes := StringList(o.scopes);
    spec := AddField(spec, "scopes", scopes, ms, Strings(o.scopes));
    ms := ms + [Member("scopes", Strings(o.scopes))];
    spec := AddOrigins(spec, o.origins, ms);
    assert ms + Origins(o.origins) == Spec(o);
    entry := JsonString(hash) + ": {" + spec + "}";
    EntryText(JsonString(hash), spec);
  }

  lemma EntryText(key: string, spec: string)
    ensures key + ": {" + spec + "}" == key + ": " + ("{" + spec + "}")
  {
  }

  lemma OneMember(key: string, v: Json)
    requires key == "id"
    ensures PrintMembers([Member(key, v)]) == "\"" + key + "\": " + PrintValue(v)
  {
    hide PrintMember, PrintValue;
    FieldText(key, v);
  }

  lemma PlainKeys()
    ensures PlainKey("tier") && PlainKey("type") && PlainKey("requests_per_minute")
    ensures PlainKey("compute_units_per_hour")
    ensures PlainKey("expires") && PlainKey("scopes") && PlainKey("origins")
  {
  }

  lemma PlainQuoted(kind: string)
    requires kind == "publishable" || kind == "secret"
    ensures PrintValue(Str(kind)) == "\"" + kind + "\""
  {
    PlainEscape(kind);
  }

  lemma StringsPrintable(ss: seq<string>)
    ensures Printable(Strings(ss))
  {
  }

  lemma LimitPrintable(key: string, n: Option<nat>)
    ensures forall i :: 0 <= i < |Limit(key, n)| ==> Printable(Limit(key, n)[i].value)
  {
    hide DecimalText;
  }

  lemma ExpiryPrintable(date: string, urls: seq<string>)
    ensures forall i :: 0 <= i < |Expiry(date)| ==> Printable(Expiry(date)[i].value)
    ensures forall i :: 0 <= i < |Origins(urls)| ==> Printable(Origins(urls)[i].value)
  {
    hide Strings;
    StringsPrintable(urls);
  }

  lemma EntryPrintable(hash: string, o: Issue)
    ensures Printable(EntryOf(hash, o).value)
  {
    hide DecimalText;
    hide Limit, Expiry, Origins, Strings;
    StringsPrintable(o.scopes);
    StringsPrintable(o.origins);
    LimitPrintable("requests_per_minute", o.rpm);
    LimitPrintable("compute_units_per_hour", o.computeUnits);
    ExpiryPrintable(o.expires, o.origins);
  }

  // ---- trimming

  /** White space of the C locale. */
  predicate Space(c: char) {
    c == ' ' || '\t' <= c <= '\r'
  }

  predicate Trimmed(s: string) {
    s == "" || (!Space(s[0]) && !Space(s[|s| - 1]))
  }

  function TrimRight(s: string): string
    decreases |s|
  {
    if s != "" && Space(s[|s| - 1]) then TrimRight(s[..|s| - 1]) else s
  }

  function TrimLeft(s: string): string
    decreases |s|
  {
    if s != "" && Space(s[0]) then TrimLeft(s[1..]) else s
  }

  function TrimBoth(s: string): string {
    TrimLeft(TrimRight(s))
  }

  lemma {:induction false} RightEnd(s: string)
    ensures TrimRight(s) != "" ==> !Space(TrimRight(s)[|TrimRight(s)| - 1])
    decreases |s|
  {
    if s != "" && Space(s[|s| - 1]) {
      RightEnd(s[..|s| - 1]);
    }
  }

  lemma {:induction false} LeftEnds(s: string)
    requires s != "" ==> !Space(s[|s| - 1])
    ensures Trimmed(TrimLeft(s))
    decreases |s|
  {
    if s != "" && Space(s[0]) {
      LeftEnds(s[1..]);
    }
  }

  /** Nothing left to trim. */
  lemma TrimBothTrims(s: string)
    ensures Trimmed(TrimBoth(s))
  {
    RightEnd(s);
    LeftEnds(TrimRight(s));
  }

  /** Trimming drops white space only, from the two ends. */
  lemma {:induction false} TrimKeeps(s: string) returns (front: nat, back: nat)
    ensures front + |TrimBoth(s)| + back == |s| && s[front..|s| - back] == TrimBoth(s)
    ensures forall i :: 0 <= i < |s| && !(front <= i < |s| - back) ==> Space(s[i])
    decreases |s|
  {
    if s != "" && Space(s[|s| - 1]) {
      front, back := TrimKeeps(s[..|s| - 1]);
      back := back + 1;
    } else {
      front := LeftKeeps(s);
      back := 0;
    }
  }

  lemma {:induction false} LeftKeeps(s: string) returns (front: nat)
    ensures front + |TrimLeft(s)| == |s| && s[front..] == TrimLeft(s) && forall i :: 0 <= i < front ==> Space(s[i])
    decreases |s|
  {
    front := 0;
    if s != "" && Space(s[0]) {
      front := LeftKeeps(s[1..]);
      front := front + 1;
    }
  }

  method Trim(s: string) returns (base: string)
    ensures base == TrimBoth(s)
  {
    base := s;
    while base != "" && Space(base[|base| - 1])
      invariant TrimRight(base) == TrimRight(s)
      decreases |base|
    {
      base := base[..|base| - 1];
    }
    var begin := 0;
    ghost var rest := base;
    while begin < |base| && Space(base[begin])
      invariant begin <= |base| && rest == base[begin..] && TrimLeft(rest) == TrimLeft(base)
    {
      begin := begin + 1;
      rest := rest[1..];
    }
    base := base[begin..];
  }

  // ---- merging

  /** The splice and its final check, on trimmed text. */
  function Merged(base: string, entry: string): Option<string> {
    if base == "" then Some("{" + entry + "}")
    else match ParseText(base)
      case Some(Obj(ms)) =>
        if !Closed(base) then None
        else
          var out := base[..|base| - 1] + (if ms == [] then "" else ",") + entry + "}";
          if ParseText(out).Some? && ParseText(out).value.Obj? then Some(out) else None
      case _ => None
  }

  method MergeEntry(existing: string, entry: string) returns (out: Option<string>)
    ensures out == Merged(TrimBoth(existing), entry)
  {
    var b := Trim(existing);
    if b == "" {
      out := Some("{" + entry + "}");
      return;
    }
    var parsed := ParseText(b);
    if parsed == None || !parsed.value.Obj? {
      out := None;
      return;
    }
    if b[|b| - 1] != '}' {
      out := None;
      return;
    }
    var text := b[..|b| - 1];
    if parsed.value.members != [] {
      text := text + ",";
    } else {
      assert text + "" == text;
    }
    text := text + entry + "}";
    var check := ParseText(text);
    out := if check.Some? && check.value.Obj? then Some(text) else None;
  }
}
