/** JSON texts (RFC 8259) as strings whose characters stand for bytes, and what a parser
    reads at the front of one. */
module Json {
  import opened Digits
  import opened Options

  datatype Json =
    | Null
    | Bool(b: bool)
    | Num(text: string)
    | Str(s: string)
    | Arr(items: seq<Json>)
    | Obj(members: seq<Member>)
  datatype Member = Member(key: string, value: Json)

  /** What was read and the text after it. */
  datatype Parse<+T> = Fail | Got(value: T, rest: string)

  predicate Starts(s: string, c: char) {
    s != "" && s[0] == c
  }

  // ---- white space, strings (sections 2 and 7 of RFC 8259)

  predicate Ws(c: char) {
    c in " \t\n\r"
  }

  function SkipWs(s: string): (r: string)
    ensures |r| <= |s|
    decreases |s|
  {
    if s != "" && Ws(s[0]) then SkipWs(s[1..]) else s
  }

  function HexValue(c: char): (v: int)
    ensures -1 <= v < 16
  {
    if '0' <= c <= '9' then (c - '0') as int
    else if 'a' <= c <= 'f' then (c - 'a') as int + 10
    else if 'A' <= c <= 'F' then (c - 'A') as int + 10
    else -1
  }

  function ByteChar(n: nat): char
    requires n < 256
  {
    n as char
  }

  /** The bytes of one 16-bit code unit. */
  function Utf8(u: nat): string
    requires u < 0x1_0000
  {
    if u < 0x80 then [ByteChar(u)]
    else if u < 0x800 then [ByteChar(0xC0 + u / 64), ByteChar(0x80 + u % 64)]
    else [ByteChar(0xE0 + u / 4096), ByteChar(0x80 + u / 64 % 64), ByteChar(0x80 + u % 64)]
  }

  /** The character a one-letter escape stands for. */
  function Escaped(c: char): Option<char> {
    match c
    case '\"' => Some('\"')
    case '\\' => Some('\\')
    case '/' => Some('/')
    case 'b' => Some('\U{0008}')
    case 'f' => Some('\U{000C}')
    case 'n' => Some('\n')
    case 'r' => Some('\r')
    case 't' => Some('\t')
    case _ => None
  }

  /** The four digits after `\u`. */
  function CodeUnit(s: string): Option<nat>
    requires |s| >= 4
    ensures CodeUnit(s).Some? ==> CodeUnit(s).value < 0x1_0000
  {
    var (a, b, c, d) := (HexValue(s[0]), HexValue(s[1]), HexValue(s[2]), HexValue(s[3]));
    if a >= 0 && b >= 0 && c >= 0 && d >= 0 then Some(((a * 16 + b) * 16 + c) * 16 + d) else None
  }

  /** One character of a string, escaped or not, and how much text it takes. */
  function CharP(s: string): (p: Parse<string>)
    requires s != ""
    ensures p.Got? ==> |p.rest| < |s|
  {
    if s[0] == '\\' then
      if |s| < 2 then Fail
      else if s[1] == 'u' then
        if |s| < 6 then Fail
        else match CodeUnit(s[2..6]) case None => Fail case Some(u) => Got(Utf8(u), s[6..])
      else match Escaped(s[1]) case None => Fail case Some(c) => Got([c], s[2..])
    else if s[0] < ' ' then Fail
    else Got([s[0]], s[1..])
  }

  /** The rest of a string after its opening quote. */
  function StringTail(s: string): (p: Parse<string>)
    ensures p.Got? ==> |p.rest| < |s|
    decreases |s|
  {
    if s == "" then Fail
    else if s[0] == '\"' then Got("", s[1..])
    else match CharP(s)
      case Fail => Fail
      case Got(c, next) =>
        match StringTail(next)
        case Fail => Fail
        case Got(tail, rest) => Got(c + tail, rest)
  }

  // ---- numbers (section 6)

  /** The end of the whole part, 0 if there is none. */
  function WholeEnd(s: string): (e: nat)
    ensures e <= |s|
  {
    var i := if Starts(s, '-') then 1 else 0;
    if i >= |s| || !Digit(s[i]) then 0 else if s[i] == '0' then i + 1 else DigitsEnd(s, i)
  }

  function FractionEnd(s: string, i: nat): (e: nat)
    requires i <= |s|
    ensures e <= |s|
  {
    if i < |s| && s[i] == '.' then
      var e := DigitsEnd(s, i + 1);
      if e > i + 1 then e else 0
    else i
  }

  function ExponentEnd(s: string, i: nat): (e: nat)
    requires i <= |s|
    ensures e <= |s|
  {
    if i < |s| && s[i] in "eE" then
      var j := if i + 1 < |s| && s[i + 1] in "+-" then i + 2 else i + 1;
      var e := DigitsEnd(s, j);
      if e > j then e else 0
    else i
  }

  /** The end of the number at the front of `s`, 0 if there is none. */
  function NumberEnd(s: string): (e: nat)
    ensures e <= |s|
  {
    var w := WholeEnd(s);
    if w == 0 then 0 else
      var f := FractionEnd(s, w);
      if f == 0 then 0 else ExponentEnd(s, f)
  }

  // ---- values (sections 3 to 5)

  function ValueP(s: string): (p: Parse<Json>)
    ensures p.Got? ==> |p.rest| < |s|
    decreases |s|, 0
  {
    if s == "" then Fail
    else if s[0] == '\"' then
      match StringTail(s[1..]) case Fail => Fail case Got(t, rest) => Got(Str(t), rest)
    else if s[0] == '{' then
      var r := SkipWs(s[1..]);
      if Starts(r, '}') then Got(Obj([]), r[1..])
      else match MembersP(r) case Fail => Fail case Got(ms, rest) => Got(Obj(ms), rest)
    else if s[0] == '[' then
      var r := SkipWs(s[1..]);
      if Starts(r, ']') then Got(Arr([]), r[1..])
      else match ItemsP(r) case Fail => Fail case Got(vs, rest) => Got(Arr(vs), rest)
    else WordP(s)
  }

  /** A literal name or a number. */
  function WordP(s: string): (p: Parse<Json>)
    ensures p.Got? ==> |p.rest| < |s|
  {
    if "true" <= s then Got(Bool(true), s[4..])
    else if "false" <= s then Got(Bool(false), s[5..])
    else if "null" <= s then Got(Null, s[4..])
    else if NumberEnd(s) > 0 then Got(Num(s[..NumberEnd(s)]), s[NumberEnd(s)..])
    else Fail
  }

  /** A key, a colon and a value, up to the next character that is not white space. */
  function MemberP(s: string): (p: Parse<Member>)
    ensures p.Got? ==> |p.rest| < |s|
    decreases |s|, 1
  {
    if !Starts(s, '\"') then Fail
    else match StringTail(s[1..])
      case Fail => Fail
      case Got(key, r) =>
        var c := SkipWs(r);
        if !Starts(c, ':') then Fail
        else match ValueP(SkipWs(c[1..]))
          case Fail => Fail
          case Got(v, rest) => Got(Member(key, v), SkipWs(rest))
  }

  /** One or more members and the closing brace. */
  function MembersP(s: string): (p: Parse<seq<Member>>)
    ensures p.Got? ==> |p.rest| < |s|
    decreases |s|, 2
  {
    match MemberP(s)
    case Fail => Fail
    case Got(m, r) =>
      if Starts(r, '}') then Got([m], r[1..])
      else if !Starts(r, ',') then Fail
      else match MembersP(SkipWs(r[1..]))
        case Fail => Fail
        case Got(ms, rest) => Got([m] + ms, rest)
  }

  /** One or more values and the closing bracket. */
  function ItemsP(s: string): (p: Parse<seq<Json>>)
    ensures p.Got? ==> |p.rest| < |s|
    decreases |s|, 1
  {
    match ValueP(s)
    case Fail => Fail
    case Got(v, after) =>
      var r := SkipWs(after);
      if Starts(r, ']') then Got([v], r[1..])
      else if !Starts(r, ',') then Fail
      else match ItemsP(SkipWs(r[1..]))
        case Fail => Fail
        case Got(vs, rest) => Got([v] + vs, rest)
  }

  /** A whole text: one value with white space around it. */
  function ParseText(s: string): Option<Json> {
    match ValueP(SkipWs(s))
    case Fail => None
    case Got(v, rest) => if SkipWs(rest) == "" then Some(v) else None
  }
}
