/** Reading the service names out of a descriptor set printed in protobuf text format. */
module Descriptor {
  import opened Options

  // ---- lines

  /** White space that `strip` removes. */
  predicate Space(c: char) {
    c == ' ' || '\t' <= c <= '\r'
  }

  /** The six white space characters of ASCII. */
  lemma SpacesAre(c: char)
    ensures Space(c) <==> c == ' ' || c as int in {9, 10, 11, 12, 13}
  {
  }

  function StripLeft(s: string): string
    decreases |s|
  {
    if s != "" && Space(s[0]) then StripLeft(s[1..]) else s
  }

  function StripRight(s: string): string
    decreases |s|
  {
    if s != "" && Space(s[|s| - 1]) then StripRight(s[..|s| - 1]) else s
  }

  function Strip(s: string): string {
    StripRight(StripLeft(s))
  }

  predicate Stripped(s: string) {
    s != "" && !Space(s[0]) && !Space(s[|s| - 1])
  }

  function Indent(n: nat): (s: string)
    ensures |s| == n && forall i :: 0 <= i < n ==> s[i] == ' '
  {
    seq(n, _ => ' ')
  }

  lemma {:induction false} StripIndented(n: nat, s: string)
    requires Stripped(s)
    ensures Strip(Indent(n) + s) == s
  {
    LeftIndented(n, s);
  }

  lemma {:induction false} LeftIndented(n: nat, s: string)
    requires Stripped(s)
    ensures StripLeft(Indent(n) + s) == s
    decreases n
  {
    if n == 0 {
      assert Indent(0) + s == s;
    } else {
      LeftIndented(n - 1, s);
      assert (Indent(n) + s)[1..] == Indent(n - 1) + s;
    }
  }

  /** The text between the first two quotes; None when there is no quote. */
  function Quoted(s: string): Option<string> {
    var i := QuoteAt(s, 0);
    if i == |s| then None else Some(s[i + 1..QuoteAt(s, i + 1)])
  }

  /** The first quote at or after `i`, or the end. */
  function QuoteAt(s: string, i: nat): (e: nat)
    requires i <= |s|
    ensures i <= e <= |s|
    decreases |s| - i
  {
    if i == |s| || s[i] == '\"' then i else QuoteAt(s, i + 1)
  }

  predicate Opens(line: string) {
    line != "" && line[|line| - 1] == '{'
  }

  const PACKAGE := "package:"
  const NAME := "name:"

  // ---- the reader

  datatype State = State(out: set<string>, stack: seq<string>, package: string, names: seq<string>)

  const START := State({}, [], "", [])

  function Qualified(package: string, names: seq<string>): set<string> {
    set n <- names :: if package == "" then n else package + "." + n
  }

  /** One line; None is the exception of a brace too many or of a line without its quotes. */
  function Step(s: State, raw: string): Option<State> {
    var line := Strip(raw);
    if Opens(line) then Some(s.(stack := s.stack + [Strip(line[..|line| - 1])]))
    else if line == "}" then
      if s.stack == [] then None
      else
        var t := if s.stack == ["file"] then State(s.out + Qualified(s.package, s.names), s.stack, "", []) else s;
        Some(t.(stack := t.stack[..|t.stack| - 1]))
    else if s.stack == ["file"] && PACKAGE <= line then
      match Quoted(line) case None => None case Some(p) => Some(s.(package := p))
    else if s.stack == ["file", "service"] && NAME <= line then
      match Quoted(line) case None => None case Some(n) => Some(s.(names := s.names + [n]))
    else Some(s)
  }

  function Run(s: State, lines: seq<string>): Option<State>
    decreases |lines|
  {
    if lines == [] then Some(s)
    else match Step(s, lines[0]) case None => None case Some(t) => Run(t, lines[1..])
  }

  method DescriptorServices(lines: seq<string>) returns (r: Option<set<string>>)
    ensures r == match Run(START, lines) case None => None case Some(s) => Some(s.out)
  {
    var out: set<string>, stack: seq<string>, package: string, names: seq<string> := {}, [], "", [];
    assert lines[0..] == lines;
    for i := 0 to |lines|
      invariant Run(State(out, stack, package, names), lines[i..]) == Run(START, lines)
    {
      var line := Strip(lines[i]);
      assert lines[i..][0] == lines[i] && lines[i..][1..] == lines[i + 1..];
      hide Strip, Quoted, Qualified;
      if Opens(line) {
        stack := stack + [Strip(line[..|line| - 1])];
      } else if line == "}" {
        if stack == ["file"] {
          out := out + Qualified(package, names);
          package, names := "", [];
        }
        if stack == [] {
          return None;
        }
        stack := stack[..|stack| - 1];
      } else if stack == ["file"] && PACKAGE <= line {
        var q := Quoted(line);
        if q == None {
          return None;
        }
        package := q.value;
      } else if stack == ["file", "service"] && NAME <= line {
        var q := Quoted(line);
        if q == None {
          return None;
        }
        names := names + [q.value];
      }
    }
    return Some(out);
  }

  // ---- what is printed

  /** A line, or a labelled block of nodes. */
  datatype Node = Leaf(line: string) | Block(kind: string, body: seq<Node>)

  /** A line or block name the printer can write: not a brace, and quoted where a name is. */
  predicate Fits(n: Node)
    decreases n
  {
    match n
    case Leaf(line) =>
      Stripped(line) && !Opens(line) && line != "}" && (PACKAGE <= line || NAME <= line ==> Quoted(line).Some?)
    case Block(kind, body) => Stripped(kind) && forall i :: 0 <= i < |body| ==> Fits(body[i])
  }

  function Print(n: Node, depth: nat): seq<string>
    decreases n
  {
    match n
    case Leaf(line) => [Indent(2 * depth) + line]
    case Block(kind, body) => [Indent(2 * depth) + kind + " {"] + PrintAll(body, depth + 1) + [Indent(2 * depth) + "}"]
  }

  function PrintAll(ns: seq<Node>, depth: nat): seq<string>
    decreases ns
  {
    if ns == [] then [] else Print(ns[0], depth) + PrintAll(ns[1..], depth)
  }

  // ---- what it means

  /** The names written directly in a service. */
  function NamesIn(body: seq<Node>): seq<string>
    requires forall i :: 0 <= i < |body| ==> Fits(body[i])
    decreases |body|
  {
    if body == [] then []
    else
      assert Fits(body[0]);
      (if body[0].Leaf? && NAME <= body[0].line then [Quoted(body[0].line).value] else []) + NamesIn(body[1..])
  }

  /** The names of all services directly in a file. */
  function ServicesIn(body: seq<Node>): seq<string>
    requires forall i :: 0 <= i < |body| ==> Fits(body[i])
    decreases |body|
  {
    if body == [] then []
    else
      assert Fits(body[0]);
      (if body[0].Block? && body[0].kind == "service" then NamesIn(body[0].body) else []) + ServicesIn(body[1..])
  }

  /** The file's package: its last package line, or `otherwise`. */
  function PackageIn(body: seq<Node>, otherwise: string): string
    requires forall i :: 0 <= i < |body| ==> Fits(body[i])
    decreases |body|
  {
    if body == [] then otherwise
    else
      assert Fits(body[0]);
      PackageIn(body[1..], if body[0].Leaf? && PACKAGE <= body[0].line then Quoted(body[0].line).value else otherwise)
  }

  /** Every service of every file under its package-qualified name. */
  function Services(files: seq<Node>): set<string>
    requires forall i :: 0 <= i < |files| ==> Fits(files[i])
    decreases |files|
  {
    if files == [] then {}
    else
      assert Fits(files[0]);
      (if files[0].Block? && files[0].kind == "file" then
         Qualified(PackageIn(files[0].body, ""), ServicesIn(files[0].body))
       else {})
      + Services(files[1..])
  }

  // ---- reading what was printed

  lemma FitsParts(n: Node)
    requires Fits(n)
    ensures n.Leaf? && (PACKAGE <= n.line || NAME <= n.line) ==> Quoted(n.line).Some?
    ensures n.Block? ==> Stripped(n.kind) && forall i :: 0 <= i < |n.body| ==> Fits(n.body[i])
  {
  }

  lemma {:induction false} RunConcat(s: State, a: seq<string>, b: seq<string>)
    ensures Run(s, a + b) == match Run(s, a) case None => None case Some(t) => Run(t, b)
    decreases |a|
  {
    hide Step;
    if a == [] {
      assert a + b == b;
    } else {
      assert (a + b)[0] == a[0] && (a + b)[1..] == a[1..] + b;
      match Step(s, a[0]) {
        case None =>
        case Some(t) => RunConcat(t, a[1..], b);
      }
    }
  }

  lemma RunOne(s: State, line: string)
    ensures Run(s, [line]) == Step(s, line)
  {
    hide Step;
    assert [line][1..] == [];
    match Step(s, line) {
      case None =>
      case Some(t) => assert Run(t, []) == Some(t);
    }
  }

  lemma OpenStep(s: State, depth: nat, kind: string)
    requires Stripped(kind)
    ensures Step(s, Indent(depth) + kind + " {") == Some(s.(stack := s.stack + [kind]))
  {
    hide Strip;
    var line := kind + " {";
    assert Indent(depth) + kind + " {" == Indent(depth) + line;
    StripIndented(depth, line);
    assert line[..|line| - 1] == kind + " ";
    StripTrailing(kind);
  }

  lemma StripTrailing(kind: string)
    requires Stripped(kind)
    ensures Strip(kind + " ") == kind
  {
    var s := kind + " ";
    assert StripLeft(s) == s;
    assert s[..|s| - 1] == kind;
    assert StripRight(s) == StripRight(kind) == kind;
  }

  lemma CloseStep(s: State, depth: nat)
    requires s.stack != []
    ensures Step(s, Indent(depth) + "}") ==
      Some(if s.stack == ["file"] then State(s.out + Qualified(s.package, s.names), [], "", [])
        else s.(stack := s.stack[..|s.stack| - 1]))
  {
    hide Strip, Qualified;
    StripIndented(depth, "}");
  }

  lemma LeafStep(s: State, depth: nat, line: string)
    requires Fits(Leaf(line))
    ensures Step(s, Indent(depth) + line) == Some(
      if s.stack == ["file"] && PACKAGE <= line then s.(package := Quoted(line).value)
      else if s.stack == ["file", "service"] && NAME <= line then s.(names := s.names + [Quoted(line).value])
      else s)
  {
    hide Strip, Quoted;
    StripIndented(depth, line);
  }

  /** The labels above a node at which its lines say nothing. */
  predicate Silent(stack: seq<string>) {
    |stack| >= 3 || (|stack| == 2 && stack != ["file", "service"]) || (|stack| == 1 && stack != ["file"])
  }

  lemma DeeperSilent(stack: seq<string>, kind: string)
    requires Silent(stack) || stack == ["file", "service"] || (stack == ["file"] && kind != "service")
    ensures Silent(stack + [kind])
  {
    var deeper := stack + [kind];
    var service := ["file", "service"];
    if |stack| == 1 {
      assert deeper[0] == stack[0] && deeper[1] == kind;
      assert stack == [stack[0]];
      assert service[0] == "file" && service[1] == "service";
    }
  }

  /** Blocks under silent labels leave the state as it was. */
  lemma {:induction false} SilentAll(s: State, ns: seq<Node>, depth: nat)
    requires Silent(s.stack) && forall i :: 0 <= i < |ns| ==> Fits(ns[i])
    ensures Run(s, PrintAll(ns, depth)) == Some(s)
    decreases ns, 0
  {
    hide Fits, Step, Print;
    if ns != [] {
      assert Fits(ns[0]);
      SilentNode(s, ns[0], depth);
      RunConcat(s, Print(ns[0], depth), PrintAll(ns[1..], depth));
      SilentAll(s, ns[1..], depth);
    }
  }

  lemma {:induction false} SilentNode(s: State, n: Node, depth: nat)
    requires Fits(n)
    requires
      || Silent(s.stack)
      || (n.Block? && s.stack == ["file", "service"])
      || (n.Block? && s.stack == ["file"] && n.kind != "service")
    ensures Run(s, Print(n, depth)) == Some(s)
    decreases n
  {
    hide Step, PrintAll, Qualified, Quoted;
    match n {
      case Leaf(line) =>
        LeafStep(s, 2 * depth, line);
        RunOne(s, Indent(2 * depth) + line);
      case Block(kind, body) =>
        var t := s.(stack := s.stack + [kind]);
        DeeperSilent(s.stack, kind);
        SilentAll(t, body, depth + 1);
        CloseStep(t, 2 * depth);
        assert t.stack[..|t.stack| - 1] == s.stack;
        BlockRun(s, kind, body, depth, t);
    }
  }

  /** A block runs its opening line, its body and its closing line. */
  lemma BlockRun(s: State, kind: string, body: seq<Node>, depth: nat, after: State)
    requires Stripped(kind)
    requires Run(s.(stack := s.stack + [kind]), PrintAll(body, depth + 1)) == Some(after)
    ensures Run(s, Print(Block(kind, body), depth)) == Step(after, Indent(2 * depth) + "}")
  {
    hide Step, PrintAll;
    var open, close := [Indent(2 * depth) + kind + " {"], [Indent(2 * depth) + "}"];
    var t := s.(stack := s.stack + [kind]);
    OpenStep(s, 2 * depth, kind);
    RunOne(s, open[0]);
    RunConcat(s, open, PrintAll(body, depth + 1));
    RunConcat(s, open + PrintAll(body, depth + 1), close);
    RunOne(after, close[0]);
  }

  /** A service adds the names written directly in it. */
  lemma {:induction false} ServiceBody(s: State, body: seq<Node>, depth: nat)
    requires s.stack == ["file", "service"] && forall i :: 0 <= i < |body| ==> Fits(body[i])
    ensures Run(s, PrintAll(body, depth)) == Some(s.(names := s.names + NamesIn(body)))
    decreases |body|
  {
    hide Fits, Step, Quoted;
    if body == [] {
      assert s.names + [] == s.names;
    } else {
      assert Fits(body[0]);
      var n := body[0];
      FitsParts(n);
      var own := if n.Leaf? && NAME <= n.line then [Quoted(n.line).value] else [];
      var t := s.(names := s.names + own);
      if n.Leaf? {
        LeafStep(s, 2 * depth, n.line);
        RunOne(s, Indent(2 * depth) + n.line);
      } else {
        SilentNode(s, n, depth);
      }
      assert own == [] ==> s.names + own == s.names;
      RunConcat(s, Print(n, depth), PrintAll(body[1..], depth));
      ServiceBody(t, body[1..], depth);
      assert s.names + (own + NamesIn(body[1..])) == (s.names + own) + NamesIn(body[1..]);
    }
  }

  /** A file sets its package and collects the names of its services. */
  lemma {:induction false} FileBody(s: State, body: seq<Node>, depth: nat)
    requires s.stack == ["file"] && forall i :: 0 <= i < |body| ==> Fits(body[i])
    ensures Run(s, PrintAll(body, depth)) ==
      Some(s.(package := PackageIn(body, s.package), names := s.names + ServicesIn(body)))
    decreases |body|
  {
    hide Fits, Step, Quoted, NamesIn;
    if body == [] {
      assert s.names + [] == s.names;
    } else {
      assert Fits(body[0]);
      var n := body[0];
      var rest := body[1..];
      FileNode(s, n, depth);
      var t := AfterNode(s, n);
      RunConcat(s, Print(n, depth), PrintAll(rest, depth));
      FileBody(t, rest, depth);
      FitsParts(n);
      var own := if n.Block? && n.kind == "service" then NamesIn(n.body) else [];
      assert s.names + (own + ServicesIn(rest)) == (s.names + own) + ServicesIn(rest);
      assert own == [] ==> s.names + own == s.names;
    }
  }

  function AfterNode(s: State, n: Node): State
    requires Fits(n)
  {
    match n
    case Leaf(line) => if PACKAGE <= line then s.(package := Quoted(line).value) else s
    case Block(kind, body) => if kind == "service" then s.(names := s.names + NamesIn(body)) else s
  }

  lemma FileNode(s: State, n: Node, depth: nat)
    requires s.stack == ["file"] && Fits(n)
    ensures Run(s, Print(n, depth)) == Some(AfterNode(s, n))
  {
    hide Step, Quoted, NamesIn, Qualified, PrintAll;
    match n {
      case Leaf(line) =>
        LeafStep(s, 2 * depth, line);
        RunOne(s, Indent(2 * depth) + line);
      case Block(kind, body) =>
        if kind == "service" {
          var t := s.(stack := ["file", "service"]);
          assert s.stack + ["service"] == ["file", "service"];
          ServiceBody(t, body, depth + 1);
          var after := t.(names := t.names + NamesIn(body));
          CloseStep(after, 2 * depth);
          assert after.stack[..1] == ["file"];
          BlockRun(s, kind, body, depth, after);
        } else {
          SilentNode(s, n, depth);
        }
    }
  }

  lemma TopNode(s: State, n: Node)
    requires s.stack == [] && s.package == "" && s.names == [] && Fits(n)
    ensures Run(s, Print(n, 0)) == Some(
      if n.Block? && n.kind == "file" then s.(out := s.out + Qualified(PackageIn(n.body, ""), ServicesIn(n.body)))
      else s)
  {
    hide Step, Quoted, ServicesIn, PackageIn, Qualified, PrintAll;
    match n {
      case Leaf(line) =>
        LeafStep(s, 0, line);
        RunOne(s, Indent(0) + line);
      case Block(kind, body) =>
        var t := s.(stack := [kind]);
        assert s.stack + [kind] == [kind];
        if kind == "file" {
          FileBody(t, body, 1);
          var after := t.(package := PackageIn(body, ""), names := [] + ServicesIn(body));
          assert [] + ServicesIn(body) == ServicesIn(body);
          CloseStep(after, 0);
          BlockRun(s, kind, body, 0, after);
        } else {
          SilentAll(t, body, 1);
          CloseStep(t, 0);
          assert t.stack[..0] == [];
          BlockRun(s, kind, body, 0, t);
        }
    }
  }

  lemma {:induction false} TopAll(s: State, files: seq<Node>)
    requires s.stack == [] && s.package == "" && s.names == [] && forall i :: 0 <= i < |files| ==> Fits(files[i])
    ensures Run(s, PrintAll(files, 0)) == Some(s.(out := s.out + Services(files)))
    decreases |files|
  {
    hide Fits, Step, ServicesIn, PackageIn, Qualified;
    if files == [] {
      assert s.out + {} == s.out;
    } else {
      assert Fits(files[0]);
      var n := files[0];
      TopNode(s, n);
      FitsParts(n);
      var own := if n.Block? && n.kind == "file" then Qualified(PackageIn(n.body, ""), ServicesIn(n.body)) else {};
      assert own == {} ==> s.out + own == s.out;
      RunConcat(s, Print(n, 0), PrintAll(files[1..], 0));
      TopAll(s.(out := s.out + own), files[1..]);
      assert s.out + (own + Services(files[1..])) == (s.out + own) + Services(files[1..]);
    }
  }

  /** For every printed tree the reader returns exactly the package-qualified services. */
  lemma PrintedServicesRead(files: seq<Node>)
    requires forall i :: 0 <= i < |files| ==> Fits(files[i])
    ensures var r := Run(START, PrintAll(files, 0)); r.Some? && r.value.out == Services(files)
  {
    hide Fits, Run, PrintAll, Services;
    TopAll(START, files);
    assert {} + Services(files) == Services(files);
  }
}
