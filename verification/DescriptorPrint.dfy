/** A typed descriptor set, its printed form, and the service names read back from it. */
module DescriptorPrint {
  import opened Descriptor
  import opened Options

  // ---- descriptors

  datatype Method = Method(name: string, input: string, output: string)

  datatype Service = Service(name: string, methods: seq<Method>)

  datatype Enum = Enum(name: string, values: seq<string>)

  datatype Field = Field(name: string, typeName: string)

  datatype Message = Message(name: string, fields: seq<Field>, nested: seq<Message>, enums: seq<Enum>)

  /** A file; without a package it declares its names at the top. */
  datatype File = File(name: string, package: string, messages: seq<Message>, enums: seq<Enum>, services: seq<Service>)

  // ---- their printed form

  function Text(key: string, value: string): Node {
    Leaf(key + ": \"" + value + "\"")
  }

  function Named(kind: string, name: string, rest: seq<Node>): Node {
    Block(kind, [Text("name", name)] + rest)
  }

  function MethodTree(m: Method): Node {
    Named("method", m.name, [Text("input_type", m.input), Text("output_type", m.output)])
  }

  function FieldTree(fd: Field): Node {
    Named("field", fd.name, [Text("type_name", fd.typeName)])
  }

  function ValueTree(v: string): Node {
    Named("value", v, [])
  }

  function EnumTree(e: Enum): Node {
    Named("enum_type", e.name, Each(e.values, ValueTree))
  }

  function ServiceTree(s: Service): Node {
    Named("service", s.name, Each(s.methods, MethodTree))
  }

  function Each<T>(xs: seq<T>, tree: T -> Node): (ns: seq<Node>)
    ensures |ns| == |xs| && forall i :: 0 <= i < |xs| ==> ns[i] == tree(xs[i])
  {
    seq(|xs|, i requires 0 <= i < |xs| => tree(xs[i]))
  }

  /** A message of a file, or one nested in another message. */
  function MessageTree(kind: string, m: Message): Node
    decreases m
  {
    Named(kind, m.name, Each(m.fields, FieldTree) + NestedTrees(m.nested) + Each(m.enums, EnumTree))
  }

  function NestedTrees(ms: seq<Message>): (ns: seq<Node>)
    decreases ms
  {
    if ms == [] then [] else [MessageTree("nested_type", ms[0])] + NestedTrees(ms[1..])
  }

  function FileMessage(m: Message): Node {
    MessageTree("message_type", m)
  }

  function PackageLine(package: string): seq<Node> {
    if package == "" then [] else [Text("package", package)]
  }

  /** The body of a file after its name. */
  function FileRest(f: File): seq<Node> {
    PackageLine(f.package) + Each(f.messages, FileMessage) + Each(f.enums, EnumTree)
    + Each(f.services, ServiceTree)
  }

  function FileTree(f: File): Node {
    Named("file", f.name, FileRest(f))
  }

  // ---- what the reader is after

  function FullName(package: string, name: string): string {
    if package == "" then name else package + "." + name
  }

  /** Every service of every file, under its package. */
  function ServiceNames(files: seq<File>): set<string> {
    set i, j | 0 <= i < |files| && 0 <= j < |files[i].services| :: FullName(files[i].package, files[i].services[j].name)
  }

  predicate QuoteFree(s: string) {
    '\"' !in s
  }

  predicate PlainNames(f: File) {
    QuoteFree(f.package) && forall i :: 0 <= i < |f.services| ==> QuoteFree(f.services[i].name)
  }

  // ---- lines

  lemma {:induction false} QuoteLater(s: string, i: nat, e: nat)
    requires i <= e <= |s| && (forall j :: i <= j < e ==> s[j] != '\"') && (e < |s| ==> s[e] == '\"')
    ensures QuoteAt(s, i) == e
    decreases e - i
  {
    if i < e {
      QuoteLater(s, i + 1, e);
    }
  }

  /** Reading between the quotes undoes the printing of a text without quotes. */
  lemma QuotedText(key: string, value: string)
    requires QuoteFree(key) && QuoteFree(value)
    ensures Quoted(Text(key, value).line) == Some(value)
  {
    var s := Text(key, value).line;
    var i := |key| + 2;
    assert forall j :: 0 <= j < |key| ==> s[j] == key[j];
    assert forall j :: 0 <= j < |value| ==> s[i + 1 + j] == value[j];
    QuoteLater(s, 0, i);
    QuoteLater(s, i + 1, i + 1 + |value|);
    assert s[i + 1..i + 1 + |value|] == value;
  }

  /** A text field is a line the printer can write, whatever the text is. */
  lemma TextFits(key: string, value: string)
    requires key != "" && !Space(key[0])
    ensures Fits(Text(key, value))
  {
    var s := Text(key, value).line;
    assert s[0] == key[0] && s[|s| - 1] == '\"' && s[|key| + 2] == '\"';
    HasQuote(s, 0, |key| + 2);
  }

  lemma {:induction false} HasQuote(s: string, i: nat, at: nat)
    requires i <= at < |s| && s[at] == '\"'
    ensures QuoteAt(s, i) < |s|
    decreases at - i
  {
    if s[i] != '\"' {
      HasQuote(s, i + 1, at);
    }
  }

  // ---- trees

  ghost predicate AllFit(ns: seq<Node>) {
    forall i :: 0 <= i < |ns| ==> Fits(ns[i])
  }

  lemma NamedFits(kind: string, name: string, rest: seq<Node>)
    requires Stripped(kind) && AllFit(rest)
    ensures Fits(Named(kind, name, rest))
  {
    TextFits("name", name);
    var body := [Text("name", name)] + rest;
    forall i | 0 <= i < |body| ensures Fits(body[i]) {
    }
  }

  lemma FitConcat(a: seq<Node>, b: seq<Node>)
    requires AllFit(a) && AllFit(b)
    ensures AllFit(a + b)
  {
  }

  lemma MethodFits(m: Method)
    ensures Fits(MethodTree(m))
  {
    hide Fits, Text;
    TextFits("input_type", m.input);
    TextFits("output_type", m.output);
    NamedFits("method", m.name, [Text("input_type", m.input), Text("output_type", m.output)]);
  }

  lemma EnumFits(e: Enum)
    ensures Fits(EnumTree(e))
  {
    hide Fits, Named;
    forall i | 0 <= i < |e.values| ensures Fits(ValueTree(e.values[i])) {
      NamedFits("value", e.values[i], []);
    }
    NamedFits("enum_type", e.name, Each(e.values, ValueTree));
  }

  lemma ServiceFits(s: Service)
    ensures Fits(ServiceTree(s))
  {
    hide Fits, Named;
    forall i | 0 <= i < |s.methods| ensures Fits(MethodTree(s.methods[i])) {
      MethodFits(s.methods[i]);
    }
    NamedFits("service", s.name, Each(s.methods, MethodTree));
  }

  lemma FieldFits(fd: Field)
    ensures Fits(FieldTree(fd))
  {
    hide Fits, Text;
    TextFits("type_name", fd.typeName);
    NamedFits("field", fd.name, [Text("type_name", fd.typeName)]);
  }

  lemma {:induction false} MessageFits(kind: string, m: Message)
    requires Stripped(kind)
    ensures Fits(MessageTree(kind, m))
    decreases m
  {
    hide Fits, Named;
    forall i | 0 <= i < |m.fields| ensures Fits(FieldTree(m.fields[i])) {
      FieldFits(m.fields[i]);
    }
    forall i | 0 <= i < |m.enums| ensures Fits(EnumTree(m.enums[i])) {
      EnumFits(m.enums[i]);
    }
    NestedFit(m.nested);
    FitConcat(Each(m.fields, FieldTree), NestedTrees(m.nested));
    FitConcat(Each(m.fields, FieldTree) + NestedTrees(m.nested), Each(m.enums, EnumTree));
    NamedFits(kind, m.name, Each(m.fields, FieldTree) + NestedTrees(m.nested) + Each(m.enums, EnumTree));
  }

  lemma {:induction false} NestedFit(ms: seq<Message>)
    ensures AllFit(NestedTrees(ms))
    decreases ms
  {
    hide Fits, MessageTree;
    if ms != [] {
      MessageFits("nested_type", ms[0]);
      NestedFit(ms[1..]);
      FitConcat([MessageTree("nested_type", ms[0])], NestedTrees(ms[1..]));
    }
  }

  lemma FileParts(f: File)
    ensures AllFit(PackageLine(f.package)) && AllFit(Each(f.messages, FileMessage))
    ensures AllFit(Each(f.enums, EnumTree)) && AllFit(Each(f.services, ServiceTree))
  {
    hide Fits, Text, EnumTree, ServiceTree, MessageTree;
    TextFits("package", f.package);
    forall i | 0 <= i < |f.messages| ensures Fits(FileMessage(f.messages[i])) {
      MessageFits("message_type", f.messages[i]);
    }
    forall i | 0 <= i < |f.enums| ensures Fits(EnumTree(f.enums[i])) {
      EnumFits(f.enums[i]);
    }
    forall i | 0 <= i < |f.services| ensures Fits(ServiceTree(f.services[i])) {
      ServiceFits(f.services[i]);
    }
  }

  lemma FileFits(f: File)
    ensures AllFit([Text("name", f.name)]) && AllFit(FileRest(f)) && Fits(FileTree(f))
  {
    hide Fits, Each;
    FileParts(f);
    TextFits("name", f.name);
    FitConcat(PackageLine(f.package), Each(f.messages, FileMessage));
    FitConcat(PackageLine(f.package) + Each(f.messages, FileMessage), Each(f.enums, EnumTree));
    FitConcat(PackageLine(f.package) + Each(f.messages, FileMessage) + Each(f.enums, EnumTree),
      Each(f.services, ServiceTree));
    NamedFits("file", f.name, FileRest(f));
  }

  // ---- the meaning of a printed file

  lemma {:induction false} MeaningOfConcat(a: seq<Node>, b: seq<Node>, otherwise: string)
    requires AllFit(a) && AllFit(b) && AllFit(a + b)
    ensures ServicesIn(a + b) == ServicesIn(a) + ServicesIn(b)
    ensures PackageIn(a + b, otherwise) == PackageIn(b, PackageIn(a, otherwise))
    decreases |a|
  {
    hide Fits, Quoted, NamesIn;
    if a == [] {
      assert a + b == b;
    } else {
      assert (a + b)[0] == a[0] && (a + b)[1..] == a[1..] + b;
      FitsParts(a[0]);
      MeaningOfConcat(a[1..], b, if a[0].Leaf? && PACKAGE <= a[0].line then Quoted(a[0].line).value else otherwise);
    }
  }

  /** Blocks that are no services say nothing. */
  lemma {:induction false} OtherBlocks(ns: seq<Node>, otherwise: string)
    requires AllFit(ns) && forall i :: 0 <= i < |ns| ==> ns[i].Block? && ns[i].kind != "service"
    ensures ServicesIn(ns) == [] && PackageIn(ns, otherwise) == otherwise
    decreases |ns|
  {
    hide Fits;
    if ns != [] {
      OtherBlocks(ns[1..], otherwise);
    }
  }

  lemma {:induction false} NoNames(ns: seq<Node>)
    requires AllFit(ns) && forall i :: 0 <= i < |ns| ==> ns[i].Block?
    ensures NamesIn(ns) == []
    decreases |ns|
  {
    hide Fits;
    if ns != [] {
      NoNames(ns[1..]);
    }
  }

  /** The one name written directly in a service is its own. */
  lemma OwnName(s: Service)
    requires QuoteFree(s.name)
    ensures Fits(ServiceTree(s)) && AllFit(ServiceTree(s).body) && NamesIn(ServiceTree(s).body) == [s.name]
  {
    hide Fits, Quoted;
    ServiceFits(s);
    FitsParts(ServiceTree(s));
    var body := ServiceTree(s).body;
    assert body[1..] == Each(s.methods, MethodTree);
    forall i | 0 <= i < |body| - 1 ensures Fits(body[1..][i]) {
      assert body[1..][i] == body[i + 1];
    }
    NoNames(body[1..]);
    QuotedText("name", s.name);
    assert NAME <= Text("name", s.name).line;
  }

  function NameList(ss: seq<Service>): (r: seq<string>)
    ensures |r| == |ss| && forall i :: 0 <= i < |ss| ==> r[i] == ss[i].name
  {
    seq(|ss|, i requires 0 <= i < |ss| => ss[i].name)
  }

  lemma {:induction false} ServiceBlocks(ss: seq<Service>, otherwise: string)
    requires AllFit(Each(ss, ServiceTree)) && forall i :: 0 <= i < |ss| ==> QuoteFree(ss[i].name)
    ensures ServicesIn(Each(ss, ServiceTree)) == NameList(ss)
    ensures PackageIn(Each(ss, ServiceTree), otherwise) == otherwise
    decreases |ss|
  {
    hide Fits, NamesIn, Quoted;
    if ss != [] {
      var ns := Each(ss, ServiceTree);
      assert ns[1..] == Each(ss[1..], ServiceTree);
      OwnName(ss[0]);
      ServiceBlocks(ss[1..], otherwise);
      assert NameList(ss) == [ss[0].name] + NameList(ss[1..]);
    }
  }

  lemma NameLine(name: string, otherwise: string)
    ensures AllFit([Text("name", name)])
    ensures ServicesIn([Text("name", name)]) == [] && PackageIn([Text("name", name)], otherwise) == otherwise
  {
    hide Fits, Quoted;
    TextFits("name", name);
    var ns := [Text("name", name)];
    assert ns[1..] == [];
    assert ns[0].line[0] != PACKAGE[0];
  }

  lemma PackageRead(package: string)
    requires QuoteFree(package)
    ensures AllFit(PackageLine(package))
    ensures ServicesIn(PackageLine(package)) == [] && PackageIn(PackageLine(package), "") == package
  {
    hide Fits, Quoted;
    if package != "" {
      TextFits("package", package);
      QuotedText("package", package);
      var ns := PackageLine(package);
      assert ns[1..] == [] && PACKAGE <= ns[0].line;
    }
  }

  /** A file means its package and its own services' names. */
  lemma FileMeaning(f: File)
    requires PlainNames(f)
    ensures Fits(FileTree(f)) && AllFit(FileTree(f).body)
    ensures PackageIn(FileTree(f).body, "") == f.package && ServicesIn(FileTree(f).body) == NameList(f.services)
  {
    hide Fits, ServicesIn, PackageIn, MessageTree, EnumTree, Text;
    FileFits(f);
    FileParts(f);
    var name, package := [Text("name", f.name)], PackageLine(f.package);
    var messages, enums, services := Each(f.messages, FileMessage), Each(f.enums, EnumTree),
      Each(f.services, ServiceTree);
    FitConcat(package, messages);
    FitConcat(package + messages, enums);
    FitConcat(package + messages + enums, services);
    NameLine(f.name, "");
    PackageRead(f.package);
    BlockKinds(f);
    OtherBlocks(messages, f.package);
    OtherBlocks(enums, f.package);
    ServiceBlocks(f.services, f.package);
    FitConcat(name, FileRest(f));
    MeaningOfConcat(name, FileRest(f), "");
    MeaningOfConcat(package + messages + enums, services, "");
    MeaningOfConcat(package + messages, enums, "");
    MeaningOfConcat(package, messages, "");
    assert FileTree(f).body == name + FileRest(f);
  }

  lemma BlockKinds(f: File)
    ensures forall i :: 0 <= i < |f.messages| ==>
      Each(f.messages, FileMessage)[i].Block? && Each(f.messages, FileMessage)[i].kind == "message_type"
    ensures forall i :: 0 <= i < |f.enums| ==>
      Each(f.enums, EnumTree)[i].Block? && Each(f.enums, EnumTree)[i].kind == "enum_type"
    ensures "message_type" != "service" && "enum_type" != "service"
  {
    assert "message_type"[0] != "service"[0] && "enum_type"[0] != "service"[0];
  }

  // ---- the whole set

  function Trees(files: seq<File>): seq<Node> {
    Each(files, FileTree)
  }

  lemma {:induction false} MeaningOfSet(files: seq<File>)
    requires forall i :: 0 <= i < |files| ==> PlainNames(files[i])
    ensures AllFit(Trees(files)) && Services(Trees(files)) == ServiceNames(files)
    decreases |files|
  {
    hide Fits, PlainNames, FileTree, ServicesIn, PackageIn, FullName, Qualified;
    if files != [] {
      var ns, f := Trees(files), files[0];
      assert ns[1..] == Trees(files[1..]);
      MeaningOfSet(files[1..]);
      FileMeaning(f);
      FileKind(f);
      forall i | 0 < i < |files| ensures Fits(ns[i]) {
        assert ns[i] == ns[1..][i - 1];
      }
      OwnServices(f);
      NamesCons(files);
    }
  }

  lemma FileKind(f: File)
    ensures FileTree(f).Block? && FileTree(f).kind == "file"
  {
  }

  function OwnNames(f: File): set<string> {
    set j | 0 <= j < |f.services| :: FullName(f.package, f.services[j].name)
  }

  lemma OwnServices(f: File)
    ensures Qualified(f.package, NameList(f.services)) == OwnNames(f)
  {
    var names := NameList(f.services);
    forall x | x in OwnNames(f) ensures x in Qualified(f.package, names) {
      var j :| 0 <= j < |f.services| && x == FullName(f.package, f.services[j].name);
      assert names[j] in names;
    }
    forall x | x in Qualified(f.package, names) ensures x in OwnNames(f) {
      var n :| n in names && x == FullName(f.package, n);
      var j :| 0 <= j < |names| && names[j] == n;
    }
  }

  lemma NamesCons(files: seq<File>)
    requires files != []
    ensures ServiceNames(files) == OwnNames(files[0]) + ServiceNames(files[1..])
  {
    hide FullName;
    forall x | x in ServiceNames(files) ensures x in OwnNames(files[0]) + ServiceNames(files[1..]) {
      var i, j :| 0 <= i < |files| && 0 <= j < |files[i].services| &&
        x == FullName(files[i].package, files[i].services[j].name);
      if i > 0 {
        assert files[1..][i - 1] == files[i];
      }
    }
    forall x | x in ServiceNames(files[1..]) ensures x in ServiceNames(files) {
      var i, j :| 0 <= i < |files[1..]| && 0 <= j < |files[1..][i].services| &&
        x == FullName(files[1..][i].package, files[1..][i].services[j].name);
      assert files[1..][i] == files[i + 1];
    }
  }

  /** For every descriptor set, the reader gets from its printed text exactly the names of
      its services, each under its file's package. */
  lemma ServicesReadBack(files: seq<File>)
    requires forall i :: 0 <= i < |files| ==> PlainNames(files[i])
    ensures var r := Run(START, PrintAll(Trees(files), 0)); r.Some? && r.value.out == ServiceNames(files)
  {
    hide Fits, Run, PrintAll, Services;
    MeaningOfSet(files);
    PrintedServicesRead(Trees(files));
  }
}
