/** The configuration text the web client exports (apps/web/src/pages/Backup.tsx) and its import. */
module ConfigExport {
  import opened Common
  import opened Text
  import opened YamlImport
  import opened YamlPrinter

  datatype Environment = Environment(
    name: string, description: string, templateName: string, cpu: string, memory: string, storage: string)

  function Or(s: string, default: string): string {
    if s == "" then default else s
  }

  /** The fields as they are printed, defaults filled in. */
  function Printed(env: Environment): Environment {
    Environment(Or(env.name, "environment"), env.description, env.templateName,
                Or(env.cpu, "2 \U{6838}"), Or(env.memory, "4 GB"), Or(env.storage, "20 GB"))
  }

  const COMMENT := "# Cloud DevBox Environment Configuration"
  const KEYS := ["name", "description", "template", "resources", "cpu", "memory", "storage", "exportedAt", "version"]
  const VERSION := "\"1.0\""

  function ExportLines(p: Environment, exportedAt: string): seq<string> {
    [COMMENT,
     "name: " + p.name,
     "description: " + p.description,
     "template: " + p.templateName,
     "resources:",
     "  cpu: " + p.cpu,
     "  memory: " + p.memory,
     "  storage: " + p.storage,
     "exportedAt: " + exportedAt,
     "version: " + VERSION]
  }

  function ExportText(env: Environment, exportedAt: string): string {
    Unlines(ExportLines(Printed(env), exportedAt))
  }

  function Import(content: string): Option<Export> {
    Collect(ReadText(content))
  }

  function Expected(p: Environment, exportedAt: string): Export {
    Export(Str(p.name), Some(Str(p.description)), Some(Str(p.templateName)),
           Some(Obj(map["cpu" := Str(p.cpu), "memory" := Str(p.memory), "storage" := Str(p.storage)])),
           None, None, None, None, Some(Str(exportedAt)), None, Some(Str("1.0")))
  }

  predicate AllPlain(p: Environment, exportedAt: string) {
    && Plain(p.name) && Plain(p.description) && Plain(p.templateName)
    && Plain(p.cpu) && Plain(p.memory) && Plain(p.storage) && Plain(exportedAt)
  }

  predicate OneLine(p: Environment, exportedAt: string) {
    && '\n' !in p.name && '\n' !in p.description && '\n' !in p.templateName
    && '\n' !in p.cpu && '\n' !in p.memory && '\n' !in p.storage && '\n' !in exportedAt
  }

  function Resources(p: Environment): Value {
    Obj(map["cpu" := LeafValue(p.cpu), "memory" := LeafValue(p.memory), "storage" := LeafValue(p.storage)])
  }

  /** What the parser makes of exported lines: blank texts become empty sections. */
  function ReadBack(p: Environment, exportedAt: string): map<string, Value> {
    map["name" := LeafValue(p.name), "description" := LeafValue(p.description), "template" := LeafValue(p.templateName),
        "resources" := Resources(p), "exportedAt" := LeafValue(exportedAt), "version" := Str("1.0")]
  }

  // ---------- reading the exported lines ----------

  predicate GoodKeys(keys: seq<string>) {
    forall i :: 0 <= i < |keys| ==> GoodKey(keys[i])
  }

  predicate IsComment(line: string) {
    Skipped(line) && '\n' !in line
  }

  /** The layout of the exported lines, for any keys: three texts, a section of three, two texts. */
  predicate Layout(lines: seq<string>, k: seq<string>, t: seq<string>) {
    && |lines| == 10 && |k| == |t| == 9
    && GoodKeys(k) && k[3] != "" && IsComment(lines[0])
    && lines[1] == Leaf(0, k[0], t[0]) && lines[2] == Leaf(0, k[1], t[1]) && lines[3] == Leaf(0, k[2], t[2])
    && lines[4] == Header(0, k[3])
    && lines[5] == Leaf(2, k[4], t[4]) && lines[6] == Leaf(2, k[5], t[5]) && lines[7] == Leaf(2, k[6], t[6])
    && lines[8] == Leaf(0, k[7], t[7]) && lines[9] == Leaf(0, k[8], t[8])
  }

  lemma Peel(st: State, lines: seq<string>, i: nat)
    requires i < |lines|
    ensures ReadLines(st, lines[i..]) == ReadLines(ReadLine(st, lines[i]), lines[i + 1..])
  {
    assert lines[i..][1..] == lines[i + 1..];
  }

  /** A top-level line with a text: a section header if the text is blank, else a string. */
  lemma TopLine(st: State, key: string, text: string)
    requires GoodKey(key)
    ensures ReadLine(st, Leaf(0, key, text)).config == st.config[key := LeafValue(text)]
  {
    LeafIs(0, key, text);
  }

  lemma SectionLine(st: State, base: map<string, Value>, section: string, fields: map<string, Value>,
                    key: string, text: string)
    requires GoodKey(key) && st.section == section != "" && st.config == base[section := Obj(fields)]
    ensures var st' := ReadLine(st, Leaf(2, key, text));
            st'.config == base[section := Obj(fields[key := LeafValue(text)])] && st'.section == section
  {
    LeafIs(2, key, text);
  }

  lemma FirstPart(lines: seq<string>, k: seq<string>, t: seq<string>) returns (st: State)
    requires Layout(lines, k, t)
    ensures ReadLines(START, lines) == ReadLines(st, lines[4..])
    ensures st.config == map[k[0] := LeafValue(t[0])][k[1] := LeafValue(t[1])][k[2] := LeafValue(t[2])]
  {
    assert lines[0..] == lines;
    Peel(START, lines, 0);
    Peel(START, lines, 1);
    TopLine(START, k[0], t[0]);
    st := ReadLine(START, lines[1]);
    Peel(st, lines, 2);
    TopLine(st, k[1], t[1]);
    st := ReadLine(st, lines[2]);
    Peel(st, lines, 3);
    TopLine(st, k[2], t[2]);
    st := ReadLine(st, lines[3]);
  }

  lemma SectionPart(st: State, lines: seq<string>, k: seq<string>, t: seq<string>) returns (st': State)
    requires Layout(lines, k, t)
    ensures ReadLines(st, lines[4..]) == ReadLines(st', lines[8..])
    ensures st'.config ==
            st.config[k[3] := Obj(map[k[4] := LeafValue(t[4])][k[5] := LeafValue(t[5])][k[6] := LeafValue(t[6])])]
  {
    assert GoodKey(k[3]) && GoodKey(k[4]) && GoodKey(k[5]) && GoodKey(k[6]);
    Peel(st, lines, 4);
    OpenSection(st, k[3]);
    st' := ReadLine(st, lines[4]);
    Peel(st', lines, 5);
    SectionLine(st', st.config, k[3], map[], k[4], t[4]);
    st' := ReadLine(st', lines[5]);
    var f := map[k[4] := LeafValue(t[4])];
    Peel(st', lines, 6);
    SectionLine(st', st.config, k[3], f, k[5], t[5]);
    st' := ReadLine(st', lines[6]);
    Peel(st', lines, 7);
    SectionLine(st', st.config, k[3], f[k[5] := LeafValue(t[5])], k[6], t[6]);
    st' := ReadLine(st', lines[7]);
  }

  lemma OpenSection(st: State, key: string)
    requires GoodKey(key)
    ensures var st' := ReadLine(st, Header(0, key));
            st'.section == key && st'.config == st.config[key := Obj(map[])]
  {
    HeaderIs(0, key);
  }

  lemma LastPart(st: State, lines: seq<string>, k: seq<string>, t: seq<string>)
    requires Layout(lines, k, t)
    ensures ReadLines(st, lines[8..]).config == st.config[k[7] := LeafValue(t[7])][k[8] := LeafValue(t[8])]
  {
    Peel(st, lines, 8);
    TopLine(st, k[7], t[7]);
    Peel(ReadLine(st, lines[8]), lines, 9);
    TopLine(ReadLine(st, lines[8]), k[8], t[8]);
  }

  lemma LayoutIsRead(lines: seq<string>, k: seq<string>, t: seq<string>)
    requires Layout(lines, k, t)
    ensures ReadLines(START, lines).config ==
            map[k[0] := LeafValue(t[0])][k[1] := LeafValue(t[1])][k[2] := LeafValue(t[2])]
               [k[3] := Obj(map[k[4] := LeafValue(t[4])][k[5] := LeafValue(t[5])][k[6] := LeafValue(t[6])])]
               [k[7] := LeafValue(t[7])][k[8] := LeafValue(t[8])]
  {
    var st := FirstPart(lines, k, t);
    var st' := SectionPart(st, lines, k, t);
    LastPart(st', lines, k, t);
  }

  lemma LayoutIsOneLine(lines: seq<string>, k: seq<string>, t: seq<string>)
    requires Layout(lines, k, t) && forall i :: 0 <= i < 9 ==> '\n' !in t[i]
    ensures forall l :: l in lines ==> '\n' !in l
  {
    forall i | 0 <= i < 9
      ensures '\n' !in Leaf(0, k[i], t[i]) && '\n' !in Leaf(2, k[i], t[i]) && '\n' !in Header(0, k[i])
    {
      OneLineEntry(0, k[i], t[i]);
      OneLineEntry(2, k[i], t[i]);
    }
  }

  function Texts(p: Environment, exportedAt: string): seq<string> {
    [p.name, p.description, p.templateName, "", p.cpu, p.memory, p.storage, exportedAt, VERSION]
  }

  lemma TextIsLeaf(prefix: string, n: nat, key: string, text: string)
    requires prefix == Spaces(n) + (key + ": ")
    ensures prefix + text == Leaf(n, key, text)
  {}

  lemma CommentIsSkipped()
    ensures IsComment(COMMENT)
  {
    TrimFixesIff(COMMENT, JavaScript);
  }

  predicate Letters(s: string) {
    forall i :: 0 <= i < |s| ==> 'a' <= s[i] <= 'z' || 'A' <= s[i] <= 'Z'
  }

  lemma LettersAreGood(key: string)
    requires Letters(key)
    ensures GoodKey(key)
  {}

  lemma KeysAreLetters()
    ensures |KEYS| == 9 && forall i :: 0 <= i < 9 ==> Letters(KEYS[i])
  {}

  lemma KeysAreGood()
    ensures |KEYS| == 9 && GoodKeys(KEYS)
  {
    KeysAreLetters();
    forall i | 0 <= i < 9 ensures GoodKey(KEYS[i]) {
      LettersAreGood(KEYS[i]);
    }
  }

  lemma TopTexts(p: Environment, exportedAt: string)
    ensures "name: " + p.name == Leaf(0, "name", p.name)
    ensures "description: " + p.description == Leaf(0, "description", p.description)
    ensures "template: " + p.templateName == Leaf(0, "template", p.templateName)
    ensures "exportedAt: " + exportedAt == Leaf(0, "exportedAt", exportedAt)
    ensures "version: " + VERSION == Leaf(0, "version", VERSION)
  {
    TextIsLeaf("name: ", 0, "name", p.name);
    TextIsLeaf("description: ", 0, "description", p.description);
    TextIsLeaf("template: ", 0, "template", p.templateName);
    TextIsLeaf("exportedAt: ", 0, "exportedAt", exportedAt);
    TextIsLeaf("version: ", 0, "version", VERSION);
  }

  lemma SectionTexts(p: Environment)
    ensures "resources:" == Header(0, "resources")
    ensures "  cpu: " + p.cpu == Leaf(2, "cpu", p.cpu)
    ensures "  memory: " + p.memory == Leaf(2, "memory", p.memory)
    ensures "  storage: " + p.storage == Leaf(2, "storage", p.storage)
  {
    TextIsLeaf("  cpu: ", 2, "cpu", p.cpu);
    TextIsLeaf("  memory: ", 2, "memory", p.memory);
    TextIsLeaf("  storage: ", 2, "storage", p.storage);
  }

  lemma LayoutOf(c: string, k0: string, k1: string, k2: string, k3: string, k4: string, k5: string, k6: string,
                 k7: string, k8: string,
                 t0: string, t1: string, t2: string, t4: string, t5: string, t6: string, t7: string, t8: string)
    requires IsComment(c) && k3 != "" && GoodKeys([k0, k1, k2, k3, k4, k5, k6, k7, k8])
    ensures Layout([c, Leaf(0, k0, t0), Leaf(0, k1, t1), Leaf(0, k2, t2), Header(0, k3), Leaf(2, k4, t4),
                    Leaf(2, k5, t5), Leaf(2, k6, t6), Leaf(0, k7, t7), Leaf(0, k8, t8)],
                   [k0, k1, k2, k3, k4, k5, k6, k7, k8], [t0, t1, t2, "", t4, t5, t6, t7, t8])
  {}

  lemma ExportHasLayout(p: Environment, exportedAt: string)
    ensures Layout(ExportLines(p, exportedAt), KEYS, Texts(p, exportedAt))
  {
    KeysAreGood();
    CommentIsSkipped();
    TopTexts(p, exportedAt);
    SectionTexts(p);
    LayoutOf(COMMENT, "name", "description", "template", "resources", "cpu", "memory", "storage", "exportedAt", "version",
             p.name, p.description, p.templateName, p.cpu, p.memory, p.storage, exportedAt, VERSION);
  }

  lemma VersionText()
    ensures LeafValue(VERSION) == Str("1.0")
  {
    TrimFixesIff(VERSION, JavaScript);
    assert StripQuotes(VERSION) == "1.0";
  }

  lemma ExportIsRead(p: Environment, exportedAt: string)
    ensures ReadLines(START, ExportLines(p, exportedAt)).config == ReadBack(p, exportedAt)
  {
    ExportHasLayout(p, exportedAt);
    LayoutIsRead(ExportLines(p, exportedAt), KEYS, Texts(p, exportedAt));
    VersionText();
  }

  lemma TextsAreOneLine(p: Environment, exportedAt: string)
    requires OneLine(p, exportedAt)
    ensures forall i :: 0 <= i < 9 ==> '\n' !in Texts(p, exportedAt)[i]
  {
    assert '\n' !in VERSION && '\n' !in "";
  }

  lemma ExportIsOneLine(p: Environment, exportedAt: string)
    requires OneLine(p, exportedAt)
    ensures forall l :: l in ExportLines(p, exportedAt) ==> '\n' !in l
  {
    ExportHasLayout(p, exportedAt);
    TextsAreOneLine(p, exportedAt);
    LayoutIsOneLine(ExportLines(p, exportedAt), KEYS, Texts(p, exportedAt));
  }

  /** For one-line texts, the import sees the exported lines. */
  lemma ImportOfOneLine(env: Environment, exportedAt: string)
    requires OneLine(Printed(env), exportedAt)
    ensures ReadText(ExportText(env, exportedAt)) == ReadBack(Printed(env), exportedAt)
  {
    ExportIsOneLine(Printed(env), exportedAt);
    ReadUnlines(ExportLines(Printed(env), exportedAt));
    ExportIsRead(Printed(env), exportedAt);
  }

  // ---------- the round trip ----------

  lemma ExpectedIsOneLine(env: Environment, exportedAt: string)
    requires Import(ExportText(env, exportedAt)) == Some(Expected(Printed(env), exportedAt))
    ensures OneLine(Printed(env), exportedAt)
  {
    var config, p := ReadText(ExportText(env, exportedAt)), Printed(env);
    ReadTextIsCarried(ExportText(env, exportedAt));
    assert Carried(config["name"]) && Carried(config["description"]);
    assert Carried(config["exportedAt"]);
    var fields := config["resources"].fields;
    assert Carried(config["resources"]);
    assert Carried(fields["cpu"]) && Carried(fields["memory"]) && Carried(fields["storage"]);
    assert AllCarried(config);
  }

  /** Exporting an environment and importing the file gives back every printed field exactly when each of them
      is plain: non-empty, on one line, trimmed and without a quote at either end.
   */
  lemma ExportImportIff(env: Environment, exportedAt: string)
    ensures Import(ExportText(env, exportedAt)) == Some(Expected(Printed(env), exportedAt)) <==>
            AllPlain(Printed(env), exportedAt)
  {
    var p := Printed(env);
    if Import(ExportText(env, exportedAt)) == Some(Expected(p, exportedAt)) {
      ExpectedIsOneLine(env, exportedAt);
    }
    if OneLine(p, exportedAt) {
      ImportOfOneLine(env, exportedAt);
      FieldsIff(p, exportedAt);
    }
  }

  /** The fields of an exported file, and no others that the import looks for. */
  predicate Holds(m: map<string, Value>, name: Value, description: Value, template: Value, resources: Value,
                  exportedAt: Value, version: Value) {
    && "name" in m && m["name"] == name && "description" in m && m["description"] == description
    && "template" in m && m["template"] == template && "resources" in m && m["resources"] == resources
    && "exportedAt" in m && m["exportedAt"] == exportedAt && "version" in m && m["version"] == version
    && "templateId" !in m && "environment" !in m && "ports" !in m && "volumes" !in m && "runtime" !in m
    && "exportedBy" !in m
  }

  lemma FieldsHold(a: Value, b: Value, c: Value, d: Value, e: Value, f: Value)
    ensures Holds(map["name" := a, "description" := b, "template" := c, "resources" := d, "exportedAt" := e, "version" := f],
                  a, b, c, d, e, f)
  {
    assert "exportedAt"[8] != "exportedBy"[8] && "version"[1] != "volumes"[1];
  }

  function Given(v: Value): Option<Value> {
    if v == Str("") then None else Some(v)
  }

  lemma CollectIs(m: map<string, Value>, a: Value, b: Value, c: Value, d: Value, e: Value, f: Value)
    requires Holds(m, a, b, c, d, e, f)
    ensures Collect(m) == if a == Str("") then None
                          else Some(Export(a, Given(b), Given(c), Given(d), None, None, None, None, Given(e), None,
                                           Given(f)))
  {}

  lemma ThreeFieldsIff(a: Value, b: Value, c: Value, x: Value, y: Value, z: Value)
    ensures map["cpu" := a, "memory" := b, "storage" := c] == map["cpu" := x, "memory" := y, "storage" := z] <==>
            a == x && b == y && c == z
  {
    var m, m' := map["cpu" := a, "memory" := b, "storage" := c], map["cpu" := x, "memory" := y, "storage" := z];
    assert m["cpu"] == a && m["memory"] == b && m["storage"] == c;
    assert m'["cpu"] == x && m'["memory"] == y && m'["storage"] == z;
  }

  lemma ResourcesIff(p: Environment)
    requires '\n' !in p.cpu && '\n' !in p.memory && '\n' !in p.storage
    ensures Resources(p) == Obj(map["cpu" := Str(p.cpu), "memory" := Str(p.memory), "storage" := Str(p.storage)]) <==>
            Plain(p.cpu) && Plain(p.memory) && Plain(p.storage)
  {
    LeafValueIffPlain(p.cpu);
    LeafValueIffPlain(p.memory);
    LeafValueIffPlain(p.storage);
    ThreeFieldsIff(LeafValue(p.cpu), LeafValue(p.memory), LeafValue(p.storage), Str(p.cpu), Str(p.memory), Str(p.storage));
  }

  lemma GivenIffPlain(text: string)
    requires '\n' !in text
    ensures Given(LeafValue(text)) == Some(Str(text)) <==> Plain(text)
    ensures Plain(text) ==> LeafValue(text) != Str("")
  {
    LeafValueIffPlain(text);
  }

  lemma FieldsIff(p: Environment, exportedAt: string)
    requires OneLine(p, exportedAt)
    ensures Collect(ReadBack(p, exportedAt)) == Some(Expected(p, exportedAt)) <==> AllPlain(p, exportedAt)
  {
    var a, b, c, e := LeafValue(p.name), LeafValue(p.description), LeafValue(p.templateName), LeafValue(exportedAt);
    FieldsHold(a, b, c, Resources(p), e, Str("1.0"));
    CollectIs(ReadBack(p, exportedAt), a, b, c, Resources(p), e, Str("1.0"));
    GivenIffPlain(p.name);
    GivenIffPlain(p.description);
    GivenIffPlain(p.templateName);
    GivenIffPlain(exportedAt);
    ResourcesIff(p);
  }

  /** From the environment to what the import reads: the fields as given, with defaults for those that are not. */
  lemma EnvironmentIsRead(env: Environment, exportedAt: string)
    requires OneLine(Printed(env), exportedAt)
    ensures var cpu := if env.cpu == "" then "2 \U{6838}" else env.cpu;
            var memory := if env.memory == "" then "4 GB" else env.memory;
            var storage := if env.storage == "" then "20 GB" else env.storage;
            ReadText(ExportText(env, exportedAt)) ==
            map["name" := LeafValue(if env.name == "" then "environment" else env.name),
                "description" := LeafValue(env.description), "template" := LeafValue(env.templateName),
                "resources" := Obj(map["cpu" := LeafValue(cpu), "memory" := LeafValue(memory), "storage" := LeafValue(storage)]),
                "exportedAt" := LeafValue(exportedAt), "version" := Str("1.0")]
  {
    hide ReadText, ExportText, LeafValue;
    ImportOfOneLine(env, exportedAt);
  }

  /** The failing family the interface itself offers: an empty description, the default of the form, comes back
      as an empty section, which is not a text. */
  lemma EmptyDescription(env: Environment, exportedAt: string)
    requires env.description == "" && OneLine(Printed(env), exportedAt)
    ensures "description" in ReadText(ExportText(env, exportedAt))
    ensures ReadText(ExportText(env, exportedAt))["description"] == Obj(map[])
  {
    ImportOfOneLine(env, exportedAt);
  }
}
