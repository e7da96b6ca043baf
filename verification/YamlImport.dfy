/** The hand-written configuration parser of the web client (apps/web/src/pages/Backup.tsx), taken from the
    point where JSON parsing has failed: one pass over the lines, at most two levels of sections.
 */
module YamlImport {
  import opened Common
  import opened Text

  datatype Value = Str(text: string) | Obj(fields: map<string, Value>)

  /** The loop's variables: `config`, `currentSection`, `currentSubSection`. */
  datatype State = State(config: map<string, Value>, section: string, sub: string)

  const START: State := State(map[], "", "")

  /** The returned configuration. `None` stands for the field's built-in default. */
  datatype Export = Export(
    name: Value, description: Option<Value>, templateId: Option<Value>, resources: Option<Value>,
    environment: Option<Value>, ports: Option<Value>, volumes: Option<Value>, runtime: Option<Value>,
    exportedAt: Option<Value>, exportedBy: Option<Value>, version: Option<Value>)

  function BeforeColon(s: string): (r: string)
    ensures |r| <= |s|
  {
    if s == "" || s[0] == ':' then "" else [s[0]] + BeforeColon(s[1..])
  }

  function AfterColon(s: string): string {
    var n := |BeforeColon(s)|;
    if n < |s| then s[n + 1..] else ""
  }

  predicate IsQuote(c: char) {
    c == '"' || c == '\''
  }

  /** `replace(/^["']|["']$/g, '')`. */
  function StripQuotes(s: string): string {
    var t := if s != "" && IsQuote(s[0]) then s[1..] else s;
    if t != "" && IsQuote(t[|t| - 1]) then t[..|t| - 1] else t
  }

  predicate Skipped(line: string) {
    var trimmed := Trim(line, JavaScript);
    trimmed == "" || trimmed[0] == '#'
  }

  function Indent(line: string): nat {
    TrimStartIsSuffix(line, JavaScript);
    |line| - |TrimStart(line, JavaScript)|
  }

  function KeyOf(line: string): string {
    BeforeColon(Trim(line, JavaScript))
  }

  function ValueOf(line: string): string {
    Trim(AfterColon(Trim(line, JavaScript)), JavaScript)
  }

  predicate IsObj(m: map<string, Value>, key: string) {
    key in m && m[key].Obj?
  }

  function SetIn(m: map<string, Value>, key: string, field: string, v: Value): map<string, Value> {
    if IsObj(m, key) then m[key := Obj(m[key].fields[field := v])] else m
  }

  /** What one line that is not skipped does, given its indentation, key and value. */
  function Enter(st: State, indent: nat, key: string, value: string): State {
    if indent == 0 && value == "" then
      st.(config := st.config[key := Obj(map[])], section := key)
    else if indent == 2 && value == "" then
      st.(config := SetIn(st.config, st.section, key, Obj(map[])), sub := key)
    else if indent == 0 then
      st.(config := st.config[key := Str(StripQuotes(value))])
    else if indent == 2 && st.section != "" then
      st.(config := SetIn(st.config, st.section, key, Str(StripQuotes(value))))
    else if indent == 4 && value != "" && st.section != "" && st.sub != "" && IsObj(st.config, st.section) then
      st.(config := st.config[st.section := Obj(SetIn(st.config[st.section].fields, st.sub, key, Str(StripQuotes(value))))])
    else st
  }

  function ReadLine(st: State, line: string): State {
    if Skipped(line) then st else Enter(st, Indent(line), KeyOf(line), ValueOf(line))
  }

  function ReadLines(st: State, lines: seq<string>): State
    decreases |lines|
  {
    if lines == [] then st else ReadLines(ReadLine(st, lines[0]), lines[1..])
  }

  function ReadText(content: string): map<string, Value> {
    ReadLines(START, Split(content)).config
  }

  /** JavaScript's `config[key] || default`. */
  function Pick(config: map<string, Value>, key: string): Option<Value> {
    if key in config && config[key] != Str("") then Some(config[key]) else None
  }

  function Collect(config: map<string, Value>): Option<Export> {
    match Pick(config, "name")
    case None => None
    case Some(name) =>
      var templateId := Pick(config, "templateId");
      Some(Export(name, Pick(config, "description"),
                  if templateId.Some? then templateId else Pick(config, "template"),
                  Pick(config, "resources"), Pick(config, "environment"), Pick(config, "ports"),
                  Pick(config, "volumes"), Pick(config, "runtime"), Pick(config, "exportedAt"),
                  Pick(config, "exportedBy"), Pick(config, "version")))
  }

  /** The field is what stands under the key, unless that is missing or an empty text. */
  ghost predicate Carries(field: Option<Value>, config: map<string, Value>, key: string) {
    forall v :: field == Some(v) <==> key in config && config[key] == v && v != Str("")
  }

  /** Every field of the result is what was read under its own name; the template may stand under either of two. */
  lemma FieldsAreTheirOwn(config: map<string, Value>)
    ensures Collect(config).None? <==> ("name" in config ==> config["name"] == Str(""))
    ensures Collect(config).Some? ==>
            var e := Collect(config).value;
            && Carries(Some(e.name), config, "name") && Carries(e.description, config, "description")
            && Carries(e.templateId, config,
                       if "templateId" in config && config["templateId"] != Str("") then "templateId" else "template")
            && Carries(e.resources, config, "resources") && Carries(e.environment, config, "environment")
            && Carries(e.ports, config, "ports") && Carries(e.volumes, config, "volumes")
            && Carries(e.runtime, config, "runtime") && Carries(e.exportedAt, config, "exportedAt")
            && Carries(e.exportedBy, config, "exportedBy") && Carries(e.version, config, "version")
  {
    forall key ensures Carries(Pick(config, key), config, key) {}
  }

  method ParseYamlConfig(content: string) returns (result: Option<Export>)
    ensures result == Collect(ReadText(content))
  {
    var lines := Split(content);
    var config: map<string, Value> := map[];
    var currentSection, currentSubSection := "", "";
    for i := 0 to |lines|
      invariant ReadLines(State(config, currentSection, currentSubSection), lines[i..]) == ReadLines(START, lines)
    {
      ghost var before := State(config, currentSection, currentSubSection);
      assert lines[i..][1..] == lines[i + 1..];
      var trimmed := Trim(lines[i], JavaScript);
      if trimmed == "" || trimmed[0] == '#' {
        continue;
      }
      var indent := Indent(lines[i]);
      var key := BeforeColon(trimmed);
      var value := Trim(AfterColon(trimmed), JavaScript);
      if indent == 0 && value == "" {
        currentSection := key;
        config := config[currentSection := Obj(map[])];
      } else if indent == 2 && value == "" {
        currentSubSection := key;
        if currentSection in config && config[currentSection].Obj? {
          config := config[currentSection := Obj(config[currentSection].fields[currentSubSection := Obj(map[])])];
        }
      } else if indent == 0 && value != "" {
        config := config[key := Str(StripQuotes(value))];
      } else if indent == 2 && value != "" && currentSection != "" {
        if currentSection in config && config[currentSection].Obj? {
          config := config[currentSection := Obj(config[currentSection].fields[key := Str(StripQuotes(value))])];
        }
      } else if indent == 4 && value != "" && currentSection != "" && currentSubSection != "" {
        if currentSection in config && config[currentSection].Obj? {
          var section := config[currentSection].fields;
          if currentSubSection in section && section[currentSubSection].Obj? {
            section := section[currentSubSection := Obj(section[currentSubSection].fields[key := Str(StripQuotes(value))])];
            config := config[currentSection := Obj(section)];
          }
        }
      }
      assert State(config, currentSection, currentSubSection).config == ReadLine(before, lines[i]).config;
    }
    result := Collect(config);
  }

  lemma {:induction false} ReadLinesConcat(st: State, a: seq<string>, b: seq<string>)
    ensures ReadLines(st, a + b) == ReadLines(ReadLines(st, a), b)
    decreases |a|
  {
    if a == [] {
      assert a + b == b;
    } else {
      ReadLinesConcat(ReadLine(st, a[0]), a[1..], b);
      assert (a + b)[1..] == a[1..] + b;
    }
  }

  /** A blank or comment line changes nothing, wherever it stands. */
  lemma NoiseIsIgnored(st: State, before: seq<string>, noise: string, after: seq<string>)
    requires Skipped(noise)
    ensures ReadLines(st, before + [noise] + after) == ReadLines(st, before + after)
  {
    ReadLinesConcat(st, before + [noise], after);
    ReadLinesConcat(st, before, [noise]);
    ReadLinesConcat(st, before, after);
    assert ReadLines(ReadLines(st, before), [noise]) == ReadLine(ReadLines(st, before), noise);
  }

  /** Nor does a line indented by anything but none, two or four. */
  lemma OddIndentIsIgnored(st: State, before: seq<string>, odd: string, after: seq<string>)
    requires Indent(odd) !in {0, 2, 4}
    ensures ReadLines(st, before + [odd] + after) == ReadLines(st, before + after)
  {
    ReadLinesConcat(st, before + [odd], after);
    ReadLinesConcat(st, before, [odd]);
    ReadLinesConcat(st, before, after);
    assert ReadLines(ReadLines(st, before), [odd]) == ReadLine(ReadLines(st, before), odd);
  }

  // ---------- the lines the printers write ----------

  /** Keys that are read back from their line as they were written. */
  predicate InLine(key: string) {
    ':' !in key && (key == "" || (!IsSpace(key[0], JavaScript) && key[0] != '#'))
  }

  /** Keys the layout can carry. */
  predicate GoodKey(key: string) {
    InLine(key) && '\n' !in key
  }

  /** Texts that a line carries unchanged. */
  predicate Plain(v: string) {
    && v != "" && '\n' !in v
    && !IsSpace(v[0], JavaScript) && !IsSpace(v[|v| - 1], JavaScript)
    && v[0] !in {'"', '\''} && v[|v| - 1] !in {'"', '\''}
  }

  function Header(n: nat, key: string): string {
    Spaces(n) + (key + ":")
  }

  function Leaf(n: nat, key: string, text: string): string {
    Spaces(n) + (key + ": " + text)
  }

  lemma {:induction false} ColonSplits(key: string, rest: string)
    requires ':' !in key
    ensures BeforeColon(key + ":" + rest) == key && AfterColon(key + ":" + rest) == rest
  {
    var s := key + ":" + rest;
    if key != "" {
      ColonSplits(key[1..], rest);
      assert s[1..] == key[1..] + ":" + rest;
      assert [key[0]] + key[1..] == key;
    }
  }

  lemma LineIs(n: nat, key: string, rest: string)
    requires InLine(key)
    ensures var line := Spaces(n) + (key + ":" + rest);
            && !Skipped(line) && Indent(line) == n && KeyOf(line) == key
            && ValueOf(line) == Trim(rest, JavaScript)
  {
    var body := key + ":" + rest;
    assert body[0] == if key == "" then ':' else key[0];
    TrimStartSpaces(n, body, JavaScript);
    TrimEndConcat(key + ":", rest, JavaScript);
    assert TrimEnd(key + ":", JavaScript) == key + ":";
    var tail := TrimEnd(rest, JavaScript);
    assert Trim(Spaces(n) + body, JavaScript) == key + ":" + tail;
    ColonSplits(key, tail);
    TrimAbsorbs(rest, JavaScript);
  }

  lemma {:induction false} BeforeColonIs(s: string)
    ensures BeforeColon(s) <= s && ':' !in BeforeColon(s)
  {
    if s != "" && s[0] != ':' {
      BeforeColonIs(s[1..]);
    }
  }

  /** Whatever key is read from a line that is not skipped, a line carries it. */
  lemma KeyOfIsInLine(line: string)
    requires !Skipped(line)
    ensures InLine(KeyOf(line))
    ensures '\n' !in line ==> '\n' !in KeyOf(line)
  {
    BeforeColonIs(Trim(line, JavaScript));
    TrimFixesIff(line, JavaScript);
    TrimStartIsSuffix(line, JavaScript);
    TrimEndIsPrefix(TrimStart(line, JavaScript), JavaScript);
  }

  /** A key is read back from the line it was laid out in, at its indentation, exactly when it holds no colon and does
      not begin with white space or a number sign. */
  lemma LineIsIff(n: nat, key: string, rest: string)
    ensures var line := Spaces(n) + (key + ":" + rest);
            !Skipped(line) && Indent(line) == n && KeyOf(line) == key <==> InLine(key)
  {
    var line := Spaces(n) + (key + ":" + rest);
    if !Skipped(line) {
      KeyOfIsInLine(line);
    }
    if InLine(key) {
      LineIs(n, key, rest);
    }
  }

  lemma HeaderIs(n: nat, key: string)
    requires InLine(key)
    ensures var line := Header(n, key);
            !Skipped(line) && Indent(line) == n && KeyOf(line) == key && ValueOf(line) == ""
  {
    LineIs(n, key, "");
    assert key + ":" + "" == key + ":";
  }

  lemma LeafIs(n: nat, key: string, text: string)
    requires InLine(key)
    ensures var line := Leaf(n, key, text);
            !Skipped(line) && Indent(line) == n && KeyOf(line) == key && ValueOf(line) == Trim(text, JavaScript)
  {
    LineIs(n, key, " " + text);
    assert key + ":" + (" " + text) == key + ": " + text;
    assert (" " + text)[1..] == text;
  }

  /** What a leaf's text becomes: an empty section when it is blank, else the text trimmed and unquoted. */
  function LeafValue(text: string): Value {
    var t := Trim(text, JavaScript);
    if t == "" then Obj(map[]) else Str(StripQuotes(t))
  }

  /** A text comes back as it was exactly when it is plain. */
  lemma LeafValueIffPlain(text: string)
    requires '\n' !in text
    ensures LeafValue(text) == Str(text) <==> Plain(text)
  {
    TrimFixesIff(text, JavaScript);
  }

  // ---------- what a file can never carry ----------

  /** Values whose texts are on one line and whose keys a line carries, at every depth. */
  ghost predicate Carried(v: Value) {
    match v
    case Str(text) => '\n' !in text
    case Obj(fields) => forall k :: k in fields ==> GoodKey(k) && Carried(fields[k])
  }

  ghost predicate AllCarried(m: map<string, Value>) {
    forall k :: k in m ==> GoodKey(k) && Carried(m[k])
  }

  lemma ValueIsOneLine(line: string)
    requires '\n' !in line
    ensures '\n' !in StripQuotes(ValueOf(line))
  {
    var trimmed := Trim(line, JavaScript);
    TrimFixesIff(line, JavaScript);
    assert forall c :: c in AfterColon(trimmed) ==> c in trimmed;
    TrimFixesIff(AfterColon(trimmed), JavaScript);
    assert forall c :: c in StripQuotes(ValueOf(line)) ==> c in ValueOf(line);
  }

  lemma SetKeepsCarried(m: map<string, Value>, key: string, field: string, v: Value)
    requires AllCarried(m) && Carried(v) && GoodKey(field)
    ensures AllCarried(SetIn(m, key, field, v))
  {
    if IsObj(m, key) {
      assert Carried(m[key]);
      assert Carried(Obj(m[key].fields[field := v]));
    }
  }

  lemma PutKeepsCarried(m: map<string, Value>, key: string, v: Value)
    requires AllCarried(m) && GoodKey(key) && Carried(v)
    ensures AllCarried(m[key := v])
  {}

  lemma EnterKeepsCarried(st: State, indent: nat, key: string, value: string)
    requires AllCarried(st.config) && '\n' !in StripQuotes(value) && GoodKey(key)
    ensures AllCarried(Enter(st, indent, key, value).config)
  {
    var v, empty := Str(StripQuotes(value)), Obj(map[]);
    PutKeepsCarried(st.config, key, v);
    PutKeepsCarried(st.config, key, empty);
    SetKeepsCarried(st.config, st.section, key, v);
    SetKeepsCarried(st.config, st.section, key, empty);
    if IsObj(st.config, st.section) {
      assert Carried(st.config[st.section]) && GoodKey(st.section);
      var fields := SetIn(st.config[st.section].fields, st.sub, key, v);
      SetKeepsCarried(st.config[st.section].fields, st.sub, key, v);
      assert Carried(Obj(fields));
      PutKeepsCarried(st.config, st.section, Obj(fields));
    }
  }

  lemma {:induction false} ReadKeepsCarried(st: State, lines: seq<string>)
    requires AllCarried(st.config) && forall l :: l in lines ==> '\n' !in l
    ensures AllCarried(ReadLines(st, lines).config)
    decreases |lines|
  {
    if lines != [] {
      ValueIsOneLine(lines[0]);
      if !Skipped(lines[0]) {
        KeyOfIsInLine(lines[0]);
        EnterKeepsCarried(st, Indent(lines[0]), KeyOf(lines[0]), ValueOf(lines[0]));
      }
      ReadKeepsCarried(ReadLine(st, lines[0]), lines[1..]);
    }
  }

  /** Whatever the file, no text read from it holds a line feed, and every key is one that a line carries. */
  lemma ReadTextIsCarried(content: string)
    ensures AllCarried(ReadText(content))
  {
    SplitPieces(content);
    ReadKeepsCarried(START, Split(content));
  }
}
