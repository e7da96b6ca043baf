/** The command line's recursive printer (apps/cli/src/output.rs), and what the web client's import loop
    (apps/web/src/pages/Backup.tsx) makes of the trees it lays out.
 */
module YamlPrinter {
  import opened Common
  import opened Text
  import opened YamlImport

  /** A JSON value; an object's entries stand in the order they are iterated in. */
  datatype Json =
    | Null
    | Bool(b: bool)
    | Number(digits: string)
    | String(s: string)
    | Array(items: seq<Json>)
    | Object(entries: seq<Entry>)

  datatype Entry = Entry(key: string, value: Json)

  /** `format_yaml_scalar`; `show` is the library's compact JSON text, used for nested arrays only. */
  function Scalar(v: Json, show: Json -> string): string {
    match v
    case String(s) => s
    case Number(digits) => digits
    case Bool(b) => if b then "true" else "false"
    case Null => "null"
    case _ => show(v)
  }

  predicate Nested(v: Json) {
    v.Object? || v.Array?
  }

  function Lines(v: Json, indent: nat, show: Json -> string): seq<string>
    decreases v, 1
  {
    match v
    case Object(entries) => EntryLines(entries, indent, show)
    case Array(items) => ItemLines(items, indent, show)
    case _ => [Spaces(2 * indent) + Scalar(v, show)]
  }

  function EntryLines(entries: seq<Entry>, indent: nat, show: Json -> string): seq<string>
    decreases entries
  {
    if entries == [] then [] else EntryLine(entries[0], indent, show) + EntryLines(entries[1..], indent, show)
  }

  function EntryLine(e: Entry, indent: nat, show: Json -> string): seq<string>
    decreases e
  {
    if Nested(e.value) then [Header(2 * indent, e.key)] + Lines(e.value, indent + 1, show)
    else [YamlImport.Leaf(2 * indent, e.key, Scalar(e.value, show))]
  }

  function ItemLines(items: seq<Json>, indent: nat, show: Json -> string): seq<string>
    decreases items
  {
    if items == [] then [] else ItemLine(items[0], indent, show) + ItemLines(items[1..], indent, show)
  }

  function ItemLine(item: Json, indent: nat, show: Json -> string): seq<string>
    decreases item, 2
  {
    if item.Object? then [Spaces(2 * indent) + "-"] + Lines(item, indent + 1, show)
    else [Spaces(2 * indent) + ("- " + Scalar(item, show))]
  }

  class Output {
    var lines: seq<string>

    constructor ()
      ensures lines == []
    {
      lines := [];
    }

    method PrintLine(line: string)
      modifies this
      ensures lines == old(lines) + [line]
    {
      lines := lines + [line];
    }

    method PrintYamlValue(v: Json, indent: nat, show: Json -> string)
      modifies this
      ensures lines == old(lines) + Lines(v, indent, show)
      decreases v, 1
    {
      match v
      case Object(entries) =>
        for i := 0 to |entries|
          invariant old(lines) + Lines(v, indent, show) == lines + EntryLines(entries[i..], indent, show)
        {
          assert entries[i..][1..] == entries[i + 1..];
          Assoc(lines, EntryLine(entries[i], indent, show), EntryLines(entries[i + 1..], indent, show));
          PrintEntry(entries[i], indent, show);
        }
      case Array(items) =>
        for i := 0 to |items|
          invariant old(lines) + Lines(v, indent, show) == lines + ItemLines(items[i..], indent, show)
        {
          assert items[i..][1..] == items[i + 1..];
          Assoc(lines, ItemLine(items[i], indent, show), ItemLines(items[i + 1..], indent, show));
          PrintItem(items[i], indent, show);
        }
      case _ => PrintLine(Spaces(2 * indent) + Scalar(v, show));
    }

    method PrintEntry(e: Entry, indent: nat, show: Json -> string)
      modifies this
      ensures lines == old(lines) + EntryLine(e, indent, show)
      decreases e, 0
    {
      if e.value.Object? || e.value.Array? {
        PrintLine(Spaces(2 * indent) + (e.key + ":"));
        PrintYamlValue(e.value, indent + 1, show);
      } else {
        PrintLine(Spaces(2 * indent) + (e.key + ": " + Scalar(e.value, show)));
      }
    }

    method PrintItem(item: Json, indent: nat, show: Json -> string)
      modifies this
      ensures lines == old(lines) + ItemLine(item, indent, show)
      decreases item, 2
    {
      if item.Object? {
        PrintLine(Spaces(2 * indent) + "-");
        PrintYamlValue(item, indent + 1, show);
      } else {
        PrintLine(Spaces(2 * indent) + ("- " + Scalar(item, show)));
      }
    }
  }

  // ---------- what the reader sees of printed lines ----------

  /** A line with its key and value, or a header with what is laid out under it. */
  datatype Node = Text(key: string, value: string) | Section(key: string, nodes: seq<Node>)

  /** An item that is not an object is printed behind a dash; the reader takes the dash for a part of the key. */
  function ItemKey(text: string): string {
    BeforeColon(Trim("- " + text, JavaScript))
  }

  function ItemValue(text: string): string {
    Trim(AfterColon(Trim("- " + text, JavaScript)), JavaScript)
  }

  function NodesOf(v: Json, show: Json -> string): seq<Node>
    decreases v, 1
  {
    match v
    case Object(entries) => EntryNodes(entries, show)
    case Array(items) => ItemNodes(items, show)
    case _ => []
  }

  function EntryNodes(entries: seq<Entry>, show: Json -> string): seq<Node>
    decreases entries
  {
    if entries == [] then [] else [EntryNode(entries[0], show)] + EntryNodes(entries[1..], show)
  }

  function EntryNode(e: Entry, show: Json -> string): Node
    decreases e
  {
    if Nested(e.value) then Section(e.key, NodesOf(e.value, show)) else Text(e.key, Trim(Scalar(e.value, show), JavaScript))
  }

  function ItemNodes(items: seq<Json>, show: Json -> string): seq<Node>
    decreases items
  {
    if items == [] then [] else [ItemNode(items[0], show)] + ItemNodes(items[1..], show)
  }

  function ItemNode(item: Json, show: Json -> string): Node
    decreases item, 2
  {
    if item.Object? then Section("-", NodesOf(item, show))
    else Text(ItemKey(Scalar(item, show)), ItemValue(Scalar(item, show)))
  }

  function Walk(st: State, nodes: seq<Node>, indent: nat): State
    decreases nodes
  {
    if nodes == [] then st else Walk(WalkNode(st, nodes[0], indent), nodes[1..], indent)
  }

  function WalkNode(st: State, node: Node, indent: nat): State
    decreases node
  {
    match node
    case Text(key, value) => Enter(st, 2 * indent, key, value)
    case Section(key, nodes) => Walk(Enter(st, 2 * indent, key, ""), nodes, indent + 1)
  }

  /** Every key of the objects in the value is one that a line carries. */
  ghost predicate KeysInLine(v: Json)
    decreases v, 1
  {
    match v
    case Object(entries) => EntryKeysInLine(entries)
    case Array(items) => forall i :: 0 <= i < |items| && items[i].Object? ==> KeysInLine(items[i])
    case _ => true
  }

  ghost predicate EntryKeysInLine(entries: seq<Entry>)
    decreases entries
  {
    forall i :: 0 <= i < |entries| ==> EntryInLine(entries[i])
  }

  ghost predicate EntryInLine(e: Entry)
    decreases e
  {
    InLine(e.key) && (Nested(e.value) ==> KeysInLine(e.value))
  }

  lemma ReadOneThen(st: State, line: string, rest: seq<string>)
    ensures ReadLines(st, [line] + rest) == ReadLines(ReadLine(st, line), rest)
    ensures ReadLines(st, [line]) == ReadLine(st, line)
  {
    assert ([line] + rest)[1..] == rest && [line][1..] == [];
    assert ReadLines(ReadLine(st, line), []) == ReadLine(st, line);
  }

  /** An item's line, whatever the item's text, is read at its indentation with the dash in its key. */
  lemma ItemLineIs(n: nat, text: string)
    ensures var line := Spaces(n) + ("- " + text);
            !Skipped(line) && Indent(line) == n && KeyOf(line) == ItemKey(text) && ValueOf(line) == ItemValue(text)
  {
    var item := "- " + text;
    assert item[0] == '-';
    TrimStartSpaces(n, item, JavaScript);
    assert TrimStart(item, JavaScript) == item;
    DashIsKept(text);
  }

  lemma DashIsKept(text: string)
    ensures var t := TrimEnd("- " + text, JavaScript); t != "" && t[0] == '-'
  {
    TrimEndConcat("-", " " + text, JavaScript);
    assert "-" + (" " + text) == "- " + text;
    assert TrimEnd("-", JavaScript) == "-";
  }

  lemma DashLineIs(n: nat)
    ensures var line := Spaces(n) + "-";
            !Skipped(line) && Indent(line) == n && KeyOf(line) == "-" && ValueOf(line) == ""
  {
    TrimStartSpaces(n, "-", JavaScript);
    assert Trim(Spaces(n) + "-", JavaScript) == "-";
    NoColon("-");
  }

  /** Reading the printed lines of a value, from any state, is walking over its nodes. */
  lemma LinesAreWalked(st: State, v: Json, indent: nat, show: Json -> string)
    requires Nested(v) && KeysInLine(v)
    ensures ReadLines(st, Lines(v, indent, show)) == Walk(st, NodesOf(v, show), indent)
    decreases v, 1
  {
    if v.Object? {
      EntriesAreWalked(st, v.entries, indent, show);
    } else {
      ItemsAreWalked(st, v.items, indent, show);
    }
  }

  lemma {:induction false} EntriesAreWalked(st: State, entries: seq<Entry>, indent: nat, show: Json -> string)
    requires EntryKeysInLine(entries)
    ensures ReadLines(st, EntryLines(entries, indent, show)) == Walk(st, EntryNodes(entries, show), indent)
    decreases entries
  {
    if entries != [] {
      var e, rest := entries[0], entries[1..];
      assert EntryInLine(e);
      EntryIsWalked(st, e, indent, show);
      ReadLinesConcat(st, EntryLine(e, indent, show), EntryLines(rest, indent, show));
      EntriesAreWalked(WalkNode(st, EntryNode(e, show), indent), rest, indent, show);
      WalkCons(st, EntryNode(e, show), EntryNodes(rest, show), indent);
    }
  }

  lemma WalkCons(st: State, node: Node, nodes: seq<Node>, indent: nat)
    ensures Walk(st, [node] + nodes, indent) == Walk(WalkNode(st, node, indent), nodes, indent)
  {
    assert ([node] + nodes)[1..] == nodes;
  }

  lemma EntryIsWalked(st: State, e: Entry, indent: nat, show: Json -> string)
    requires EntryInLine(e)
    ensures ReadLines(st, EntryLine(e, indent, show)) == WalkNode(st, EntryNode(e, show), indent)
    decreases e
  {
    if Nested(e.value) {
      HeaderIs(2 * indent, e.key);
      ReadOneThen(st, Header(2 * indent, e.key), Lines(e.value, indent + 1, show));
      LinesAreWalked(Enter(st, 2 * indent, e.key, ""), e.value, indent + 1, show);
    } else {
      LeafIs(2 * indent, e.key, Scalar(e.value, show));
      ReadOneThen(st, YamlImport.Leaf(2 * indent, e.key, Scalar(e.value, show)), []);
    }
  }

  lemma {:induction false} ItemsAreWalked(st: State, items: seq<Json>, indent: nat, show: Json -> string)
    requires forall i :: 0 <= i < |items| && items[i].Object? ==> KeysInLine(items[i])
    ensures ReadLines(st, ItemLines(items, indent, show)) == Walk(st, ItemNodes(items, show), indent)
    decreases items
  {
    if items != [] {
      var item, rest := items[0], items[1..];
      ItemIsWalked(st, item, indent, show);
      ReadLinesConcat(st, ItemLine(item, indent, show), ItemLines(rest, indent, show));
      ItemsAreWalked(WalkNode(st, ItemNode(item, show), indent), rest, indent, show);
      WalkCons(st, ItemNode(item, show), ItemNodes(rest, show), indent);
    }
  }

  lemma ItemIsWalked(st: State, item: Json, indent: nat, show: Json -> string)
    requires item.Object? ==> KeysInLine(item)
    ensures ReadLines(st, ItemLine(item, indent, show)) == WalkNode(st, ItemNode(item, show), indent)
    decreases item, 2
  {
    if item.Object? {
      DashLineIs(2 * indent);
      ReadOneThen(st, Spaces(2 * indent) + "-", Lines(item, indent + 1, show));
      LinesAreWalked(Enter(st, 2 * indent, "-", ""), item, indent + 1, show);
    } else {
      ItemLineIs(2 * indent, Scalar(item, show));
      ReadOneThen(st, Spaces(2 * indent) + ("- " + Scalar(item, show)), []);
    }
  }

  // ---------- what the reader keeps ----------

  /** What the loop keeps when `levels` levels can still be read. Texts are kept under `named` sections only; on the
      last level a header, and a blank text, which looks like one, leave nothing. */
  function Kept(levels: nat, named: bool, m: map<string, Value>, nodes: seq<Node>): map<string, Value>
    decreases nodes
  {
    if nodes == [] then m else Kept(levels, named, KeptNode(levels, named, m, nodes[0]), nodes[1..])
  }

  function KeptNode(levels: nat, named: bool, m: map<string, Value>, node: Node): map<string, Value>
    decreases node
  {
    match node
    case Text(key, value) =>
      if value == "" then (if levels > 1 then m[key := Obj(map[])] else m)
      else if named then m[key := Str(StripQuotes(value))] else m
    case Section(key, nodes) =>
      if levels > 1 then m[key := Obj(Kept(levels - 1, named && key != "", map[], nodes))] else m
  }

  lemma {:induction false} DeepNodesIgnored(st: State, nodes: seq<Node>, indent: nat)
    requires indent >= 3
    ensures Walk(st, nodes, indent) == st
    decreases nodes
  {
    if nodes != [] {
      DeepNodeIgnored(st, nodes[0], indent);
      DeepNodesIgnored(st, nodes[1..], indent);
    }
  }

  lemma {:induction false} DeepNodeIgnored(st: State, node: Node, indent: nat)
    requires indent >= 3
    ensures WalkNode(st, node, indent) == st
    decreases node
  {
    if node.Section? {
      DeepNodesIgnored(st, node.nodes, indent + 1);
    }
  }

  /** The state with the current section's fields replaced. */
  function WithFields(st: State, fields: map<string, Value>): State {
    st.(config := st.config[st.section := Obj(fields)])
  }

  predicate InSection(st: State) {
    IsObj(st.config, st.section)
  }

  function Fields(st: State): map<string, Value>
    requires InSection(st)
  {
    st.config[st.section].fields
  }

  predicate InSub(st: State) {
    InSection(st) && IsObj(Fields(st), st.sub)
  }

  function SubFields(st: State): map<string, Value>
    requires InSub(st)
  {
    Fields(st)[st.sub].fields
  }

  /** The state with the current subsection's fields replaced. */
  function WithSubFields(st: State, fields: map<string, Value>): State
    requires InSection(st)
  {
    WithFields(st, Fields(st)[st.sub := Obj(fields)])
  }

  lemma SubFieldsSet(st: State, g: map<string, Value>, h: map<string, Value>)
    requires InSub(st)
    ensures InSub(WithSubFields(st, g)) && SubFields(WithSubFields(st, g)) == g
    ensures WithSubFields(WithSubFields(st, g), h) == WithSubFields(st, h)
    ensures WithSubFields(st, SubFields(st)) == st
  {
    var f := Fields(st);
    assert f[st.sub := Obj(g)][st.sub := Obj(h)] == f[st.sub := Obj(h)];
    assert f[st.sub := f[st.sub]] == f;
    assert st.config[st.section := st.config[st.section]] == st.config;
  }

  predicate SubNamed(st: State) {
    st.section != "" && st.sub != ""
  }

  /** Within a subsection. */
  lemma {:induction false} ThirdLevel(st: State, nodes: seq<Node>)
    requires InSub(st)
    ensures Walk(st, nodes, 2) == WithSubFields(st, Kept(1, SubNamed(st), SubFields(st), nodes))
    decreases nodes
  {
    if nodes == [] {
      SubFieldsSet(st, SubFields(st), SubFields(st));
    } else {
      var g := KeptNode(1, SubNamed(st), SubFields(st), nodes[0]);
      ThirdLevelNode(st, nodes[0]);
      SubFieldsSet(st, g, Kept(1, SubNamed(st), g, nodes[1..]));
      ThirdLevel(WithSubFields(st, g), nodes[1..]);
    }
  }

  lemma ThirdLevelNode(st: State, node: Node)
    requires InSub(st)
    ensures WalkNode(st, node, 2) == WithSubFields(st, KeptNode(1, SubNamed(st), SubFields(st), node))
  {
    SubFieldsSet(st, SubFields(st), SubFields(st));
    if node.Section? {
      DeepNodesIgnored(st, node.nodes, 3);
    }
  }

  /** Within a section; only `currentSubSection` may change besides the section itself. */
  lemma {:induction false} SecondLevel(st: State, nodes: seq<Node>)
    requires InSection(st)
    ensures var st' := Walk(st, nodes, 1);
            && st'.section == st.section
            && st'.config == WithFields(st, Kept(2, st.section != "", Fields(st), nodes)).config
    decreases nodes
  {
    if nodes == [] {
      assert st.config[st.section := st.config[st.section]] == st.config;
    } else {
      SecondLevelNode(st, nodes[0]);
      SecondLevel(WalkNode(st, nodes[0], 1), nodes[1..]);
    }
  }

  lemma OpenSub(st: State, key: string, g: map<string, Value>)
    requires InSection(st)
    ensures var st' := Enter(st, 2, key, "");
            && InSub(st') && st'.section == st.section && st'.sub == key && SubFields(st') == map[]
            && WithSubFields(st', g).config == WithFields(st, Fields(st)[key := Obj(g)]).config
  {
    var f := Fields(st);
    assert f[key := Obj(map[])][key := Obj(g)] == f[key := Obj(g)];
  }

  lemma SecondLevelNode(st: State, node: Node)
    requires InSection(st)
    ensures var st' := WalkNode(st, node, 1);
            && st'.section == st.section
            && st'.config == WithFields(st, KeptNode(2, st.section != "", Fields(st), node)).config
  {
    assert st.config[st.section := st.config[st.section]] == st.config;
    if node.Section? {
      OpenSub(st, node.key, Kept(1, st.section != "" && node.key != "", map[], node.nodes));
      ThirdLevel(Enter(st, 2, node.key, ""), node.nodes);
    }
  }

  lemma {:induction false} TopLevel(st: State, nodes: seq<Node>)
    ensures Walk(st, nodes, 0).config == Kept(3, true, st.config, nodes)
    decreases nodes
  {
    if nodes != [] {
      TopLevelNode(st, nodes[0]);
      TopLevel(WalkNode(st, nodes[0], 0), nodes[1..]);
    }
  }

  lemma OpenTop(st: State, key: string, f: map<string, Value>)
    ensures var st' := Enter(st, 0, key, "");
            && InSection(st') && st'.section == key && Fields(st') == map[]
            && WithFields(st', f).config == st.config[key := Obj(f)]
  {
    assert st.config[key := Obj(map[])][key := Obj(f)] == st.config[key := Obj(f)];
  }

  lemma TopLevelNode(st: State, node: Node)
    ensures WalkNode(st, node, 0).config == KeptNode(3, true, st.config, node)
  {
    if node.Section? {
      OpenTop(st, node.key, Kept(2, node.key != "", map[], node.nodes));
      SecondLevel(Enter(st, 0, node.key, ""), node.nodes);
    }
  }

  /** For every object or array, arrays and empty keys inside included, the import loop reads from the printed lines
      exactly what is kept of three levels of it. */
  lemma ImportReadsThreeLevels(v: Json, show: Json -> string)
    requires Nested(v) && KeysInLine(v)
    ensures ReadLines(START, Lines(v, 0, show)).config == Kept(3, true, map[], NodesOf(v, show))
  {
    LinesAreWalked(START, v, 0, show);
    TopLevel(START, NodesOf(v, show));
  }

  // ---------- arrays ----------

  /** An array, whatever its items, is read back as a section: a field for every item, objects all under "-", other
      items under their own text. */
  lemma ArrayBecomesSection(key: string, items: seq<Json>, show: Json -> string)
    requires InLine(key) && KeysInLine(Array(items))
    ensures ReadLines(START, Lines(Object([Entry(key, Array(items))]), 0, show)).config ==
            map[key := Obj(Kept(2, key != "", map[], ItemNodes(items, show)))]
  {
    var e := Entry(key, Array(items));
    assert EntryInLine(e) && KeysInLine(Object([e]));
    ImportReadsThreeLevels(Object([e]), show);
    assert [e][1..] == [];
    assert EntryNodes([e], show) == [EntryNode(e, show)] + EntryNodes([], show) == [EntryNode(e, show)];
    var n := EntryNode(e, show);
    assert [n][1..] == [];
    assert Kept(3, true, map[], [n]) == Kept(3, true, KeptNode(3, true, map[], n), []);
  }

  /** An item without a colon is read as the key of an empty section. */
  lemma ItemWithoutColon(text: string)
    requires ':' !in text
    ensures ItemKey(text) == Trim("- " + text, JavaScript) && ItemValue(text) == ""
  {
    TrimFixesIff("- " + text, JavaScript);
    NoColon(Trim("- " + text, JavaScript));
  }

  /** An item with a colon is read as a key, the dash included, and the text behind its first colon. */
  lemma ItemWithColon(before: string, after: string)
    requires ':' !in before
    ensures ItemKey(before + ":" + after) == "- " + before
    ensures ItemValue(before + ":" + after) == Trim(after, JavaScript)
  {
    DashJoins("- ", before, ":", after);
    ItemLineIs(0, before + ":" + after);
    LineIs(0, "- " + before, after);
  }

  lemma DashJoins(dash: string, before: string, colon: string, after: string)
    ensures (dash + before) + colon + after == dash + (before + colon + after)
  {}

  /** What any item line does where arrays of a section stand: it sets a field of the section, which is an empty section
      itself or, under a named section, the text behind the colon. */
  lemma ItemInSection(st: State, text: string)
    requires InSection(st)
    ensures var st' := ReadLine(st, Spaces(2) + ("- " + text));
            var f, k, v := Fields(st), ItemKey(text), ItemValue(text);
            && st'.section == st.section
            && st'.sub == (if v == "" then k else st.sub)
            && st'.config == st.config[st.section := Obj(if v == "" then f[k := Obj(map[])]
                                                         else if st.section != "" then f[k := Str(StripQuotes(v))] else f)]
  {
    ItemLineIs(2, text);
    assert st.config[st.section := st.config[st.section]] == st.config;
  }

  lemma {:induction false} NoColon(s: string)
    requires ':' !in s
    ensures BeforeColon(s) == s && AfterColon(s) == ""
  {
    if s != "" {
      NoColon(s[1..]);
      assert s == [s[0]] + s[1..];
    }
  }

  // ---------- exactly which trees come back ----------

  ghost predicate ArrayFree(entries: seq<Entry>)
    decreases entries
  {
    forall i :: 0 <= i < |entries| ==>
      && !entries[i].value.Array?
      && (entries[i].value.Object? ==> ArrayFree(entries[i].value.entries))
  }

  /** A tree without arrays as the import represents it, every leaf a string. */
  function Whole(m: map<string, Value>, entries: seq<Entry>, show: Json -> string): map<string, Value>
    decreases entries
  {
    if entries == [] then m
    else Whole(m[entries[0].key := ValueOfEntry(entries[0], show)], entries[1..], show)
  }

  function ValueOfEntry(e: Entry, show: Json -> string): Value
    decreases e
  {
    if e.value.Object? then Obj(Whole(map[], e.value.entries, show)) else Str(Scalar(e.value, show))
  }

  /** What the import would have to return for a tree; it has nothing for arrays. */
  ghost function Meaning(entries: seq<Entry>, show: Json -> string): Option<map<string, Value>> {
    if ArrayFree(entries) then Some(Whole(map[], entries, show)) else None
  }

  /** Objects have no key twice. */
  ghost predicate DistinctKeys(entries: seq<Entry>)
    decreases entries
  {
    && (forall i, j :: 0 <= i < j < |entries| ==> entries[i].key != entries[j].key)
    && forall i :: 0 <= i < |entries| && entries[i].value.Object? ==> DistinctKeys(entries[i].value.entries)
  }

  /** Keys and leaves on one line each, and keys that a line carries. */
  ghost predicate Writable(entries: seq<Entry>, show: Json -> string)
    decreases entries
  {
    forall i :: 0 <= i < |entries| ==>
      && GoodKey(entries[i].key)
      && (entries[i].value.Object? ==> Writable(entries[i].value.entries, show))
      && (!entries[i].value.Object? ==> '\n' !in Scalar(entries[i].value, show))
  }

  /** At most `levels` levels deep, without arrays, with keys that a line carries and plain leaves, none of them under a
      section with an empty key. */
  ghost predicate Fits(levels: nat, named: bool, entries: seq<Entry>, show: Json -> string)
    decreases entries
  {
    forall i :: 0 <= i < |entries| ==> GoodKey(entries[i].key) && FitsEntry(levels, named, entries[i], show)
  }

  ghost predicate FitsEntry(levels: nat, named: bool, e: Entry, show: Json -> string)
    decreases e
  {
    if e.value.Object? then levels > 1 && Fits(levels - 1, named && e.key != "", e.value.entries, show)
    else !e.value.Array? && named && Plain(Scalar(e.value, show))
  }

  lemma {:induction false} OtherKeysStay(levels: nat, named: bool, m: map<string, Value>, entries: seq<Entry>,
                                         show: Json -> string, k: string)
    requires forall i :: 0 <= i < |entries| ==> entries[i].key != k
    ensures var kept, whole := Kept(levels, named, m, EntryNodes(entries, show)), Whole(m, entries, show);
            && (k in kept <==> k in m) && (k in m ==> kept[k] == m[k])
            && (k in whole <==> k in m) && (k in m ==> whole[k] == m[k])
    decreases entries
  {
    if entries != [] {
      KeptCons(levels, named, m, EntryNode(entries[0], show), EntryNodes(entries[1..], show));
      OtherKeysStay(levels, named, KeptNode(levels, named, m, EntryNode(entries[0], show)), entries[1..], show, k);
      OtherKeysStay(levels, named, m[entries[0].key := ValueOfEntry(entries[0], show)], entries[1..], show, k);
    }
  }

  lemma KeptCons(levels: nat, named: bool, m: map<string, Value>, node: Node, nodes: seq<Node>)
    ensures Kept(levels, named, m, [node] + nodes) == Kept(levels, named, KeptNode(levels, named, m, node), nodes)
  {
    assert ([node] + nodes)[1..] == nodes;
  }

  /** What is kept of a tree is the whole tree exactly when the tree fits. */
  lemma {:induction false} KeptIsWholeIff(levels: nat, named: bool, m: map<string, Value>, entries: seq<Entry>,
                                          show: Json -> string)
    requires levels > 0 && DistinctKeys(entries) && ArrayFree(entries) && Writable(entries, show)
    requires forall i :: 0 <= i < |entries| ==> entries[i].key !in m
    ensures Kept(levels, named, m, EntryNodes(entries, show)) == Whole(m, entries, show) <==>
            Fits(levels, named, entries, show)
    decreases entries
  {
    if entries != [] {
      var e, rest := entries[0], entries[1..];
      var m' := m[e.key := ValueOfEntry(e, show)];
      var kept := KeptNode(levels, named, m, EntryNode(e, show));
      EntryIsWholeIff(levels, named, m, e, show);
      KeptCons(levels, named, m, EntryNode(e, show), EntryNodes(rest, show));
      OtherKeysStay(levels, named, kept, rest, show, e.key);
      OtherKeysStay(levels, named, m', rest, show, e.key);
      if kept == m' {
        KeptIsWholeIff(levels, named, m', rest, show);
      }
      FitsCons(levels, named, entries, show);
    }
  }

  lemma FitsCons(levels: nat, named: bool, entries: seq<Entry>, show: Json -> string)
    requires entries != []
    ensures Fits(levels, named, entries, show) <==>
            GoodKey(entries[0].key) && FitsEntry(levels, named, entries[0], show) && Fits(levels, named, entries[1..], show)
  {
    assert forall i :: 0 < i < |entries| ==> entries[i] == entries[1..][i - 1];
  }

  lemma {:induction false} EntryIsWholeIff(levels: nat, named: bool, m: map<string, Value>, e: Entry, show: Json -> string)
    requires levels > 0 && e.key !in m && !e.value.Array?
    requires e.value.Object? ==> DistinctKeys(e.value.entries) && ArrayFree(e.value.entries) && Writable(e.value.entries, show)
    requires !e.value.Object? ==> '\n' !in Scalar(e.value, show)
    ensures var kept := KeptNode(levels, named, m, EntryNode(e, show));
            && (kept == m[e.key := ValueOfEntry(e, show)] <==> FitsEntry(levels, named, e, show))
            && (e.key in kept && kept[e.key] == ValueOfEntry(e, show) <==> FitsEntry(levels, named, e, show))
    decreases e
  {
    var kept, whole := KeptNode(levels, named, m, EntryNode(e, show)), m[e.key := ValueOfEntry(e, show)];
    assert kept == whole ==> e.key in kept && kept[e.key] == ValueOfEntry(e, show);
    if e.value.Object? {
      if levels > 1 {
        KeptIsWholeIff(levels - 1, named && e.key != "", map[], e.value.entries, show);
      }
    } else {
      LeafValueIffPlain(Scalar(e.value, show));
    }
  }

  lemma {:induction false} LinesAreOneLine(entries: seq<Entry>, indent: nat, show: Json -> string)
    requires ArrayFree(entries) && Writable(entries, show)
    ensures forall l :: l in EntryLines(entries, indent, show) ==> '\n' !in l
    decreases entries
  {
    if entries != [] {
      EntryIsOneLine(entries[0], indent, show);
      LinesAreOneLine(entries[1..], indent, show);
    }
  }

  lemma {:induction false} EntryIsOneLine(e: Entry, indent: nat, show: Json -> string)
    requires GoodKey(e.key) && !e.value.Array?
    requires if e.value.Object? then ArrayFree(e.value.entries) && Writable(e.value.entries, show)
             else '\n' !in Scalar(e.value, show)
    ensures forall l :: l in EntryLine(e, indent, show) ==> '\n' !in l
    decreases e
  {
    OneLineEntry(2 * indent, e.key, if Nested(e.value) then "" else Scalar(e.value, show));
    if Nested(e.value) {
      LinesAreOneLine(e.value.entries, indent + 1, show);
    }
  }

  lemma OneLineEntry(n: nat, key: string, text: string)
    requires '\n' !in key && '\n' !in text
    ensures '\n' !in Header(n, key) && '\n' !in YamlImport.Leaf(n, key, text)
  {
    assert '\n' !in Spaces(n) && '\n' !in key + ":" && '\n' !in key + ": ";
    assert '\n' !in key + ": " + text;
  }

  /** Printed lines are what the import splits a text into. */
  lemma ReadUnlines(lines: seq<string>)
    requires forall l :: l in lines ==> '\n' !in l
    ensures ReadText(Unlines(lines)) == ReadLines(START, lines).config
  {
    SplitUnlines(lines);
    NoiseIsIgnored(START, lines, "", []);
    assert lines + [""] + [] == lines + [""] && lines + [] == lines;
  }

  lemma {:induction false} WritableIsInLine(entries: seq<Entry>, show: Json -> string)
    requires ArrayFree(entries) && Writable(entries, show)
    ensures EntryKeysInLine(entries)
    decreases entries
  {
    forall i | 0 <= i < |entries| ensures EntryInLine(entries[i]) {
      if entries[i].value.Object? {
        WritableIsInLine(entries[i].value.entries, show);
      }
    }
  }

  lemma {:induction false} FitsIsWritable(levels: nat, named: bool, entries: seq<Entry>, show: Json -> string)
    requires Fits(levels, named, entries, show)
    ensures ArrayFree(entries) && Writable(entries, show)
    decreases entries
  {
    forall i | 0 <= i < |entries|
      ensures !entries[i].value.Array? && (entries[i].value.Object? ==> ArrayFree(entries[i].value.entries))
      ensures if entries[i].value.Object? then Writable(entries[i].value.entries, show)
              else '\n' !in Scalar(entries[i].value, show)
    {
      assert FitsEntry(levels, named, entries[i], show);
      if entries[i].value.Object? {
        FitsIsWritable(levels - 1, named && entries[i].key != "", entries[i].value.entries, show);
      }
    }
  }

  /** Every entry's value stands in the whole map, since keys are distinct. */
  lemma {:induction false} WholeHolds(m: map<string, Value>, entries: seq<Entry>, show: Json -> string, i: nat)
    requires DistinctKeys(entries) && i < |entries|
    ensures var whole := Whole(m, entries, show);
            entries[i].key in whole && whole[entries[i].key] == ValueOfEntry(entries[i], show)
    decreases |entries|
  {
    var m', rest := m[entries[0].key := ValueOfEntry(entries[0], show)], entries[1..];
    if i > 0 {
      WholeHolds(m', rest, show, i - 1);
    } else {
      OtherKeysStay(0, true, m', rest, show, entries[0].key);
    }
  }

  lemma {:induction false} CarriedIsWritable(entries: seq<Entry>, show: Json -> string)
    requires DistinctKeys(entries) && ArrayFree(entries) && AllCarried(Whole(map[], entries, show))
    ensures Writable(entries, show)
    decreases entries
  {
    var whole := Whole(map[], entries, show);
    forall i | 0 <= i < |entries|
      ensures GoodKey(entries[i].key)
      ensures if entries[i].value.Object? then Writable(entries[i].value.entries, show)
              else '\n' !in Scalar(entries[i].value, show)
    {
      WholeHolds(map[], entries, show, i);
      assert Carried(whole[entries[i].key]);
      if entries[i].value.Object? {
        CarriedIsWritable(entries[i].value.entries, show);
      }
    }
  }

  /** The printed text begins with the first key and a colon. So of the printed trees, only those whose first key begins
      with a brace, a bracket or a quotation mark (after white space) can be JSON, which the import tries to read before
      it comes to the loop over the lines. */
  lemma BeginsWithFirstKey(entries: seq<Entry>, show: Json -> string)
    requires entries != []
    ensures entries[0].key + ":" <= Unlines(Lines(Object(entries), 0, show))
  {
    var lines, first, e := Lines(Object(entries), 0, show), EntryLine(entries[0], 0, show), entries[0];
    assert lines == EntryLines(entries, 0, show);
    assert EntryLines(entries, 0, show) == first + EntryLines(entries[1..], 0, show);
    assert first != [] && e.key + ":" <= first[0] by {
      assert Spaces(0) == "";
      if Nested(e.value) {
        assert first == [Header(0, e.key)] + Lines(e.value, 1, show);
        assert Spaces(0) + (e.key + ":") == e.key + ":";
      } else {
        assert Spaces(0) + (e.key + ": " + Scalar(e.value, show)) == e.key + ":" + (" " + Scalar(e.value, show));
      }
    }
    assert lines[0] == first[0];
  }

  /** Every scalar comes back as a text: a string and a number as they are, truth values and null as words. */
  lemma ScalarsComeBackAsTexts(key: string, text: string, show: Json -> string)
    requires GoodKey(key)
    ensures Plain(text) ==> ReadText(Unlines(Lines(Object([Entry(key, String(text))]), 0, show))) == map[key := Str(text)]
    ensures Plain(text) ==> ReadText(Unlines(Lines(Object([Entry(key, Number(text))]), 0, show))) == map[key := Str(text)]
    ensures ReadText(Unlines(Lines(Object([Entry(key, Bool(true))]), 0, show))) == map[key := Str("true")]
    ensures ReadText(Unlines(Lines(Object([Entry(key, Bool(false))]), 0, show))) == map[key := Str("false")]
    ensures ReadText(Unlines(Lines(Object([Entry(key, Null)]), 0, show))) == map[key := Str("null")]
  {
    hide ReadText, Lines, Unlines;
    if Plain(text) {
      WordComesBack(key, String(text), show, text);
      WordComesBack(key, Number(text), show, text);
    }
    WordComesBack(key, Bool(true), show, "true");
    WordComesBack(key, Bool(false), show, "false");
    WordComesBack(key, Null, show, "null");
  }

  /** Outside objects: a scalar alone is one line, and an array in an array is an item in its compact form. */
  lemma AloneOrInArrays(text: string, inner: seq<Json>, show: Json -> string)
    ensures Lines(String(text), 0, show) == [text] && Lines(Null, 0, show) == ["null"]
    ensures Lines(Array([Array(inner), String(text)]), 0, show) == ["- " + show(Array(inner)), "- " + text]
  {
    Unindented(text);
    Unindented("null");
    Unindented("- " + show(Array(inner)));
    Unindented("- " + text);
    var items := [Array(inner), String(text)];
    assert items[1..] == [String(text)] && items[1..][1..] == [];
    calc {
      Lines(Array(items), 0, show);
      ItemLines(items, 0, show);
      { assert ItemLines(items[1..], 0, show) == ItemLine(String(text), 0, show) + ItemLines([], 0, show); }
      ItemLine(items[0], 0, show) + (ItemLine(items[1], 0, show) + []);
      { assert ItemLine(items[0], 0, show) == ["- " + show(Array(inner))] && ItemLine(items[1], 0, show) == ["- " + text]; }
      ["- " + show(Array(inner))] + ["- " + text];
    }
  }

  lemma Unindented(text: string)
    ensures Spaces(2 * 0) + text == text
  {}


  lemma WordComesBack(key: string, v: Json, show: Json -> string, word: string)
    requires GoodKey(key) && !Nested(v) && Scalar(v, show) == word && Plain(word)
    ensures ReadText(Unlines(Lines(Object([Entry(key, v)]), 0, show))) == map[key := Str(word)]
  {
    var line := Leaf(0, key, word);
    var lines := Lines(Object([Entry(key, v)]), 0, show);
    assert lines == EntryLines([Entry(key, v)], 0, show) == EntryLine(Entry(key, v), 0, show) + EntryLines([], 0, show);
    LeafIs(0, key, word);
    LeafValueIffPlain(word);
    OneLineEntry(0, key, word);
    ReadUnlines(lines);
    assert ReadLines(START, [line]) == ReadLine(START, line);
  }

  /** For every object tree, printing it and importing the text with the loop over the lines gives back the tree exactly
      when it is at most three levels deep, without arrays, with keys that a line carries and plain leaves, none of them
      under a section with an empty key. Empty sections come back as empty sections. */
  lemma RoundTripIff(entries: seq<Entry>, show: Json -> string)
    requires DistinctKeys(entries)
    ensures Some(ReadText(Unlines(Lines(Object(entries), 0, show)))) == Meaning(entries, show) <==>
            Fits(3, true, entries, show)
  {
    var text := Unlines(Lines(Object(entries), 0, show));
    if Some(ReadText(text)) == Meaning(entries, show) {
      ReadTextIsCarried(text);
      CarriedIsWritable(entries, show);
    }
    if Fits(3, true, entries, show) {
      FitsIsWritable(3, true, entries, show);
    }
    if ArrayFree(entries) && Writable(entries, show) {
      WritableRoundTripIff(entries, show);
    }
  }

  lemma WritableRoundTripIff(entries: seq<Entry>, show: Json -> string)
    requires DistinctKeys(entries) && ArrayFree(entries) && Writable(entries, show)
    ensures ReadText(Unlines(Lines(Object(entries), 0, show))) == Whole(map[], entries, show) <==>
            Fits(3, true, entries, show)
  {
    LinesAreOneLine(entries, 0, show);
    ReadUnlines(Lines(Object(entries), 0, show));
    WritableIsInLine(entries, show);
    ImportReadsThreeLevels(Object(entries), show);
    KeptIsWholeIff(3, true, map[], entries, show);
  }
}
