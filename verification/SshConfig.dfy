/** The desktop client's editing of the user's SSH configuration file (apps/desktop/src/ssh.rs). */
module SshConfig {
  import opened Common
  import opened Text

  predicate Occurs(s: string, t: string, i: int) {
    0 <= i <= |s| - |t| && s[i..i + |t|] == t
  }

  /** `str::contains`. */
  predicate Contains(s: string, t: string) {
    exists i :: 0 <= i <= |s| && Occurs(s, t, i)
  }

  const HOST := "Host devbox-"

  function Marker(id: string): string {
    HOST + id
  }

  /** The file after `write_ssh_config`; a missing file reads as empty. */
  function Write(file: string, id: string, content: string): string {
    if Contains(file, Marker(id)) then file
    else if file == "" then content
    else TrimEnd(file, Rust) + "\n\n" + content
  }

  class ConfigFile {
    var contents: string

    constructor (contents: string)
      ensures this.contents == contents
    {
      this.contents := contents;
    }

    method WriteSshConfig(id: string, content: string)
      modifies this
      ensures contents == Write(old(contents), id, content)
    {
      var hostMarker := HOST + id;
      if Contains(contents, hostMarker) {
        return;
      }
      var newConfig := if contents == "" then content else TrimEnd(contents, Rust) + "\n\n" + content;
      contents := newConfig;
    }
  }

  // ---------- any file, any contents ----------

  lemma ContainsIn(a: string, t: string, b: string)
    ensures Contains(a + t + b, t)
  {
    assert (a + t + b)[|a|..|a| + |t|] == t;
    assert Occurs(a + t + b, t, |a|);
  }

  lemma ContainsWithin(s: string, t: string, a: string, b: string)
    requires Contains(s, t)
    ensures Contains(a + s + b, t)
  {
    var i :| 0 <= i <= |s| && Occurs(s, t, i);
    assert (a + s + b)[|a| + i..|a| + i + |t|] == t;
    assert Occurs(a + s + b, t, |a| + i);
  }

  /** A second call for an id changes nothing, whatever it brings. */
  lemma Idempotent(file: string, id: string, content: string, again: string)
    requires Contains(content, Marker(id))
    ensures Contains(Write(file, id, content), Marker(id))
    ensures Write(Write(file, id, content), id, again) == Write(file, id, content)
  {
    if !Contains(file, Marker(id)) && file != "" {
      ContainsWithin(content, Marker(id), TrimEnd(file, Rust) + "\n\n", "");
      assert TrimEnd(file, Rust) + "\n\n" + content + "" == TrimEnd(file, Rust) + "\n\n" + content;
    }
  }

  /** The white space a marker ends with. */
  function Trailing(id: string): string {
    TrimEndIsPrefix(Marker(id), Rust);
    Marker(id)[|TrimEnd(Marker(id), Rust)|..]
  }

  predicate Lasting(id: string) {
    Trailing(id) in ["", "\n", "\n\n"]
  }

  ghost predicate AlwaysSurvives(id: string) {
    forall file, other, content :: Contains(file, Marker(id)) ==> Contains(Write(file, other, content), Marker(id))
  }

  /** A marker once in the file survives every later call exactly when it ends without white space, or with no
      more line feeds than the separator puts back. */
  lemma SurvivesIff(id: string)
    ensures AlwaysSurvives(id) <==> Lasting(id)
  {
    if Lasting(id) {
      forall file, other, content | Contains(file, Marker(id)) ensures Contains(Write(file, other, content), Marker(id)) {
        MarkerSurvives(file, id, other, content);
      }
    } else {
      MarkerIsLost(id);
    }
  }

  lemma MarkerSurvives(file: string, id: string, other: string, content: string)
    requires Lasting(id) && Contains(file, Marker(id))
    ensures Contains(Write(file, other, content), Marker(id))
  {
    if !Contains(file, Marker(other)) {
      var i :| 0 <= i <= |file| && Occurs(file, Marker(id), i);
      CoreIsLong(id);
      TextSurvives(file, TrimEnd(Marker(id), Rust), Trailing(id), content, i);
    }
  }

  /** The marker's text without its trailing white space. */
  lemma CoreIsLong(id: string)
    ensures var core := TrimEnd(Marker(id), Rust);
            && |core| > 2 && core[0] != core[1]
            && !IsSpace(core[|core| - 1], Rust)
            && Marker(id) == core + Trailing(id)
  {
    TrimEndConcat(HOST, id, Rust);
    assert TrimEnd(HOST, Rust) == HOST;
    TrimEndIsPrefix(Marker(id), Rust);
  }

  lemma TextSurvives(file: string, core: string, trailing: string, content: string, i: nat)
    requires core != "" && !IsSpace(core[|core| - 1], Rust) && trailing in ["", "\n", "\n\n"]
    requires Occurs(file, core + trailing, i)
    ensures Contains(TrimEnd(file, Rust) + "\n\n" + content, core + trailing)
  {
    var kept, m := TrimEnd(file, Rust), core + trailing;
    TrimEndIsPrefix(file, Rust);
    CoreIsKept(file, core, trailing, i);
    if i + |m| <= |kept| {
      assert kept[i..i + |m|] == m;
      assert Occurs(kept, m, i);
      ContainsWithin(kept, m, "", "\n\n" + content);
      assert "" + kept + ("\n\n" + content) == kept + "\n\n" + content;
    } else {
      EndsAtCut(file, kept, core, trailing, i);
      assert kept == kept[..i] + core;
      SeparatorRestores(kept[..i], core, trailing, content);
    }
  }

  lemma CoreIsKept(file: string, core: string, trailing: string, i: nat)
    requires core != "" && !IsSpace(core[|core| - 1], Rust) && Occurs(file, core + trailing, i)
    ensures i + |core| <= |TrimEnd(file, Rust)|
  {
    TrimEndIsPrefix(file, Rust);
    assert file[i + |core| - 1] == file[i..i + |core + trailing|][|core| - 1] == core[|core| - 1];
  }

  /** An occurrence cut by the trimming has its text end exactly at the cut. */
  lemma EndsAtCut(file: string, kept: string, core: string, trailing: string, i: nat)
    requires kept <= file && Occurs(file, core + trailing, i)
    requires i + |core| <= |kept| < i + |core + trailing|
    requires kept != "" ==> !IsSpace(kept[|kept| - 1], Rust)
    requires forall k :: 0 <= k < |trailing| ==> IsSpace(trailing[k], Rust)
    ensures i + |core| == |kept| && kept[i..] == core
  {
    var m := core + trailing;
    forall k | i + |core| <= k < i + |m| ensures IsSpace(file[k], Rust) {
      assert file[k] == m[k - i] == trailing[k - i - |core|];
    }
    assert kept[i..] == file[i..i + |core|] == m[..|core|] == core;
  }

  lemma SeparatorRestores(a: string, core: string, trailing: string, content: string)
    requires trailing in ["", "\n", "\n\n"]
    ensures Contains(a + core + "\n\n" + content, core + trailing)
  {
    var rest := "\n\n"[|trailing|..];
    assert "\n\n" == trailing + rest;
    ContainsIn(a, core + trailing, rest + content);
    assert a + (core + trailing) + (rest + content) == a + core + "\n\n" + content;
  }

  lemma OccursAtStart(core: string, trailing: string, i: nat)
    requires |core| > 2 && core[0] != core[1] && trailing != "" && Occurs(core + "\n\n", core + trailing, i)
    ensures i == 0
  {
    var result := core + "\n\n";
    assert i <= 1;
    assert result[1] == core[1];
    assert result[i] == result[i..i + |core + trailing|][0] == core[0];
  }

  lemma FoundWhenRestored(core: string, trailing: string)
    requires |core| > 2 && core[0] != core[1] && Contains(core + "\n\n", core + trailing)
    ensures trailing in ["", "\n", "\n\n"]
  {
    var result, m := core + "\n\n", core + trailing;
    var i :| 0 <= i <= |result| && Occurs(result, m, i);
    if trailing != "" {
      OccursAtStart(core, trailing, i);
      assert trailing == m[|core|..] == result[..|m|][|core|..] == "\n\n"[..|trailing|];
      assert |trailing| == 1 ==> trailing == "\n";
      assert |trailing| == 2 ==> trailing == "\n\n";
    }
  }

  lemma MarkerIsLost(id: string)
    requires !Lasting(id)
    ensures !AlwaysSurvives(id)
  {
    var file, other := Marker(id), id + "x";
    CoreIsLong(id);
    if Contains(TrimEnd(file, Rust) + "\n\n", file) {
      FoundWhenRestored(TrimEnd(file, Rust), Trailing(id));
    }
    assert TrimEnd(file, Rust) + "\n\n" + "" == TrimEnd(file, Rust) + "\n\n";
    assert !Contains(file, Marker(other));
    assert Occurs(file, file, 0);
    assert !Contains(Write(file, other, ""), Marker(id));
  }

  // ---------- runs of any calls ----------

  datatype Call = Call(id: string, content: string)

  function Run(file: string, calls: seq<Call>): string
    decreases |calls|
  {
    if calls == [] then file else Run(Write(file, calls[0].id, calls[0].content), calls[1..])
  }

  /** Nothing but trailing white space is ever lost. */
  lemma {:induction false} OldTextStays(file: string, calls: seq<Call>)
    ensures TrimEnd(file, Rust) <= Run(file, calls)
    decreases |calls|
  {
    TrimEndIsPrefix(file, Rust);
    if calls != [] {
      var next := Write(file, calls[0].id, calls[0].content);
      OldTextStays(next, calls[1..]);
      TrimKeepsPrefix(TrimEnd(file, Rust), next);
    }
  }

  lemma TrimKeepsPrefix(a: string, file: string)
    requires a <= file && (a != "" ==> !IsSpace(a[|a| - 1], Rust))
    ensures a <= TrimEnd(file, Rust)
  {
    TrimEndConcat(a, file[|a|..], Rust);
    assert a + file[|a|..] == file;
    assert a == "" || TrimEnd(a, Rust) == a;
  }

  lemma {:induction false} MarkersSurvive(file: string, calls: seq<Call>, id: string)
    requires Lasting(id) && Contains(file, Marker(id))
    ensures Contains(Run(file, calls), Marker(id))
    decreases |calls|
  {
    if calls != [] {
      MarkerSurvives(file, id, calls[0].id, calls[0].content);
      MarkersSurvive(Write(file, calls[0].id, calls[0].content), calls[1..], id);
    }
  }

  // ---------- a file of the client's own blocks ----------

  /** What the client asks for; the port is given by its digits. */
  datatype Request = Request(id: string, host: string, port: string, user: string)

  /** An indented line of a keyword and a value. */
  function Setting(key: string, value: string): string {
    "    " + key + " " + value
  }

  function BlockLines(r: Request): seq<string> {
    [Marker(r.id),
     Setting("HostName", r.host),
     Setting("Port", r.port),
     Setting("User", r.user),
     Setting("StrictHostKeyChecking", "no"),
     Setting("UserKnownHostsFile", "/dev/null"),
     Setting("ServerAliveInterval", "60"),
     Setting("ServerAliveCountMax", "3")]
  }

  function Block(r: Request): string {
    Unlines(BlockLines(r))
  }

  function Requested(file: string, requests: seq<Request>): string
    decreases |requests|
  {
    if requests == [] then file
    else Requested(Write(file, requests[0].id, Block(requests[0])), requests[1..])
  }

  /** The file's lines: the blocks, separated by empty lines. */
  function FileLines(granted: seq<Request>): seq<string> {
    if granted == [] then []
    else
      var front, last := granted[..|granted| - 1], granted[|granted| - 1];
      (if front == [] then [] else FileLines(front) + [""]) + BlockLines(last)
  }

  function FileText(granted: seq<Request>): string {
    Unlines(FileLines(granted))
  }

  predicate Mentions(granted: seq<Request>, id: string) {
    Contains(FileText(granted), Marker(id))
  }

  /** The requests that have a block after one more request. */
  function Grant(granted: seq<Request>, r: Request): seq<Request> {
    if Mentions(granted, r.id) then granted else granted + [r]
  }

  /** The requests that get a block: those whose marker the blocks so far do not mention. */
  function Granted(granted: seq<Request>, requests: seq<Request>): seq<Request>
    decreases |requests|
  {
    if requests == [] then granted else Granted(Grant(granted, requests[0]), requests[1..])
  }

  // ---------- the file is its blocks ----------

  lemma {:induction false} UnlinesConcat(a: seq<string>, b: seq<string>)
    ensures Unlines(a + b) == Unlines(a) + Unlines(b)
  {
    if a == [] {
      assert a + b == b;
    } else {
      UnlinesConcat(a[1..], b);
      assert (a + b)[1..] == a[1..] + b;
    }
  }

  const LAST_LINE := Setting("ServerAliveCountMax", "3")

  lemma UnlinesLast(front: seq<string>, last: string)
    requires last != "" && !IsSpace(last[|last| - 1], Rust)
    ensures TrimEnd(Unlines(front + [last]), Rust) + "\n" == Unlines(front + [last])
  {
    var text := Unlines(front) + last;
    calc {
      Unlines(front + [last]);
      { UnlinesConcat(front, [last]); }
      Unlines(front) + Unlines([last]);
      { UnlinesOne(last); }
      Unlines(front) + (last + "\n");
      text + "\n";
    }
    TrimEndConcat(text, "\n", Rust);
    assert TrimEnd("\n", Rust) == TrimEnd("", Rust) == "";
    assert text[|text| - 1] == last[|last| - 1];
  }

  lemma UnlinesOne(line: string)
    ensures Unlines([line]) == line + "\n"
  {
    assert [line][1..] == [];
    assert Unlines([line]) == line + "\n" + "";
  }

  lemma FileEnds(granted: seq<Request>)
    requires granted != []
    ensures var lines := FileLines(granted); lines != [] && lines[|lines| - 1] == LAST_LINE
  {}

  lemma WriteOnce(granted: seq<Request>, r: Request)
    ensures Write(FileText(granted), r.id, Block(r)) == FileText(Grant(granted, r))
  {
    if !Mentions(granted, r.id) {
      assert (granted + [r])[..|granted + [r]| - 1] == granted;
      if granted == [] {
        assert [] + BlockLines(r) == BlockLines(r);
      } else {
        FileEnds(granted);
        AppendBlock(FileLines(granted), BlockLines(r));
      }
    }
  }

  lemma AppendBlock(lines: seq<string>, block: seq<string>)
    requires lines != [] && lines[|lines| - 1] == LAST_LINE
    ensures Unlines(lines) != ""
    ensures TrimEnd(Unlines(lines), Rust) + "\n\n" + Unlines(block) == Unlines(lines + [""] + block)
  {
    var text := TrimEnd(Unlines(lines), Rust);
    assert lines == lines[..|lines| - 1] + [LAST_LINE];
    calc {
      Unlines(lines + [""] + block);
      { UnlinesConcat(lines + [""], block); UnlinesConcat(lines, [""]); UnlinesOne(""); }
      Unlines(lines) + ("" + "\n") + Unlines(block);
      { UnlinesLast(lines[..|lines| - 1], LAST_LINE); }
      text + "\n" + ("" + "\n") + Unlines(block);
      text + "\n\n" + Unlines(block);
    }
  }

  /** From an empty file, whatever the requests hold, the file is exactly the blocks of the granted requests, one empty
      line between two. */
  lemma {:induction false} FileIs(granted: seq<Request>, requests: seq<Request>)
    ensures Requested(FileText(granted), requests) == FileText(Granted(granted, requests))
    decreases |requests|
  {
    if requests != [] {
      WriteOnce(granted, requests[0]);
      FileIs(Grant(granted, requests[0]), requests[1..]);
    }
  }

  /** The lines an SSH client reads the request's host, port and user from. */
  predicate ReadsAs(lines: seq<string>, i: nat, r: Request) {
    && i + 8 <= |lines|
    && lines[i] == "Host devbox-" + r.id
    && Says(lines[i + 1], "HostName", r.host) && Says(lines[i + 2], "Port", r.port) && Says(lines[i + 3], "User", r.user)
    && Says(lines[i + 4], "StrictHostKeyChecking", "no") && Says(lines[i + 5], "UserKnownHostsFile", "/dev/null")
    && Says(lines[i + 6], "ServerAliveInterval", "60") && Says(lines[i + 7], "ServerAliveCountMax", "3")
  }

  predicate Says(line: string, keyword: string, value: string) {
    line == "    " + keyword + " " + value
  }

  /** The `g`-th block begins at line `9 * g`. */
  lemma {:induction false} BlockReadsAs(granted: seq<Request>, g: nat)
    requires g < |granted|
    ensures |FileLines(granted)| == 9 * |granted| - 1 && ReadsAs(FileLines(granted), 9 * g, granted[g])
  {
    var front, last := granted[..|granted| - 1], granted[|granted| - 1];
    var before := if front == [] then [] else FileLines(front) + [""];
    assert FileLines(granted) == before + BlockLines(last);
    if front != [] {
      BlockReadsAs(front, if g < |front| then g else 0);
    }
    if g == |front| {
      BlockAtEnd(before, last);
    }
  }

  lemma BlockAtEnd(before: seq<string>, r: Request)
    ensures ReadsAs(before + BlockLines(r), |before|, r)
  {
    var lines := before + BlockLines(r);
    assert forall i :: 0 <= i < 8 ==> lines[|before| + i] == BlockLines(r)[i];
  }

  /** Every request that gets a block is a request made, and can be read back from its block, line by line. */
  lemma GrantedReadsBack(requests: seq<Request>, g: nat)
    requires g < |Granted([], requests)|
    ensures var r := Granted([], requests)[g];
            r in requests &&
            exists lines :: Requested("", requests) == Unlines(lines) && ReadsAs(lines, 9 * g, r)
  {
    FileIs([], requests);
    GrantedAreRequests([], requests);
    BlockReadsAs(Granted([], requests), g);
  }

  lemma {:induction false} GrantedAreRequests(granted: seq<Request>, requests: seq<Request>)
    ensures forall r :: r in Granted(granted, requests) ==> r in granted || r in requests
    decreases |requests|
  {
    if requests != [] {
      GrantedAreRequests(Grant(granted, requests[0]), requests[1..]);
    }
  }

  function Blocks(granted: seq<Request>, id: string): nat {
    if granted == [] then 0
    else Blocks(granted[..|granted| - 1], id) + if granted[|granted| - 1].id == id then 1 else 0
  }

  lemma BlocksLast(granted: seq<Request>, r: Request, id: string)
    ensures Blocks(granted + [r], id) == Blocks(granted, id) + if r.id == id then 1 else 0
  {
    assert (granted + [r])[..|granted + [r]| - 1] == granted;
  }

  function Gap(granted: seq<Request>): seq<string> {
    if granted == [] then [] else [""]
  }

  lemma AddedBlock(granted: seq<Request>, r: Request)
    ensures FileText(granted + [r]) == FileText(granted) + (Unlines(Gap(granted)) + Block(r))
  {
    assert (granted + [r])[..|granted + [r]| - 1] == granted;
    var before := FileLines(granted) + Gap(granted);
    assert granted == [] ==> before == [];
    calc {
      FileText(granted + [r]);
      Unlines(before + BlockLines(r));
      { UnlinesConcat(before, BlockLines(r)); }
      Unlines(before) + Block(r);
      { UnlinesConcat(FileLines(granted), Gap(granted)); }
      (FileText(granted) + Unlines(Gap(granted))) + Block(r);
      { Assoc(FileText(granted), Unlines(Gap(granted)), Block(r)); }
      FileText(granted) + (Unlines(Gap(granted)) + Block(r));
    }
  }

  lemma BlockMentions(r: Request)
    ensures Contains(Block(r), Marker(r.id))
  {
    ContainsIn("", Marker(r.id), "\n" + Unlines(BlockLines(r)[1..]));
    assert "" + Marker(r.id) + ("\n" + Unlines(BlockLines(r)[1..])) == Block(r);
  }

  lemma ContainsEither(a: string, b: string, t: string)
    requires Contains(a, t) || Contains(b, t)
    ensures Contains(a + b, t)
  {
    if Contains(a, t) {
      ContainsWithin(a, t, "", b);
      assert "" + a + b == a + b;
    } else {
      ContainsWithin(b, t, a, "");
      assert a + b + "" == a + b;
    }
  }

  lemma GrantMentions(granted: seq<Request>, r: Request, id: string)
    requires Mentions(granted, id) || r.id == id
    ensures Mentions(Grant(granted, r), id)
  {
    if !Mentions(granted, r.id) {
      var gap := Unlines(Gap(granted));
      AddedBlock(granted, r);
      BlockMentions(r);
      if !Mentions(granted, id) {
        ContainsEither(gap, Block(r), Marker(id));
      }
      ContainsEither(FileText(granted), gap + Block(r), Marker(id));
    }
  }

  lemma {:induction false} GrantedMentions(granted: seq<Request>, requests: seq<Request>, id: string)
    requires Mentions(granted, id)
    ensures Mentions(Granted(granted, requests), id)
    decreases |requests|
  {
    if requests != [] {
      GrantMentions(granted, requests[0], id);
      GrantedMentions(Grant(granted, requests[0]), requests[1..], id);
    }
  }

  predicate IsRequested(requests: seq<Request>, id: string) {
    exists i :: 0 <= i < |requests| && requests[i].id == id
  }

  /** The position of the first request for an id. */
  function First(requests: seq<Request>, id: string): (k: nat)
    requires IsRequested(requests, id)
    ensures k < |requests| && requests[k].id == id && forall i :: 0 <= i < k ==> requests[i].id != id
  {
    if requests[0].id == id then 0 else First(requests[1..], id) + 1
  }

  predicate GrantedFirst(granted: seq<Request>, requests: seq<Request>, id: string) {
    IsRequested(requests, id) && !Mentions(Granted(granted, requests[..First(requests, id)]), id)
  }

  lemma GrantedFirstCons(granted: seq<Request>, requests: seq<Request>, id: string)
    requires requests != []
    ensures requests[0].id == id ==> (GrantedFirst(granted, requests, id) <==> !Mentions(granted, id))
    ensures requests[0].id != id ==>
            (GrantedFirst(granted, requests, id) <==> GrantedFirst(Grant(granted, requests[0]), requests[1..], id))
  {
    var rest := requests[1..];
    if requests[0].id == id {
      assert First(requests, id) == 0 && requests[..0] == [];
    } else {
      assert IsRequested(requests, id) <==> IsRequested(rest, id) by {
        assert forall i :: 0 <= i < |rest| ==> rest[i] == requests[i + 1];
      }
      if IsRequested(rest, id) {
        var k := First(rest, id);
        assert First(requests, id) == k + 1;
        assert requests[..k + 1][1..] == rest[..k];
      }
    }
  }

  lemma {:induction false} BlocksAre(granted: seq<Request>, requests: seq<Request>, id: string)
    ensures Blocks(Granted(granted, requests), id) ==
            Blocks(granted, id) + if GrantedFirst(granted, requests, id) then 1 else 0
    decreases |requests|
  {
    if requests != [] {
      var r, rest := requests[0], requests[1..];
      GrantedFirstCons(granted, requests, id);
      BlocksAre(Grant(granted, r), rest, id);
      BlocksLast(granted, r, id);
      if r.id == id {
        GrantMentions(granted, r, id);
        NeverGrantedAgain(Grant(granted, r), rest, id);
      }
    }
  }

  lemma NeverGrantedAgain(granted: seq<Request>, requests: seq<Request>, id: string)
    requires Mentions(granted, id)
    ensures !GrantedFirst(granted, requests, id)
  {
    if IsRequested(requests, id) {
      GrantedMentions(granted, requests[..First(requests, id)], id);
    }
  }

  /** From an empty file, whatever the requests hold, a requested id ends up with exactly one block, or with none: none
      exactly when its marker was already in the file when it was first requested. */
  lemma OneBlockIff(requests: seq<Request>, id: string)
    requires IsRequested(requests, id)
    ensures Requested("", requests) == FileText(Granted([], requests))
    ensures Blocks(Granted([], requests), id) ==
            if Contains(Requested("", requests[..First(requests, id)]), Marker(id)) then 0 else 1
  {
    FileIs([], requests);
    FileIs([], requests[..First(requests, id)]);
    BlocksAre([], requests, id);
  }

  // ---------- blocks of plain requests ----------

  /** One line of text in which the marker's fixed part does not occur. */
  predicate Clean(s: string) {
    '\n' !in s && !Contains(s, HOST)
  }

  predicate Plain(r: Request) {
    Clean(r.id) && Clean(r.host) && Clean(r.port) && Clean(r.user)
  }

  predicate Begins(id: string, granted: seq<Request>) {
    exists i :: 0 <= i < |granted| && id <= granted[i].id
  }

  // ---------- which lines contain a marker ----------

  lemma SliceBehind(a: string, b: string, j: nat, n: nat)
    requires j + n <= |b|
    ensures (a + b)[|a| + j..|a| + j + n] == b[j..j + n]
  {}

  lemma ContainsAcrossLine(line: string, rest: string, m: string)
    requires '\n' !in m && m != ""
    ensures Contains(line + "\n" + rest, m) <==> Contains(line, m) || Contains(rest, m)
  {
    var s := line + "\n" + rest;
    if Contains(line, m) {
      ContainsWithin(line, m, "", "\n" + rest);
      assert "" + line + ("\n" + rest) == s;
    }
    if Contains(rest, m) {
      ContainsWithin(rest, m, line + "\n", "");
      assert line + "\n" + rest + "" == s;
    }
    if Contains(s, m) {
      var i :| 0 <= i <= |s| && Occurs(s, m, i);
      assert s[|line|] == '\n';
      assert forall k :: i <= k < i + |m| ==> s[k] == m[k - i];
      assert forall k :: i <= k < i + |m| ==> s[k] != '\n';
      if i + |m| <= |line| {
        assert line[i..i + |m|] == m;
        assert Occurs(line, m, i);
      } else {
        assert i > |line|;
        var j := i - |line| - 1;
        SliceBehind(line + "\n", rest, j, |m|);
        assert Occurs(rest, m, j);
      }
    }
  }

  ghost predicate SomeLineContains(lines: seq<string>, m: string) {
    exists k :: 0 <= k < |lines| && Contains(lines[k], m)
  }

  lemma {:induction false} ContainsLine(lines: seq<string>, m: string)
    requires '\n' !in m && m != ""
    ensures Contains(Unlines(lines), m) <==> SomeLineContains(lines, m)
  {
    if lines != [] {
      ContainsAcrossLine(lines[0], Unlines(lines[1..]), m);
      ContainsLine(lines[1..], m);
      if SomeLineContains(lines[1..], m) {
        var k :| 0 <= k < |lines[1..]| && Contains(lines[1..][k], m);
        assert Contains(lines[k + 1], m);
      }
      if SomeLineContains(lines, m) {
        var k :| 0 <= k < |lines| && Contains(lines[k], m);
        assert k > 0 ==> Contains(lines[1..][k - 1], m);
      }
    }
  }

  lemma MarkerStarts(line: string, id: string, i: nat)
    requires Occurs(line, Marker(id), i)
    ensures Occurs(line, HOST, i) && line[i] == 'H' && line[i + 4] == ' '
  {
    var part := line[i..i + |Marker(id)|];
    assert line[i..i + 12] == part[..12] == HOST;
    assert line[i] == part[0] && line[i + 4] == part[4];
  }

  /** Visible ASCII characters, and no "H" near the end that could begin the marker. */
  predicate Keyword(key: string) {
    forall j :: 0 <= j < |key| ==> '!' <= key[j] <= '~' && (key[j] == 'H' ==> j + 4 < |key|)
  }

  /** A setting contains no marker unless its value does. */
  lemma SettingHasNoMarker(key: string, value: string, id: string)
    requires Keyword(key) && Clean(value)
    ensures !Contains(Setting(key, value), Marker(id))
  {
    if Contains(Setting(key, value), Marker(id)) {
      MarkerInValue(key, value, id);
    }
  }

  lemma MarkerInValue(key: string, value: string, id: string)
    requires Keyword(key) && Contains(Setting(key, value), Marker(id))
    ensures Contains(value, HOST)
  {
    var line, from := Setting(key, value), 5 + |key|;
    var i :| 0 <= i <= |line| && Occurs(line, Marker(id), i);
    MarkerStarts(line, id, i);
    assert forall k :: 4 <= k < 4 + |key| ==> line[k] == key[k - 4];
    assert line[4 + |key|] == ' ';
    assert i >= from;
    assert value[i - from..i - from + 12] == line[i..i + 12];
    assert Occurs(value, HOST, i - from);
  }

  lemma HeaderContains(r: Request, id: string)
    requires Clean(r.id)
    ensures Contains(Marker(r.id), Marker(id)) <==> id <= r.id
  {
    var line, m := Marker(r.id), Marker(id);
    if id <= r.id {
      assert line[0..|m|] == m;
      assert Occurs(line, m, 0);
    }
    if Contains(line, m) {
      var i :| 0 <= i <= |line| && Occurs(line, m, i);
      MarkerStarts(line, id, i);
      HostOnlyAtStart(r, i);
      assert id == m[12..] == line[0..|m|][12..] == r.id[..|id|];
    }
  }

  lemma HostOnlyAtStart(r: Request, i: nat)
    requires Clean(r.id) && Occurs(Marker(r.id), HOST, i) && Marker(r.id)[i] == 'H'
    ensures i == 0
  {
    var line := Marker(r.id);
    assert forall k :: 0 < k < 12 ==> line[k] == HOST[k] && HOST[k] != 'H';
    if i >= 12 {
      assert r.id[i - 12..i] == line[i..i + 12];
      assert Occurs(r.id, HOST, i - 12);
    }
  }

  lemma Keywords()
    ensures Keyword("HostName") && Keyword("Port") && Keyword("User") && Keyword("StrictHostKeyChecking")
  {}

  lemma MoreKeywords()
    ensures Keyword("UserKnownHostsFile") && Keyword("ServerAliveInterval") && Keyword("ServerAliveCountMax")
    ensures Clean("no") && Clean("/dev/null") && Clean("60") && Clean("3")
  {}

  lemma OtherLines(r: Request, id: string)
    requires Plain(r)
    ensures forall k :: 1 <= k < 8 ==> !Contains(BlockLines(r)[k], Marker(id))
  {
    Keywords();
    MoreKeywords();
    SettingHasNoMarker("HostName", r.host, id);
    SettingHasNoMarker("Port", r.port, id);
    SettingHasNoMarker("User", r.user, id);
    SettingHasNoMarker("StrictHostKeyChecking", "no", id);
    SettingHasNoMarker("UserKnownHostsFile", "/dev/null", id);
    SettingHasNoMarker("ServerAliveInterval", "60", id);
    SettingHasNoMarker("ServerAliveCountMax", "3", id);
  }

  lemma BlockContains(r: Request, id: string)
    requires Plain(r)
    ensures SomeLineContains(BlockLines(r), Marker(id)) <==> id <= r.id
  {
    var lines := BlockLines(r);
    OtherLines(r, id);
    HeaderContains(r, id);
    assert lines[0] == Marker(r.id);
    assert forall k :: 0 <= k < |lines| && Contains(lines[k], Marker(id)) ==> k == 0;
  }

  lemma SomeLineConcat(a: seq<string>, b: seq<string>, m: string)
    ensures SomeLineContains(a + b, m) <==> SomeLineContains(a, m) || SomeLineContains(b, m)
  {
    if SomeLineContains(a, m) {
      var k :| 0 <= k < |a| && Contains(a[k], m);
      assert Contains((a + b)[k], m);
    }
    if SomeLineContains(b, m) {
      var k :| 0 <= k < |b| && Contains(b[k], m);
      assert Contains((a + b)[|a| + k], m);
    }
  }

  ghost predicate AllPlain(requests: seq<Request>) {
    forall i :: 0 <= i < |requests| ==> Plain(requests[i])
  }

  lemma BeginsLast(id: string, granted: seq<Request>)
    requires granted != []
    ensures Begins(id, granted) <==> Begins(id, granted[..|granted| - 1]) || id <= granted[|granted| - 1].id
  {
    if Begins(id, granted) {
      var i :| 0 <= i < |granted| && id <= granted[i].id;
      assert i < |granted| - 1 ==> granted[..|granted| - 1][i] == granted[i];
    }
    if Begins(id, granted[..|granted| - 1]) {
      var i :| 0 <= i < |granted| - 1 && id <= granted[..|granted| - 1][i].id;
      assert id <= granted[i].id;
    }
  }

  /** Among the client's own blocks, a marker is found exactly when its id begins an id that has a block. */
  lemma {:induction false} FileContains(granted: seq<Request>, id: string)
    requires AllPlain(granted)
    ensures SomeLineContains(FileLines(granted), Marker(id)) <==> Begins(id, granted)
  {
    if granted != [] {
      var front, last := granted[..|granted| - 1], granted[|granted| - 1];
      FileContains(front, id);
      BeginsLast(id, granted);
      BlockContains(last, id);
      var before := if front == [] then [] else FileLines(front) + [""];
      SomeLineConcat(before, BlockLines(last), Marker(id));
      if front != [] {
        SomeLineConcat(FileLines(front), [""], Marker(id));
        assert !Contains("", Marker(id));
      }
    }
  }

  // ---------- how many blocks an id gets ----------

  function LinesEqual(lines: seq<string>, line: string): nat {
    if lines == [] then 0
    else LinesEqual(lines[..|lines| - 1], line) + if lines[|lines| - 1] == line then 1 else 0
  }

  lemma {:induction false} LinesEqualConcat(a: seq<string>, b: seq<string>, line: string)
    ensures LinesEqual(a + b, line) == LinesEqual(a, line) + LinesEqual(b, line)
  {
    if b == [] {
      assert a + b == a;
    } else {
      assert (a + b)[..|a + b| - 1] == a + b[..|b| - 1];
      LinesEqualConcat(a, b[..|b| - 1], line);
    }
  }

  lemma {:induction false} NoneEqual(lines: seq<string>, line: string)
    requires forall k :: 0 <= k < |lines| ==> lines[k] != line
    ensures LinesEqual(lines, line) == 0
  {
    if lines != [] {
      NoneEqual(lines[..|lines| - 1], line);
    }
  }

  lemma HeaderOfBlock(r: Request, id: string)
    ensures LinesEqual(BlockLines(r), Marker(id)) == if r.id == id then 1 else 0
  {
    var lines := BlockLines(r);
    assert lines == [lines[0]] + lines[1..];
    LinesEqualConcat([lines[0]], lines[1..], Marker(id));
    forall k | 0 <= k < 7 ensures lines[1..][k] != Marker(id) {
      assert lines[k + 1][0] == ' ' && Marker(id)[0] == 'H';
    }
    NoneEqual(lines[1..], Marker(id));
    assert Marker(r.id)[12..] == r.id && Marker(id)[12..] == id;
    assert [lines[0]][..0] == [];
  }

  lemma {:induction false} HeadersAreBlocks(granted: seq<Request>, id: string)
    ensures LinesEqual(FileLines(granted), Marker(id)) == Blocks(granted, id)
  {
    if granted != [] {
      var front, last := granted[..|granted| - 1], granted[|granted| - 1];
      HeadersAreBlocks(front, id);
      HeaderOfBlock(last, id);
      var before := if front == [] then [] else FileLines(front) + [""];
      LinesEqualConcat(before, BlockLines(last), Marker(id));
      LinesEqualConcat(FileLines(front), [""], Marker(id));
      NoneEqual([""], Marker(id));
    }
  }

  /** Before its own first request, a longer id that begins with it is requested. */
  predicate HiddenAt(requests: seq<Request>, id: string, j: int) {
    && 0 <= j < |requests| && id < requests[j].id
    && forall i :: 0 <= i < j ==> requests[i].id != id
  }

  predicate Hidden(requests: seq<Request>, id: string) {
    exists j :: 0 <= j < |requests| && HiddenAt(requests, id, j)
  }

  lemma RequestedCons(requests: seq<Request>, id: string)
    requires requests != []
    ensures IsRequested(requests, id) <==> requests[0].id == id || IsRequested(requests[1..], id)
    ensures Hidden(requests, id) <==> id < requests[0].id || (requests[0].id != id && Hidden(requests[1..], id))
  {
    var rest := requests[1..];
    if IsRequested(rest, id) {
      var i :| 0 <= i < |rest| && rest[i].id == id;
      assert requests[i + 1].id == id;
    }
    if IsRequested(requests, id) {
      var i :| 0 <= i < |requests| && requests[i].id == id;
      assert i > 0 ==> rest[i - 1].id == id;
    }
    if id < requests[0].id {
      assert HiddenAt(requests, id, 0);
    }
    if requests[0].id != id && Hidden(rest, id) {
      var j :| 0 <= j < |rest| && HiddenAt(rest, id, j);
      assert forall i :: 0 < i < |requests| ==> requests[i] == rest[i - 1];
      assert HiddenAt(requests, id, j + 1);
    }
    if Hidden(requests, id) {
      var j :| 0 <= j < |requests| && HiddenAt(requests, id, j);
      if j > 0 {
        assert forall i :: 0 <= i < |rest| ==> rest[i] == requests[i + 1];
        assert HiddenAt(rest, id, j - 1);
      }
    }
  }

  lemma BeginsTransitive(id: string, longer: string, granted: seq<Request>)
    requires id <= longer && Begins(longer, granted)
    ensures Begins(id, granted)
  {
    var i :| 0 <= i < |granted| && longer <= granted[i].id;
    assert id <= granted[i].id;
  }

  lemma GrantPlain(granted: seq<Request>, r: Request, id: string)
    requires AllPlain(granted) && Plain(r)
    ensures AllPlain(Grant(granted, r))
    ensures '\n' !in id ==> (Mentions(granted, id) <==> Begins(id, granted))
    ensures Begins(id, granted + [r]) <==> Begins(id, granted) || id <= r.id
  {
    assert (granted + [r])[..|granted + [r]| - 1] == granted;
    BeginsLast(id, granted + [r]);
    if '\n' !in id {
      ContainsLine(FileLines(granted), Marker(id));
      FileContains(granted, id);
    }
  }

  lemma {:induction false} BlocksGranted(granted: seq<Request>, requests: seq<Request>, id: string)
    requires AllPlain(granted) && AllPlain(requests) && '\n' !in id
    ensures Blocks(Granted(granted, requests), id) == Blocks(granted, id) +
              if IsRequested(requests, id) && !Begins(id, granted) && !Hidden(requests, id) then 1 else 0
    ensures AllPlain(Granted(granted, requests))
    decreases |requests|
  {
    if requests != [] {
      var r, rest := requests[0], requests[1..];
      RequestedCons(requests, id);
      GrantPlain(granted, r, id);
      GrantPlain(granted, r, r.id);
      BlocksLast(granted, r, id);
      BlocksGranted(Grant(granted, r), rest, id);
      if Begins(r.id, granted) && id <= r.id {
        BeginsTransitive(id, r.id, granted);
      }
    }
  }

  lemma LinesOfFile(granted: seq<Request>)
    requires AllPlain(granted)
    ensures Split(Unlines(FileLines(granted))) == FileLines(granted) + [""]
  {
    FileIsOneLine(granted);
    SplitUnlines(FileLines(granted));
  }

  lemma {:induction false} FileIsOneLine(granted: seq<Request>)
    requires AllPlain(granted)
    ensures forall l :: l in FileLines(granted) ==> '\n' !in l
  {
    if granted != [] {
      FileIsOneLine(granted[..|granted| - 1]);
      BlockIsOneLine(granted[|granted| - 1]);
    }
  }

  lemma BlockIsOneLine(r: Request)
    requires Plain(r)
    ensures forall l :: l in BlockLines(r) ==> '\n' !in l
  {
    Keywords();
    MoreKeywords();
    SettingIsOneLine("HostName", r.host);
    SettingIsOneLine("Port", r.port);
    SettingIsOneLine("User", r.user);
    SettingIsOneLine("StrictHostKeyChecking", "no");
    SettingIsOneLine("UserKnownHostsFile", "/dev/null");
    SettingIsOneLine("ServerAliveInterval", "60");
    SettingIsOneLine("ServerAliveCountMax", "3");
  }

  lemma SettingIsOneLine(key: string, value: string)
    requires Keyword(key) && Clean(value)
    ensures '\n' !in Setting(key, value)
  {
    assert '\n' !in "    " && '\n' !in key && '\n' !in " " && '\n' !in value;
  }

  /** From an empty file, a requested id has exactly one block, unless an id that it begins was requested before it:
      then it has none. */
  lemma OneBlockUnlessHidden(requests: seq<Request>, id: string)
    requires AllPlain(requests) && IsRequested(requests, id)
    ensures LinesEqual(Split(Requested("", requests)), Marker(id)) == if Hidden(requests, id) then 0 else 1
  {
    var granted := Granted([], requests);
    FileIs([], requests);
    BlocksGranted([], requests, id);
    LinesOfFile(granted);
    LinesEqualConcat(FileLines(granted), [""], Marker(id));
    NoneEqual([""], Marker(id));
    HeadersAreBlocks(granted, id);
  }

  /** With ids of one length, every requested id has exactly one block. */
  lemma EqualLengthsNeverHide(requests: seq<Request>, id: string)
    requires AllPlain(requests) && IsRequested(requests, id)
    requires forall i :: 0 <= i < |requests| ==> |requests[i].id| == |id|
    ensures LinesEqual(Split(Requested("", requests)), Marker(id)) == 1
  {
    OneBlockUnlessHidden(requests, id);
  }
}
