/** String operations of the platforms the sources run on: trimming and splitting. */
module Text {

  datatype Platform = JavaScript | Rust

  /** What `trim` removes: JavaScript's white space and line terminators, or Rust's White_Space property. */
  predicate IsSpace(c: char, on: Platform) {
    || c in {' ', '\t', '\n', '\r', '\U{000B}', '\U{000C}', '\U{00A0}', '\U{1680}', '\U{2028}', '\U{2029}',
             '\U{202F}', '\U{205F}', '\U{3000}'}
    || '\U{2000}' <= c <= '\U{200A}'
    || (if on == JavaScript then c == '\U{FEFF}' else c == '\U{0085}')
  }

  /** The two platforms differ on two characters: the byte order mark and the next-line control. */
  lemma PlatformsDiffer(c: char)
    ensures IsSpace(c, JavaScript) != IsSpace(c, Rust) <==> c in {'\U{FEFF}', '\U{0085}'}
    ensures IsSpace('\U{FEFF}', JavaScript) && IsSpace('\U{0085}', Rust)
  {}

  function TrimStart(s: string, on: Platform): string {
    if s != "" && IsSpace(s[0], on) then TrimStart(s[1..], on) else s
  }

  function TrimEnd(s: string, on: Platform): string {
    if s != "" && IsSpace(s[|s| - 1], on) then TrimEnd(s[..|s| - 1], on) else s
  }

  function Trim(s: string, on: Platform): string {
    TrimEnd(TrimStart(s, on), on)
  }

  lemma {:induction false} TrimEndIsPrefix(s: string, on: Platform)
    ensures TrimEnd(s, on) <= s
    ensures TrimEnd(s, on) != "" ==> !IsSpace(TrimEnd(s, on)[|TrimEnd(s, on)| - 1], on)
    ensures forall i :: |TrimEnd(s, on)| <= i < |s| ==> IsSpace(s[i], on)
  {
    if s != "" && IsSpace(s[|s| - 1], on) {
      TrimEndIsPrefix(s[..|s| - 1], on);
    }
  }

  /** Trimming the end of a concatenation stops inside the second part, unless that part is blank. */
  lemma {:induction false} TrimEndConcat(a: string, b: string, on: Platform)
    ensures TrimEnd(a + b, on) == if TrimEnd(b, on) == "" then TrimEnd(a, on) else a + TrimEnd(b, on)
    decreases |b|
  {
    if b == "" {
      assert a + b == a;
    } else if IsSpace(b[|b| - 1], on) {
      TrimEndConcat(a, b[..|b| - 1], on);
      assert (a + b)[..|a + b| - 1] == a + b[..|b| - 1];
    }
  }

  lemma {:induction false} TrimStartCommutes(s: string, on: Platform)
    ensures TrimStart(TrimEnd(s, on), on) == TrimEnd(TrimStart(s, on), on)
  {
    if s != "" && IsSpace(s[0], on) {
      TrimStartCommutes(s[1..], on);
      TrimEndConcat(s[..1], s[1..], on);
      assert s == s[..1] + s[1..];
      assert TrimEnd(s[..1], on) == TrimEnd("", on) == "";
      if TrimEnd(s[1..], on) != "" {
        assert TrimEnd(s, on)[1..] == TrimEnd(s[1..], on);
      }
    } else {
      TrimEndIsPrefix(s, on);
    }
  }

  lemma TrimAbsorbs(s: string, on: Platform)
    ensures Trim(TrimEnd(s, on), on) == Trim(s, on)
  {
    TrimStartCommutes(s, on);
    TrimEndIsPrefix(TrimStart(s, on), on);
  }

  lemma {:induction false} TrimStartIsSuffix(s: string, on: Platform)
    ensures |TrimStart(s, on)| <= |s| && TrimStart(s, on) == s[|s| - |TrimStart(s, on)|..]
    ensures TrimStart(s, on) != "" ==> !IsSpace(TrimStart(s, on)[0], on)
  {
    if s != "" && IsSpace(s[0], on) {
      TrimStartIsSuffix(s[1..], on);
    }
  }

  /** Trimmed text is fixed exactly when it has no white space at either end. */
  lemma TrimFixesIff(s: string, on: Platform)
    ensures |Trim(s, on)| <= |s|
    ensures Trim(s, on) == s <==> s == "" || (!IsSpace(s[0], on) && !IsSpace(s[|s| - 1], on))
    ensures Trim(s, on) != s ==> |Trim(s, on)| < |s|
    ensures forall c :: c in Trim(s, on) ==> c in s
  {
    TrimStartIsSuffix(s, on);
    TrimEndIsPrefix(TrimStart(s, on), on);
  }

  function Spaces(n: nat): (s: string)
    ensures |s| == n && forall i :: 0 <= i < n ==> s[i] == ' '
  {
    seq(n, _ => ' ')
  }

  lemma {:induction false} TrimStartSpaces(n: nat, t: string, on: Platform)
    requires t == "" || !IsSpace(t[0], on)
    ensures TrimStart(Spaces(n) + t, on) == t
  {
    if n == 0 {
      assert Spaces(0) + t == t;
    } else {
      TrimStartSpaces(n - 1, t, on);
      assert (Spaces(n) + t)[1..] == Spaces(n - 1) + t;
    }
  }

  // ---------- lines ----------

  /** `split('\n')`. */
  function Split(s: string): (lines: seq<string>)
    ensures lines != []
  {
    if s == "" then [""]
    else
      var rest := Split(s[1..]);
      if s[0] == '\n' then [""] + rest else [[s[0]] + rest[0]] + rest[1..]
  }

  lemma {:induction false} SplitPieces(s: string)
    ensures forall l :: l in Split(s) ==> '\n' !in l
  {
    if s != "" {
      SplitPieces(s[1..]);
    }
  }

  lemma {:induction false} SplitFirst(line: string, rest: string)
    requires '\n' !in line
    ensures Split(line + "\n" + rest) == [line] + Split(rest)
  {
    var s := line + "\n" + rest;
    if line == "" {
      assert s[1..] == rest;
    } else {
      SplitFirst(line[1..], rest);
      assert s[1..] == line[1..] + "\n" + rest;
      assert [line[0]] + line[1..] == line;
    }
  }

  /** Every line followed by a line feed. */
  function Unlines(lines: seq<string>): string {
    if lines == [] then "" else lines[0] + "\n" + Unlines(lines[1..])
  }

  lemma {:induction false} SplitUnlines(lines: seq<string>)
    requires forall l :: l in lines ==> '\n' !in l
    ensures Split(Unlines(lines)) == lines + [""]
  {
    if lines != [] {
      SplitFirst(lines[0], Unlines(lines[1..]));
      SplitUnlines(lines[1..]);
      assert lines == [lines[0]] + lines[1..];
    }
  }
}
