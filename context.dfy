/**
 * The context builder (go.py): walks the directory tree below ".", writes a
 * tree listing of the relevant files, then a fenced block with the text of
 * each source or configuration file, into context_output.txt.
 */
module Context {
  import Text
  import Sorting

  const ScriptFilename: string := "go.py"
  const OutputFilename: string := "context_output.txt"

  const IgnoreDirs: set<string> := {".venv", ".git", "__pycache__"}
  const IgnoreFilePatterns: set<string> := {"~", ".swp", ".DS_Store"}

  /** The extensions is_relevant_file accepts. */
  const ValidExts: set<string> := {
    ".py", ".go", ".csv", ".parquet", ".yaml", ".yml", ".env",
    ".safetensors", ".pt", ".json", ".cu", ".cuh", ".npz"}

  /** Endings whose files are listed but never dumped. */
  const SkipContentExts: set<string> := {".csv", ".csv.gz", ".parquet", ".npz"}

  /** Endings whose files are dumped in full. */
  const FullReadExts: set<string> :=
    {".py", ".go", ".yaml", ".yml", ".env", ".cu", ".cuh", ".safetensors", ".pt", ".json"}

  /** get_language_identifier's table, with "" for extensions it lacks. */
  function Tag(ext: string): string
  {
    if ext == ".py" then "python"
    else if ext == ".yaml" || ext == ".yml" then "yaml"
    else if ext == ".env" then "bash"
    else if ext == ".csv" then "csv"
    else if ext == ".go" then "go"
    else if ext == ".js" then "javascript"
    else if ext == ".ts" then "typescript"
    else if ext == ".java" then "java"
    else if ext == ".cpp" || ext == ".cc" || ext == ".cxx" then "cpp"
    else if ext == ".c" then "c"
    else if ext == ".cs" then "csharp"
    else if ext == ".rb" then "ruby"
    else if ext == ".php" then "php"
    else if ext == ".swift" then "swift"
    else if ext == ".rs" then "rust"
    else if ext == ".sh" then "bash"
    else if ext == ".sql" then "sql"
    else if ext == ".json" then "json"
    else if ext == ".xml" then "xml"
    else if ext == ".html" then "html"
    else if ext == ".css" then "css"
    else if ext == ".md" then "markdown"
    else if ext == ".cu" || ext == ".cuh" then "cpp"
    else if ext == ".npz" then "text"
    else ""
  }

  // ---------------------------------------------------------------------
  // Python string helpers
  // ---------------------------------------------------------------------

  function LowerChar(c: char): char
  {
    if 'A' <= c <= 'Z' then (c as int + 32) as char else c
  }

  /** str.lower on ASCII letters. */
  function Lower(s: string): (r: string)
    ensures |r| == |s|
  {
    seq(|s|, i requires 0 <= i < |s| => LowerChar(s[i]))
  }

  lemma LowerAppend(a: string, b: string)
    ensures Lower(a + b) == Lower(a) + Lower(b)
  {
  }

  /** str.endswith. */
  predicate EndsWith(s: string, suffix: string)
  {
    |suffix| <= |s| && s[|s| - |suffix|..] == suffix
  }

  /** str.startswith. */
  predicate StartsWith(s: string, prefix: string)
  {
    |prefix| <= |s| && s[..|prefix|] == prefix
  }

  /** `sub in s` for strings. */
  predicate Contains(s: string, sub: string)
  {
    exists i :: 0 <= i <= |s| - |sub| && OccursAt(s, sub, i)
  }

  predicate OccursAt(s: string, sub: string, i: int)
    requires 0 <= i <= |s| - |sub|
  {
    s[i..i + |sub|] == sub
  }

  lemma EndsWithContains(s: string, suffix: string)
    requires EndsWith(s, suffix)
    ensures Contains(s, suffix)
  {
    assert OccursAt(s, suffix, |s| - |suffix|);
  }

  /** The last index of c in s, or -1 (str.rfind). */
  function RFind(s: string, c: char): (r: int)
    ensures -1 <= r < |s|
    ensures r >= 0 ==> s[r] == c
  {
    if s == [] then -1
    else if s[|s| - 1] == c then |s| - 1
    else RFind(s[..|s| - 1], c)
  }

  /** Nothing after the last occurrence is c. */
  lemma {:induction false} RFindLast(s: string, c: char)
    ensures forall k :: RFind(s, c) < k < |s| ==> s[k] != c
  {
    if s != [] && s[|s| - 1] != c {
      RFindLast(s[..|s| - 1], c);
    }
  }

  /** os.path.splitext on '/'-separated paths: the extension is the text
      from the last '.' of the last component, unless that component has
      nothing but dots before it (so ".env" has no extension). */
  function SplitExt(p: string): (r: (string, string))
    ensures r.0 + r.1 == p
  {
    var sepIndex, dotIndex := RFind(p, '/'), RFind(p, '.');
    if dotIndex > sepIndex && !AllDots(p[sepIndex + 1..dotIndex]) then
      (p[..dotIndex], p[dotIndex..])
    else
      (p, "")
  }

  /** An extension is a '.' and then neither '.' nor '/'. */
  lemma ExtShape(p: string)
    ensures SplitExt(p).1 == "" || ExtLike(SplitExt(p).1)
  {
    var sepIndex, dotIndex := RFind(p, '/'), RFind(p, '.');
    if dotIndex > sepIndex && !AllDots(p[sepIndex + 1..dotIndex]) {
      assert SplitExt(p).1 == p[dotIndex..];
      RFindLast(p, '/');
      RFindLast(p, '.');
      TailIsExt(p, dotIndex);
    }
  }

  lemma TailIsExt(p: string, i: nat)
    requires i < |p| && p[i] == '.'
    requires forall k :: i < k < |p| ==> p[k] != '.' && p[k] != '/'
    ensures ExtLike(p[i..])
  {
    var e := p[i..];
    forall k | 1 <= k < |e| ensures e[k] != '.' && e[k] != '/' {
      assert e[k] == p[i + k];
    }
  }

  predicate AllDots(s: string)
  {
    forall k :: 0 <= k < |s| ==> s[k] == '.'
  }

  function ExtOf(p: string): string
  {
    SplitExt(p).1
  }

  /** A non-empty extension is how the path ends. */
  lemma ExtEnds(p: string)
    ensures EndsWith(p, ExtOf(p))
  {
    var (root, ext) := SplitExt(p);
    assert p == root + ext;
    assert p[|p| - |ext|..] == ext;
  }

  /** An extension: a '.' and then neither '.' nor '/'. */
  predicate ExtLike(e: string)
  {
    |e| >= 1 && e[0] == '.' && forall k :: 1 <= k < |e| ==> e[k] != '.' && e[k] != '/'
  }

  /** Appending an extension to a name that has a character other than '.'
      after its last '/' makes it the name's extension. */
  lemma ExtOfAppended(p: string, e: string)
    requires ExtLike(e)
    requires !AllDots(p[RFind(p, '/') + 1..])
    ensures SplitExt(p + e) == (p, e)
  {
    var q := p + e;
    var sepP := RFind(p, '/');
    FindsInAppended(p, e);
    NotAllDotsPrefix(p, q, sepP + 1);
    assert q[..|p|] == p && q[|p|..] == e;
  }

  lemma FindsInAppended(p: string, e: string)
    requires ExtLike(e)
    ensures RFind(p + e, '.') == |p|
    ensures RFind(p + e, '/') == RFind(p, '/')
  {
    var q := p + e;
    forall j | |p| < j < |q| ensures q[j] != '.' && q[j] != '/' {
      assert q[j] == e[j - |p|];
    }
    RFindAt(q, '.', |p|);
    assert q[..|p|] == p;
    RFindPast(p, q, '/');
  }

  lemma NotAllDotsPrefix(p: string, q: string, i: int)
    requires 0 <= i <= |p| <= |q| && q[..|p|] == p
    requires !AllDots(p[i..])
    ensures !AllDots(q[i..|p|])
  {
    assert q[i..|p|] == p[i..];
  }

  /** The last occurrence of c is at i when nothing after i is c. */
  lemma {:induction false} RFindAt(s: string, c: char, i: int)
    requires 0 <= i < |s| && s[i] == c
    requires forall j :: i < j < |s| ==> s[j] != c
    ensures RFind(s, c) == i
  {
    if i < |s| - 1 {
      RFindAt(s[..|s| - 1], c, i);
    }
  }

  /** Text free of c appended after p leaves the last c where it was. */
  lemma {:induction false} RFindPast(p: string, q: string, c: char)
    requires |p| <= |q| && q[..|p|] == p
    requires forall j :: |p| <= j < |q| ==> q[j] != c
    ensures RFind(q, c) == RFind(p, c)
  {
    if |q| > |p| {
      RFindPast(p, q[..|q| - 1], c);
    } else {
      assert q == p;
    }
  }

  // ---------------------------------------------------------------------
  // Paths: pathlib names and os.path.join
  // ---------------------------------------------------------------------

  /** The components pathlib keeps: the '/'-separated pieces without the
      empty ones and ".". */
  function Components(p: string): (cs: seq<string>)
    ensures forall c :: c in cs ==> c != "" && c != "." && '/' !in c
  {
    KeepNamed(Text.Split(p, '/'))
  }

  function KeepNamed(parts: seq<string>): (cs: seq<string>)
    requires forall c :: c in parts ==> '/' !in c
    ensures forall c :: c in cs ==> c != "" && c != "." && '/' !in c
  {
    if parts == [] then []
    else
      var init, last := parts[..|parts| - 1], parts[|parts| - 1];
      KeepNamed(init) + (if last == "" || last == "." then [] else [last])
  }

  /** Path(p).name: the last component, or "". */
  function Name(p: string): string
  {
    var cs := Components(p);
    if cs == [] then "" else cs[|cs| - 1]
  }

  /** Path(p).parent.name: the component before the last, or "". */
  function ParentName(p: string): string
  {
    var cs := Components(p);
    if |cs| < 2 then "" else cs[|cs| - 2]
  }

  /** os.path.join(a, b). */
  function PyJoin(a: string, b: string): string
  {
    if StartsWith(b, "/") then b
    else if a == "" || EndsWith(a, "/") then a + b
    else a + "/" + b
  }

  /** A directory or file name as os.walk lists it. */
  predicate PlainName(d: string)
  {
    d != "" && d != "." && '/' !in d
  }

  /** Adding "/d" to a path adds the component d. */
  lemma ComponentsJoin(root: string, d: string)
    requires PlainName(d)
    ensures Components(root + "/" + d) == Components(root) + [d]
  {
    Text.SplitAppend(root, d, '/');
    var parts := Text.Split(root, '/');
    var ps := parts + [d];
    assert ps[..|ps| - 1] == parts;
  }

  /** is_date_subdir: a "d=..." directory directly under a "bars_*" or
      "btc_parquet_clean" directory. */
  predicate IsDateSubdir(path: string)
  {
    StartsWith(Name(path), "d=") &&
    (StartsWith(ParentName(path), "bars_") || ParentName(path) == "btc_parquet_clean")
  }

  /** For a subdirectory d of root, the test reads d's name and root's last
      component. */
  lemma DateSubdirOfJoin(root: string, d: string)
    requires PlainName(d) && root != "" && !EndsWith(root, "/")
    ensures IsDateSubdir(PyJoin(root, d)) <==>
      StartsWith(d, "d=") && (StartsWith(Name(root), "bars_") || Name(root) == "btc_parquet_clean")
  {
    NamesOfJoin(root, d);
  }

  lemma NamesOfJoin(root: string, d: string)
    requires PlainName(d) && root != "" && !EndsWith(root, "/")
    ensures PyJoin(root, d) == root + "/" + d
    ensures Name(PyJoin(root, d)) == d && ParentName(PyJoin(root, d)) == Name(root)
  {
    assert d[0] in d;
    ComponentsJoin(root, d);
  }

  // ---------------------------------------------------------------------
  // is_relevant_file, get_language_identifier, the content rule
  // ---------------------------------------------------------------------

  /** is_relevant_file: not this script, not the output, no temporary-file
      pattern anywhere in the name, and a ".csv.gz" ending or one of the
      listed extensions, case-insensitively. */
  predicate IsRelevantFile(name: string)
  {
    name != ScriptFilename && name != OutputFilename &&
    (forall pat :: pat in IgnoreFilePatterns ==> !Contains(name, pat)) &&
    (EndsWith(Lower(name), ".csv.gz") || ExtOf(Lower(name)) in ValidExts)
  }

  /** get_language_identifier: the tag of the extension, looked up past one
      trailing ".gz", or "" for an extension the table does not have. */
  function LanguageIdentifier(filename: string): string
  {
    Tag(TagExt(filename))
  }

  /** The extension the tag is looked up by. */
  function TagExt(filename: string): string
  {
    var lower := Lower(filename);
    if EndsWith(lower, ".gz") then ExtOf(SplitExt(lower).0) else ExtOf(lower)
  }

  /** A name that does not end in ".gz" and has more than dots in its last
      component gets the same tag with ".gz" appended. */
  lemma LanguageStripsGz(name: string)
    requires !EndsWith(Lower(name), ".gz")
    requires !AllDots(Lower(name)[RFind(Lower(name), '/') + 1..])
    ensures TagExt(name + ".gz") == TagExt(name)
  {
    var lower := Lower(name);
    LowerGz(name);
    assert ExtLike(".gz");
    ExtOfAppended(lower, ".gz");
    assert EndsWith(lower + ".gz", ".gz");
  }

  lemma LowerGz(name: string)
    ensures Lower(name + ".gz") == Lower(name) + ".gz"
  {
    LowerAppend(name, ".gz");
    assert Lower(".gz") == ".gz";
  }

  /** A name that is a leading dot and a word has no extension, so ".env"
      is not relevant. */
  lemma DotEnvIsNotRelevant()
    ensures ExtOf(".env") == "" && !IsRelevantFile(".env")
  {
    RFindAbsent(".env", '/');
    RFindAt(".env", '.', 0);
    assert Lower(".env") == ".env";
  }

  /** With a word before the dot, ".env" is the extension. */
  lemma NamedEnvExt()
    ensures ExtOf("prod.env") == ".env"
  {
    RFindAbsent("prod.env", '/');
    RFindAt("prod.env", '.', 4);
    assert "prod.env"[0..4] == "prod";
    assert "prod"[0] == 'p';
  }

  lemma {:induction false} RFindAbsent(s: string, c: char)
    requires c !in s
    ensures RFind(s, c) == -1
  {
    if s != [] {
      assert s[|s| - 1] in s;
      var t := s[..|s| - 1];
      assert c !in t by {
        forall k | 0 <= k < |t| ensures t[k] != c {
          assert t[k] == s[k] && s[k] in s;
        }
      }
      RFindAbsent(s[..|s| - 1], c);
    }
  }

  /** Listed files whose content is never written. */
  predicate SkipsContent(path: string)
  {
    exists e :: e in SkipContentExts && EndsWith(Lower(path), e)
  }

  /** Files whose content is written in full. */
  predicate ReadsFull(path: string)
  {
    exists e :: e in FullReadExts && EndsWith(Lower(path), e)
  }

  /** Whether the second pass writes a block for the path. */
  predicate GetsBlock(path: string)
  {
    !SkipsContent(path) && ReadsFull(path)
  }

  lemma EndsWithAppend(a: string, b: string, suffix: string)
    requires EndsWith(b, suffix)
    ensures EndsWith(a + b, suffix)
  {
    assert (a + b)[|a + b| - |suffix|..] == b[|b| - |suffix|..];
  }

  /** Every relevant file either is skipped in the second pass (.csv,
      .csv.gz, .parquet, .npz) or is read in full: the "not read in full"
      exit of that pass is never taken for a listed file. */
  lemma RelevantIsSkippedOrRead(root: string, f: string)
    requires IsRelevantFile(f) && PlainName(f) && root != "" && !EndsWith(root, "/")
    ensures SkipsContent(PyJoin(root, f)) || ReadsFull(PyJoin(root, f))
    ensures GetsBlock(PyJoin(root, f)) <==> !SkipsContent(PyJoin(root, f))
  {
    NamesOfJoin(root, f);
    var path := root + "/" + f;
    LowerAppend(root + "/", f);
    var lf := Lower(f);
    if EndsWith(lf, ".csv.gz") {
      EndsWithAppend(Lower(root + "/"), lf, ".csv.gz");
      assert ".csv.gz" in SkipContentExts;
    } else {
      var ext := ExtOf(lf);
      ExtEnds(lf);
      EndsWithAppend(Lower(root + "/"), lf, ext);
      assert ext in ValidExts;
      assert ValidExts <= SkipContentExts + FullReadExts;
    }
  }

  // ---------------------------------------------------------------------
  // Depth and tree lines
  // ---------------------------------------------------------------------

  function Count(s: string, c: char): nat
  {
    if s == [] then 0 else Count(s[..|s| - 1], c) + (if s[|s| - 1] == c then 1 else 0)
  }

  /** os.path.relpath(p, "."), for paths below "." without ".." parts. */
  function RelPath(p: string): string
  {
    var cs := Components(p);
    if cs == [] then "." else Text.JoinWith(cs, '/')
  }

  /** The indentation level of a walked directory: 0 for the root, else one
      more than the number of separators in its relative path. */
  function Depth(root: string): nat
  {
    var rel := RelPath(root);
    if rel == "." then 0 else Count(rel, '/') + 1
  }

  /** The depth is the number of path components below ".". */
  lemma DepthIsComponents(root: string)
    ensures Depth(root) == |Components(root)|
  {
    var cs := Components(root);
    if cs != [] {
      CountJoin(cs);
      if |cs| == 1 {
        assert cs[0] in cs;
        assert Text.JoinWith(cs, '/') == cs[0];
      } else {
        assert Count(".", '/') == 0;
      }
    }
  }

  lemma {:induction false} CountJoin(cs: seq<string>)
    requires |cs| >= 1 && forall c :: c in cs ==> '/' !in c
    ensures Count(Text.JoinWith(cs, '/'), '/') == |cs| - 1
  {
    if |cs| == 1 {
      CountNone(cs[0], '/');
    } else {
      var init, last := cs[..|cs| - 1], cs[|cs| - 1];
      assert forall c :: c in init ==> c in cs;
      CountJoin(init);
      CountAppend(Text.JoinWith(init, '/') + ['/'], last, '/');
      CountAppend(Text.JoinWith(init, '/'), ['/'], '/');
      CountNone(last, '/');
      assert Count(['/'], '/') == 1 by {
        assert ['/'][..0] == [];
      }
    }
  }

  lemma {:induction false} CountNone(s: string, c: char)
    requires c !in s
    ensures Count(s, c) == 0
  {
    if s != [] {
      assert s[|s| - 1] in s;
      var t := s[..|s| - 1];
      assert c !in t by {
        forall k | 0 <= k < |t| ensures t[k] != c {
          assert t[k] == s[k] && s[k] in s;
        }
      }
      CountNone(t, c);
    }
  }

  lemma {:induction false} CountAppend(a: string, b: string, c: char)
    ensures Count(a + b, c) == Count(a, c) + Count(b, c)
  {
    if b != [] {
      assert (a + b)[..|a + b| - 1] == a + b[..|b| - 1];
      CountAppend(a, b[..|b| - 1], c);
    } else {
      assert a + b == a;
    }
  }

  /** A subdirectory's entries are indented one level deeper. */
  lemma DepthOfChild(root: string, d: string)
    requires PlainName(d) && root != "" && !EndsWith(root, "/")
    ensures Depth(PyJoin(root, d)) == Depth(root) + 1
  {
    NamesOfJoin(root, d);
    ComponentsJoin(root, d);
    DepthIsComponents(root);
    DepthIsComponents(root + "/" + d);
  }

  /** One line of the tree: 4 spaces per level, "|-- ", the name, and "/"
      after a directory's name. */
  function TreeLine(depth: nat, name: string, isDir: bool): string
  {
    Text.Repeat(' ', 4 * depth) + "|-- " + name + (if isDir then "/" else "") + "\n"
  }

  function LeadingSpaces(s: string): (n: nat)
    ensures n <= |s|
  {
    if s != [] && s[0] == ' ' then 1 + LeadingSpaces(s[1..]) else 0
  }

  /** Reads a tree line back: its depth, name and whether it is a
      directory. */
  function ParseTreeLine(line: string): Text.Option<(nat, string, bool)>
  {
    var n := LeadingSpaces(line);
    if n % 4 != 0 || |line| < n + 5 || line[n..n + 4] != "|-- " || line[|line| - 1] != '\n' then
      Text.None
    else
      var body := line[n + 4..|line| - 1];
      if body != "" && body[|body| - 1] == '/' then Text.Some((n / 4, body[..|body| - 1], true))
      else Text.Some((n / 4, body, false))
  }

  /** A tree line of a name without '/' reads back as what was written. */
  lemma TreeLineRoundTrip(depth: nat, name: string, isDir: bool)
    requires '/' !in name
    ensures ParseTreeLine(TreeLine(depth, name, isDir)) == Text.Some((depth, name, isDir))
  {
    var body := name + (if isDir then "/" else "");
    ParseFramed(depth, body);
    assert TreeLine(depth, name, isDir) == Text.Repeat(' ', 4 * depth) + "|-- " + body + "\n";
    if isDir {
      assert body[..|body| - 1] == name;
    } else {
      assert body == name;
      if body != "" {
        assert body[|body| - 1] in name;
      }
    }
  }

  lemma ParseFramed(depth: nat, body: string)
    ensures ParseTreeLine(Text.Repeat(' ', 4 * depth) + "|-- " + body + "\n") ==
      if body != "" && body[|body| - 1] == '/' then Text.Some((depth, body[..|body| - 1], true))
      else Text.Some((depth, body, false))
  {
    var n := 4 * depth;
    FramedLine(n, body);
    var line := Text.Repeat(' ', n) + "|-- " + body + "\n";
    assert n % 4 == 0 && n / 4 == depth;
    assert line[n + 4..|line| - 1] == body;
  }

  lemma FramedLine(n: nat, body: string)
    ensures var line := Text.Repeat(' ', n) + "|-- " + body + "\n";
      LeadingSpaces(line) == n && |line| == n + 5 + |body| && line[n..n + 4] == "|-- " &&
      line[n + 4..|line| - 1] == body && line[|line| - 1] == '\n'
  {
    var rest := "|-- " + body + "\n";
    LeadingSpacesOf(n, rest);
    assert Text.Repeat(' ', n) + "|-- " + body + "\n" == Text.Repeat(' ', n) + rest;
  }

  lemma {:induction false} LeadingSpacesOf(k: nat, rest: string)
    requires rest != [] && rest[0] != ' '
    ensures LeadingSpaces(Text.Repeat(' ', k) + rest) == k
  {
    if k > 0 {
      var s := Text.Repeat(' ', k) + rest;
      assert s[1..] == Text.Repeat(' ', k - 1) + rest;
      LeadingSpacesOf(k - 1, rest);
    }
  }

  // ---------------------------------------------------------------------
  // Content blocks
  // ---------------------------------------------------------------------

  /** The text between the fences: the content, and a newline when it is
      not empty and does not end in one. */
  function Fenced(content: string): (r: string)
    ensures r == "" || r[|r| - 1] == '\n'
    ensures |content| <= |r| <= |content| + 1 && r[..|content|] == content
    ensures (content == "" || content[|content| - 1] == '\n') ==> r == content
  {
    if content != "" && content[|content| - 1] != '\n' then content + "\n" else content
  }

  /** The block for one file. */
  function Block(rel: string, lang: string, content: string): string
  {
    "// --- File: " + rel + " ---\n\n" + "```" + lang + "\n" + Fenced(content) +
    "```\n\n" + "// --- End File: " + rel + " ---\n\n"
  }

  /** The closing fence of a block starts a line of its own, right after
      the content. */
  lemma BlockFence(rel: string, lang: string, content: string)
    ensures var open := "// --- File: " + rel + " ---\n\n" + "```" + lang + "\n";
      var b := Block(rel, lang, content);
      var f := Fenced(content);
      b[..|open|] == open && b[|open|..|open| + |content|] == content &&
      b[|open| + |f|..|open| + |f| + 4] == "```\n" &&
      b[|open| + |f| - 1] == '\n'
  {
    var open := "// --- File: " + rel + " ---\n\n" + "```" + lang + "\n";
    var f := Fenced(content);
    var close := "```\n\n" + "// --- End File: " + rel + " ---\n\n";
    var b := Block(rel, lang, content);
    assert b == open + f + close;
    assert b[|open|..|open| + |content|] == f[..|content|];
    assert b[|open| + |f|..|open| + |f| + 4] == close[..4];
    if f == "" {
      assert open[|open| - 1] == '\n';
    }
  }

  // ---------------------------------------------------------------------
  // The walk: one os.walk step at a time
  // ---------------------------------------------------------------------

  /** One step of os.walk(".", topdown=True): a directory, and the names
      of its subdirectories and files as the file system lists them. */
  datatype WalkStep = WalkStep(root: string, dirs: seq<string>, files: seq<string>)

  /** A step as os.walk yields it: the root is "." or a path below it
      without a trailing '/', and every name is a single component. */
  predicate WellFormed(st: WalkStep)
  {
    st.root != "" && !EndsWith(st.root, "/") &&
    (forall d :: d in st.dirs ==> PlainName(d)) &&
    (forall f :: f in st.files ==> PlainName(f))
  }

  /** A subdirectory that is listed and descended into. */
  predicate KeepDir(root: string, d: string)
  {
    d !in IgnoreDirs && !IsDateSubdir(PyJoin(root, d))
  }

  /** The list comprehension that prunes the subdirectories. */
  function KeptDirs(root: string, dirs: seq<string>): (ks: seq<string>)
    ensures |ks| <= |dirs|
  {
    if dirs == [] then []
    else
      var init, d := dirs[..|dirs| - 1], dirs[|dirs| - 1];
      KeptDirs(root, init) + (if KeepDir(root, d) then [d] else [])
  }

  /** The kept subdirectories are exactly those that are neither ignored
      nor a date partition of a bars_* or btc_parquet_clean directory. */
  lemma {:induction false} KeptDirsAre(st: WalkStep)
    requires WellFormed(st)
    ensures forall d :: d in KeptDirs(st.root, st.dirs) <==>
      d in st.dirs && d !in IgnoreDirs &&
      !(StartsWith(d, "d=") && (StartsWith(Name(st.root), "bars_") || Name(st.root) == "btc_parquet_clean"))
  {
    forall d | d in st.dirs
      ensures IsDateSubdir(PyJoin(st.root, d)) <==>
        StartsWith(d, "d=") && (StartsWith(Name(st.root), "bars_") || Name(st.root) == "btc_parquet_clean")
    {
      DateSubdirOfJoin(st.root, d);
    }
    KeptDirsMembers(st.root, st.dirs);
  }

  lemma {:induction false} KeptDirsMembers(root: string, dirs: seq<string>)
    ensures forall d :: d in KeptDirs(root, dirs) <==> d in dirs && KeepDir(root, d)
  {
    if dirs != [] {
      var init := dirs[..|dirs| - 1];
      KeptDirsMembers(root, init);
      assert dirs == init + [dirs[|dirs| - 1]];
    }
  }

  /** Python's string order, on which dirs.sort() and files.sort() rely. */
  predicate NameLe(a: string, b: string)
  {
    Sorting.StrLe(a, b)
  }

  lemma NameLeOrder()
    ensures Sorting.TotalPreorder(NameLe)
  {
    forall a: string, b: string ensures NameLe(a, b) || NameLe(b, a) {
      Sorting.StrLeTotal(a, b);
    }
    forall a: string, b: string, c: string | NameLe(a, b) && NameLe(b, c) ensures NameLe(a, c) {
      Sorting.StrLeTrans(a, b, c);
    }
  }

  function SortedNames(names: seq<string>): seq<string>
  {
    NameLeOrder();
    Sorting.SortBy(names, NameLe)
  }

  /** The files listed, in the order given. */
  function Shown(files: seq<string>): seq<string>
  {
    if files == [] then []
    else
      var init, f := files[..|files| - 1], files[|files| - 1];
      Shown(init) + (if IsRelevantFile(f) then [f] else [])
  }

  /** The listed files are exactly the relevant ones. */
  lemma {:induction false} ShownAreRelevant(files: seq<string>)
    ensures forall f :: f in Shown(files) <==> f in files && IsRelevantFile(f)
  {
    if files != [] {
      var init, f := files[..|files| - 1], files[|files| - 1];
      ShownAreRelevant(init);
      assert files == init + [f];
    }
  }

  /** The tree lines of names at one depth. */
  function Lines(depth: nat, names: seq<string>, isDir: bool): string
  {
    if names == [] then ""
    else Lines(depth, names[..|names| - 1], isDir) + TreeLine(depth, names[|names| - 1], isDir)
  }

  /** The full paths of files under a root. */
  function Joined(root: string, names: seq<string>): (ps: seq<string>)
    ensures |ps| == |names|
  {
    if names == [] then []
    else Joined(root, names[..|names| - 1]) + [PyJoin(root, names[|names| - 1])]
  }

  lemma {:induction false} JoinedAt(root: string, names: seq<string>)
    ensures forall k :: 0 <= k < |names| ==> Joined(root, names)[k] == PyJoin(root, names[k])
  {
    if names != [] {
      JoinedAt(root, names[..|names| - 1]);
    }
  }

  lemma LinesSnoc(depth: nat, names: seq<string>, n: string, isDir: bool)
    ensures Lines(depth, names + [n], isDir) == Lines(depth, names, isDir) + TreeLine(depth, n, isDir)
  {
    assert (names + [n])[..|names|] == names;
  }

  lemma JoinedSnoc(root: string, names: seq<string>, n: string)
    ensures Joined(root, names + [n]) == Joined(root, names) + [PyJoin(root, n)]
  {
    assert (names + [n])[..|names|] == names;
  }

  lemma ShownSnoc(files: seq<string>, k: nat)
    requires k < |files|
    ensures Shown(files[..k + 1]) == Shown(files[..k]) + (if IsRelevantFile(files[k]) then [files[k]] else [])
  {
    assert files[..k + 1][..k] == files[..k];
  }

  lemma KeptSnoc(root: string, dirs: seq<string>, k: nat)
    requires k < |dirs|
    ensures KeptDirs(root, dirs[..k + 1]) == KeptDirs(root, dirs[..k]) + (if KeepDir(root, dirs[k]) then [dirs[k]] else [])
  {
    assert dirs[..k + 1][..k] == dirs[..k];
  }

  /** What one step adds to the tree: its kept subdirectories, then its
      listed files, both sorted, at the step's depth. */
  function StepListing(st: WalkStep): string
  {
    var depth := Depth(st.root);
    Lines(depth, SortedNames(KeptDirs(st.root, st.dirs)), true) +
    Lines(depth, Shown(SortedNames(st.files)), false)
  }

  /** The paths one step adds for the second pass. */
  function StepPaths(st: WalkStep): seq<string>
  {
    Joined(st.root, Shown(SortedNames(st.files)))
  }

  /** A step collects one path per relevant file, each naming that file in
      the step's directory. */
  lemma StepPathsAreRelevant(st: WalkStep)
    requires WellFormed(st)
    ensures |StepPaths(st)| == |Shown(SortedNames(st.files))|
    ensures forall p :: p in StepPaths(st) ==>
      Name(p) in st.files && IsRelevantFile(Name(p)) && (GetsBlock(p) <==> !SkipsContent(p))
  {
    var sorted := SortedNames(st.files);
    var shown := Shown(sorted);
    ShownAreRelevant(sorted);
    assert forall f :: f in sorted <==> f in st.files by {
      assert multiset(sorted) == multiset(st.files);
      forall f ensures f in sorted <==> f in st.files {
        assert f in sorted <==> f in multiset(sorted);
      }
    }
    JoinedAt(st.root, shown);
    forall p | p in StepPaths(st)
      ensures Name(p) in st.files && IsRelevantFile(Name(p)) && (GetsBlock(p) <==> !SkipsContent(p))
    {
      var k :| 0 <= k < |shown| && StepPaths(st)[k] == p;
      assert shown[k] in shown;
      NamesOfJoin(st.root, shown[k]);
      RelevantIsSkippedOrRead(st.root, shown[k]);
    }
  }

  /** Over the whole walk: every collected path names a relevant file, and
      it gets a content block exactly when its ending is not one of the
      skipped ones. */
  lemma {:induction false} AllPathsAreRelevant(steps: seq<WalkStep>)
    requires forall st :: st in steps ==> WellFormed(st)
    ensures forall p :: p in AllPaths(steps) ==>
      IsRelevantFile(Name(p)) && (GetsBlock(p) <==> !SkipsContent(p))
  {
    if steps != [] {
      var init, st := steps[..|steps| - 1], steps[|steps| - 1];
      assert forall s :: s in init ==> s in steps;
      AllPathsAreRelevant(init);
      StepPathsAreRelevant(st);
    }
  }

  function Listing(steps: seq<WalkStep>): string
  {
    if steps == [] then "" else Listing(steps[..|steps| - 1]) + StepListing(steps[|steps| - 1])
  }

  function AllPaths(steps: seq<WalkStep>): seq<string>
  {
    if steps == [] then [] else AllPaths(steps[..|steps| - 1]) + StepPaths(steps[|steps| - 1])
  }

  /** The second pass: one block per path that is not skipped and is read
      in full, with the content the file holds. */
  function Blocks(paths: seq<string>, contents: string -> string): string
  {
    if paths == [] then ""
    else
      var p := paths[|paths| - 1];
      Blocks(paths[..|paths| - 1], contents) +
      (if GetsBlock(p) then Block(RelPath(p), LanguageIdentifier(p), contents(p)) else "")
  }

  /** The whole of context_output.txt. */
  function Output(steps: seq<WalkStep>, contents: string -> string): string
  {
    "--- File Tree Structure ---\n" + Listing(steps) + "\n" + Blocks(AllPaths(steps), contents)
  }

  datatype ContextOutcome = CreateFailed | Written(text: string, relevant: seq<string>)

  /** The temporary-file test of the listing loop. */
  method IsTemp(f: string) returns (isTemp: bool)
    ensures isTemp <==> exists pat :: pat in IgnoreFilePatterns && EndsWith(f, pat)
  {
    isTemp := false;
    var left := IgnoreFilePatterns;
    while left != {}
      invariant left <= IgnoreFilePatterns
      invariant isTemp <==> exists pat :: pat in IgnoreFilePatterns - left && EndsWith(f, pat)
      decreases |left|
    {
      var pat :| pat in left;
      if EndsWith(f, pat) {
        isTemp := true;
      }
      left := left - {pat};
    }
  }

  /** The checks the listing loop makes before writing a file's line:
      not this script or the output, no temporary-file ending, and
      relevant. The first two are implied by is_relevant_file, whose
      substring test covers the ending test. */
  method ShowFile(f: string) returns (shown: bool)
    ensures shown <==> IsRelevantFile(f)
  {
    if f == ScriptFilename || f == OutputFilename {
      return false;
    }
    var isTemp := IsTemp(f);
    if isTemp {
      var pat :| pat in IgnoreFilePatterns && EndsWith(f, pat);
      EndsWithContains(f, pat);
      return false;
    }
    shown := IsRelevantFile(f);
  }

  /** The subdirectory loop: the lines of the kept subdirectories. */
  method DirLines(depth: nat, dirs: seq<string>) returns (listing: string)
    ensures listing == Lines(depth, dirs, true)
  {
    listing := "";
    for k := 0 to |dirs|
      invariant listing == Lines(depth, dirs[..k], true)
    {
      assert dirs[..k + 1] == dirs[..k] + [dirs[k]];
      LinesSnoc(depth, dirs[..k], dirs[k], true);
      listing := listing + TreeLine(depth, dirs[k], true);
    }
    assert dirs[..|dirs|] == dirs;
  }

  /** The file loop: a line and a collected path for each relevant file. */
  method FileLines(root: string, depth: nat, files: seq<string>)
    returns (listing: string, paths: seq<string>)
    ensures listing == Lines(depth, Shown(files), false)
    ensures paths == Joined(root, Shown(files))
  {
    listing := "";
    paths := [];
    for k := 0 to |files|
      invariant listing == Lines(depth, Shown(files[..k]), false)
      invariant paths == Joined(root, Shown(files[..k]))
    {
      var f := files[k];
      ShownSnoc(files, k);
      var shown := ShowFile(f);
      if shown {
        ghost var sofar := Shown(files[..k]);
        LinesSnoc(depth, sofar, f, false);
        JoinedSnoc(root, sofar, f);
        assert Shown(files[..k + 1]) == sofar + [f];
        listing := listing + TreeLine(depth, f, false);
        paths := paths + [PyJoin(root, f)];
      } else {
        assert Shown(files[..k + 1]) == Shown(files[..k]);
      }
    }
    assert files[..|files|] == files;
  }

  /** The body of the walk loop for one step: prune and sort the
      subdirectories, sort the files, then write their lines. */
  method ListStep(st: WalkStep) returns (listing: string, paths: seq<string>)
    ensures listing == StepListing(st) && paths == StepPaths(st)
  {
    var dirs: seq<string> := [];
    for k := 0 to |st.dirs|
      invariant dirs == KeptDirs(st.root, st.dirs[..k])
    {
      var d := st.dirs[k];
      KeptSnoc(st.root, st.dirs, k);
      if d !in IgnoreDirs && !IsDateSubdir(PyJoin(st.root, d)) {
        dirs := dirs + [d];
      }
    }
    assert st.dirs[..|st.dirs|] == st.dirs;
    dirs := SortedNames(dirs);
    var files := SortedNames(st.files);
    var depth := Depth(st.root);
    var dirText := DirLines(depth, dirs);
    var fileText;
    fileText, paths := FileLines(st.root, depth, files);
    listing := dirText + fileText;
  }

  lemma StepsSnoc(steps: seq<WalkStep>, i: nat)
    requires i < |steps|
    ensures Listing(steps[..i + 1]) == Listing(steps[..i]) + StepListing(steps[i])
    ensures AllPaths(steps[..i + 1]) == AllPaths(steps[..i]) + StepPaths(steps[i])
  {
    assert steps[..i + 1][..i] == steps[..i];
  }

  lemma BlocksSnoc(paths: seq<string>, k: nat, contents: string -> string)
    requires k < |paths|
    ensures Blocks(paths[..k + 1], contents) == Blocks(paths[..k], contents) +
      (if GetsBlock(paths[k]) then Block(RelPath(paths[k]), LanguageIdentifier(paths[k]), contents(paths[k])) else "")
  {
    assert paths[..k + 1][..k] == paths[..k];
  }

  /** The second pass over the collected paths. */
  method DumpContents(relevant: seq<string>, contents: string -> string) returns (text: string)
    ensures text == Blocks(relevant, contents)
  {
    text := "";
    for k := 0 to |relevant|
      invariant text == Blocks(relevant[..k], contents)
    {
      var path := relevant[k];
      BlocksSnoc(relevant, k, contents);
      if SkipsContent(path) {
        continue;
      }
      if !ReadsFull(path) {
        continue;
      }
      text := text + Block(RelPath(path), LanguageIdentifier(path), contents(path));
    }
    assert relevant[..|relevant|] == relevant;
  }

  /** main(): create the output, write the header and the tree while
      collecting the relevant paths, a blank line, then the content blocks. The walk's
      steps and the files' contents are inputs. */
  method BuildContext(canCreate: bool, steps: seq<WalkStep>, contents: string -> string)
    returns (out: ContextOutcome)
    ensures !canCreate <==> out == CreateFailed
    ensures canCreate ==> out == Written(Output(steps, contents), AllPaths(steps))
  {
    if !canCreate {
      return CreateFailed;
    }
    var tree := "";
    var relevant: seq<string> := [];
    for i := 0 to |steps|
      invariant tree == Listing(steps[..i])
      invariant relevant == AllPaths(steps[..i])
    {
      StepsSnoc(steps, i);
      var listing, paths := ListStep(steps[i]);
      tree := tree + listing;
      relevant := relevant + paths;
    }
    assert steps[..|steps|] == steps;
    var blocks := DumpContents(relevant, contents);
    out := Written("--- File Tree Structure ---\n" + tree + "\n" + blocks, relevant);
  }
}
