/**
 One command of a deployment script as shell words, and back.

 A command is its name, its options and its quoted paths: `rm -rf`, `mkdir -p`, `test -f`,
 `touch`, `cp`, `mv`, `tar -xzf .. -C ..` and `tar -cf .. -C .. .`.  A hash check compares the
 output of `sha256sum` and `cut` inside a substitution; a version check is a `grep` for a pattern
 in which only the dots of the version are escaped; a file is written by a `printf` of its lines
 into it, and a marker is a `printf` of one line.  The reading direction takes tokens apart by
 position and gives up on everything else.
 */
module CommandWords {
  import opened Wrappers
  import opened ShellWords
  import opened RemoteTree
  import opened DeployScripts

  // ---------------------------------------------------------------------------
  // Paths
  // ---------------------------------------------------------------------------

  function PathText(p: Path): string {
    if p == [] then "" else "/" + (p[0] + PathText(p[1..]))
  }

  /** The index of the first slash, or the length. */
  function ComponentEnd(s: string): (n: nat)
    ensures n <= |s|
  {
    if s == "" || s[0] == '/' then 0 else 1 + ComponentEnd(s[1..])
  }

  function ParsePath(s: string): Option<Path>
    decreases |s|
  {
    if s == "" then Some([])
    else if s[0] != '/' then None
    else
      var t := s[1..];
      var n := ComponentEnd(t);
      var rest := ParsePath(t[n..]);
      if rest.None? then None else Some([t[..n]] + rest.value)
  }

  predicate PlainComponent(c: string) {
    c != "" && forall i :: 0 <= i < |c| ==> c[i] != '/' && c[i] != NUL
  }

  predicate PlainPath(p: Path) {
    forall i :: 0 <= i < |p| ==> PlainComponent(p[i])
  }

  lemma {:induction false} ComponentEnds(c: string, rest: string)
    requires forall i :: 0 <= i < |c| ==> c[i] != '/'
    requires rest == "" || rest[0] == '/'
    ensures ComponentEnd(c + rest) == |c|
  {
    if c == "" {
      assert c + rest == rest;
    } else {
      assert (c + rest)[1..] == c[1..] + rest;
      ComponentEnds(c[1..], rest);
    }
  }

  lemma {:induction false} PathTextIsNulFree(p: Path)
    requires PlainPath(p)
    ensures NulFree(PathText(p))
    ensures PathText(p) == "" || PathText(p)[0] == '/'
  {
    if p != [] {
      PathTextIsNulFree(p[1..]);
      assert PlainComponent(p[0]);
    }
  }

  lemma ParseComponent(c: string, rest: string)
    requires PlainComponent(c) && (rest == "" || rest[0] == '/')
    requires ParsePath(rest).Some?
    ensures ParsePath("/" + (c + rest)) == Some([c] + ParsePath(rest).value)
  {
    var t := c + rest;
    ComponentEnds(c, rest);
    assert ("/" + t)[1..] == t;
    assert t[..|c|] == c && t[|c|..] == rest;
  }

  lemma {:induction false} PathRoundTrip(p: Path)
    requires PlainPath(p)
    ensures ParsePath(PathText(p)) == Some(p) && NulFree(PathText(p))
  {
    PathTextIsNulFree(p);
    if p != [] {
      PathRoundTrip(p[1..]);
      PathTextIsNulFree(p[1..]);
      ParseComponent(p[0], PathText(p[1..]));
      assert [p[0]] + p[1..] == p;
    }
  }

  // ---------------------------------------------------------------------------
  // Lines and versions
  // ---------------------------------------------------------------------------

  predicate IsLine(s: string) { '\n' !in s }

  function LineEnd(s: string): (n: nat)
    ensures n <= |s|
  {
    if s == "" || s[0] == '\n' then 0 else 1 + LineEnd(s[1..])
  }

  /** The lines of a text that ends with a newline. */
  function Lines(s: string): seq<string>
    decreases |s|
  {
    if s == "" then []
    else
      var n := LineEnd(s);
      [s[..n]] + if n == |s| then [] else Lines(s[n + 1..])
  }

  lemma {:induction false} LineEnds(line: string, rest: string)
    requires IsLine(line)
    ensures LineEnd(line + "\n" + rest) == |line|
  {
    var all := line + "\n" + rest;
    if line != "" {
      assert all[1..] == line[1..] + "\n" + rest;
      LineEnds(line[1..], rest);
    }
  }

  lemma {:induction false} LinesOfUnlines(lines: seq<string>)
    requires forall i :: 0 <= i < |lines| ==> IsLine(lines[i])
    ensures Lines(Unlines(lines)) == lines
  {
    if lines != [] {
      var rest := Unlines(lines[1..]);
      var all := lines[0] + "\n" + rest;
      assert Unlines(lines) == all;
      LineEnds(lines[0], rest);
      assert all[..|lines[0]|] == lines[0] && all[|lines[0]| + 1..] == rest;
      LinesOfUnlines(lines[1..]);
    }
  }

  /** `replaceAll(".", "\\.")`. */
  function EscapeDots(version: string): string {
    if version == "" then "" else (if version[0] == '.' then "\\." else [version[0]]) + EscapeDots(version[1..])
  }

  /** The string a pattern without operators stands for. */
  function UnescapeDots(pattern: string): Option<string> {
    if pattern == "" then Some("")
    else if pattern[0] == '\\' then
      if |pattern| < 2 || pattern[1] != '.' then None
      else
        var rest := UnescapeDots(pattern[2..]);
        if rest.None? then None else Some("." + rest.value)
    else if pattern[0] == '.' then None
    else
      var rest := UnescapeDots(pattern[1..]);
      if rest.None? then None else Some([pattern[0]] + rest.value)
  }

  predicate VersionText(version: string) {
    forall i :: 0 <= i < |version| ==> '0' <= version[i] <= '9' || version[i] == '.'
  }

  lemma VersionsAreText(version: string)
    requires IsVersion(version)
    ensures VersionText(version) && 5 <= |version| <= 29
  {
    var i, j :| 0 <= i < |version| && 0 <= j < |version| && SplitsAt(version, i, j);
    forall k | 0 <= k < |version|
      ensures '0' <= version[k] <= '9' || version[k] == '.'
    {
      if k < i {
        assert version[..i][k] == version[k];
      } else if i < k < j {
        assert version[i + 1..j][k - i - 1] == version[k];
      } else if j < k {
        assert version[j + 1..][k - j - 1] == version[k];
      }
    }
  }

  lemma {:induction false} DotsRoundTrip(version: string)
    requires VersionText(version)
    ensures UnescapeDots(EscapeDots(version)) == Some(version) && NulFree(EscapeDots(version))
  {
    if version != "" {
      DotsRoundTrip(version[1..]);
      var head := if version[0] == '.' then "\\." else [version[0]];
      assert EscapeDots(version)[|head|..] == EscapeDots(version[1..]);
      assert [version[0]] + version[1..] == version;
    }
  }

  const PATTERN_HEAD := "^version:[[:space:]]*\"?"
  const PATTERN_TAIL := "\"?[[:space:]]*$"

  function VersionPattern(version: string): string { PATTERN_HEAD + EscapeDots(version) + PATTERN_TAIL }

  function ParsePattern(pattern: string): Option<string> {
    if |pattern| < |PATTERN_HEAD| + |PATTERN_TAIL| || !(PATTERN_HEAD <= pattern)
       || pattern[|pattern| - |PATTERN_TAIL|..] != PATTERN_TAIL then None
    else UnescapeDots(pattern[|PATTERN_HEAD|..|pattern| - |PATTERN_TAIL|])
  }

  lemma InBetween(head: string, middle: string, tail: string)
    ensures var s := head + middle + tail;
            head <= s && s[|s| - |tail|..] == tail && s[|head|..|s| - |tail|] == middle
    ensures NulFree(head) && NulFree(middle) && NulFree(tail) ==> NulFree(head + middle + tail)
  {}

  lemma PatternIsNulFree()
    ensures NulFree(PATTERN_HEAD) && NulFree(PATTERN_TAIL)
  {}

  lemma PatternRoundTrip(version: string)
    requires VersionText(version)
    ensures ParsePattern(VersionPattern(version)) == Some(version) && NulFree(VersionPattern(version))
  {
    DotsRoundTrip(version);
    PatternIsNulFree();
    InBetween(PATTERN_HEAD, EscapeDots(version), PATTERN_TAIL);
  }

  // ---------------------------------------------------------------------------
  // Commands as words, and back
  // ---------------------------------------------------------------------------

  predicate PrintedLines(content: Content) { NulFree(content) && content == Unlines(Lines(content)) }

  /** The commands the builders write; a conditional one is spelled by the statement around it. */
  predicate Spelled(c: Command) {
    match c
    case HashCheck(p, sha) => PlainPath(p) && NulFree(sha)
    case GrepVersion(p, version) => PlainPath(p) && VersionText(version)
    case RmRf(p) => PlainPath(p)
    case MkdirP(p) => PlainPath(p)
    case TestFile(p) => PlainPath(p)
    case Touch(p) => PlainPath(p)
    case Untar(archive, dir) => PlainPath(archive) && PlainPath(dir)
    case TarDir(dir, archive) => PlainPath(dir) && PlainPath(archive)
    case Cp(from, to) => PlainPath(from) && PlainPath(to)
    case Mv(from, to) => PlainPath(from) && PlainPath(to)
    case WriteFile(p, content) => PlainPath(p) && PrintedLines(content)
    case Marker(text) => NulFree(text)
    case WhenDir(_, _) => false
  }

  function QuotedLines(lines: seq<string>): seq<Piece> {
    seq(|lines|, i requires 0 <= i < |lines| => Quoted(lines[i]))
  }

  function Pieces(c: Command): seq<Piece>
    requires Spelled(c)
  {
    match c
    case HashCheck(p, sha) =>
      [Bare("test"), Opening("sha256sum"), Quoted(PathText(p)), Piped, Bare("cut"), Closing("-c1-64"), Mark('='),
       Quoted(sha)]
    case GrepVersion(p, version) => [Bare("grep"), Bare("-Eq"), Quoted(VersionPattern(version)), Quoted(PathText(p))]
    case RmRf(p) => [Bare("rm"), Bare("-rf"), Quoted(PathText(p))]
    case MkdirP(p) => [Bare("mkdir"), Bare("-p"), Quoted(PathText(p))]
    case TestFile(p) => [Bare("test"), Bare("-f"), Quoted(PathText(p))]
    case Touch(p) => [Bare("touch"), Quoted(PathText(p))]
    case Untar(archive, dir) =>
      [Bare("tar"), Bare("-xzf"), Quoted(PathText(archive)), Bare("-C"), Quoted(PathText(dir))]
    case TarDir(dir, archive) =>
      [Bare("tar"), Bare("-cf"), Quoted(PathText(archive)), Bare("-C"), Quoted(PathText(dir)), Bare(".")]
    case Cp(from, to) => [Bare("cp"), Quoted(PathText(from)), Quoted(PathText(to))]
    case Mv(from, to) => [Bare("mv"), Quoted(PathText(from)), Quoted(PathText(to))]
    case WriteFile(p, content) =>
      [Bare("printf"), Quoted("%s\\n")] + QuotedLines(Lines(content)) + [Into, Quoted(PathText(p))]
    case Marker(text) => [Bare("printf"), Quoted(text + "\\n")]
  }

  function Texts(words: seq<Token>): Option<seq<string>> {
    if words == [] then Some([])
    else
      var rest := Texts(words[1..]);
      if !words[0].Word? || rest.None? then None else Some([words[0].text] + rest.value)
  }

  /** One path or two. */
  function PathArgument(words: seq<Token>, make: Path -> Command): Option<Command> {
    if |words| != 1 || !words[0].Word? then None
    else
      var p := ParsePath(words[0].text);
      if p.None? then None else Some(make(p.value))
  }

  function PathArguments(words: seq<Token>, make: (Path, Path) -> Command): Option<Command> {
    if |words| != 2 || !words[0].Word? || !words[1].Word? then None
    else
      var p, q := ParsePath(words[0].text), ParsePath(words[1].text);
      if p.None? || q.None? then None else Some(make(p.value, q.value))
  }

  /** The arguments of `test`: -f and a path, or the comparison of a file's hash. */
  function DecodeTest(words: seq<Token>): Option<Command> {
    if |words| == 2 && words[0] == Word("-f") then PathArgument(words[1..], p => TestFile(p))
    else if |words| == 9 && words[0] == OpenSubstitution && words[1] == Word("sha256sum") && words[3] == Pipe
            && words[4] == Word("cut") && words[5] == Word("-c1-64") && words[6] == CloseSubstitution
            && words[7] == Word("=") && words[8].Word? then
      PathArgument([words[2]], p => HashCheck(p, words[8].text))
    else None
  }

  function DecodeTar(words: seq<Token>): Option<Command> {
    if |words| == 4 && words[0] == Word("-xzf") && words[2] == Word("-C") then
      PathArguments([words[1], words[3]], (archive, dir) => Untar(archive, dir))
    else if |words| == 5 && words[0] == Word("-cf") && words[2] == Word("-C") && words[4] == Word(".") then
      PathArguments([words[3], words[1]], (dir, archive) => TarDir(dir, archive))
    else None
  }

  function DecodeGrep(words: seq<Token>): Option<Command> {
    if |words| != 3 || words[0] != Word("-Eq") || !words[1].Word? then None
    else
      var version := ParsePattern(words[1].text);
      if version.None? then None else PathArgument(words[2..], p => GrepVersion(p, version.value))
  }

  /** The arguments of `printf`: a marker, or lines that go to a file. */
  function DecodePrintf(words: seq<Token>): Option<Command> {
    var n := |words|;
    if n == 1 && words[0].Word? && |words[0].text| >= 2 && words[0].text[|words[0].text| - 2..] == "\\n" then
      Some(Marker(words[0].text[..|words[0].text| - 2]))
    else if n >= 3 && words[0] == Word("%s\\n") && words[n - 2] == Redirect then
      var lines := Texts(words[1..n - 2]);
      if lines.None? then None else PathArgument(words[n - 1..], p => WriteFile(p, Unlines(lines.value)))
    else None
  }

  function Decode(words: seq<Token>): Option<Command> {
    if words == [] || !words[0].Word? then None
    else
      var name, arguments := words[0].text, words[1..];
      if name == "test" then DecodeTest(arguments)
      else if name == "grep" then DecodeGrep(arguments)
      else if name == "tar" then DecodeTar(arguments)
      else if name == "printf" then DecodePrintf(arguments)
      else if name == "touch" then PathArgument(arguments, p => Touch(p))
      else if name == "cp" then PathArguments(arguments, (from, to) => Cp(from, to))
      else if name == "mv" then PathArguments(arguments, (from, to) => Mv(from, to))
      else if name == "rm" && arguments != [] && arguments[0] == Word("-rf") then
        PathArgument(arguments[1..], p => RmRf(p))
      else if name == "mkdir" && arguments != [] && arguments[0] == Word("-p") then
        PathArgument(arguments[1..], p => MkdirP(p))
      else None
  }

  // ---------------------------------------------------------------------------
  // Decoding a spelled command gives it back
  // ---------------------------------------------------------------------------

  lemma NamesAreLiteral()
    ensures LiteralText("rm") && LiteralText("mkdir") && LiteralText("test") && LiteralText("touch")
            && LiteralText("mv")
    ensures LiteralText("cp") && LiteralText("printf") && LiteralText("grep") && LiteralText("tar")
  {}

  lemma OptionsAreLiteral()
    ensures LiteralText("-rf") && LiteralText("-p") && LiteralText("-f") && LiteralText("-Eq")
    ensures LiteralText("-xzf") && LiteralText("-cf") && LiteralText("-C") && LiteralText(".")
  {}

  lemma HashWordsAreLiteral()
    ensures LiteralText("sha256sum") && LiteralText("cut") && LiteralText("-c1-64")
  {}

  lemma KeywordsAreLiteral()
    ensures LiteralText("if") && LiteralText("-d") && LiteralText("then") && LiteralText("fi")
  {}

  predicate AllValid(pieces: seq<Piece>) { forall i :: 0 <= i < |pieces| ==> ValidPiece(pieces[i]) }

  lemma {:induction false} LinesAreNulFree(lines: seq<string>)
    requires NulFree(Unlines(lines))
    ensures AllValid(QuotedLines(lines))
  {
    if lines != [] {
      var all, rest := Unlines(lines), Unlines(lines[1..]);
      assert all == lines[0] + "\n" + rest;
      assert forall i :: 0 <= i < |lines[0]| ==> all[i] == lines[0][i];
      assert forall i :: 0 <= i < |rest| ==> all[|lines[0]| + 1 + i] == rest[i];
      LinesAreNulFree(lines[1..]);
      assert forall i :: 1 <= i < |lines| ==> QuotedLines(lines)[i] == QuotedLines(lines[1..])[i - 1];
    }
  }

  lemma PathIsValid(p: Path)
    requires PlainPath(p)
    ensures ValidPiece(Quoted(PathText(p))) && ParsePath(PathText(p)) == Some(p)
  {
    PathRoundTrip(p);
  }

  lemma ThreePiecesAreValid(a: Piece, b: Piece, c: Piece)
    requires ValidPiece(a) && ValidPiece(b) && ValidPiece(c)
    ensures ValidCommand([a, b, c])
  {}

  lemma SixPiecesAreValid(a: Piece, b: Piece, c: Piece, d: Piece, e: Piece, f: Piece)
    requires ValidPiece(a) && ValidPiece(b) && ValidPiece(c) && ValidPiece(d) && ValidPiece(e) && ValidPiece(f)
    ensures ValidCommand([a, b, c, d, e]) && ValidCommand([a, b, c, d, e, f])
  {}

  lemma OptionIsValid(name: string, option: string, p: Path)
    requires LiteralText(name) && LiteralText(option) && PlainPath(p)
    ensures ValidCommand([Bare(name), Bare(option), Quoted(PathText(p))])
    ensures ValidCommand([Bare(name), Quoted(PathText(p))])
  {
    PathIsValid(p);
    ThreePiecesAreValid(Bare(name), Bare(option), Quoted(PathText(p)));
  }

  lemma OnePathIsValid(c: Command)
    requires Spelled(c) && (c.RmRf? || c.MkdirP? || c.TestFile? || c.Touch?)
    ensures ValidCommand(Pieces(c))
  {
    NamesAreLiteral();
    OptionsAreLiteral();
    match c {
      case RmRf(p) => OptionIsValid("rm", "-rf", p);
      case MkdirP(p) => OptionIsValid("mkdir", "-p", p);
      case TestFile(p) => OptionIsValid("test", "-f", p);
      case Touch(p) => OptionIsValid("touch", "-f", p);
    }
  }

  lemma PairIsValid(name: string, from: Path, to: Path)
    requires LiteralText(name) && PlainPath(from) && PlainPath(to)
    ensures ValidCommand([Bare(name), Quoted(PathText(from)), Quoted(PathText(to))])
  {
    PathIsValid(from);
    PathIsValid(to);
    ThreePiecesAreValid(Bare(name), Quoted(PathText(from)), Quoted(PathText(to)));
  }

  lemma ArchivingIsValid(option: string, archive: Path, dir: Path)
    requires LiteralText("tar") && LiteralText(option) && LiteralText("-C") && LiteralText(".")
    requires PlainPath(archive) && PlainPath(dir)
    ensures ValidCommand([Bare("tar"), Bare(option), Quoted(PathText(archive)), Bare("-C"), Quoted(PathText(dir))])
    ensures ValidCommand([Bare("tar"), Bare(option), Quoted(PathText(archive)), Bare("-C"), Quoted(PathText(dir)),
                          Bare(".")])
  {
    PathIsValid(archive);
    PathIsValid(dir);
    SixPiecesAreValid(Bare("tar"), Bare(option), Quoted(PathText(archive)), Bare("-C"), Quoted(PathText(dir)),
                      Bare("."));
  }

  lemma TwoPathsAreValid(c: Command)
    requires Spelled(c) && (c.Untar? || c.TarDir? || c.Cp? || c.Mv?)
    ensures ValidCommand(Pieces(c))
  {
    NamesAreLiteral();
    OptionsAreLiteral();
    match c {
      case Untar(archive, dir) => ArchivingIsValid("-xzf", archive, dir);
      case TarDir(dir, archive) => ArchivingIsValid("-cf", archive, dir);
      case Cp(from, to) => PairIsValid("cp", from, to);
      case Mv(from, to) => PairIsValid("mv", from, to);
    }
  }

  lemma WriteIsValid(p: Path, content: Content)
    requires Spelled(WriteFile(p, content))
    ensures ValidCommand(Pieces(WriteFile(p, content)))
  {
    NamesAreLiteral();
    PathIsValid(p);
    LinesAreNulFree(Lines(content));
    assert AllValid([Bare("printf"), Quoted("%s\\n")]) && AllValid([Into, Quoted(PathText(p))]);
  }

  lemma EightPiecesAreValid(a: Piece, b: Piece, c: Piece, d: Piece, e: Piece, f: Piece, g: Piece, h: Piece)
    requires ValidPiece(a) && ValidPiece(b) && ValidPiece(c) && ValidPiece(d)
    requires ValidPiece(e) && ValidPiece(f) && ValidPiece(g) && ValidPiece(h)
    ensures ValidCommand([a, b, c, d, e, f, g, h])
  {}

  lemma HashCheckIsValid(p: Path, sha: string)
    requires PlainPath(p) && NulFree(sha)
    ensures ValidCommand(Pieces(HashCheck(p, sha)))
  {
    NamesAreLiteral();
    HashWordsAreLiteral();
    PathIsValid(p);
    EightPiecesAreValid(Bare("test"), Opening("sha256sum"), Quoted(PathText(p)), Piped, Bare("cut"), Closing("-c1-64"),
                        Mark('='), Quoted(sha));
  }

  lemma GrepIsValid(pattern: string, text: string)
    requires NulFree(pattern) && NulFree(text)
    ensures ValidCommand([Bare("grep"), Bare("-Eq"), Quoted(pattern), Quoted(text)])
  {
    NamesAreLiteral();
    OptionsAreLiteral();
  }

  lemma MarkerIsValid(text: string)
    requires NulFree(text)
    ensures ValidCommand(Pieces(Marker(text)))
  {
    NamesAreLiteral();
    assert ValidPiece(Quoted(text + "\\n"));
  }

  lemma PiecesAreValid(c: Command)
    requires Spelled(c)
    ensures ValidCommand(Pieces(c))
  {
    match c {
      case HashCheck(p, sha) => HashCheckIsValid(p, sha);
      case GrepVersion(p, version) =>
        PathIsValid(p);
        PatternRoundTrip(version);
        GrepIsValid(VersionPattern(version), PathText(p));
      case WriteFile(p, content) => WriteIsValid(p, content);
      case Marker(text) => MarkerIsValid(text);
      case RmRf(_) => OnePathIsValid(c);
      case MkdirP(_) => OnePathIsValid(c);
      case TestFile(_) => OnePathIsValid(c);
      case Touch(_) => OnePathIsValid(c);
      case Untar(_, _) => TwoPathsAreValid(c);
      case TarDir(_, _) => TwoPathsAreValid(c);
      case Cp(_, _) => TwoPathsAreValid(c);
      case Mv(_, _) => TwoPathsAreValid(c);
    }
  }

  lemma NamesDiffer()
    ensures "grep" != "test" && "tar" !in {"test", "grep"} && "printf" !in {"test", "grep", "tar"}
    ensures "touch" !in {"test", "grep", "tar", "printf"}
    ensures "cp" !in {"test", "grep", "tar", "printf", "touch"}
    ensures "mv" !in {"test", "grep", "tar", "printf", "touch", "cp"}
    ensures "rm" !in {"test", "grep", "tar", "printf", "touch", "cp", "mv"}
    ensures "mkdir" !in {"test", "grep", "tar", "printf", "touch", "cp", "mv", "rm"}
  {
    assert |"grep"| == |"test"| == 4 && |"tar"| == 3 && |"printf"| == 6 && |"touch"| == |"mkdir"| == 5;
    assert |"cp"| == |"mv"| == |"rm"| == 2 && "cp"[0] == 'c' && "mv"[0] == 'm' && "rm"[0] == 'r';
    assert "grep"[0] == 'g' && "test"[0] == 't' && "touch"[0] == 't' && "mkdir"[0] == 'm';
  }

  lemma OptionTokens(name: string, option: string, text: string)
    ensures CommandTokens([Bare(name), Bare(option), Quoted(text)]) == [Word(name), Word(option), Word(text)]
  {
    FlatTokens([Bare(name), Bare(option), Quoted(text)]);
  }

  lemma DecodeRm(text: string, p: Path)
    requires ParsePath(text) == Some(p)
    ensures Decode([Word("rm"), Word("-rf"), Word(text)]) == Some(RmRf(p))
  {
    NamesDiffer();
  }

  lemma DecodeMkdir(text: string, p: Path)
    requires ParsePath(text) == Some(p)
    ensures Decode([Word("mkdir"), Word("-p"), Word(text)]) == Some(MkdirP(p))
  {
    NamesDiffer();
  }

  lemma DecodeTestFile(text: string, p: Path)
    requires ParsePath(text) == Some(p)
    ensures Decode([Word("test"), Word("-f"), Word(text)]) == Some(TestFile(p))
  {
  }

  lemma DecodeOnePath(c: Command)
    requires Spelled(c) && (c.RmRf? || c.MkdirP? || c.TestFile?)
    ensures Decode(CommandTokens(Pieces(c))) == Some(c)
  {
    PathIsValid(c.path);
    var text := PathText(c.path);
    match c {
      case RmRf(p) => OptionTokens("rm", "-rf", text); DecodeRm(text, p);
      case MkdirP(p) => OptionTokens("mkdir", "-p", text); DecodeMkdir(text, p);
      case TestFile(p) => OptionTokens("test", "-f", text); DecodeTestFile(text, p);
    }
  }

  lemma DecodeTouch(p: Path)
    requires PlainPath(p)
    ensures Decode(CommandTokens(Pieces(Touch(p)))) == Some(Touch(p))
  {
    NamesDiffer();
    FlatTokens(Pieces(Touch(p)));
    PathIsValid(p);
  }

  lemma CpAndMvDispatch(words: seq<Token>)
    requires words != []
    ensures words[0] == Word("cp") ==> Decode(words) == PathArguments(words[1..], (from, to) => Cp(from, to))
    ensures words[0] == Word("mv") ==> Decode(words) == PathArguments(words[1..], (from, to) => Mv(from, to))
  {
    NamesDiffer();
  }

  lemma TwoPathsParse(a: string, p: Path, b: string, q: Path, make: (Path, Path) -> Command)
    requires ParsePath(a) == Some(p) && ParsePath(b) == Some(q)
    ensures PathArguments([Word(a), Word(b)], make) == Some(make(p, q))
  {
  }

  lemma DecodeCp(from: Path, to: Path)
    requires PlainPath(from) && PlainPath(to)
    ensures Decode(CommandTokens(Pieces(Cp(from, to)))) == Some(Cp(from, to))
  {
    var words := CommandTokens(Pieces(Cp(from, to)));
    FlatTokens(Pieces(Cp(from, to)));
    assert words[1..] == [Word(PathText(from)), Word(PathText(to))];
    CpAndMvDispatch(words);
    PathIsValid(from);
    PathIsValid(to);
    TwoPathsParse(PathText(from), from, PathText(to), to, (from, to) => Cp(from, to));
  }

  lemma DecodeMv(from: Path, to: Path)
    requires PlainPath(from) && PlainPath(to)
    ensures Decode(CommandTokens(Pieces(Mv(from, to)))) == Some(Mv(from, to))
  {
    var words := CommandTokens(Pieces(Mv(from, to)));
    FlatTokens(Pieces(Mv(from, to)));
    assert words[1..] == [Word(PathText(from)), Word(PathText(to))];
    CpAndMvDispatch(words);
    PathIsValid(from);
    PathIsValid(to);
    TwoPathsParse(PathText(from), from, PathText(to), to, (from, to) => Mv(from, to));
  }

  lemma TarDispatches(words: seq<Token>)
    requires words != [] && words[0] == Word("tar")
    ensures Decode(words) == DecodeTar(words[1..])
  {
    NamesDiffer();
  }

  lemma DecodeUntarArguments(a: string, archive: Path, d: string, dir: Path)
    requires ParsePath(a) == Some(archive) && ParsePath(d) == Some(dir)
    ensures DecodeTar([Word("-xzf"), Word(a), Word("-C"), Word(d)]) == Some(Untar(archive, dir))
  {
  }

  lemma DecodeTarDirArguments(a: string, archive: Path, d: string, dir: Path)
    requires ParsePath(a) == Some(archive) && ParsePath(d) == Some(dir)
    ensures DecodeTar([Word("-cf"), Word(a), Word("-C"), Word(d), Word(".")]) == Some(TarDir(dir, archive))
  {
  }

  lemma DecodeUntar(archive: Path, dir: Path)
    requires PlainPath(archive) && PlainPath(dir)
    ensures Decode(CommandTokens(Pieces(Untar(archive, dir)))) == Some(Untar(archive, dir))
  {
    var words := CommandTokens(Pieces(Untar(archive, dir)));
    FlatTokens(Pieces(Untar(archive, dir)));
    assert words[1..] == [Word("-xzf"), Word(PathText(archive)), Word("-C"), Word(PathText(dir))];
    TarDispatches(words);
    PathIsValid(archive);
    PathIsValid(dir);
    DecodeUntarArguments(PathText(archive), archive, PathText(dir), dir);
  }

  lemma DecodeTarDir(dir: Path, archive: Path)
    requires PlainPath(archive) && PlainPath(dir)
    ensures Decode(CommandTokens(Pieces(TarDir(dir, archive)))) == Some(TarDir(dir, archive))
  {
    var words := CommandTokens(Pieces(TarDir(dir, archive)));
    FlatTokens(Pieces(TarDir(dir, archive)));
    assert words[1..] == [Word("-cf"), Word(PathText(archive)), Word("-C"), Word(PathText(dir)), Word(".")];
    TarDispatches(words);
    PathIsValid(archive);
    PathIsValid(dir);
    DecodeTarDirArguments(PathText(archive), archive, PathText(dir), dir);
  }

  lemma DecodeGrepArguments(pattern: string, version: string, text: string, p: Path)
    requires ParsePattern(pattern) == Some(version) && ParsePath(text) == Some(p)
    ensures DecodeGrep([Word("-Eq"), Word(pattern), Word(text)]) == Some(GrepVersion(p, version))
  {
  }

  lemma GrepDispatches(pattern: string, text: string)
    ensures Decode(CommandTokens([Bare("grep"), Bare("-Eq"), Quoted(pattern), Quoted(text)]))
            == DecodeGrep([Word("-Eq"), Word(pattern), Word(text)])
  {
    var pieces := [Bare("grep"), Bare("-Eq"), Quoted(pattern), Quoted(text)];
    FlatTokens(pieces);
    NamesDiffer();
    assert CommandTokens(pieces)[1..] == [Word("-Eq"), Word(pattern), Word(text)];
  }

  lemma DecodeGrepVersion(p: Path, version: string)
    requires Spelled(GrepVersion(p, version))
    ensures Decode(CommandTokens(Pieces(GrepVersion(p, version)))) == Some(GrepVersion(p, version))
  {
    GrepDispatches(VersionPattern(version), PathText(p));
    PathIsValid(p);
    PatternRoundTrip(version);
    DecodeGrepArguments(VersionPattern(version), version, PathText(p), p);
  }

  /** The words inside the substitution of a hash check, with its ends. */
  lemma SubstitutionTokens(text: string)
    ensures CommandTokens([Opening("sha256sum"), Quoted(text), Piped, Bare("cut"), Closing("-c1-64")])
            == [OpenSubstitution, Word("sha256sum"), Word(text), Pipe, Word("cut"), Word("-c1-64"), CloseSubstitution]
  {
    var inside := [Quoted(text), Piped, Bare("cut")];
    FlatTokens(inside);
    TokensOfBoth([Opening("sha256sum")], inside);
    TokensOfBoth([Opening("sha256sum")] + inside, [Closing("-c1-64")]);
    assert [Opening("sha256sum")] + inside + [Closing("-c1-64")]
           == [Opening("sha256sum"), Quoted(text), Piped, Bare("cut"), Closing("-c1-64")];
  }

  lemma HashCheckTokens(text: string, sha: string)
    ensures CommandTokens([Bare("test"), Opening("sha256sum"), Quoted(text), Piped, Bare("cut"), Closing("-c1-64"),
                           Mark('='), Quoted(sha)])
            == [Word("test"), OpenSubstitution, Word("sha256sum"), Word(text), Pipe, Word("cut"), Word("-c1-64"),
                CloseSubstitution, Word("="), Word(sha)]
  {
    var inside := [Opening("sha256sum"), Quoted(text), Piped, Bare("cut"), Closing("-c1-64")];
    SubstitutionTokens(text);
    FlatTokens([Bare("test")]);
    FlatTokens([Mark('='), Quoted(sha)]);
    TokensOfBoth([Bare("test")], inside);
    TokensOfBoth([Bare("test")] + inside, [Mark('='), Quoted(sha)]);
    assert [Bare("test")] + inside + [Mark('='), Quoted(sha)]
           == [Bare("test"), Opening("sha256sum"), Quoted(text), Piped, Bare("cut"), Closing("-c1-64"), Mark('='),
               Quoted(sha)];
  }

  lemma DecodeHashArguments(words: seq<Token>, p: Path)
    requires |words| == 9 && words[0] == OpenSubstitution && words[1] == Word("sha256sum") && words[3] == Pipe
    requires words[4] == Word("cut") && words[5] == Word("-c1-64") && words[6] == CloseSubstitution
    requires words[7] == Word("=") && words[8].Word? && words[2].Word? && ParsePath(words[2].text) == Some(p)
    ensures DecodeTest(words) == Some(HashCheck(p, words[8].text))
  {
  }

  lemma TestDispatches(arguments: seq<Token>)
    ensures Decode([Word("test")] + arguments) == DecodeTest(arguments)
  {
    assert ([Word("test")] + arguments)[1..] == arguments;
  }

  lemma DecodeHashWords(text: string, p: Path, sha: string)
    requires ParsePath(text) == Some(p)
    ensures Decode([Word("test"), OpenSubstitution, Word("sha256sum"), Word(text), Pipe, Word("cut"), Word("-c1-64"),
                    CloseSubstitution, Word("="), Word(sha)]) == Some(HashCheck(p, sha))
  {
    var arguments := [OpenSubstitution, Word("sha256sum"), Word(text), Pipe, Word("cut"), Word("-c1-64"),
                      CloseSubstitution, Word("="), Word(sha)];
    DecodeHashArguments(arguments, p);
    TestDispatches(arguments);
    assert [Word("test")] + arguments
           == [Word("test"), OpenSubstitution, Word("sha256sum"), Word(text), Pipe, Word("cut"), Word("-c1-64"),
               CloseSubstitution, Word("="), Word(sha)];
  }

  lemma DecodeHashCheck(p: Path, sha: string)
    requires Spelled(HashCheck(p, sha))
    ensures Decode(CommandTokens(Pieces(HashCheck(p, sha)))) == Some(HashCheck(p, sha))
  {
    HashCheckTokens(PathText(p), sha);
    PathIsValid(p);
    DecodeHashWords(PathText(p), p, sha);
  }

  lemma {:induction false} TextsOfLines(lines: seq<string>)
    ensures Texts(CommandTokens(QuotedLines(lines))) == Some(lines)
    ensures |CommandTokens(QuotedLines(lines))| == |lines|
  {
    if lines != [] {
      assert QuotedLines(lines)[1..] == QuotedLines(lines[1..]);
      TextsOfLines(lines[1..]);
      assert [lines[0]] + lines[1..] == lines;
    }
  }

  lemma PrintfDispatches(words: seq<Token>)
    requires words != [] && words[0] == Word("printf")
    ensures Decode(words) == DecodePrintf(words[1..])
  {
    NamesDiffer();
  }

  lemma DecodePrintedLines(words: seq<Token>, lines: seq<string>, text: string, p: Path)
    requires Texts(words) == Some(lines) && ParsePath(text) == Some(p)
    ensures DecodePrintf([Word("%s\\n")] + words + [Redirect, Word(text)]) == Some(WriteFile(p, Unlines(lines)))
  {
    var arguments := [Word("%s\\n")] + words + [Redirect, Word(text)];
    assert arguments[1..|arguments| - 2] == words;
    assert arguments[|arguments| - 1..] == [Word(text)];
  }

  lemma WriteTokens(lines: seq<string>, text: string)
    ensures CommandTokens([Bare("printf"), Quoted("%s\\n")] + QuotedLines(lines) + [Into, Quoted(text)])
            == [Word("printf")] + ([Word("%s\\n")] + CommandTokens(QuotedLines(lines)) + [Redirect, Word(text)])
  {
    var first, last := [Bare("printf"), Quoted("%s\\n")], [Into, Quoted(text)];
    FlatTokens(first);
    FlatTokens(last);
    TokensOfBoth(first, QuotedLines(lines));
    TokensOfBoth(first + QuotedLines(lines), last);
  }

  lemma DecodeWrite(p: Path, content: Content)
    requires Spelled(WriteFile(p, content))
    ensures Decode(CommandTokens(Pieces(WriteFile(p, content)))) == Some(WriteFile(p, content))
  {
    var words := CommandTokens(Pieces(WriteFile(p, content)));
    var lines := CommandTokens(QuotedLines(Lines(content)));
    WriteTokens(Lines(content), PathText(p));
    assert words[1..] == [Word("%s\\n")] + lines + [Redirect, Word(PathText(p))];
    PrintfDispatches(words);
    TextsOfLines(Lines(content));
    PathIsValid(p);
    DecodePrintedLines(lines, Lines(content), PathText(p), p);
  }

  lemma DecodeMarker(text: string)
    requires NulFree(text)
    ensures Decode(CommandTokens(Pieces(Marker(text)))) == Some(Marker(text))
  {
    var words := CommandTokens(Pieces(Marker(text)));
    FlatTokens(Pieces(Marker(text)));
    assert words[1..] == [Word(text + "\\n")];
    PrintfDispatches(words);
    assert (text + "\\n")[..|text + "\\n"| - 2] == text;
  }

  lemma DecodeInverts(c: Command)
    requires Spelled(c)
    ensures Decode(CommandTokens(Pieces(c))) == Some(c)
  {
    match c {
      case HashCheck(p, sha) => DecodeHashCheck(p, sha);
      case GrepVersion(p, version) => DecodeGrepVersion(p, version);
      case WriteFile(p, content) => DecodeWrite(p, content);
      case Marker(text) => DecodeMarker(text);
      case RmRf(_) => DecodeOnePath(c);
      case MkdirP(_) => DecodeOnePath(c);
      case TestFile(_) => DecodeOnePath(c);
      case Touch(p) => DecodeTouch(p);
      case Untar(archive, dir) => DecodeUntar(archive, dir);
      case TarDir(dir, archive) => DecodeTarDir(dir, archive);
      case Cp(from, to) => DecodeCp(from, to);
      case Mv(from, to) => DecodeMv(from, to);
    }
  }

  /** A command never begins with a reserved word. */
  lemma CommandsAreNotReserved(c: Command)
    requires Spelled(c)
    ensures CommandTokens(Pieces(c)) != []
    ensures CommandTokens(Pieces(c))[0] !in {Word("if"), Word("fi")}
  {
    DecodeInverts(c);
  }
}
