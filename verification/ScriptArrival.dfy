/**
 From a script's text to the guest that runs it: every script of a deployment is short enough for
 the guest agent's command (tools/haos-candidate-deploy-core.ts:176-194), so it is sent, arrives
 as one word and is read as the modelled commands.

 The limit is one of bytes, after quoting.  All text of a deployment is ASCII without single
 quotes, so quoting adds two characters to an argument and a character is a byte.  No argument is
 longer than 145 characters (the longest is the temporary path of the rollback archive), no
 command has more than ten of them (the identity file is printed from six lines), and no script
 more than twenty commands between its separators.
 */
module ScriptArrival {
  import opened Wrappers
  import opened ShellWords
  import opened RemoteTree
  import opened DeployScripts
  import opened CommandWords
  import opened DeployText

  // ---------------------------------------------------------------------------
  // Text that is one byte a character
  // ---------------------------------------------------------------------------

  predicate IsSimple(c: char) { 0 < c as int < 0x80 && c != '\'' }

  /** Neither quotes, nor NUL, nor anything beyond ASCII: quoting adds two characters. */
  predicate SimpleText(s: string) { forall i :: 0 <= i < |s| ==> IsSimple(s[i]) }

  predicate Ascii(s: string) { forall i :: 0 <= i < |s| ==> 0 < s[i] as int < 0x80 }

  lemma {:induction false} AsciiIsOneByteEach(s: string)
    requires Ascii(s)
    ensures Utf8Length(s) == |s| && NulFree(s)
  {
    if s != "" { AsciiIsOneByteEach(s[1..]); }
  }

  lemma {:induction false} SimpleNeedsNoEscape(s: string)
    requires SimpleText(s)
    ensures EscapeQuotes(s) == s
  {
    if s != "" {
      SimpleNeedsNoEscape(s[1..]);
      assert [s[0]] + s[1..] == s;
    }
  }

  lemma JoinIsAscii(a: string, b: string)
    requires Ascii(a) && Ascii(b)
    ensures Ascii(a + b)
  {}

  lemma SimpleJoin(a: string, b: string)
    requires SimpleText(a) && SimpleText(b)
    ensures SimpleText(a + b)
  {}

  // ---------------------------------------------------------------------------
  // Bounds on pieces, commands and scripts
  // ---------------------------------------------------------------------------

  const MAX_ARGUMENT := 145
  const MAX_PIECES := 10
  const MAX_COMMANDS := 20

  predicate ShortText(s: string) { |s| <= MAX_ARGUMENT && SimpleText(s) }

  predicate ShortPiece(p: Piece) {
    ValidPiece(p) &&
    match p
    case Bare(text) => |text| <= 9
    case Quoted(text) => ShortText(text)
    case Opening(text) => |text| <= 9
    case Closing(text) => |text| <= 9
    case _ => true
  }

  predicate ShortCommand(command: seq<Piece>) {
    0 < |command| <= MAX_PIECES && forall i :: 0 <= i < |command| ==> ShortPiece(command[i])
  }

  predicate ShortCommands(script: seq<seq<Piece>>) {
    forall i :: 0 <= i < |script| ==> ShortCommand(script[i])
  }

  lemma LiteralsAreAscii(text: string)
    requires LiteralText(text)
    ensures Ascii(text)
  {}

  lemma PieceIsShort(p: Piece)
    requires ShortPiece(p)
    ensures Ascii(RenderPiece(p)) && |RenderPiece(p)| <= MAX_ARGUMENT + 2
  {
    match p {
      case Bare(text) => LiteralsAreAscii(text);
      case Quoted(text) => SimpleNeedsNoEscape(text);
      case Opening(text) => LiteralsAreAscii(text);
      case Closing(text) => LiteralsAreAscii(text);
      case _ =>
    }
  }

  /** What so many things of a size come to. */
  function Allowance(n: nat, each: nat): nat { if n == 0 then 0 else each + Allowance(n - 1, each) }

  lemma {:induction false} AllowanceRises(n: nat, most: nat, each: nat)
    requires n <= most
    ensures Allowance(n, each) <= Allowance(most, each)
  {
    if n < most { AllowanceRises(n, most - 1, each); }
  }

  lemma {:induction false} AllowanceOf(n: nat, each: nat)
    ensures Allowance(n, each) == n * each
  {
    if n > 0 { AllowanceOf(n - 1, each); }
  }

  lemma {:induction false} CommandIsAscii(command: seq<Piece>)
    requires command != [] && forall i :: 0 <= i < |command| ==> ShortPiece(command[i])
    ensures Ascii(RenderCommand(command))
  {
    PieceIsShort(command[0]);
    if |command| > 1 {
      CommandIsAscii(command[1..]);
      JoinIsAscii(RenderPiece(command[0]), " ");
      JoinIsAscii(RenderPiece(command[0]) + " ", RenderCommand(command[1..]));
    }
  }

  lemma {:induction false} CommandIsShort(command: seq<Piece>)
    requires command != [] && forall i :: 0 <= i < |command| ==> ShortPiece(command[i])
    ensures |RenderCommand(command)| <= Allowance(|command|, MAX_ARGUMENT + 3)
  {
    PieceIsShort(command[0]);
    if |command| > 1 { CommandIsShort(command[1..]); }
  }

  const MAX_COMMAND_BYTES := MAX_PIECES * (MAX_ARGUMENT + 3)

  lemma {:induction false} ScriptIsAscii(script: seq<seq<Piece>>)
    requires ValidScript(script) && ShortCommands(script)
    ensures Ascii(RenderScript(script))
  {
    CommandIsAscii(script[0]);
    if |script| > 1 {
      ScriptIsAscii(script[1..]);
      JoinIsAscii(RenderCommand(script[0]), "; ");
      JoinIsAscii(RenderCommand(script[0]) + "; ", RenderScript(script[1..]));
    }
  }

  lemma ShortCommandFits(command: seq<Piece>)
    requires ShortCommand(command)
    ensures 0 < |RenderCommand(command)| <= MAX_COMMAND_BYTES
  {
    CommandIsShort(command);
    CommandIsNotEmpty(command);
    AllowanceRises(|command|, MAX_PIECES, MAX_ARGUMENT + 3);
    AllowanceOf(MAX_PIECES, MAX_ARGUMENT + 3);
  }

  lemma {:induction false} ScriptIsShort(script: seq<seq<Piece>>)
    requires ValidScript(script) && ShortCommands(script)
    ensures 0 < |RenderScript(script)| <= Allowance(|script|, MAX_COMMAND_BYTES + 2)
  {
    ShortCommandFits(script[0]);
    if |script| > 1 { ScriptIsShort(script[1..]); }
  }

  lemma CommandIsNotEmpty(command: seq<Piece>)
    requires ValidCommand(command)
    ensures RenderCommand(command) != ""
  {
  }

  // ---------------------------------------------------------------------------
  // The scripts are within the bounds
  // ---------------------------------------------------------------------------

  predicate ShortPath(p: Path) { PlainPath(p) && ShortText(PathText(p)) }

  predicate ShortLines(lines: seq<string>) {
    |lines| <= 6 && forall i :: 0 <= i < |lines| ==> ShortText(lines[i])
  }

  /** Every argument of the command is short. */
  predicate IsShort(c: Command) {
    Spelled(c) &&
    match c
    case HashCheck(p, sha) => ShortPath(p) && ShortText(sha)
    case GrepVersion(p, version) => ShortPath(p) && |version| <= 29
    case RmRf(p) => ShortPath(p)
    case MkdirP(p) => ShortPath(p)
    case TestFile(p) => ShortPath(p)
    case Touch(p) => ShortPath(p)
    case Untar(archive, dir) => ShortPath(archive) && ShortPath(dir)
    case TarDir(dir, archive) => ShortPath(dir) && ShortPath(archive)
    case Cp(from, to) => ShortPath(from) && ShortPath(to)
    case Mv(from, to) => ShortPath(from) && ShortPath(to)
    case WriteFile(p, content) => ShortPath(p) && ShortLines(Lines(content))
    case Marker(text) => |text| <= 30 && SimpleText(text)
    case WhenDir(_, _) => false
  }

  lemma NamesAreBrief(c: Command)
    requires IsShort(c)
    ensures !c.WriteFile? ==> |Pieces(c)| <= 8
    ensures |Pieces(c)| <= MAX_PIECES
  {
  }

  lemma EscapedIsSimple(version: string)
    requires VersionText(version)
    ensures SimpleText(EscapeDots(version)) && |EscapeDots(version)| <= 2 * |version|
  {
    if version != "" { EscapedIsSimple(version[1..]); }
  }

  lemma PatternEndsAreSimple()
    ensures SimpleText(PATTERN_HEAD) && SimpleText(PATTERN_TAIL) && |PATTERN_HEAD| + |PATTERN_TAIL| <= 45
  {}

  lemma PatternIsShort(version: string)
    requires VersionText(version) && |version| <= 29
    ensures ShortText(VersionPattern(version))
  {
    EscapedIsSimple(version);
    PatternEndsAreSimple();
    SimpleJoin(PATTERN_HEAD, EscapeDots(version));
    SimpleJoin(PATTERN_HEAD + EscapeDots(version), PATTERN_TAIL);
  }

  lemma MarkerIsShort(text: string)
    requires |text| <= 30 && SimpleText(text)
    ensures ShortText(text + "\\n")
  {
  }

  lemma OneArgumentIsShort(c: Command)
    requires IsShort(c) && (c.RmRf? || c.MkdirP? || c.TestFile? || c.Touch?)
    ensures ShortCommand(Pieces(c))
  {
    PiecesAreValid(c);
  }

  lemma TwoArgumentsAreShort(c: Command)
    requires IsShort(c) && (c.Untar? || c.TarDir? || c.Cp? || c.Mv?)
    ensures ShortCommand(Pieces(c))
  {
    PiecesAreValid(c);
  }

  lemma HashCheckIsShort(p: Path, sha: string)
    requires IsShort(HashCheck(p, sha))
    ensures ShortCommand(Pieces(HashCheck(p, sha)))
  {
    PiecesAreValid(HashCheck(p, sha));
  }

  lemma GrepIsShort(p: Path, version: string)
    requires IsShort(GrepVersion(p, version))
    ensures ShortCommand(Pieces(GrepVersion(p, version)))
  {
    PiecesAreValid(GrepVersion(p, version));
    PatternIsShort(version);
  }

  lemma WriteIsShort(p: Path, content: Content)
    requires IsShort(WriteFile(p, content))
    ensures ShortCommand(Pieces(WriteFile(p, content)))
  {
    PiecesAreValid(WriteFile(p, content));
    assert ShortText("%s\\n");
  }

  lemma PiecesAreShort(c: Command)
    requires IsShort(c)
    ensures ShortCommand(Pieces(c)) && (!c.WriteFile? ==> |Pieces(c)| <= 8)
  {
    NamesAreBrief(c);
    match c {
      case HashCheck(p, sha) => HashCheckIsShort(p, sha);
      case GrepVersion(p, version) => GrepIsShort(p, version);
      case WriteFile(p, content) => WriteIsShort(p, content);
      case Marker(text) => MarkerIsShort(text); PiecesAreValid(c);
      case RmRf(_) => OneArgumentIsShort(c);
      case MkdirP(_) => OneArgumentIsShort(c);
      case TestFile(_) => OneArgumentIsShort(c);
      case Touch(_) => OneArgumentIsShort(c);
      case Untar(_, _) => TwoArgumentsAreShort(c);
      case TarDir(_, _) => TwoArgumentsAreShort(c);
      case Cp(_, _) => TwoArgumentsAreShort(c);
      case Mv(_, _) => TwoArgumentsAreShort(c);
    }
  }

  // ---------------------------------------------------------------------------
  // Statements
  // ---------------------------------------------------------------------------

  predicate AllShort(commands: seq<Command>) { forall i :: 0 <= i < |commands| ==> IsShort(commands[i]) }

  predicate IsShortStatement(s: Statement) {
    match s
    case Simple(c) => IsShort(c)
    case IfDir(dir, body) => ShortPath(dir) && body != [] && AllShort(body) && !body[0].WriteFile?
  }

  predicate IsShortScript(script: seq<Statement>) {
    forall i :: 0 <= i < |script| ==> IsShortStatement(script[i])
  }

  lemma ShortIsSpelled(script: seq<Statement>)
    requires IsShortScript(script)
    ensures SpelledScript(script)
  {
  }

  /** How many commands a script is made of between its separators. */
  function Segments(script: seq<Statement>): nat {
    if script == [] then 0
    else (match script[0] case Simple(_) => 1 case IfDir(_, body) => |body| + 2) + Segments(script[1..])
  }

  lemma {:induction false} BodyIsShort(body: seq<Command>)
    requires AllShort(body)
    ensures AllSpelled(body) && ShortCommands(BodyPieces(body)) && |BodyPieces(body)| == |body|
  {
    if body != [] {
      PiecesAreShort(body[0]);
      BodyIsShort(body[1..]);
    }
  }

  lemma KeywordsAreShort(dir: Path)
    requires ShortPath(dir)
    ensures ShortCommand(IfPieces(dir)) && ShortCommand(FI) && ShortPiece(THEN[0])
  {
    IfPiecesValid(dir);
    KeywordsAreLiteral();
  }

  lemma ThenIsShort(c: Command)
    requires IsShort(c) && !c.WriteFile? && ShortPiece(THEN[0])
    ensures ShortCommand(THEN + Pieces(c))
  {
    PiecesAreShort(c);
  }

  lemma IfIsShort(dir: Path, body: seq<Command>)
    requires IsShortStatement(IfDir(dir, body))
    ensures ShortCommands(StatementPieces(IfDir(dir, body))) && |StatementPieces(IfDir(dir, body))| == |body| + 2
  {
    KeywordsAreShort(dir);
    ThenIsShort(body[0]);
    BodyIsShort(body[1..]);
  }

  lemma {:induction false} ScriptPiecesAreShort(script: seq<Statement>)
    requires IsShortScript(script) && SpelledScript(script)
    ensures ShortCommands(ScriptPieces(script)) && |ScriptPieces(script)| == Segments(script)
  {
    if script != [] {
      ScriptPiecesAreShort(script[1..]);
      match script[0] {
        case Simple(c) => PiecesAreShort(c);
        case IfDir(dir, body) => IfIsShort(dir, body);
      }
    }
  }

  lemma PreambleIsShort(masked: bool)
    ensures ShortCommands(PreamblePieces(masked)) && |PreamblePieces(masked)| <= 2
  {
    PreambleIsValid([], masked);
    assert PreamblePieces(masked) + [] == PreamblePieces(masked);
  }

  lemma ShortScriptFits(n: nat)
    requires n <= MAX_COMMANDS
    ensures Allowance(n, MAX_COMMAND_BYTES + 2) <= 32768
  {
    AllowanceRises(n, MAX_COMMANDS, MAX_COMMAND_BYTES + 2);
    AllowanceOf(MAX_COMMANDS, MAX_COMMAND_BYTES + 2);
  }

  lemma ShortScriptIsAccepted(all: seq<seq<Piece>>)
    requires ValidScript(all) && ShortCommands(all) && |all| <= MAX_COMMANDS
    ensures var text := RenderScript(all); text != "" && NulFree(text) && Utf8Length(text) <= 32768
  {
    ScriptIsAscii(all);
    ScriptIsShort(all);
    ShortScriptFits(|all|);
    AsciiIsOneByteEach(RenderScript(all));
  }

  /** A short script is within the limit of the guest command. */
  lemma TextIsShort(script: seq<Statement>, masked: bool)
    requires IsShortScript(script) && SpelledScript(script) && Segments(script) <= MAX_COMMANDS - 2
    ensures var text := ScriptText(script, masked); text != "" && NulFree(text) && Utf8Length(text) <= 32768
  {
    ScriptPiecesValid(script);
    ScriptPiecesAreShort(script);
    PreambleIsShort(masked);
    PreambleIsValid(ScriptPieces(script), masked);
    ShortScriptIsAccepted(PreamblePieces(masked) + ScriptPieces(script));
  }

  // ---------------------------------------------------------------------------
  // Paths
  // ---------------------------------------------------------------------------

  lemma {:induction false} AppendedPath(p: Path, c: string)
    ensures PathText(p + [c]) == PathText(p) + "/" + c
  {
    if p == [] {
      assert p + [c] == [c] && [c][1..] == [];
    } else {
      assert (p + [c])[1..] == p[1..] + [c];
      AppendedPath(p[1..], c);
    }
  }

  /** The text of a path is simple and of at most so many characters. */
  predicate Within(p: Path, n: nat) { PlainPath(p) && SimpleText(PathText(p)) && |PathText(p)| <= n }

  lemma AppendWithin(p: Path, n: nat, c: string)
    requires Within(p, n) && PlainComponent(c) && SimpleText(c)
    ensures Within(p + [c], n + 1 + |c|)
  {
    AppendedPath(p, c);
    SimpleJoin(PathText(p), "/");
    SimpleJoin(PathText(p) + "/", c);
  }

  lemma SystemNamesAreSimple()
    ensures SimpleText("mnt") && SimpleText("data") && SimpleText("supervisor") && SimpleText("backup")
    ensures SimpleText("apps") && SimpleText("local") && SimpleText("tmp")
    ensures PlainComponent("mnt") && PlainComponent("data") && PlainComponent("supervisor") && PlainComponent("backup")
    ensures PlainComponent("apps") && PlainComponent("local") && PlainComponent("tmp")
  {}

  lemma ProjectNamesAreSimple()
    ensures SimpleText("ha-smartthings-web-bridge") && SimpleText("smartthings_web_bridge")
    ensures PlainComponent("ha-smartthings-web-bridge") && PlainComponent("smartthings_web_bridge")
    ensures SimpleText("ha-smartthings-web-bridge-") && PlainComponent("ha-smartthings-web-bridge-")
  {}

  lemma SupervisorWithin()
    ensures Within(["mnt", "data", "supervisor"], 20)
  {
    SystemNamesAreSimple();
    assert Within([], 0);
    AppendWithin([], 0, "mnt");
    AppendWithin(["mnt"], 4, "data");
    AppendWithin(["mnt", "data"], 9, "supervisor");
    assert [] + ["mnt"] == ["mnt"] && ["mnt"] + ["data"] == ["mnt", "data"];
    assert ["mnt", "data"] + ["supervisor"] == ["mnt", "data", "supervisor"];
  }

  lemma BackupsWithin()
    ensures Within(BACKUPS, 53)
  {
    var supervisor := ["mnt", "data", "supervisor"];
    SupervisorWithin();
    SystemNamesAreSimple();
    ProjectNamesAreSimple();
    AppendWithin(supervisor, 20, "backup");
    AppendWithin(supervisor + ["backup"], 27, "ha-smartthings-web-bridge");
    assert supervisor + ["backup"] + ["ha-smartthings-web-bridge"] == BACKUPS;
  }

  lemma SourceWithin()
    ensures Within(ADDON_SOURCE, 54)
  {
    var supervisor := ["mnt", "data", "supervisor"];
    SupervisorWithin();
    SystemNamesAreSimple();
    ProjectNamesAreSimple();
    AppendWithin(supervisor, 20, "apps");
    AppendWithin(supervisor + ["apps"], 25, "local");
    AppendWithin(supervisor + ["apps"] + ["local"], 31, "smartthings_web_bridge");
    assert supervisor + ["apps"] + ["local"] + ["smartthings_web_bridge"] == ADDON_SOURCE;
  }

  predicate IsDeploymentId(id: string) { |id| == 25 && PlainComponent(id) && SimpleText(id) }

  lemma BackupRootWithin(l: Layout)
    requires IsDeploymentId(l.deploymentId)
    ensures Within(l.BackupRoot(), 79)
  {
    BackupsWithin();
    AppendWithin(BACKUPS, 53, l.deploymentId);
  }

  lemma KeptWithin(l: Layout, name: string)
    requires IsDeploymentId(l.deploymentId) && PlainComponent(name) && SimpleText(name) && |name| <= 57
    ensures ShortPath(l.Kept(name)) && Within(l.Kept(name), 80 + |name|)
  {
    BackupRootWithin(l);
    AppendWithin(l.BackupRoot(), 79, name);
  }

  lemma TemporaryWithin(l: Layout)
    requires IsDeploymentId(l.deploymentId)
    ensures Within(l.TemporaryRoot(), 56)
  {
    SystemNamesAreSimple();
    ProjectNamesAreSimple();
    assert Within([], 0);
    AppendWithin([], 0, "tmp");
    assert [] + ["tmp"] == ["tmp"];
    PlainJoin("ha-smartthings-web-bridge-", l.deploymentId);
    SimpleJoin("ha-smartthings-web-bridge-", l.deploymentId);
    AppendWithin(["tmp"], 4, "ha-smartthings-web-bridge-" + l.deploymentId);
    assert ["tmp"] + ["ha-smartthings-web-bridge-" + l.deploymentId] == l.TemporaryRoot();
  }

  lemma ArchiveNamesAreSimple()
    ensures SimpleText("candidate.tgz") && SimpleText("rollback.tgz")
    ensures SimpleText("candidate-source") && SimpleText("rollback-source")
    ensures SimpleText("source-before-deploy.tar") && SimpleText("source-before-deploy.tar.tmp")
  {}

  lemma RecordNamesAreSimple()
    ensures SimpleText("deployment-identity.txt") && SimpleText("deployment-identity.txt.tmp")
    ensures SimpleText(MANIFEST) && SimpleText(CONFIG)
  {}

  lemma HexIsSimple(s: string, n: nat)
    requires IsHex(s, n)
    ensures SimpleText(s) && |s| == n
  {}

  lemma DurableNamesAreSimple()
    ensures SimpleText("rollback-" + ROLLBACK_COMMIT + ".tgz") && |"rollback-" + ROLLBACK_COMMIT + ".tgz"| == 53
    ensures SimpleText("rollback-" + ROLLBACK_COMMIT + ".tgz.tmp")
            && |"rollback-" + ROLLBACK_COMMIT + ".tgz.tmp"| == 57
  {
    CommitIsHex();
    HexIsSimple(ROLLBACK_COMMIT, 40);
    assert SimpleText("rollback-") && SimpleText(".tgz") && SimpleText(".tgz.tmp");
    SimpleJoin("rollback-", ROLLBACK_COMMIT);
    SimpleJoin("rollback-" + ROLLBACK_COMMIT, ".tgz");
    SimpleJoin("rollback-" + ROLLBACK_COMMIT, ".tgz.tmp");
  }

  /** The paths that the scripts name. */
  predicate ShortUploads(l: Layout) {
    && ShortPath(l.TemporaryRoot()) && ShortPath(l.CandidateArchive()) && ShortPath(l.RollbackUpload())
    && ShortPath(l.BackupRoot()) && ShortPath(l.DurableArchive()) && ShortPath(l.DurableTmp())
    && ShortPath(l.PreviousSource()) && ShortPath(l.PreviousTmp())
    && ShortPath(l.Identity()) && ShortPath(l.IdentityTmp())
  }

  predicate ShortSources(l: Layout) {
    && ShortPath(ADDON_SOURCE) && ShortPath(l.CandidateSource()) && ShortPath(l.RollbackSource())
    && ShortPath(l.CandidateSource() + [MANIFEST]) && ShortPath(l.CandidateSource() + [CONFIG])
    && ShortPath(l.RollbackSource() + [MANIFEST]) && ShortPath(l.RollbackSource() + [CONFIG])
    && ShortPath(ADDON_SOURCE + [CONFIG])
  }

  lemma UploadsAreShort(l: Layout)
    requires IsDeploymentId(l.deploymentId)
    ensures ShortUploads(l)
  {
    NamesArePlain();
    ArchiveNamesAreSimple();
    RecordNamesAreSimple();
    DurableNamesAreSimple();
    TemporaryWithin(l);
    AppendWithin(l.TemporaryRoot(), 56, "candidate.tgz");
    AppendWithin(l.TemporaryRoot(), 56, "rollback.tgz");
    BackupRootWithin(l);
    KeptWithin(l, "rollback-" + ROLLBACK_COMMIT + ".tgz");
    KeptWithin(l, "rollback-" + ROLLBACK_COMMIT + ".tgz.tmp");
    KeptWithin(l, "source-before-deploy.tar");
    KeptWithin(l, "source-before-deploy.tar.tmp");
    KeptWithin(l, "deployment-identity.txt");
    KeptWithin(l, "deployment-identity.txt.tmp");
  }

  lemma SourcesAreShort(l: Layout)
    requires IsDeploymentId(l.deploymentId)
    ensures ShortSources(l)
  {
    ConstantsArePlain();
    ArchiveNamesAreSimple();
    RecordNamesAreSimple();
    SourceWithin();
    AppendWithin(ADDON_SOURCE, 54, CONFIG);
    KeptWithin(l, "candidate-source");
    KeptWithin(l, "rollback-source");
    AppendWithin(l.CandidateSource(), 96, MANIFEST);
    AppendWithin(l.CandidateSource(), 96, CONFIG);
    AppendWithin(l.RollbackSource(), 95, MANIFEST);
    AppendWithin(l.RollbackSource(), 95, CONFIG);
  }

  // ---------------------------------------------------------------------------
  // Arrival
  // ---------------------------------------------------------------------------

  /** The text is sent as one command, whose last word it is, and the guest reads the commands. */
  predicate Arrives(vmId: int, timeoutSeconds: int, text: string, masked: bool, commands: seq<Command>) {
    var sent := BuildGuestShellCommand(vmId, text, timeoutSeconds);
    && sent.Some? && vmId > 0 && timeoutSeconds > 0
    && Parse(sent.value) == Some(GuestShellTokens(vmId, text, timeoutSeconds))
    && Understood(text, masked) == Some(commands)
  }

  lemma ShortScriptArrives(vmId: int, timeoutSeconds: int, script: seq<Statement>, masked: bool)
    requires 0 < vmId <= MAX_SAFE_INTEGER && 0 < timeoutSeconds <= 7200
    requires IsShortScript(script) && SpelledScript(script) && Segments(script) <= MAX_COMMANDS - 2
    ensures Arrives(vmId, timeoutSeconds, ScriptText(script, masked), masked, Flatten(script))
  {
    TextIsShort(script, masked);
    GuestShellLexes(vmId, ScriptText(script, masked), timeoutSeconds);
    TextMeansScript(script, masked);
  }

  lemma {:induction false} SimplesAreShort(commands: seq<Command>)
    requires AllShort(commands)
    ensures IsShortScript(Simples(commands)) && SpelledScript(Simples(commands))
    ensures Segments(Simples(commands)) == |commands| && Flatten(Simples(commands)) == commands
  {
    SimplesFlatten(commands);
    if commands != [] {
      SimplesAreShort(commands[1..]);
    }
  }

  lemma {:induction false} SegmentsOfBoth(a: seq<Statement>, b: seq<Statement>)
    ensures Segments(a + b) == Segments(a) + Segments(b)
  {
    if a == [] {
      assert a + b == b;
    } else {
      assert (a + b)[1..] == a[1..] + b;
      SegmentsOfBoth(a[1..], b);
    }
  }

  lemma DeploymentIdOf(id: ArchiveIdentity)
    requires ValidIdentity(id)
    ensures CreateLayout(id.candidateCommit, id.candidateManifestSha).Some?
    ensures IsDeploymentId(CreateLayout(id.candidateCommit, id.candidateManifestSha).value.deploymentId)
  {
  }

  lemma MarkersAreSimple()
    ensures SimpleText("upload_ready") && SimpleText("stage_ready") && SimpleText("source_activated")
    ensures SimpleText("rollback_source_restored") && SimpleText("temporary_files_removed")
  {}

  lemma InitializeIsShort(l: Layout)
    requires ShortUploads(l)
    ensures AllShort(Initialize(l))
  {
    MarkersAreSimple();
  }

  lemma ActivateIsShort(l: Layout)
    requires ShortSources(l)
    ensures AllShort(Activate(l))
  {
    MarkersAreSimple();
  }

  lemma CleanupIsShort(l: Layout)
    requires ShortUploads(l) && ShortSources(l)
    ensures AllShort(Cleanup(l))
  {
    MarkersAreSimple();
  }

  lemma JoinIsShort(a: seq<Command>, b: seq<Command>)
    requires AllShort(a) && AllShort(b)
    ensures AllShort(a + b)
  {}

  lemma UnpackingIsShort(archive: Path, dir: Path, archiveSha: string, manifestSha: string, version: string)
    requires ShortPath(archive) && ShortPath(dir) && ShortPath(dir + [MANIFEST]) && ShortPath(dir + [CONFIG])
    requires IsHex(archiveSha, 64) && IsHex(manifestSha, 64) && VersionText(version) && |version| <= 29
    ensures IsShort(HashCheck(archive, archiveSha))
    ensures AllShort([RmRf(dir), MkdirP(dir), Untar(archive, dir), HashCheck(dir + [MANIFEST], manifestSha),
                      GrepVersion(dir + [CONFIG], version)])
  {
    HexIsPrintable(archiveSha, 64);
    HexIsPrintable(manifestSha, 64);
    HexIsSimple(archiveSha, 64);
    HexIsSimple(manifestSha, 64);
  }

  lemma RollbackIsShort(l: Layout, sha: string)
    requires ShortUploads(l) && ShortSources(l) && IsHex(sha, 64)
    ensures AllShort(RollbackSource(l, sha))
  {
    var dir := l.RollbackSource();
    var check := [HashCheck(l.DurableArchive(), sha)];
    var unpack := [RmRf(dir), MkdirP(dir), Untar(l.DurableArchive(), dir),
                   HashCheck(dir + [MANIFEST], ROLLBACK_MANIFEST_SHA256),
                   GrepVersion(dir + [CONFIG], ROLLBACK_VERSION)];
    var install := [RmRf(ADDON_SOURCE), Mv(dir, ADDON_SOURCE), Touch(ADDON_SOURCE + [CONFIG]),
                    Marker("rollback_source_restored")];
    RollbackIsHex();
    UnpackingIsShort(l.DurableArchive(), dir, sha, ROLLBACK_MANIFEST_SHA256, ROLLBACK_VERSION);
    MarkersAreSimple();
    assert AllShort(check) && AllShort(install);
    JoinIsShort(unpack, install);
    JoinIsShort(check, unpack + install);
    assert RollbackSource(l, sha) == check + (unpack + install);
  }

  lemma LabelIsShort(name: string, value: string, n: nat)
    requires SimpleText(name) && |name| <= 20 && IsHex(value, n) && n <= 64
    ensures ShortText(name + value)
  {
    HexIsSimple(value, n);
    SimpleJoin(name, value);
  }

  lemma LabelsAreSimple()
    ensures ShortText("schema_version=1") && SimpleText("candidate_commit=") && SimpleText("candidate_manifest=")
    ensures SimpleText("rollback_commit=") && SimpleText("rollback_manifest=") && SimpleText("rollback_archive=")
  {}

  lemma IdentityIsShort(id: ArchiveIdentity)
    requires ValidIdentity(id)
    ensures ShortLines(Lines(IdentityText(id)))
  {
    IdentityIsPrinted(id);
    LabelsAreSimple();
    RollbackIsHex();
    LabelIsShort("candidate_commit=", id.candidateCommit, 40);
    LabelIsShort("candidate_manifest=", id.candidateManifestSha, 64);
    LabelIsShort("rollback_commit=", ROLLBACK_COMMIT, 40);
    LabelIsShort("rollback_manifest=", ROLLBACK_MANIFEST_SHA256, 64);
    LabelIsShort("rollback_archive=", id.rollbackArchiveSha, 64);
  }

  lemma StageIsShort(l: Layout, id: ArchiveIdentity)
    requires ShortUploads(l) && ShortSources(l) && ValidIdentity(id)
    ensures AllShort(StageCandidate(l, id))
  {
    var dir := l.CandidateSource();
    var check := [HashCheck(l.CandidateArchive(), id.candidateArchiveSha),
                  HashCheck(l.RollbackUpload(), id.rollbackArchiveSha), MkdirP(l.BackupRoot())];
    var unpack := [RmRf(dir), MkdirP(dir), Untar(l.CandidateArchive(), dir),
                   HashCheck(dir + [MANIFEST], id.candidateManifestSha),
                   GrepVersion(dir + [CONFIG], id.candidateVersion)];
    VersionsAreText(id.candidateVersion);
    UnpackingIsShort(l.CandidateArchive(), dir, id.candidateArchiveSha, id.candidateManifestSha, id.candidateVersion);
    HexIsPrintable(id.rollbackArchiveSha, 64);
    HexIsSimple(id.rollbackArchiveSha, 64);
    assert AllShort(check);
    JoinIsShort(check, unpack);
    assert StageCandidate(l, id) == check + unpack;
  }

  lemma CopyingIsShort(l: Layout, id: ArchiveIdentity)
    requires ShortUploads(l) && ValidIdentity(id)
    ensures AllShort([Cp(l.RollbackUpload(), l.DurableTmp()), HashCheck(l.DurableTmp(), id.rollbackArchiveSha),
                      Mv(l.DurableTmp(), l.DurableArchive())])
  {
    HexIsPrintable(id.rollbackArchiveSha, 64);
    HexIsSimple(id.rollbackArchiveSha, 64);
  }

  lemma RecordingIsShort(l: Layout, id: ArchiveIdentity)
    requires ShortUploads(l) && ValidIdentity(id)
    ensures AllShort([WriteFile(l.IdentityTmp(), IdentityText(id)), Mv(l.IdentityTmp(), l.Identity()),
                      Marker("stage_ready")])
  {
    IdentityIsShort(id);
    IdentityIsPrinted(id);
    MarkersAreSimple();
  }

  lemma SecureIsShort(l: Layout, id: ArchiveIdentity)
    requires ShortUploads(l) && ValidIdentity(id)
    ensures AllShort(SecureRollback(l, id)[2..])
  {
    var copy := [Cp(l.RollbackUpload(), l.DurableTmp()), HashCheck(l.DurableTmp(), id.rollbackArchiveSha),
                 Mv(l.DurableTmp(), l.DurableArchive())];
    var record := [WriteFile(l.IdentityTmp(), IdentityText(id)), Mv(l.IdentityTmp(), l.Identity()),
                   Marker("stage_ready")];
    CopyingIsShort(l, id);
    RecordingIsShort(l, id);
    JoinIsShort(copy, record);
    assert SecureRollback(l, id)[2..] == copy + record;
  }

  lemma KeepPreviousIsShort(l: Layout)
    requires ShortUploads(l) && ShortSources(l)
    ensures IsShortStatement(KeepPreviousSource(l))
  {
  }

  lemma PrepareStatementsAreShort(l: Layout, id: ArchiveIdentity)
    requires ShortUploads(l) && ShortSources(l) && ValidIdentity(id)
    ensures IsShortScript(PrepareStatements(l, id)) && Segments(PrepareStatements(l, id)) == 18
    ensures SpelledScript(PrepareStatements(l, id))
  {
    var early, late := StageCandidate(l, id), SecureRollback(l, id)[2..];
    StageIsShort(l, id);
    SecureIsShort(l, id);
    KeepPreviousIsShort(l);
    SimplesAreShort(early);
    SimplesAreShort(late);
    SegmentsOfBoth([KeepPreviousSource(l)], Simples(late));
    SegmentsOfBoth(Simples(early), [KeepPreviousSource(l)] + Simples(late));
    ShortIsSpelled(PrepareStatements(l, id));
  }

  lemma SimpleScriptArrives(vmId: int, timeoutSeconds: int, commands: seq<Command>, masked: bool)
    requires 0 < vmId <= MAX_SAFE_INTEGER && 0 < timeoutSeconds <= 7200
    requires AllShort(commands) && |commands| <= MAX_COMMANDS - 2
    ensures SpelledScript(Simples(commands))
    ensures Arrives(vmId, timeoutSeconds, ScriptText(Simples(commands), masked), masked, commands)
  {
    SimplesAreShort(commands);
    ShortScriptArrives(vmId, timeoutSeconds, Simples(commands), masked);
  }

  /** The builder's text of a script without conditionals arrives. */
  predicate ScriptArrives(vmId: int, timeoutSeconds: int, commands: seq<Command>, masked: bool) {
    SpelledScript(Simples(commands))
    && Arrives(vmId, timeoutSeconds, ScriptText(Simples(commands), masked), masked, commands)
  }

  /** For every valid identity, virtual machine and timeout, all five scripts are accepted by the
      builder of the guest command, arrive as one word, and are read as the modelled commands. */
  lemma AllScriptsArrive(vmId: int, timeoutSeconds: int, id: ArchiveIdentity)
    requires 0 < vmId <= MAX_SAFE_INTEGER && 0 < timeoutSeconds <= 7200 && ValidIdentity(id)
    ensures CreateLayout(id.candidateCommit, id.candidateManifestSha).Some?
    ensures var l := CreateLayout(id.candidateCommit, id.candidateManifestSha).value;
            && ScriptArrives(vmId, timeoutSeconds, Initialize(l), true)
            && ScriptArrives(vmId, timeoutSeconds, Activate(l), false)
            && ScriptArrives(vmId, timeoutSeconds, Cleanup(l), false)
            && ScriptArrives(vmId, timeoutSeconds, RollbackSource(l, id.rollbackArchiveSha), true)
            && SpelledScript(PrepareStatements(l, id))
            && Arrives(vmId, timeoutSeconds, ScriptText(PrepareStatements(l, id), true), true, Prepare(l, id))
  {
    DeploymentIdOf(id);
    var l := CreateLayout(id.candidateCommit, id.candidateManifestSha).value;
    UploadsAreShort(l);
    SourcesAreShort(l);
    InitializeIsShort(l);
    ActivateIsShort(l);
    CleanupIsShort(l);
    RollbackIsShort(l, id.rollbackArchiveSha);
    PrepareStatementsAreShort(l, id);
    PrepareFlattens(l, id);
    SimpleScriptArrives(vmId, timeoutSeconds, Initialize(l), true);
    SimpleScriptArrives(vmId, timeoutSeconds, Activate(l), false);
    SimpleScriptArrives(vmId, timeoutSeconds, Cleanup(l), false);
    SimpleScriptArrives(vmId, timeoutSeconds, RollbackSource(l, id.rollbackArchiveSha), true);
    ShortScriptArrives(vmId, timeoutSeconds, PrepareStatements(l, id), true);
  }
}
