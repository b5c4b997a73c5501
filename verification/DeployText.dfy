/**
 The text of the deployment scripts.  The shell text that is sent to the guest, read back
 with POSIX word rules, is exactly the list of commands the model executes.

 A script is a list of statements: commands, and a conditional with a body of commands.  In the
 text they are joined by "; ", after `set -eu` and, for three of the five scripts, a `umask`.  The
 reader cuts the tokens at the separators, drops that preamble and follows the reserved words
 `if`, `then` and `fi`, which the builders never put in quotes; a command in the body of a
 conditional is read as that command under the condition.
 */
module DeployText {
  import opened Wrappers
  import opened ShellWords
  import opened RemoteTree
  import opened DeployScripts
  import opened CommandWords

  // ---------------------------------------------------------------------------
  // Statements
  // ---------------------------------------------------------------------------

  /** A script is made of commands, and of commands done only if a directory is there. */
  datatype Statement = Simple(command: Command) | IfDir(dir: Path, body: seq<Command>)

  function Guarded(dir: Path, body: seq<Command>): seq<Command> {
    if body == [] then [] else [WhenDir(dir, body[0])] + Guarded(dir, body[1..])
  }

  /** The commands a script is made of; in a body each is under the condition. */
  function Flatten(script: seq<Statement>): seq<Command> {
    if script == [] then []
    else
      (match script[0]
       case Simple(c) => [c]
       case IfDir(dir, body) => Guarded(dir, body)) + Flatten(script[1..])
  }

  predicate AllSpelled(commands: seq<Command>) {
    forall i :: 0 <= i < |commands| ==> Spelled(commands[i])
  }

  predicate SpelledStatement(s: Statement) {
    match s
    case Simple(c) => Spelled(c)
    case IfDir(dir, body) => PlainPath(dir) && body != [] && AllSpelled(body)
  }

  predicate SpelledScript(script: seq<Statement>) {
    forall i :: 0 <= i < |script| ==> SpelledStatement(script[i])
  }

  function BodyPieces(body: seq<Command>): seq<seq<Piece>>
    requires AllSpelled(body)
  {
    if body == [] then [] else [Pieces(body[0])] + BodyPieces(body[1..])
  }

  const THEN: seq<Piece> := [Bare("then")]
  const FI: seq<Piece> := [Bare("fi")]

  function IfPieces(dir: Path): seq<Piece> {
    [Bare("if"), Mark('['), Bare("-d"), Quoted(PathText(dir)), Mark(']')]
  }

  /** What a statement puts between separators. */
  function StatementPieces(s: Statement): seq<seq<Piece>>
    requires SpelledStatement(s)
  {
    match s
    case Simple(c) => [Pieces(c)]
    case IfDir(dir, body) => [IfPieces(dir)] + ([THEN + Pieces(body[0])] + (BodyPieces(body[1..]) + [FI]))
  }

  function ScriptPieces(script: seq<Statement>): seq<seq<Piece>>
    requires SpelledScript(script)
  {
    if script == [] then [] else StatementPieces(script[0]) + ScriptPieces(script[1..])
  }

  const SET_EU: seq<Piece> := [Bare("set"), Bare("-eu")]
  const UMASK: seq<Piece> := [Bare("umask"), Bare("077")]

  predicate AllCommandsValid(pieces: seq<seq<Piece>>) {
    forall i :: 0 <= i < |pieces| ==> ValidCommand(pieces[i])
  }

  lemma {:induction false} BodyPiecesValid(body: seq<Command>)
    requires AllSpelled(body)
    ensures AllCommandsValid(BodyPieces(body))
  {
    if body != [] {
      PiecesAreValid(body[0]);
      BodyPiecesValid(body[1..]);
    }
  }

  lemma IfPiecesValid(dir: Path)
    requires PlainPath(dir)
    ensures ValidCommand(IfPieces(dir)) && ValidCommand(FI)
  {
    KeywordsAreLiteral();
    PathIsValid(dir);
    SixPiecesAreValid(Bare("if"), Mark('['), Bare("-d"), Quoted(PathText(dir)), Mark(']'), Bare("fi"));
  }

  lemma ThenPiecesValid(c: Command)
    requires Spelled(c)
    ensures ValidCommand(THEN + Pieces(c))
  {
    KeywordsAreLiteral();
    PiecesAreValid(c);
  }

  lemma StatementPiecesValid(s: Statement)
    requires SpelledStatement(s)
    ensures AllCommandsValid(StatementPieces(s))
  {
    match s {
      case Simple(c) => PiecesAreValid(c);
      case IfDir(dir, body) =>
        IfPiecesValid(dir);
        ThenPiecesValid(body[0]);
        BodyPiecesValid(body[1..]);
    }
  }

  lemma {:induction false} ScriptPiecesValid(script: seq<Statement>)
    requires SpelledScript(script)
    ensures AllCommandsValid(ScriptPieces(script))
  {
    if script != [] {
      StatementPiecesValid(script[0]);
      ScriptPiecesValid(script[1..]);
    }
  }

  /** The builders' text; some scripts also set a umask before their first command. */
  function ScriptText(script: seq<Statement>, masked: bool): string
    requires SpelledScript(script)
  {
    ScriptPiecesValid(script);
    PreambleIsValid(ScriptPieces(script), masked);
    RenderScript(PreamblePieces(masked) + ScriptPieces(script))
  }

  // ---------------------------------------------------------------------------
  // Reading a script
  // ---------------------------------------------------------------------------

  /** Cut a token list at its separators. */
  function Cut(tokens: seq<Token>): (cut: seq<seq<Token>>)
    ensures cut != []
  {
    if tokens == [] then [[]]
    else
      var rest := Cut(tokens[1..]);
      if tokens[0] == Separator then [[]] + rest
      else [[tokens[0]] + rest[0]] + rest[1..]
  }

  /** Where the reader is: outside a conditional, before its `then`, or in its body. */
  datatype Context = Outside | Condition(dir: Path) | Body(dir: Path)

  function ParseIf(words: seq<Token>): Option<Path> {
    if |words| == 5 && words[0] == Word("if") && words[1] == Word("[") && words[2] == Word("-d") && words[3].Word?
       && words[4] == Word("]") then ParsePath(words[3].text)
    else None
  }

  function Prefixed(commands: seq<Command>, rest: Option<seq<Command>>): Option<seq<Command>> {
    if rest.None? then None else Some(commands + rest.value)
  }

  /** The commands between separators, each under the condition it stands in. */
  function DecodeAll(lists: seq<seq<Token>>, context: Context): Option<seq<Command>> {
    if lists == [] then if context == Outside then Some([]) else None
    else
      var words, rest := lists[0], lists[1..];
      match context
      case Outside =>
        if words != [] && words[0] == Word("if") then
          var dir := ParseIf(words);
          if dir.None? then None else DecodeAll(rest, Condition(dir.value))
        else
          var c := Decode(words);
          if c.None? then None else Prefixed([c.value], DecodeAll(rest, Outside))
      case Condition(dir) =>
        var c := if words != [] && words[0] == Word("then") then Decode(words[1..]) else None;
        if c.None? then None else Prefixed([WhenDir(dir, c.value)], DecodeAll(rest, Body(dir)))
      case Body(dir) =>
        if words == [Word("fi")] then DecodeAll(rest, Outside)
        else
          var c := Decode(words);
          if c.None? then None else Prefixed([WhenDir(dir, c.value)], DecodeAll(rest, Body(dir)))
  }

  /** What a guest shell executes when it reads the text: the commands after the preamble. */
  function Understood(text: string, masked: bool): Option<seq<Command>> {
    var tokens := Parse(text);
    if tokens.None? then None
    else
      var cut := Cut(tokens.value);
      var preamble := Preamble(masked);
      if preamble <= cut then DecodeAll(cut[|preamble|..], Outside) else None
  }

  lemma {:induction false} CutPrefix(command: seq<Token>, rest: seq<Token>)
    requires Separator !in command
    ensures Cut(command + [Separator] + rest) == [command] + Cut(rest)
    ensures Cut(command) == [command]
  {
    if command == [] {
      assert command + [Separator] + rest == [Separator] + rest;
      assert ([Separator] + rest)[1..] == rest;
    } else {
      CutPrefix(command[1..], rest);
      assert (command + [Separator] + rest)[1..] == command[1..] + [Separator] + rest;
      assert [command[0]] + command[1..] == command;
    }
  }

  lemma {:induction false} TokensAreWords(command: seq<Piece>)
    ensures Separator !in CommandTokens(command)
  {
    if command != [] { TokensAreWords(command[1..]); }
  }

  function TokenLists(script: seq<seq<Piece>>): seq<seq<Token>> {
    if script == [] then [] else [CommandTokens(script[0])] + TokenLists(script[1..])
  }

  lemma {:induction false} CutScript(script: seq<seq<Piece>>)
    requires script != []
    ensures Cut(ScriptTokens(script)) == TokenLists(script)
  {
    TokensAreWords(script[0]);
    if |script| == 1 {
      CutPrefix(CommandTokens(script[0]), []);
      assert script[1..] == [];
    } else {
      CutPrefix(CommandTokens(script[0]), ScriptTokens(script[1..]));
      CutScript(script[1..]);
    }
  }

  lemma {:induction false} TokenListsOfBoth(p: seq<seq<Piece>>, q: seq<seq<Piece>>)
    ensures TokenLists(p + q) == TokenLists(p) + TokenLists(q)
  {
    if p == [] {
      assert p + q == q;
    } else {
      assert (p + q)[1..] == p[1..] + q;
      TokenListsOfBoth(p[1..], q);
    }
  }

  lemma PrefixedTwice(first: seq<Command>, second: seq<Command>, rest: Option<seq<Command>>)
    ensures Prefixed(first, Prefixed(second, rest)) == Prefixed(first + second, rest)
  {
    if rest.Some? { assert first + (second + rest.value) == first + second + rest.value; }
  }

  lemma TokensOfKeywords()
    ensures CommandTokens(THEN) == [Word("then")] && CommandTokens(FI) == [Word("fi")]
  {
    FlatTokens(THEN);
    FlatTokens(FI);
  }

  lemma ReadBody(first: seq<Token>, others: seq<seq<Token>>, dir: Path, c: Command)
    requires first != [Word("fi")] && Decode(first) == Some(c)
    ensures DecodeAll([first] + others, Body(dir)) == Prefixed([WhenDir(dir, c)], DecodeAll(others, Body(dir)))
  {
    assert ([first] + others)[1..] == others;
  }

  lemma ReadFi(dir: Path, rest: seq<seq<Token>>)
    ensures DecodeAll([[Word("fi")]] + rest, Body(dir)) == DecodeAll(rest, Outside)
  {
    assert ([[Word("fi")]] + rest)[1..] == rest;
  }

  lemma TokenListsOfFirst(first: seq<Piece>, others: seq<seq<Piece>>, tail: seq<seq<Token>>)
    ensures TokenLists([first] + others) + tail == [CommandTokens(first)] + (TokenLists(others) + tail)
  {
    assert ([first] + others)[1..] == others;
  }

  lemma {:induction false} DecodeBody(dir: Path, body: seq<Command>, rest: seq<seq<Token>>)
    requires AllSpelled(body)
    ensures DecodeAll(TokenLists(BodyPieces(body)) + ([[Word("fi")]] + rest), Body(dir))
            == Prefixed(Guarded(dir, body), DecodeAll(rest, Outside))
  {
    var tail, after := [[Word("fi")]] + rest, DecodeAll(rest, Outside);
    if body == [] {
      assert TokenLists(BodyPieces(body)) + tail == tail;
      ReadFi(dir, rest);
      assert after.Some? ==> [] + after.value == after.value;
    } else {
      TokenListsOfFirst(Pieces(body[0]), BodyPieces(body[1..]), tail);
      DecodeInverts(body[0]);
      CommandsAreNotReserved(body[0]);
      ReadBody(CommandTokens(Pieces(body[0])), TokenLists(BodyPieces(body[1..])) + tail, dir, body[0]);
      DecodeBody(dir, body[1..], rest);
      PrefixedTwice([WhenDir(dir, body[0])], Guarded(dir, body[1..]), after);
    }
  }

  lemma IfTokens(dir: Path)
    requires PlainPath(dir)
    ensures var words := CommandTokens(IfPieces(dir));
            words != [] && words[0] == Word("if") && ParseIf(words) == Some(dir)
  {
    FlatTokens(IfPieces(dir));
    PathIsValid(dir);
  }

  lemma ThenTokens(c: Command)
    requires Spelled(c)
    ensures var words := CommandTokens(THEN + Pieces(c));
            words != [] && words[0] == Word("then") && words[1..] == CommandTokens(Pieces(c))
  {
    TokensOfKeywords();
    TokensOfBoth(THEN, Pieces(c));
  }

  /** The pieces of a conditional: its condition, its first command, and the others with `fi`. */
  lemma IfLists(dir: Path, body: seq<Command>, rest: seq<seq<Token>>)
    requires SpelledStatement(IfDir(dir, body))
    ensures TokenLists(StatementPieces(IfDir(dir, body))) + rest
            == [CommandTokens(IfPieces(dir))] + ([CommandTokens(THEN + Pieces(body[0]))]
                 + (TokenLists(BodyPieces(body[1..])) + ([[Word("fi")]] + rest)))
  {
    var others := BodyPieces(body[1..]);
    TokensOfKeywords();
    TokenListsOfBoth(others, [FI]);
    var second := [THEN + Pieces(body[0])] + (others + [FI]);
    assert second[1..] == others + [FI];
    assert StatementPieces(IfDir(dir, body))[1..] == second;
    assert TokenLists([FI]) == [[Word("fi")]];
  }

  lemma ReadCondition(condition: seq<Token>, first: seq<Token>, others: seq<seq<Token>>, dir: Path, c: Command)
    requires condition != [] && condition[0] == Word("if") && ParseIf(condition) == Some(dir)
    requires first != [] && first[0] == Word("then") && Decode(first[1..]) == Some(c)
    ensures DecodeAll([condition] + ([first] + others), Outside)
            == Prefixed([WhenDir(dir, c)], DecodeAll(others, Body(dir)))
  {
    var second := [first] + others;
    assert ([condition] + second)[1..] == second && second[1..] == others;
  }

  lemma DecodeIf(dir: Path, body: seq<Command>, rest: seq<seq<Token>>)
    requires SpelledStatement(IfDir(dir, body))
    ensures DecodeAll(TokenLists(StatementPieces(IfDir(dir, body))) + rest, Outside)
            == Prefixed(Guarded(dir, body), DecodeAll(rest, Outside))
  {
    IfLists(dir, body, rest);
    IfTokens(dir);
    ThenTokens(body[0]);
    DecodeInverts(body[0]);
    var others := TokenLists(BodyPieces(body[1..])) + ([[Word("fi")]] + rest);
    ReadCondition(CommandTokens(IfPieces(dir)), CommandTokens(THEN + Pieces(body[0])), others, dir, body[0]);
    DecodeBody(dir, body[1..], rest);
    PrefixedTwice([WhenDir(dir, body[0])], Guarded(dir, body[1..]), DecodeAll(rest, Outside));
  }

  lemma OneTokenList(command: seq<Piece>)
    ensures TokenLists([command]) == [CommandTokens(command)]
  {
  }

  lemma DecodeSimple(c: Command, rest: seq<seq<Token>>)
    requires Spelled(c)
    ensures DecodeAll(TokenLists(StatementPieces(Simple(c))) + rest, Outside) == Prefixed([c], DecodeAll(rest, Outside))
  {
    OneTokenList(Pieces(c));
    var lists := [CommandTokens(Pieces(c))] + rest;
    assert lists[1..] == rest;
    DecodeInverts(c);
    CommandsAreNotReserved(c);
  }

  lemma {:induction false} DecodeScript(script: seq<Statement>)
    requires SpelledScript(script)
    ensures DecodeAll(TokenLists(ScriptPieces(script)), Outside) == Some(Flatten(script))
  {
    if script != [] {
      var rest := TokenLists(ScriptPieces(script[1..]));
      TokenListsOfBoth(StatementPieces(script[0]), ScriptPieces(script[1..]));
      DecodeScript(script[1..]);
      match script[0] {
        case Simple(c) => DecodeSimple(c, rest);
        case IfDir(dir, body) => DecodeIf(dir, body, rest);
      }
    }
  }

  function Preamble(masked: bool): seq<seq<Token>> {
    [[Word("set"), Word("-eu")]] + (if masked then [[Word("umask"), Word("077")]] else [])
  }

  function PreamblePieces(masked: bool): seq<seq<Piece>> { [SET_EU] + (if masked then [UMASK] else []) }

  lemma TokensOfPreamble()
    ensures CommandTokens(SET_EU) == [Word("set"), Word("-eu")]
    ensures CommandTokens(UMASK) == [Word("umask"), Word("077")]
  {
    FlatTokens(SET_EU);
    FlatTokens(UMASK);
  }

  lemma TokenListsOfPreamble(masked: bool)
    ensures TokenLists(PreamblePieces(masked)) == Preamble(masked)
  {
    TokensOfPreamble();
    if masked {
      assert [SET_EU, UMASK][1..] == [UMASK];
      assert TokenLists([UMASK]) == [CommandTokens(UMASK)];
    }
  }

  lemma PreambleIsValid(body: seq<seq<Piece>>, masked: bool)
    requires AllCommandsValid(body)
    ensures ValidScript(PreamblePieces(masked) + body)
  {
    assert ValidCommand(SET_EU) && ValidCommand(UMASK);
  }

  /** The text sent to the guest means exactly the modelled commands. */
  lemma TextMeansScript(script: seq<Statement>, masked: bool)
    requires SpelledScript(script)
    ensures Understood(ScriptText(script, masked), masked) == Some(Flatten(script))
  {
    ScriptPiecesValid(script);
    var body := ScriptPieces(script);
    PreambleIsValid(body, masked);
    var all := PreamblePieces(masked) + body;
    LexScript(all);
    CutScript(all);
    TokenListsOfPreamble(masked);
    TokenListsOfBoth(PreamblePieces(masked), body);
    DecodeScript(script);
    assert (Preamble(masked) + TokenLists(body))[|Preamble(masked)|..] == TokenLists(body);
  }

  // ---------------------------------------------------------------------------
  // The five scripts that work on files
  // ---------------------------------------------------------------------------

  function Simples(commands: seq<Command>): seq<Statement> {
    if commands == [] then [] else [Simple(commands[0])] + Simples(commands[1..])
  }

  /** Keeping the previous source is one conditional of two commands. */
  function KeepPreviousSource(l: Layout): Statement {
    IfDir(ADDON_SOURCE, [TarDir(ADDON_SOURCE, l.PreviousTmp()), Mv(l.PreviousTmp(), l.PreviousSource())])
  }

  function PrepareStatements(l: Layout, id: ArchiveIdentity): seq<Statement> {
    Simples(StageCandidate(l, id)) + ([KeepPreviousSource(l)] + Simples(SecureRollback(l, id)[2..]))
  }

  lemma {:induction false} SimplesFlatten(commands: seq<Command>)
    ensures Flatten(Simples(commands)) == commands
    ensures AllSpelled(commands) ==> SpelledScript(Simples(commands))
  {
    if commands != [] {
      SimplesFlatten(commands[1..]);
      assert [commands[0]] + commands[1..] == commands;
    }
  }

  lemma {:induction false} FlattenBoth(a: seq<Statement>, b: seq<Statement>)
    ensures Flatten(a + b) == Flatten(a) + Flatten(b)
  {
    if a == [] {
      assert a + b == b;
    } else {
      assert (a + b)[1..] == a[1..] + b;
      FlattenBoth(a[1..], b);
    }
  }

  lemma KeepPreviousFlattens(l: Layout)
    ensures Flatten([KeepPreviousSource(l)]) == [WhenDir(ADDON_SOURCE, TarDir(ADDON_SOURCE, l.PreviousTmp())),
                                                 WhenDir(ADDON_SOURCE, Mv(l.PreviousTmp(), l.PreviousSource()))]
  {
    var body := [TarDir(ADDON_SOURCE, l.PreviousTmp()), Mv(l.PreviousTmp(), l.PreviousSource())];
    assert body[1..] == [Mv(l.PreviousTmp(), l.PreviousSource())];
    assert Guarded(ADDON_SOURCE, body[1..]) == [WhenDir(ADDON_SOURCE, Mv(l.PreviousTmp(), l.PreviousSource()))];
    assert Flatten([KeepPreviousSource(l)]) == Guarded(ADDON_SOURCE, body);
  }

  lemma SecureRollbackSplits(l: Layout, id: ArchiveIdentity)
    ensures SecureRollback(l, id)
            == [WhenDir(ADDON_SOURCE, TarDir(ADDON_SOURCE, l.PreviousTmp())),
                WhenDir(ADDON_SOURCE, Mv(l.PreviousTmp(), l.PreviousSource()))] + SecureRollback(l, id)[2..]
  {
  }

  lemma PrepareFlattens(l: Layout, id: ArchiveIdentity)
    ensures Flatten(PrepareStatements(l, id)) == Prepare(l, id)
  {
    var early, late := StageCandidate(l, id), SecureRollback(l, id)[2..];
    FlattenBoth(Simples(early), [KeepPreviousSource(l)] + Simples(late));
    FlattenBoth([KeepPreviousSource(l)], Simples(late));
    SimplesFlatten(early);
    SimplesFlatten(late);
    KeepPreviousFlattens(l);
    SecureRollbackSplits(l, id);
  }

  lemma PlainJoin(a: string, b: string)
    requires PlainComponent(a) && PlainComponent(b)
    ensures PlainComponent(a + b)
  {}

  lemma ConstantsArePlain()
    ensures PlainPath(ADDON_SOURCE) && PlainPath(BACKUPS)
    ensures PlainComponent("tmp") && PlainComponent("ha-smartthings-web-bridge-")
    ensures PlainComponent("candidate-source") && PlainComponent("rollback-source")
    ensures PlainComponent(MANIFEST) && PlainComponent(CONFIG)
  {
    assert PlainComponent("mnt") && PlainComponent("data") && PlainComponent("supervisor");
    assert PlainComponent("apps") && PlainComponent("local") && PlainComponent("smartthings_web_bridge");
    assert PlainComponent("backup") && PlainComponent("ha-smartthings-web-bridge");
  }

  lemma PlainExtend(p: Path, c: string)
    requires PlainPath(p) && PlainComponent(c)
    ensures PlainPath(p + [c])
  {}

  lemma KeptIsPlain(l: Layout, name: string)
    requires PlainComponent(l.deploymentId) && PlainComponent(name)
    ensures PlainPath(l.Kept(name)) && PlainPath(l.BackupRoot())
  {
    ConstantsArePlain();
    PlainExtend(BACKUPS, l.deploymentId);
    PlainExtend(l.BackupRoot(), name);
  }

  lemma TemporaryIsPlain(l: Layout, name: string)
    requires PlainComponent(l.deploymentId) && PlainComponent(name)
    ensures PlainPath(l.TemporaryRoot() + [name]) && PlainPath(l.TemporaryRoot())
  {
    ConstantsArePlain();
    PlainJoin("ha-smartthings-web-bridge-", l.deploymentId);
    PlainExtend(l.TemporaryRoot(), name);
  }

  lemma NamesArePlain()
    ensures PlainComponent("candidate.tgz") && PlainComponent("rollback.tgz")
    ensures PlainComponent("rollback-" + ROLLBACK_COMMIT + ".tgz")
    ensures PlainComponent("rollback-" + ROLLBACK_COMMIT + ".tgz.tmp")
    ensures PlainComponent("source-before-deploy.tar") && PlainComponent("source-before-deploy.tar.tmp")
    ensures PlainComponent("deployment-identity.txt") && PlainComponent("deployment-identity.txt.tmp")
  {
    assert PlainComponent("rollback-") && PlainComponent(ROLLBACK_COMMIT);
    assert PlainComponent(".tgz") && PlainComponent(".tgz.tmp");
    PlainJoin("rollback-", ROLLBACK_COMMIT);
    PlainJoin("rollback-" + ROLLBACK_COMMIT, ".tgz");
    PlainJoin("rollback-" + ROLLBACK_COMMIT, ".tgz.tmp");
  }

  predicate PlainLayout(l: Layout) {
    && PlainPath(l.TemporaryRoot()) && PlainPath(l.CandidateArchive()) && PlainPath(l.RollbackUpload())
    && PlainPath(l.BackupRoot()) && PlainPath(l.DurableArchive()) && PlainPath(l.DurableTmp())
    && PlainPath(l.PreviousSource()) && PlainPath(l.PreviousTmp()) && PlainPath(l.Identity())
    && PlainPath(l.IdentityTmp())
  }

  predicate PlainSources(l: Layout) {
    && PlainPath(ADDON_SOURCE) && PlainPath(l.CandidateSource()) && PlainPath(l.RollbackSource())
    && PlainPath(l.CandidateSource() + [MANIFEST]) && PlainPath(l.CandidateSource() + [CONFIG])
    && PlainPath(l.RollbackSource() + [MANIFEST]) && PlainPath(l.RollbackSource() + [CONFIG])
    && PlainPath(ADDON_SOURCE + [CONFIG])
  }

  lemma LayoutIsPlain(l: Layout)
    requires PlainComponent(l.deploymentId)
    ensures PlainLayout(l)
  {
    NamesArePlain();
    TemporaryIsPlain(l, "candidate.tgz");
    TemporaryIsPlain(l, "rollback.tgz");
    KeptIsPlain(l, "rollback-" + ROLLBACK_COMMIT + ".tgz");
    KeptIsPlain(l, "rollback-" + ROLLBACK_COMMIT + ".tgz.tmp");
    KeptIsPlain(l, "source-before-deploy.tar");
    KeptIsPlain(l, "source-before-deploy.tar.tmp");
    KeptIsPlain(l, "deployment-identity.txt");
    KeptIsPlain(l, "deployment-identity.txt.tmp");
  }

  lemma SourcesArePlain(l: Layout)
    requires PlainComponent(l.deploymentId)
    ensures PlainSources(l)
  {
    ConstantsArePlain();
    KeptIsPlain(l, "candidate-source");
    KeptIsPlain(l, "rollback-source");
    PlainExtend(l.CandidateSource(), MANIFEST);
    PlainExtend(l.CandidateSource(), CONFIG);
    PlainExtend(l.RollbackSource(), MANIFEST);
    PlainExtend(l.RollbackSource(), CONFIG);
    PlainExtend(ADDON_SOURCE, CONFIG);
  }

  lemma CreatedLayoutIsPlain(commit: string, manifestSha: string)
    requires CreateLayout(commit, manifestSha).Some?
    ensures PlainComponent(CreateLayout(commit, manifestSha).value.deploymentId)
  {}

  lemma HexIsPrintable(s: string, n: nat)
    requires IsHex(s, n)
    ensures IsLine(s) && NulFree(s)
  {}

  lemma HexJoins(a: string, b: string)
    requires IsHex(a, 32) && IsHex(b, 32)
    ensures IsHex(a + b, 64)
  {}

  lemma CommitIsHex()
    ensures IsHex(ROLLBACK_COMMIT, 40)
  {}

  lemma HalvesAreHex()
    ensures IsHex("eea6eec161685b0ee5f04e0d848f0148", 32) && IsHex("f7fc8be1d95a0c3ab0d6f584daf3003c", 32)
  {}

  lemma RollbackIsHex()
    ensures IsHex(ROLLBACK_COMMIT, 40) && IsHex(ROLLBACK_MANIFEST_SHA256, 64)
  {
    CommitIsHex();
    HalvesAreHex();
    HexJoins("eea6eec161685b0ee5f04e0d848f0148", "f7fc8be1d95a0c3ab0d6f584daf3003c");
  }

  lemma {:induction false} UnlinesIsNulFree(lines: seq<string>)
    requires forall i :: 0 <= i < |lines| ==> NulFree(lines[i])
    ensures NulFree(Unlines(lines))
  {
    if lines != [] { UnlinesIsNulFree(lines[1..]); }
  }

  lemma LabelledHex(name: string, value: string, n: nat)
    requires IsLine(name) && NulFree(name) && IsHex(value, n)
    ensures IsLine(name + value) && NulFree(name + value)
  {}

  predicate ArePrintable(lines: seq<string>) {
    forall i :: 0 <= i < |lines| ==> IsLine(lines[i]) && NulFree(lines[i])
  }

  predicate IsPrintable(s: string) { IsLine(s) && NulFree(s) }

  lemma CandidateLabelsArePrintable()
    ensures IsPrintable("schema_version=1") && IsPrintable("candidate_commit=") && IsPrintable("candidate_manifest=")
  {}

  lemma RollbackLabelsArePrintable()
    ensures IsPrintable("rollback_commit=") && IsPrintable("rollback_manifest=") && IsPrintable("rollback_archive=")
  {}

  lemma IdentityIsPrintable(id: ArchiveIdentity)
    requires ValidIdentity(id)
    ensures ArePrintable(IdentityLines(id))
  {
    CandidateLabelsArePrintable();
    RollbackLabelsArePrintable();
    RollbackIsHex();
    LabelledHex("candidate_commit=", id.candidateCommit, 40);
    LabelledHex("candidate_manifest=", id.candidateManifestSha, 64);
    LabelledHex("rollback_commit=", ROLLBACK_COMMIT, 40);
    LabelledHex("rollback_manifest=", ROLLBACK_MANIFEST_SHA256, 64);
    LabelledHex("rollback_archive=", id.rollbackArchiveSha, 64);
  }

  /** The identity file is printed line by line, one argument a line. */
  lemma IdentityIsPrinted(id: ArchiveIdentity)
    requires ValidIdentity(id)
    ensures Lines(IdentityText(id)) == IdentityLines(id) && PrintedLines(IdentityText(id))
  {
    IdentityIsPrintable(id);
    LinesOfUnlines(IdentityLines(id));
    UnlinesIsNulFree(IdentityLines(id));
  }

  lemma ShortScriptsAreSpelled(l: Layout)
    requires PlainLayout(l) && PlainSources(l)
    ensures AllSpelled(Initialize(l)) && AllSpelled(Activate(l)) && AllSpelled(Cleanup(l))
  {
    assert NulFree("upload_ready") && NulFree("source_activated") && NulFree("temporary_files_removed");
  }

  lemma RollbackIsSpelled(l: Layout, sha: string)
    requires PlainLayout(l) && PlainSources(l) && IsHex(sha, 64)
    ensures AllSpelled(RollbackSource(l, sha))
  {
    HexIsPrintable(sha, 64);
    RollbackIsHex();
    HexIsPrintable(ROLLBACK_MANIFEST_SHA256, 64);
    assert VersionText(ROLLBACK_VERSION) && NulFree("rollback_source_restored");
  }

  lemma PrepareIsSpelled(l: Layout, id: ArchiveIdentity)
    requires PlainLayout(l) && PlainSources(l) && ValidIdentity(id)
    ensures AllSpelled(StageCandidate(l, id)) && AllSpelled(SecureRollback(l, id)[2..])
    ensures SpelledStatement(KeepPreviousSource(l))
  {
    HexIsPrintable(id.candidateArchiveSha, 64);
    HexIsPrintable(id.candidateManifestSha, 64);
    HexIsPrintable(id.rollbackArchiveSha, 64);
    VersionsAreText(id.candidateVersion);
    IdentityIsPrinted(id);
    assert NulFree("stage_ready");
  }

  lemma PrepareStatementsAreSpelled(l: Layout, id: ArchiveIdentity)
    requires PlainLayout(l) && PlainSources(l) && ValidIdentity(id)
    ensures SpelledScript(PrepareStatements(l, id))
  {
    PrepareIsSpelled(l, id);
    SimplesFlatten(StageCandidate(l, id));
    SimplesFlatten(SecureRollback(l, id)[2..]);
  }

  lemma SimpleTextMeans(commands: seq<Command>, masked: bool)
    requires AllSpelled(commands)
    ensures SpelledScript(Simples(commands))
    ensures Understood(ScriptText(Simples(commands), masked), masked) == Some(commands)
  {
    SimplesFlatten(commands);
    TextMeansScript(Simples(commands), masked);
  }

  /** For every valid identity the texts of initialization, preparation, activation, rollback and
      cleanup, read as a shell reads them, are exactly the modelled commands. */
  lemma ScriptsReachGuestIntact(id: ArchiveIdentity)
    requires ValidIdentity(id)
    ensures CreateLayout(id.candidateCommit, id.candidateManifestSha).Some?
    ensures var l := CreateLayout(id.candidateCommit, id.candidateManifestSha).value;
            && AllSpelled(Initialize(l)) && AllSpelled(Activate(l)) && AllSpelled(Cleanup(l))
            && AllSpelled(RollbackSource(l, id.rollbackArchiveSha)) && SpelledScript(PrepareStatements(l, id))
            && ReadsAs(Initialize(l), true) && ReadsAs(Activate(l), false) && ReadsAs(Cleanup(l), false)
            && ReadsAs(RollbackSource(l, id.rollbackArchiveSha), true)
            && Understood(ScriptText(PrepareStatements(l, id), true), true) == Some(Prepare(l, id))
  {
    var l := CreateLayout(id.candidateCommit, id.candidateManifestSha).value;
    CreatedLayoutIsPlain(id.candidateCommit, id.candidateManifestSha);
    LayoutIsPlain(l);
    SourcesArePlain(l);
    ShortScriptsAreSpelled(l);
    RollbackIsSpelled(l, id.rollbackArchiveSha);
    PrepareStatementsAreSpelled(l, id);
    SimpleTextMeans(Initialize(l), true);
    SimpleTextMeans(Activate(l), false);
    SimpleTextMeans(Cleanup(l), false);
    SimpleTextMeans(RollbackSource(l, id.rollbackArchiveSha), true);
    TextMeansScript(PrepareStatements(l, id), true);
    PrepareFlattens(l, id);
  }

  /** The text of a script without conditionals is read back as its commands. */
  predicate ReadsAs(commands: seq<Command>, masked: bool)
    requires AllSpelled(commands)
  {
    SimplesFlatten(commands);
    Understood(ScriptText(Simples(commands), masked), masked) == Some(commands)
  }
}
