/**
 Shell quoting in tools/haos-candidate-deploy-core.ts, and the part of the POSIX shell's
 word parsing that undoes it (POSIX.1-2017 XCU sections 2.2.2, 2.2.3, 2.3 and 2.6.3).

 The lexer rejects everything the builders never emit outside quotes (parameter expansions,
 backslashes, globs) and NUL, which no shell word can hold.  Of command substitutions it knows
 the ones that are a whole double-quoted word; what is inside is lexed as a command, between
 two tokens that stand for its ends.
 */
module ShellWords {
  import opened Wrappers

  datatype Token = Word(text: string) | Separator | Redirect | Pipe | OpenSubstitution | CloseSubstitution

  const NUL := '\0'

  predicate NulFree(s: string) {
    forall i :: 0 <= i < |s| ==> s[i] != NUL
  }

  /** Characters that stand for themselves outside quotes. */
  predicate Literal(c: char) {
    'a' <= c <= 'z' || 'A' <= c <= 'Z' || '0' <= c <= '9' || c in "/._-:%"
  }

  /** Characters that are words when they stand alone. */
  predicate Sign(c: char) { c in "=[]" }

  /** What follows a complete word: the end, or a character that ends it. */
  predicate EndsWord(rest: string) {
    rest == "" || rest[0] == ' ' || rest[0] == ';'
  }

  // ---------------------------------------------------------------------------
  // The lexer
  // ---------------------------------------------------------------------------

  function Emit(word: Option<string>, rest: Option<seq<Token>>): Option<seq<Token>> {
    if rest.None? then None
    else if word.None? then rest
    else Some([Word(word.value)] + rest.value)
  }

  function Prepend(t: Token, rest: Option<seq<Token>>): Option<seq<Token>> {
    if rest.None? then None else Some([t] + rest.value)
  }

  /** Outside quotes; `word` is the word read so far, if one has begun. */
  function LexPlain(s: string, word: Option<string>): Option<seq<Token>>
    decreases |s|
  {
    if s == "" then Emit(word, Some([]))
    else
      var c, rest := s[0], s[1..];
      if c == ' ' || c == '\t' then Emit(word, LexPlain(rest, None))
      else if c == ';' then Emit(word, Prepend(Separator, LexPlain(rest, None)))
      else if c == '>' then
        // A number glued to ">" would name a file descriptor.
        if word.Some? then None else Prepend(Redirect, LexPlain(rest, None))
      else if c == '|' then Emit(word, Prepend(Pipe, LexPlain(rest, None)))
      else if c == '\'' then LexSingle(rest, word.GetOr(""))
      else if c == '"' && word.None? && "$(" <= rest then Prepend(OpenSubstitution, LexPlain(rest[2..], None))
      else if c == '"' then LexDouble(rest, word.GetOr(""))
      else if c == ')' then
        // The substitution is the whole word.
        if "\"" <= rest && EndsWord(rest[1..]) then Emit(word, Prepend(CloseSubstitution, LexPlain(rest[1..], None)))
        else None
      else if Sign(c) then
        if word.None? && EndsWord(rest) then Prepend(Word([c]), LexPlain(rest, None)) else None
      else if Literal(c) then LexPlain(rest, Some(word.GetOr("") + [c]))
      else None
  }

  /** Between single quotes every character is preserved. */
  function LexSingle(s: string, word: string): Option<seq<Token>>
    decreases |s|
  {
    if s == "" then None
    else if s[0] == '\'' then LexPlain(s[1..], Some(word))
    else if s[0] == NUL then None
    else LexSingle(s[1..], word + [s[0]])
  }

  /** Between double quotes; expansions and escapes are not modelled. */
  function LexDouble(s: string, word: string): Option<seq<Token>>
    decreases |s|
  {
    if s == "" then None
    else if s[0] == '"' then LexPlain(s[1..], Some(word))
    else if s[0] == NUL || s[0] in "$`\\" then None
    else LexDouble(s[1..], word + [s[0]])
  }

  function Parse(s: string): Option<seq<Token>> {
    LexPlain(s, None)
  }

  // ---------------------------------------------------------------------------
  // Quoting
  // ---------------------------------------------------------------------------

  const QUOTED_QUOTE := "'\"'\"'"

  function EscapeQuotes(s: string): string {
    if s == "" then ""
    else (if s[0] == '\'' then QUOTED_QUOTE else [s[0]]) + EscapeQuotes(s[1..])
  }

  function ShellQuote(s: string): string {
    "'" + EscapeQuotes(s) + "'"
  }

  lemma LexQuotedQuote(word: string, rest: string)
    ensures LexSingle(QUOTED_QUOTE + rest, word) == LexSingle(rest, word + "'")
  {
    var s := QUOTED_QUOTE + rest;
    var s1, s2, s3, s4 := s[1..], s[2..], s[3..], s[4..];
    assert s[5..] == rest;
    assert s1[1..] == s2 && s2[1..] == s3 && s3[1..] == s4 && s4[1..] == s[5..];
    assert LexSingle(s, word) == LexPlain(s1, Some(word));
    assert LexPlain(s1, Some(word)) == LexDouble(s2, word);
    assert LexDouble(s2, word) == LexDouble(s3, word + ['\'']);
    assert LexDouble(s3, word + ['\'']) == LexPlain(s4, Some(word + "'"));
    assert LexPlain(s4, Some(word + "'")) == LexSingle(rest, word + "'");
  }

  lemma {:induction false} LexEscaped(s: string, word: string, rest: string)
    ensures LexSingle(EscapeQuotes(s) + "'" + rest, word) ==
            if NulFree(s) then LexPlain(rest, Some(word + s)) else None
  {
    var all := EscapeQuotes(s) + "'" + rest;
    if s == "" {
      assert all == "'" + rest && word + s == word;
    } else {
      var tail := EscapeQuotes(s[1..]) + "'" + rest;
      assert word + s == (word + [s[0]]) + s[1..];
      assert NulFree(s) <==> s[0] != NUL && NulFree(s[1..]);
      if s[0] == '\'' {
        assert all == QUOTED_QUOTE + tail;
        LexQuotedQuote(word, tail);
        LexEscaped(s[1..], word + "'", rest);
      } else {
        assert all == [s[0]] + tail;
        if s[0] != NUL {
          LexEscaped(s[1..], word + [s[0]], rest);
        }
      }
    }
  }

  lemma LexShellQuote(s: string, rest: string)
    ensures LexPlain(ShellQuote(s) + rest, None) == if NulFree(s) then LexPlain(rest, Some(s)) else None
  {
    var body := EscapeQuotes(s) + "'" + rest;
    assert ShellQuote(s) + rest == "'" + body;
    LexEscaped(s, "", rest);
    assert "" + s == s;
  }

  /** A quoted string is read back as exactly the one word it stands for, unless it holds NUL. */
  lemma QuotedStringIsOneWord(s: string)
    ensures Parse(ShellQuote(s)) == Some([Word(s)]) <==> NulFree(s)
    ensures Parse(ShellQuote(s)) == None <==> !NulFree(s)
  {
    LexShellQuote(s, "");
    assert ShellQuote(s) + "" == ShellQuote(s);
    assert [Word(s)] + [] == [Word(s)];
  }

  // ---------------------------------------------------------------------------
  // Commands and scripts
  // ---------------------------------------------------------------------------

  /** A fragment of a builder's template: literal text, a quoted argument, ">", "|", "=" or a
      bracket, and the first and the last word inside a substitution. */
  datatype Piece =
    | Bare(text: string)
    | Quoted(text: string)
    | Into
    | Piped
    | Mark(sign: char)
    | Opening(text: string)
    | Closing(text: string)

  predicate LiteralText(text: string) { text != "" && forall i :: 0 <= i < |text| ==> Literal(text[i]) }

  predicate ValidPiece(p: Piece) {
    match p
    case Bare(text) => LiteralText(text)
    case Quoted(text) => NulFree(text)
    case Into => true
    case Piped => true
    case Mark(sign) => Sign(sign)
    case Opening(text) => LiteralText(text)
    case Closing(text) => LiteralText(text)
  }

  function RenderPiece(p: Piece): string {
    match p
    case Bare(text) => text
    case Quoted(text) => ShellQuote(text)
    case Into => ">"
    case Piped => "|"
    case Mark(sign) => [sign]
    case Opening(text) => "\"$(" + text
    case Closing(text) => text + ")\""
  }

  function PieceTokens(p: Piece): seq<Token> {
    match p
    case Bare(text) => [Word(text)]
    case Quoted(text) => [Word(text)]
    case Into => [Redirect]
    case Piped => [Pipe]
    case Mark(sign) => [Word([sign])]
    case Opening(text) => [OpenSubstitution, Word(text)]
    case Closing(text) => [Word(text), CloseSubstitution]
  }

  predicate ValidCommand(command: seq<Piece>) {
    command != [] && forall i :: 0 <= i < |command| ==> ValidPiece(command[i])
  }

  function RenderCommand(command: seq<Piece>): string
    requires command != []
  {
    if |command| == 1 then RenderPiece(command[0])
    else RenderPiece(command[0]) + " " + RenderCommand(command[1..])
  }

  function CommandTokens(command: seq<Piece>): seq<Token> {
    if command == [] then [] else PieceTokens(command[0]) + CommandTokens(command[1..])
  }

  predicate ValidScript(script: seq<seq<Piece>>) {
    script != [] && forall i :: 0 <= i < |script| ==> ValidCommand(script[i])
  }

  /** The builders' `[...].join("; ")`. */
  function RenderScript(script: seq<seq<Piece>>): string
    requires ValidScript(script)
  {
    if |script| == 1 then RenderCommand(script[0])
    else RenderCommand(script[0]) + "; " + RenderScript(script[1..])
  }

  function ScriptTokens(script: seq<seq<Piece>>): seq<Token> {
    if script == [] then []
    else if |script| == 1 then CommandTokens(script[0])
    else CommandTokens(script[0]) + [Separator] + ScriptTokens(script[1..])
  }

  function After(tokens: seq<Token>, rest: Option<seq<Token>>): Option<seq<Token>> {
    if rest.None? then None else Some(tokens + rest.value)
  }

  lemma {:induction false} LexLiterals(text: string, word: Option<string>, rest: string)
    requires forall i :: 0 <= i < |text| ==> Literal(text[i])
    requires text != ""
    ensures LexPlain(text + rest, word) == LexPlain(rest, Some(word.GetOr("") + text))
  {
    var next := Some(word.GetOr("") + [text[0]]);
    assert (text + rest)[1..] == text[1..] + rest;
    if |text| == 1 {
      assert text == [text[0]] && text[1..] + rest == rest;
    } else {
      LexLiterals(text[1..], next, rest);
      assert next.value + text[1..] == word.GetOr("") + text;
    }
  }

  lemma LexOpenQuote(tail: string)
    ensures LexPlain("\"$(" + tail, None) == Prepend(OpenSubstitution, LexPlain(tail, None))
  {
    var all := "\"$(" + tail;
    assert all[0] == '"' && "$(" <= all[1..] && all[1..][2..] == tail;
  }

  lemma OneThenAnother(t: Token, word: string, rest: Option<seq<Token>>)
    ensures Prepend(t, Emit(Some(word), rest)) == After([t, Word(word)], rest)
    ensures Emit(Some(word), Prepend(t, rest)) == After([Word(word), t], rest)
  {
    if rest.Some? {
      assert [t] + ([Word(word)] + rest.value) == [t, Word(word)] + rest.value;
      assert [Word(word)] + ([t] + rest.value) == [Word(word), t] + rest.value;
    }
  }

  lemma LexLiteralWord(text: string, rest: string)
    requires LiteralText(text) && EndsWord(rest)
    ensures LexPlain(text + rest, None) == Emit(Some(text), LexPlain(rest, None))
  {
    LexLiterals(text, None, rest);
    assert "" + text == text;
  }

  lemma LexOpening(text: string, rest: string)
    requires LiteralText(text) && EndsWord(rest)
    ensures LexPlain("\"$(" + (text + rest), None) == After([OpenSubstitution, Word(text)], LexPlain(rest, None))
  {
    LexOpenQuote(text + rest);
    LexLiteralWord(text, rest);
    OneThenAnother(OpenSubstitution, text, LexPlain(rest, None));
  }

  lemma LexClosing(text: string, rest: string)
    requires LiteralText(text) && EndsWord(rest)
    ensures LexPlain(text + (")\"" + rest), None) == After([Word(text), CloseSubstitution], LexPlain(rest, None))
  {
    var tail := ")\"" + rest;
    LexLiterals(text, None, tail);
    assert "" + text == text;
    assert tail[0] == ')' && "\"" <= tail[1..] && tail[1..][1..] == rest;
    OneThenAnother(CloseSubstitution, text, LexPlain(rest, None));
  }

  lemma LexMark(sign: char, rest: string)
    requires Sign(sign) && EndsWord(rest)
    ensures LexPlain([sign] + rest, None) == After([Word([sign])], LexPlain(rest, None))
  {
    assert ([sign] + rest)[1..] == rest;
  }

  lemma JoinAssociates(a: string, b: string, c: string)
    ensures a + b + c == a + (b + c)
  {}

  lemma LexPiece(p: Piece, rest: string)
    requires ValidPiece(p) && EndsWord(rest)
    ensures LexPlain(RenderPiece(p) + rest, None) == After(PieceTokens(p), LexPlain(rest, None))
  {
    match p {
      case Bare(text) =>
        LexLiterals(text, None, rest);
        assert "" + text == text;
      case Quoted(text) => LexShellQuote(text, rest);
      case Into => assert (">" + rest)[1..] == rest;
      case Piped => assert ("|" + rest)[1..] == rest;
      case Mark(sign) => LexMark(sign, rest);
      case Opening(text) =>
        LexOpening(text, rest);
        JoinAssociates("\"$(", text, rest);
      case Closing(text) =>
        LexClosing(text, rest);
        JoinAssociates(text, ")\"", rest);
    }
  }

  lemma LexPieceThen(p: Piece, tail: string)
    requires ValidPiece(p)
    ensures LexPlain(RenderPiece(p) + (" " + tail), None) == After(PieceTokens(p), LexPlain(tail, None))
  {
    LexPiece(p, " " + tail);
    assert (" " + tail)[1..] == tail;
    assert LexPlain(" " + tail, None) == LexPlain(tail, None);
  }

  lemma RenderSplits(command: seq<Piece>, rest: string)
    requires |command| > 1
    ensures RenderCommand(command) + rest == RenderPiece(command[0]) + (" " + (RenderCommand(command[1..]) + rest))
  {
    JoinsAssociate(RenderPiece(command[0]), " ", RenderCommand(command[1..]), rest);
  }

  lemma JoinsAssociate(a: string, b: string, c: string, d: string)
    ensures a + b + c + d == a + (b + (c + d))
  {
    assert (a + b + c) + d == (a + b) + (c + d);
  }

  lemma LexPieceBefore(p: Piece, tail: string, tokens: seq<Token>, rest: Option<seq<Token>>)
    requires ValidPiece(p) && LexPlain(tail, None) == After(tokens, rest)
    ensures LexPlain(RenderPiece(p) + (" " + tail), None) == After(PieceTokens(p) + tokens, rest)
  {
    LexPieceThen(p, tail);
    AfterTwice(PieceTokens(p), tokens, rest);
  }

  lemma {:induction false} LexCommand(command: seq<Piece>, rest: string)
    requires ValidCommand(command) && EndsWord(rest)
    ensures LexPlain(RenderCommand(command) + rest, None) == After(CommandTokens(command), LexPlain(rest, None))
  {
    if |command| == 1 {
      LexPiece(command[0], rest);
      assert command[1..] == [];
      assert CommandTokens(command) == PieceTokens(command[0]);
    } else {
      LexCommand(command[1..], rest);
      RenderSplits(command, rest);
      LexPieceBefore(command[0], RenderCommand(command[1..]) + rest, CommandTokens(command[1..]), LexPlain(rest, None));
    }
  }

  lemma AfterTwice(first: seq<Token>, second: seq<Token>, rest: Option<seq<Token>>)
    ensures After(first, After(second, rest)) == After(first + second, rest)
  {
    if rest.Some? {
      assert first + (second + rest.value) == first + second + rest.value;
    }
  }

  lemma LexSeparator(tail: string)
    ensures LexPlain("; " + tail, None) == After([Separator], LexPlain(tail, None))
  {
    assert ("; " + tail)[1..] == " " + tail;
    assert (" " + tail)[1..] == tail;
    assert LexPlain(" " + tail, None) == LexPlain(tail, None);
  }

  lemma LexThen(command: seq<Piece>, tail: string, tokens: seq<Token>)
    requires ValidCommand(command) && LexPlain(tail, None) == Some(tokens)
    ensures LexPlain(RenderCommand(command) + ("; " + tail), None)
            == Some(CommandTokens(command) + [Separator] + tokens)
  {
    LexCommand(command, "; " + tail);
    LexSeparator(tail);
    assert CommandTokens(command) + ([Separator] + tokens) == CommandTokens(command) + [Separator] + tokens;
  }

  lemma {:induction false} LexScript(script: seq<seq<Piece>>)
    requires ValidScript(script)
    ensures Parse(RenderScript(script)) == Some(ScriptTokens(script))
  {
    var first := RenderCommand(script[0]);
    if |script| == 1 {
      LexCommand(script[0], "");
      assert first + "" == first;
      assert CommandTokens(script[0]) + [] == CommandTokens(script[0]);
    } else {
      var tail := RenderScript(script[1..]);
      assert RenderScript(script) == first + ("; " + tail);
      LexScript(script[1..]);
      LexThen(script[0], tail, ScriptTokens(script[1..]));
    }
  }

  // ---------------------------------------------------------------------------
  // The outer command: ssh hands it to a shell, which hands the script to `sh -c`
  // ---------------------------------------------------------------------------

  function Digits(n: nat): (s: string)
    ensures s != "" && forall i :: 0 <= i < |s| ==> '0' <= s[i] <= '9'
  {
    if n < 10 then ["0123456789"[n]] else Digits(n / 10) + ["0123456789"[n % 10]]
  }

  function Utf8Length(s: string): nat {
    if s == "" then 0
    else (if s[0] as int < 0x80 then 1 else if s[0] as int < 0x800 then 2
          else if s[0] as int < 0x1_0000 then 3 else 4) + Utf8Length(s[1..])
  }

  const MAX_SAFE_INTEGER := 9_007_199_254_740_991

  function GuestShellPieces(vmId: nat, script: string, timeoutSeconds: nat): seq<Piece> {
    [Bare("qm"), Bare("guest"), Bare("exec"), Bare(Digits(vmId)), Bare("--timeout"),
     Bare(Digits(timeoutSeconds)), Bare("--"), Bare("sh"), Bare("-c"), Quoted(script)]
  }

  predicate AcceptsGuestShell(vmId: int, script: string, timeoutSeconds: int) {
    && 0 < vmId <= MAX_SAFE_INTEGER
    && 0 < timeoutSeconds <= 7200
    && script != "" && Utf8Length(script) <= 32768 && NulFree(script)
  }

  /** None stands for the thrown `haos_candidate_deploy_command_invalid`. */
  function BuildGuestShellCommand(vmId: int, script: string, timeoutSeconds: int): Option<string> {
    if !AcceptsGuestShell(vmId, script, timeoutSeconds) then None
    else Some(RenderCommand(GuestShellPieces(vmId, script, timeoutSeconds)))
  }

  function GuestShellTokens(vmId: nat, script: string, timeoutSeconds: nat): seq<Token> {
    [Word("qm"), Word("guest"), Word("exec"), Word(Digits(vmId)), Word("--timeout"),
     Word(Digits(timeoutSeconds)), Word("--"), Word("sh"), Word("-c"), Word(script)]
  }

  lemma GuestShellPiecesAreValid(vmId: nat, script: string, timeoutSeconds: nat)
    requires NulFree(script)
    ensures ValidCommand(GuestShellPieces(vmId, script, timeoutSeconds))
  {
    var p := GuestShellPieces(vmId, script, timeoutSeconds);
    assert forall i :: 0 <= i < |p| ==> ValidPiece(p[i]);
  }

  lemma GuestShellLexes(vmId: nat, script: string, timeoutSeconds: nat)
    requires NulFree(script)
    ensures Parse(RenderCommand(GuestShellPieces(vmId, script, timeoutSeconds))) ==
            Some(GuestShellTokens(vmId, script, timeoutSeconds))
  {
    var p := GuestShellPieces(vmId, script, timeoutSeconds);
    GuestShellPiecesAreValid(vmId, script, timeoutSeconds);
    LexCommand(p, "");
    assert RenderCommand(p) + "" == RenderCommand(p);
    FlatTokens(p);
    assert CommandTokens(p) + [] == GuestShellTokens(vmId, script, timeoutSeconds);
  }

  /** Both levels: the outer shell passes the script through as one word, and `sh -c`
      splits that word into exactly the commands and arguments it was built from. */
  lemma ScriptSurvivesBothShells(vmId: int, script: seq<seq<Piece>>, timeoutSeconds: int)
    requires ValidScript(script) && AcceptsGuestShell(vmId, RenderScript(script), timeoutSeconds)
    ensures var outer := BuildGuestShellCommand(vmId, RenderScript(script), timeoutSeconds);
            && outer.Some?
            && Parse(outer.value) == Some(GuestShellTokens(vmId, RenderScript(script), timeoutSeconds))
            && Parse(RenderScript(script)) == Some(ScriptTokens(script))
  {
    GuestShellLexes(vmId, RenderScript(script), timeoutSeconds);
    LexScript(script);
  }

  predicate IsFlat(p: Piece) { !p.Opening? && !p.Closing? }

  /** Without substitutions every piece is one token. */
  lemma {:induction false} FlatTokens(p: seq<Piece>)
    requires forall i :: 0 <= i < |p| ==> IsFlat(p[i])
    ensures |CommandTokens(p)| == |p|
    ensures forall i :: 0 <= i < |p| ==> PieceTokens(p[i]) == [CommandTokens(p)[i]]
  {
    if p != [] {
      FlatTokens(p[1..]);
    }
  }

  lemma {:induction false} TokensOfBoth(p: seq<Piece>, q: seq<Piece>)
    ensures CommandTokens(p + q) == CommandTokens(p) + CommandTokens(q)
  {
    if p == [] {
      assert p + q == q;
    } else {
      assert (p + q)[1..] == p[1..] + q;
      TokensOfBoth(p[1..], q);
    }
  }
}
