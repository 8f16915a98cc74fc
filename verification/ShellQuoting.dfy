/** Shell quoting of git arguments, against the token rules of the Shell Command Language (sections 2.2.1 to 2.2.3 and
    2.3 of IEEE Std 1003.1-2017). */
module ShellQuoting {
  import opened Collections

  const QUOTE := '\''
  const QUOTED_QUOTE := "'\"'\"'"

  /** Every single quote becomes: end of the section, a double-quoted single quote, start of a new section. */
  function WithQuotesReplaced(arg: string): string {
    if arg == "" then ""
    else (if arg[0] == QUOTE then QUOTED_QUOTE else [arg[0]]) + WithQuotesReplaced(arg[1..])
  }

  function EscapeShellArg(arg: string): string {
    "'" + WithQuotesReplaced(arg) + "'"
  }

  /** The escaped arguments with single spaces between them. */
  function JoinEscaped(args: seq<string>): string {
    if args == [] then ""
    else if |args| == 1 then EscapeShellArg(args[0])
    else EscapeShellArg(args[0]) + " " + JoinEscaped(args[1..])
  }

  function StageCommand(files: seq<string>): string {
    "git add -- " + JoinEscaped(files)
  }

  function UnstageCommand(files: seq<string>): string {
    "git reset HEAD -- " + JoinEscaped(files)
  }

  function CommitCommand(message: string): string {
    "git commit -m " + EscapeShellArg(message)
  }

  // ----- The shell's side -----

  datatype Mode = Unquoted | SingleQuoted | DoubleQuoted

  predicate IsBlank(c: char) {
    c == ' ' || c == '\t'
  }

  /** Characters that, unquoted, end the command, redirect, expand or match file names. */
  predicate IsSpecial(c: char) {
    c in "|&;<>()$`\n*?["
  }

  /** Characters that are special only at the start of a word: a comment, a home directory. */
  predicate StartsSpecially(c: char) {
    c == '#' || c == '~'
  }

  function Grown(word: Option<string>, more: string): Option<string> {
    Some(if word.Some? then word.value + more else more)
  }

  function Finished(word: Option<string>, words: seq<string>): seq<string> {
    if word.Some? then words + [word.value] else words
  }

  /** Splits a command line into words with the quotes removed. `word` is the word being read, if any. There is no
      result when the line is not one plain list of words: an operator, an expansion, an open quote, a null
      character. */
  function Lex(s: string, mode: Mode, word: Option<string>, words: seq<string>): Option<seq<string>>
    decreases |s|
  {
    if s == "" then
      if mode == Unquoted then Some(Finished(word, words)) else None
    else
      var c, rest := s[0], s[1..];
      if c == '\0' then None
      else
        match mode
        case SingleQuoted =>
          if c == QUOTE then Lex(rest, Unquoted, word, words)
          else Lex(rest, SingleQuoted, Grown(word, [c]), words)
        case DoubleQuoted =>
          if c == '"' then Lex(rest, Unquoted, word, words)
          else if c == '$' || c == '`' then None
          else if c == '\\' && rest != "" && rest[0] in "$`\"\\" then
            Lex(rest[1..], DoubleQuoted, Grown(word, [rest[0]]), words)
          else if c == '\\' && rest != "" && rest[0] == '\n' then
            Lex(rest[1..], DoubleQuoted, word, words)
          else Lex(rest, DoubleQuoted, Grown(word, [c]), words)
        case Unquoted =>
          if IsBlank(c) then Lex(rest, Unquoted, None, Finished(word, words))
          else if c == QUOTE then Lex(rest, SingleQuoted, Grown(word, ""), words)
          else if c == '"' then Lex(rest, DoubleQuoted, Grown(word, ""), words)
          else if c == '\\' then
            if rest == "" || rest[0] == '\0' then None
            else if rest[0] == '\n' then Lex(rest[1..], Unquoted, word, words)
            else Lex(rest[1..], Unquoted, Grown(word, [rest[0]]), words)
          else if IsSpecial(c) || (word.None? && StartsSpecially(c)) then None
          else Lex(rest, Unquoted, Grown(word, [c]), words)
  }

  function ShellWords(command: string): Option<seq<string>> {
    Lex(command, Unquoted, None, [])
  }

  // ----- The shell reads back what was quoted -----

  predicate NulFree(s: string) {
    '\0' !in s
  }

  predicate AllNulFree(args: seq<string>) {
    forall arg :: arg in args ==> NulFree(arg)
  }

  /** The rest of a quoted argument, read inside a quoted section, adds exactly that argument to the word. */
  lemma {:induction false} LexReplaced(arg: string, rest: string, word: string, words: seq<string>)
    ensures Lex(WithQuotesReplaced(arg) + "'" + rest, SingleQuoted, Some(word), words)
            == if NulFree(arg) then Lex(rest, Unquoted, Some(word + arg), words) else None
  {
    var line := WithQuotesReplaced(arg) + "'" + rest;
    if arg == "" {
      assert line[1..] == rest && word + arg == word;
    } else {
      var tail := WithQuotesReplaced(arg[1..]) + "'" + rest;
      LexReplaced(arg[1..], rest, word + [arg[0]], words);
      assert word + [arg[0]] + arg[1..] == word + arg;
      if arg[0] == QUOTE {
        assert line == QUOTED_QUOTE + tail;
        LexQuotedQuote(tail, word, words);
      } else {
        assert line == [arg[0]] + tail;
        assert line[1..] == tail;
      }
    }
  }

  lemma LexQuotedQuote(tail: string, word: string, words: seq<string>)
    ensures Lex(QUOTED_QUOTE + tail, SingleQuoted, Some(word), words) ==
            Lex(tail, SingleQuoted, Some(word + "'"), words)
  {
    var s0 := QUOTED_QUOTE + tail;
    var s1, s2, s3, s4 := s0[1..], s0[2..], s0[3..], s0[4..];
    assert s1[1..] == s2 && s2[1..] == s3 && s3[1..] == s4 && s4[1..] == tail;
    assert Lex(s0, SingleQuoted, Some(word), words) == Lex(s1, Unquoted, Some(word), words);
    assert word + "" == word;
    assert Lex(s1, Unquoted, Some(word), words) == Lex(s2, DoubleQuoted, Some(word), words);
    assert Lex(s2, DoubleQuoted, Some(word), words) == Lex(s3, DoubleQuoted, Some(word + "'"), words);
    assert Lex(s3, DoubleQuoted, Some(word + "'"), words) == Lex(s4, Unquoted, Some(word + "'"), words);
    assert word + "'" + "" == word + "'";
  }

  lemma LexEscaped(arg: string, rest: string, words: seq<string>)
    ensures Lex(EscapeShellArg(arg) + rest, Unquoted, None, words)
            == if NulFree(arg) then Lex(rest, Unquoted, Some(arg), words) else None
  {
    var line := EscapeShellArg(arg) + rest;
    assert line[1..] == WithQuotesReplaced(arg) + "'" + rest;
    LexReplaced(arg, rest, "", words);
    assert "" + arg == arg;
  }

  lemma LexEscapedThenMore(arg: string, more: string, words: seq<string>)
    ensures Lex(EscapeShellArg(arg) + " " + more, Unquoted, None, words)
            == if NulFree(arg) then Lex(more, Unquoted, None, words + [arg]) else None
  {
    var rest := " " + more;
    assert EscapeShellArg(arg) + " " + more == EscapeShellArg(arg) + rest;
    LexEscaped(arg, rest, words);
    assert rest[1..] == more;
  }

  lemma LexLastEscaped(arg: string, words: seq<string>)
    ensures Lex(EscapeShellArg(arg), Unquoted, None, words) == if NulFree(arg) then Some(words + [arg]) else None
  {
    assert EscapeShellArg(arg) + "" == EscapeShellArg(arg);
    LexEscaped(arg, "", words);
  }

  lemma NulFreeSplit(args: seq<string>)
    requires args != []
    ensures AllNulFree(args) <==> NulFree(args[0]) && AllNulFree(args[1..])
  {
    assert args == [args[0]] + args[1..];
  }

  lemma {:induction false} LexJoined(args: seq<string>, words: seq<string>)
    ensures Lex(JoinEscaped(args), Unquoted, None, words) == if AllNulFree(args) then Some(words + args) else None
  {
    if args == [] {
      assert words + args == words;
    } else {
      NulFreeSplit(args);
      if |args| == 1 {
        LexLastEscaped(args[0], words);
        assert args == [args[0]];
      } else {
        LexEscapedThenMore(args[0], JoinEscaped(args[1..]), words);
        LexJoined(args[1..], words + [args[0]]);
        assert words + [args[0]] + args[1..] == words + args;
      }
    }
  }

  /** The shell reads the joined, escaped arguments back as exactly those arguments: any number of them, empty ones
      and any quotes included. A null character, which no argument can hold, is the only exception. */
  lemma EscapedArgsReadBack(args: seq<string>)
    ensures ShellWords(JoinEscaped(args)) == if AllNulFree(args) then Some(args) else None
  {
    LexJoined(args, []);
    assert [] + args == args;
  }

  // ----- The git commands -----

  predicate IsPlain(c: char) {
    'a' <= c <= 'z' || 'A' <= c <= 'Z' || c == '-'
  }

  predicate AllPlain(w: string) {
    forall c :: c in w ==> IsPlain(c)
  }

  lemma {:induction false} LexPlain(w: string, rest: string, word: Option<string>, words: seq<string>)
    requires w != "" && AllPlain(w)
    ensures Lex(w + " " + rest, Unquoted, word, words) == Lex(rest, Unquoted, None, words + [Grown(word, w).value])
  {
    var line := w + " " + rest;
    assert line[0] == w[0] && line[0] in w && !IsSpecial(line[0]);
    var next := Grown(word, [w[0]]);
    assert Lex(line, Unquoted, word, words) == Lex(line[1..], Unquoted, next, words);
    if |w| == 1 {
      assert w == [w[0]];
      assert line[1..] == " " + rest;
      assert line[1..][1..] == rest;
    } else {
      assert line[1..] == w[1..] + " " + rest;
      LexPlain(w[1..], rest, next, words);
      assert Grown(next, w[1..]) == Grown(word, w) by {
        assert [w[0]] + w[1..] == w;
        if word.Some? {
          assert word.value + [w[0]] + w[1..] == word.value + w;
        }
      }
    }
  }

  /** Leading words of plain characters come first, whatever the rest of the line is. */
  function Spelled(plain: seq<string>, rest: string): string {
    if plain == [] then rest else plain[0] + " " + Spelled(plain[1..], rest)
  }

  lemma {:induction false} LexSpelled(plain: seq<string>, rest: string, words: seq<string>)
    requires forall i :: 0 <= i < |plain| ==> plain[i] != "" && AllPlain(plain[i])
    ensures Lex(Spelled(plain, rest), Unquoted, None, words) == Lex(rest, Unquoted, None, words + plain)
  {
    if plain == [] {
      assert words + plain == words;
    } else {
      LexPlain(plain[0], Spelled(plain[1..], rest), None, words);
      LexSpelled(plain[1..], rest, words + [plain[0]]);
      assert words + [plain[0]] + plain[1..] == words + plain;
    }
  }

  lemma {:induction false} SpelledIsPrefix(plain: seq<string>, rest: string)
    ensures Spelled(plain, rest) == Spelled(plain, "") + rest
  {
    if plain == [] {
      assert "" + rest == rest;
    } else {
      SpelledIsPrefix(plain[1..], rest);
      assert plain[0] + " " + (Spelled(plain[1..], "") + rest) == plain[0] + " " + Spelled(plain[1..], "") + rest;
    }
  }

  /** A command that is spelled out up to the arguments hands over its own words and exactly the arguments. */
  lemma SpelledThenEscaped(plain: seq<string>, args: seq<string>)
    requires forall i :: 0 <= i < |plain| ==> plain[i] != "" && AllPlain(plain[i])
    ensures ShellWords(Spelled(plain, "") + JoinEscaped(args)) == if AllNulFree(args) then Some(plain + args) else None
  {
    SpelledIsPrefix(plain, JoinEscaped(args));
    LexSpelled(plain, JoinEscaped(args), []);
    LexJoined(args, plain);
    assert [] + plain == plain;
  }

  lemma SpelledOneMore(word: string, plain: seq<string>)
    ensures Spelled([word] + plain, "") == word + " " + Spelled(plain, "")
  {
    assert ([word] + plain)[1..] == plain;
  }

  const GIT_ADD := ["git"] + (["add"] + (["--"] + []))
  const GIT_RESET := ["git"] + (["reset"] + (["HEAD"] + (["--"] + [])))

  lemma AddSpelled()
    ensures Spelled(GIT_ADD, "") == "git add -- " && GIT_ADD == ["git", "add", "--"]
  {
    SpelledOneMore("--", []);
    SpelledOneMore("add", ["--"] + []);
    SpelledOneMore("git", ["add"] + (["--"] + []));
  }

  lemma ResetSpelled()
    ensures Spelled(GIT_RESET, "") == "git reset HEAD -- " && GIT_RESET == ["git", "reset", "HEAD", "--"]
  {
    SpelledOneMore("--", []);
    SpelledOneMore("HEAD", ["--"] + []);
    SpelledOneMore("reset", ["HEAD"] + (["--"] + []));
    SpelledOneMore("git", ["reset"] + (["HEAD"] + (["--"] + [])));
  }

  /** Staging hands git the subcommand, the end of options and exactly the given paths. */
  lemma StagedFilesReachGit(files: seq<string>)
    ensures ShellWords(StageCommand(files)) == if AllNulFree(files) then Some(["git", "add", "--"] + files) else None
  {
    AddSpelled();
    SpelledThenEscaped(GIT_ADD, files);
  }

  lemma UnstagedFilesReachGit(files: seq<string>)
    ensures ShellWords(UnstageCommand(files))
            == if AllNulFree(files) then Some(["git", "reset", "HEAD", "--"] + files) else None
  {
    ResetSpelled();
    SpelledThenEscaped(GIT_RESET, files);
  }

  lemma CommitMessageReachesGit(message: string)
    ensures ShellWords(CommitCommand(message))
            == if NulFree(message) then Some(["git", "commit", "-m", message]) else None
  {
    var plain := ["git", "commit", "-m"];
    assert plain[1..] == ["commit", "-m"] && ["commit", "-m"][1..] == ["-m"] && ["-m"][1..] == [];
    assert Spelled(plain, "") == "git commit -m ";
    SpelledIsPrefix(plain, EscapeShellArg(message));
    LexSpelled(plain, EscapeShellArg(message), []);
    assert [] + plain == plain;
    LexLastEscaped(message, plain);
    assert plain + [message] == ["git", "commit", "-m", message];
  }
}
