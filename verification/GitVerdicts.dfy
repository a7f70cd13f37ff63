// Which git commands the hook lets pass, and what a whole text is denied for
// (home/claude/skills/jj-worktrees/scripts/pretooluse-block-git-write.py).

module GitVerdicts {
  import opened Prelude
  import opened GitHook

  // ---- the parts of a git command ------------------------------------------------------

  /** The arguments are options, with their values, and then the rest, which
      begins with a positional, is empty, or is an option whose value is missing. */
  ghost predicate Parts(args: Argv, options: seq<GlobalOption>, rest: Argv) {
    && (forall o | o in options :: ValidOption(o)) && args == Spell(options) + rest
    && (rest == [] || !Dashed(rest[0]) || (|rest| == 1 && rest[0] in OPTS_WITH_ARG))
  }

  predicate Positional(rest: Argv) {
    rest != [] && !Dashed(rest[0])
  }

  lemma {:induction false} PartsExist(args: Argv) returns (options: seq<GlobalOption>, rest: Argv)
    ensures Parts(args, options, rest)
    decreases |args|
  {
    if args == [] || !Dashed(args[0]) || (|args| == 1 && args[0] in OPTS_WITH_ARG) {
      options, rest := [], args;
      assert args == [] + args;
    } else if args[0] in OPTS_WITH_ARG {
      var more;
      more, rest := PartsExist(args[2..]);
      options := [WithValue(args[0], args[1])] + more;
      assert options[1..] == more && args == [args[0], args[1]] + args[2..];
    } else {
      var more;
      more, rest := PartsExist(args[1..]);
      options := [Flag(args[0])] + more;
      assert options[1..] == more && args == [args[0]] + args[1..];
    }
  }

  lemma {:induction false} NoPositional(options: seq<GlobalOption>, rest: Argv)
    requires (forall o | o in options :: ValidOption(o)) && !Positional(rest)
    requires rest == [] || (|rest| == 1 && rest[0] in OPTS_WITH_ARG)
    ensures FirstPositional(Spell(options) + rest).None?
  {
    if options == [] {
      assert Spell(options) + rest == rest;
      if rest != [] { assert rest[0] != "--"; }
    } else {
      NoPositional(options[1..], rest);
      assert Spell(options) + rest == SpellOne(options[0]) + (Spell(options[1..]) + rest);
      OptionSkipped(options[0], Spell(options[1..]) + rest);
    }
  }

  lemma PositionalMeans(args: Argv, options: seq<GlobalOption>, rest: Argv)
    requires Parts(args, options, rest)
    ensures FirstPositional(args) == if Positional(rest) then Some((rest[0], rest[1..])) else None
  {
    if Positional(rest) {
      assert rest == [rest[0]] + rest[1..];
      SubcommandFound(options, rest[0], rest[1..]);
    } else {
      NoPositional(options, rest);
    }
  }

  // ---- what passes ------------------------------------------------------------------------

  ghost predicate ReadsBy(args: Argv, options: seq<GlobalOption>, rest: Argv) {
    && Parts(args, options, rest)
    && (forall a | a in args :: a !in CONFIG_WRITE_FLAGS) && (Positional(rest) ==> rest[0] !in CONFIG_WRITES)
    && ((Positional(rest) && rest[0] in CONFIG_READS) || exists a | a in args :: a in CONFIG_READ_FLAGS)
  }

  /** Arguments of `git config` that only read: no write flag anywhere, no write
      subcommand, and a read subcommand or a read flag. */
  ghost predicate ReadsConfig(args: Argv) {
    exists options, rest :: ReadsBy(args, options, rest)
  }

  lemma ReadsConfigIff(args: Argv)
    ensures ConfigIsRead(args) <==> ReadsConfig(args)
  {
    var options, rest := PartsExist(args);
    PositionalMeans(args, options, rest);
    ReadsAreNoWrites();
    if options', rest' :| ReadsBy(args, options', rest') {
      PositionalMeans(args, options', rest');
    }
    if ConfigIsRead(args) {
      assert ReadsBy(args, options, rest);
    }
  }

  lemma ReadsAreNoWrites()
    ensures CONFIG_READS !! CONFIG_WRITES
  {}

  ghost predicate HarmlessBy(args: Argv, options: seq<GlobalOption>, rest: Argv) {
    && Parts(args, options, rest)
    && (Positional(rest) ==> rest[0] in READONLY || (rest[0] == "config" && ReadsConfig(rest[1..])))
  }

  /** A git with no subcommand, with a read-only one, or with a config that reads. */
  ghost predicate Harmless(args: Argv) {
    exists options, rest :: HarmlessBy(args, options, rest)
  }

  lemma HarmlessIff(args: Argv)
    ensures GitVerdict(args).None? <==> Harmless(args)
  {
    var options, rest := PartsExist(args);
    PositionalMeans(args, options, rest);
    if Positional(rest) { ReadsConfigIff(rest[1..]); }
    if options', rest' :| HarmlessBy(args, options', rest') {
      PositionalMeans(args, options', rest');
    }
    if GitVerdict(args).None? {
      assert HarmlessBy(args, options, rest);
    }
  }

  /** Behind anything that comes off, git is let pass exactly if it is harmless. */
  lemma GitPassesIff(prefix: seq<Token>, git: Token, args: Argv, depth: nat, lex: Lexer)
    requires Peels(prefix) && PlainWord(git) && Basename(git) == "git" && depth <= 4
    ensures Judge(depth, lex)(prefix + ([git] + args)).None? <==> Harmless(args)
  {
    var argv := [git] + args;
    GitIsNoRunner();
    StripIff(prefix, argv);
    assert argv[1..] == args;
    HarmlessIff(args);
  }

  // ---- what a text is denied for --------------------------------------------------------

  /** A git that is not harmless, or a shell one of whose -c texts is denied. */
  ghost predicate Offends(argv: Argv, denied: string -> bool) {
    argv != [] &&
    if Basename(argv[0]) in SHELLS then exists i :: 1 <= i && i + 1 < |argv| && argv[i] == "-c" && denied(argv[i + 1])
    else Basename(argv[0]) == "git" && !Harmless(argv[1..])
  }

  function IsDenied(depth: nat, lex: Lexer): string -> bool
    requires depth <= 5
  {
    (text: string) => Denied(text, depth, lex).Some?
  }

  lemma ShellOffends(argv: Argv, depth: nat, lex: Lexer)
    requires depth <= 4 && argv != [] && Basename(argv[0]) in SHELLS
    ensures DeniedCommand(argv, depth, lex).Some? <==> Offends(argv, IsDenied(depth + 1, lex))
  {
    var args := argv[1..];
    SomeTextDenied(args, DeniedFrom(depth + 1, lex));
    if i :| 1 <= i && i + 1 < |argv| && argv[i] == "-c" && IsDenied(depth + 1, lex)(argv[i + 1]) {
      assert args[i - 1] == "-c" && DeniedFrom(depth + 1, lex)(args[i - 1 + 1]).Some?;
    }
    if i :| 0 <= i && i + 1 < |args| && args[i] == "-c" && DeniedFrom(depth + 1, lex)(args[i + 1]).Some? {
      assert argv[i + 1] == "-c" && IsDenied(depth + 1, lex)(argv[i + 1 + 1]);
    }
  }

  lemma CommandOffends(argv: Argv, depth: nat, lex: Lexer)
    requires depth <= 4
    ensures DeniedCommand(argv, depth, lex).Some? <==> Offends(argv, IsDenied(depth + 1, lex))
  {
    if argv != [] {
      if Basename(argv[0]) in SHELLS {
        ShellOffends(argv, depth, lex);
      } else {
        HarmlessIff(argv[1..]);
      }
    }
  }

  /** Some backtick body of a text is denied, or some command in it, stripped, offends. */
  ghost predicate TextOffends(lexed: Lexed, denied: string -> bool) {
    || (exists body | body in lexed.backticks :: denied(body))
    || (lexed.tokens.Some? && exists argv | argv in Argvs(lexed.tokens.value) :: Offends(Strip(argv), denied))
  }

  lemma BackticksDenied(backticks: seq<string>, depth: nat, lex: Lexer)
    requires depth <= 5
    ensures FirstSome(backticks, DeniedFrom(depth, lex)).Some? <==>
      exists body | body in backticks :: IsDenied(depth, lex)(body)
  {
    FirstSomeIff(backticks, DeniedFrom(depth, lex));
    if body :| body in backticks && DeniedFrom(depth, lex)(body).Some? {
      assert IsDenied(depth, lex)(body);
    }
    if body :| body in backticks && IsDenied(depth, lex)(body) {
      assert DeniedFrom(depth, lex)(body).Some?;
    }
  }

  lemma CommandsDenied(commands: seq<Argv>, depth: nat, lex: Lexer)
    requires depth <= 4
    ensures FirstSome(commands, Judge(depth, lex)).Some? <==>
      exists argv | argv in commands :: Offends(Strip(argv), IsDenied(depth + 1, lex))
  {
    FirstSomeIff(commands, Judge(depth, lex));
    if argv :| argv in commands && Judge(depth, lex)(argv).Some? {
      CommandOffends(Strip(argv), depth, lex);
    }
    if argv :| argv in commands && Offends(Strip(argv), IsDenied(depth + 1, lex)) {
      CommandOffends(Strip(argv), depth, lex);
      assert Judge(depth, lex)(argv).Some?;
    }
  }

  /** A text is denied, within the depth bound, exactly if it offends. */
  lemma DeniedIff(text: string, depth: nat, lex: Lexer)
    requires depth <= 5
    ensures Denied(text, depth, lex).Some? <==> depth <= 4 && TextOffends(lex(text), IsDenied(depth + 1, lex))
  {
    if depth <= 4 {
      BackticksDenied(lex(text).backticks, depth + 1, lex);
      if lex(text).tokens.Some? { CommandsDenied(Argvs(lex(text).tokens.value), depth, lex); }
    }
  }

  // ---- the command word ---------------------------------------------------------------------

  /** The command word is what follows the last slash. */
  lemma {:induction false} BasenameMeans(dir: Token, name: Token)
    requires '/' !in name
    ensures Basename(name) == name && Basename(dir + "/" + name) == name
  {
    var t := dir + "/" + name;
    assert t[|dir|] == '/';
    if dir == "" {
      assert t == ['/'] + name && t[1..] == name;
    } else {
      assert t[1..] == dir[1..] + "/" + name;
      assert (dir[1..] + "/" + name)[|dir| - 1] == '/';
      BasenameMeans(dir[1..], name);
    }
  }
}
