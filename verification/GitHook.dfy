// The token-level shell recogniser that keeps git writes out of a jj
// repository (home/claude/skills/jj-worktrees/scripts/pretooluse-block-git-write.py).
// Lexing is a parameter: the model starts from tokens.

module GitHook {
  import opened Prelude

  type Token = string
  type Argv = seq<Token>

  const SEPARATORS: set<Token> := {";", "&&", "||", "|", "|&", "&", "(", ")", "{", "}", "!", "\n"}
  const REDIRECTS: set<Token> := {">", ">>", "<", "<<", "<<<", ">&", "<&", "&>", ">|"}
  const KEYWORDS: set<Token> := {"if", "then", "elif", "else", "while", "until", "do"}
  const RUNNERS: set<Token> := {
    "env", "sudo", "doas", "command", "builtin", "exec", "nohup", "nice",
    "ionice", "setsid", "stdbuf", "time", "timeout", "xargs", "watch"}
  const SHELLS: set<Token> := {"sh", "bash", "zsh", "dash", "ksh", "ash", "fish", "busybox"}
  const OPTS_WITH_ARG: set<Token> := {"-C", "-c", "--git-dir", "--work-tree", "--namespace", "--exec-path"}
  const READONLY: set<Token> := {
    "status", "log", "show", "diff", "diff-tree", "diff-index", "diff-files",
    "blame", "annotate", "cat-file", "ls-files", "ls-tree", "ls-remote",
    "rev-parse", "rev-list", "describe", "shortlog", "help", "version",
    "grep", "count-objects", "fsck", "merge-base", "show-ref", "var",
    "check-ignore", "check-attr", "check-mailmap", "range-diff"}
  const CONFIG_READ_FLAGS: set<Token> := {
    "--get", "--get-all", "--get-regexp", "--get-urlmatch", "--get-color",
    "--get-colorbool", "--list", "-l"}
  const CONFIG_WRITE_FLAGS: set<Token> := {
    "--add", "--unset", "--unset-all", "--replace-all", "--edit", "-e",
    "--rename-section", "--remove-section"}
  const CONFIG_READS: set<Token> := {"get", "list"}
  const CONFIG_WRITES: set<Token> := {"set", "unset", "edit", "rename-section", "remove-section"}

  // ---- one argv per command position ------------------------------------------------

  datatype Scan = Scan(commands: seq<Argv>, current: Argv, skipNext: bool)

  const Start := Scan([], [], false)

  function Flushed(s: Scan): seq<Argv> {
    if s.current != [] then s.commands + [s.current] else s.commands
  }

  function ScanToken(s: Scan, t: Token): Scan {
    if s.skipNext then s.(skipNext := false)
    else if t in REDIRECTS then s.(skipNext := true)
    else if t in SEPARATORS then Scan(Flushed(s), [], false)
    else s.(current := s.current + [t])
  }

  function ScanAll(s: Scan, tokens: seq<Token>): Scan {
    if tokens == [] then s else ScanToken(ScanAll(s, tokens[..|tokens| - 1]), tokens[|tokens| - 1])
  }

  function Argvs(tokens: seq<Token>): seq<Argv> {
    Flushed(ScanAll(Start, tokens))
  }

  /** The tokens end with a redirect that still wants its target. */
  predicate OwesTarget(tokens: seq<Token>) {
    tokens != [] && tokens[|tokens| - 1] in REDIRECTS && !OwesTarget(tokens[..|tokens| - 1])
  }

  lemma {:induction false} SkipIsOwing(tokens: seq<Token>)
    ensures ScanAll(Start, tokens).skipNext <==> OwesTarget(tokens)
  {
    if tokens != [] { SkipIsOwing(tokens[..|tokens| - 1]); }
  }

  lemma {:induction false} ScanConcat(s: Scan, a: seq<Token>, b: seq<Token>)
    ensures ScanAll(s, a + b) == ScanAll(ScanAll(s, a), b)
  {
    if b == [] {
      assert a + b == a;
    } else {
      assert (a + b)[..|a + b| - 1] == a + b[..|b| - 1];
      ScanConcat(s, a, b[..|b| - 1]);
    }
  }

  /** Commands already finished do not influence the rest of the scan. */
  lemma {:induction false} ScanAfter(done: seq<Argv>, tokens: seq<Token>)
    ensures var s := ScanAll(Scan(done, [], false), tokens);
      var alone := ScanAll(Start, tokens);
      s.commands == done + alone.commands && s.current == alone.current && s.skipNext == alone.skipNext
  {
    if tokens != [] {
      ScanAfter(done, tokens[..|tokens| - 1]);
    } else {
      assert done + [] == done;
    }
  }

  lemma ScanOne(s: Scan, t: Token)
    ensures ScanAll(s, [t]) == ScanToken(s, t)
  {
    assert [t][..0] == [];
  }

  /** Splitting is a homomorphism: whatever stands before a separator, unless
      it still owes a redirect target, and whatever follows split independently. */
  lemma ArgvsSplit(a: seq<Token>, sep: Token, b: seq<Token>)
    requires sep in SEPARATORS && !OwesTarget(a)
    ensures Argvs(a + [sep] + b) == Argvs(a) + Argvs(b)
  {
    SkipIsOwing(a);
    ScanConcat(Start, a + [sep], b);
    ScanConcat(Start, a, [sep]);
    ScanOne(ScanAll(Start, a), sep);
    assert sep !in REDIRECTS;
    ScanAfter(Argvs(a), b);
  }

  // ---- exactly when splitting is a homomorphism ---------------------------------------

  /** The words before the first separator, redirects and their targets dropped. */
  function Lead(tokens: seq<Token>): Argv {
    if tokens == [] then []
    else if tokens[0] in REDIRECTS then (if |tokens| == 1 then [] else Lead(tokens[2..]))
    else if tokens[0] in SEPARATORS then []
    else [tokens[0]] + Lead(tokens[1..])
  }

  /** The commands after the first separator. */
  function Following(tokens: seq<Token>): seq<Argv> {
    if tokens == [] then []
    else if tokens[0] in REDIRECTS then (if |tokens| == 1 then [] else Following(tokens[2..]))
    else if tokens[0] in SEPARATORS then Argvs(tokens[1..])
    else Following(tokens[1..])
  }

  lemma ScanFirst(s: Scan, tokens: seq<Token>)
    requires tokens != []
    ensures ScanAll(s, tokens) == ScanAll(ScanToken(s, tokens[0]), tokens[1..])
  {
    assert tokens == [tokens[0]] + tokens[1..];
    ScanConcat(s, [tokens[0]], tokens[1..]);
    ScanOne(s, tokens[0]);
  }

  /** Going on from an unfinished command: the leading words join it. */
  ghost predicate Joins(done: seq<Argv>, current: Argv, tokens: seq<Token>) {
    Flushed(ScanAll(Scan(done, current, false), tokens)) ==
    done + OneOrNone(current + Lead(tokens)) + Following(tokens)
  }

  lemma RedirectJoins(done: seq<Argv>, current: Argv, tokens: seq<Token>)
    requires tokens != [] && tokens[0] in REDIRECTS && (|tokens| > 1 ==> Joins(done, current, tokens[2..]))
    ensures Joins(done, current, tokens)
  {
    var s := Scan(done, current, false);
    ScanFirst(s, tokens);
    if |tokens| == 1 {
      assert current + [] == current;
    } else {
      ScanFirst(s.(skipNext := true), tokens[1..]);
      assert tokens[1..][1..] == tokens[2..];
    }
  }

  lemma SeparatorJoins(done: seq<Argv>, current: Argv, tokens: seq<Token>)
    requires tokens != [] && tokens[0] !in REDIRECTS && tokens[0] in SEPARATORS
    ensures Joins(done, current, tokens)
  {
    var s := Scan(done, current, false);
    ScanFirst(s, tokens);
    assert current + [] == current;
    ScanAfter(Flushed(s), tokens[1..]);
  }

  lemma WordJoins(done: seq<Argv>, current: Argv, tokens: seq<Token>)
    requires tokens != [] && tokens[0] !in REDIRECTS && tokens[0] !in SEPARATORS
    requires Joins(done, current + [tokens[0]], tokens[1..])
    ensures Joins(done, current, tokens)
  {
    ScanFirst(Scan(done, current, false), tokens);
    assert current + [tokens[0]] + Lead(tokens[1..]) == current + Lead(tokens);
  }

  lemma {:induction false} ScanJoins(done: seq<Argv>, current: Argv, tokens: seq<Token>)
    ensures Joins(done, current, tokens)
    decreases |tokens|
  {
    if tokens == [] {
      assert current + [] == current;
    } else if tokens[0] in REDIRECTS {
      if |tokens| > 1 { ScanJoins(done, current, tokens[2..]); }
      RedirectJoins(done, current, tokens);
    } else if tokens[0] in SEPARATORS {
      SeparatorJoins(done, current, tokens);
    } else {
      ScanJoins(done, current + [tokens[0]], tokens[1..]);
      WordJoins(done, current, tokens);
    }
  }

  function OneOrNone(argv: Argv): seq<Argv> {
    if argv == [] then [] else [argv]
  }

  lemma ArgvsLead(tokens: seq<Token>)
    ensures Argvs(tokens) == OneOrNone(Lead(tokens)) + Following(tokens)
  {
    ScanJoins([], [], tokens);
    assert [] + Lead(tokens) == Lead(tokens);
  }

  /** After an owed target the separator is a file name, and what follows joins
      the unfinished command. */
  lemma OwedSeparatorIsAName(a: seq<Token>, sep: Token, b: seq<Token>)
    requires OwesTarget(a)
    ensures var s := ScanAll(Start, a);
      && Argvs(a) == s.commands + OneOrNone(s.current)
      && Argvs(a + [sep] + b) == s.commands + OneOrNone(s.current + Lead(b)) + Following(b)
  {
    SkipIsOwing(a);
    ScanConcat(Start, a + [sep], b);
    ScanConcat(Start, a, [sep]);
    ScanOne(ScanAll(Start, a), sep);
    var s := ScanAll(Start, a);
    ScanJoins(s.commands, s.current, b);
  }

  /** The two sides of a separator split independently exactly if no redirect
      target is owed, or there is no unfinished command before it or no word
      behind it to run together. */
  lemma ArgvsSplitIff(a: seq<Token>, sep: Token, b: seq<Token>)
    requires sep in SEPARATORS
    ensures Argvs(a + [sep] + b) == Argvs(a) + Argvs(b) <==>
      !OwesTarget(a) || ScanAll(Start, a).current == [] || Lead(b) == []
  {
    if !OwesTarget(a) {
      ArgvsSplit(a, sep, b);
    } else {
      OwedSeparatorIsAName(a, sep, b);
      ArgvsLead(b);
      Joining(ScanAll(Start, a).commands, ScanAll(Start, a).current, Lead(b), Following(b));
    }
  }

  lemma Joining(done: seq<Argv>, current: Argv, lead: Argv, following: seq<Argv>)
    ensures done + OneOrNone(current + lead) + following == done + OneOrNone(current) + (OneOrNone(lead) + following)
       <==> current == [] || lead == []
  {
    assert current + [] == current && [] + lead == lead;
    if current != [] && lead != [] {
      assert |done + OneOrNone(current + lead) + following| <
        |done + OneOrNone(current) + (OneOrNone(lead) + following)|;
    }
  }

  predicate Words(tokens: seq<Token>) {
    forall t | t in tokens :: t !in SEPARATORS && t !in REDIRECTS
  }

  lemma {:induction false} ScanWords(s: Scan, tokens: seq<Token>)
    requires Words(tokens) && !s.skipNext
    ensures ScanAll(s, tokens) == s.(current := s.current + tokens)
  {
    if tokens != [] {
      var init, last := tokens[..|tokens| - 1], tokens[|tokens| - 1];
      assert tokens == init + [last];
      assert forall t | t in init :: t in tokens;
      ScanWords(s, init);
      assert last in tokens;
      assert s.current + init + [last] == s.current + tokens;
    } else {
      assert s.current + [] == s.current;
    }
  }

  /** Plain words are one command; a redirect and its target drop out of it. */
  lemma ArgvsOfWords(words: seq<Token>, redirect: Token, target: Token, more: seq<Token>)
    requires Words(words) && Words(more) && redirect in REDIRECTS && words + more != []
    ensures words != [] ==> Argvs(words) == [words]
    ensures Argvs(words + [redirect, target] + more) == [words + more]
  {
    ScanWords(Start, words);
    var s := Scan([], words, false);
    assert [] + words == words;
    ScanConcat(Start, words + [redirect, target], more);
    ScanConcat(Start, words, [redirect, target]);
    ScanConcat(s, [redirect], [target]);
    assert [redirect] + [target] == [redirect, target];
    ScanOne(s, redirect);
    ScanOne(s.(skipNext := true), target);
    ScanWords(s, more);
  }

  method SplitCommands(tokens: seq<Token>) returns (commands: seq<Argv>)
    ensures commands == Argvs(tokens)
  {
    commands := [];
    var current: Argv, skipNext := [], false;
    for i := 0 to |tokens|
      invariant Scan(commands, current, skipNext) == ScanAll(Start, tokens[..i])
    {
      var token := tokens[i];
      assert tokens[..i + 1][..i] == tokens[..i];
      if skipNext {
        skipNext := false;
      } else if token in REDIRECTS {
        skipNext := true;
      } else if token in SEPARATORS {
        if current != [] {
          commands := commands + [current];
        }
        current := [];
      } else {
        current := current + [token];
      }
    }
    assert tokens[..|tokens|] == tokens;
    if current != [] {
      commands := commands + [current];
    }
  }

  // ---- wrappers in front of the command word ------------------------------------------------

  /** os.path.basename: what follows the last slash. */
  function Basename(t: Token): Token {
    if '/' in t then (if t[0] == '/' && '/' !in t[1..] then t[1..] else Basename(t[1..])) else t
  }

  predicate Dashed(t: Token) { t != "" && t[0] == '-' }

  predicate Assignment(t: Token) { '=' in t && !Dashed(t) }

  function SkipAssignments(argv: Argv): (r: Argv)
    ensures |r| <= |argv|
  {
    if argv != [] && Assignment(argv[0]) then SkipAssignments(argv[1..]) else argv
  }

  function SkipOptions(argv: Argv): (r: Argv)
    ensures |r| <= |argv|
  {
    if argv != [] && Dashed(argv[0]) then SkipOptions(argv[1..]) else argv
  }

  /** What one wrapper takes off: its word, env's assignments, its options, timeout's duration. */
  function Unwrap(argv: Argv): (r: Argv)
    requires argv != []
    ensures |r| < |argv|
  {
    var head := Basename(argv[0]);
    var rest := argv[1..];
    if head in KEYWORDS then rest
    else
      var afterEnv := if head == "env" then SkipAssignments(rest) else rest;
      var afterOptions := SkipOptions(afterEnv);
      if head == "timeout" && afterOptions != [] then afterOptions[1..] else afterOptions
  }

  /** `_strip_prefix_runners`. */
  function Strip(argv: Argv): Argv
    decreases |argv|
  {
    if argv == [] then []
    else if Basename(argv[0]) in KEYWORDS || Basename(argv[0]) in RUNNERS then Strip(Unwrap(argv))
    else argv
  }

  /** A keyword or runner, and what stands between it and the command it runs. */
  datatype Wrapper = Wrapper(word: Token, prefix: seq<Token>)

  /** A command word that is neither an option nor an assignment. */
  predicate PlainWord(t: Token) { !Dashed(t) && '=' !in t }

  predicate AllDashed(tokens: seq<Token>) {
    forall t | t in tokens :: Dashed(t)
  }

  /** Assignments, then options; no assignment follows an option. */
  predicate AssignmentsFirst(tokens: seq<Token>) {
    && (forall t | t in tokens :: Dashed(t) || Assignment(t))
    && forall i, j | 0 <= i < j < |tokens| && Dashed(tokens[i]) :: Dashed(tokens[j])
  }

  /** Options, then one word. */
  predicate OptionsThenOne(tokens: seq<Token>) {
    tokens != [] && AllDashed(tokens[..|tokens| - 1]) && !Dashed(tokens[|tokens| - 1])
  }

  /** The prefixes that come off whole: none after a keyword, assignments before
      options after env, options and a duration after timeout, options else. */
  predicate Strippable(w: Wrapper) {
    var head := Basename(w.word);
    if head in KEYWORDS then w.prefix == []
    else if head == "env" then AssignmentsFirst(w.prefix)
    else if head == "timeout" then OptionsThenOne(w.prefix)
    else AllDashed(w.prefix)
  }

  predicate Wraps(w: Wrapper) {
    PlainWord(w.word) && (Basename(w.word) in KEYWORDS || Basename(w.word) in RUNNERS)
  }

  predicate Valid(w: Wrapper) {
    Wraps(w) && Strippable(w)
  }

  function Wrap(w: Wrapper, argv: Argv): Argv {
    [w.word] + (w.prefix + argv)
  }

  function WrapAll(ws: seq<Wrapper>, argv: Argv): Argv {
    if ws == [] then argv else Wrap(ws[0], WrapAll(ws[1..], argv))
  }

  lemma AllDashedFirst(tokens: seq<Token>)
    requires tokens != []
    ensures AllDashed(tokens) <==> Dashed(tokens[0]) && AllDashed(tokens[1..])
  {
    assert tokens == [tokens[0]] + tokens[1..];
  }

  lemma {:induction false} OptionsSkippedIff(prefix: seq<Token>, argv: Argv)
    requires argv != [] && !Dashed(argv[0])
    ensures SkipOptions(prefix + argv) == argv <==> AllDashed(prefix)
    ensures SkipOptions(prefix + argv) != []
  {
    if prefix == [] {
      assert prefix + argv == argv;
    } else {
      AllDashedFirst(prefix);
      assert (prefix + argv)[1..] == prefix[1..] + argv;
      OptionsSkippedIff(prefix[1..], argv);
    }
  }

  lemma AssignmentsFirstStep(tokens: seq<Token>)
    requires tokens != []
    ensures AssignmentsFirst(tokens) <==>
      if Dashed(tokens[0]) then AllDashed(tokens) else Assignment(tokens[0]) && AssignmentsFirst(tokens[1..])
  {
    var rest := tokens[1..];
    assert tokens == [tokens[0]] + rest;
    assert forall i | 0 <= i < |rest| :: rest[i] == tokens[i + 1];
    if AssignmentsFirst(tokens) && Dashed(tokens[0]) {
      assert forall t | t in tokens :: exists j | 0 <= j < |tokens| :: tokens[j] == t;
    }
    if !Dashed(tokens[0]) && Assignment(tokens[0]) && AssignmentsFirst(rest) {
      forall i, j | 0 <= i < j < |tokens| && Dashed(tokens[i])
        ensures Dashed(tokens[j])
      {
        assert rest[i - 1] == tokens[i] && rest[j - 1] == tokens[j];
      }
    }
  }

  /** env(1) wants its options first, which is the order that does not come off. */
  lemma {:induction false} EnvSkippedIff(prefix: seq<Token>, argv: Argv)
    requires argv != [] && PlainWord(argv[0])
    ensures SkipOptions(SkipAssignments(prefix + argv)) == argv <==> AssignmentsFirst(prefix)
  {
    if prefix == [] {
      assert prefix + argv == argv;
    } else {
      AssignmentsFirstStep(prefix);
      if Assignment(prefix[0]) {
        assert (prefix + argv)[1..] == prefix[1..] + argv;
        EnvSkippedIff(prefix[1..], argv);
      } else {
        OptionsSkippedIff(prefix, argv);
        AllDashedFirst(prefix);
      }
    }
  }

  lemma {:induction false} TimeoutSkippedIff(prefix: seq<Token>, argv: Argv)
    requires argv != [] && !Dashed(argv[0])
    ensures SkipOptions(prefix + argv) != []
    ensures SkipOptions(prefix + argv)[1..] == argv <==> OptionsThenOne(prefix)
  {
    if prefix == [] {
      assert prefix + argv == argv;
    } else if Dashed(prefix[0]) {
      assert (prefix + argv)[1..] == prefix[1..] + argv;
      TimeoutSkippedIff(prefix[1..], argv);
      if |prefix| > 1 {
        AllDashedFirst(prefix[..|prefix| - 1]);
        assert prefix[..|prefix| - 1][1..] == prefix[1..][..|prefix| - 2];
      }
    } else {
      assert (prefix + argv)[1..] == prefix[1..] + argv;
      if |prefix| > 1 { AllDashedFirst(prefix[..|prefix| - 1]); }
    }
  }

  /** A wrapper comes off whole, and nothing else does, exactly if its prefix is strippable. */
  lemma UnwrapIff(w: Wrapper, argv: Argv)
    requires Wraps(w) && argv != [] && PlainWord(argv[0])
    ensures Unwrap(Wrap(w, argv)) == argv <==> Strippable(w)
  {
    var whole := Wrap(w, argv);
    assert whole[0] == w.word && whole[1..] == w.prefix + argv;
    var head := Basename(w.word);
    if head in KEYWORDS {
      assert w.prefix == [] ==> w.prefix + argv == argv;
    } else if head == "env" {
      EnvSkippedIff(w.prefix, argv);
    } else if head == "timeout" {
      TimeoutSkippedIff(w.prefix, argv);
    } else {
      OptionsSkippedIff(w.prefix, argv);
    }
  }

  /** Stripping undoes every wrapping with strippable prefixes, to any depth. */
  lemma {:induction false} StripUndoesWrapping(ws: seq<Wrapper>, argv: Argv)
    requires (forall w | w in ws :: Valid(w)) && argv != [] && PlainWord(argv[0])
    ensures Strip(WrapAll(ws, argv)) == Strip(argv)
    ensures WrapAll(ws, argv) != [] && PlainWord(WrapAll(ws, argv)[0])
  {
    if ws != [] {
      assert ws[0] in ws && forall w | w in ws[1..] :: w in ws;
      StripUndoesWrapping(ws[1..], argv);
      UnwrapIff(ws[0], WrapAll(ws[1..], argv));
      assert WrapAll(ws, argv)[0] == ws[0].word;
    }
  }

  // ---- exactly what comes off a command ---------------------------------------------

  /** Nothing but keywords and runners, each with what it takes off after its
      word: options, before them env's assignments, after them timeout's duration. */
  predicate Peels(tokens: seq<Token>)
    decreases |tokens|
  {
    tokens == [] ||
    var head, rest := Basename(tokens[0]), tokens[1..];
    var left := SkipOptions(if head == "env" then SkipAssignments(rest) else rest);
    if head in KEYWORDS then Peels(rest)
    else if head == "timeout" then left != [] && Peels(left[1..])
    else head in RUNNERS && Peels(left)
  }

  /** A command word that stripping stops at. */
  predicate Bare(t: Token) {
    PlainWord(t) && Basename(t) !in KEYWORDS && Basename(t) !in RUNNERS
  }

  lemma {:induction false} OptionsStop(prefix: seq<Token>, argv: Argv)
    requires argv != [] && !Dashed(argv[0])
    ensures SkipOptions(prefix + argv) == SkipOptions(prefix) + argv
  {
    if prefix == [] {
      assert prefix + argv == argv;
    } else {
      assert (prefix + argv)[1..] == prefix[1..] + argv;
      OptionsStop(prefix[1..], argv);
    }
  }

  lemma {:induction false} AssignmentsStop(prefix: seq<Token>, argv: Argv)
    requires argv != [] && !Assignment(argv[0])
    ensures SkipAssignments(prefix + argv) == SkipAssignments(prefix) + argv
  {
    if prefix == [] {
      assert prefix + argv == argv;
    } else {
      assert (prefix + argv)[1..] == prefix[1..] + argv;
      AssignmentsStop(prefix[1..], argv);
    }
  }

  lemma {:induction false} StripShortens(argv: Argv)
    ensures |Strip(argv)| <= |argv|
    decreases |argv|
  {
    if argv != [] && (Basename(argv[0]) in KEYWORDS || Basename(argv[0]) in RUNNERS) {
      StripShortens(Unwrap(argv));
    }
  }

  /** What one pass leaves of a keyword or runner and of what follows it. */
  lemma UnwrapThrough(tokens: seq<Token>, argv: Argv)
    requires tokens != [] && argv != [] && PlainWord(argv[0])
    ensures var head, rest := Basename(tokens[0]), tokens[1..];
      var left := SkipOptions(if head == "env" then SkipAssignments(rest) else rest);
      Unwrap(tokens + argv) ==
        if head in KEYWORDS then rest + argv
        else if head != "timeout" then left + argv
        else if left == [] then argv[1..] else left[1..] + argv
  {
    var head, rest := Basename(tokens[0]), tokens[1..];
    assert (tokens + argv)[0] == tokens[0] && (tokens + argv)[1..] == rest + argv;
    if head == "env" {
      AssignmentsStop(rest, argv);
      OptionsStop(SkipAssignments(rest), argv);
    } else {
      OptionsStop(rest, argv);
    }
    var left := SkipOptions(if head == "env" then SkipAssignments(rest) else rest);
    assert left == [] ==> left + argv == argv;
    assert left != [] ==> (left + argv)[1..] == left[1..] + argv;
  }

  /** What stands before a bare command comes off, down to the command, exactly
      if it is nothing but wrappers. */
  lemma {:induction false} StripIff(tokens: seq<Token>, argv: Argv)
    requires argv != [] && Bare(argv[0])
    ensures Strip(tokens + argv) == argv <==> Peels(tokens)
    decreases |tokens|
  {
    if tokens == [] {
      assert tokens + argv == argv;
    } else {
      var head, rest := Basename(tokens[0]), tokens[1..];
      var left := SkipOptions(if head == "env" then SkipAssignments(rest) else rest);
      assert (tokens + argv)[0] == tokens[0];
      UnwrapThrough(tokens, argv);
      TimeoutRuns();
      if head in KEYWORDS {
        StripIff(rest, argv);
      } else if head == "timeout" {
        if left == [] { StripShortens(argv[1..]); } else { StripIff(left[1..], argv); }
      } else if head in RUNNERS {
        StripIff(left, argv);
      }
    }
  }

  lemma {:induction false} WrapAllBefore(ws: seq<Wrapper>, argv: Argv)
    ensures WrapAll(ws, []) + argv == WrapAll(ws, argv)
  {
    if ws == [] {
      assert [] + argv == argv;
    } else {
      WrapAllBefore(ws[1..], argv);
      var inner := WrapAll(ws[1..], []);
      assert [ws[0].word] + (ws[0].prefix + inner) + argv == [ws[0].word] + (ws[0].prefix + (inner + argv));
    }
  }

  /** Any nesting of wrappers with strippable prefixes is such. */
  lemma WrappersPeel(ws: seq<Wrapper>)
    requires forall w | w in ws :: Valid(w)
    ensures Peels(WrapAll(ws, []))
  {
    var argv := ["git"];
    GitIsNoRunner();
    assert Bare(argv[0]) && Strip(argv) == argv;
    StripUndoesWrapping(ws, argv);
    WrapAllBefore(ws, argv);
    StripIff(WrapAll(ws, []), argv);
  }

  lemma TimeoutRuns()
    ensures "timeout" in RUNNERS && "timeout" !in KEYWORDS
  {}

  method StripRunners(argv: Argv) returns (r: Argv)
    ensures r == Strip(argv)
  {
    r := argv;
    while r != []
      invariant Strip(r) == Strip(argv)
      decreases |r|
    {
      var head := Basename(r[0]);
      if head in KEYWORDS {
        r := r[1..];
      } else if head !in RUNNERS {
        return;
      } else {
        ghost var wrapped := r;
        r := r[1..];
        if head == "env" {
          while r != [] && Assignment(r[0])
            invariant |r| < |wrapped| && SkipAssignments(r) == SkipAssignments(wrapped[1..])
          {
            r := r[1..];
          }
        }
        ghost var afterEnv := r;
        while r != [] && Dashed(r[0])
          invariant |r| < |wrapped| && SkipOptions(r) == SkipOptions(afterEnv)
        {
          r := r[1..];
        }
        if head == "timeout" && r != [] {
          r := r[1..];
        }
        assert r == Unwrap(wrapped);
      }
    }
  }

  // ---- the git subcommand --------------------------------------------------------------------

  /** The subcommand and what follows it. */
  function FirstPositional(tokens: Argv): Option<(Token, Argv)>
    decreases |tokens|
  {
    if tokens == [] then None
    else if tokens[0] == "--" then FirstPositional(tokens[1..])
    else if !Dashed(tokens[0]) then Some((tokens[0], tokens[1..]))
    else if tokens[0] in OPTS_WITH_ARG && |tokens| >= 2 then FirstPositional(tokens[2..])
    else if tokens[0] in OPTS_WITH_ARG then None
    else FirstPositional(tokens[1..])
  }

  datatype GlobalOption = Flag(option: Token) | WithValue(option: Token, value: Token)

  predicate ValidOption(o: GlobalOption) {
    Dashed(o.option) && (o.WithValue? <==> o.option in OPTS_WITH_ARG)
  }

  function SpellOne(option: GlobalOption): Argv {
    match option case Flag(o) => [o] case WithValue(o, v) => [o, v]
  }

  function Spell(options: seq<GlobalOption>): Argv {
    if options == [] then [] else SpellOne(options[0]) + Spell(options[1..])
  }

  lemma OptionSkipped(option: GlobalOption, tail: Argv)
    requires ValidOption(option)
    ensures FirstPositional(SpellOne(option) + tail) == FirstPositional(tail)
  {
    var spelled := SpellOne(option) + tail;
    assert spelled[0] == option.option;
    match option
    case Flag(_) => assert spelled[1..] == tail;
    case WithValue(o, _) => assert spelled[2..] == tail && o != "--";
  }

  lemma SubcommandFirst(sub: Token, rest: Argv)
    requires !Dashed(sub)
    ensures FirstPositional([sub] + rest) == Some((sub, rest))
  {
    assert ([sub] + rest)[1..] == rest;
    assert sub != "--";
  }

  /** Global options in front, with their values whatever those look like, do
      not hide the subcommand. */
  lemma {:induction false} SubcommandFound(options: seq<GlobalOption>, sub: Token, rest: Argv)
    requires (forall o | o in options :: ValidOption(o)) && !Dashed(sub)
    ensures FirstPositional(Spell(options) + ([sub] + rest)) == Some((sub, rest))
  {
    var tail := [sub] + rest;
    if options == [] {
      assert Spell(options) + tail == tail;
      SubcommandFirst(sub, rest);
    } else {
      assert options[0] in options && ValidOption(options[0]);
      SubcommandFound(options[1..], sub, rest);
      var more := Spell(options[1..]) + tail;
      assert Spell(options) + tail == SpellOne(options[0]) + more;
      OptionSkipped(options[0], more);
    }
  }

  method FindSubcommand(tokens: Argv) returns (r: Option<(Token, Argv)>)
    ensures r == FirstPositional(tokens)
  {
    var i := 0;
    while i < |tokens|
      invariant 0 <= i <= |tokens| + 1
      invariant FirstPositional(tokens) == if i <= |tokens| then FirstPositional(tokens[i..]) else None
    {
      assert tokens[i..][1..] == tokens[i + 1..];
      assert |tokens[i..]| >= 2 ==> tokens[i..][2..] == tokens[i + 2..];
      var token := tokens[i];
      if token == "--" {
        i := i + 1;
      } else if !Dashed(token) {
        return Some((token, tokens[i + 1..]));
      } else {
        i := i + if token in OPTS_WITH_ARG then 2 else 1;
      }
    }
    r := None;
  }

  /** `git config` in a form that only reads. */
  predicate ConfigIsRead(args: Argv) {
    if exists a | a in args :: a in CONFIG_WRITE_FLAGS then false
    else
      var sub := FirstPositional(args);
      if sub.Some? && sub.value.0 in CONFIG_WRITES then false
      else if sub.Some? && sub.value.0 in CONFIG_READS then true
      else exists a | a in args :: a in CONFIG_READ_FLAGS
  }

  // ---- the verdict ------------------------------------------------------------------------------

  /** Heredoc stripping, backtick extraction and tokenizing of one command text:
      the backtick bodies, and the tokens unless it cannot be lexed. */
  datatype Lexed = Lexed(backticks: seq<string>, tokens: Option<seq<Token>>)

  type Lexer = string -> Lexed

  /** The texts after each -c that has one. */
  function ShellTexts(argv: Argv): seq<string> {
    if |argv| < 2 then []
    else (if argv[0] == "-c" then [argv[1]] else []) + ShellTexts(argv[1..])
  }

  function GitVerdict(args: Argv): Option<Token> {
    match FirstPositional(args)
    case None => None
    case Some((sub, rest)) =>
      if sub in READONLY || (sub == "config" && ConfigIsRead(rest)) then None else Some("git " + sub)
  }

  /** The verdict on one stripped argv. */
  function DeniedCommand(argv: Argv, depth: nat, lex: Lexer): Option<Token>
    requires depth <= 4
    decreases 5 - depth, 0
  {
    if argv == [] then None
    else
      var head := Basename(argv[0]);
      if head in SHELLS then FirstSome(ShellTexts(argv[1..]), DeniedFrom(depth + 1, lex))
      else if head == "git" then GitVerdict(argv[1..])
      else None
  }

  /** The verdict on one command position, wrappers and all. */
  function Judge(depth: nat, lex: Lexer): Argv -> Option<Token>
    requires depth <= 4
    decreases 5 - depth, 1
  {
    (argv: Argv) => DeniedCommand(Strip(argv), depth, lex)
  }

  function DeniedFrom(depth: nat, lex: Lexer): string -> Option<Token>
    requires depth <= 5
    decreases 5 - depth, 3
  {
    (command: string) => Denied(command, depth, lex)
  }

  /** `_denied_in`. */
  function Denied(command: string, depth: nat, lex: Lexer): Option<Token>
    requires depth <= 5
    decreases 5 - depth, 2
  {
    if depth > 4 then None
    else
      var lexed := lex(command);
      var inner := FirstSome(lexed.backticks, DeniedFrom(depth + 1, lex));
      if inner.Some? then inner
      else match lexed.tokens
        case None => None
        case Some(tokens) => FirstSome(Argvs(tokens), Judge(depth, lex))
  }

  /** A later command never un-denies an earlier one: the verdict on two
      halves is the first half's if it is denied, else the second's. */
  lemma LaterNeverUndenies(a: seq<Token>, sep: Token, b: seq<Token>, judge: Argv -> Option<Token>)
    requires sep in SEPARATORS && !OwesTarget(a)
    ensures FirstSome(Argvs(a + [sep] + b), judge) ==
      if FirstSome(Argvs(a), judge).Some? then FirstSome(Argvs(a), judge) else FirstSome(Argvs(b), judge)
  {
    ArgvsSplit(a, sep, b);
    FirstSomeConcat(Argvs(a), Argvs(b), judge);
  }

  /** Behind anything that is stripped, with any global options, a git write is a git write. */
  lemma WrappedWriteJudged(
    prefix: seq<Token>, git: Token, options: seq<GlobalOption>, sub: Token, args: Argv, depth: nat, lex: Lexer)
    requires Peels(prefix) && (forall o | o in options :: ValidOption(o)) && depth <= 4
    requires PlainWord(git) && Basename(git) == "git"
    requires !Dashed(sub) && sub !in READONLY && (sub == "config" ==> !ConfigIsRead(args))
    ensures Judge(depth, lex)(prefix + ([git] + (Spell(options) + ([sub] + args)))) == Some("git " + sub)
  {
    var argv := [git] + (Spell(options) + ([sub] + args));
    GitIsNoRunner();
    StripIff(prefix, argv);
    assert argv[1..] == Spell(options) + ([sub] + args);
    SubcommandFound(options, sub, args);
  }

  lemma GitIsNoRunner()
    ensures "git" !in KEYWORDS && "git" !in RUNNERS && "git" !in SHELLS
  {
    assert |"git"| == 3;
  }

  /** Tokens that leave the next one at a command position. */
  predicate EndsCommand(tokens: seq<Token>) {
    tokens == [] || (tokens[|tokens| - 1] in SEPARATORS && !OwesTarget(tokens[..|tokens| - 1]))
  }

  /** What follows is split as if it stood alone. */
  lemma ArgvsAfter(front: seq<Token>, more: seq<Token>)
    requires EndsCommand(front)
    ensures Argvs(front + more) == Argvs(front) + Argvs(more)
  {
    if front == [] {
      assert front + more == more && Argvs(front) == [];
    } else {
      var init, sep := front[..|front| - 1], front[|front| - 1];
      assert front == init + [sep] && front + [] == front && Argvs([]) == [];
      ArgvsSplit(init, sep, more);
      ArgvsSplit(init, sep, []);
      assert init + [sep] + [] == front;
    }
  }

  /** A command is judged by its words, wherever redirections stand among them,
      and whatever stands before and after it. */
  lemma CommandFound(front: seq<Token>, more: seq<Token>, judge: Argv -> Option<Token>)
    requires EndsCommand(front) && Lead(more) != []
    ensures FirstSome(Argvs(front + more), judge) ==
      if FirstSome(Argvs(front), judge).Some? then FirstSome(Argvs(front), judge)
      else if judge(Lead(more)).Some? then judge(Lead(more))
      else FirstSome(Following(more), judge)
  {
    ArgvsAfter(front, more);
    ArgvsLead(more);
    FirstSomeConcat(Argvs(front), Argvs(more), judge);
    FirstSomeStep(Lead(more), Following(more), judge);
  }

  /** What does not come off: env's options before its assignments, and an
      option's value. Both pass. */
  lemma UnstrippedPasses(lex: Lexer)
    ensures Judge(0, lex)(["env", "-i", "A=1", "git", "push"]).None?
    ensures Judge(0, lex)(["sudo", "-u", "root", "git", "push"]).None?
  {
    var env, sudo := ["env", "-i", "A=1", "git", "push"], ["sudo", "-u", "root", "git", "push"];
    assert env[1..] == ["-i", "A=1", "git", "push"] && env[1..][1..] == ["A=1", "git", "push"];
    assert sudo[1..] == ["-u", "root", "git", "push"] && sudo[1..][1..] == ["root", "git", "push"];
    assert !Assignment("-i") && Dashed("-i") && !Dashed("A=1") && Dashed("-u") && !Dashed("root");
    assert Basename("env") == "env" && Basename("sudo") == "sudo";
    assert Unwrap(env) == ["A=1", "git", "push"];
    assert Unwrap(sudo) == ["root", "git", "push"];
    assert Basename("A=1") == "A=1" && Basename("root") == "root";
    NotARunner("A=1"); NotARunner("root");
    assert Strip(env) == ["A=1", "git", "push"] && Strip(sudo) == ["root", "git", "push"];
  }

  lemma NotARunner(t: Token)
    requires t == "A=1" || t == "root"
    ensures t !in KEYWORDS && t !in RUNNERS && t !in SHELLS && t != "git"
  {}

  /** A git write is denied wherever it stands in a text: behind any commands,
      behind anything that is stripped, with any global options, with any
      redirections, whatever follows it. */
  lemma GitWriteIsDenied(
    front: seq<Token>, more: seq<Token>, prefix: seq<Token>, git: Token, options: seq<GlobalOption>, sub: Token,
    args: Argv, text: string, depth: nat, lex: Lexer)
    requires EndsCommand(front) && lex(text).tokens == Some(front + more) && depth <= 4
    requires Lead(more) == prefix + ([git] + (Spell(options) + ([sub] + args)))
    requires Peels(prefix) && forall o | o in options :: ValidOption(o)
    requires PlainWord(git) && Basename(git) == "git"
    requires !Dashed(sub) && sub !in READONLY && (sub == "config" ==> !ConfigIsRead(args))
    ensures Denied(text, depth, lex).Some?
  {
    WrappedWriteJudged(prefix, git, options, sub, args, depth, lex);
    CommandFound(front, more, Judge(depth, lex));
  }

  lemma {:induction false} ShellTextsMeans(argv: Argv, text: Token)
    ensures text in ShellTexts(argv) <==> exists i :: 0 <= i && i + 1 < |argv| && argv[i] == "-c" && argv[i + 1] == text
  {
    if |argv| >= 2 {
      ShellTextsMeans(argv[1..], text);
      assert forall i | 0 <= i < |argv| - 1 :: argv[1..][i] == argv[i + 1];
      assert argv[0] == "-c" && argv[1] == text ==> argv[0 + 1] == text;
      assert forall i | 0 < i < |argv| - 1 && argv[i] == "-c" && argv[i + 1] == text ::
          argv[1..][i - 1] == "-c" && argv[1..][i - 1 + 1] == text;
    }
  }

  /** Spelled like a shell's name, as no keyword or runner is. */
  predicate ShellShape(t: Token) {
    || (|t| == 2 && t[0] == 's') || (|t| == 3 && t[0] in {'z', 'k', 'a'})
    || (|t| == 4 && t[3] == 'h') || (|t| == 7 && t[2] == 's')
  }

  lemma ShellShapes(t: Token)
    ensures t in SHELLS ==> ShellShape(t)
    ensures t in KEYWORDS ==> !ShellShape(t)
    ensures t in RUNNERS ==> !ShellShape(t)
  {}

  /** A wrapped shell is denied exactly when one of the texts given to a -c is,
      one level deeper: nothing else on its line counts, and nothing clears it. */
  lemma ShellJudged(prefix: seq<Token>, shell: Token, args: Argv, depth: nat, lex: Lexer)
    requires Peels(prefix) && depth <= 4
    requires PlainWord(shell) && Basename(shell) in SHELLS
    ensures Judge(depth, lex)(prefix + ([shell] + args)).Some? <==>
      exists i :: 0 <= i && i + 1 < |args| && args[i] == "-c" && Denied(args[i + 1], depth + 1, lex).Some?
  {
    var argv := [shell] + args;
    assert argv[0] == shell && argv[1..] == args;
    ShellShapes(Basename(shell));
    StripIff(prefix, argv);
    SomeTextDenied(args, DeniedFrom(depth + 1, lex));
  }

  lemma SomeTextDenied(args: Argv, judge: string -> Option<Token>)
    ensures FirstSome(ShellTexts(args), judge).Some? <==>
      exists i :: 0 <= i && i + 1 < |args| && args[i] == "-c" && judge(args[i + 1]).Some?
  {
    FirstSomeIff(ShellTexts(args), judge);
    if text :| text in ShellTexts(args) && judge(text).Some? {
      ShellTextsMeans(args, text);
    }
    forall i | 0 <= i && i + 1 < |args| && args[i] == "-c" && judge(args[i + 1]).Some?
      ensures args[i + 1] in ShellTexts(args)
    {
      ShellTextsMeans(args, args[i + 1]);
    }
  }

  /** `_denied_in` as it runs. */
  method DeniedIn(command: string, depth: nat, lex: Lexer) returns (found: Option<Token>)
    requires depth <= 5
    ensures found == Denied(command, depth, lex)
    decreases 5 - depth, 2
  {
    if depth > 4 {
      return None;
    }
    var lexed := lex(command);
    var k := 0;
    while k < |lexed.backticks|
      invariant 0 <= k <= |lexed.backticks|
      invariant FirstSome(lexed.backticks, DeniedFrom(depth + 1, lex)) ==
        FirstSome(lexed.backticks[k..], DeniedFrom(depth + 1, lex))
    {
      assert lexed.backticks[k..][1..] == lexed.backticks[k + 1..];
      found := DeniedIn(lexed.backticks[k], depth + 1, lex);
      if found.Some? {
        return;
      }
      k := k + 1;
    }
    if lexed.tokens.None? {
      return None;
    }
    var commands := SplitCommands(lexed.tokens.value);
    var n := 0;
    while n < |commands|
      invariant 0 <= n <= |commands|
      invariant FirstSome(commands, Judge(depth, lex)) == FirstSome(commands[n..], Judge(depth, lex))
    {
      assert commands[n..][1..] == commands[n + 1..];
      var argv := StripRunners(commands[n]);
      found := JudgeCommand(argv, depth, lex);
      if found.Some? {
        return;
      }
      n := n + 1;
    }
    found := None;
  }

  method JudgeCommand(argv: Argv, depth: nat, lex: Lexer) returns (found: Option<Token>)
    requires depth <= 4
    ensures found == DeniedCommand(argv, depth, lex)
    decreases 5 - depth, 1
  {
    if argv == [] {
      return None;
    }
    var head := Basename(argv[0]);
    if head in SHELLS {
      found := JudgeShell(argv, depth, lex, DeniedFrom(depth + 1, lex));
    } else if head == "git" {
      found := JudgeGit(argv[1..]);
    } else {
      found := None;
    }
  }

  lemma ShellTextsStep(argv: Argv, i: nat)
    requires i < |argv|
    ensures ShellTexts(argv[i..]) ==
      if argv[i] == "-c" && i + 1 < |argv| then [argv[i + 1]] + ShellTexts(argv[i + 1..]) else ShellTexts(argv[i + 1..])
  {
    assert argv[i..][1..] == argv[i + 1..];
    assert [] + ShellTexts(argv[i + 1..]) == ShellTexts(argv[i + 1..]);
  }

  method JudgeShell(argv: Argv, depth: nat, lex: Lexer, ghost judge: string -> Option<Token>)
    returns (found: Option<Token>)
    requires depth <= 4 && argv != [] && forall c :: judge(c) == Denied(c, depth + 1, lex)
    ensures found == FirstSome(ShellTexts(argv[1..]), judge)
    decreases 5 - depth, 0
  {
    var i := 1;
    while i < |argv|
      invariant 1 <= i <= |argv|
      invariant FirstSome(ShellTexts(argv[1..]), judge) == FirstSome(ShellTexts(argv[i..]), judge)
    {
      ShellTextsStep(argv, i);
      if argv[i] == "-c" && i + 1 < |argv| {
        FirstSomeStep(argv[i + 1], ShellTexts(argv[i + 1..]), judge);
        found := DeniedIn(argv[i + 1], depth + 1, lex);
        assert found == judge(argv[i + 1]);
        if found.Some? {
          return;
        }
      }
      i := i + 1;
    }
    found := None;
  }

  method JudgeGit(args: Argv) returns (found: Option<Token>)
    ensures found == GitVerdict(args)
  {
    var positional := FindSubcommand(args);
    if positional.None? {
      return None;
    }
    var (sub, rest) := positional.value;
    if sub in READONLY || (sub == "config" && ConfigIsRead(rest)) {
      return None;
    }
    return Some("git " + sub);
  }
}
