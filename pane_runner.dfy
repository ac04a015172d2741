/** The pane runner: the small program the orchestrator starts in a child or
  * merge pane. It reads its options, announces itself, leaves the thread's
  * identity in the environment for wrapper scripts, and, whether or not the
  * agents SDK can be imported, replaces itself by the `codex` CLI. */
module PaneRunner {
  import opened Text
  import opened Shell

  /** The runner's options once parsed. */
  datatype RunnerArgs = RunnerArgs(mode: string, sessionId: int, threadId: int, role: string, initialPrompt: string)

  // ----------------------------------------------------------- options

  /** Python's `int()` on an option value: an optional sign and at least one
    * decimal digit. */
  function ParseInt(s: string): (r: Option<int>)
    ensures r.Some? <==> (|s| >= 1 && AllDigits(s)) || (|s| >= 2 && (s[0] == '-' || s[0] == '+') && AllDigits(s[1..]))
  {
    if |s| >= 2 && s[0] == '-' && AllDigits(s[1..]) then Some(0 - DigitsValue(s[1..]) as int)
    else if |s| >= 2 && s[0] == '+' && AllDigits(s[1..]) then Some(DigitsValue(s[1..]))
    else if |s| >= 1 && AllDigits(s) then Some(DigitsValue(s))
    else None
  }

  lemma ParseDigits(d: string)
    requires |d| >= 1 && AllDigits(d)
    ensures ParseInt(d) == Some(DigitsValue(d))
  {
    assert IsDigit(d[0]);
  }

  lemma ParseNegative(d: string)
    requires |d| >= 1 && AllDigits(d)
    ensures ParseInt(['-'] + d) == Some(0 - DigitsValue(d) as int)
  {
    var s := ['-'] + d;
    assert s[1..] == d;
  }

  /** What `str()` writes for a number, `int()` reads back. */
  lemma ParseIntOfIntToString(i: int)
    ensures ParseInt(IntToString(i)) == Some(i)
  {
    if i < 0 {
      var d := NatToString(-i);
      assert IntToString(i) == ['-'] + d;
      ParseNegative(d);
      DigitsValueOfNatToString(-i);
    } else {
      ParseDigits(NatToString(i));
      DigitsValueOfNatToString(i);
    }
  }

  /** The value of an option when it was given, its default otherwise. */
  function OptionOr(opts: map<string, string>, name: string, default: string): (r: string)
    ensures name in opts ==> r == opts[name]
    ensures name !in opts ==> r == default
  {
    if name in opts then opts[name] else default
  }

  /** The required options that were not given, in the order they are
    * declared. */
  function MissingRequired(opts: map<string, string>): (r: seq<string>)
    ensures forall k :: 0 <= k < |r| ==> r[k] !in opts
    ensures "--session-id" !in opts ==> "--session-id" in r
    ensures "--thread-id" !in opts ==> "--thread-id" in r
    ensures "--role" !in opts ==> "--role" in r
    ensures |r| <= 3
  {
    (if "--session-id" in opts then [] else ["--session-id"])
    + (if "--thread-id" in opts then [] else ["--thread-id"])
    + (if "--role" in opts then [] else ["--role"])
  }

  /** `parse_args`, given the value each option was last given: `--mode`
    * defaults to `child` and `--initial-prompt` to the empty text;
    * `--session-id`, `--thread-id` and `--role` are required, and the two ids
    * must read as integers. */
  function ParseArgs(opts: map<string, string>): (r: Result<RunnerArgs>)
    ensures r.Ok? <==> "--session-id" in opts && "--thread-id" in opts && "--role" in opts
                       && ParseInt(opts["--session-id"]).Some? && ParseInt(opts["--thread-id"]).Some?
    ensures r.Ok? ==> r.value.mode == OptionOr(opts, "--mode", "child")
                      && r.value.initialPrompt == OptionOr(opts, "--initial-prompt", "")
                      && r.value.role == opts["--role"]
                      && ParseInt(opts["--session-id"]) == Some(r.value.sessionId)
                      && ParseInt(opts["--thread-id"]) == Some(r.value.threadId)
    ensures r.Err? && "--session-id" in opts && ParseInt(opts["--session-id"]).None? ==>
              r.msg == "argument --session-id: invalid int value: '" + opts["--session-id"] + "'"
  {
    if "--session-id" in opts && ParseInt(opts["--session-id"]).None? then
      Err("argument --session-id: invalid int value: '" + opts["--session-id"] + "'")
    else if "--thread-id" in opts && ParseInt(opts["--thread-id"]).None? then
      Err("argument --thread-id: invalid int value: '" + opts["--thread-id"] + "'")
    else if MissingRequired(opts) != [] then
      Err("the following arguments are required: " + Join(MissingRequired(opts), ", "))
    else
      Ok(RunnerArgs(OptionOr(opts, "--mode", "child"),
                    ParseInt(opts["--session-id"]).value,
                    ParseInt(opts["--thread-id"]).value,
                    opts["--role"],
                    OptionOr(opts, "--initial-prompt", "")))
  }

  // ------------------------------------------------------------ output

  /** The line `print_banner` writes. */
  function BannerLine(a: RunnerArgs): string {
    "[agents-runner] mode=" + a.mode + " session_id=" + IntToString(a.sessionId)
    + " thread_id=" + IntToString(a.threadId) + " role=" + a.role
  }

  /** The notice printed when the agents SDK imports but has no adapter. */
  const SdkNotice: string :=
    "[agents-runner] agents sdk detected, but no direct runtime adapter is bundled. falling back to codex cli execution."

  /** What Python's `str.isspace` holds for: Go's white space and the four
    * information separators U+001C to U+001F. */
  predicate IsPySpace(c: char) {
    IsSpace(c) || ('\U{1C}' <= c <= '\U{1F}')
  }

  /** Python's `str.strip()`: the text without white space at either end. */
  function PyStrip(s: string): (r: string)
    ensures |r| <= |s|
    ensures r == [] || (!IsPySpace(r[0]) && !IsPySpace(r[|r| - 1]))
    ensures (forall i :: 0 <= i < |s| ==> IsPySpace(s[i])) ==> r == []
    decreases |s|
  {
    if |s| > 0 && IsPySpace(s[0]) then PyStrip(s[1..])
    else if |s| > 0 && IsPySpace(s[|s| - 1]) then PyStrip(s[..|s| - 1])
    else s
  }

  /** The command `exec_codex_fallback` runs: `codex --no-alt-screen`, and
    * the stripped initial prompt as one more argument when there is one. */
  function FallbackCommand(initialPrompt: string): (cmd: seq<string>)
    ensures |cmd| >= 2 && cmd[0] == "codex" && cmd[1] == "--no-alt-screen"
    ensures |cmd| == 3 <==> PyStrip(initialPrompt) != ""
    ensures |cmd| == 3 ==> cmd[2] == PyStrip(initialPrompt)
    ensures |cmd| <= 3
  {
    ["codex", "--no-alt-screen"] + (if PyStrip(initialPrompt) != "" then [PyStrip(initialPrompt)] else [])
  }

  /** Each word quoted with `shlex.quote`. */
  function QuoteAll(words: seq<string>): (r: seq<string>)
    ensures |r| == |words|
    ensures forall k :: 0 <= k < |r| ==> r[k] == ShlexQuote(words[k])
  {
    seq(|words|, k requires 0 <= k < |words| => ShlexQuote(words[k]))
  }

  /** The line `exec_codex_fallback` logs before running the command. */
  function FallbackLogLine(cmd: seq<string>): string {
    "[agents-runner] fallback -> " + Join(QuoteAll(cmd), " ")
  }

  /** Each word of the logged command reads back, in a POSIX shell, as the
    * argument that is run. */
  lemma FallbackLogReadsBack(initialPrompt: string)
    ensures forall k :: 0 <= k < |FallbackCommand(initialPrompt)| ==>
              Read(QuoteAll(FallbackCommand(initialPrompt))[k], Plain) == Some(FallbackCommand(initialPrompt)[k])
  {
    var cmd := FallbackCommand(initialPrompt);
    forall k | 0 <= k < |cmd|
      ensures Read(QuoteAll(cmd)[k], Plain) == Some(cmd[k])
    {
      ShlexQuoteReadsBack(cmd[k]);
    }
  }

  /** The environment variable names the runner sets. */
  const ModeVar := "COBOO_RUNNER_MODE"
  const SessionVar := "COBOO_SESSION_ID"
  const ThreadVar := "COBOO_THREAD_ID"
  const RoleVar := "COBOO_THREAD_ROLE"

  // ----------------------------------------------------------- process

  /** The runner's process: the lines it has written, its environment, and
    * the command that replaced it, if one has. */
  class Runner {
    var stdout: seq<string>
    var env: map<string, string>
    var exec: Option<seq<string>>

    constructor (environment: map<string, string>)
      ensures stdout == [] && env == environment && exec == None
    {
      stdout := [];
      env := environment;
      exec := None;
    }

    /** `print_banner`. */
    method PrintBanner(a: RunnerArgs)
      modifies this
      ensures stdout == old(stdout) + [BannerLine(a)]
      ensures env == old(env) && exec == old(exec)
    {
      stdout := stdout + [BannerLine(a)];
    }

    /** `exec_codex_fallback`: logs the command and replaces the process by
      * it. `os.execvp` does not return (it raises when it cannot run the
      * program), so the `return 127` after it is never reached. */
    method ExecCodexFallback(initialPrompt: string)
      modifies this
      ensures stdout == old(stdout) + [FallbackLogLine(FallbackCommand(initialPrompt))]
      ensures exec == Some(FallbackCommand(initialPrompt))
      ensures env == old(env)
    {
      var command := FallbackCommand(initialPrompt);
      stdout := stdout + [FallbackLogLine(command)];
      exec := Some(command);
    }

    /** `try_agents_sdk`: the same fallback whether or not the `agents`
      * module imports; only the notice before it differs. */
    method TryAgentsSdk(initialPrompt: string, sdkImportable: bool)
      modifies this
      ensures stdout == old(stdout) + (if sdkImportable then [SdkNotice] else [])
                        + [FallbackLogLine(FallbackCommand(initialPrompt))]
      ensures exec == Some(FallbackCommand(initialPrompt))
      ensures env == old(env)
    {
      if !sdkImportable {
        ExecCodexFallback(initialPrompt);
        return;
      }
      stdout := stdout + [SdkNotice];
      ExecCodexFallback(initialPrompt);
    }

    /** `main`: parse the options (an error stops the runner before it does
      * anything else), print the banner, export the thread's identity, and
      * hand over to the CLI. */
    method Launch(opts: map<string, string>, sdkImportable: bool) returns (parsed: Result<RunnerArgs>)
      modifies this
      ensures parsed == ParseArgs(opts)
      ensures parsed.Err? ==> stdout == old(stdout) && env == old(env) && exec == old(exec)
      ensures parsed.Ok? ==>
                var a := parsed.value;
                && stdout == old(stdout) + [BannerLine(a)] + (if sdkImportable then [SdkNotice] else [])
                             + [FallbackLogLine(FallbackCommand(a.initialPrompt))]
                && env == old(env)[ModeVar := a.mode][SessionVar := IntToString(a.sessionId)]
                                  [ThreadVar := IntToString(a.threadId)][RoleVar := a.role]
                && exec == Some(FallbackCommand(a.initialPrompt))
    {
      parsed := ParseArgs(opts);
      if parsed.Err? {
        return;
      }
      var a := parsed.value;
      PrintBanner(a);
      env := env[ModeVar := a.mode];
      env := env[SessionVar := IntToString(a.sessionId)];
      env := env[ThreadVar := IntToString(a.threadId)];
      env := env[RoleVar := a.role];
      TryAgentsSdk(a.initialPrompt, sdkImportable);
    }
  }
}
