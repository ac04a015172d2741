/** The thread runtime: which agent guide a role is given, when a child pane
  * may be recycled, what a tmux status report means, how a terminal reaches
  * a thread's pane, the command line typed into a new child pane, the limit
  * on live child panes, the status a spawned child is left in, and how a
  * directive reaches a running child. tmux and the store are not called
  * here: what they answer is a parameter, and what would be done to them is
  * returned as a list of actions. */
module ThreadRuntime {
  import opened Text
  import opened Shell
  import opened StoreSchema
  import Terminal
  import ThreadStore
  import PaneRunner

  // ---------------------------------------------------------- agent guides

  const RootGuide := ".codex/agents/codex-collab-orchestrator/codex/root-orchestrator.md"
  const WorkerGuide := ".codex/agents/codex-collab-orchestrator/codex/main-worker.md"
  const MergeReviewerGuide := ".codex/agents/codex-collab-orchestrator/codex/merge-reviewer.md"
  const DocMirrorGuide := ".codex/agents/codex-collab-orchestrator/codex/doc-mirror-manager.md"
  const PlanArchitectGuide := ".codex/agents/codex-collab-orchestrator/codex/plan-architect.md"

  /** The role names that get the root orchestrator's guide. */
  const RootRoles: set<string> := {"session-root", "root", "orchestrator"}

  /** The role names with a guide of their own. */
  predicate IsNamedRole(c: string) {
    c in RootRoles || c == "merge-reviewer" || c == "doc-mirror-manager" || c == "plan-architect"
  }

  /** `resolveAgentGuidePathForRole`: a non-blank override wins, trimmed;
    * otherwise the role, trimmed and lower-cased, picks a guide, and every
    * role not named gets the worker's. */
  function ResolveAgentGuidePathForRole(role: string, override: string): (r: string)
    ensures !IsBlank(override) ==> r == TrimSpace(override)
    ensures IsBlank(override) ==> r == GuideForRole(Canon(role))
  {
    TrimSpaceBlank(override);
    if TrimSpace(override) != "" then TrimSpace(override)
    else GuideForRole(Canon(role))
  }

  /** The guide of a role already trimmed and lower-cased: the root
    * orchestrator's for the root roles, its own for each other named role,
    * the worker's for every other role. */
  function GuideForRole(c: string): (r: string)
    ensures c in RootRoles ==> r == RootGuide
    ensures c == "merge-reviewer" ==> r == MergeReviewerGuide
    ensures c == "doc-mirror-manager" ==> r == DocMirrorGuide
    ensures c == "plan-architect" ==> r == PlanArchitectGuide
    ensures !IsNamedRole(c) ==> r == WorkerGuide
  {
    if c in RootRoles then RootGuide
    else if c == "merge-reviewer" then MergeReviewerGuide
    else if c == "doc-mirror-manager" then DocMirrorGuide
    else if c == "plan-architect" then PlanArchitectGuide
    else WorkerGuide
  }

  /** A non-blank override, trimmed or not, is the guide whatever the role. */
  lemma OverrideKept(role: string, override: string)
    requires !IsBlank(override)
    ensures ResolveAgentGuidePathForRole(role, TrimSpace(override)) == TrimSpace(override)
  {
    TrimSpaceIdempotent(override);
    TrimSpaceBlank(override);
    TrimSpaceBlank(TrimSpace(override));
  }

  /** The spelling of a role does not matter: its canonical form picks the
    * same guide. */
  lemma GuideIgnoresRoleSpelling(role: string, override: string)
    ensures ResolveAgentGuidePathForRole(Canon(role), override) == ResolveAgentGuidePathForRole(role, override)
  {
    CanonIdempotent(role);
  }

  // ------------------------------------------------------------ predicates

  /** `isChildThreadReusable`: a child whose status, trimmed and lower-cased,
    * is completed, failed, stopped or cancelled may give up its pane. */
  predicate IsChildThreadReusable(status: string) {
    var c := Canon(status);
    c == "completed" || c == "failed" || c == "stopped" || c == "cancelled"
  }

  /** A child may be recycled exactly when the store counts its status as
    * terminal. */
  lemma ReusableIffTerminal(status: string)
    ensures IsChildThreadReusable(status) <==> ThreadStore.IsThreadTerminalStatus(status)
  {
  }

  /** A running child is never recycled. */
  lemma RunningNotReusable(status: string)
    requires EqualFold(TrimSpace(status), "running")
    ensures !IsChildThreadReusable(status)
  {
    ThreadStore.RunningNotTerminal(status);
  }

  /** `isTmuxReady`: the report has a "status" entry which, lower-cased and
    * trimmed, reads "ready" or "installed". The entry's printed form is its
    * value here. */
  predicate IsTmuxReady(report: map<string, string>) {
    && "status" in report
    && var s := TrimSpace(ToLower(report["status"]));
       s == "ready" || s == "installed"
  }

  /** The case in which tmux reports its status does not matter. */
  lemma TmuxReadyIgnoresCase(report: map<string, string>, v: string)
    ensures IsTmuxReady(report["status" := ToLower(v)]) == IsTmuxReady(report["status" := v])
  {
    ToLowerIdempotent(v);
  }

  /** The report a spawn starts from when it does not ensure tmux, `skipped`,
    * is not ready: such a spawn stops after recording the thread. */
  lemma SkippedTmuxNotReady()
    ensures !IsTmuxReady(map["status" := "skipped"])
  {
    var l := ToLower("skipped");
    assert |l| == 7 && l[0] == 's' && l[6] == 'd';
    TrimSpaceUnchanged(l);
  }

  // ----------------------------------------------------------- attach info

  /** What `buildAttachInfo` reports: how a terminal reaches the thread's
    * tmux session. */
  datatype AttachInfo = AttachInfo(
    available: bool, tmuxSession: string, tmuxPaneId: string, readOnly: bool,
    attachCommand: string, attachReadonlyCommand: string, switchCommand: string)

  /** The thread's own tmux session name, when it has a non-blank one. */
  predicate HasOwnSession(thread: Option<Thread>) {
    thread.Some? && thread.value.tmuxSession.Some? && !IsBlank(thread.value.tmuxSession.value)
  }

  /** The thread's tmux session name, trimmed; empty when it has none. */
  function OwnSessionName(thread: Option<Thread>): (n: string)
    ensures n != "" <==> HasOwnSession(thread)
    ensures HasOwnSession(thread) ==> n == TrimSpace(thread.value.tmuxSession.value)
  {
    if thread.Some? && thread.value.tmuxSession.Some? then
      TrimSpaceBlank(thread.value.tmuxSession.value);
      TrimSpace(thread.value.tmuxSession.value)
    else ""
  }

  /** The tmux session to attach to: the thread's own, trimmed, when it is
    * not blank, otherwise the session's, trimmed, otherwise none. */
  function AttachSessionName(session: Session, thread: Option<Thread>): (name: string)
    ensures HasOwnSession(thread) ==> name == TrimSpace(thread.value.tmuxSession.value) && name != ""
    ensures !HasOwnSession(thread) && session.tmuxSessionName.Some? ==> name == TrimSpace(session.tmuxSessionName.value)
    ensures !HasOwnSession(thread) && session.tmuxSessionName.None? ==> name == ""
  {
    var own := OwnSessionName(thread);
    if own != "" then own
    else if session.tmuxSessionName.Some? then TrimSpace(session.tmuxSessionName.value)
    else ""
  }

  /** `buildAttachInfo`: a child thread (one with a parent) is read-only, and
    * its attach command is the read-only one; without a session name
    * nothing can be attached and no command is offered. */
  function BuildAttachInfo(session: Session, thread: Option<Thread>): (r: AttachInfo)
    ensures r.tmuxSession == AttachSessionName(session, thread)
    ensures r.available <==> r.tmuxSession != ""
    ensures r.readOnly <==> thread.Some? && thread.value.parent.Some?
    ensures r.tmuxPaneId == (if thread.Some? && thread.value.tmuxPane.Some? then TrimSpace(thread.value.tmuxPane.value) else "")
    ensures r.available ==> r.switchCommand == "tmux switch-client -t " + r.tmuxSession
    ensures r.available && r.readOnly ==>
              r.attachCommand == "tmux attach -r -t " + r.tmuxSession && r.attachReadonlyCommand == r.attachCommand
    ensures r.available && !r.readOnly ==>
              r.attachCommand == "tmux attach-session -t " + r.tmuxSession && r.attachReadonlyCommand == ""
    ensures !r.available ==> r.attachCommand == "" && r.attachReadonlyCommand == "" && r.switchCommand == ""
  {
    var name := AttachSessionName(session, thread);
    var pane := if thread.Some? && thread.value.tmuxPane.Some? then TrimSpace(thread.value.tmuxPane.value) else "";
    var readOnly := thread.Some? && thread.value.parent.Some?;
    if name == "" then AttachInfo(false, name, pane, readOnly, "", "", "")
    else if readOnly then
      AttachInfo(true, name, pane, readOnly, "tmux attach -r -t " + name, "tmux attach -r -t " + name, "tmux switch-client -t " + name)
    else AttachInfo(true, name, pane, readOnly, "tmux attach-session -t " + name, "", "tmux switch-client -t " + name)
  }

  /** A pane can be reached exactly when the thread or its session names a
    * non-blank tmux session. */
  lemma AttachAvailableIffNamed(session: Session, thread: Option<Thread>)
    ensures BuildAttachInfo(session, thread).available <==>
              HasOwnSession(thread) || (session.tmuxSessionName.Some? && !IsBlank(session.tmuxSessionName.value))
  {
    if session.tmuxSessionName.Some? {
      TrimSpaceBlank(session.tmuxSessionName.value);
    }
  }

  // -------------------------------------------------------- launch commands

  const DefaultCodexCommand := "codex --no-alt-screen"
  const PythonCommand := "python3"
  const AgentsRunnerScript := "features/codex-collab-orchestrator/components/mcp/servers/codex-orchestrator/scripts/agents_codex_runner.py"

  /** `normalizePathForThread`: the path trimmed, kept as it is when
    * absolute, cleaned (`filepath.Clean`, given as `clean`) otherwise;
    * blank paths become empty. */
  function NormalizePathForThread(path: string, clean: string -> string): (r: string)
    ensures IsBlank(path) ==> r == ""
    ensures !IsBlank(path) && HasPrefix(TrimSpace(path), "/") ==> r == TrimSpace(path)
    ensures !IsBlank(path) && !HasPrefix(TrimSpace(path), "/") ==> r == clean(TrimSpace(path))
  {
    TrimSpaceBlank(path);
    var p := TrimSpace(path);
    if p == "" then "" else if HasPrefix(p, "/") then p else clean(p)
  }

  /** The notice echoed before the CLI starts, naming the agent guide. */
  function GuideNotice(guidePath: string): string {
    " && echo \"[codex-orchestrator] agent guide: " + ShellQuote(guidePath) + "\""
  }

  /** A text begins with its first part and ends with its last. */
  lemma AppendShape(a: string, b: string, c: string)
    ensures HasPrefix(a + b + c, a) && HasSuffix(a + b + c, c)
  {
    assert (a + b + c)[..|a|] == a;
    assert (a + b + c)[|a + b + c| - |c|..] == c;
  }

  /** The part of a Codex launch command after the directory change and
    * the guide notice: the CLI command and, when there is one, the quoted
    * prompt. */
  function CodexTail(command: string, prompt: string): string {
    " && " + command + (if prompt == "" then "" else " " + ShellQuote(prompt))
  }

  /** `defaultCodexLaunchCommand`: change into the quoted work directory,
    * name the guide when there is one, and run the given CLI command (by
    * default `codex --no-alt-screen`), with the trimmed prompt quoted as one
    * more word when it is not blank. */
  function CodexLaunchCommand(workdir: string, codexCommand: string, agentGuidePath: string, initialPrompt: string,
                              clean: string -> string): (r: string)
    ensures HasPrefix(r, "cd " + ShellQuote(workdir))
    ensures HasSuffix(r, CodexTail(TrimOrDefault(codexCommand, DefaultCodexCommand), TrimSpace(initialPrompt)))
  {
    var command := TrimOrDefault(codexCommand, DefaultCodexCommand);
    var prompt := TrimSpace(initialPrompt);
    var guidePath := TrimSpace(NormalizePathForThread(agentGuidePath, clean));
    var cd := "cd " + ShellQuote(workdir);
    var notice := if guidePath != "" then GuideNotice(guidePath) else "";
    AppendShape(cd, notice, CodexTail(command, prompt));
    cd + notice + CodexTail(command, prompt)
  }

  /** The CLI command ends the launch command, followed by the trimmed
    * prompt, quoted, exactly when the prompt is not blank. */
  lemma CodexTailShape(codexCommand: string, initialPrompt: string)
    ensures IsBlank(initialPrompt) ==>
              CodexTail(TrimOrDefault(codexCommand, DefaultCodexCommand), TrimSpace(initialPrompt))
              == " && " + TrimOrDefault(codexCommand, DefaultCodexCommand)
    ensures !IsBlank(initialPrompt) ==>
              CodexTail(TrimOrDefault(codexCommand, DefaultCodexCommand), TrimSpace(initialPrompt))
              == " && " + TrimOrDefault(codexCommand, DefaultCodexCommand) + " " + ShellQuote(TrimSpace(initialPrompt))
  {
    TrimSpaceBlank(initialPrompt);
    var command := TrimOrDefault(codexCommand, DefaultCodexCommand);
    if IsBlank(initialPrompt) {
      CodexTailBare(command);
    } else {
      CodexTailQuoted(command, TrimSpace(initialPrompt));
    }
  }

  lemma CodexTailBare(command: string)
    ensures CodexTail(command, "") == " && " + command
  {
    assert " && " + command + "" == " && " + command;
  }

  lemma CodexTailQuoted(command: string, prompt: string)
    requires prompt != ""
    ensures CodexTail(command, prompt) == " && " + command + " " + ShellQuote(prompt)
  {
  }

  /** The prompt word of a Codex launch command reads back, in a POSIX
    * shell, as the trimmed prompt. */
  lemma CodexPromptReadsBack(initialPrompt: string)
    requires !IsBlank(initialPrompt)
    ensures Read(ShellQuote(TrimSpace(initialPrompt)), Plain) == Some(TrimSpace(initialPrompt))
  {
    ShellQuoteReadsBack(TrimSpace(initialPrompt));
    TrimSpaceIdempotent(initialPrompt);
    TrimSpaceBlank(initialPrompt);
  }

  /** One option of the runner's command line: the flag and the word typed
    * after it. */
  datatype Opt = Opt(flag: string, word: string)

  /** The options `defaultAgentsRunnerLaunchCommand` passes: the child mode,
    * both ids in decimal, the quoted role, and the quoted prompt when it is
    * not blank. */
  function RunnerOpts(sessionId: int, threadId: int, role: string, initialPrompt: string): (opts: seq<Opt>)
    ensures |opts| == 5 <==> !IsBlank(initialPrompt)
    ensures |opts| == 4 || |opts| == 5
    ensures opts[..4] == FixedOpts(sessionId, threadId, role)
    ensures |opts| == 5 ==> opts[4] == Opt("--initial-prompt", ShellQuote(initialPrompt))
  {
    TrimSpaceBlank(initialPrompt);
    if TrimSpace(initialPrompt) != "" then FixedOpts(sessionId, threadId, role) + [Opt("--initial-prompt", ShellQuote(initialPrompt))]
    else FixedOpts(sessionId, threadId, role)
  }

  /** The options as typed: a space before each flag and before its word. */
  function RenderOpts(opts: seq<Opt>): string
    decreases |opts|
  {
    if opts == [] then "" else " " + opts[0].flag + " " + opts[0].word + RenderOpts(opts[1..])
  }

  /** `defaultAgentsRunnerLaunchCommand`: change into the quoted work
    * directory and run the pane runner script (at `scriptPath`, the script
    * joined to the repository path) under `python3` with the options above. */
  function AgentsRunnerLaunchCommand(workdir: string, scriptPath: string, sessionId: int, threadId: int, role: string,
                                     initialPrompt: string): (r: string)
    ensures HasPrefix(r, "cd " + ShellQuote(workdir))
    ensures HasSuffix(r, " && " + RunnerInvocation(scriptPath, RunnerOpts(sessionId, threadId, role, initialPrompt)))
  {
    var cd := "cd " + ShellQuote(workdir);
    var run := " && " + RunnerInvocation(scriptPath, RunnerOpts(sessionId, threadId, role, initialPrompt));
    AppendShape(cd, "", run);
    assert cd + "" == cd;
    cd + run
  }

  /** The pane runner under `python3`, with its options. */
  function RunnerInvocation(scriptPath: string, opts: seq<Opt>): string {
    PythonCommand + " " + ShellQuote(scriptPath) + RenderOpts(opts)
  }

  /** The options a shell hands the runner: each word read as the shell
    * reads it, a later flag overriding an earlier one as `argparse` does;
    * nothing when a word does not read. */
  function ReadOpts(opts: seq<Opt>): Option<map<string, string>>
    decreases |opts|
  {
    if opts == [] then Some(map[])
    else
      var last := opts[|opts| - 1];
      match ReadOpts(opts[..|opts| - 1])
      case None => None
      case Some(m) =>
        match Read(last.word, Plain)
        case None => None
        case Some(v) => Some(m[last.flag := v])
  }

  /** Decimal numbers need no quoting. */
  lemma IntToStringSafe(i: int)
    ensures AllShlexSafe(IntToString(i))
  {
    var s := IntToString(i);
    if i < 0 {
      var d := NatToString(-i);
      assert s == "-" + d;
      forall k | 0 <= k < |s| ensures IsShlexSafe(s[k]) {
        if k > 0 { assert s[k] == d[k - 1]; assert IsDigit(d[k - 1]); }
      }
    } else {
      forall k | 0 <= k < |s| ensures IsShlexSafe(s[k]) {
        assert IsDigit(s[k]);
      }
    }
  }

  lemma ReadDecimal(i: int)
    ensures Read(IntToString(i), Plain) == Some(IntToString(i))
  {
    IntToStringSafe(i);
    ReadSafe(IntToString(i));
  }

  lemma ReadChild()
    ensures Read("child", Plain) == Some("child")
  {
    var c := "child";
    assert IsShlexSafe(c[0]) && IsShlexSafe(c[1]) && IsShlexSafe(c[2]) && IsShlexSafe(c[3]) && IsShlexSafe(c[4]);
    ReadSafe(c);
  }

  /** What a word `ShellQuote(v)` reads back as. */
  function Unquoted(v: string): string {
    if TrimSpace(v) == "" then "" else v
  }

  /** One more option read after the others. */
  lemma ReadOptsSnoc(opts: seq<Opt>, o: Opt, m: map<string, string>, v: string)
    requires ReadOpts(opts) == Some(m) && Read(o.word, Plain) == Some(v)
    ensures ReadOpts(opts + [o]) == Some(m[o.flag := v])
  {
    assert (opts + [o])[..|opts|] == opts;
  }

  /** The options the runner receives from its command line. */
  function RunnerOptionMap(sessionId: int, threadId: int, role: string, initialPrompt: string): map<string, string> {
    var m := FixedOptionMap(sessionId, threadId, role);
    if IsBlank(initialPrompt) then m else m["--initial-prompt" := initialPrompt]
  }

  /** The four options every runner command carries. */
  function FixedOpts(sessionId: int, threadId: int, role: string): seq<Opt> {
    [Opt("--mode", "child")] + [Opt("--session-id", IntToString(sessionId))] + [Opt("--thread-id", IntToString(threadId))]
    + [Opt("--role", ShellQuote(role))]
  }

  /** The fixed options as the runner receives them. */
  function FixedOptionMap(sessionId: int, threadId: int, role: string): map<string, string> {
    map[]["--mode" := "child"]["--session-id" := IntToString(sessionId)]["--thread-id" := IntToString(threadId)]
      ["--role" := Unquoted(role)]
  }

  lemma FixedOptsRead(sessionId: int, threadId: int, role: string)
    ensures ReadOpts(FixedOpts(sessionId, threadId, role)) == Some(FixedOptionMap(sessionId, threadId, role))
  {
    var o1, o2, o3, o4 := Opt("--mode", "child"), Opt("--session-id", IntToString(sessionId)),
                          Opt("--thread-id", IntToString(threadId)), Opt("--role", ShellQuote(role));
    var m1 := map[]["--mode" := "child"];
    var m2 := m1["--session-id" := IntToString(sessionId)];
    var m3 := m2["--thread-id" := IntToString(threadId)];
    ReadChild();
    ReadDecimal(sessionId);
    ReadDecimal(threadId);
    ShellQuoteReadsBack(role);
    assert [o1][..0] == [];
    ReadOptsSnoc([o1], o2, m1, IntToString(sessionId));
    ReadOptsSnoc([o1] + [o2], o3, m2, IntToString(threadId));
    ReadOptsSnoc([o1] + [o2] + [o3], o4, m3, Unquoted(role));
  }

  /** A shell reads the launch options back as the runner's option map. */
  lemma RunnerOptsRead(sessionId: int, threadId: int, role: string, initialPrompt: string)
    ensures ReadOpts(RunnerOpts(sessionId, threadId, role, initialPrompt))
            == Some(RunnerOptionMap(sessionId, threadId, role, initialPrompt))
  {
    var fixed := FixedOpts(sessionId, threadId, role);
    FixedOptsRead(sessionId, threadId, role);
    TrimSpaceBlank(initialPrompt);
    if !IsBlank(initialPrompt) {
      var o5 := Opt("--initial-prompt", ShellQuote(initialPrompt));
      ShellQuoteReadsBack(initialPrompt);
      ReadOptsSnoc(fixed, o5, FixedOptionMap(sessionId, threadId, role), initialPrompt);
    }
  }

  /** `parse_args` on options holding the given values. */
  lemma ParseArgsOf(m: map<string, string>, sessionId: int, threadId: int, role: string, initialPrompt: string)
    requires "--mode" in m && m["--mode"] == "child"
    requires "--session-id" in m && m["--session-id"] == IntToString(sessionId)
    requires "--thread-id" in m && m["--thread-id"] == IntToString(threadId)
    requires "--role" in m && m["--role"] == role
    requires if "--initial-prompt" in m then m["--initial-prompt"] == initialPrompt else initialPrompt == ""
    ensures PaneRunner.ParseArgs(m) == Ok(PaneRunner.RunnerArgs("child", sessionId, threadId, role, initialPrompt))
  {
    PaneRunner.ParseIntOfIntToString(sessionId);
    PaneRunner.ParseIntOfIntToString(threadId);
  }

  /** The runner parses those options as a child of the session and thread
    * that launched it, with the role and prompt it was given. */
  lemma RunnerOptionMapParses(sessionId: int, threadId: int, role: string, initialPrompt: string)
    ensures PaneRunner.ParseArgs(RunnerOptionMap(sessionId, threadId, role, initialPrompt))
            == Ok(PaneRunner.RunnerArgs("child", sessionId, threadId, Unquoted(role),
                                        if IsBlank(initialPrompt) then "" else initialPrompt))
  {
    var m := RunnerOptionMap(sessionId, threadId, role, initialPrompt);
    ParseArgsOf(m, sessionId, threadId, Unquoted(role), if IsBlank(initialPrompt) then "" else initialPrompt);
  }

  /** End to end: the agents-runner command line starts the pane runner as a
    * child of exactly the session and thread it was built for. */
  lemma RunnerCommandParsesBack(sessionId: int, threadId: int, role: string, initialPrompt: string)
    ensures ReadOpts(RunnerOpts(sessionId, threadId, role, initialPrompt)).Some?
    ensures PaneRunner.ParseArgs(ReadOpts(RunnerOpts(sessionId, threadId, role, initialPrompt)).value)
            == Ok(PaneRunner.RunnerArgs("child", sessionId, threadId, Unquoted(role),
                                        if IsBlank(initialPrompt) then "" else initialPrompt))
  {
    RunnerOptsRead(sessionId, threadId, role, initialPrompt);
    RunnerOptionMapParses(sessionId, threadId, role, initialPrompt);
  }

  // ------------------------------------------------------- spawn decisions

  const DefaultRunnerKind := "agents_sdk_codex_mcp"
  const DefaultInteractionMode := "view_only"
  const DefaultChildWindowName := "children"
  const DefaultMaxChildThreads := 6

  /** The options of a child spawn that have defaults. */
  datatype SpawnOptions = SpawnOptions(
    role: string, runnerKind: string, interactionMode: string, providerType: string,
    windowName: string, maxChildren: Option<int>)

  /** What a spawn settles on. */
  datatype SpawnSettings = SpawnSettings(
    role: string, runnerKind: string, interactionMode: string, providerType: string,
    windowName: string, maxChildren: int)

  /** `normalizeWindowName`: the trimmed name, or the fallback when blank. */
  function NormalizeWindowName(windowName: string, fallback: string): (r: string)
    ensures IsBlank(windowName) ==> r == fallback
    ensures !IsBlank(windowName) ==> r == TrimSpace(windowName) && r != ""
  {
    TrimOrDefault(windowName, fallback)
  }

  /** The defaults of `spawnChildThreadInternal`: role `worker`, the agents
    * SDK runner, view-only interaction, the `codex` provider, the `children`
    * window, and six live children at most when no positive limit is given. */
  function ResolveSpawnSettings(o: SpawnOptions): (s: SpawnSettings)
    ensures s.role == TrimOrDefault(o.role, "worker") && s.role != ""
    ensures s.runnerKind == TrimOrDefault(o.runnerKind, DefaultRunnerKind)
    ensures s.interactionMode == TrimOrDefault(o.interactionMode, DefaultInteractionMode)
    ensures s.providerType == TrimOrDefault(o.providerType, "codex")
    ensures s.windowName == NormalizeWindowName(o.windowName, DefaultChildWindowName)
    ensures s.maxChildren > 0
    ensures o.maxChildren.Some? && o.maxChildren.value > 0 ==> s.maxChildren == o.maxChildren.value
    ensures o.maxChildren.None? || o.maxChildren.value <= 0 ==> s.maxChildren == DefaultMaxChildThreads
  {
    var max := if o.maxChildren.Some? then o.maxChildren.value else DefaultMaxChildThreads;
    SpawnSettings(TrimOrDefault(o.role, "worker"), TrimOrDefault(o.runnerKind, DefaultRunnerKind),
                  TrimOrDefault(o.interactionMode, DefaultInteractionMode), TrimOrDefault(o.providerType, "codex"),
                  NormalizeWindowName(o.windowName, DefaultChildWindowName),
                  if max <= 0 then DefaultMaxChildThreads else max)
  }

  /** The command typed into a new child pane: the caller's, trimmed, when
    * given; otherwise, when the CLI is to be launched, the Codex command if
    * a CLI command was given and the agents runner's if not, with the
    * caller's trimmed prompt or `defaultPrompt`; otherwise none. The
    * scripted prompt and `filepath.Join`/`filepath.Clean` are parameters. */
  function SpawnLaunchCommand(launchCommand: string, launchCodex: bool, codexCommand: string, initialPrompt: string,
                              defaultPrompt: string, workdir: string, guidePath: string, scriptPath: string,
                              sessionId: int, threadId: int, role: string, clean: string -> string): (r: string)
    ensures !IsBlank(launchCommand) ==> r == TrimSpace(launchCommand)
    ensures IsBlank(launchCommand) && !launchCodex ==> r == ""
    ensures IsBlank(launchCommand) && launchCodex && !IsBlank(codexCommand) ==>
              r == CodexLaunchCommand(workdir, codexCommand, guidePath, TrimOrDefault(initialPrompt, defaultPrompt), clean)
    ensures IsBlank(launchCommand) && launchCodex && IsBlank(codexCommand) ==>
              r == AgentsRunnerLaunchCommand(workdir, scriptPath, sessionId, threadId, role,
                                             TrimOrDefault(initialPrompt, defaultPrompt))
  {
    TrimSpaceBlank(launchCommand);
    TrimSpaceBlank(codexCommand);
    var given := TrimSpace(launchCommand);
    if given != "" || !launchCodex then given
    else
      var prompt := TrimOrDefault(initialPrompt, defaultPrompt);
      if TrimSpace(codexCommand) != "" then CodexLaunchCommand(workdir, codexCommand, guidePath, prompt, clean)
      else AgentsRunnerLaunchCommand(workdir, scriptPath, sessionId, threadId, role, prompt)
  }

  /** A command that starts with `cd ` is not blank. */
  lemma CdNotBlank(r: string, rest: string)
    requires HasPrefix(r, "cd " + rest)
    ensures !IsBlank(r)
  {
    assert r[0] == 'c';
  }

  lemma CodexLaunchNotBlank(workdir: string, codexCommand: string, agentGuidePath: string, initialPrompt: string,
                            clean: string -> string)
    ensures !IsBlank(CodexLaunchCommand(workdir, codexCommand, agentGuidePath, initialPrompt, clean))
  {
    CdNotBlank(CodexLaunchCommand(workdir, codexCommand, agentGuidePath, initialPrompt, clean), ShellQuote(workdir));
  }

  lemma AgentsRunnerLaunchNotBlank(workdir: string, scriptPath: string, sessionId: int, threadId: int, role: string,
                                   initialPrompt: string)
    ensures !IsBlank(AgentsRunnerLaunchCommand(workdir, scriptPath, sessionId, threadId, role, initialPrompt))
  {
    CdNotBlank(AgentsRunnerLaunchCommand(workdir, scriptPath, sessionId, threadId, role, initialPrompt), ShellQuote(workdir));
  }

  /** A child asked to launch the CLI always gets a command to run. */
  lemma LaunchedChildHasCommand(launchCommand: string, launchCodex: bool, codexCommand: string, initialPrompt: string,
                                defaultPrompt: string, workdir: string, guidePath: string, scriptPath: string,
                                sessionId: int, threadId: int, role: string, clean: string -> string)
    requires launchCodex || !IsBlank(launchCommand)
    ensures !IsBlank(SpawnLaunchCommand(launchCommand, launchCodex, codexCommand, initialPrompt, defaultPrompt,
                                        workdir, guidePath, scriptPath, sessionId, threadId, role, clean))
  {
    var prompt := TrimOrDefault(initialPrompt, defaultPrompt);
    if !IsBlank(launchCommand) {
      TrimSpaceBlank(launchCommand);
      TrimSpaceBlank(TrimSpace(launchCommand));
    } else if !IsBlank(codexCommand) {
      CodexLaunchNotBlank(workdir, codexCommand, guidePath, prompt, clean);
    } else {
      AgentsRunnerLaunchNotBlank(workdir, scriptPath, sessionId, threadId, role, prompt);
    }
  }

  /** How waiting for a freshly launched CLI ended: a target status was
    * seen, the wait timed out (or the request was cancelled), or it failed
    * otherwise. */
  datatype WaitOutcome = Reached(status: Terminal.Status) | TimedOut | WaitFailed(message: string)

  /** The statuses a spawn waits for. */
  predicate IsReadyTarget(s: Terminal.Status) {
    s == Terminal.Idle || s == Terminal.Completed
  }

  /** The ready check recorded in the tmux report: skipped without a command
    * or when asked to skip, otherwise the status reached, `timeout` or
    * `error`. */
  function ReadyCheck(launchCommand: string, skipReadyCheck: bool, wait: WaitOutcome): (r: string)
    ensures IsBlank(launchCommand) || skipReadyCheck ==> r == "skipped"
    ensures !IsBlank(launchCommand) && !skipReadyCheck ==>
              && (wait.Reached? ==> r == Terminal.StatusText(wait.status))
              && (wait.TimedOut? ==> r == "timeout")
              && (wait.WaitFailed? ==> r == "error")
  {
    TrimSpaceBlank(launchCommand);
    if TrimSpace(launchCommand) == "" || skipReadyCheck then "skipped"
    else match wait
      case Reached(s) => Terminal.StatusText(s)
      case TimedOut => "timeout"
      case WaitFailed(_) => "error"
  }

  /** The status a spawned child is left in: `planned` without a launch
    * command, `initializing` when the ready check timed out or failed,
    * `running` otherwise. */
  function PostSpawnStatus(launchCommand: string, readyCheck: string): (s: string)
    ensures s == "planned" <==> IsBlank(launchCommand)
    ensures s == "initializing" <==> !IsBlank(launchCommand) && (readyCheck == "timeout" || readyCheck == "error")
    ensures s == "running" <==> !IsBlank(launchCommand) && readyCheck != "timeout" && readyCheck != "error"
  {
    TrimSpaceBlank(launchCommand);
    if TrimSpace(launchCommand) == "" then "planned"
    else if readyCheck == "timeout" || readyCheck == "error" then "initializing"
    else "running"
  }

  /** A launched child runs exactly when its ready check was skipped or it
    * reached a target status. */
  lemma SpawnedChildRunsIffReady(launchCommand: string, skipReadyCheck: bool, wait: WaitOutcome)
    requires wait.Reached? ==> IsReadyTarget(wait.status)
    ensures var s := PostSpawnStatus(launchCommand, ReadyCheck(launchCommand, skipReadyCheck, wait));
            && (s == "running" <==> !IsBlank(launchCommand) && (skipReadyCheck || wait.Reached?))
            && (s == "initializing" <==> !IsBlank(launchCommand) && !skipReadyCheck && !wait.Reached?)
  {
    var rc := ReadyCheck(launchCommand, skipReadyCheck, wait);
    if !IsBlank(launchCommand) && !skipReadyCheck && wait.Reached? {
      assert rc == "idle" || rc == "completed";
      assert |rc| == 4 || |rc| == 9;
    }
  }

  // -------------------------------------------------------- pane capacity

  /** `valueOrEmpty` of the thread's pane, trimmed. */
  function PaneOf(t: Thread): string {
    if t.tmuxPane.Some? then TrimSpace(t.tmuxPane.value) else ""
  }

  /** A child counted against the limit: its pane is bound and it lives in
    * the named tmux session. */
  predicate InChildSession(t: Thread, childSessionName: string) {
    t.tmuxPane.Some? && TrimSpace(t.tmuxPane.value) != ""
    && t.tmuxSession.Some? && TrimSpace(t.tmuxSession.value) == childSessionName
  }

  /** A child whose pane tmux still has. */
  predicate Live(t: Thread, childSessionName: string, paneExists: string -> bool) {
    InChildSession(t, childSessionName) && paneExists(PaneOf(t))
  }

  /** What capacity enforcement does to the store and to tmux, in order. */
  datatype PaneAction =
    | ClearPane(threadId: int)               // the pane is gone: forget its pane and window
    | StopChild(threadId: int, paneId: string) // kill the pane, mark the thread stopped, forget pane and window

  /** The live children. */
  function Occupied(children: seq<(int, Thread)>, name: string, paneExists: string -> bool): nat
    decreases |children|
  {
    if children == [] then 0
    else
      var last := children[|children| - 1];
      Occupied(children[..|children| - 1], name, paneExists) + (if Live(last.1, name, paneExists) then 1 else 0)
  }

  /** The live children that may be recycled, in list order. */
  function Recyclable(children: seq<(int, Thread)>, name: string, paneExists: string -> bool): seq<(int, Thread)>
    decreases |children|
  {
    if children == [] then []
    else
      var last := children[|children| - 1];
      var init := Recyclable(children[..|children| - 1], name, paneExists);
      if Live(last.1, name, paneExists) && IsChildThreadReusable(last.1.status) then init + [last] else init
  }

  /** The children whose pane has disappeared, in list order. */
  function StaleClears(children: seq<(int, Thread)>, name: string, paneExists: string -> bool): seq<PaneAction>
    decreases |children|
  {
    if children == [] then []
    else
      var last := children[|children| - 1];
      var init := StaleClears(children[..|children| - 1], name, paneExists);
      if InChildSession(last.1, name) && !paneExists(PaneOf(last.1)) then init + [ClearPane(last.0)] else init
  }

  /** Stopping each of the given children. */
  function Stops(victims: seq<(int, Thread)>): (r: seq<PaneAction>)
    ensures |r| == |victims|
    ensures forall k :: 0 <= k < |r| ==> r[k] == StopChild(victims[k].0, PaneOf(victims[k].1))
  {
    seq(|victims|, k requires 0 <= k < |victims| => StopChild(victims[k].0, PaneOf(victims[k].1)))
  }

  /** Only live, reusable children of the list are ever recycled. */
  lemma {:induction false} RecyclableAreReusable(children: seq<(int, Thread)>, name: string, paneExists: string -> bool)
    ensures var rec := Recyclable(children, name, paneExists);
            forall k :: 0 <= k < |rec| ==>
              rec[k] in children && Live(rec[k].1, name, paneExists) && IsChildThreadReusable(rec[k].1.status)
    ensures |Recyclable(children, name, paneExists)| <= Occupied(children, name, paneExists)
    decreases |children|
  {
    if children != [] {
      var init := children[..|children| - 1];
      RecyclableAreReusable(init, name, paneExists);
      var rec0 := Recyclable(init, name, paneExists);
      forall k | 0 <= k < |rec0| ensures rec0[k] in children {
        assert rec0[k] in init;
      }
    }
  }

  /** The reusable children are counted among the live ones, so each has a
    * pane in the named session. */
  lemma {:induction false} RecyclableInSession(children: seq<(int, Thread)>, name: string, paneExists: string -> bool)
    ensures var rec := Recyclable(children, name, paneExists);
            |rec| <= Occupied(children, name, paneExists)
            && forall k :: 0 <= k < |rec| ==> InChildSession(rec[k].1, name)
    decreases |children|
  {
    if children != [] {
      RecyclableInSession(children[..|children| - 1], name, paneExists);
    }
  }

  /** The error when the limit cannot be met. */
  function LimitMessage(sessionId: int, max: int): string {
    "child thread limit reached: session_id=" + IntToString(sessionId) + " max=" + IntToString(max)
  }

  /** What one more child adds to the scan. */
  lemma ScanStep(children: seq<(int, Thread)>, i: int, name: string, paneExists: string -> bool)
    requires 0 <= i < |children|
    ensures var c := children[i];
            && Occupied(children[..i + 1], name, paneExists)
               == Occupied(children[..i], name, paneExists) + (if Live(c.1, name, paneExists) then 1 else 0)
            && Recyclable(children[..i + 1], name, paneExists)
               == (if Live(c.1, name, paneExists) && IsChildThreadReusable(c.1.status)
                   then Recyclable(children[..i], name, paneExists) + [c] else Recyclable(children[..i], name, paneExists))
            && StaleClears(children[..i + 1], name, paneExists)
               == (if InChildSession(c.1, name) && !paneExists(PaneOf(c.1))
                   then StaleClears(children[..i], name, paneExists) + [ClearPane(c.0)]
                   else StaleClears(children[..i], name, paneExists))
  {
    assert children[..i + 1][..i] == children[..i];
  }

  /** What stopping one more candidate adds. */
  lemma StopsStep(victims: seq<(int, Thread)>, j: int)
    requires 0 <= j < |victims|
    ensures Stops(victims[..j + 1]) == Stops(victims[..j]) + [StopChild(victims[j].0, PaneOf(victims[j].1))]
  {
  }

  /** The first loop of `ensureChildPaneCapacity`: counts the live
    * children, collects the reusable ones among them, and clears the
    * children whose pane has gone. */
  method ScanChildren(children: seq<(int, Thread)>, childSessionName: string, paneExists: string -> bool)
    returns (occupied: nat, recyclable: seq<(int, Thread)>, clears: seq<PaneAction>)
    ensures occupied == Occupied(children, childSessionName, paneExists)
    ensures recyclable == Recyclable(children, childSessionName, paneExists)
    ensures clears == StaleClears(children, childSessionName, paneExists)
  {
    occupied := 0;
    recyclable := [];
    clears := [];
    var i := 0;
    while i < |children|
      invariant 0 <= i <= |children|
      invariant occupied == Occupied(children[..i], childSessionName, paneExists)
      invariant recyclable == Recyclable(children[..i], childSessionName, paneExists)
      invariant clears == StaleClears(children[..i], childSessionName, paneExists)
    {
      ScanStep(children, i, childSessionName, paneExists);
      var (id, t) := children[i];
      if t.tmuxPane.None? || TrimSpace(t.tmuxPane.value) == "" {
        i := i + 1;
        continue;
      }
      if t.tmuxSession.None? || TrimSpace(t.tmuxSession.value) != childSessionName {
        i := i + 1;
        continue;
      }
      var paneId := TrimSpace(t.tmuxPane.value);
      if !paneExists(paneId) {
        clears := clears + [ClearPane(id)];
        i := i + 1;
        continue;
      }
      occupied := occupied + 1;
      if IsChildThreadReusable(t.status) {
        recyclable := recyclable + [(id, t)];
      }
      i := i + 1;
    }
    assert children[..|children|] == children;
  }

  /** The second loop of `ensureChildPaneCapacity`: after the clearing
    * actions, stops the candidates in order until fewer than `max` panes
    * are live, and fails with the limit error when they run out first. */
  method RecycleUntilFree(sessionId: int, recyclable: seq<(int, Thread)>, occupied: nat, max: int,
                          childSessionName: string, clears: seq<PaneAction>)
    returns (r: Result<()>, actions: seq<PaneAction>)
    requires occupied >= max
    requires |recyclable| <= occupied
    requires forall k :: 0 <= k < |recyclable| ==> InChildSession(recyclable[k].1, childSessionName)
    ensures (r, actions) == PlanFrom(sessionId, max, occupied, recyclable, clears)
  {
    var live := occupied;
    var stops := [];
    var j := 0;
    while j < |recyclable|
      invariant 0 <= j <= |recyclable|
      invariant live == occupied - j
      invariant live >= max
      invariant stops == Stops(recyclable[..j])
    {
      var (id, t) := recyclable[j];
      var paneId := PaneOf(t);
      if paneId == "" {
        // a recyclable child was counted live, so its pane is bound
        assert false;
      }
      StopsStep(recyclable, j);
      stops := stops + [StopChild(id, paneId)];
      live := live - 1;
      j := j + 1;
      if live < max {
        PlanFreed(sessionId, max, occupied, recyclable, clears, j);
        return Ok(()), clears + stops;
      }
    }
    PlanExhausted(sessionId, max, occupied, recyclable, clears, j);
    return Err(LimitMessage(sessionId, max)), clears + stops;
  }

  /** Stopping the first `j` candidates is what the plan does once exactly
    * `max - 1` panes are left live. */
  lemma PlanFreed(sessionId: int, max: int, occ: nat, rec: seq<(int, Thread)>, clears: seq<PaneAction>, j: int)
    requires occ >= max && 0 <= j <= |rec| && occ - j == max - 1
    ensures PlanFrom(sessionId, max, occ, rec, clears) == (Ok(()), clears + Stops(rec[..j]))
  {
  }

  /** Stopping every candidate while `max` or more panes stay live is the
    * plan's failure. */
  lemma PlanExhausted(sessionId: int, max: int, occ: nat, rec: seq<(int, Thread)>, clears: seq<PaneAction>, j: int)
    requires occ >= max && j == |rec| && occ - j >= max
    ensures PlanFrom(sessionId, max, occ, rec, clears) == (Err(LimitMessage(sessionId, max)), clears + Stops(rec[..j]))
  {
    assert rec[..j] == rec;
  }

  /** What `ensureChildPaneCapacity` does: children whose pane has gone are
    * cleared; when the live children reach the limit, reusable ones are
    * stopped in list order until one pane is free; when they do not
    * suffice, all of them are stopped and the limit error is returned. */
  function CapacityPlan(sessionId: int, children: seq<(int, Thread)>, name: string, max: int,
                        paneExists: string -> bool): (Result<()>, seq<PaneAction>)
  {
    PlanFrom(sessionId, max, Occupied(children, name, paneExists), Recyclable(children, name, paneExists),
             StaleClears(children, name, paneExists))
  }

  /** The plan, given the live count, the reusable live children and the
    * clearing actions. */
  function PlanFrom(sessionId: int, max: int, occ: nat, rec: seq<(int, Thread)>, clears: seq<PaneAction>)
    : (Result<()>, seq<PaneAction>)
  {
    if occ < max then (Ok(()), clears)
    else if |rec| >= occ - max + 1 then (Ok(()), clears + Stops(rec[..occ - max + 1]))
    else (Err(LimitMessage(sessionId, max)), clears + Stops(rec))
  }

  /** There are never more candidates for recycling than live panes, so
    * `PlanFromMeetsLimit` applies to the scan's results. */
  lemma RecyclableFewer(children: seq<(int, Thread)>, name: string, paneExists: string -> bool)
    ensures |Recyclable(children, name, paneExists)| <= Occupied(children, name, paneExists)
  {
    RecyclableAreReusable(children, name, paneExists);
  }

  /** The plan clears the vanished panes first, then stops a prefix of the
    * reusable live children; it succeeds exactly when that leaves fewer
    * than `max` live panes, and then it stops no more children than it
    * needs to. */
  lemma PlanFromMeetsLimit(sessionId: int, max: int, occ: nat, rec: seq<(int, Thread)>, clears: seq<PaneAction>,
                           r: Result<()>, actions: seq<PaneAction>)
    requires |rec| <= occ
    requires (r, actions) == PlanFrom(sessionId, max, occ, rec, clears)
    ensures var n := |actions| - |clears|;
            && 0 <= n <= |rec|
            && actions == clears + Stops(rec[..n])
            && (r.Ok? <==> occ - n < max)
            && (r.Ok? && n > 0 ==> occ - n == max - 1)
            && (r.Err? ==> n == |rec| && r.msg == LimitMessage(sessionId, max))
  {
    if occ < max {
      assert rec[..0] == [];
      assert clears + [] == clears;
    } else if |rec| < occ - max + 1 {
      assert rec[..|rec|] == rec;
    }
  }


  /** `ensureChildPaneCapacity`, given the children `ListThreads` returned
    * for the parent and what tmux says of each pane. */
  method EnsureChildPaneCapacity(sessionId: int, children: seq<(int, Thread)>, childSessionName: string, max: int,
                                 paneExists: string -> bool)
    returns (r: Result<()>, actions: seq<PaneAction>)
    ensures (r, actions) == CapacityPlan(sessionId, children, childSessionName, max, paneExists)
  {
    var occupied, recyclable, clears := ScanChildren(children, childSessionName, paneExists);
    PlanOfScan(sessionId, children, childSessionName, max, paneExists, occupied, recyclable, clears);
    if occupied < max {
      return Ok(()), clears;
    }
    r, actions := RecycleUntilFree(sessionId, recyclable, occupied, max, childSessionName, clears);
  }

  /** The plan in terms of what the first loop found. */
  lemma PlanOfScan(sessionId: int, children: seq<(int, Thread)>, name: string, max: int, paneExists: string -> bool,
                   occ: nat, rec: seq<(int, Thread)>, clears: seq<PaneAction>)
    requires occ == Occupied(children, name, paneExists)
    requires rec == Recyclable(children, name, paneExists)
    requires clears == StaleClears(children, name, paneExists)
    ensures |rec| <= occ && forall k :: 0 <= k < |rec| ==> InChildSession(rec[k].1, name)
    ensures CapacityPlan(sessionId, children, name, max, paneExists) == PlanFrom(sessionId, max, occ, rec, clears)
  {
    RecyclableInSession(children, name, paneExists);
  }

  // ------------------------------------------------------------ directives

  /** A tmux key stroke sent to a pane. */
  datatype KeyAction = SendKeys(paneId: string, text: string) | SendKeysRaw(paneId: string, key: string)

  /** The spawn a restart asks for. */
  datatype RespawnRequest = RespawnRequest(
    sessionId: int, parent: Option<int>, worktreeId: Option<int>, role: string, title: string,
    objective: string, guidePath: string, initialPrompt: string, launchCodex: bool)

  /** What a directive does: send keys (and maybe mark the child running),
    * or stop the child and spawn it again with the directive as its
    * prompt. */
  datatype DirectiveOutcome =
    | DirectiveSent(mode: string, directive: string, keys: seq<KeyAction>, markRunning: bool)
    | Respawned(mode: string, stopThread: int, respawn: RespawnRequest)

  /** The mode a directive reports: `queue` and `restart` as asked, in any
    * case and spacing; everything else, blank included, `interrupt_patch`. */
  function ReportedMode(mode: string): (m: string)
    ensures m == "queue" || m == "restart" || m == "interrupt_patch"
    ensures m == "queue" <==> Canon(mode) == "queue"
    ensures m == "restart" <==> Canon(mode) == "restart"
  {
    var c := ToLower(TrimSpace(mode));
    var m := if c == "" then "interrupt_patch" else c;
    if m == "queue" then "queue" else if m == "restart" then "restart" else "interrupt_patch"
  }

  /** `directiveChildThread`, given the lookup of the thread by its id: the
    * id must be positive, the directive not blank, the thread a child with
    * a pane. `queue` types the trimmed directive; `restart` stops the child
    * and respawns it with the directive as prompt; any other mode
    * interrupts with C-c, types the directive and marks the child running. */
  function DirectiveChildThread(threadId: int, directive: string, mode: string, lookup: Result<Thread>)
    : (r: Result<DirectiveOutcome>)
    ensures threadId <= 0 ==> r == Err("thread_id is required")
    ensures threadId > 0 && IsBlank(directive) ==> r == Err("directive is required")
    ensures threadId > 0 && !IsBlank(directive) && lookup.Err? ==> r == Err(lookup.msg)
    ensures threadId > 0 && !IsBlank(directive) && lookup.Ok? && lookup.value.parent.None? ==>
              r == Err("thread is not a child thread: " + IntToString(threadId))
    ensures threadId > 0 && !IsBlank(directive) && lookup.Ok? && lookup.value.parent.Some? && PaneOf(lookup.value) == "" ==>
              r == Err("thread has no tmux pane bound: " + IntToString(threadId))
    ensures r.Ok? <==>
              threadId > 0 && !IsBlank(directive) && lookup.Ok? && lookup.value.parent.Some? && PaneOf(lookup.value) != ""
    ensures r.Ok? && ReportedMode(mode) == "queue" ==>
              r.value == DirectiveSent("queue", TrimSpace(directive), [SendKeys(PaneOf(lookup.value), TrimSpace(directive))], false)
    ensures r.Ok? && ReportedMode(mode) == "interrupt_patch" ==>
              r.value == DirectiveSent("interrupt_patch", TrimSpace(directive),
                                       [SendKeysRaw(PaneOf(lookup.value), "C-c"), SendKeys(PaneOf(lookup.value), TrimSpace(directive))], true)
    ensures r.Ok? && ReportedMode(mode) == "restart" ==>
              && r.value.Respawned? && r.value.mode == "restart" && r.value.stopThread == threadId
              && r.value.respawn.sessionId == lookup.value.sessionId && r.value.respawn.parent == lookup.value.parent
              && r.value.respawn.initialPrompt == TrimSpace(directive) && r.value.respawn.launchCodex
              && r.value.respawn.role == lookup.value.role && r.value.respawn.guidePath == TrimOrEmpty(lookup.value.guidePath)
  {
    TrimSpaceBlank(directive);
    if threadId <= 0 then Err("thread_id is required")
    else if TrimSpace(directive) == "" then Err("directive is required")
    else if lookup.Err? then Err(lookup.msg)
    else
      var t := lookup.value;
      var d := TrimSpace(directive);
      if t.parent.None? then Err("thread is not a child thread: " + IntToString(threadId))
      else if t.tmuxPane.None? || TrimSpace(t.tmuxPane.value) == "" then Err("thread has no tmux pane bound: " + IntToString(threadId))
      else
        var pane := TrimSpace(t.tmuxPane.value);
        var m := ReportedMode(mode);
        if m == "queue" then Ok(DirectiveSent(m, d, [SendKeys(pane, d)], false))
        else if m == "restart" then
          Ok(Respawned(m, threadId, RespawnRequest(
            t.sessionId, t.parent, t.worktreeId, t.role, TrimOrEmpty(t.title), TrimOrEmpty(t.objective),
            TrimOrEmpty(t.guidePath), d, true)))
        else Ok(DirectiveSent(m, d, [SendKeysRaw(pane, "C-c"), SendKeys(pane, d)], true))
  }

  /** `strings.TrimSpace(valueOrEmpty(v))`. */
  function TrimOrEmpty(v: Option<string>): string {
    if v.Some? then TrimSpace(v.value) else ""
  }

  /** Any mode other than `queue` and `restart` acts as the default,
    * `interrupt_patch`. */
  lemma UnknownModeInterrupts(threadId: int, directive: string, mode: string, lookup: Result<Thread>)
    requires Canon(mode) != "queue" && Canon(mode) != "restart"
    ensures DirectiveChildThread(threadId, directive, mode, lookup) == DirectiveChildThread(threadId, directive, "", lookup)
  {
    assert Canon("") == "";
  }

  /** A restarted child keeps its agent guide: the respawn passes the
    * thread's guide back as the override. */
  lemma RestartKeepsGuide(threadId: int, directive: string, mode: string, lookup: Result<Thread>)
    requires DirectiveChildThread(threadId, directive, mode, lookup).Ok?
    requires ReportedMode(mode) == "restart"
    requires lookup.Ok? && lookup.value.guidePath.Some? && !IsBlank(lookup.value.guidePath.value)
    ensures var req := DirectiveChildThread(threadId, directive, mode, lookup).value.respawn;
            ResolveAgentGuidePathForRole(TrimOrDefault(req.role, "worker"), req.guidePath)
            == TrimSpace(lookup.value.guidePath.value)
  {
    var req := DirectiveChildThread(threadId, directive, mode, lookup).value.respawn;
    OverrideKept(TrimOrDefault(req.role, "worker"), lookup.value.guidePath.value);
  }
}
