# codex-orchestrator, modelled in Dafny

`codex-orchestrator` is an MCP server. It lets one coding agent run a team of
others, each in its own tmux pane and usually in its own git worktree. It
speaks JSON-RPC 2.0 on standard input and output, and keeps its state in a
SQLite store: sessions, worktrees, tasks and cases, path-scoped advisory
locks, the main-merge queue and lock, threads and review jobs, the planning
graph, the inbox, and the `db_version`/`md_version` counters of the Markdown
mirror. Each pane runs a small Python launcher that publishes the thread's
identity in the environment and then execs the `codex` CLI.

This project models the core of that system and proves what it promises:

- **The state store** (`store_schema.dfy`, `core_store.dfy`,
  `session_store.dfy`, `thread_store.dfy`, `planning_store.dfy`,
  `inbox_store.dfy`). The store is one `Store` object. Each table is a
  field: a map from autoincrement id to record. Each store operation is one
  method, and each method is one transaction. A failing call leaves every
  table as it was. A succeeding call writes exactly the rows its contract
  names and bumps `db_version` by one. The invariants the store's code keeps
  are proved preserved:
  - active locks never conflict;
  - a session has at most one active current ref;
  - checklist keys `(node, order, facet)` are unique;
  - step order numbers within a task are distinct;
  - thread and review-job timestamps are written at most once.
- **Path rules** (`scope_paths.dfy`): Go's lexical `filepath.Clean`, `Join`
  and `Base` on a Unix host, scope-path normalisation, whole-element prefix
  matching, and the lock conflict rule.
- **The orchestrator service** (`service.dfy`, `session_flow.dfy`,
  `delegation_flow.dfy`, `planning_flow.dfy`, `thread_runtime.dfy`,
  `worktree_naming.dfy`). This covers:
  - the worktree-or-shared score and the worktree path rules;
  - the bounded 64-attempt search for a free worktree;
  - the delegation gate and the handoff acknowledgement;
  - the planning flows;
  - slugs and tmux names;
  - POSIX shell quoting and the launch commands typed into panes;
  - agent-guide selection and attach information;
  - the child-pane limit with recycling;
  - post-spawn status and directive delivery.
- **The MCP face** (`transport.dfy`, `mcp_server.dfy`):
  - the reader that accepts both JSON lines and `Content-Length` framing
    (the Base Protocol of the Language Server Protocol);
  - the writer that answers in the request's format, with the round trip
    between the two;
  - JSON-RPC 2.0 dispatch, with notifications as in section 4.1 and error
    codes as in section 5.1 of the JSON-RPC 2.0 specification;
  - the nine `orch_*` tool groups and their method index.
- **Providers** (`terminal.dfy`, `codex_provider.dfy`, `claude_provider.dfy`,
  `provider_manager.dfy`):
  - removal of SGR control sequences (section 8.3.117 of ECMA-48);
  - the status decisions and last-answer extraction for the Codex and
    Claude Code CLIs;
  - the thread → provider registry.
- **The pane runner** (`pane_runner.dfy`, with `shell.dfy`): its options,
  banner, environment, and the `codex --no-alt-screen` fallback that both
  outcomes of the agents-SDK probe reach.

Dafny does not see git, tmux, the file system, JSON encoding or the clock.
The model passes them in as parameters instead:

- git and tmux answers are function-typed arguments such as `gitAdd`,
  `taken`, `gitMerge`, `paneExists`, `ensureRoot` and `writeMirror`;
- the JSON encoder is `encode`, and request decoding is a `Codec` argument;
- the time is an integer `now`.

Effects on tmux and on the thread table are returned as lists of actions,
not performed.

When `os.execvp` fails it raises `OSError` instead of returning, so the
`return 127` at `scripts/agents_codex_runner.py:65` is never reached
(`PaneRunner.Runner.ExecCodexFallback`).

## Model

Each row names a member whose contract states the property, the source lines it models, and what the contract says. Paths are relative to the repository root.

| member | source | states |
|---|---|---|
| Transport.ReadLine | features/codex-collab-orchestrator/components/mcp/servers/codex-orchestrator/cmd/codex-orchestrator/main.go:281-287 | `ReadString('\n')`: no line exactly when no newline is left; otherwise the input is the line (ending in its only newline) followed by the rest |
| Transport.TrimRightCrLf | features/codex-collab-orchestrator/components/mcp/servers/codex-orchestrator/cmd/codex-orchestrator/main.go:289 | the result is a prefix of the line that does not end in `\r` or `\n`, and everything cut off is `\r` or `\n` |
| Transport.Atoi | features/codex-collab-orchestrator/components/mcp/servers/codex-orchestrator/cmd/codex-orchestrator/main.go:305-306 | `strconv.Atoi`: accepts only an optional sign and decimal digits, within the 64-bit range; a leading `-` gives a value of at most 0 |
| Transport.AtoiOfNatToString | features/codex-collab-orchestrator/components/mcp/servers/codex-orchestrator/cmd/codex-orchestrator/main.go:305-306 | any length up to the 64-bit maximum, written in decimal, reads back as itself |
| Transport.TakeBody | features/codex-collab-orchestrator/components/mcp/servers/codex-orchestrator/cmd/codex-orchestrator/main.go:322-325 | `io.ReadFull`: a payload exactly when `n` bytes remain, and then it is exactly those bytes; otherwise `io.EOF` when nothing remained, `io.ErrUnexpectedEOF` when some did, and the input is drained |
| Transport.Classify | features/codex-collab-orchestrator/components/mcp/servers/codex-orchestrator/cmd/codex-orchestrator/main.go:290-302 | a trimmed line is JSON exactly when it starts with `{` or `[`, and a header exactly when it is not JSON and its lower-cased text starts with `content-length:` |
| Transport.FramedBody | features/codex-collab-orchestrator/components/mcp/servers/codex-orchestrator/cmd/codex-orchestrator/main.go:304-327 | after a header: a framed payload or an error, never consuming more than was there; only the invalid-length error leaves input unread |
| Transport.Next | features/codex-collab-orchestrator/components/mcp/servers/codex-orchestrator/cmd/codex-orchestrator/main.go:279-328 | one `ReadPayload`: a JSON-line payload starts with `{` or `[` and is already trimmed; a reader error drains the input |
| Transport.FramedReader.ReadString | features/codex-collab-orchestrator/components/mcp/servers/codex-orchestrator/cmd/codex-orchestrator/main.go:281 | reading a line removes exactly the line from the input, or all of it when no newline is left |
| Transport.FramedReader.SkipHeaderLines | features/codex-collab-orchestrator/components/mcp/servers/codex-orchestrator/cmd/codex-orchestrator/main.go:312-320 | the header loop succeeds exactly when a blank line arrives, and leaves the input just after it |
| Transport.FramedReader.ReadFull | features/codex-collab-orchestrator/components/mcp/servers/codex-orchestrator/cmd/codex-orchestrator/main.go:322-325 | the read and the remaining input are those of `TakeBody` |
| Transport.FramedReader.ReadPayload | features/codex-collab-orchestrator/components/mcp/servers/codex-orchestrator/cmd/codex-orchestrator/main.go:279-328 | the imperative reader returns what `Next` specifies and leaves the input `Next` leaves |
| Transport.FramedWriter.WritePayload | features/codex-collab-orchestrator/components/mcp/servers/codex-orchestrator/cmd/codex-orchestrator/main.go:330-348 | appends to the output the `Content-Length` header, the blank line and the payload for a framed payload, the payload and one newline otherwise |
| Transport.ClassifyHeader | features/codex-collab-orchestrator/components/mcp/servers/codex-orchestrator/cmd/codex-orchestrator/main.go:296-302 | the header the writer produces is classified as a `Content-Length` header carrying its number |
| Transport.HeaderStep | features/codex-collab-orchestrator/components/mcp/servers/codex-orchestrator/cmd/codex-orchestrator/main.go:280-303 | on the header line the writer produces, the reader goes on to read the framed body with that number |
| Transport.NextOnHeader | features/codex-collab-orchestrator/components/mcp/servers/codex-orchestrator/cmd/codex-orchestrator/main.go:299-327 | a header line hands over to the framed-body reading |
| Transport.NextOnJson | features/codex-collab-orchestrator/components/mcp/servers/codex-orchestrator/cmd/codex-orchestrator/main.go:295-297 | a JSON line is returned trimmed, and reading resumes after it |
| Transport.BlankLineEndsHeaders | features/codex-collab-orchestrator/components/mcp/servers/codex-orchestrator/cmd/codex-orchestrator/main.go:312-320 | the blank line after the header ends the header lines |
| Transport.FramedBodyOf | features/codex-collab-orchestrator/components/mcp/servers/codex-orchestrator/cmd/codex-orchestrator/main.go:322-326 | a body of the announced length is returned whole and reading resumes right after it |
| Transport.FramedBodyCut | features/codex-collab-orchestrator/components/mcp/servers/codex-orchestrator/cmd/codex-orchestrator/main.go:322-325 | a body shorter than announced gives `io.EOF` when empty and `io.ErrUnexpectedEOF` otherwise |
| Transport.FramedRoundTrip | features/codex-collab-orchestrator/components/mcp/servers/codex-orchestrator/cmd/codex-orchestrator/main.go:279-348 | a framed payload written by `WritePayload` reads back as itself, framed, and reading resumes after it |
| Transport.TruncatedBody | features/codex-collab-orchestrator/components/mcp/servers/codex-orchestrator/cmd/codex-orchestrator/main.go:322-325 | a framed payload cut short anywhere in its body is an error, never a payload |
| Transport.JsonLineRead | features/codex-collab-orchestrator/components/mcp/servers/codex-orchestrator/cmd/codex-orchestrator/main.go:281-297 | a single-line JSON payload plus its newline is read as one line that trims to the payload |
| Transport.JsonLineRoundTrip | features/codex-collab-orchestrator/components/mcp/servers/codex-orchestrator/cmd/codex-orchestrator/main.go:279-348 | a JSON-line payload written by `WritePayload` reads back as itself |
| Transport.WrittenReadsBack | features/codex-collab-orchestrator/components/mcp/servers/codex-orchestrator/cmd/codex-orchestrator/main.go:279-348 | whatever the writer writes in either format, the reader reads back in the same format |
| Transport.OtherLineSkipped | features/codex-collab-orchestrator/components/mcp/servers/codex-orchestrator/cmd/codex-orchestrator/main.go:290-302 | blank lines and lines that are neither JSON nor a `Content-Length` header are skipped as if absent |
| Transport.UnterminatedLineIsEnd | features/codex-collab-orchestrator/components/mcp/servers/codex-orchestrator/cmd/codex-orchestrator/main.go:281-287 | text after the last newline is never a payload: the reader reports the end of input |
| McpServer.MethodSet | features/codex-collab-orchestrator/components/mcp/servers/codex-orchestrator/cmd/codex-orchestrator/main.go:80-85 | the set holds exactly the listed methods |
| McpServer.IndexOf | features/codex-collab-orchestrator/components/mcp/servers/codex-orchestrator/cmd/codex-orchestrator/main.go:78-87 | the index has a key for exactly the group names |
| McpServer.BuildMethodIndex | features/codex-collab-orchestrator/components/mcp/servers/codex-orchestrator/cmd/codex-orchestrator/main.go:78-87 | the `init` loops build exactly `IndexOf(toolGroups)` |
| McpServer.IndexHoldsEachGroup | features/codex-collab-orchestrator/components/mcp/servers/codex-orchestrator/cmd/codex-orchestrator/main.go:78-87 | with distinct names, the index maps each group's name to exactly its methods |
| McpServer.OwnerOfListedMethod | features/codex-collab-orchestrator/components/mcp/servers/codex-orchestrator/cmd/codex-orchestrator/main.go:27-76 | every listed method is listed under the one group its first letters name |
| McpServer.NoMethodInTwoGroups | features/codex-collab-orchestrator/components/mcp/servers/codex-orchestrator/cmd/codex-orchestrator/main.go:27-76 | no method appears in two tool groups, so each method routes to one tool |
| McpServer.ToolNamesDistinct | features/codex-collab-orchestrator/components/mcp/servers/codex-orchestrator/cmd/codex-orchestrator/main.go:27-76 | the nine tool names are distinct |
| McpServer.MethodIndexIsGroups | features/codex-collab-orchestrator/components/mcp/servers/codex-orchestrator/cmd/codex-orchestrator/main.go:78-87 | `toolGroupMethodIndex` admits, for each tool, exactly the methods its group lists |
| McpServer.ToolGroupSizes | features/codex-collab-orchestrator/components/mcp/servers/codex-orchestrator/cmd/codex-orchestrator/main.go:27-76 | nine tools with 7, 9, 5, 8, 8, 2, 9, 4 and 11 methods |
| McpServer.HandleGroupToolCall | features/codex-collab-orchestrator/components/mcp/servers/codex-orchestrator/cmd/codex-orchestrator/main.go:473-499 | undecodable arguments and a blank method are errors; a method the tool does not admit is an error result naming both; a success comes from the service called with the trimmed method and `{}` for empty params |
| McpServer.HandleToolCall | features/codex-collab-orchestrator/components/mcp/servers/codex-orchestrator/cmd/codex-orchestrator/main.go:422-436 | blank params are an error; an unknown tool name is an error result; a known tool is dispatched to its group |
| McpServer.HandlePayload | features/codex-collab-orchestrator/components/mcp/servers/codex-orchestrator/cmd/codex-orchestrator/main.go:350-420 | undecodable input gives -32700 with a null id; a blank method gives -32600; no reply exactly for a notification; an unknown method gives -32601; a `tools/call` fails with -32000 exactly when the tool call errs; the reply carries the request's id; a request with an id gets the initialize result, `{}` for `ping`, the nine tools for `tools/list`, and the tool's text for a `tools/call` that succeeds |
| ProviderManager.Name | features/codex-collab-orchestrator/components/mcp/servers/codex-orchestrator/internal/provider/manager.go:53-62 | a provider's name is `codex` or `claude_code` |
| ProviderManager.ExitCommand | features/codex-collab-orchestrator/components/mcp/servers/codex-orchestrator/internal/provider/codex.go:31 | both CLIs exit with `/exit` |
| ProviderManager.IdlePatternForLog | features/codex-collab-orchestrator/components/mcp/servers/codex-orchestrator/internal/provider/codex.go:27-29 | the idle pattern is never empty |
| ProviderManager.ExtractLastResponse | features/codex-collab-orchestrator/components/mcp/servers/codex-orchestrator/internal/provider/codex.go:70-97 | dispatches to the Codex or Claude Code extraction, each as its own module specifies it |
| ProviderManager.NewByType | features/codex-collab-orchestrator/components/mcp/servers/codex-orchestrator/internal/provider/manager.go:53-62 | a provider exactly for `codex` and `claude_code`, whose name is the type; otherwise `unknown provider type: <type>` |
| ProviderManager.NewByTypeOfName | features/codex-collab-orchestrator/components/mcp/servers/codex-orchestrator/internal/provider/manager.go:53-62 | a provider's name creates the same provider again |
| ProviderManager.Manager.constructor | features/codex-collab-orchestrator/components/mcp/servers/codex-orchestrator/internal/provider/manager.go:14-18 | a new manager binds no thread |
| ProviderManager.Manager.Register | features/codex-collab-orchestrator/components/mcp/servers/codex-orchestrator/internal/provider/manager.go:21-25 | binds the provider to the thread and changes no other binding |
| ProviderManager.Manager.Get | features/codex-collab-orchestrator/components/mcp/servers/codex-orchestrator/internal/provider/manager.go:28-33 | the thread's provider exactly when it has a binding |
| ProviderManager.Manager.Remove | features/codex-collab-orchestrator/components/mcp/servers/codex-orchestrator/internal/provider/manager.go:36-40 | drops the thread's binding and leaves every other binding as it was |
| ProviderManager.Manager.Create | features/codex-collab-orchestrator/components/mcp/servers/codex-orchestrator/internal/provider/manager.go:43-50 | returns `NewByType`'s answer; on success binds it to the thread, on error changes nothing |
| Terminal.StatusText | features/codex-collab-orchestrator/components/mcp/servers/codex-orchestrator/internal/provider/provider.go:5-11 | every status has a non-empty wire name |
| Terminal.Re2SpaceRun | features/codex-collab-orchestrator/components/mcp/servers/codex-orchestrator/internal/provider/codex.go:11 | a greedy `\s*`: the run is all `\s` and stops at the first other character |
| Terminal.Lines | features/codex-collab-orchestrator/components/mcp/servers/codex-orchestrator/internal/provider/codex.go:72 | `strings.Split(s, "\n")`: at least one piece, none holding a newline |
| Terminal.SgrLength | features/codex-collab-orchestrator/components/mcp/servers/codex-orchestrator/internal/provider/codex.go:9 | the match of `\x1b\[[0-9;]*m` at the start of the text: escape, `[`, parameters only, `m`; and no such sequence is missed when the text starts with `ESC [` and has an `m` after parameters |
| Terminal.StripSgr | features/codex-collab-orchestrator/components/mcp/servers/codex-orchestrator/internal/provider/codex.go:34 | `ansiPattern.ReplaceAllString(s, "")`: never longer than the input, unchanged for text without escape characters, and with no escape character (so no SGR sequence) left when every escape the scan meets opens a colour or style code |
| Terminal.EveryEscapeOpensSgr | features/codex-collab-orchestrator/components/mcp/servers/codex-orchestrator/internal/provider/codex.go:9 | when every escape character of the text, wherever it stands, opens a complete `\x1b\[[0-9;]*m` sequence, the scan meets no other escape, so stripping leaves none |
| Terminal.StripSgrSinglePass | features/codex-collab-orchestrator/components/mcp/servers/codex-orchestrator/internal/provider/codex.go:34 | the replacement is one left-to-right pass: a sequence formed by a removal stays |
| CodexProvider.IsUserLine | features/codex-collab-orchestrator/components/mcp/servers/codex-orchestrator/internal/provider/codex.go:12 | `^You\b`: the line starts with `You` and then no word character |
| CodexProvider.LabelLength | features/codex-collab-orchestrator/components/mcp/servers/codex-orchestrator/internal/provider/codex.go:82 | the length of the `(assistant|codex|agent)\s*:` label a single trimmed line starts with, ending in `:`, or 0, as the extraction walk applies the pattern to one line |
| CodexProvider.AssistantLineIsLabel | features/codex-collab-orchestrator/components/mcp/servers/codex-orchestrator/internal/provider/codex.go:47 | a label complete on one line is also a match of `(?m)^(assistant|codex|agent)\s*:` on the whole text |
| CodexProvider.CrossLineLabelNoLine | features/codex-collab-orchestrator/components/mcp/servers/codex-orchestrator/internal/provider/codex.go:82 | in the pane `You: go`, `assistant`, `: done`, `›` no single line holds a whole label |
| CodexProvider.CrossLineLabelScreen | features/codex-collab-orchestrator/components/mcp/servers/codex-orchestrator/internal/provider/codex.go:37-48 | on that pane the `\s*` of the label runs across the line end, so the last user turn counts as answered and the text ends in an idle prompt |
| CodexProvider.LabelAcrossLinesCompleted | features/codex-collab-orchestrator/components/mcp/servers/codex-orchestrator/internal/provider/codex.go:33-67 | GetStatus reports that pane as completed, although no line of it holds a label |
| CodexProvider.IsApprovalLine | features/codex-collab-orchestrator/components/mcp/servers/codex-orchestrator/internal/provider/codex.go:15 | `^(Approve|Allow)\b…\b(y/n|yes/no|yes|no)\b` on one line |
| CodexProvider.MarkerLength | features/codex-collab-orchestrator/components/mcp/servers/codex-orchestrator/internal/provider/codex.go:10 | the length of the `❯`, `›` or `codex>` marker the text starts with, or 0 |
| CodexProvider.RemoveMarkers | features/codex-collab-orchestrator/components/mcp/servers/codex-orchestrator/internal/provider/codex.go:79 | removing markers never lengthens the text, and shortens any text that has one |
| CodexProvider.NoMarkerCharacters | features/codex-collab-orchestrator/components/mcp/servers/codex-orchestrator/internal/provider/codex.go:10 | text without marker characters has no marker |
| CodexProvider.LastUserLine | features/codex-collab-orchestrator/components/mcp/servers/codex-orchestrator/internal/provider/codex.go:37-41 | the last line matching `^You\b`: it matches and no later line does; none when no line does |
| CodexProvider.Decide | features/codex-collab-orchestrator/components/mcp/servers/codex-orchestrator/internal/provider/codex.go:43-67 | the decision order: waiting exactly after an unanswered user turn with an approval question; error likewise with an error line and no question; completed exactly with an idle prompt at the end and an answered user turn; idle and processing in the remaining cases |
| CodexProvider.TrimLines | features/codex-collab-orchestrator/components/mcp/servers/codex-orchestrator/internal/provider/codex.go:78 | every line trimmed, count preserved |
| CodexProvider.LastTurn | features/codex-collab-orchestrator/components/mcp/servers/codex-orchestrator/internal/provider/codex.go:77-89 | the last line where the backward walk stops: it is a turn line and no later line is |
| CodexProvider.Kept | features/codex-collab-orchestrator/components/mcp/servers/codex-orchestrator/internal/provider/codex.go:79-81 | the lines the walk does not pass over, none of which it would pass over |
| CodexProvider.DropTrailingEmpty | features/codex-collab-orchestrator/components/mcp/servers/codex-orchestrator/internal/provider/codex.go:90 | a prefix of the lines not ending in an empty line |
| CodexProvider.BodyStep | features/codex-collab-orchestrator/components/mcp/servers/codex-orchestrator/internal/provider/codex.go:77-94 | one step of the walk on a line that is not a turn line |
| CodexProvider.TurnStep | features/codex-collab-orchestrator/components/mcp/servers/codex-orchestrator/internal/provider/codex.go:82-89 | the walk stops at a turn line and keeps the rest of an assistant line |
| CodexProvider.CollectShape | features/codex-collab-orchestrator/components/mcp/servers/codex-orchestrator/internal/provider/codex.go:77-94 | the walk over any collected prefix equals the described response |
| CodexProvider.CollectIsResponse | features/codex-collab-orchestrator/components/mcp/servers/codex-orchestrator/internal/provider/codex.go:77-94 | the backward walk returns exactly the assistant line's rest followed by the following kept lines, without trailing empty lines |
| CodexProvider.ExtractLastResponse | features/codex-collab-orchestrator/components/mcp/servers/codex-orchestrator/internal/provider/codex.go:70-97 | the loop computes the trimmed, joined response described by `Response`, passing over lines that hold only an idle prompt |
| CodexProvider.PromptSkipAsWrittenNeverHolds | features/codex-collab-orchestrator/components/mcp/servers/codex-orchestrator/internal/provider/codex.go:79-81 | the skip test as written (marker present and line equal to its trimmed, marker-free form) holds for no line |
| CodexProvider.AsWrittenKeepsAll | features/codex-collab-orchestrator/components/mcp/servers/codex-orchestrator/internal/provider/codex.go:79-81 | so the walk as written passes over no line at all |
| CodexProvider.PromptLineKeptAsWritten | features/codex-collab-orchestrator/components/mcp/servers/codex-orchestrator/internal/provider/codex.go:79-94 | as written, a prompt-only line after the answer ends up in the response |
| CodexProvider.PromptLineSkipped | features/codex-collab-orchestrator/components/mcp/servers/codex-orchestrator/internal/provider/codex.go:79-94 | with prompt-only lines passed over, the response is the answer alone |
| CodexProvider.PromptLineExample | features/codex-collab-orchestrator/components/mcp/servers/codex-orchestrator/internal/provider/codex.go:10-13 | `assistant: done` followed by `›` is such a pair |
| CodexProvider.ResponseBodyHasNoPromptLine | features/codex-collab-orchestrator/components/mcp/servers/codex-orchestrator/internal/provider/codex.go:79-81 | with prompt-only lines passed over, no line of the response body is one |
| ClaudeProvider.SgrRun | features/codex-collab-orchestrator/components/mcp/servers/codex-orchestrator/internal/provider/claude_code.go:9 | the length of the colour-code run a text starts with, never longer than the text |
| ClaudeProvider.SgrRunIsSequences | features/codex-collab-orchestrator/components/mcp/servers/codex-orchestrator/internal/provider/claude_code.go:9 | that run splits into consecutive complete `\x1b\[[0-9;]*m` sequences |
| ClaudeProvider.SgrRunIsMaximal | features/codex-collab-orchestrator/components/mcp/servers/codex-orchestrator/internal/provider/claude_code.go:9 | no further `\x1b\[[0-9;]*m` sequence follows the run, as with the greedy `(?:…)*` |
| ClaudeProvider.MarkerLength | features/codex-collab-orchestrator/components/mcp/servers/codex-orchestrator/internal/provider/claude_code.go:9 | the length of `⏺(?:\x1b\[[0-9;]*m)*\s+` at the start of the text, or 0; a marker starts with `⏺` and holds white space |
| ClaudeProvider.LastMatchBefore | features/codex-collab-orchestrator/components/mcp/servers/codex-orchestrator/internal/provider/claude_code.go:53-58 | the last position before `n` where a match starts; no match starts after it |
| ClaudeProvider.LastMarker | features/codex-collab-orchestrator/components/mcp/servers/codex-orchestrator/internal/provider/claude_code.go:53-58 | where the last response marker starts; no marker starts after it |
| ClaudeProvider.Decide | features/codex-collab-orchestrator/components/mcp/servers/codex-orchestrator/internal/provider/claude_code.go:30-50 | the priority chain, each status as an if-and-only-if: processing, then waiting on a numbered choice, then completed (prompt and marker) or idle (prompt only), error without a prompt |
| ClaudeProvider.CompletedShowsPromptAndMarker | features/codex-collab-orchestrator/components/mcp/servers/codex-orchestrator/internal/provider/claude_code.go:39-44 | a completed pane shows both the input prompt and a response marker |
| ClaudeProvider.UntilStop | features/codex-collab-orchestrator/components/mcp/servers/codex-orchestrator/internal/provider/claude_code.go:62-69 | never more lines than the input |
| ClaudeProvider.UntilStopIsLongestPrefix | features/codex-collab-orchestrator/components/mcp/servers/codex-orchestrator/internal/provider/claude_code.go:62-69 | the collected lines are the trimmed lines in order, none a stop line, and the walk ends at the end or at a stop line |
| ClaudeProvider.TakeUntilStop | features/codex-collab-orchestrator/components/mcp/servers/codex-orchestrator/internal/provider/claude_code.go:62-69 | the forward loop collects exactly `UntilStop` |
| ClaudeProvider.ExtractLastResponse | features/codex-collab-orchestrator/components/mcp/servers/codex-orchestrator/internal/provider/claude_code.go:52-73 | empty without a marker; otherwise the lines after the last marker up to the first stop line, trimmed, joined, trimmed and stripped of colour codes |
| Text.TrimSpace | features/codex-collab-orchestrator/components/mcp/servers/codex-orchestrator/cmd/codex-orchestrator/main.go:290 | `strings.TrimSpace`: an infix of the input that neither starts nor ends with white space |
| Text.TrimSpaceIdempotent | features/codex-collab-orchestrator/components/mcp/servers/codex-orchestrator/cmd/codex-orchestrator/main.go:290 | trimming twice is trimming once |
| Text.TrimOrDefault | features/codex-collab-orchestrator/components/mcp/servers/codex-orchestrator/internal/orchestrator/thread_runtime_flow.go:551-566 | blank input gives the default, anything else is trimmed |
| Text.Canon | features/codex-collab-orchestrator/components/mcp/servers/codex-orchestrator/internal/orchestrator/thread_runtime_flow.go:1326 | `strings.ToLower(strings.TrimSpace(s))`: lower-case, with no surrounding white space |
| Text.CanonIdempotent | features/codex-collab-orchestrator/components/mcp/servers/codex-orchestrator/internal/orchestrator/thread_runtime_flow.go:1044 | canonicalising twice changes nothing, so canonical keywords compare stably |
| Text.NatToString | features/codex-collab-orchestrator/components/mcp/servers/codex-orchestrator/cmd/codex-orchestrator/main.go:332 | `%d`: only digits, never empty |
| Text.NatToStringInjective | features/codex-collab-orchestrator/components/mcp/servers/codex-orchestrator/cmd/codex-orchestrator/main.go:332 | distinct numbers print differently |
| Text.DigitsValueOfNatToString | features/codex-collab-orchestrator/components/mcp/servers/codex-orchestrator/cmd/codex-orchestrator/main.go:305 | a number's decimal digits read back as the number |
| Text.SplitJoin | features/codex-collab-orchestrator/components/mcp/servers/codex-orchestrator/internal/provider/codex.go:72-96 | splitting undoes joining when no piece holds the separator |
| Shell.EscapeSingleQuotes | features/codex-collab-orchestrator/components/mcp/servers/codex-orchestrator/internal/orchestrator/thread_runtime_flow.go:1360 | escaping never shortens the text and leaves quote-free text alone |
| Shell.ShellQuote | features/codex-collab-orchestrator/components/mcp/servers/codex-orchestrator/internal/orchestrator/thread_runtime_flow.go:1356-1361 | the word is wrapped in single quotes; blank text gives `''` |
| Shell.ShlexQuote | features/codex-collab-orchestrator/components/mcp/servers/codex-orchestrator/scripts/agents_codex_runner.py:61 | `shlex.quote`: never empty, and safe text is left as it is |
| Shell.ShellQuoteReadsBack | features/codex-collab-orchestrator/components/mcp/servers/codex-orchestrator/internal/orchestrator/thread_runtime_flow.go:1356-1361 | a POSIX shell reads `shellQuote(v)` back as exactly `v`, or as empty text for blank `v` |
| Shell.ShlexQuoteReadsBack | features/codex-collab-orchestrator/components/mcp/servers/codex-orchestrator/scripts/agents_codex_runner.py:61 | a POSIX shell reads `shlex.quote(s)` back as exactly `s` |
| Shell.ReadEscaped | features/codex-collab-orchestrator/components/mcp/servers/codex-orchestrator/internal/orchestrator/thread_runtime_flow.go:1360 | inside single quotes, the escaped text and the closing quote read back as the text |
| Shell.ReadSafe | features/codex-collab-orchestrator/components/mcp/servers/codex-orchestrator/scripts/agents_codex_runner.py:61 | safe characters read as themselves outside quotes |
| PaneRunner.ParseInt | features/codex-collab-orchestrator/components/mcp/servers/codex-orchestrator/scripts/agents_codex_runner.py:34-35 | Python `int()` on an option: succeeds exactly on an optional sign and at least one digit |
| PaneRunner.ParseIntOfIntToString | features/codex-collab-orchestrator/components/mcp/servers/codex-orchestrator/scripts/agents_codex_runner.py:34-35 | what `str()` writes for any integer, `int()` reads back |
| PaneRunner.OptionOr | features/codex-collab-orchestrator/components/mcp/servers/codex-orchestrator/scripts/agents_codex_runner.py:33-37 | an option's value when given, its default otherwise |
| PaneRunner.MissingRequired | features/codex-collab-orchestrator/components/mcp/servers/codex-orchestrator/scripts/agents_codex_runner.py:34-36 | exactly the required options that were not given |
| PaneRunner.ParseArgs | features/codex-collab-orchestrator/components/mcp/servers/codex-orchestrator/scripts/agents_codex_runner.py:31-45 | success exactly when the three required options are given and both ids read as integers; `--mode` defaults to `child` and `--initial-prompt` to empty; a bad `--session-id` is reported with argparse's message |
| PaneRunner.PyStrip | features/codex-collab-orchestrator/components/mcp/servers/codex-orchestrator/scripts/agents_codex_runner.py:58 | `str.strip()`: no white space left at either end, never longer, empty for all-white text |
| PaneRunner.FallbackCommand | features/codex-collab-orchestrator/components/mcp/servers/codex-orchestrator/scripts/agents_codex_runner.py:56-59 | `codex --no-alt-screen`, plus the stripped prompt as a third argument exactly when it is not blank |
| PaneRunner.QuoteAll | features/codex-collab-orchestrator/components/mcp/servers/codex-orchestrator/scripts/agents_codex_runner.py:61 | each word `shlex.quote`d, count preserved |
| PaneRunner.FallbackLogReadsBack | features/codex-collab-orchestrator/components/mcp/servers/codex-orchestrator/scripts/agents_codex_runner.py:60-64 | each word of the logged command reads back in a shell as the argument that is executed |
| PaneRunner.Runner.constructor | features/codex-collab-orchestrator/components/mcp/servers/codex-orchestrator/scripts/agents_codex_runner.py:87 | a runner starts with no output, its inherited environment and no exec |
| PaneRunner.Runner.PrintBanner | features/codex-collab-orchestrator/components/mcp/servers/codex-orchestrator/scripts/agents_codex_runner.py:48-53 | appends exactly the banner line |
| PaneRunner.Runner.ExecCodexFallback | features/codex-collab-orchestrator/components/mcp/servers/codex-orchestrator/scripts/agents_codex_runner.py:56-65 | logs the quoted command and replaces the process with `FallbackCommand`; the environment is unchanged |
| PaneRunner.Runner.TryAgentsSdk | features/codex-collab-orchestrator/components/mcp/servers/codex-orchestrator/scripts/agents_codex_runner.py:68-84 | the same exec whether or not the SDK imports; only the notice before it differs |
| PaneRunner.Runner.Launch | features/codex-collab-orchestrator/components/mcp/servers/codex-orchestrator/scripts/agents_codex_runner.py:87-97 | a parse error changes nothing; otherwise banner, then the four `COBOO_*` variables set from the parsed arguments, then the fallback exec |
| ThreadRuntime.ResolveAgentGuidePathForRole | features/codex-collab-orchestrator/components/mcp/servers/codex-orchestrator/internal/orchestrator/thread_runtime_flow.go:1039-1056 | a non-blank override wins, trimmed; otherwise the role's canonical form picks the guide |
| ThreadRuntime.GuideForRole | features/codex-collab-orchestrator/components/mcp/servers/codex-orchestrator/internal/orchestrator/thread_runtime_flow.go:1043-1055 | `session-root`, `root` and `orchestrator` get the root guide; `merge-reviewer`, `doc-mirror-manager` and `plan-architect` their own; every other role the worker guide |
| ThreadRuntime.OverrideKept | features/codex-collab-orchestrator/components/mcp/servers/codex-orchestrator/internal/orchestrator/thread_runtime_flow.go:1040-1042 | a non-blank override, trimmed or not, is the guide whatever the role |
| ThreadRuntime.GuideIgnoresRoleSpelling | features/codex-collab-orchestrator/components/mcp/servers/codex-orchestrator/internal/orchestrator/thread_runtime_flow.go:1044 | roles are matched case- and space-insensitively: a role and its canonical form pick the same guide |
| ThreadRuntime.IsChildThreadReusable | features/codex-collab-orchestrator/components/mcp/servers/codex-orchestrator/internal/orchestrator/thread_runtime_flow.go:1325-1332 | reusable exactly for completed, failed, stopped and cancelled, in any case and spacing |
| ThreadRuntime.ReusableIffTerminal | features/codex-collab-orchestrator/components/mcp/servers/codex-orchestrator/internal/orchestrator/thread_runtime_flow.go:1325-1332 | a child may be recycled exactly when the store counts its status as terminal |
| ThreadRuntime.RunningNotReusable | features/codex-collab-orchestrator/components/mcp/servers/codex-orchestrator/internal/orchestrator/thread_runtime_flow.go:1325-1332 | a running child is never recycled |
| ThreadRuntime.IsTmuxReady | features/codex-collab-orchestrator/components/mcp/servers/codex-orchestrator/internal/orchestrator/thread_runtime_flow.go:1302-1309 | ready exactly when the report's status reads `ready` or `installed` |
| ThreadRuntime.TmuxReadyIgnoresCase | features/codex-collab-orchestrator/components/mcp/servers/codex-orchestrator/internal/orchestrator/thread_runtime_flow.go:1307 | the case of the reported status does not matter |
| ThreadRuntime.SkippedTmuxNotReady | features/codex-collab-orchestrator/components/mcp/servers/codex-orchestrator/internal/orchestrator/thread_runtime_flow.go:1302-1309 | the `skipped` report of a spawn that does not ensure tmux is not ready |
| ThreadRuntime.OwnSessionName | features/codex-collab-orchestrator/components/mcp/servers/codex-orchestrator/internal/orchestrator/thread_runtime_flow.go:833-835 | the thread's own session name, trimmed, or empty when it has none |
| ThreadRuntime.AttachSessionName | features/codex-collab-orchestrator/components/mcp/servers/codex-orchestrator/internal/orchestrator/thread_runtime_flow.go:832-838 | the thread's session name is preferred to the session's; both trimmed; empty when neither is set |
| ThreadRuntime.BuildAttachInfo | features/codex-collab-orchestrator/components/mcp/servers/codex-orchestrator/internal/orchestrator/thread_runtime_flow.go:831-869 | read-only exactly for a thread with a parent; available exactly with a session name; a read-only attach command equals the `-r` command; unavailable info carries no command |
| ThreadRuntime.AttachAvailableIffNamed | features/codex-collab-orchestrator/components/mcp/servers/codex-orchestrator/internal/orchestrator/thread_runtime_flow.go:851-861 | a pane can be reached exactly when the thread or its session names a non-blank tmux session |
| ThreadRuntime.NormalizePathForThread | features/codex-collab-orchestrator/components/mcp/servers/codex-orchestrator/internal/orchestrator/thread_runtime_flow.go:1363-1372 | blank paths become empty, absolute paths are kept trimmed, relative ones are cleaned |
| ThreadRuntime.AppendShape | features/codex-collab-orchestrator/components/mcp/servers/codex-orchestrator/internal/orchestrator/thread_runtime_flow.go:930-947 | a command begins with its first part and ends with its last |
| ThreadRuntime.CodexLaunchCommand | features/codex-collab-orchestrator/components/mcp/servers/codex-orchestrator/internal/orchestrator/thread_runtime_flow.go:930-947 | starts with `cd` and the quoted work directory, and ends with the CLI command (by default `codex --no-alt-screen`) and the quoted prompt |
| ThreadRuntime.CodexTailShape | features/codex-collab-orchestrator/components/mcp/servers/codex-orchestrator/internal/orchestrator/thread_runtime_flow.go:943-946 | the quoted prompt is appended exactly when the trimmed prompt is not blank |
| ThreadRuntime.CodexPromptReadsBack | features/codex-collab-orchestrator/components/mcp/servers/codex-orchestrator/internal/orchestrator/thread_runtime_flow.go:946 | the prompt word reads back in a shell as the trimmed prompt |
| ThreadRuntime.RunnerOpts | features/codex-collab-orchestrator/components/mcp/servers/codex-orchestrator/internal/orchestrator/thread_runtime_flow.go:949-963 | the child mode, both ids, the quoted role, and `--initial-prompt` exactly when the prompt is not blank |
| ThreadRuntime.AgentsRunnerLaunchCommand | features/codex-collab-orchestrator/components/mcp/servers/codex-orchestrator/internal/orchestrator/thread_runtime_flow.go:949-963 | starts with `cd` and the quoted work directory and ends with `python3`, the quoted script and the options |
| ThreadRuntime.Unquoted | features/codex-collab-orchestrator/components/mcp/servers/codex-orchestrator/internal/orchestrator/thread_runtime_flow.go:1356-1361 | a quoted word reads back as this text |
| ThreadRuntime.ReadOptsSnoc | features/codex-collab-orchestrator/components/mcp/servers/codex-orchestrator/scripts/agents_codex_runner.py:31-38 | one more option read after the others overrides the earlier value of its flag |
| ThreadRuntime.FixedOptsRead | features/codex-collab-orchestrator/components/mcp/servers/codex-orchestrator/internal/orchestrator/thread_runtime_flow.go:949-963 | the four fixed options read back as mode, both ids in decimal and the role |
| ThreadRuntime.RunnerOptsRead | features/codex-collab-orchestrator/components/mcp/servers/codex-orchestrator/internal/orchestrator/thread_runtime_flow.go:949-963 | a shell reads the launch options back as the runner's option map |
| ThreadRuntime.ParseArgsOf | features/codex-collab-orchestrator/components/mcp/servers/codex-orchestrator/scripts/agents_codex_runner.py:31-45 | `parse_args` on options holding the given values |
| ThreadRuntime.RunnerOptionMapParses | features/codex-collab-orchestrator/components/mcp/servers/codex-orchestrator/scripts/agents_codex_runner.py:31-45 | the runner parses those options as a child of the launching session and thread |
| ThreadRuntime.RunnerCommandParsesBack | features/codex-collab-orchestrator/components/mcp/servers/codex-orchestrator/internal/orchestrator/thread_runtime_flow.go:949-963 | end to end, the runner command starts the pane runner in child mode for exactly the session, thread, role and (non-blank) prompt it was built for |
| ThreadRuntime.NormalizeWindowName | features/codex-collab-orchestrator/components/mcp/servers/codex-orchestrator/internal/orchestrator/thread_runtime_flow.go:1031-1037 | the trimmed name, or the fallback when blank |
| ThreadRuntime.ResolveSpawnSettings | features/codex-collab-orchestrator/components/mcp/servers/codex-orchestrator/internal/orchestrator/thread_runtime_flow.go:549-566 | role `worker`, runner `agents_sdk_codex_mcp`, interaction `view_only`, provider `codex`, window `children` and six children by default; a positive limit |
| ThreadRuntime.SpawnLaunchCommand | features/codex-collab-orchestrator/components/mcp/servers/codex-orchestrator/internal/orchestrator/thread_runtime_flow.go:699-711 | the caller's trimmed command when given; otherwise, when launching, the Codex command if a CLI command was given, else the runner command; otherwise none |
| ThreadRuntime.LaunchedChildHasCommand | features/codex-collab-orchestrator/components/mcp/servers/codex-orchestrator/internal/orchestrator/thread_runtime_flow.go:699-711 | a child asked to launch the CLI always gets a non-blank command |
| ThreadRuntime.IsReadyTarget | features/codex-collab-orchestrator/components/mcp/servers/codex-orchestrator/internal/orchestrator/thread_runtime_flow.go:742-745 | the targets are idle and completed |
| ThreadRuntime.ReadyCheck | features/codex-collab-orchestrator/components/mcp/servers/codex-orchestrator/internal/orchestrator/thread_runtime_flow.go:735-756 | `skipped` without a command or when asked to skip; otherwise the status reached, `timeout` or `error` |
| ThreadRuntime.PostSpawnStatus | features/codex-collab-orchestrator/components/mcp/servers/codex-orchestrator/internal/orchestrator/thread_runtime_flow.go:758-769 | `planned` exactly without a launch command; `initializing` exactly on a timed-out or failed ready check; `running` otherwise |
| ThreadRuntime.SpawnedChildRunsIffReady | features/codex-collab-orchestrator/components/mcp/servers/codex-orchestrator/internal/orchestrator/thread_runtime_flow.go:735-769 | a launched child runs exactly when its ready check was skipped or reached a target status |
| ThreadRuntime.Stops | features/codex-collab-orchestrator/components/mcp/servers/codex-orchestrator/internal/orchestrator/thread_runtime_flow.go:1006-1017 | one stop action per candidate, in order, for its pane |
| ThreadRuntime.RecyclableAreReusable | features/codex-collab-orchestrator/components/mcp/servers/codex-orchestrator/internal/orchestrator/thread_runtime_flow.go:975-1000 | only live, reusable children of the list are recycled, and never more of them than are live |
| ThreadRuntime.RecyclableInSession | features/codex-collab-orchestrator/components/mcp/servers/codex-orchestrator/internal/orchestrator/thread_runtime_flow.go:978-983 | each recycling candidate has a pane in the named tmux session |
| ThreadRuntime.RecyclableFewer | features/codex-collab-orchestrator/components/mcp/servers/codex-orchestrator/internal/orchestrator/thread_runtime_flow.go:975-1000 | there are never more candidates than live panes |
| ThreadRuntime.LimitMessage | features/codex-collab-orchestrator/components/mcp/servers/codex-orchestrator/internal/orchestrator/thread_runtime_flow.go:1024 | the error names the session and the limit |
| ThreadRuntime.ScanStep | features/codex-collab-orchestrator/components/mcp/servers/codex-orchestrator/internal/orchestrator/thread_runtime_flow.go:977-1000 | what one more child adds to the count, the candidates and the clear actions |
| ThreadRuntime.ScanChildren | features/codex-collab-orchestrator/components/mcp/servers/codex-orchestrator/internal/orchestrator/thread_runtime_flow.go:975-1000 | the first loop counts the live children in the named session, collects the reusable ones and clears children whose pane has gone |
| ThreadRuntime.RecycleUntilFree | features/codex-collab-orchestrator/components/mcp/servers/codex-orchestrator/internal/orchestrator/thread_runtime_flow.go:1002-1024 | the second loop stops candidates in list order until fewer than `max` panes are live, and fails with the limit error when they run out |
| ThreadRuntime.PlanFreed | features/codex-collab-orchestrator/components/mcp/servers/codex-orchestrator/internal/orchestrator/thread_runtime_flow.go:1018-1021 | stopping exactly enough candidates succeeds |
| ThreadRuntime.PlanExhausted | features/codex-collab-orchestrator/components/mcp/servers/codex-orchestrator/internal/orchestrator/thread_runtime_flow.go:1006-1024 | stopping every candidate without getting under the limit fails |
| ThreadRuntime.PlanFromMeetsLimit | features/codex-collab-orchestrator/components/mcp/servers/codex-orchestrator/internal/orchestrator/thread_runtime_flow.go:965-1024 | clears first, then stops a prefix of the candidates; succeeds exactly when fewer than `max` panes stay live; stops no more than needed; on failure has stopped every candidate and reports the limit |
| ThreadRuntime.EnsureChildPaneCapacity | features/codex-collab-orchestrator/components/mcp/servers/codex-orchestrator/internal/orchestrator/thread_runtime_flow.go:965-1024 | the actions and the result are those of `CapacityPlan` |
| ThreadRuntime.PlanOfScan | features/codex-collab-orchestrator/components/mcp/servers/codex-orchestrator/internal/orchestrator/thread_runtime_flow.go:965-1024 | the plan in terms of what the first loop found |
| ThreadRuntime.ReportedMode | features/codex-collab-orchestrator/components/mcp/servers/codex-orchestrator/internal/orchestrator/thread_runtime_flow.go:159-221 | `queue` and `restart` as asked in any spelling; everything else, blank included, `interrupt_patch` |
| ThreadRuntime.DirectiveChildThread | features/codex-collab-orchestrator/components/mcp/servers/codex-orchestrator/internal/orchestrator/thread_runtime_flow.go:151-233 | a non-positive id, a blank directive, a failed lookup, a thread without a parent or without a pane are errors with the source's messages; `queue` types the directive; `interrupt_patch` sends `C-c` then the directive and marks the child running; `restart` respawns with the directive as prompt and the thread's own role and guide |
| ThreadRuntime.UnknownModeInterrupts | features/codex-collab-orchestrator/components/mcp/servers/codex-orchestrator/internal/orchestrator/thread_runtime_flow.go:211-221 | any unrecognised mode acts as `interrupt_patch` |
| ThreadRuntime.RestartKeepsGuide | features/codex-collab-orchestrator/components/mcp/servers/codex-orchestrator/internal/orchestrator/thread_runtime_flow.go:185-200 | a restarted child keeps its agent guide |
| WorktreeNaming.Tokens | features/codex-collab-orchestrator/components/mcp/servers/codex-orchestrator/internal/orchestrator/worktree_naming.go:33 | `FindAllString` for `[a-z0-9]+`: every token is a non-empty run of slug characters |
| WorktreeNaming.TokensOfJoin | features/codex-collab-orchestrator/components/mcp/servers/codex-orchestrator/internal/orchestrator/worktree_naming.go:33-54 | tokenising the `-`-join of tokens gives the same tokens back |
| WorktreeNaming.JoinShape | features/codex-collab-orchestrator/components/mcp/servers/codex-orchestrator/internal/orchestrator/worktree_naming.go:54 | the join of tokens is slug text with no dash at either end, empty only without tokens |
| WorktreeNaming.NonStop | features/codex-collab-orchestrator/components/mcp/servers/codex-orchestrator/internal/orchestrator/worktree_naming.go:39-47 | the tokens that are not stopwords, in order |
| WorktreeNaming.Pick | features/codex-collab-orchestrator/components/mcp/servers/codex-orchestrator/internal/orchestrator/worktree_naming.go:38-53 | at most two tokens: the first two non-stopwords, or the first two tokens when every token is a stopword; none only without tokens |
| WorktreeNaming.PickFixed | features/codex-collab-orchestrator/components/mcp/servers/codex-orchestrator/internal/orchestrator/worktree_naming.go:38-53 | picking from picked tokens changes nothing |
| WorktreeNaming.Slug | features/codex-collab-orchestrator/components/mcp/servers/codex-orchestrator/internal/orchestrator/worktree_naming.go:32-55 | the result is `[a-z0-9]` tokens joined by `-` with no dash at either end, and empty exactly when the value has no token |
| WorktreeNaming.PickAfterScan | features/codex-collab-orchestrator/components/mcp/servers/codex-orchestrator/internal/orchestrator/worktree_naming.go:39-53 | where the scan stops, its result with the fallback is `Pick` |
| WorktreeNaming.NormalizeSlugCandidate | features/codex-collab-orchestrator/components/mcp/servers/codex-orchestrator/internal/orchestrator/worktree_naming.go:32-55 | the loop computes exactly `Slug(value)` |
| WorktreeNaming.SlugCanonical | features/codex-collab-orchestrator/components/mcp/servers/codex-orchestrator/internal/orchestrator/worktree_naming.go:33 | a slug has no white space and no upper case |
| WorktreeNaming.SlugIdempotent | features/codex-collab-orchestrator/components/mcp/servers/codex-orchestrator/internal/orchestrator/worktree_naming.go:32-55 | `normalizeSlugCandidate` is idempotent |
| WorktreeNaming.SlugOfTrimmed | features/codex-collab-orchestrator/components/mcp/servers/codex-orchestrator/internal/orchestrator/worktree_naming.go:33 | surrounding white space does not change the slug |
| WorktreeNaming.SlugOrWork | features/codex-collab-orchestrator/components/mcp/servers/codex-orchestrator/internal/orchestrator/worktree_naming.go:25-29 | the slug, or `work` when the value has no token; never empty |
| WorktreeNaming.DeriveWorktreeSlug | features/codex-collab-orchestrator/components/mcp/servers/codex-orchestrator/internal/orchestrator/worktree_naming.go:17-30 | never empty and always slug text; `work` when both values are blank; otherwise the preferred value if not blank, else the fallback, normalised or `work` |
| WorktreeNaming.SlugOrWorkFixpoint | features/codex-collab-orchestrator/components/mcp/servers/codex-orchestrator/internal/orchestrator/worktree_naming.go:25-29 | a slug or `work` normalises to itself |
| WorktreeNaming.DerivedSlugIsFixpoint | features/codex-collab-orchestrator/components/mcp/servers/codex-orchestrator/internal/orchestrator/worktree_naming.go:17-30 | a derived slug is already normalised |
| WorktreeNaming.SlugWithSuffix | features/codex-collab-orchestrator/components/mcp/servers/codex-orchestrator/internal/orchestrator/worktree_naming.go:57-66 | attempt 0 or less gives the normalised base (or `work`); attempt n > 0 gives the base, `-` and n + 1 |
| WorktreeNaming.SlugWithSuffixDistinct | features/codex-collab-orchestrator/components/mcp/servers/codex-orchestrator/internal/orchestrator/worktree_naming.go:57-66 | different attempts give different slugs, so the 64 candidates of an allocation loop are pairwise distinct |
| WorktreeNaming.FirstAttemptIsDerivedSlug | features/codex-collab-orchestrator/components/mcp/servers/codex-orchestrator/internal/orchestrator/worktree_naming.go:57-66 | attempt 0 of a derived slug is the slug itself |
| WorktreeNaming.TrimDashes | features/codex-collab-orchestrator/components/mcp/servers/codex-orchestrator/internal/orchestrator/worktree_naming.go:75 | `strings.Trim(s, "-")`: a middle part of the text without a dash at either end |
| WorktreeNaming.CutTo80 | features/codex-collab-orchestrator/components/mcp/servers/codex-orchestrator/internal/orchestrator/worktree_naming.go:74-76 | at most 80 characters; slug text and dash-free edges are kept; text of at most 80 characters is unchanged |
| WorktreeNaming.SanitizeTmuxName | features/codex-collab-orchestrator/components/mcp/servers/codex-orchestrator/internal/orchestrator/worktree_naming.go:68-78 | at most 80 characters of `[a-z0-9-]`, never starting or ending with `-`; empty exactly without tokens; the plain join when it fits |
| WorktreeNaming.DefaultPartsAreNames | features/codex-collab-orchestrator/components/mcp/servers/codex-orchestrator/internal/orchestrator/worktree_naming.go:82-88 | `repo` and `worktree` are themselves valid name parts |
| WorktreeNaming.JoinedPartsCut | features/codex-collab-orchestrator/components/mcp/servers/codex-orchestrator/internal/orchestrator/worktree_naming.go:89-92 | joining two parts with `-` and cutting keeps the first part and stays non-empty |
| WorktreeNaming.BuildViewerTmuxSessionName | features/codex-collab-orchestrator/components/mcp/servers/codex-orchestrator/internal/orchestrator/worktree_naming.go:80-97 | non-empty, at most 80 characters of `[a-z0-9-]` with no dash at either end; starts with the repository part (`repo` when it sanitises to empty) and is `<repo>-<worktree>` whenever that fits |
| StoreSchema.EmptyTable | features/codex-collab-orchestrator/components/mcp/servers/codex-orchestrator/internal/store/store.go:57-301 | a freshly created table is valid and holds no rows |
| StoreSchema.InsertFresh | features/codex-collab-orchestrator/components/mcp/servers/codex-orchestrator/internal/store/store.go:61 | an `AUTOINCREMENT` insert takes the id after the counter: it never overwrites a row, keeps every id within the counter, adds exactly that one id and leaves the other rows as they were |
| StoreSchema.InsertEachAt | features/codex-collab-orchestrator/components/mcp/servers/codex-orchestrator/internal/store/store.go:61 | inserting rows one after another in a loop gives the `i`-th one id `lastId + 1 + i`, leaves the existing rows alone and adds nothing else |
| StoreSchema.FirstId | features/codex-collab-orchestrator/components/mcp/servers/codex-orchestrator/internal/store/session_worktree.go:776-793 | `WHERE p ORDER BY id ASC LIMIT 1`: the answer is a row satisfying `p` with no satisfying row before it, and there is none exactly when no row in range satisfies `p` |
| StoreSchema.LastId | features/codex-collab-orchestrator/components/mcp/servers/codex-orchestrator/internal/store/store.go:645-664 | `WHERE p ORDER BY id DESC LIMIT 1`: the answer satisfies `p` with no satisfying row after it, and there is none exactly when no row in range satisfies `p` |
| StoreSchema.CountWhere | features/codex-collab-orchestrator/components/mcp/servers/codex-orchestrator/internal/store/session_worktree.go:709-719 | `SELECT COUNT(*) ... WHERE p` is zero exactly when no row satisfies `p` |
| StoreSchema.CountWherePut | features/codex-collab-orchestrator/components/mcp/servers/codex-orchestrator/internal/store/session_worktree.go:709-719 | updating one row changes such a count by the old row's contribution going out and the new row's coming in, and by nothing else |
| StoreSchema.CountWhereSame | features/codex-collab-orchestrator/components/mcp/servers/codex-orchestrator/internal/store/session_worktree.go:709-719 | the count depends only on the rows in the counted range |
| StoreSchema.SelectIds | features/codex-collab-orchestrator/components/mcp/servers/codex-orchestrator/internal/store/store.go:875-907 | the row-by-row scan of a list query returns exactly the ids of the rows satisfying the filter, each once, in ascending id order |
| StoreSchema.NullableText | features/codex-collab-orchestrator/components/mcp/servers/codex-orchestrator/internal/store/store.go:1147-1153 | blank text is stored as NULL exactly when it is blank; otherwise the trimmed text, which is not empty |
| StoreSchema.NullableJson | features/codex-collab-orchestrator/components/mcp/servers/codex-orchestrator/internal/store/store.go:1155-1160 | blank JSON is stored as NULL exactly when it is blank (empty included); otherwise the text verbatim |
| StoreSchema.Stamp | features/codex-collab-orchestrator/components/mcp/servers/codex-orchestrator/internal/store/store.go:1143-1145 | a timestamp written into a text column is never blank, so it survives `nullableText` |
| StoreSchema.Store.constructor | features/codex-collab-orchestrator/components/mcp/servers/codex-orchestrator/internal/store/store.go:57-301 | a freshly migrated database: every table empty, the merge lock seeded free (`unlocked`, no holder, no lease), and the mirror meta row seeded with both versions 0 and an empty path |
| StoreSchema.Store.BumpVersion | features/codex-collab-orchestrator/components/mcp/servers/codex-orchestrator/internal/store/store.go:1131-1141 | `bumpVersionTx` raises `db_version` by exactly one and stamps `updated_at`, and keeps the store's invariants |
| StoreSchema.Store.InsertStep | features/codex-collab-orchestrator/components/mcp/servers/codex-orchestrator/internal/store/store.go:74-83 | a step is added under the next id and only for an existing task (the `task_id` foreign key), leaving the tasks untouched |
| StoreSchema.Store.InsertCheckpoint | features/codex-collab-orchestrator/components/mcp/servers/codex-orchestrator/internal/store/store.go:84-91 | a checkpoint is added under the next id and only for an existing task (the `task_id` foreign key), leaving tasks and steps untouched |
| CoreStore.CreateTask | features/codex-collab-orchestrator/components/mcp/servers/codex-orchestrator/internal/store/store.go:303-352 | a blank level or title is refused with its own message and changes nothing; otherwise exactly one task is added under the next id, level trimmed, title as given, status "todo", and `db_version` goes up by one |
| CoreStore.BeginCase | features/codex-collab-orchestrator/components/mcp/servers/codex-orchestrator/internal/store/store.go:416-477 | an id that is not a case task fails with "case task not found: <id>" and changes nothing; a case task becomes "in_progress" with its contract (`{}` when blank) and fixtures, and a "case.begin" checkpoint is added; nothing else changes |
| CoreStore.MaxOrderNo | features/codex-collab-orchestrator/components/mcp/servers/codex-orchestrator/internal/store/store.go:494 | `COALESCE(MAX(order_no), 0)` bounds every order number of that task's steps and is never negative |
| CoreStore.MaxOrderNoZero | features/codex-collab-orchestrator/components/mcp/servers/codex-orchestrator/internal/store/store.go:494 | with positive order numbers the maximum is 0 exactly when that task has no steps |
| CoreStore.NextOrderNo | features/codex-collab-orchestrator/components/mcp/servers/codex-orchestrator/internal/store/store.go:494 | the new step's order number is at least 1 and exceeds every order number that task's steps already use |
| CoreStore.AddStepCheck | features/codex-collab-orchestrator/components/mcp/servers/codex-orchestrator/internal/store/store.go:479-555 | a blank step title or result is refused with its own message; a missing task fails; otherwise one "done" step numbered above every existing step of that task and one checkpoint are added |
| CoreStore.RecordStepCheck | features/codex-collab-orchestrator/components/mcp/servers/codex-orchestrator/internal/store/store.go:494-546 | the accepted call writes the step, numbered by `NextOrderNo`, then its checkpoint, and bumps the version once |
| CoreStore.CompleteCase | features/codex-collab-orchestrator/components/mcp/servers/codex-orchestrator/internal/store/store.go:557-608 | an id that is not a case task fails and changes nothing; a case task becomes "done" with its next action (NULL when blank) and a "case.complete" checkpoint is added |
| CoreStore.RecordCompletion | features/codex-collab-orchestrator/components/mcp/servers/codex-orchestrator/internal/store/store.go:572-600 | the accepted call changes only status, next action and update time of that task, then adds its checkpoint |
| CoreStore.NextCase | features/codex-collab-orchestrator/components/mcp/servers/codex-orchestrator/internal/store/store.go:610-625 | the resume order (in_progress before blocked before todo, then higher priority, then older update): the case picked is open and no open case sorts strictly before it, and there is none exactly when no case is open |
| CoreStore.LatestCheckpoint | features/codex-collab-orchestrator/components/mcp/servers/codex-orchestrator/internal/store/store.go:645-664 | that task's checkpoint with the largest id, and none exactly when that task has no checkpoint |
| CoreStore.ResumeNextCase | features/codex-collab-orchestrator/components/mcp/servers/codex-orchestrator/internal/store/store.go:610-643 | no case and no checkpoint when no case is open; otherwise the first open case in the resume order together with its latest checkpoint |
| CoreStore.ValidateLock | features/codex-collab-orchestrator/components/mcp/servers/codex-orchestrator/internal/store/store.go:680-694 | the scope type must be prefix or file after lower-casing and trimming, then the normalised path and the trimmed owner must be non-empty, each failure with its own message in that order; a non-positive TTL becomes 600 seconds |
| CoreStore.ExpireLocks | features/codex-collab-orchestrator/components/mcp/servers/codex-orchestrator/internal/store/store.go:703-713 | exactly the active locks whose lease is before now become "expired"; no lock is added or removed and every other lock is unchanged |
| CoreStore.RetireKeepsConflictFree | features/codex-collab-orchestrator/components/mcp/servers/codex-orchestrator/internal/store/store.go:703-713 | expiring or releasing locks cannot make two active locks conflict |
| CoreStore.AddLockKeepsConflictFree | features/codex-collab-orchestrator/components/mcp/servers/codex-orchestrator/internal/store/store.go:729-754 | a new lock that overlaps no active lock keeps the active locks pairwise non-conflicting |
| CoreStore.FindConflict | features/codex-collab-orchestrator/components/mcp/servers/codex-orchestrator/internal/store/store.go:715-738 | the scan finds a conflict exactly when some active lock overlaps, and the one it names is the lowest such id |
| CoreStore.FirstMatch | features/codex-collab-orchestrator/components/mcp/servers/codex-orchestrator/internal/store/store.go:727-734 | the scan returns the first id that matches, or none when no id matches |
| CoreStore.ScannedAll | features/codex-collab-orchestrator/components/mcp/servers/codex-orchestrator/internal/store/store.go:727-738 | a scan that met no conflict up to the last id has seen every active lock |
| CoreStore.GrantedLock | features/codex-collab-orchestrator/components/mcp/servers/codex-orchestrator/internal/store/store.go:740-772 | the new lock is active, heartbeated now, with the validated scope and owner and a lease exactly TTL seconds from now |
| CoreStore.AfterGrant | features/codex-collab-orchestrator/components/mcp/servers/codex-orchestrator/internal/store/store.go:703-754 | after a grant, overdue locks are expired and the new lock is appended under the next id |
| CoreStore.AcquireLock | features/codex-collab-orchestrator/components/mcp/servers/codex-orchestrator/internal/store/store.go:679-776 | a request that fails validation fails with that message; a conflict with an active lock fails and rolls back; otherwise the locks table is exactly `AfterGrant` and the version is bumped; active locks stay pairwise non-conflicting throughout |
| CoreStore.GrantLock | features/codex-collab-orchestrator/components/mcp/servers/codex-orchestrator/internal/store/store.go:697-772 | after validation, the call succeeds exactly when no active lock left by the expiry overlaps the scope |
| CoreStore.HeartbeatLock | features/codex-collab-orchestrator/components/mcp/servers/codex-orchestrator/internal/store/store.go:778-826 | an id that is not an active lock fails with "active lock not found" and changes nothing; otherwise only that lock's lease (a non-positive TTL meaning 600 seconds) and heartbeat change, and the version is bumped |
| CoreStore.ReleaseLock | features/codex-collab-orchestrator/components/mcp/servers/codex-orchestrator/internal/store/store.go:828-873 | an id that is not an active lock fails with "active lock not found" and changes nothing; otherwise that lock becomes "released" with lease and heartbeat set to now |
| CoreStore.ListActiveLocks | features/codex-collab-orchestrator/components/mcp/servers/codex-orchestrator/internal/store/store.go:875-907 | the expiry of overdue locks is committed without bumping `db_version`, and the result is exactly the ids of the still-active locks, each once, in ascending order, none of them overdue |
| CoreStore.WorktreeRow | features/codex-collab-orchestrator/components/mcp/servers/codex-orchestrator/internal/store/store.go:916-924 | blank status, kind and merge state become "planned", "task_branch" and "active"; path, branch and non-blank fields are kept as given; the row is not merged |
| CoreStore.CreateWorktreeRecord | features/codex-collab-orchestrator/components/mcp/servers/codex-orchestrator/internal/store/store.go:909-973 | a blank path or branch is refused with its own message and changes nothing; otherwise exactly `WorktreeRow` is added under the next id and the version is bumped |
| CoreStore.InsertWorktreeRow | features/codex-collab-orchestrator/components/mcp/servers/codex-orchestrator/internal/store/store.go:932-966 | the accepted call writes the row under the next id and bumps the version once |
| CoreStore.GetMirrorStatus | features/codex-collab-orchestrator/components/mcp/servers/codex-orchestrator/internal/store/store.go:1055-1068 | the mirror is outdated exactly when the markdown version differs from the store version |
| CoreStore.MarkMirrorRefreshed | features/codex-collab-orchestrator/components/mcp/servers/codex-orchestrator/internal/store/store.go:1070-1107 | the markdown version catches up with the store version, which is not bumped, and the path is recorded, so the mirror is no longer outdated |
| SessionStore.OpenedSession | features/codex-collab-orchestrator/components/mcp/servers/codex-orchestrator/internal/store/session_worktree.go:18-46 | role, owner and intent are trimmed, blank ones defaulting to "codex", "unknown" and "auto"; the repository path is trimmed; a new session is "opened" and "caller_active", with no root thread, tmux session or runtime state, started and last seen now |
| SessionStore.OpenSession | features/codex-collab-orchestrator/components/mcp/servers/codex-orchestrator/internal/store/session_worktree.go:18-82 | a blank repository path is refused with "repo_path is required" and changes nothing; otherwise exactly `OpenedSession` is added under the next id and the version is bumped |
| SessionStore.HeartbeatStatus | features/codex-collab-orchestrator/components/mcp/servers/codex-orchestrator/internal/store/session_worktree.go:94 | a heartbeat never leaves a session "opened" and changes no other status |
| SessionStore.HeartbeatStatusIdempotent | features/codex-collab-orchestrator/components/mcp/servers/codex-orchestrator/internal/store/session_worktree.go:94 | a second heartbeat leaves the status the first one left |
| SessionStore.HeartbeatSession | features/codex-collab-orchestrator/components/mcp/servers/codex-orchestrator/internal/store/session_worktree.go:84-125 | an unknown id fails with "session not found: <id>" and changes nothing; otherwise only `last_seen_at` and the promoted status of that session change |
| SessionStore.SetIfGiven | features/codex-collab-orchestrator/components/mcp/servers/codex-orchestrator/internal/store/session_worktree.go:133-220 | a given argument replaces the column, an absent one keeps it |
| SessionStore.SetNullableIfGiven | features/codex-collab-orchestrator/components/mcp/servers/codex-orchestrator/internal/store/session_worktree.go:133-220 | a given argument replaces the nullable column, an absent one keeps it |
| SessionStore.ApplySessionUpdate | features/codex-collab-orchestrator/components/mcp/servers/codex-orchestrator/internal/store/session_worktree.go:133-220 | each given column takes its argument and each absent one keeps its value; `last_seen_at` is always refreshed; role, owner, repository, fingerprint and start time never change |
| SessionStore.EmptySessionUpdate | features/codex-collab-orchestrator/components/mcp/servers/codex-orchestrator/internal/store/session_worktree.go:133-220 | an update with no fields only refreshes `last_seen_at` |
| SessionStore.SessionUpdateIdempotent | features/codex-collab-orchestrator/components/mcp/servers/codex-orchestrator/internal/store/session_worktree.go:133-220 | repeating an update changes nothing further |
| SessionStore.UpdateSession | features/codex-collab-orchestrator/components/mcp/servers/codex-orchestrator/internal/store/session_worktree.go:133-220 | an unknown id fails with "session not found: <id>" and changes nothing; otherwise only that session changes, to `ApplySessionUpdate` of it, and the version is bumped |
| SessionStore.CloseSession | features/codex-collab-orchestrator/components/mcp/servers/codex-orchestrator/internal/store/session_worktree.go:127-131 | closing is an update setting only the status to "closed" (and `last_seen_at`); an unknown id fails |
| SessionStore.ActiveRef | features/codex-collab-orchestrator/components/mcp/servers/codex-orchestrator/internal/store/session_worktree.go:430-448 | the ref found is an active ref of the session, and there is none exactly when the session has no active ref |
| SessionStore.ActiveRefUnique | features/codex-collab-orchestrator/components/mcp/servers/codex-orchestrator/internal/store/session_worktree.go:437-481 | with at most one active ref per session, any active ref of the session is the one found, so the newest-first order of the query cannot matter |
| SessionStore.PutRefKeepsOneActive | features/codex-collab-orchestrator/components/mcp/servers/codex-orchestrator/internal/store/session_worktree.go:450-558 | rewriting a ref in place, within its session and without reactivating it, keeps at most one active ref per session |
| SessionStore.AddRefKeepsOneActive | features/codex-collab-orchestrator/components/mcp/servers/codex-orchestrator/internal/store/session_worktree.go:450-558 | adding a ref for a session with no active ref keeps at most one active ref per session |
| SessionStore.ValidateRefUpsert | features/codex-collab-orchestrator/components/mcp/servers/codex-orchestrator/internal/store/session_worktree.go:450-459 | a positive session id, a non-blank node type and a positive node id are required, checked in that order, each with its own message |
| SessionStore.RewriteRef | features/codex-collab-orchestrator/components/mcp/servers/codex-orchestrator/internal/store/session_worktree.go:460-509 | the rewritten ref keeps its session and creation time, takes the new target, mode and status (blank ones defaulting to "compact" and "active"), raises its version by one and loses its acknowledgement |
| SessionStore.NewRef | features/codex-collab-orchestrator/components/mcp/servers/codex-orchestrator/internal/store/session_worktree.go:460-529 | a new ref belongs to the session, points at the target, starts at version 1, unacknowledged, created and updated now |
| SessionStore.UpsertedId | features/codex-collab-orchestrator/components/mcp/servers/codex-orchestrator/internal/store/session_worktree.go:450-558 | the id written is the session's active ref when it has one, otherwise the next id |
| SessionStore.UpsertKeepsOneActive | features/codex-collab-orchestrator/components/mcp/servers/codex-orchestrator/internal/store/session_worktree.go:450-558 | an upsert keeps at most one active ref per session and the written ref belongs to the session, points at the node and is unacknowledged |
| SessionStore.UpsertCurrentRef | features/codex-collab-orchestrator/components/mcp/servers/codex-orchestrator/internal/store/session_worktree.go:450-558 | invalid arguments fail with the validation message and change nothing; otherwise the refs become `AfterUpsert`, the id is `UpsertedId` and the version is bumped |
| SessionStore.WriteRef | features/codex-collab-orchestrator/components/mcp/servers/codex-orchestrator/internal/store/session_worktree.go:475-540 | the transaction of a valid upsert writes exactly `AfterUpsert` and bumps the version once |
| SessionStore.AckCurrentRef | features/codex-collab-orchestrator/components/mcp/servers/codex-orchestrator/internal/store/session_worktree.go:560-604 | a ref is acknowledged only for the session that owns it (otherwise "current_ref not found: id=<ref> session=<session>" and nothing changes); it records the time and raises the version by one |
| SessionStore.UnmergedChildren | features/codex-collab-orchestrator/components/mcp/servers/codex-orchestrator/internal/store/session_worktree.go:709-719 | the count is zero exactly when the worktree has no task-branch child that is not merged to its parent |
| SessionStore.EnqueueMainMergeRequest | features/codex-collab-orchestrator/components/mcp/servers/codex-orchestrator/internal/store/session_worktree.go:690-763 | positive session and worktree ids are required, then a source worktree with unmerged children is refused with their count; otherwise exactly one "queued" item (target branch defaulting to "main") is added under the next id |
| SessionStore.NextMainMergeRequest | features/codex-collab-orchestrator/components/mcp/servers/codex-orchestrator/internal/store/session_worktree.go:776-793 | the queued item with the smallest id, and none exactly when nothing is queued |
| SessionStore.EnqueueKeepsHead | features/codex-collab-orchestrator/components/mcp/servers/codex-orchestrator/internal/store/session_worktree.go:690-793 | the queue is first-in first-out: enqueueing never displaces the head, and into an empty queue the new item becomes the head |
| SessionStore.AcquireMainMergeLock | features/codex-collab-orchestrator/components/mcp/servers/codex-orchestrator/internal/store/session_worktree.go:795-863 | a non-positive session id is refused; a lock held by another session with an unexpired lease is refused with its holder and lease; otherwise the caller holds the lock for the TTL (600 seconds when not positive) and the version is bumped |
| SessionStore.MergeLockExclusive | features/codex-collab-orchestrator/components/mcp/servers/codex-orchestrator/internal/store/session_worktree.go:815-830 | once a session holds the lock, every other session is refused until the lease runs out, while the holder may always renew |
| SessionStore.MergeLockLeaseLapses | features/codex-collab-orchestrator/components/mcp/servers/codex-orchestrator/internal/store/session_worktree.go:815-830 | a lease that has run out blocks nobody |
| SessionStore.ReleaseMainMergeLock | features/codex-collab-orchestrator/components/mcp/servers/codex-orchestrator/internal/store/session_worktree.go:865-910 | a non-positive id is refused; another session's lock is refused with "main merge lock is held by another session"; otherwise the lock is free, holder and lease cleared, and blocks nobody |
| SessionStore.NewestMainWorktree | features/codex-collab-orchestrator/components/mcp/servers/codex-orchestrator/internal/store/session_worktree.go:275-285 | the newest main row of the checkout, with no main row of it after, and none exactly when the checkout has no main row |
| SessionStore.MainWorktreeRow | features/codex-collab-orchestrator/components/mcp/servers/codex-orchestrator/internal/store/session_worktree.go:287-300 | the row recorded for a checkout without one is an active, attached main worktree of that path and branch, tied to no task, parent or owner |
| SessionStore.CreateOrGetMainWorktree | features/codex-collab-orchestrator/components/mcp/servers/codex-orchestrator/internal/store/session_worktree.go:275-301 | the checkout's newest main row is returned with nothing written; without one, a main row is created through `CreateWorktreeRecord`, which refuses a blank path or branch; the id returned names a main row of the checkout |
| SessionStore.MainWorktreeFoundAfterInsert | features/codex-collab-orchestrator/components/mcp/servers/codex-orchestrator/internal/store/session_worktree.go:275-301 | lookup-or-insert settles: after a call inserted the main row, the next call finds that row |
| SessionStore.MergedToParent | features/codex-collab-orchestrator/components/mcp/servers/codex-orchestrator/internal/store/session_worktree.go:919-928 | the worktree becomes "merged_to_parent" and "closed" with its merge time, keeping its parent, kind, path and branch |
| SessionStore.MergedChildUnblocksParent | features/codex-collab-orchestrator/components/mcp/servers/codex-orchestrator/internal/store/session_worktree.go:709-719 | marking an unmerged child merged lowers its parent's unmerged count by exactly one; marking any other worktree leaves it alone |
| SessionStore.MarkWorktreeMergedToParent | features/codex-collab-orchestrator/components/mcp/servers/codex-orchestrator/internal/store/session_worktree.go:912-954 | an unknown id fails with "worktree not found: <id>" and changes nothing; otherwise only that worktree changes, to `MergedToParent` |
| SessionStore.InsertByLastSeen | features/codex-collab-orchestrator/components/mcp/servers/codex-orchestrator/internal/store/session_worktree.go:369 | inserting a session into a list ordered by `last_seen_at` keeps it ordered and duplicate-free and adds exactly that session |
| SessionStore.SuspendedSessions | features/codex-collab-orchestrator/components/mcp/servers/codex-orchestrator/internal/store/session_worktree.go:361-389 | exactly the sessions of the repository, other than the requester, in a live status and silent since before the cutoff, each once, stalest first |
| SessionStore.CandidateIds | features/codex-collab-orchestrator/components/mcp/servers/codex-orchestrator/internal/store/session_worktree.go:355-418 | the session ids of the candidates, in their order |
| SessionStore.CollectCandidates | features/codex-collab-orchestrator/components/mcp/servers/codex-orchestrator/internal/store/session_worktree.go:391-417 | the listing fails exactly when some suspended session with an active ref has lost its session-root worktree; otherwise every suspended session with an active ref yields a candidate with that ref and its root, in the order of the sessions |
| SessionStore.CandidatesOrdered | features/codex-collab-orchestrator/components/mcp/servers/codex-orchestrator/internal/store/session_worktree.go:369 | candidates taken in the order of a stalest-first list of sessions are themselves stalest first |
| SessionStore.ResumeCandidatesBefore | features/codex-collab-orchestrator/components/mcp/servers/codex-orchestrator/internal/store/session_worktree.go:355-418 | the candidates are exactly the suspended sessions with an active ref, with that ref and their root, stalest first; a missing root worktree fails the listing |
| SessionStore.ListResumeCandidates | features/codex-collab-orchestrator/components/mcp/servers/codex-orchestrator/internal/store/session_worktree.go:355-418 | the cutoff is now minus the timeout (its default when not positive); the candidates are exactly the suspended sessions with an active current ref, each with its ref and root, stalest first; a missing session-root worktree fails the call |
| ThreadStore.TerminalStatusCanonical | features/codex-collab-orchestrator/components/mcp/servers/codex-orchestrator/internal/store/thread_runtime.go:596-603 | terminality depends only on the trimmed lower-case form of a status: completed, failed, stopped and cancelled, in any case and spacing |
| ThreadStore.RunningNotTerminal | features/codex-collab-orchestrator/components/mcp/servers/codex-orchestrator/internal/store/thread_runtime.go:180-187 | a status that reads "running" is never terminal, so one update cannot both start and complete a thread |
| ThreadStore.CreatedThread | features/codex-collab-orchestrator/components/mcp/servers/codex-orchestrator/internal/store/thread_runtime.go:12-36 | role and status are trimmed, blank ones defaulting to "worker" and "planned"; `started_at` is set, to now, exactly when the status is "running" in any case; a new thread has no completion, tmux coordinates or launch command; title and objective are stored as nullable text |
| ThreadStore.CreateThread | features/codex-collab-orchestrator/components/mcp/servers/codex-orchestrator/internal/store/thread_runtime.go:12-87 | a non-positive session id is refused with "session_id is required" and changes nothing; otherwise exactly `CreatedThread` is added under the next id and the version is bumped |
| ThreadStore.StampOnce | features/codex-collab-orchestrator/components/mcp/servers/codex-orchestrator/internal/store/thread_runtime.go:181-185 | `COALESCE(column, now)`: a set timestamp is kept; an unset one is set, to now, exactly when the condition holds |
| ThreadStore.NullableIfGiven | features/codex-collab-orchestrator/components/mcp/servers/codex-orchestrator/internal/store/thread_runtime.go:188-203 | a given text replaces the column as nullable text, an absent one keeps it |
| ThreadStore.ApplyThreadUpdate | features/codex-collab-orchestrator/components/mcp/servers/codex-orchestrator/internal/store/thread_runtime.go:168-248 | a given status is stored trimmed; an unset `started_at` is set to now exactly when the new status is "running"; an unset `completed_at` exactly when it is terminal; set stamps never change; tmux fields and launch command change only when given; session, parent, role and creation time never change |
| ThreadStore.ThreadStampsWriteOnce | features/codex-collab-orchestrator/components/mcp/servers/codex-orchestrator/internal/store/thread_runtime.go:180-187 | over any sequence of updates, `started_at` and `completed_at` once set keep their first value |
| ThreadStore.UpdateThread | features/codex-collab-orchestrator/components/mcp/servers/codex-orchestrator/internal/store/thread_runtime.go:168-248 | a blank status is refused with "status cannot be empty"; an update with no fields reads the thread back unchanged (the row-not-found error for a missing id); a missing id otherwise fails with "thread not found: <id>"; a successful update writes exactly `ApplyThreadUpdate` and bumps the version |
| ThreadStore.CreatedReviewJob | features/codex-collab-orchestrator/components/mcp/servers/codex-orchestrator/internal/store/thread_runtime.go:250-270 | the job keeps its merge request, session and reviewer; a blank state defaults to "requested", others are trimmed; notes are stored as nullable JSON; it is not completed |
| ThreadStore.CreateReviewJob | features/codex-collab-orchestrator/components/mcp/servers/codex-orchestrator/internal/store/thread_runtime.go:250-309 | a non-positive merge request id, then a non-positive session id, are refused with their own messages and change nothing; otherwise exactly `CreatedReviewJob` is added under the next id |
| ThreadStore.ApplyReviewUpdate | features/codex-collab-orchestrator/components/mcp/servers/codex-orchestrator/internal/store/thread_runtime.go:311-376 | a given state is stored trimmed; an unset `completed_at` is set exactly when the new state is completed, failed or cancelled; a set one never changes; reviewer and notes change only when given |
| ThreadStore.ReviewCompletedOnce | features/codex-collab-orchestrator/components/mcp/servers/codex-orchestrator/internal/store/thread_runtime.go:323 | once a review job is completed, no sequence of updates changes its completion time |
| ThreadStore.UpdateReviewJob | features/codex-collab-orchestrator/components/mcp/servers/codex-orchestrator/internal/store/thread_runtime.go:311-376 | a blank state is refused with "state cannot be empty"; an update with no fields reads the job back; a missing id otherwise fails with "review job not found: <id>"; a successful update writes exactly `ApplyReviewUpdate` |
| ThreadStore.LatestReviewJob | features/codex-collab-orchestrator/components/mcp/servers/codex-orchestrator/internal/store/thread_runtime.go:389-407 | the merge request's job with the largest id, and none exactly when it has no job |
| ThreadStore.CreatedJobIsLatest | features/codex-collab-orchestrator/components/mcp/servers/codex-orchestrator/internal/store/thread_runtime.go:250-407 | a job just created is the latest of its merge request |
| ThreadStore.RecordRuntimePrereqEvent | features/codex-collab-orchestrator/components/mcp/servers/codex-orchestrator/internal/store/thread_runtime.go:409-462 | a blank requirement, then a blank status, are refused with their own messages and change nothing; otherwise one event with trimmed requirement and status and nullable detail is added under the next id |
| PlanningStore.ValidateGraphNode | features/codex-collab-orchestrator/components/mcp/servers/codex-orchestrator/internal/store/planning_graph.go:11-16 | a node needs a non-blank type, then a non-blank title, each failure with its own message |
| PlanningStore.CreatedNode | features/codex-collab-orchestrator/components/mcp/servers/codex-orchestrator/internal/store/planning_graph.go:17-84 | facet, status and approval state are trimmed, blank ones defaulting to "planning", "todo" and "none"; summary and affected files are stored as nullable text; type, title, priority, parent, worktree, owner, risk and estimate are kept; created and updated now |
| PlanningStore.CreateGraphNode | features/codex-collab-orchestrator/components/mcp/servers/codex-orchestrator/internal/store/planning_graph.go:10-84 | invalid arguments fail with the validation message and change nothing; otherwise exactly `CreatedNode` is added under the next id and the version is bumped |
| PlanningStore.WithApproval | features/codex-collab-orchestrator/components/mcp/servers/codex-orchestrator/internal/store/planning_graph.go:141-173 | the approval state is set; the status changes only when a non-blank one is given; nothing else but the update time changes |
| PlanningStore.UpdateGraphNodeApprovalState | features/codex-collab-orchestrator/components/mcp/servers/codex-orchestrator/internal/store/planning_graph.go:141-197 | a blank approval state is refused with "approval_state is required"; a missing node fails with the row-not-found error; either way nothing changes; otherwise only that node changes, to `WithApproval` |
| PlanningStore.CreateGraphEdge | features/codex-collab-orchestrator/components/mcp/servers/codex-orchestrator/internal/store/planning_graph.go:199-250 | both node ids must be positive, then the edge type non-blank, each failure with its own message and no change; otherwise one edge with the trimmed type is added under the next id |
| PlanningStore.ValidateChecklist | features/codex-collab-orchestrator/components/mcp/servers/codex-orchestrator/internal/store/planning_graph.go:253-258 | a checklist item needs a positive node id, then non-blank text, each failure with its own message |
| PlanningStore.ChecklistOrder | features/codex-collab-orchestrator/components/mcp/servers/codex-orchestrator/internal/store/planning_graph.go:263-265 | the order number is at least 1 and a positive one is kept |
| PlanningStore.FindChecklistItem | features/codex-collab-orchestrator/components/mcp/servers/codex-orchestrator/internal/store/planning_graph.go:277-288 | the item found sits under the upsert's (node, order, facet) key, and there is none exactly when no item does |
| PlanningStore.ChecklistUpsertedId | features/codex-collab-orchestrator/components/mcp/servers/codex-orchestrator/internal/store/planning_graph.go:279-326 | the id written is the existing item of the key when there is one, otherwise the next id |
| PlanningStore.PutKeepsKeysUnique | features/codex-collab-orchestrator/components/mcp/servers/codex-orchestrator/internal/store/planning_graph.go:290-303 | rewriting an item in place under its own key keeps keys unique |
| PlanningStore.NewChecklistItem | features/codex-collab-orchestrator/components/mcp/servers/codex-orchestrator/internal/store/planning_graph.go:304-319 | a new item sits under the upsert's key with its text |
| PlanningStore.AddKeepsKeysUnique | features/codex-collab-orchestrator/components/mcp/servers/codex-orchestrator/internal/store/planning_graph.go:304-319 | adding an item whose key is not yet used keeps keys unique |
| PlanningStore.ChecklistUpsertKeepsKeysUnique | features/codex-collab-orchestrator/components/mcp/servers/codex-orchestrator/internal/store/planning_graph.go:252-348 | an upsert keeps at most one item per (node, order, facet) key |
| PlanningStore.ChecklistUpsertWrites | features/codex-collab-orchestrator/components/mcp/servers/codex-orchestrator/internal/store/planning_graph.go:252-348 | after an upsert the written item is the only one under its key and holds the new text; every other item is unchanged |
| PlanningStore.ChecklistUpsertTwice | features/codex-collab-orchestrator/components/mcp/servers/codex-orchestrator/internal/store/planning_graph.go:252-348 | a second upsert of the same key adds no item |
| PlanningStore.UpsertNodeChecklistItem | features/codex-collab-orchestrator/components/mcp/servers/codex-orchestrator/internal/store/planning_graph.go:252-348 | invalid arguments fail with the validation message and change nothing; otherwise the checklist becomes `AfterChecklistUpsert`, updating the key's item in place or inserting one, and the version is bumped |
| PlanningStore.SnapshotRow | features/codex-collab-orchestrator/components/mcp/servers/codex-orchestrator/internal/store/planning_graph.go:357-402 | the snapshot keeps node and type, stores summary, next action and affected files as nullable text, created now |
| PlanningStore.CreateNodeSnapshot | features/codex-collab-orchestrator/components/mcp/servers/codex-orchestrator/internal/store/planning_graph.go:350-402 | a non-positive node id, then a blank snapshot type, are refused with their own messages and change nothing; otherwise exactly `SnapshotRow` is added under the next id |
| PlanningStore.NodeBeforeTransitive | features/codex-collab-orchestrator/components/mcp/servers/codex-orchestrator/internal/store/planning_graph.go:111 | the list order (higher priority first, then older update, then lower id) is transitive |
| PlanningStore.InsertOrdered | features/codex-collab-orchestrator/components/mcp/servers/codex-orchestrator/internal/store/planning_graph.go:111 | inserting a node into a list in that order keeps it ordered and adds exactly that node |
| PlanningStore.ListChildren | features/codex-collab-orchestrator/components/mcp/servers/codex-orchestrator/internal/store/planning_graph.go:86-128 | the nodes whose parent is the given node, exactly, in the list order |
| PlanningStore.StatusesOf | features/codex-collab-orchestrator/components/mcp/servers/codex-orchestrator/internal/store/planning_graph.go:428-431 | the keys of `status_counts`: each status that occurs among the children, once |
| PlanningStore.SumCountsStep | features/codex-collab-orchestrator/components/mcp/servers/codex-orchestrator/internal/store/planning_graph.go:428-431 | one more child adds one to the sum of the counts of its status and nothing to the others |
| PlanningStore.StatusCountsSum | features/codex-collab-orchestrator/components/mcp/servers/codex-orchestrator/internal/store/planning_graph.go:428-434 | the per-status counts sum to the number of children |
| PlanningStore.CountStatuses | features/codex-collab-orchestrator/components/mcp/servers/codex-orchestrator/internal/store/planning_graph.go:428-431 | `status_counts` has exactly the statuses that occur, each mapped to the number of children with that status |
| PlanningStore.RollupPreview | features/codex-collab-orchestrator/components/mcp/servers/codex-orchestrator/internal/store/planning_graph.go:419-437 | `child_count` is the number of direct children; the children are exactly the nodes under the parent, in list order; `status_counts` counts them by status and its counts sum to `child_count` |
| InboxStore.ValidateInboxMessage | features/codex-collab-orchestrator/components/mcp/servers/codex-orchestrator/internal/store/inbox.go:12-20 | a positive sender, then a positive receiver, then a non-blank message are required, each failure with its own message |
| InboxStore.NewMessage | features/codex-collab-orchestrator/components/mcp/servers/codex-orchestrator/internal/store/inbox.go:28-33 | a new message keeps sender and receiver, stores the text trimmed, is "pending", undelivered and created now |
| InboxStore.CreateInboxMessage | features/codex-collab-orchestrator/components/mcp/servers/codex-orchestrator/internal/store/inbox.go:11-57 | invalid arguments fail with the validation message and change nothing; otherwise exactly `NewMessage` is added under the next id and the version is bumped |
| InboxStore.ListPendingInboxMessages | features/codex-collab-orchestrator/components/mcp/servers/codex-orchestrator/internal/store/inbox.go:59-79 | exactly the receiver's pending messages, in ascending id order |
| InboxStore.ListInboxMessages | features/codex-collab-orchestrator/components/mcp/servers/codex-orchestrator/internal/store/inbox.go:81-101 | exactly the messages the thread sent or received, in ascending id order |
| InboxStore.Delivered | features/codex-collab-orchestrator/components/mcp/servers/codex-orchestrator/internal/store/inbox.go:111-113 | a delivered message is "delivered" with its delivery time and keeps sender, receiver, text and creation time |
| InboxStore.MarkInboxMessageDelivered | features/codex-collab-orchestrator/components/mcp/servers/codex-orchestrator/internal/store/inbox.go:103-136 | only a pending message moves, to `Delivered`; any other id fails with "inbox message not found or already delivered: <id>" and changes nothing |
| InboxStore.DeliverOnce | features/codex-collab-orchestrator/components/mcp/servers/codex-orchestrator/internal/store/inbox.go:111-119 | a delivered message cannot be delivered again |
| InboxStore.DeliverLeavesPending | features/codex-collab-orchestrator/components/mcp/servers/codex-orchestrator/internal/store/inbox.go:59-136 | delivering a message removes exactly that message from the receiver's pending list |
| InboxStore.NewMessageListed | features/codex-collab-orchestrator/components/mcp/servers/codex-orchestrator/internal/store/inbox.go:11-101 | a new message is pending for its receiver and listed for its sender, and no earlier message changes |
| ScopePaths.Resolve | features/codex-collab-orchestrator/components/mcp/servers/codex-orchestrator/internal/store/store.go:1167 | the element stack `filepath.Clean` builds holds real elements, with ".." only at the front and none in a rooted path |
| ScopePaths.Clean | features/codex-collab-orchestrator/components/mcp/servers/codex-orchestrator/internal/store/store.go:1167 | `filepath.Clean` never returns the empty path and ends in "/" only for the root |
| ScopePaths.JoinEnd | features/codex-collab-orchestrator/components/mcp/servers/codex-orchestrator/internal/store/store.go:1167 | joining real elements with "/" gives a path that is empty exactly for no elements, and otherwise neither starts nor ends with "/" |
| ScopePaths.ResolveKeeps | features/codex-collab-orchestrator/components/mcp/servers/codex-orchestrator/internal/store/store.go:1167 | a clean stack is resolved to itself |
| ScopePaths.CleanIdempotent | features/codex-collab-orchestrator/components/mcp/servers/codex-orchestrator/internal/store/store.go:1167 | `filepath.Clean` is idempotent |
| ScopePaths.CleanRootedStack | features/codex-collab-orchestrator/components/mcp/servers/codex-orchestrator/internal/store/store.go:1167 | a cleaned rooted path is clean |
| ScopePaths.CleanRoot | features/codex-collab-orchestrator/components/mcp/servers/codex-orchestrator/internal/store/store.go:1167 | the root cleans to itself |
| ScopePaths.CleanRootedNonEmpty | features/codex-collab-orchestrator/components/mcp/servers/codex-orchestrator/internal/store/store.go:1167 | a cleaned rooted path with elements is clean |
| ScopePaths.CleanRelativeStack | features/codex-collab-orchestrator/components/mcp/servers/codex-orchestrator/internal/store/store.go:1167 | a cleaned relative path is clean |
| ScopePaths.NormalizeScopePath | features/codex-collab-orchestrator/components/mcp/servers/codex-orchestrator/internal/store/store.go:1162-1169 | a blank path normalises to the empty path, and no normalised path ends in "/" |
| ScopePaths.NormalizeIdempotent | features/codex-collab-orchestrator/components/mcp/servers/codex-orchestrator/internal/store/store.go:1162-1169 | normalising twice equals normalising once whenever the result does not begin or end with white space |
| ScopePaths.NormalizeNotIdempotentOnInnerSpace | features/codex-collab-orchestrator/components/mcp/servers/codex-orchestrator/internal/store/store.go:1162-1169 | the exception: "./ a" normalises to " a", which normalises further to "a" |
| ScopePaths.NormalizeToClean | features/codex-collab-orchestrator/components/mcp/servers/codex-orchestrator/internal/store/store.go:1162-1169 | a path without outer white space normalises to its cleaned form when that does not end in "/" |
| ScopePaths.NormalizeCanonical | features/codex-collab-orchestrator/components/mcp/servers/codex-orchestrator/internal/store/store.go:1162-1169 | a path of real elements without ".." or outer white space is already normal |
| ScopePaths.JoinAppend | features/codex-collab-orchestrator/components/mcp/servers/codex-orchestrator/internal/store/store.go:1204 | joining two element lists is joining each and putting "/" between |
| ScopePaths.SplitAfterJoin | features/codex-collab-orchestrator/components/mcp/servers/codex-orchestrator/internal/store/store.go:1204 | splitting at "/" undoes a join |
| ScopePaths.CanonicalPrefixCase | features/codex-collab-orchestrator/components/mcp/servers/codex-orchestrator/internal/store/store.go:1195-1205 | on normal paths `hasPathPrefix` is equality or a textual prefix followed by "/" |
| ScopePaths.HasPathPrefixByElements | features/codex-collab-orchestrator/components/mcp/servers/codex-orchestrator/internal/store/store.go:1195-1205 | on normal paths a prefix covers a path exactly when its elements are a leading run of the path's elements: whole path elements only, so "a/b" does not cover "a/bc" |
| ScopePaths.CoveredHasElementPrefix | features/codex-collab-orchestrator/components/mcp/servers/codex-orchestrator/internal/store/store.go:1195-1205 | a covered path extends the prefix's elements |
| ScopePaths.ElementPrefixIsCovered | features/codex-collab-orchestrator/components/mcp/servers/codex-orchestrator/internal/store/store.go:1195-1205 | a path extending the prefix's elements is covered |
| ScopePaths.EmptyPrefixCoversAll | features/codex-collab-orchestrator/components/mcp/servers/codex-orchestrator/internal/store/store.go:1198-1200 | a prefix that normalises to "" or "." covers every path |
| ScopePaths.ScopesConflictKinds | features/codex-collab-orchestrator/components/mcp/servers/codex-orchestrator/internal/store/store.go:1171-1189 | only file and prefix scopes can conflict; any other type conflicts with nothing |
| ScopePaths.ScopesConflictSymmetric | features/codex-collab-orchestrator/components/mcp/servers/codex-orchestrator/internal/store/store.go:1171-1189 | conflict is symmetric: the order of the new and the existing lock does not matter |
| ScopePaths.ScopesConflictCases | features/codex-collab-orchestrator/components/mcp/servers/codex-orchestrator/internal/store/store.go:1171-1193 | two files conflict when they are the same path; a file and a prefix when the prefix covers the file; two prefixes when either covers the other |
| ScopePaths.TrimTrailingSlashes | features/codex-collab-orchestrator/components/mcp/servers/codex-orchestrator/internal/orchestrator/worktree_naming.go:85 | removing trailing "/" leaves a path not ending in "/" |
| ScopePaths.AfterLastSlash | features/codex-collab-orchestrator/components/mcp/servers/codex-orchestrator/internal/orchestrator/worktree_naming.go:85 | the part after the last "/" holds no "/" |
| ScopePaths.PathBase | features/codex-collab-orchestrator/components/mcp/servers/codex-orchestrator/internal/orchestrator/worktree_naming.go:81-85 | `filepath.Base` is never empty, is "." for the empty path, and is "/" or a single element |
| ScopePaths.FilepathJoin | features/codex-collab-orchestrator/components/mcp/servers/codex-orchestrator/internal/orchestrator/session_flow.go:137 | `filepath.Join` is empty exactly when every element is |
| ScopePaths.SplitLast | features/codex-collab-orchestrator/components/mcp/servers/codex-orchestrator/internal/orchestrator/session_flow.go:137 | splitting a path extended by one element gives the elements plus that one |
| ScopePaths.ResolveAppend | features/codex-collab-orchestrator/components/mcp/servers/codex-orchestrator/internal/orchestrator/session_flow.go:137 | cleaning after appending a real element appends it to the stack |
| ScopePaths.CleanKeepsLastElement | features/codex-collab-orchestrator/components/mcp/servers/codex-orchestrator/internal/orchestrator/session_flow.go:137 | cleaning a rooted path keeps its last real element at the end |
| ScopePaths.AfterLastSlashOf | features/codex-collab-orchestrator/components/mcp/servers/codex-orchestrator/internal/orchestrator/worktree_naming.go:85 | the part after the last "/" of `x/e` is `e` |
| ScopePaths.PathBaseOfLastElement | features/codex-collab-orchestrator/components/mcp/servers/codex-orchestrator/internal/orchestrator/worktree_naming.go:85 | the base of a path ending in "/e" is `e` |
| ScopePaths.WorktreeDirBase | features/codex-collab-orchestrator/components/mcp/servers/codex-orchestrator/internal/orchestrator/session_flow.go:137 | the base name of `<repo>/.codex-orch/worktrees/<name>` is the name |
| Service.EstimateScore | features/codex-collab-orchestrator/components/mcp/servers/codex-orchestrator/internal/orchestrator/service.go:813-817 | for a positive estimate, `(minutes + 14) / 15` is the number of started quarter hours: at least one, and the least `s` with `minutes <= 15 * s` |
| Service.Keys | features/codex-collab-orchestrator/components/mcp/servers/codex-orchestrator/internal/orchestrator/service.go:807 | the input names of a reason list, one per reason and in the same order |
| Service.AppendReason | features/codex-collab-orchestrator/components/mcp/servers/codex-orchestrator/internal/orchestrator/service.go:809-828 | appending one reason extends the names by its name, adds its points to the total and keeps every reason positive |
| Service.AppendReasonIf | features/codex-collab-orchestrator/components/mcp/servers/codex-orchestrator/internal/orchestrator/service.go:809-828 | a guarded append adds a name and points exactly when its input is positive, and keeps every reason positive |
| Service.ReasonsAccountForScore | features/codex-collab-orchestrator/components/mcp/servers/codex-orchestrator/internal/orchestrator/service.go:805-844 | the reasons name exactly the positive inputs in field order, their points add up to the score, and each has a positive value and positive points |
| Service.Tally | features/codex-collab-orchestrator/components/mcp/servers/codex-orchestrator/internal/orchestrator/service.go:809-828 | one `if input > 0` step adds the points to the score and appends one reason exactly when the input is positive |
| Service.DecideWorktree | features/codex-collab-orchestrator/components/mcp/servers/codex-orchestrator/internal/orchestrator/service.go:805-844 | the score and reasons equal the decision definition, the reasons account for the score, and the mode is "worktree" exactly when the score is at least 12 and "shared" exactly when it is below |
| Service.ScoreMonotone | features/codex-collab-orchestrator/components/mcp/servers/codex-orchestrator/internal/orchestrator/service.go:805-844 | raising any input never lowers the score, so an input set that already calls for a worktree still does after any increase |
| Service.DecisionExamples | features/codex-collab-orchestrator/components/mcp/servers/codex-orchestrator/internal/orchestrator/service_test.go:5-37 | the two decisions of the service's own test: (2, 15, 1, 1, 1) scores 10 and stays shared, (6, 60, 2, 2, 2) scores 24 and calls for a worktree |
| Service.DashSeparators | features/codex-collab-orchestrator/components/mcp/servers/codex-orchestrator/internal/orchestrator/service.go:738-739 | same length, and every "/" and " " becomes "-" while every other character is kept in place |
| Service.DashSeparatorsClean | features/codex-collab-orchestrator/components/mcp/servers/codex-orchestrator/internal/orchestrator/service.go:738-739 | a trimmed non-empty text comes out with no "/" or " " and no white space at either end |
| Service.SanitizeForPath | features/codex-collab-orchestrator/components/mcp/servers/codex-orchestrator/internal/orchestrator/service.go:733-741 | a blank value gives "worktree"; otherwise the trimmed value with separators turned into "-"; either way a non-empty slug with no "/" or " " and no white space at either end |
| Service.SanitizeClean | features/codex-collab-orchestrator/components/mcp/servers/codex-orchestrator/internal/orchestrator/service.go:733-741 | a slug that is already clean is returned unchanged |
| Service.FallbackNameClean | features/codex-collab-orchestrator/components/mcp/servers/codex-orchestrator/internal/orchestrator/service.go:736 | the fallback name "worktree" is itself a clean slug |
| Service.SanitizeIdempotent | features/codex-collab-orchestrator/components/mcp/servers/codex-orchestrator/internal/orchestrator/service.go:733-741 | sanitizing twice gives the same slug as sanitizing once |
| Service.WorktreePath | features/codex-collab-orchestrator/components/mcp/servers/codex-orchestrator/internal/orchestrator/service.go:568-572 | a non-blank path is used as given; a blank one becomes `<repo>/.codex-orch/worktrees/<slug of the branch>` |
| Service.DefaultPathEndsInBranch | features/codex-collab-orchestrator/components/mcp/servers/codex-orchestrator/internal/orchestrator/service.go:568-572 | under an absolute repository path the default path's last element is the branch slug |
| Service.GitBaseRef | features/codex-collab-orchestrator/components/mcp/servers/codex-orchestrator/internal/orchestrator/service.go:602-606 | the ref handed to `git worktree add` is never empty: the base ref when given, "HEAD" otherwise |
| Service.RunGitWorktreeAdd | features/codex-collab-orchestrator/components/mcp/servers/codex-orchestrator/internal/orchestrator/service.go:593-615 | a blank branch is refused with "branch is required when create_on_disk=true" before git runs; otherwise the result is git's, given the branch, the path and the base ref (or "HEAD") |
| Service.CreateArgs | features/codex-collab-orchestrator/components/mcp/servers/codex-orchestrator/internal/orchestrator/service.go:580-590 | the record keeps the chosen path and the branch, with status "active" exactly when the worktree is created on disk and "planned" otherwise |
| Service.CreateWorktree | features/codex-collab-orchestrator/components/mcp/servers/codex-orchestrator/internal/orchestrator/service.go:567-591 | a failed `git worktree add` is returned as is and writes nothing; the call succeeds exactly when git succeeded (or was not asked for) and path and branch are not blank; then exactly one worktree row with the chosen path is added, "active" exactly when created on disk, and `db_version` goes up |
| Service.HandleRefusal | features/codex-collab-orchestrator/components/mcp/servers/codex-orchestrator/internal/orchestrator/service.go:49-565 | an unknown method is refused with "unsupported method: <name>"; the ten delegation-gated methods are refused exactly as the delegation gate says; every other known method passes |
| Service.GatedMethodsHandled | features/codex-collab-orchestrator/components/mcp/servers/codex-orchestrator/internal/orchestrator/service.go:271-553 | every gated method, called for a session that still awaits its handoff ack, is blocked with that session's delegation message naming the method |
| Service.ApproveRollup | features/codex-collab-orchestrator/components/mcp/servers/codex-orchestrator/internal/orchestrator/service.go:221-226 | an unknown node fails with "sql: no rows in result set" and changes nothing; a known node becomes approval "approved", status "done", with the new update time, and `db_version` goes up |
| Service.RejectRollup | features/codex-collab-orchestrator/components/mcp/servers/codex-orchestrator/internal/orchestrator/service.go:227-232 | an unknown node fails with "sql: no rows in result set" and changes nothing; a known node becomes approval "rejected", status "blocked", with the new update time, and `db_version` goes up |
| Service.AutoReviewDecision | features/codex-collab-orchestrator/components/mcp/servers/codex-orchestrator/internal/orchestrator/service.go:503-511 | `auto_review` defaults to whether a merge request id was given, and an explicit false turns it off; a review is requested only with a positive id, and a requested review without one is refused with "merge_request_id is required when auto_review=true" |
| Service.MergeMainRequest | features/codex-collab-orchestrator/components/mcp/servers/codex-orchestrator/internal/orchestrator/service.go:481-527 | a session awaiting its handoff ack is refused before anything is written; a request the store refuses writes nothing; otherwise the request is queued first and only then is the auto-review setting checked, so a refused auto-review still leaves the request queued |
| Service.EnqueueThenReview | features/codex-collab-orchestrator/components/mcp/servers/codex-orchestrator/internal/orchestrator/service.go:490-527 | the request is queued exactly when the store accepts it (one "queued" row under the next id, `db_version` up); the call fails without a queued row when the store refuses, and otherwise answers as the auto-review decision says |
| Service.AutoReviewWithoutIdRefused | features/codex-collab-orchestrator/components/mcp/servers/codex-orchestrator/internal/orchestrator/service.go:503-511 | `auto_review=true` with no id, and an id of 0 given alone, are both refused, which in `merge.main.request` happens after the request was queued |
| Service.MergeMainRequestChecked | features/codex-collab-orchestrator/components/mcp/servers/codex-orchestrator/internal/orchestrator/service.go:481-527 | the intended order: the call succeeds exactly when the delegation gate passes, the auto-review setting is valid and the store accepts the request; only then is exactly one "queued" request added, and every failure leaves the queue and `db_version` as they were |
| Service.MirrorTarget | features/codex-collab-orchestrator/components/mcp/servers/codex-orchestrator/internal/orchestrator/service.go:663-670 | the trimmed target path when given, else the last mirror path when not blank, else `<repo>/.codex-orch/mirror/status.md`; never empty |
| Service.MirrorTargetSticky | features/codex-collab-orchestrator/components/mcp/servers/codex-orchestrator/internal/orchestrator/service.go:663-670 | once a mirror path was recorded, a later refresh without a target writes to the same path |
| Service.RefreshMirror | features/codex-collab-orchestrator/components/mcp/servers/codex-orchestrator/internal/orchestrator/service.go:654-697 | only the doc-mirror-manager role may refresh, others get the role message; the call succeeds exactly for that role when the file write succeeds; then the mirror path and version are recorded, the result tells whether the mirror was outdated before, and the mirror is no longer outdated; expired locks are dropped by the listing either way |
| SessionFlow.ResolveIntent | features/codex-collab-orchestrator/components/mcp/servers/codex-orchestrator/internal/orchestrator/session_flow.go:37-40 | the intent is trimmed and lower-cased; a blank one or "auto" becomes "new_work", anything else is kept; the result is never empty nor "auto" |
| SessionFlow.ResolveIntentIgnoresCase | features/codex-collab-orchestrator/components/mcp/servers/codex-orchestrator/internal/orchestrator/session_flow.go:37-40 | the intent resolves the same whatever its letter case |
| SessionFlow.ConflictIgnoresCaseAndSpace | features/codex-collab-orchestrator/components/mcp/servers/codex-orchestrator/internal/orchestrator/session_flow.go:239-244 | whether git's message is a worktree conflict does not depend on its letter case or surrounding white space |
| SessionFlow.SearchOutcomeUnique | features/codex-collab-orchestrator/components/mcp/servers/codex-orchestrator/internal/orchestrator/session_flow.go:140-168 | the outcome of a candidate search is determined by the candidates, the taken test and git: two outcomes meeting the definition are equal |
| SessionFlow.SearchCandidates | features/codex-collab-orchestrator/components/mcp/servers/codex-orchestrator/internal/orchestrator/session_flow.go:140-168 | the allocation loop of both worktree flows: within 64 attempts, every skipped attempt was taken or a retried conflict, and it stops at the first candidate git accepts, at the first other git error, or exhausted after all 64 |
| SessionFlow.TaskBranchInjective | features/codex-collab-orchestrator/components/mcp/servers/codex-orchestrator/internal/orchestrator/session_flow.go:134 | `task/<session>/<slug>` determines the slug: two slugs give the same branch only when equal |
| SessionFlow.SlugPathBase | features/codex-collab-orchestrator/components/mcp/servers/codex-orchestrator/internal/orchestrator/session_flow.go:193 | under an absolute repository path, the last element of `<repo>/.codex-orch/worktrees/<slug>` is the slug |
| SessionFlow.GeneratedCandidatesDistinct | features/codex-collab-orchestrator/components/mcp/servers/codex-orchestrator/internal/orchestrator/session_flow.go:189-193 | different attempts generate different branches and, under an absolute repository path, different directories, so a retry never tries the same candidate twice |
| SessionFlow.SuffixedSlugShape | features/codex-collab-orchestrator/components/mcp/servers/codex-orchestrator/internal/orchestrator/session_flow.go:191 | every suffixed candidate slug is a non-empty slug of lower-case letters, digits and "-" |
| SessionFlow.RootRecordRow | features/codex-collab-orchestrator/components/mcp/servers/codex-orchestrator/internal/orchestrator/session_flow.go:204-213 | the recorded session root is an active "session_root" worktree at the candidate's path and branch, child of the main worktree and owned by the session |
| SessionFlow.CreateSessionRootWorktree | features/codex-collab-orchestrator/components/mcp/servers/codex-orchestrator/internal/orchestrator/session_flow.go:188-221 | the search retries taken candidates and git conflicts; exhausted fails with "unable to allocate unique session worktree for session=<id>", another git error is returned; on success exactly one session-root row is added under the next id with the allocated slug and path, and every failure writes nothing |
| SessionFlow.MainBranch | features/codex-collab-orchestrator/components/mcp/servers/codex-orchestrator/internal/orchestrator/session_flow.go:28-31 | git's trimmed branch when git answered with a non-blank one, else the default main branch; never blank |
| SessionFlow.RecordOpenedSession | features/codex-collab-orchestrator/components/mcp/servers/codex-orchestrator/internal/orchestrator/session_flow.go:16-49 | a blank repository path fails with "repo_path is required" and writes nothing; otherwise a new session under the next id points at the main worktree (the newest existing one, or a new one on the detected branch) with the resolved intent and status "opened" |
| SessionFlow.FindOrCreateMain | features/codex-collab-orchestrator/components/mcp/servers/codex-orchestrator/internal/orchestrator/session_flow.go:28-35 | the newest main worktree of the repository is reused unchanged; without one, exactly one main worktree row on the detected branch is added |
| SessionFlow.AwaitResumeChoice | features/codex-collab-orchestrator/components/mcp/servers/codex-orchestrator/internal/orchestrator/session_flow.go:51-67 | a resume session becomes "awaiting_resume" with a fresh last-seen time, worktrees untouched, and the call asks the caller to choose a resume candidate |
| SessionFlow.MarkRootLocalReady | features/codex-collab-orchestrator/components/mcp/servers/codex-orchestrator/internal/orchestrator/session_flow.go:85-93 | the session becomes "active_new" with its root worktree, viewer tmux session and runtime state "root_local_ready", keeping its main worktree and intent |
| SessionFlow.StartRootLocal | features/codex-collab-orchestrator/components/mcp/servers/codex-orchestrator/internal/orchestrator/session_flow.go:78-93 | on success the session's own "session_root" worktree exists at the returned path, the viewer name is derived from that path, and the session is "active_new" and "root_local_ready"; on failure the sessions are unchanged |
| SessionFlow.OpenSessionFlow | features/codex-collab-orchestrator/components/mcp/servers/codex-orchestrator/internal/orchestrator/session_flow.go:16-106 | a new session on the main worktree with the resolved intent; "resume_work" waits for a resume choice, `always_branch=false` is refused for root-local mode, and otherwise a session root is allocated and the session becomes "active_new" on it |
| SessionFlow.SpawnWorktree | features/codex-collab-orchestrator/components/mcp/servers/codex-orchestrator/internal/orchestrator/session_flow.go:108-186 | a missing parent fails with the store's no-rows error and a parent owned by another session is refused; on disk, the search retries conflicts only when neither branch nor path was given and fails as the search ends; otherwise exactly one "task_branch" row under the next id is added for the chosen candidate, and every failure writes nothing |
| SessionFlow.MergeWorktreeToParent | features/codex-collab-orchestrator/components/mcp/servers/codex-orchestrator/internal/orchestrator/session_flow.go:246-277 | a missing worktree, one without a parent, one owned by another session, and a missing parent each fail with their own message; the call succeeds exactly when git merges the branch into the parent's directory, and then the child alone becomes "merged_to_parent" and "closed" |
| SessionFlow.MarshalStringSlice | features/codex-collab-orchestrator/components/mcp/servers/codex-orchestrator/internal/orchestrator/session_flow.go:360-369 | an empty list is written as "[]" |
| SessionFlow.CurrentRef | features/codex-collab-orchestrator/components/mcp/servers/codex-orchestrator/internal/orchestrator/session_flow.go:279-328 | an active reference of the session is returned unchanged; without one and without a next case the source is "none"; otherwise a non-positive session id is refused with "session_id is required" and a positive one gets a new active "case" reference to the next case and its latest checkpoint, with `db_version` up |
| DelegationFlow.RequireDelegationAck | features/codex-collab-orchestrator/components/mcp/servers/codex-orchestrator/internal/orchestrator/delegation_flow.go:217-233 | a non-positive session id passes and an unknown session fails with the store's no-rows error; a known session is blocked exactly when its delegation state is "delegated" and its handoff is not acknowledged, with the message naming the session, its root thread (0 when none) and the method |
| DelegationFlow.DelegationTitle | features/codex-collab-orchestrator/components/mcp/servers/codex-orchestrator/internal/orchestrator/delegation_flow.go:62-68 | the trimmed title, else the trimmed user request, else "root orchestration"; never blank |
| DelegationFlow.DelegationObjective | features/codex-collab-orchestrator/components/mcp/servers/codex-orchestrator/internal/orchestrator/delegation_flow.go:70-76 | the trimmed objective, else the trimmed user request, else the trimmed title |
| DelegationFlow.DelegationObjectiveNotBlank | features/codex-collab-orchestrator/components/mcp/servers/codex-orchestrator/internal/orchestrator/delegation_flow.go:62-76 | the objective handed to the root thread is never blank, because the title it falls back to never is |
| DelegationFlow.DelegatedUpdate | features/codex-collab-orchestrator/components/mcp/servers/codex-orchestrator/internal/orchestrator/delegation_flow.go:115-124 | the delegation update sets state "delegated", the root thread, the issue time, an empty ack time and runtime state "delegated_to_root", and leaves status, intent, root thread id and tmux session alone |
| DelegationFlow.DelegateOrchestration | features/codex-collab-orchestrator/components/mcp/servers/codex-orchestrator/internal/orchestrator/delegation_flow.go:52-127 | a non-positive session id fails with "session_id is required" and an unknown session with the no-rows error; the call succeeds exactly when the session exists and the root thread is ensured for the derived title and objective; then only that session changes, by the delegation update, and `db_version` goes up; every failure writes no session |
| DelegationFlow.DelegationBlocksGatedMethods | features/codex-collab-orchestrator/components/mcp/servers/codex-orchestrator/internal/orchestrator/delegation_flow.go:115-124 | right after delegation, every gated method called for that session is blocked with the message naming the new root thread |
| DelegationFlow.AckUpdate | features/codex-collab-orchestrator/components/mcp/servers/codex-orchestrator/internal/orchestrator/delegation_flow.go:182-187 | the acknowledgement sets the given state, the thread, the ack time and runtime state "root_active", and leaves the issue time, status and intent alone |
| DelegationFlow.ValidateAck | features/codex-collab-orchestrator/components/mcp/servers/codex-orchestrator/internal/orchestrator/delegation_flow.go:153-174 | the acknowledgement is accepted exactly when both ids are positive, both exist, the thread belongs to the session and is its root thread (or the session has none); each refusal carries its own message in the code's order |
| DelegationFlow.AckRootHandoff | features/codex-collab-orchestrator/components/mcp/servers/codex-orchestrator/internal/orchestrator/delegation_flow.go:152-190 | a refused acknowledgement returns the refusal and writes nothing; an accepted one updates only that session with the trimmed state (default "acknowledged"), and `db_version` goes up |
| DelegationFlow.AckOpensGate | features/codex-collab-orchestrator/components/mcp/servers/codex-orchestrator/internal/orchestrator/delegation_flow.go:182-187 | after an acknowledgement no method is blocked for the session, whatever state was given, because the ack time is no longer empty |
| PlanningFlow.CreateKnownNode | features/codex-collab-orchestrator/components/mcp/servers/codex-orchestrator/internal/orchestrator/planning_flow.go:19-43 | a node whose type is fixed by the flow is refused exactly when its title is blank, writing nothing; otherwise exactly the expected row is added under the next id and `db_version` goes up |
| PlanningFlow.CreateContainsEdge | features/codex-collab-orchestrator/components/mcp/servers/codex-orchestrator/internal/orchestrator/planning_flow.go:45-52 | a "contains" edge between two positive ids is always accepted: exactly one edge row under the next id, `db_version` up |
| PlanningFlow.InitiativeStored | features/codex-collab-orchestrator/components/mcp/servers/codex-orchestrator/internal/orchestrator/planning_flow.go:19-27 | the initiative is stored as an "initiative" node of the "planning" facet, "in_progress", with the given priority, owner and summary, no parent, approval "none" |
| PlanningFlow.PlanStored | features/codex-collab-orchestrator/components/mcp/servers/codex-orchestrator/internal/orchestrator/planning_flow.go:32-40 | the plan is stored as a "plan" node of the "planning" facet, "todo", child of the initiative, with the given priority and owner |
| PlanningFlow.BootstrapValidation | features/codex-collab-orchestrator/components/mcp/servers/codex-orchestrator/internal/orchestrator/planning_flow.go:19-40 | the initiative and the plan node are each refused by the store exactly when their title is blank, with "title is required" |
| PlanningFlow.CreateInitiative | features/codex-collab-orchestrator/components/mcp/servers/codex-orchestrator/internal/orchestrator/planning_flow.go:19-30 | a blank initiative title fails with "title is required" and writes nothing; otherwise exactly the initiative row is added under the next id |
| PlanningFlow.CreatePlan | features/codex-collab-orchestrator/components/mcp/servers/codex-orchestrator/internal/orchestrator/planning_flow.go:32-43 | a blank plan title fails with "title is required" and writes nothing; otherwise exactly the plan row, child of the initiative, is added under the next id |
| PlanningFlow.BootstrapNodes | features/codex-collab-orchestrator/components/mcp/servers/codex-orchestrator/internal/orchestrator/planning_flow.go:19-43 | both nodes are created exactly when both titles are non-blank; a blank plan title leaves the initiative already written, a blank initiative title writes nothing |
| PlanningFlow.BootstrapGraph | features/codex-collab-orchestrator/components/mcp/servers/codex-orchestrator/internal/orchestrator/planning_flow.go:19-52 | with both titles non-blank the initiative, its plan and the "contains" edge between them are added under consecutive ids and `db_version` goes up by three; a blank plan title leaves the initiative behind and adds no edge |
| PlanningFlow.PlanBootstrap | features/codex-collab-orchestrator/components/mcp/servers/codex-orchestrator/internal/orchestrator/planning_flow.go:11-59 | an empty initiative title, then an empty plan title, are refused with their own messages before anything is written; the call succeeds exactly when both titles are non-blank, and then the initiative, the plan under it and the edge between them are added |
| PlanningFlow.SliceValidation | features/codex-collab-orchestrator/components/mcp/servers/codex-orchestrator/internal/orchestrator/planning_flow.go:80-91 | a slice node is refused by the store exactly when its title is blank, with "title is required" |
| PlanningFlow.SliceStored | features/codex-collab-orchestrator/components/mcp/servers/codex-orchestrator/internal/orchestrator/planning_flow.go:75-91 | a slice is stored as a "slice" node of the "planning" facet, "todo", child of the plan, with a token estimate only when positive and its affected files as a JSON array ("[]" when none) |
| PlanningFlow.SliceNodeFollowsSpec | features/codex-collab-orchestrator/components/mcp/servers/codex-orchestrator/internal/orchestrator/planning_flow.go:75-91 | the stored slice carries the spec's title and priority, the owner and the plan as parent, and keeps the token estimate exactly when it is positive |
| PlanningFlow.ContainsTableAt | features/codex-collab-orchestrator/components/mcp/servers/codex-orchestrator/internal/orchestrator/planning_flow.go:97-105 | after `n` slices, edge `lastId + 1 + i` links the plan to slice `i`; the edges already there are untouched and no other edge is added |
| PlanningFlow.CleanPrefixMaximal | features/codex-collab-orchestrator/components/mcp/servers/codex-orchestrator/internal/orchestrator/planning_flow.go:71-74 | the slices made before the loop stops are exactly the leading specs with a non-blank title: every one before the stop is non-blank and the one it stops at is blank |
| PlanningFlow.CleanPrefixIs | features/codex-collab-orchestrator/components/mcp/servers/codex-orchestrator/internal/orchestrator/planning_flow.go:71-74 | a count of non-blank leading titles followed by a blank one (or the end) is the stopping point of the loop |
| PlanningFlow.CreateSlice | features/codex-collab-orchestrator/components/mcp/servers/codex-orchestrator/internal/orchestrator/planning_flow.go:80-94 | a blank slice title is refused with "title is required" and writes nothing; otherwise exactly the slice row is added under the next id |
| PlanningFlow.AddSlice | features/codex-collab-orchestrator/components/mcp/servers/codex-orchestrator/internal/orchestrator/planning_flow.go:80-105 | one pass of the loop: the slice and its "contains" edge from the plan are added, or, on a blank title, nothing is written |
| PlanningFlow.SliceTablesStep | features/codex-collab-orchestrator/components/mcp/servers/codex-orchestrator/internal/orchestrator/planning_flow.go:71-106 | one more slice and its edge extend the tables of the first `i` slices to those of the first `i + 1` |
| PlanningFlow.GenerateStep | features/codex-collab-orchestrator/components/mcp/servers/codex-orchestrator/internal/orchestrator/planning_flow.go:71-106 | spec `n` either stops the loop with the empty-title or blank-title message, leaving the tables as they were, or adds its slice and edge under the next consecutive ids |
| PlanningFlow.GenerateSlices | features/codex-collab-orchestrator/components/mcp/servers/codex-orchestrator/internal/orchestrator/planning_flow.go:69-112 | the loop makes the slices of the leading specs in order, stops at the first blank title with its message, and otherwise returns every slice and edge id, consecutive from the first free ones |
| PlanningFlow.PlanSliceGenerate | features/codex-collab-orchestrator/components/mcp/servers/codex-orchestrator/internal/orchestrator/planning_flow.go:61-113 | a non-positive plan id and an empty spec list are refused before anything is written; otherwise the slices and edges of the leading non-blank specs are added in order (two writes each), the call fails at the first blank title, and succeeds exactly when every title is non-blank |
| PlanningFlow.SlicesFollowSpecs | features/codex-collab-orchestrator/components/mcp/servers/codex-orchestrator/internal/orchestrator/planning_flow.go:69-112 | in the tables the loop leaves, slice `i` is node `lastId + 1 + i` made from spec `i` and edge `lastId + 1 + i` links the plan to it; existing rows are untouched and nothing else is added |
| PlanningFlow.PlanSliceReplan | features/codex-collab-orchestrator/components/mcp/servers/codex-orchestrator/internal/orchestrator/planning_flow.go:115-129 | a non-positive node id and then an empty reason are refused writing nothing; otherwise exactly one "replan" snapshot of the node with the reason as summary is added under the next id |
| PlanningFlow.PlanRollupSubmit | features/codex-collab-orchestrator/components/mcp/servers/codex-orchestrator/internal/orchestrator/planning_flow.go:131-161 | a non-positive node id is refused writing nothing; otherwise the "rollup" snapshot is always recorded, an unknown node then fails with the store's no-rows error leaving the snapshot behind, and a known node becomes approval "pending", status "in_review", with a preview listing exactly its direct children |

## Left out

- Text.ToLower: folds ASCII letters only. Go's `strings.ToLower` lowers every Unicode letter, for example "É" to "é". Every member that lower-cases through it (`Text.Canon`, intents, statuses, roles, the `Content-Length` header) inherits this limit.
- Text.EqualFold: folds ASCII letters only. Go's `strings.EqualFold` uses Unicode simple folding, under which the Kelvin sign U+212A equals "k". The model treats those two as different.
- Timestamps: every RFC 3339 text time is an integer `now` supplied by the caller, and the model compares these integers. That is intended time order, not the order of the Go code. Go's stamps come from `time.RFC3339Nano` (store.go:1143-1144), which drops trailing zeros of the fraction. The seeded merge-lock row uses `strftime('%Y-%m-%dT%H:%M:%fZ')` instead (store.go:237-238). SQLite compares these columns as text: `lease_until < ?` (store.go:709, 882), `last_seen_at < ?` and `ORDER BY last_seen_at` (session_worktree.go:368-369), and `ORDER BY ... updated_at` (store.go:376, 616-624; planning_graph.go:111). So within one second, "...:00.12Z" sorts after "...:00.123Z" and "...:00Z" after "...:00.5Z". The members that follow time order where Go follows text order are CoreStore.ExpireLocks, CoreStore.AcquireLock, CoreStore.GrantLock, CoreStore.ListActiveLocks, CoreStore.NextCase, CoreStore.ResumeNextCase, SessionStore.InsertByLastSeen, SessionStore.SuspendedSessions, SessionStore.CandidatesOrdered, SessionStore.ResumeCandidatesBefore, SessionStore.ListResumeCandidates, PlanningStore.NodeBeforeTransitive, PlanningStore.InsertOrdered and PlanningStore.ListChildren. The main merge lock is different. SessionStore.AcquireMainMergeLock parses its lease with `time.Parse` and compares times (session_worktree.go:822-824), so there, and in SessionStore.MergeLockExclusive, the integer order is Go's order. The `ORDER BY updated_at DESC` of the current-ref lookups (session_worktree.go:437, 481) does not matter, since a session has at most one active ref (SessionStore.ActiveRefUnique).
- External processes and files: git, tmux, the file system and the JSON encoder are function-typed parameters: `gitAdd`, `taken`, `gitMerge`, `gitOutput`, `paneExists`, `ensureRoot`, `writeMirror`, `encode` and the request `Codec`. Nothing is assumed about their answers. The git helpers `worktreeCandidateTaken`, `currentGitBranch` and `runGitMerge`, and `pathExists`, `readFileTail`, `readAgentTemplate` and `writeMirrorMarkdown`, are these parameters. They are not modelled themselves.
- DelegationFlow.DelegateOrchestration: `ensureRoot` stands for `ensureRootThreadInternal` as a value-returning function. The thread, tmux and session writes that call makes are not part of the model, and neither is the session-root task spec it builds. The `buildAttachInfo` error that can follow the `UpdateSession` is not modelled; the session update it would leave behind is.
- PlanningStore.RollupPreview: the `children` it returns are the children's ids, in list order (priority descending, then updated_at ascending, then id ascending). Go returns their `GraphNode` records. The count and the per-status counts are modelled in full.
- Service.RefreshMirror: its ensures do not state `mirrorUpdatedAt` when the file write fails. The model then leaves it as it was; the ensures leave it open.
- Service.RefreshMirror: the per-status task counts and the lock list the mirror file is written from are not modelled. `GetTaskStatusCounts` is not part of this model.
- Service.HandleRefusal: models only which methods `Handle` refuses before doing any work: unknown methods, and the delegation gate. `decodeParams` (JSON parameter decoding) is not modelled, and neither is each method's routing to its store call. The routed operations are modelled one by one above.
- McpServer.HandlePayload: the request `id` is whatever the decoder reports. As in Go, where `id` decodes into `any`, an explicit `"id": null` counts as no id, so such a request gets no answer. Section 4.1 of JSON-RPC 2.0 treats such a request as a request, not a notification; the model follows the code.
- Transport: the byte stream is a `string` whose characters stand for bytes, so `Content-Length` counts characters. A UTF-8 payload with non-ASCII text has more bytes than characters. Writer errors and reader I/O errors other than end of input are not modelled.
- `runServe`, `runOnce`, `runHTTPServe`, `main` and the tool-list and response marshalling (`buildToolsList`, `toolSuccessResult`, `toolErrorResult`, `mustMarshalResponse`) are not part of this model. They loop over the transport, serve HTTP, or format JSON.
- McpServer.ToolGroupSizes: states the group sizes `main.go` declares. `main_test.go` expects other counts (8 groups, 9 tools, other per-group sizes), which contradict `main.go`. The model follows `main.go`.
- `Handle` routes several whitelisted methods nowhere, for example `thread.child.directive`, `inbox.*` and `session.list`. They fall through to "unsupported method", and the model keeps that.
- Provider regular expressions are written out as predicates on one line of text, covering the patterns the providers compile. The unused `codexProcessing` pattern is not modelled. Regular-expression matching over a multi-line text with `(?m)` is modelled line by line, except where a `\s*` can run past a line end: the `\s*` of the Codex assistant label does, through `CodexProvider.ColonFrom`, and the `^\s*` of the idle-prompt pattern can only reach the last non-blank line, which `CodexProvider.IdleAtEnd` inspects.
- ProviderManager.Manager: the `sync.RWMutex` is not modelled. Each method is one atomic step.
- CoreStore.NextCase: SQL leaves the order of rows with equal `updated_at` unspecified. The model breaks such ties by the lowest id.
- CoreStore.ResumeNextCase: breaks ties as NextCase does.
- Thread and session reads that only return rows are not modelled: `GetThreadByID`, `ListThreads`, `GetSessionRootThread`, `GetReviewJobByID`, `GetSessionByID`, `GetWorktreeByID`, `ListWorktrees`, `ListTasks`, `GetTaskByID`, `GetGraphNodeByID`, `GetPlanningRule`, `ListActiveSessions`, `GetPendingDelegationSession`, `BuildSessionContext` and the row scanners. The model reads the tables directly.
- The store operations `CreateMergeRequest`, `GetMergeRequest`, `CreateSessionHandoff`, `CompleteSessionHandoff` and `AttachResumeCandidate` are not part of this model. They sit outside the store core modelled here.
- SQLite itself is not modelled: SQL text, migrations, `Open`, `Close` and the connection. Each transaction is one atomic method, and a failure rolls back everything it wrote. The inbox table and the session delegation columns, which `migrate` does not create, are modelled as the code that reads and writes them expects.
- Integers: Go's `int64` and `int` are unbounded `int`s. No id, counter or version is modelled as wrapping around.
- ThreadRuntime: `paneExists` is a total function, so a tmux error while listing panes is not modelled. `waitUntilStatus` is its result, a `WaitOutcome` parameter, without the polling loop or its timeout.
- ThreadRuntime: the remaining flows of `thread_runtime_flow.go` are not modelled: `ensureTmux` (with `tryInstallTmux`, `sudoPrefix` and `hasBinary`), `listChildThreads`, `interruptChildThread`, `stopChildThread`, `childThreadStatus`, `threadAttachInfo`, `requestAutoMergeReview`, `mergeReviewThreadStatus`, `ensureRootThreadRecord`, `ensureTmuxSession` and `createTmuxPane`. Of `spawnChildThreadInternal`, the model covers the launch command, the capacity check and the post-spawn status. The text of `defaultChildPrompt` and `defaultTaskSpecJSON` is not modelled.
- PaneRunner.ParseArgs: argparse is modelled only as far as the runner's five options go. Abbreviated option names, `--opt=value` forms, help and usage output are not modelled. `ParseInt` is Python's `int()` on ASCII digits with an optional sign; underscores and surrounding white space are not modelled.
- PaneRunner.ExecCodexFallback: the exec is the end of the model. A failed `os.execvp` raises `OSError` and is not modelled further, and neither is the `KeyboardInterrupt` handler's message and re-raise.
- The tmux client (`internal/tmux/client.go`) is a thin exec wrapper and is not part of this model.

## Findings

| source | as written | input that shows it | evidently intended | confidence | as-written member | corrected member |
|---|---|---|---|---|---|---|
| features/codex-collab-orchestrator/components/mcp/servers/codex-orchestrator/internal/orchestrator/service.go:489-511 | `merge.main.request` queues the main-merge request before it checks the auto-review setting. A refused auto-review returns an error, but the queued request stays behind. | `auto_review=true` with no `merge_request_id`, or `merge_request_id=0` alone, for a session that passes the delegation gate and a worktree with no unmerged children: the call fails with "merge_request_id is required when auto_review=true", and the queue has one more "queued" row. | Validate the auto-review setting first, so that a failed call leaves the queue as it was. | not executed | Service.MergeMainRequest, Service.AutoReviewWithoutIdRefused | Service.MergeMainRequestChecked |
| features/codex-collab-orchestrator/components/mcp/servers/codex-orchestrator/internal/provider/codex.go:79-81 | `ExtractLastResponse` tries to skip idle-prompt lines with `codexIdlePrompt.MatchString(line) && line == TrimSpace(ReplaceAll(line, ""))`. When the pattern matches, removing the match shortens the line, so the two can never be equal. The skip never happens, and a prompt line after the answer becomes part of the response. | The captured lines `assistant: done` and then `›`: the response is " done\n›" trimmed, that is "done\n›", not "done". | Pass over lines that hold only an idle prompt, so the response is the assistant's text alone. | not executed | CodexProvider.PromptSkipAsWrittenNeverHolds, CodexProvider.AsWrittenKeepsAll, CodexProvider.PromptLineKeptAsWritten | CodexProvider.ExtractLastResponse, CodexProvider.PromptLineSkipped, CodexProvider.ResponseBodyHasNoPromptLine |
