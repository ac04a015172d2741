/** The MCP face of the orchestrator: the nine `orch_*` tools that group its
  * methods, the index from a tool to the methods it admits, and the JSON-RPC
  * 2.0 dispatch of one request (notifications as in section 4.1, error codes
  * as in section 5.1 of the JSON-RPC 2.0 specification). JSON decoding and
  * the service's own handling of a method are parameters. */
module McpServer {
  import opened Text

  /** One `orch_*` tool and the service methods it can call. */
  datatype ToolGroup = ToolGroup(name: string, description: string, methods: seq<string>)

  const ProtocolVersion := "2024-11-05"

  /** `toolGroups`, in the order `tools/list` reports them. */
  const ToolGroups: seq<ToolGroup> := [
    ToolGroup("orch_session", "Session and workspace initialization management",
      ["workspace.init", "session.open", "session.heartbeat", "session.close", "session.cleanup", "session.list",
       "session.context"]),
    ToolGroup("orch_task", "Task lifecycle, case execution, and resume management",
      ["task.create", "task.list", "task.get", "case.begin", "step.check", "case.complete", "resume.next",
       "resume.candidates.list", "resume.candidates.attach"]),
    ToolGroup("orch_graph", "Dependency graph, checklists, and snapshots",
      ["graph.node.create", "graph.node.list", "graph.edge.create", "graph.checklist.upsert", "graph.snapshot.create"]),
    ToolGroup("orch_workspace", "Worktree scheduling, creation, merging, and lock management",
      ["scheduler.decide_worktree", "worktree.create", "worktree.list", "worktree.spawn", "worktree.merge_to_parent",
       "lock.acquire", "lock.heartbeat", "lock.release"]),
    ToolGroup("orch_thread", "Child thread spawning, directives, and lifecycle control",
      ["thread.child.spawn", "thread.child.directive", "thread.child.list", "thread.child.interrupt",
       "thread.child.stop", "thread.child.status", "thread.child.wait_status", "thread.attach_info"]),
    ToolGroup("orch_lifecycle", "Current work reference tracking and acknowledgement",
      ["work.current_ref", "work.current_ref.ack"]),
    ToolGroup("orch_merge", "Branch merge requests, reviews, and main-line merge operations",
      ["merge.request", "merge.review_context", "merge.review.request_auto", "merge.review.thread_status",
       "merge.main.request", "merge.main.next", "merge.main.status", "merge.main.acquire_lock",
       "merge.main.release_lock"]),
    ToolGroup("orch_inbox", "Thread-to-thread messaging: send, receive, and deliver messages",
      ["inbox.send", "inbox.pending", "inbox.list", "inbox.deliver"]),
    ToolGroup("orch_system", "Runtime, mirror, and plan management utilities",
      ["runtime.tmux.ensure", "runtime.bundle.info", "mirror.status", "mirror.refresh", "plan.bootstrap",
       "plan.slice.generate", "plan.slice.replan", "plan.rollup.preview", "plan.rollup.submit",
       "plan.rollup.approve", "plan.rollup.reject"])
  ]

  // ------------------------------------------------------------ the index

  function MethodSet(methods: seq<string>): (r: set<string>)
    ensures forall m :: m in r <==> m in methods
  {
    set m | m in methods
  }

  /** The map `init` builds: each group's name to the set of its methods, a
    * later group with the same name replacing an earlier one. */
  function IndexOf(groups: seq<ToolGroup>): (r: map<string, set<string>>)
    ensures forall n :: n in r <==> exists k :: 0 <= k < |groups| && groups[k].name == n
    decreases |groups|
  {
    if groups == [] then map[]
    else
      var init := IndexOf(groups[..|groups| - 1]);
      var g := groups[|groups| - 1];
      assert forall k :: 0 <= k < |groups| - 1 ==> groups[..|groups| - 1][k] == groups[k];
      init[g.name := MethodSet(g.methods)]
  }

  /** `init`: fills the method index group by group, each group's set
    * method by method. */
  method BuildMethodIndex(groups: seq<ToolGroup>) returns (index: map<string, set<string>>)
    ensures index == IndexOf(groups)
  {
    index := map[];
    var i := 0;
    while i < |groups|
      invariant 0 <= i <= |groups|
      invariant index == IndexOf(groups[..i])
    {
      var g := groups[i];
      var methodSet: set<string> := {};
      var j := 0;
      while j < |g.methods|
        invariant 0 <= j <= |g.methods|
        invariant methodSet == MethodSet(g.methods[..j])
      {
        assert g.methods[..j + 1] == g.methods[..j] + [g.methods[j]];
        methodSet := methodSet + {g.methods[j]};
        j := j + 1;
      }
      assert g.methods[..j] == g.methods;
      assert groups[..i + 1][..i] == groups[..i];
      index := index[g.name := methodSet];
      i := i + 1;
    }
    assert groups[..i] == groups;
  }

  predicate NamesDistinct(groups: seq<ToolGroup>) {
    forall i, j :: 0 <= i < j < |groups| ==> groups[i].name != groups[j].name
  }

  /** With distinct names, the index maps each group's name to exactly its
    * methods. */
  lemma {:induction false} IndexHoldsEachGroup(groups: seq<ToolGroup>, k: nat)
    requires NamesDistinct(groups) && k < |groups|
    ensures groups[k].name in IndexOf(groups)
    ensures IndexOf(groups)[groups[k].name] == MethodSet(groups[k].methods)
    decreases |groups|
  {
    var last := |groups| - 1;
    if k < last {
      var front := groups[..last];
      assert front[k] == groups[k];
      assert NamesDistinct(front) by {
        forall i, j | 0 <= i < j < |front| ensures front[i].name != front[j].name {
          assert front[i] == groups[i] && front[j] == groups[j];
        }
      }
      IndexHoldsEachGroup(front, k);
      assert groups[last].name != groups[k].name;
    }
  }

  /** Which group a listed method belongs to, read off its first letters. */
  function Owner(m: string): nat {
    if |m| < 5 then 99
    else if m[0] == 'w' then (if m[4] == 's' then 0 else if m[4] == 't' then 3 else 5)
    else if m[0] == 's' then (if m[1] == 'e' then 0 else if m[1] == 't' then 1 else 3)
    else if m[0] == 't' then (if m[1] == 'a' then 1 else 4)
    else if m[0] == 'c' then 1
    else if m[0] == 'r' then (if m[1] == 'e' then 1 else 8)
    else if m[0] == 'g' then 2
    else if m[0] == 'l' then 3
    else if m[0] == 'm' then (if m[1] == 'e' then 6 else 8)
    else if m[0] == 'i' then 7
    else if m[0] == 'p' then 8
    else 99
  }

  lemma OwnersOfGroups0To2()
    ensures forall i :: 0 <= i < |ToolGroups[0].methods| ==> Owner(ToolGroups[0].methods[i]) == 0
    ensures forall i :: 0 <= i < |ToolGroups[1].methods| ==> Owner(ToolGroups[1].methods[i]) == 1
    ensures forall i :: 0 <= i < |ToolGroups[2].methods| ==> Owner(ToolGroups[2].methods[i]) == 2
  {
  }

  lemma OwnersOfGroups3To5()
    ensures forall i :: 0 <= i < |ToolGroups[3].methods| ==> Owner(ToolGroups[3].methods[i]) == 3
    ensures forall i :: 0 <= i < |ToolGroups[4].methods| ==> Owner(ToolGroups[4].methods[i]) == 4
    ensures forall i :: 0 <= i < |ToolGroups[5].methods| ==> Owner(ToolGroups[5].methods[i]) == 5
  {
  }

  lemma OwnersOfGroups6To8()
    ensures forall i :: 0 <= i < |ToolGroups[6].methods| ==> Owner(ToolGroups[6].methods[i]) == 6
    ensures forall i :: 0 <= i < |ToolGroups[7].methods| ==> Owner(ToolGroups[7].methods[i]) == 7
    ensures forall i :: 0 <= i < |ToolGroups[8].methods| ==> Owner(ToolGroups[8].methods[i]) == 8
  {
  }

  /** Every method is listed under exactly the group its first letters name. */
  lemma OwnerOfListedMethod(k: nat, i: nat)
    requires k < |ToolGroups| && i < |ToolGroups[k].methods|
    ensures Owner(ToolGroups[k].methods[i]) == k
  {
    OwnersOfGroups0To2();
    OwnersOfGroups3To5();
    OwnersOfGroups6To8();
  }

  /** No method is listed in two groups, so a method routes to one tool. */
  lemma NoMethodInTwoGroups(k1: nat, k2: nat, m: string)
    requires k1 < |ToolGroups| && k2 < |ToolGroups| && k1 != k2
    ensures !(m in ToolGroups[k1].methods && m in ToolGroups[k2].methods)
  {
    if m in ToolGroups[k1].methods && m in ToolGroups[k2].methods {
      var i1 :| 0 <= i1 < |ToolGroups[k1].methods| && ToolGroups[k1].methods[i1] == m;
      var i2 :| 0 <= i2 < |ToolGroups[k2].methods| && ToolGroups[k2].methods[i2] == m;
      OwnerOfListedMethod(k1, i1);
      OwnerOfListedMethod(k2, i2);
    }
  }

  /** The tool names are distinct: their sixth and seventh letters differ. */
  lemma ToolNamesDistinct()
    ensures NamesDistinct(ToolGroups)
  {
    assert forall k :: 0 <= k < |ToolGroups| ==> |ToolGroups[k].name| >= 7;
    assert forall i, j :: 0 <= i < j < |ToolGroups| ==>
             ToolGroups[i].name[5] != ToolGroups[j].name[5] || ToolGroups[i].name[6] != ToolGroups[j].name[6];
  }

  /** The index of the method set each `orch_*` tool admits. */
  function MethodIndex(): map<string, set<string>> {
    IndexOf(ToolGroups)
  }

  /** The index admits, for each tool, exactly the methods its group lists. */
  lemma MethodIndexIsGroups(k: nat)
    requires k < |ToolGroups|
    ensures ToolGroups[k].name in MethodIndex()
    ensures forall m :: m in MethodIndex()[ToolGroups[k].name] <==> m in ToolGroups[k].methods
  {
    ToolNamesDistinct();
    IndexHoldsEachGroup(ToolGroups, k);
  }

  // ----------------------------------------------------------- dispatch

  /** A decoded JSON-RPC request; `id` is the request id's JSON text, none
    * when the request has no id (or a null one, which decodes the same). */
  datatype Request = Request(id: Option<string>, methodName: string, params: string)

  /** The decoded `tools/call` params and `orch_*` arguments. */
  datatype ToolCall = ToolCall(name: string, arguments: string)
  datatype CallArguments = CallArguments(methodName: string, params: string)

  /** The JSON decoding the dispatch relies on, each with its error text. */
  datatype Codec = Codec(request: string -> Result<Request>,
                         toolCall: string -> Result<ToolCall>,
                         callArguments: string -> Result<CallArguments>)

  /** A tool's result: an error shown to the model (`isError`), or the
    * service's result (its JSON text). */
  datatype ToolResult = ToolError(message: string) | ToolSuccess(json: string)

  datatype RpcError = RpcError(code: int, message: string)

  datatype Value =
    | InitializeResult(protocolVersion: string, serverName: string, serverVersion: string)
    | EmptyResult
    | ToolsList(tools: seq<ToolGroup>)
    | ToolCallResult(result: ToolResult)

  datatype Outcome = Success(result: Value) | Failure(error: RpcError)

  /** A response; an `id` of none is written as null. */
  datatype Reply = Reply(id: Option<string>, outcome: Outcome)

  /** `handleGroupToolCall`: the method is trimmed and must be one the tool
    * admits; empty params become `{}`; a service error becomes an error
    * result, not a protocol error. */
  function HandleGroupToolCall(index: map<string, set<string>>, toolName: string, arguments: string,
                               codec: Codec, handle: (string, string) -> Result<string>): (r: Result<ToolResult>)
    ensures codec.callArguments(arguments).Err? ==>
              r == Err("invalid " + toolName + " arguments: " + codec.callArguments(arguments).msg)
    ensures codec.callArguments(arguments).Ok? ==>
              var methodName, params := TrimSpace(codec.callArguments(arguments).value.methodName),
                                    codec.callArguments(arguments).value.params;
              && (r.Err? <==> methodName == "")
              && (methodName != "" && (toolName !in index || methodName !in index[toolName]) ==>
                    r == Ok(ToolError("method '" + methodName + "' is not valid for tool '" + toolName + "'")))
              && (r.Ok? && r.value.ToolSuccess? ==>
                    toolName in index && methodName in index[toolName]
                    && handle(methodName, if TrimSpace(params) == "" then "{}" else params) == Ok(r.value.json))
  {
    match codec.callArguments(arguments)
    case Err(e) => Err("invalid " + toolName + " arguments: " + e)
    case Ok(args) =>
      var methodName := TrimSpace(args.methodName);
      if methodName == "" then Err(toolName + " requires arguments.method")
      else if toolName !in index || methodName !in index[toolName] then
        Ok(ToolError("method '" + methodName + "' is not valid for tool '" + toolName + "'"))
      else
        var params := if TrimSpace(args.params) == "" then "{}" else args.params;
        match handle(methodName, params)
        case Err(e) => Ok(ToolError(e))
        case Ok(v) => Ok(ToolSuccess(v))
  }

  /** `handleToolCall`: params are required and must decode; a name that is
    * not an `orch_*` tool is an error result, not a protocol error. */
  function HandleToolCall(index: map<string, set<string>>, rawParams: string, codec: Codec,
                          handle: (string, string) -> Result<string>): (r: Result<ToolResult>)
    ensures TrimSpace(rawParams) == "" ==> r == Err("tools/call params are required")
    ensures TrimSpace(rawParams) != "" && codec.toolCall(rawParams).Ok? &&
            codec.toolCall(rawParams).value.name !in index ==>
              r == Ok(ToolError("unknown tool: " + codec.toolCall(rawParams).value.name))
    ensures TrimSpace(rawParams) != "" && codec.toolCall(rawParams).Ok? &&
            codec.toolCall(rawParams).value.name in index ==>
              r == HandleGroupToolCall(index, codec.toolCall(rawParams).value.name,
                                       codec.toolCall(rawParams).value.arguments, codec, handle)
  {
    if TrimSpace(rawParams) == "" then Err("tools/call params are required")
    else match codec.toolCall(rawParams)
      case Err(e) => Err("invalid tools/call params: " + e)
      case Ok(call) =>
        if call.name in index then HandleGroupToolCall(index, call.name, call.arguments, codec, handle)
        else Ok(ToolError("unknown tool: " + call.name))
  }

  /** The methods the server answers itself or through a tool. */
  predicate IsKnownMethod(methodName: string) {
    methodName == "initialize" || methodName == "ping" || methodName == "tools/list" || methodName == "tools/call"
  }

  /** `handleMCPPayload`: the reply to one payload, none for a notification.
    * `index` is `toolGroupMethodIndex`, the map `BuildMethodIndex` makes of
    * `ToolGroups`. */
  function HandlePayload(index: map<string, set<string>>, payload: string, codec: Codec,
                         handle: (string, string) -> Result<string>): (r: Option<Reply>)
    ensures codec.request(payload).Err? ==>
              r == Some(Reply(None, Failure(RpcError(-32700, "invalid JSON-RPC request"))))
    ensures codec.request(payload).Ok? ==>
              var req := codec.request(payload).value;
              && (r.None? <==> TrimSpace(req.methodName) != "" && req.id.None?)
              && (r.Some? ==> r.value.id == req.id)
              && (TrimSpace(req.methodName) == "" ==> r == Some(Reply(req.id, Failure(RpcError(-32600, "method is required")))))
              && (r.Some? && TrimSpace(req.methodName) != "" ==>
                   (r.value.outcome == Failure(RpcError(-32601, "method not found: " + req.methodName)) <==>
                    !IsKnownMethod(req.methodName)))
              && (r.Some? && req.methodName == "tools/call" ==>
                   (r.value.outcome.Failure? <==> HandleToolCall(index, req.params, codec, handle).Err?)
                   && (r.value.outcome.Failure? ==> r.value.outcome.error.code == -32000))
    ensures codec.request(payload).Ok? && codec.request(payload).value.id.Some? ==>
              var req := codec.request(payload).value;
              && (req.methodName == "initialize" ==>
                    r == Some(Reply(req.id, Success(InitializeResult(ProtocolVersion, "codex-orchestrator", "0.1.0")))))
              && (req.methodName == "ping" ==> r == Some(Reply(req.id, Success(EmptyResult))))
              && (req.methodName == "tools/list" ==> r == Some(Reply(req.id, Success(ToolsList(ToolGroups)))))
              && (req.methodName == "tools/call" && HandleToolCall(index, req.params, codec, handle).Ok? ==>
                    r == Some(Reply(req.id, Success(ToolCallResult(HandleToolCall(index, req.params, codec, handle).value)))))
  {
    match codec.request(payload)
    case Err(_) => Some(Reply(None, Failure(RpcError(-32700, "invalid JSON-RPC request"))))
    case Ok(req) =>
      if TrimSpace(req.methodName) == "" then Some(Reply(req.id, Failure(RpcError(-32600, "method is required"))))
      else if req.id.None? then None
      else
        var outcome :=
          if req.methodName == "initialize" then Success(InitializeResult(ProtocolVersion, "codex-orchestrator", "0.1.0"))
          else if req.methodName == "ping" then Success(EmptyResult)
          else if req.methodName == "tools/list" then Success(ToolsList(ToolGroups))
          else if req.methodName == "tools/call" then
            (match HandleToolCall(index, req.params, codec, handle)
             case Err(e) => Failure(RpcError(-32000, e))
             case Ok(t) => Success(ToolCallResult(t)))
          else Failure(RpcError(-32601, "method not found: " + req.methodName));
        Some(Reply(req.id, outcome))
  }

  /** `tools/list` lists nine tools, and their method counts are 7, 9, 5, 8,
    * 8, 2, 9, 4 and 11. */
  lemma ToolGroupSizes()
    ensures |ToolGroups| == 9
    ensures |ToolGroups[0].methods| == 7 && |ToolGroups[1].methods| == 9 && |ToolGroups[2].methods| == 5
    ensures |ToolGroups[3].methods| == 8 && |ToolGroups[4].methods| == 8 && |ToolGroups[5].methods| == 2
    ensures |ToolGroups[6].methods| == 9 && |ToolGroups[7].methods| == 4 && |ToolGroups[8].methods| == 11
  {
  }
}
