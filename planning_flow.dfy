/** The planning tools of the orchestrator: bootstrapping an initiative with
  * its plan, generating slices under a plan, recording a replan, and
  * submitting a roll-up for approval. Each store call is its own
  * transaction, so a flow that fails half-way keeps what it already wrote. */
module PlanningFlow {
  import opened Text
  import opened StoreSchema
  import opened PlanningStore
  import opened SessionFlow

  /* The fixed words the flows write are their own trimmed form and not
     blank. Each word has a lemma of its own: a caller then sees only the
     two facts it needs, while unfolding `TrimSpace` on several literals
     inside one flow's proof runs it out of resource. */

  lemma InProgressWord() ensures TrimSpace("in_progress") == "in_progress" && !IsBlank("in_progress")
  {
    TrimmedWord("in_progress");
    WordNotBlank("in_progress");
  }

  lemma TodoWord() ensures TrimSpace("todo") == "todo" && !IsBlank("todo")
  {
    TrimmedWord("todo");
    WordNotBlank("todo");
  }

  lemma PlanningWord() ensures TrimSpace("planning") == "planning" && !IsBlank("planning")
  {
    TrimmedWord("planning");
    WordNotBlank("planning");
  }

  /** A text with no white space at either end is stored as written. */
  lemma NullableWord(s: string)
    requires s != [] && !IsSpace(s[0]) && !IsSpace(s[|s| - 1])
    ensures NullableText(s) == Some(s)
  {
    TrimSpaceUnchanged(s);
  }

  /** The affected-files column for a list of files: the literal "[]" for
    * none, otherwise the encoded list unless it is blank. */
  function FilesText(files: seq<string>, encode: seq<string> -> string): Option<string> {
    if files == [] then Some("[]") else NullableText(encode(files))
  }

  lemma FilesTextStored(files: seq<string>, encode: seq<string> -> string)
    ensures NullableText(MarshalStringSlice(files, encode)) == FilesText(files, encode)
  {
    if files == [] {
      NullableWord("[]");
    }
  }

  lemma ContainsIsWord()
    ensures TrimSpace("contains") == "contains" && !IsBlank("contains")
  {
    TrimmedWord("contains");
    WordNotBlank("contains");
  }

  /** `CreateGraphNode` for a node whose type is given and whose stored row
    * is known: only a blank title can refuse it. */
  method CreateKnownNode(st: Store, args: GraphNodeCreateArgs, row: GraphNode, now: int) returns (r: Result<int>)
    requires st.Valid() && !IsBlank(args.nodeType) && CreatedNode(args, now) == row
    modifies st`nodes, st`dbVersion, st`mirrorUpdatedAt
    ensures st.Valid()
    ensures r.Ok? <==> !IsBlank(args.title)
    ensures r.Err? ==> r.msg == "title is required" && st.nodes == old(st.nodes) && st.NotBumped()
    ensures r.Ok? ==> r.value == old(st.nodes.lastId) + 1 && st.nodes == old(st.nodes).Insert(row) && st.Bumped(now)
  {
    r := CreateGraphNode(st, args, now);
  }

  /** `CreateGraphEdge` of a "contains" edge between two existing ids: it
    * cannot be refused. */
  method CreateContainsEdge(st: Store, fromNode: int, toNode: int, now: int) returns (id: int)
    requires st.Valid() && fromNode > 0 && toNode > 0
    modifies st`edges, st`dbVersion, st`mirrorUpdatedAt
    ensures st.Valid()
    ensures id == old(st.edges.lastId) + 1
    ensures st.edges == old(st.edges).Insert(GraphEdge(fromNode, toNode, "contains", now)) && st.Bumped(now)
  {
    ContainsIsWord();
    var r := CreateGraphEdge(st, fromNode, toNode, "contains", now);
    id := r.value;
  }

  // ------------------------------------------------------------ bootstrap

  datatype BootstrapInput = BootstrapInput(
    initiativeTitle: string, planTitle: string, priority: int, owner: Option<int>, summary: string)

  datatype Bootstrapped = Bootstrapped(initiative: int, plan: int, edge: int)

  /** The initiative node `planBootstrap` asks for. */
  function InitiativeArgs(input: BootstrapInput): GraphNodeCreateArgs {
    GraphNodeCreateArgs("initiative", "planning", input.initiativeTitle, "in_progress", input.priority,
                        None, None, input.owner, input.summary, None, None, "", "")
  }

  /** The plan node `planBootstrap` asks for, under the initiative. */
  function PlanArgs(input: BootstrapInput, initiative: int): GraphNodeCreateArgs {
    GraphNodeCreateArgs("plan", "planning", input.planTitle, "todo", input.priority,
                        Some(initiative), None, input.owner, "", None, None, "", "")
  }

  /** The initiative row: in progress, in the planning facet, with no
    * parent and no approval requested. */
  function InitiativeNode(input: BootstrapInput, now: int): GraphNode {
    GraphNode("initiative", "planning", input.initiativeTitle, "in_progress", input.priority, None, None,
              input.owner, NullableText(input.summary), None, None, None, "none", now, now)
  }

  /** The plan row: a to-do child of the initiative in the planning facet. */
  function PlanNode(input: BootstrapInput, initiative: int, now: int): GraphNode {
    GraphNode("plan", "planning", input.planTitle, "todo", input.priority, Some(initiative), None,
              input.owner, None, None, None, None, "none", now, now)
  }

  /** What the store keeps for the initiative `planBootstrap` asks for. */
  lemma InitiativeStored(input: BootstrapInput, now: int)
    ensures CreatedNode(InitiativeArgs(input), now) == InitiativeNode(input, now)
  {
    InProgressWord();
    PlanningWord();
    assert IsBlank("");
  }

  /** What the store keeps for the plan `planBootstrap` asks for. */
  lemma PlanStored(input: BootstrapInput, initiative: int, now: int)
    ensures CreatedNode(PlanArgs(input, initiative), now) == PlanNode(input, initiative, now)
  {
    TodoWord();
    PlanningWord();
    assert IsBlank("");
  }

  /** Each node is refused exactly when its title is blank. */
  lemma BootstrapValidation(input: BootstrapInput, initiative: int)
    ensures ValidateGraphNode(InitiativeArgs(input)).None? <==> !IsBlank(input.initiativeTitle)
    ensures ValidateGraphNode(PlanArgs(input, initiative)).None? <==> !IsBlank(input.planTitle)
    ensures IsBlank(input.initiativeTitle) ==> ValidateGraphNode(InitiativeArgs(input)) == Some("title is required")
    ensures IsBlank(input.planTitle) ==> ValidateGraphNode(PlanArgs(input, initiative)) == Some("title is required")
  {
    WordNotBlank("initiative");
    WordNotBlank("plan");
  }

  method CreateInitiative(st: Store, input: BootstrapInput, now: int) returns (r: Result<int>)
    requires st.Valid()
    modifies st`nodes, st`dbVersion, st`mirrorUpdatedAt
    ensures st.Valid()
    ensures r.Ok? <==> !IsBlank(input.initiativeTitle)
    ensures r.Err? ==> r.msg == "title is required" && st.nodes == old(st.nodes) && st.NotBumped()
    ensures r.Ok? ==>
      r.value == old(st.nodes.lastId) + 1 && st.nodes == old(st.nodes).Insert(InitiativeNode(input, now)) && st.Bumped(now)
  {
    WordNotBlank("initiative");
    InitiativeStored(input, now);
    r := CreateKnownNode(st, InitiativeArgs(input), InitiativeNode(input, now), now);
  }

  method CreatePlan(st: Store, input: BootstrapInput, initiative: int, now: int) returns (r: Result<int>)
    requires st.Valid()
    modifies st`nodes, st`dbVersion, st`mirrorUpdatedAt
    ensures st.Valid()
    ensures r.Ok? <==> !IsBlank(input.planTitle)
    ensures r.Err? ==> r.msg == "title is required" && st.nodes == old(st.nodes) && st.NotBumped()
    ensures r.Ok? ==>
      r.value == old(st.nodes.lastId) + 1
      && st.nodes == old(st.nodes).Insert(PlanNode(input, initiative, now)) && st.Bumped(now)
  {
    WordNotBlank("plan");
    PlanStored(input, initiative, now);
    r := CreateKnownNode(st, PlanArgs(input, initiative), PlanNode(input, initiative, now), now);
  }

  /** The initiative, then the plan under it; a refused plan leaves the
    * initiative in place. */
  method BootstrapNodes(st: Store, input: BootstrapInput, now: int) returns (r: Result<int>)
    requires st.Valid()
    modifies st`nodes, st`dbVersion, st`mirrorUpdatedAt
    ensures st.Valid()
    ensures r.Ok? <==> !IsBlank(input.initiativeTitle) && !IsBlank(input.planTitle)
    ensures r.Err? ==> r.msg == "title is required"
    ensures IsBlank(input.initiativeTitle) ==> st.nodes == old(st.nodes) && st.NotBumped()
    ensures !IsBlank(input.initiativeTitle) && IsBlank(input.planTitle) ==>
      st.nodes == old(st.nodes).Insert(InitiativeNode(input, now)) && st.Bumped(now)
    ensures r.Ok? ==>
      r.value == old(st.nodes.lastId) + 1
      && st.nodes == old(st.nodes).Insert(InitiativeNode(input, now)).Insert(PlanNode(input, r.value, now))
      && st.dbVersion == old(st.dbVersion) + 2 && st.mirrorUpdatedAt == now
  {
    var initiative := CreateInitiative(st, input, now);
    if initiative.Err? {
      return Err(initiative.msg);
    }
    var plan := CreatePlan(st, input, initiative.value, now);
    if plan.Err? {
      return Err(plan.msg);
    }
    r := Ok(initiative.value);
  }

  /** `planBootstrap`: both titles must be given; then the initiative, the
    * plan under it and a "contains" edge between them, each in its own
    * transaction. A title that is only white space passes the first check
    * and is refused by the store; a refused plan leaves the initiative. */
  method PlanBootstrap(st: Store, input: BootstrapInput, now: int) returns (r: Result<Bootstrapped>)
    requires st.Valid()
    modifies st`nodes, st`edges, st`dbVersion, st`mirrorUpdatedAt
    ensures st.Valid()
    ensures input.initiativeTitle == "" ==> r == Err("initiative_title is required")
    ensures input.initiativeTitle != "" && input.planTitle == "" ==> r == Err("plan_title is required")
    ensures input.initiativeTitle != "" && input.planTitle != ""
            && (IsBlank(input.initiativeTitle) || IsBlank(input.planTitle))
            ==> r == Err("title is required")
    ensures r.Ok? <==> !IsBlank(input.initiativeTitle) && !IsBlank(input.planTitle)
    ensures IsBlank(input.initiativeTitle) || input.planTitle == "" ==>
      st.nodes == old(st.nodes) && st.edges == old(st.edges) && st.NotBumped()
    ensures !IsBlank(input.initiativeTitle) && input.planTitle != "" && IsBlank(input.planTitle) ==>
      st.nodes == old(st.nodes).Insert(InitiativeNode(input, now))
      && st.edges == old(st.edges) && st.Bumped(now)
    ensures r.Ok? ==>
      var initiative := old(st.nodes.lastId) + 1;
      r.value == Bootstrapped(initiative, initiative + 1, old(st.edges.lastId) + 1)
      && st.nodes == old(st.nodes).Insert(InitiativeNode(input, now)).Insert(PlanNode(input, initiative, now))
      && st.edges == old(st.edges).Insert(GraphEdge(initiative, initiative + 1, "contains", now))
      && st.dbVersion == old(st.dbVersion) + 3 && st.mirrorUpdatedAt == now
  {
    if input.initiativeTitle == "" {
      return Err("initiative_title is required");
    }
    if input.planTitle == "" {
      return Err("plan_title is required");
    }
    r := BootstrapGraph(st, input, now);
  }

  /** The writes of `planBootstrap` once both titles are given. */
  method BootstrapGraph(st: Store, input: BootstrapInput, now: int) returns (r: Result<Bootstrapped>)
    requires st.Valid()
    modifies st`nodes, st`edges, st`dbVersion, st`mirrorUpdatedAt
    ensures st.Valid()
    ensures r.Ok? <==> !IsBlank(input.initiativeTitle) && !IsBlank(input.planTitle)
    ensures r.Err? ==> r.msg == "title is required" && st.edges == old(st.edges)
    ensures IsBlank(input.initiativeTitle) ==> st.nodes == old(st.nodes) && st.NotBumped()
    ensures !IsBlank(input.initiativeTitle) && IsBlank(input.planTitle) ==>
      st.nodes == old(st.nodes).Insert(InitiativeNode(input, now)) && st.Bumped(now)
    ensures r.Ok? ==>
      var initiative := old(st.nodes.lastId) + 1;
      r.value == Bootstrapped(initiative, initiative + 1, old(st.edges.lastId) + 1)
      && st.nodes == old(st.nodes).Insert(InitiativeNode(input, now)).Insert(PlanNode(input, initiative, now))
      && st.edges == old(st.edges).Insert(GraphEdge(initiative, initiative + 1, "contains", now))
      && st.dbVersion == old(st.dbVersion) + 3 && st.mirrorUpdatedAt == now
  {
    var initiative := BootstrapNodes(st, input, now);
    if initiative.Ok? {
      ghost var nodes1 := st.nodes;
      var edge := CreateContainsEdge(st, initiative.value, initiative.value + 1, now);
      assert st.nodes == nodes1 && initiative.value == old(st.nodes.lastId) + 1;
      assert edge == old(st.edges.lastId) + 1 && st.dbVersion == old(st.dbVersion) + 3;
      r := Ok(Bootstrapped(initiative.value, initiative.value + 1, edge));
    } else {
      r := Err(initiative.msg);
    }
  }

  // -------------------------------------------------------- slice generate

  datatype SliceSpec = SliceSpec(
    title: string, priority: int, tokenEstimate: int, affectedFiles: seq<string>, summary: string)

  datatype SliceGenerateInput = SliceGenerateInput(planNodeId: int, owner: Option<int>, specs: seq<SliceSpec>)

  datatype SlicesCreated = SlicesCreated(planNodeId: int, slices: seq<int>, edges: seq<int>)

  /** The slice node `planSliceGenerate` asks for: a to-do child of the plan,
    * with a token estimate only when the spec's is positive. */
  function SliceArgs(planId: int, owner: Option<int>, spec: SliceSpec, encode: seq<string> -> string): GraphNodeCreateArgs {
    GraphNodeCreateArgs("slice", "planning", spec.title, "todo", spec.priority, Some(planId), None, owner,
                        spec.summary, None, if spec.tokenEstimate > 0 then Some(spec.tokenEstimate) else None,
                        MarshalStringSlice(spec.affectedFiles, encode), "")
  }

  /** A slice node is refused exactly when its title is blank. */
  lemma SliceValidation(planId: int, owner: Option<int>, spec: SliceSpec, encode: seq<string> -> string)
    ensures ValidateGraphNode(SliceArgs(planId, owner, spec, encode)).None? <==> !IsBlank(spec.title)
    ensures IsBlank(spec.title) ==> ValidateGraphNode(SliceArgs(planId, owner, spec, encode)) == Some("title is required")
  {
    WordNotBlank("slice");
  }

  /** The slice row: a to-do child of the plan in the planning facet, with
    * the spec's title, priority and summary, and a token estimate only when
    * the spec's estimate is positive. */
  function SliceNode(planId: int, owner: Option<int>, spec: SliceSpec, encode: seq<string> -> string, now: int): GraphNode {
    GraphNode("slice", "planning", spec.title, "todo", spec.priority, Some(planId), None, owner,
              NullableText(spec.summary), None, if spec.tokenEstimate > 0 then Some(spec.tokenEstimate) else None,
              FilesText(spec.affectedFiles, encode), "none", now, now)
  }

  /** What the store keeps for the slice `planSliceGenerate` asks for. */
  lemma SliceStored(planId: int, owner: Option<int>, spec: SliceSpec, encode: seq<string> -> string, now: int)
    ensures CreatedNode(SliceArgs(planId, owner, spec, encode), now) == SliceNode(planId, owner, spec, encode, now)
  {
    TodoWord();
    PlanningWord();
    FilesTextStored(spec.affectedFiles, encode);
    assert IsBlank("");
  }

  /** The row stored for each slice spec of one run. */
  function SliceRowOf(planId: int, owner: Option<int>, encode: seq<string> -> string, now: int): (row: SliceSpec -> GraphNode)
    ensures forall spec :: row(spec) == SliceNode(planId, owner, spec, encode, now)
  {
    spec => SliceNode(planId, owner, spec, encode, now)
  }

  /** The edges table after "contains" edges from the plan to `n` slices
    * numbered from `firstSlice` were inserted in order. */
  function ContainsTable(edges: Table<GraphEdge>, planId: int, firstSlice: int, n: nat, now: int): Table<GraphEdge> {
    if n == 0 then edges
    else ContainsTable(edges, planId, firstSlice, n - 1, now).Insert(GraphEdge(planId, firstSlice + n - 1, "contains", now))
  }

  /** Edge `lastId + 1 + i` links the plan to slice `firstSlice + i`; the
    * edges already there are untouched and nothing else is added. */
  lemma {:induction false} ContainsTableAt(edges: Table<GraphEdge>, planId: int, firstSlice: int, n: nat, now: int)
    requires edges.Valid()
    ensures var t := ContainsTable(edges, planId, firstSlice, n, now);
      t.Valid() && t.lastId == edges.lastId + n
      && (forall id :: id in edges.rows ==> id in t.rows && t.rows[id] == edges.rows[id])
      && (forall id :: edges.lastId < id <= edges.lastId + n ==>
            id in t.rows && t.rows[id] == GraphEdge(planId, firstSlice + (id - edges.lastId - 1), "contains", now))
      && (forall id :: id in t.rows ==> id in edges.rows || edges.lastId < id <= edges.lastId + n)
  {
    if n > 0 {
      ContainsTableAt(edges, planId, firstSlice, n - 1, now);
      InsertFresh(ContainsTable(edges, planId, firstSlice, n - 1, now), GraphEdge(planId, firstSlice + n - 1, "contains", now));
    }
  }

  /** `ids` are the `n` consecutive ids `first`, `first + 1`, ... */
  predicate Consecutive(ids: seq<int>, first: int, n: nat) {
    |ids| == n && forall j :: 0 <= j < n ==> ids[j] == first + j
  }

  lemma ConsecutiveSnoc(ids: seq<int>, first: int, n: nat, next: int)
    requires Consecutive(ids, first, n) && next == first + n
    ensures Consecutive(ids + [next], first, n + 1)
  {
  }

  /** How many specs, from the front, have a non-blank title: the slices a
    * run creates before it stops. */
  function CleanPrefix(specs: seq<SliceSpec>): (k: nat)
    ensures k <= |specs|
    decreases |specs|
  {
    if specs == [] || IsBlank(specs[0].title) then 0 else 1 + CleanPrefix(specs[1..])
  }

  /** The clean prefix is the longest run of specs with non-blank titles:
    * every spec in it is clean and the spec right after it is not. */
  lemma {:induction false} CleanPrefixMaximal(specs: seq<SliceSpec>)
    ensures forall i :: 0 <= i < CleanPrefix(specs) ==> !IsBlank(specs[i].title)
    ensures CleanPrefix(specs) < |specs| ==> IsBlank(specs[CleanPrefix(specs)].title)
    decreases |specs|
  {
    if specs != [] && !IsBlank(specs[0].title) {
      CleanPrefixMaximal(specs[1..]);
      forall i | 1 <= i < CleanPrefix(specs)
        ensures !IsBlank(specs[i].title)
      {
        assert specs[i] == specs[1..][i - 1];
      }
      if CleanPrefix(specs) < |specs| {
        assert specs[CleanPrefix(specs)] == specs[1..][CleanPrefix(specs[1..])];
      }
    }
  }

  /** Within the clean prefix, the next spec is clean exactly when the
    * prefix goes on past it. */
  lemma CleanPrefixStep(specs: seq<SliceSpec>, i: nat)
    requires i < |specs| && i <= CleanPrefix(specs)
    ensures !IsBlank(specs[i].title) <==> i < CleanPrefix(specs)
  {
    CleanPrefixMaximal(specs);
  }

  /** The message a run stops with at a spec with a blank title: the flow's
    * own check catches an empty title, the store's a blank one. */
  function BlankTitleError(spec: SliceSpec): string {
    if spec.title == "" then "slice_specs[].title is required" else "title is required"
  }

  lemma EmptyTitle(spec: SliceSpec)
    requires spec.title == ""
    ensures IsBlank(spec.title) && BlankTitleError(spec) == "slice_specs[].title is required"
  {
  }

  method CreateSlice(st: Store, planId: int, owner: Option<int>, spec: SliceSpec, encode: seq<string> -> string, now: int)
    returns (r: Result<int>)
    requires st.Valid()
    modifies st`nodes, st`dbVersion, st`mirrorUpdatedAt
    ensures st.Valid()
    ensures r.Ok? <==> !IsBlank(spec.title)
    ensures r.Err? ==> r.msg == "title is required" && st.nodes == old(st.nodes) && st.NotBumped()
    ensures r.Ok? ==>
      r.value == old(st.nodes.lastId) + 1
      && st.nodes == old(st.nodes).Insert(SliceNode(planId, owner, spec, encode, now)) && st.Bumped(now)
  {
    WordNotBlank("slice");
    SliceStored(planId, owner, spec, encode, now);
    r := CreateKnownNode(st, SliceArgs(planId, owner, spec, encode), SliceNode(planId, owner, spec, encode, now), now);
  }

  /** One pass of the loop: the slice node, then its edge. */
  method AddSlice(st: Store, planId: int, owner: Option<int>, spec: SliceSpec, encode: seq<string> -> string, now: int)
    returns (r: Result<int>)
    requires st.Valid() && planId > 0 && spec.title != ""
    modifies st`nodes, st`edges, st`dbVersion, st`mirrorUpdatedAt
    ensures st.Valid()
    ensures r.Ok? <==> !IsBlank(spec.title)
    ensures r.Err? ==>
      r.msg == "title is required" && st.nodes == old(st.nodes) && st.edges == old(st.edges) && st.NotBumped()
    ensures r.Ok? ==>
      r.value == old(st.nodes.lastId) + 1
      && st.nodes == old(st.nodes).Insert(SliceNode(planId, owner, spec, encode, now))
      && st.edges == old(st.edges).Insert(GraphEdge(planId, r.value, "contains", now))
      && st.dbVersion == old(st.dbVersion) + 2 && st.mirrorUpdatedAt == now
  {
    var node := CreateSlice(st, planId, owner, spec, encode, now);
    if node.Err? {
      return Err(node.msg);
    }
    var _ := CreateContainsEdge(st, planId, node.value, now);
    r := Ok(node.value);
  }

  lemma ContainsTableSnoc(edges: Table<GraphEdge>, planId: int, firstSlice: int, n: nat, now: int)
    ensures ContainsTable(edges, planId, firstSlice, n + 1, now)
         == ContainsTable(edges, planId, firstSlice, n, now).Insert(GraphEdge(planId, firstSlice + n, "contains", now))
  {
  }

  /** The node and edge tables after the first `n` specs became slices,
    * each with its "contains" edge. */
  predicate SliceTables(input: SliceGenerateInput, encode: seq<string> -> string, now: int,
                        nodes0: Table<GraphNode>, edges0: Table<GraphEdge>, n: nat,
                        nodes: Table<GraphNode>, edges: Table<GraphEdge>)
    requires n <= |input.specs|
  {
    && nodes == InsertEach(nodes0, SliceRowOf(input.planNodeId, input.owner, encode, now), input.specs[..n])
    && edges == ContainsTable(edges0, input.planNodeId, nodes0.lastId + 1, n, now)
    && nodes.lastId == nodes0.lastId + n && edges.lastId == edges0.lastId + n
  }

  /** One more pass extends the tables by spec `i`'s slice and its edge. */
  lemma SliceTablesStep(input: SliceGenerateInput, encode: seq<string> -> string, now: int, i: nat,
                        nodes0: Table<GraphNode>, edges0: Table<GraphEdge>,
                        nodes: Table<GraphNode>, edges: Table<GraphEdge>,
                        nodes': Table<GraphNode>, edges': Table<GraphEdge>)
    requires i < |input.specs|
    requires SliceTables(input, encode, now, nodes0, edges0, i, nodes, edges)
    requires nodes' == nodes.Insert(SliceNode(input.planNodeId, input.owner, input.specs[i], encode, now))
    requires edges' == edges.Insert(GraphEdge(input.planNodeId, nodes0.lastId + 1 + i, "contains", now))
    ensures SliceTables(input, encode, now, nodes0, edges0, i + 1, nodes', edges')
  {
    InsertEachSnoc(nodes0, SliceRowOf(input.planNodeId, input.owner, encode, now), input.specs, i);
    ContainsTableSnoc(edges0, input.planNodeId, nodes0.lastId + 1, i, now);
  }

  /** Where a `planSliceGenerate` run stands after its first `n` specs: each
    * became a slice, in order, with its "contains" edge. The body is
    * compared with `true` so that the verifier treats it as one fact instead
    * of splitting the conjunction into separate goals at every use; split,
    * the proof of GenerateStep runs out of resource. */
  predicate SlicesMade(st: Store, input: SliceGenerateInput, encode: seq<string> -> string, now: int,
                       nodes0: Table<GraphNode>, edges0: Table<GraphEdge>, version0: int,
                       n: nat)
    reads st
  {
    (n <= |input.specs|
     && (forall j :: 0 <= j < n ==> !IsBlank(input.specs[j].title))
     && st.Valid()
     && SliceTables(input, encode, now, nodes0, edges0, n, st.nodes, st.edges)
     && st.dbVersion == version0 + 2 * n) == true
  }

  /** One pass of the loop: spec `n` either stops the run, leaving the state
    * as it was, or becomes slice and edge number `n`, whose ids are appended. */
  method GenerateStep(st: Store, input: SliceGenerateInput, encode: seq<string> -> string, now: int,
                      ghost nodes0: Table<GraphNode>, ghost edges0: Table<GraphEdge>, ghost version0: int,
                      n: nat, slices: seq<int>, edges: seq<int>)
    returns (stop: Option<string>, slices': seq<int>, edges': seq<int>)
    requires input.planNodeId > 0 && n < |input.specs|
    requires SlicesMade(st, input, encode, now, nodes0, edges0, version0, n)
    requires Consecutive(slices, nodes0.lastId + 1, n) && Consecutive(edges, edges0.lastId + 1, n)
    modifies st`nodes, st`edges, st`dbVersion, st`mirrorUpdatedAt
    ensures stop.Some? ==>
      IsBlank(input.specs[n].title) && stop.value == BlankTitleError(input.specs[n])
      && SlicesMade(st, input, encode, now, nodes0, edges0, version0, n)
    ensures stop.None? ==>
      SlicesMade(st, input, encode, now, nodes0, edges0, version0, n + 1)
      && Consecutive(slices', nodes0.lastId + 1, n + 1) && Consecutive(edges', edges0.lastId + 1, n + 1)
  {
    slices', edges' := slices, edges;
    if input.specs[n].title == "" {
      EmptyTitle(input.specs[n]);
      return Some("slice_specs[].title is required"), slices', edges';
    }
    ghost var nodesBefore, edgesBefore := st.nodes, st.edges;
    var added := AddSlice(st, input.planNodeId, input.owner, input.specs[n], encode, now);
    if added.Err? {
      return Some(added.msg), slices', edges';
    }
    assert added.value == nodes0.lastId + 1 + n;
    SliceTablesStep(input, encode, now, n, nodes0, edges0, nodesBefore, edgesBefore, st.nodes, st.edges);
    ConsecutiveSnoc(slices, nodes0.lastId + 1, n, added.value);
    ConsecutiveSnoc(edges, edges0.lastId + 1, n, st.edges.lastId);
    slices', edges' := slices + [added.value], edges + [st.edges.lastId];
    stop := None;
  }

  /** The loop of `planSliceGenerate`, from tables `nodes0` and `edges0`:
    * specs are turned into slices and edges in order until one has a blank
    * title; `created` of them were. */
  method GenerateSlices(st: Store, input: SliceGenerateInput, encode: seq<string> -> string, now: int,
                        ghost nodes0: Table<GraphNode>, ghost edges0: Table<GraphEdge>, ghost version0: int)
    returns (r: Result<SlicesCreated>, created: nat)
    requires st.Valid() && input.planNodeId > 0
    requires st.nodes == nodes0 && st.edges == edges0 && st.dbVersion == version0
    modifies st`nodes, st`edges, st`dbVersion, st`mirrorUpdatedAt
    ensures created <= |input.specs|
    ensures created < |input.specs| ==> IsBlank(input.specs[created].title) && r == Err(BlankTitleError(input.specs[created]))
    ensures created == |input.specs| ==> r.Ok? && r.value.planNodeId == input.planNodeId
    ensures r.Ok? ==> Consecutive(r.value.slices, nodes0.lastId + 1, created) && Consecutive(r.value.edges, edges0.lastId + 1, created)
    ensures SlicesMade(st, input, encode, now, nodes0, edges0, version0, created)
  {
    var slices: seq<int> := [];
    var edges: seq<int> := [];
    created := 0;
    assert input.specs[..0] == [];
    while created < |input.specs|
      invariant created <= |input.specs|
      invariant SlicesMade(st, input, encode, now, nodes0, edges0, version0, created)
      invariant Consecutive(slices, nodes0.lastId + 1, created) && Consecutive(edges, edges0.lastId + 1, created)
    {
      var stop;
      stop, slices, edges := GenerateStep(st, input, encode, now, nodes0, edges0, version0, created, slices, edges);
      if stop.Some? {
        return Err(stop.value), created;
      }
      created := created + 1;
    }
    r := Ok(SlicesCreated(input.planNodeId, slices, edges));
  }

  /** `k` is the clean prefix when the `k` specs before it are clean and the
    * one at `k`, if any, is not. */
  lemma {:induction false} CleanPrefixIs(specs: seq<SliceSpec>, k: nat)
    requires k <= |specs|
    requires forall j :: 0 <= j < k ==> !IsBlank(specs[j].title)
    requires k < |specs| ==> IsBlank(specs[k].title)
    ensures CleanPrefix(specs) == k
    decreases k
  {
    if k > 0 {
      forall j | 0 <= j < k - 1
        ensures !IsBlank(specs[1..][j].title)
      {
        assert specs[1..][j] == specs[j + 1];
      }
      if k < |specs| {
        assert specs[1..][k - 1] == specs[k];
      }
      CleanPrefixIs(specs[1..], k - 1);
    }
  }

  /** `planSliceGenerate`: a plan id and at least one spec are required; then
    * each spec in order yields a slice under the plan and a "contains" edge
    * to it. A spec with a blank title stops the run with an error, and the
    * slices and edges of the specs before it stay. */
  method PlanSliceGenerate(st: Store, input: SliceGenerateInput, encode: seq<string> -> string, now: int)
    returns (r: Result<SlicesCreated>)
    requires st.Valid()
    modifies st`nodes, st`edges, st`dbVersion, st`mirrorUpdatedAt
    ensures st.Valid()
    ensures input.planNodeId <= 0 ==> r == Err("plan_node_id is required")
    ensures input.planNodeId > 0 && input.specs == [] ==> r == Err("slice_specs is required")
    ensures input.planNodeId <= 0 || input.specs == [] ==>
      st.nodes == old(st.nodes) && st.edges == old(st.edges) && st.NotBumped()
    ensures r.Ok? <==> input.planNodeId > 0 && input.specs != [] && CleanPrefix(input.specs) == |input.specs|
    ensures input.planNodeId > 0 && input.specs != [] ==>
      var k := CleanPrefix(input.specs);
      st.nodes == InsertEach(old(st.nodes), SliceRowOf(input.planNodeId, input.owner, encode, now), input.specs[..k])
      && st.edges == ContainsTable(old(st.edges), input.planNodeId, old(st.nodes).lastId + 1, k, now)
      && st.dbVersion == old(st.dbVersion) + 2 * k
      && (k < |input.specs| ==> r == Err(BlankTitleError(input.specs[k])))
      && (k == |input.specs| ==>
            r.Ok? && r.value.planNodeId == input.planNodeId
            && Consecutive(r.value.slices, old(st.nodes).lastId + 1, k)
            && Consecutive(r.value.edges, old(st.edges).lastId + 1, k))
  {
    if input.planNodeId <= 0 {
      return Err("plan_node_id is required");
    }
    if |input.specs| == 0 {
      return Err("slice_specs is required");
    }
    var created;
    r, created := GenerateSlices(st, input, encode, now, st.nodes, st.edges, st.dbVersion);
    CleanPrefixIs(input.specs, created);
  }

  /** Every slice is a to-do child of the plan in the planning facet, with
    * the spec's title, priority and owner, and a token estimate exactly
    * when the spec's estimate is positive. */
  lemma SliceNodeFollowsSpec(planId: int, owner: Option<int>, spec: SliceSpec, encode: seq<string> -> string, now: int)
    ensures var n := SliceNode(planId, owner, spec, encode, now);
      n.nodeType == "slice" && n.status == "todo" && n.facet == "planning" && n.parent == Some(planId)
      && n.title == spec.title && n.priority == spec.priority && n.ownerSession == owner
      && (n.tokenEstimate.Some? <==> spec.tokenEstimate > 0)
      && (n.tokenEstimate.Some? ==> n.tokenEstimate.value == spec.tokenEstimate)
  {
  }

  /** What a complete run leaves behind: spec `i` became the node numbered
    * `i` after the old last id, linked from the plan by the `i`-th new
    * edge; the rows already there are untouched and nothing else was
    * written. */
  lemma SlicesFollowSpecs(nodes: Table<GraphNode>, edges: Table<GraphEdge>, input: SliceGenerateInput,
                          encode: seq<string> -> string, now: int, i: int)
    requires nodes.Valid() && edges.Valid() && 0 <= i < |input.specs|
    ensures var t := InsertEach(nodes, SliceRowOf(input.planNodeId, input.owner, encode, now), input.specs);
      nodes.lastId + 1 + i in t.rows
      && t.rows[nodes.lastId + 1 + i] == SliceNode(input.planNodeId, input.owner, input.specs[i], encode, now)
      && (forall id :: id in nodes.rows ==> id in t.rows && t.rows[id] == nodes.rows[id])
      && (forall id :: id in t.rows ==> id in nodes.rows || nodes.lastId < id <= nodes.lastId + |input.specs|)
    ensures var e := ContainsTable(edges, input.planNodeId, nodes.lastId + 1, |input.specs|, now);
      edges.lastId + 1 + i in e.rows
      && e.rows[edges.lastId + 1 + i] == GraphEdge(input.planNodeId, nodes.lastId + 1 + i, "contains", now)
  {
    InsertEachAt(nodes, SliceRowOf(input.planNodeId, input.owner, encode, now), input.specs);
    ContainsTableAt(edges, input.planNodeId, nodes.lastId + 1, |input.specs|, now);
  }

  // ---------------------------------------------------------------- replan

  datatype ReplanInput = ReplanInput(nodeId: int, reason: string, affectedFiles: seq<string>, nextAction: string)

  function ReplanSnapshot(input: ReplanInput, encode: seq<string> -> string): SnapshotArgs {
    SnapshotArgs(input.nodeId, "replan", input.reason, MarshalStringSlice(input.affectedFiles, encode), input.nextAction)
  }

  /** `planSliceReplan`: a node id and a reason are required; the reason is
    * recorded as the summary of a "replan" snapshot of the node. */
  method PlanSliceReplan(st: Store, input: ReplanInput, encode: seq<string> -> string, now: int) returns (r: Result<int>)
    requires st.Valid()
    modifies st`snapshots, st`dbVersion, st`mirrorUpdatedAt
    ensures st.Valid()
    ensures input.nodeId <= 0 ==> r == Err("node_id is required")
    ensures input.nodeId > 0 && input.reason == "" ==> r == Err("reason is required")
    ensures r.Ok? <==> input.nodeId > 0 && input.reason != ""
    ensures r.Err? ==> st.snapshots == old(st.snapshots) && st.NotBumped()
    ensures r.Ok? ==>
      r.value == old(st.snapshots.lastId) + 1
      && st.snapshots == old(st.snapshots).Insert(SnapshotRow(ReplanSnapshot(input, encode), now)) && st.Bumped(now)
  {
    if input.nodeId <= 0 {
      return Err("node_id is required");
    }
    if input.reason == "" {
      return Err("reason is required");
    }
    WordNotBlank("replan");
    r := CreateNodeSnapshot(st, ReplanSnapshot(input, encode), now);
  }

  // ---------------------------------------------------------- rollup submit

  datatype RollupSubmitInput = RollupSubmitInput(nodeId: int, summary: string, affectedFiles: seq<string>, nextAction: string)

  datatype RollupSubmitted = RollupSubmitted(snapshot: int, node: GraphNode, preview: Rollup)

  function RollupSnapshot(input: RollupSubmitInput, encode: seq<string> -> string): SnapshotArgs {
    SnapshotArgs(input.nodeId, "rollup", input.summary, MarshalStringSlice(input.affectedFiles, encode), input.nextAction)
  }

  lemma SubmitWords()
    ensures !IsBlank("pending") && !IsBlank("in_review") && !IsBlank("rollup")
  {
    WordNotBlank("pending");
    WordNotBlank("in_review");
    WordNotBlank("rollup");
  }

  /** `planRollupSubmit`: records a "rollup" snapshot, puts the node up for
    * approval (pending, in review) and previews its children. The snapshot
    * is written first and in its own transaction, so it stays when the node
    * does not exist. */
  method PlanRollupSubmit(st: Store, input: RollupSubmitInput, encode: seq<string> -> string, now: int)
    returns (r: Result<RollupSubmitted>)
    requires st.Valid()
    modifies st`snapshots, st`nodes, st`dbVersion, st`mirrorUpdatedAt
    ensures st.Valid()
    ensures input.nodeId <= 0 ==>
      r == Err("node_id is required") && st.snapshots == old(st.snapshots) && st.nodes == old(st.nodes) && st.NotBumped()
    ensures input.nodeId > 0 ==>
      st.snapshots == old(st.snapshots).Insert(SnapshotRow(RollupSnapshot(input, encode), now))
    ensures input.nodeId > 0 && input.nodeId !in old(st.nodes.rows) ==>
      r == Err(NoRows) && st.nodes == old(st.nodes) && st.dbVersion == old(st.dbVersion) + 1
    ensures r.Ok? <==> input.nodeId > 0 && input.nodeId in old(st.nodes.rows)
    ensures r.Ok? ==>
      r.value.snapshot == old(st.snapshots.lastId) + 1
      && r.value.node == WithApproval(old(st.nodes.rows[input.nodeId]), "pending", "in_review", now)
      && st.nodes == old(st.nodes).Put(input.nodeId, r.value.node)
      && st.dbVersion == old(st.dbVersion) + 2 && st.mirrorUpdatedAt == now
    ensures r.Ok? ==>
      r.value.node.approvalState == "pending" && r.value.node.status == "in_review"
      && r.value.preview.parentNodeId == input.nodeId && r.value.preview.childCount == |r.value.preview.children|
      && forall id :: id in r.value.preview.children <==> id in st.nodes.rows && st.nodes.rows[id].parent == Some(input.nodeId)
  {
    if input.nodeId <= 0 {
      return Err("node_id is required");
    }
    SubmitWords();
    var snapshot := CreateNodeSnapshot(st, RollupSnapshot(input, encode), now);
    var node := UpdateGraphNodeApprovalState(st, input.nodeId, "pending", "in_review", now);
    if node.Err? {
      return Err(node.msg);
    }
    var preview := RollupPreview(st, input.nodeId);
    r := Ok(RollupSubmitted(snapshot.value, node.value, preview));
  }
}
