/** The planning graph: nodes (initiatives, plans, slices), typed edges
  * between them, per-node checklists keyed by (node, order, facet),
  * snapshots, and the roll-up preview of a node's children. */
module PlanningStore {
  import opened Text
  import opened StoreSchema

  // ---------------------------------------------------------------- nodes

  datatype GraphNodeCreateArgs = GraphNodeCreateArgs(
    nodeType: string, facet: string, title: string, status: string, priority: int,
    parent: Option<int>, worktreeId: Option<int>, ownerSession: Option<int>, summary: string,
    riskLevel: Option<int>, tokenEstimate: Option<int>, affectedFilesJson: string, approvalState: string)

  /** The argument checks of `CreateGraphNode`, in order. */
  function ValidateGraphNode(args: GraphNodeCreateArgs): (r: Option<string>)
    ensures r.None? <==> !IsBlank(args.nodeType) && !IsBlank(args.title)
    ensures IsBlank(args.nodeType) ==> r == Some("node_type is required")
    ensures !IsBlank(args.nodeType) && IsBlank(args.title) ==> r == Some("title is required")
  {
    if IsBlank(args.nodeType) then Some("node_type is required")
    else if IsBlank(args.title) then Some("title is required")
    else None
  }

  /** The node `CreateGraphNode` inserts: type and title as given, facet,
    * status and approval state trimmed with defaults "planning", "todo" and
    * "none", summary and affected files as nullable text. */
  function CreatedNode(args: GraphNodeCreateArgs, now: int): (n: GraphNode)
    ensures n.nodeType == args.nodeType && n.title == args.title && n.priority == args.priority
    ensures n.parent == args.parent && n.worktreeId == args.worktreeId && n.ownerSession == args.ownerSession
    ensures (IsBlank(args.facet) ==> n.facet == "planning") && (!IsBlank(args.facet) ==> n.facet == TrimSpace(args.facet))
    ensures (IsBlank(args.status) ==> n.status == "todo") && (!IsBlank(args.status) ==> n.status == TrimSpace(args.status))
    ensures (IsBlank(args.approvalState) ==> n.approvalState == "none")
      && (!IsBlank(args.approvalState) ==> n.approvalState == TrimSpace(args.approvalState))
    ensures n.summary == NullableText(args.summary) && n.affectedFiles == NullableText(args.affectedFilesJson)
    ensures n.riskLevel == args.riskLevel && n.tokenEstimate == args.tokenEstimate
    ensures n.createdAt == now && n.updatedAt == now
  {
    GraphNode(args.nodeType, TrimOrDefault(args.facet, "planning"), args.title,
              TrimOrDefault(args.status, "todo"), args.priority, args.parent, args.worktreeId,
              args.ownerSession, NullableText(args.summary), args.riskLevel, args.tokenEstimate,
              NullableText(args.affectedFilesJson), TrimOrDefault(args.approvalState, "none"), now, now)
  }

  /** `CreateGraphNode`. */
  method CreateGraphNode(st: Store, args: GraphNodeCreateArgs, now: int) returns (r: Result<int>)
    requires st.Valid()
    modifies st`nodes, st`dbVersion, st`mirrorUpdatedAt
    ensures st.Valid()
    ensures ValidateGraphNode(args).Some? ==> r == Err(ValidateGraphNode(args).value)
    ensures r.Ok? <==> ValidateGraphNode(args).None?
    ensures r.Err? ==> st.nodes == old(st.nodes) && st.NotBumped()
    ensures r.Ok? ==>
      r.value == old(st.nodes.lastId) + 1
      && st.nodes == old(st.nodes).Insert(CreatedNode(args, now)) && st.Bumped(now)
  {
    var invalid := ValidateGraphNode(args);
    if invalid.Some? {
      return Err(invalid.value);
    }
    var id := st.InsertGraphNode(CreatedNode(args, now));
    st.BumpVersion(now);
    r := Ok(id);
  }

  /** A node after an approval decision: the approval state is written as
    * given, the status only when a non-blank one is given. */
  function WithApproval(n: GraphNode, approvalState: string, status: string, now: int): (r: GraphNode)
    ensures r.approvalState == approvalState && r.updatedAt == now
    ensures IsBlank(status) ==> r.status == n.status
    ensures !IsBlank(status) ==> r.status == status
    ensures r.(approvalState := n.approvalState, status := n.status, updatedAt := n.updatedAt) == n
  {
    n.(approvalState := approvalState, status := if IsBlank(status) then n.status else status, updatedAt := now)
  }

  /** `UpdateGraphNodeApprovalState`: a blank approval state is refused; an
    * unknown node makes the read-back fail and the transaction roll back. */
  method UpdateGraphNodeApprovalState(st: Store, nodeId: int, approvalState: string, status: string, now: int)
    returns (r: Result<GraphNode>)
    requires st.Valid()
    modifies st`nodes, st`dbVersion, st`mirrorUpdatedAt
    ensures st.Valid()
    ensures IsBlank(approvalState) ==> r == Err("approval_state is required")
    ensures !IsBlank(approvalState) && nodeId !in old(st.nodes.rows) ==> r == Err(NoRows)
    ensures r.Ok? <==> !IsBlank(approvalState) && nodeId in old(st.nodes.rows)
    ensures r.Err? ==> st.nodes == old(st.nodes) && st.NotBumped()
    ensures r.Ok? ==>
      r.value == WithApproval(old(st.nodes.rows[nodeId]), approvalState, status, now)
      && st.nodes == old(st.nodes).Put(nodeId, r.value) && st.Bumped(now)
  {
    if IsBlank(approvalState) {
      return Err("approval_state is required");
    }
    if nodeId !in st.nodes.rows {
      return Err(NoRows);
    }
    var n := WithApproval(st.nodes.rows[nodeId], approvalState, status, now);
    st.PutGraphNode(nodeId, n);
    st.BumpVersion(now);
    r := Ok(n);
  }

  // ---------------------------------------------------------------- edges

  /** `CreateGraphEdge`: both endpoints must be positive ids and the edge
    * type non-blank; the type is stored trimmed. */
  method CreateGraphEdge(st: Store, fromNode: int, toNode: int, edgeType: string, now: int) returns (r: Result<int>)
    requires st.Valid()
    modifies st`edges, st`dbVersion, st`mirrorUpdatedAt
    ensures st.Valid()
    ensures fromNode <= 0 || toNode <= 0 ==> r == Err("from_node_id and to_node_id are required")
    ensures fromNode > 0 && toNode > 0 && IsBlank(edgeType) ==> r == Err("edge_type is required")
    ensures r.Ok? <==> fromNode > 0 && toNode > 0 && !IsBlank(edgeType)
    ensures r.Err? ==> st.edges == old(st.edges) && st.NotBumped()
    ensures r.Ok? ==>
      r.value == old(st.edges.lastId) + 1
      && st.edges == old(st.edges).Insert(GraphEdge(fromNode, toNode, TrimSpace(edgeType), now)) && st.Bumped(now)
  {
    if fromNode <= 0 || toNode <= 0 {
      return Err("from_node_id and to_node_id are required");
    }
    TrimSpaceBlank(edgeType);
    if TrimSpace(edgeType) == "" {
      return Err("edge_type is required");
    }
    var id := st.InsertGraphEdge(GraphEdge(fromNode, toNode, TrimSpace(edgeType), now));
    st.BumpVersion(now);
    r := Ok(id);
  }

  // ------------------------------------------------------------ checklists

  datatype ChecklistUpsertArgs = ChecklistUpsertArgs(nodeId: int, text: string, status: string, orderNo: int, facet: string)

  function ValidateChecklist(args: ChecklistUpsertArgs): (r: Option<string>)
    ensures r.None? <==> args.nodeId > 0 && !IsBlank(args.text)
    ensures args.nodeId <= 0 ==> r == Some("node_id is required")
    ensures args.nodeId > 0 && IsBlank(args.text) ==> r == Some("item_text is required")
  {
    if args.nodeId <= 0 then Some("node_id is required")
    else if IsBlank(args.text) then Some("item_text is required")
    else None
  }

  /** The order number an item is filed under: non-positive becomes 1. */
  function ChecklistOrder(args: ChecklistUpsertArgs): (o: int)
    ensures o >= 1 && (args.orderNo > 0 ==> o == args.orderNo)
  {
    if args.orderNo <= 0 then 1 else args.orderNo
  }

  /** The facet an item is filed under: trimmed, blank becomes "planning". */
  function ChecklistFacet(args: ChecklistUpsertArgs): string {
    TrimOrDefault(args.facet, "planning")
  }

  /** The item sits under the key (node, order, facet) of the upsert. */
  predicate HasChecklistKey(c: ChecklistItem, args: ChecklistUpsertArgs) {
    c.nodeId == args.nodeId && c.orderNo == ChecklistOrder(args) && c.facet == ChecklistFacet(args)
  }

  /** The `SELECT id ... WHERE node_id = ? AND order_no = ? AND facet = ?
    * LIMIT 1` lookup. */
  function FindChecklistItem(t: Table<ChecklistItem>, args: ChecklistUpsertArgs): (r: Option<int>)
    ensures r.Some? ==> r.value in t.rows && HasChecklistKey(t.rows[r.value], args)
    ensures r.None? ==> forall id :: id in t.rows && 1 <= id <= t.lastId ==> !HasChecklistKey(t.rows[id], args)
  {
    FirstId(t.rows, (c: ChecklistItem) => HasChecklistKey(c, args), 1, t.lastId)
  }

  /** The checklist after a valid upsert: the item under the key gets the
    * new text and status (trimmed, default "todo"), or a new item is added
    * under the key. */
  function AfterChecklistUpsert(t: Table<ChecklistItem>, args: ChecklistUpsertArgs, now: int): Table<ChecklistItem> {
    var status := TrimOrDefault(args.status, "todo");
    match FindChecklistItem(t, args)
    case Some(id) => t.Put(id, t.rows[id].(text := args.text, status := status, updatedAt := now))
    case None => t.Insert(NewChecklistItem(args, now))
  }

  /** The id of the item a valid upsert writes. */
  function ChecklistUpsertedId(t: Table<ChecklistItem>, args: ChecklistUpsertArgs): (id: int)
    ensures FindChecklistItem(t, args).Some? ==> id == FindChecklistItem(t, args).value
    ensures FindChecklistItem(t, args).None? ==> id == t.lastId + 1
  {
    match FindChecklistItem(t, args)
    case Some(id) => id
    case None => t.lastId + 1
  }

  /** Rewriting the item that holds a key, keeping its key, keeps keys unique. */
  lemma PutKeepsKeysUnique(rows: map<int, ChecklistItem>, id: int, c: ChecklistItem)
    requires ChecklistKeysUnique(rows) && id in rows
    requires c.nodeId == rows[id].nodeId && c.orderNo == rows[id].orderNo && c.facet == rows[id].facet
    ensures ChecklistKeysUnique(rows[id := c])
  {
  }

  /** The item an upsert adds when no item holds its key. */
  function NewChecklistItem(args: ChecklistUpsertArgs, now: int): (c: ChecklistItem)
    ensures HasChecklistKey(c, args) && c.text == args.text
  {
    ChecklistItem(args.nodeId, args.text, TrimOrDefault(args.status, "todo"), ChecklistOrder(args),
                  ChecklistFacet(args), now, now)
  }

  /** Adding an item under a key no item holds keeps keys unique. */
  lemma AddKeepsKeysUnique(rows: map<int, ChecklistItem>, id: int, args: ChecklistUpsertArgs, now: int)
    requires ChecklistKeysUnique(rows) && id !in rows
    requires forall k :: k in rows ==> !HasChecklistKey(rows[k], args)
    ensures ChecklistKeysUnique(rows[id := NewChecklistItem(args, now)])
  {
  }

  /** An upsert keeps one item per key. */
  lemma ChecklistUpsertKeepsKeysUnique(t: Table<ChecklistItem>, args: ChecklistUpsertArgs, now: int)
    requires t.Valid() && ChecklistKeysUnique(t.rows)
    ensures AfterChecklistUpsert(t, args, now).Valid()
    ensures ChecklistKeysUnique(AfterChecklistUpsert(t, args, now).rows)
  {
    var after := AfterChecklistUpsert(t, args, now);
    var found := FindChecklistItem(t, args);
    if found.Some? {
      var id := found.value;
      var c := t.rows[id].(text := args.text, status := TrimOrDefault(args.status, "todo"), updatedAt := now);
      assert after.rows == t.rows[id := c];
      PutKeepsKeysUnique(t.rows, id, c);
    } else {
      InsertFresh(t, NewChecklistItem(args, now));
      AddKeepsKeysUnique(t.rows, t.lastId + 1, args, now);
    }
  }

  /** After an upsert the key holds exactly the written item, which carries
    * the new text, and no other item changes. */
  lemma ChecklistUpsertWrites(t: Table<ChecklistItem>, args: ChecklistUpsertArgs, now: int)
    requires t.Valid() && ChecklistKeysUnique(t.rows)
    ensures var after := AfterChecklistUpsert(t, args, now);
      var id := ChecklistUpsertedId(t, args);
      id in after.rows && HasChecklistKey(after.rows[id], args) && after.rows[id].text == args.text
      && (forall k :: k in after.rows && HasChecklistKey(after.rows[k], args) ==> k == id)
      && (forall k :: k in t.rows && k != id ==> k in after.rows && after.rows[k] == t.rows[k])
  {
    ChecklistUpsertKeepsKeysUnique(t, args, now);
    var found := FindChecklistItem(t, args);
    if found.None? {
      InsertFresh(t, NewChecklistItem(args, now));
    }
  }

  /** Upserting the same key twice leaves as many items as upserting once. */
  lemma ChecklistUpsertTwice(t: Table<ChecklistItem>, a: ChecklistUpsertArgs, b: ChecklistUpsertArgs, now: int)
    requires t.Valid() && ChecklistKeysUnique(t.rows)
    requires b.nodeId == a.nodeId && ChecklistOrder(b) == ChecklistOrder(a) && ChecklistFacet(b) == ChecklistFacet(a)
    ensures var once := AfterChecklistUpsert(t, a, now);
      AfterChecklistUpsert(once, b, now).rows.Keys == once.rows.Keys
  {
    ChecklistUpsertWrites(t, a, now);
    var once := AfterChecklistUpsert(t, a, now);
    var id := ChecklistUpsertedId(t, a);
    assert HasChecklistKey(once.rows[id], b);
  }

  /** `UpsertNodeChecklistItem`. */
  method UpsertNodeChecklistItem(st: Store, args: ChecklistUpsertArgs, now: int) returns (r: Result<int>)
    requires st.Valid()
    modifies st`checklist, st`dbVersion, st`mirrorUpdatedAt
    ensures st.Valid()
    ensures ValidateChecklist(args).Some? ==> r == Err(ValidateChecklist(args).value)
    ensures r.Ok? <==> ValidateChecklist(args).None?
    ensures r.Err? ==> st.checklist == old(st.checklist) && st.NotBumped()
    ensures r.Ok? ==>
      r.value == ChecklistUpsertedId(old(st.checklist), args)
      && st.checklist == AfterChecklistUpsert(old(st.checklist), args, now) && st.Bumped(now)
  {
    var invalid := ValidateChecklist(args);
    if invalid.Some? {
      return Err(invalid.value);
    }
    ChecklistUpsertKeepsKeysUnique(st.checklist, args, now);
    r := Ok(ChecklistUpsertedId(st.checklist, args));
    st.SetChecklist(AfterChecklistUpsert(st.checklist, args, now));
    st.BumpVersion(now);
  }

  // ------------------------------------------------------------- snapshots

  datatype SnapshotArgs = SnapshotArgs(nodeId: int, snapshotType: string, summary: string, affectedFilesJson: string, nextAction: string)

  function SnapshotRow(args: SnapshotArgs, now: int): (s: NodeSnapshot)
    ensures s.nodeId == args.nodeId && s.snapshotType == args.snapshotType && s.createdAt == now
    ensures s.summary == NullableText(args.summary) && s.nextAction == NullableText(args.nextAction)
    ensures s.affectedFiles == NullableText(args.affectedFilesJson)
  {
    NodeSnapshot(args.nodeId, args.snapshotType, NullableText(args.summary), NullableText(args.affectedFilesJson),
                 NullableText(args.nextAction), now)
  }

  /** `CreateNodeSnapshot`: a positive node id and a non-blank type. */
  method CreateNodeSnapshot(st: Store, args: SnapshotArgs, now: int) returns (r: Result<int>)
    requires st.Valid()
    modifies st`snapshots, st`dbVersion, st`mirrorUpdatedAt
    ensures st.Valid()
    ensures args.nodeId <= 0 ==> r == Err("node_id is required")
    ensures args.nodeId > 0 && IsBlank(args.snapshotType) ==> r == Err("snapshot_type is required")
    ensures r.Ok? <==> args.nodeId > 0 && !IsBlank(args.snapshotType)
    ensures r.Err? ==> st.snapshots == old(st.snapshots) && st.NotBumped()
    ensures r.Ok? ==>
      r.value == old(st.snapshots.lastId) + 1
      && st.snapshots == old(st.snapshots).Insert(SnapshotRow(args, now)) && st.Bumped(now)
  {
    if args.nodeId <= 0 {
      return Err("node_id is required");
    }
    if IsBlank(args.snapshotType) {
      return Err("snapshot_type is required");
    }
    var id := st.InsertNodeSnapshot(SnapshotRow(args, now));
    st.BumpVersion(now);
    r := Ok(id);
  }

  // --------------------------------------------------------------- rollup

  /** The `ORDER BY priority DESC, updated_at ASC, id ASC` of node lists. */
  predicate NodeBefore(nodes: map<int, GraphNode>, a: int, b: int)
    requires a in nodes && b in nodes
  {
    nodes[a].priority > nodes[b].priority
    || (nodes[a].priority == nodes[b].priority
        && (nodes[a].updatedAt < nodes[b].updatedAt || (nodes[a].updatedAt == nodes[b].updatedAt && a < b)))
  }

  predicate ListOrdered(nodes: map<int, GraphNode>, ids: seq<int>) {
    (forall i :: 0 <= i < |ids| ==> ids[i] in nodes)
    && forall i, j :: 0 <= i < j < |ids| ==> NodeBefore(nodes, ids[i], ids[j])
  }

  lemma NodeBeforeTransitive(nodes: map<int, GraphNode>, a: int, b: int, c: int)
    requires a in nodes && b in nodes && c in nodes
    requires NodeBefore(nodes, a, b) && NodeBefore(nodes, b, c)
    ensures NodeBefore(nodes, a, c)
  {
  }

  /** Places `id` among an ordered list. */
  function InsertOrdered(nodes: map<int, GraphNode>, ids: seq<int>, id: int): (r: seq<int>)
    requires id in nodes && ListOrdered(nodes, ids) && id !in ids
    ensures ListOrdered(nodes, r) && |r| == |ids| + 1
    ensures forall x :: x in r <==> x in ids || x == id
    decreases |ids|
  {
    if |ids| == 0 then [id]
    else if NodeBefore(nodes, id, ids[0]) then
      assert forall j :: 0 <= j < |ids| ==> NodeBefore(nodes, id, ids[j]) by {
        forall j | 0 < j < |ids| {
          NodeBeforeTransitive(nodes, id, ids[0], ids[j]);
        }
      }
      [id] + ids
    else
      assert ids == [ids[0]] + ids[1..];
      var rest := InsertOrdered(nodes, ids[1..], id);
      assert forall x :: x in rest ==> NodeBefore(nodes, ids[0], x);
      [ids[0]] + rest
  }

  /** `ListGraphNodes` filtered on a parent: exactly the node's direct
    * children, in list order. */
  method ListChildren(nodes: Table<GraphNode>, parentId: int) returns (ids: seq<int>)
    requires nodes.Valid()
    ensures ListOrdered(nodes.rows, ids)
    ensures forall id :: id in ids <==> id in nodes.rows && nodes.rows[id].parent == Some(parentId)
  {
    ids := [];
    var id := 1;
    while id <= nodes.lastId
      invariant 1 <= id <= nodes.lastId + 1
      invariant ListOrdered(nodes.rows, ids)
      invariant forall k :: k in ids <==> k in nodes.rows && k < id && nodes.rows[k].parent == Some(parentId)
    {
      if id in nodes.rows && nodes.rows[id].parent == Some(parentId) {
        ids := InsertOrdered(nodes.rows, ids, id);
      }
      id := id + 1;
    }
  }

  /** How many of the listed nodes have status `s`. */
  function CountStatus(nodes: map<int, GraphNode>, ids: seq<int>, s: string): nat
    requires forall i :: 0 <= i < |ids| ==> ids[i] in nodes
    decreases |ids|
  {
    if |ids| == 0 then 0
    else CountStatus(nodes, ids[..|ids| - 1], s) + (if nodes[ids[|ids| - 1]].status == s then 1 else 0)
  }

  predicate DistinctStrings(ks: seq<string>) {
    forall i, j :: 0 <= i < j < |ks| ==> ks[i] != ks[j]
  }

  /** The statuses of the listed nodes, each once, in order of first
    * appearance: the keys of `status_counts`. */
  function StatusesOf(nodes: map<int, GraphNode>, ids: seq<int>): (r: seq<string>)
    requires forall i :: 0 <= i < |ids| ==> ids[i] in nodes
    ensures DistinctStrings(r)
    ensures forall s :: s in r <==> CountStatus(nodes, ids, s) > 0
    decreases |ids|
  {
    if |ids| == 0 then []
    else
      var prev := StatusesOf(nodes, ids[..|ids| - 1]);
      var s := nodes[ids[|ids| - 1]].status;
      if s in prev then prev else prev + [s]
  }

  /** The sum of the counts of the given statuses. */
  function SumCounts(nodes: map<int, GraphNode>, ids: seq<int>, keys: seq<string>): nat
    requires forall i :: 0 <= i < |ids| ==> ids[i] in nodes
    decreases |keys|
  {
    if |keys| == 0 then 0
    else SumCounts(nodes, ids, keys[..|keys| - 1]) + CountStatus(nodes, ids, keys[|keys| - 1])
  }

  /** One more listed node adds one to the sum exactly when its status is
    * among the keys. */
  lemma {:induction false} SumCountsStep(nodes: map<int, GraphNode>, ids: seq<int>, x: int, keys: seq<string>)
    requires forall i :: 0 <= i < |ids| ==> ids[i] in nodes
    requires x in nodes && DistinctStrings(keys)
    ensures SumCounts(nodes, ids + [x], keys) == SumCounts(nodes, ids, keys) + (if nodes[x].status in keys then 1 else 0)
    decreases |keys|
  {
    var ext := ids + [x];
    assert ext[..|ext| - 1] == ids;
    if |keys| > 0 {
      var ks := keys[..|keys| - 1];
      assert keys == ks + [keys[|keys| - 1]];
      SumCountsStep(nodes, ids, x, ks);
    }
  }

  /** The per-status counts add up to the number of children. */
  lemma {:induction false} StatusCountsSum(nodes: map<int, GraphNode>, ids: seq<int>)
    requires forall i :: 0 <= i < |ids| ==> ids[i] in nodes
    ensures SumCounts(nodes, ids, StatusesOf(nodes, ids)) == |ids|
    decreases |ids|
  {
    if |ids| > 0 {
      var prefix := ids[..|ids| - 1];
      var x := ids[|ids| - 1];
      assert ids == prefix + [x];
      var keys := StatusesOf(nodes, prefix);
      StatusCountsSum(nodes, prefix);
      SumCountsStep(nodes, prefix, x, keys);
      var s := nodes[x].status;
      if s !in keys {
        var keys' := keys + [s];
        assert keys'[..|keys'| - 1] == keys;
      }
    }
  }

  datatype Rollup = Rollup(parentNodeId: int, childCount: nat, statusCounts: map<string, nat>, children: seq<int>)

  /** The counting loop of `RollupPreview`. */
  method CountStatuses(nodes: map<int, GraphNode>, ids: seq<int>) returns (counts: map<string, nat>)
    requires forall i :: 0 <= i < |ids| ==> ids[i] in nodes
    ensures forall s :: s in counts <==> s in StatusesOf(nodes, ids)
    ensures forall s :: s in counts ==> counts[s] == CountStatus(nodes, ids, s)
  {
    counts := map[];
    for i := 0 to |ids|
      invariant forall s :: s in counts <==> s in StatusesOf(nodes, ids[..i])
      invariant forall s :: s in counts ==> counts[s] == CountStatus(nodes, ids[..i], s)
    {
      var s := nodes[ids[i]].status;
      assert ids[..i + 1][..i] == ids[..i];
      if s in counts {
        counts := counts[s := counts[s] + 1];
      } else {
        counts := counts[s := 1];
      }
    }
    assert ids[..|ids|] == ids;
  }

  /** `RollupPreview`: the direct children of a node, their number, and how
    * many have each status; the counts add up to the number of children. */
  method RollupPreview(st: Store, parentId: int) returns (r: Rollup)
    requires st.Valid()
    ensures r.parentNodeId == parentId && r.childCount == |r.children|
    ensures ListOrdered(st.nodes.rows, r.children)
    ensures forall id :: id in r.children <==> id in st.nodes.rows && st.nodes.rows[id].parent == Some(parentId)
    ensures forall s :: s in r.statusCounts <==> s in StatusesOf(st.nodes.rows, r.children)
    ensures forall s :: s in r.statusCounts ==> r.statusCounts[s] == CountStatus(st.nodes.rows, r.children, s)
    ensures SumCounts(st.nodes.rows, r.children, StatusesOf(st.nodes.rows, r.children)) == r.childCount
  {
    var children := ListChildren(st.nodes, parentId);
    var counts := CountStatuses(st.nodes.rows, children);
    StatusCountsSum(st.nodes.rows, children);
    r := Rollup(parentId, |children|, counts, children);
  }
}
