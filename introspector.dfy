/** The `NintexToPowerAutomate` pipeline: the parent index, parent
    resolution, and the accumulation of every translated action into a flat
    map and a parent-keyed tree. */
module Introspector {
  import opened Wrappers
  import opened ElementTree
  import opened ActionExtractor
  import opened Translation

  const ActionTag := "NWActionConfig"
  const RootId := "root"
  const LoadError := "No se pudo cargar el workflow"

  /** One `{'id': ..., 'action': ...}` entry of an `action_tree` list. */
  datatype TreeEntry = TreeEntry(id: string, action: Translated)

  /** What `process_workflow` returns: `error` is present only when the
      document could not be loaded. */
  datatype WorkflowResult = WorkflowResult(
    error: Option<string>,
    workflowTree: map<string, seq<TreeEntry>>,
    processedActions: map<string, Translated>)

  /** What reading and parsing the document gave. */
  datatype LoadSource = Missing | Malformed | Loaded(doc: Document)

  /** Every parent recorded in the index is an element of `doc`. */
  ghost predicate IndexesInto(parentMap: map<nat, nat>, doc: Document) {
    forall c :: c in parentMap ==> parentMap[c] < |doc|
  }

  /** `find_parent_action`: the `id` of the immediate parent when that parent
      is an `NWActionConfig` element, `'root'` otherwise (also for an
      element the index does not know). */
  function FindParentAction(doc: Document, parentMap: map<nat, nat>, action: nat): (r: string)
    requires IndexesInto(parentMap, doc)
  {
    if action in parentMap && doc[parentMap[action]].tag == ActionTag
    then Get(doc[parentMap[action]], "id", "")
    else RootId
  }

  /** With the index built from the document, parent resolution looks at
      the structural parent, and at nothing above it. */
  lemma FindParentOfChild(doc: Document, p: nat, c: nat)
    requires WellFormed(doc) && IsChild(doc, p, c)
    ensures IndexesInto(ParentMap(doc), doc)
    ensures FindParentAction(doc, ParentMap(doc), c) ==
      if doc[p].tag == ActionTag then Get(doc[p], "id", "") else RootId
  {
    ParentMapShape(doc);
    ParentLinksSound(doc, Iter(doc));
  }

  /** The root, and anything that is not an element, resolves to `'root'`. */
  lemma FindParentOfRoot(doc: Document, a: nat)
    requires WellFormed(doc) && (a == 0 || a >= |doc|)
    ensures IndexesInto(ParentMap(doc), doc)
    ensures FindParentAction(doc, ParentMap(doc), a) == RootId
  {
    ParentMapKeys(doc);
    ParentLinksSound(doc, Iter(doc));
  }

  /** The `NWActionConfig` elements below the root, in document order
      (`root.findall('.//NWActionConfig')`). */
  function Actions(doc: Document): (r: seq<nat>)
    requires ChildrenFollow(doc) && |doc| > 0
  {
    FindAll(doc, 0, ActionTag)
  }

  /** In a well-formed document the actions are exactly the
      `NWActionConfig` elements other than the root. */
  lemma ActionsExactly(doc: Document)
    requires WellFormed(doc)
    ensures forall a: nat :: a in Actions(doc) <==> 0 < a < |doc| && doc[a].tag == ActionTag
  {
    RootDescendants(doc);
  }

  /** What one iteration of the loop in `build_action_tree` computes. */
  datatype Step = Step(id: string, parentId: string, result: Translated)

  function StepOf(engine: Engine, doc: Document, parentMap: map<nat, nat>, action: nat): (r: Step)
    requires ChildrenFollow(doc) && action < |doc| && IndexesInto(parentMap, doc)
  {
    Step(
      Get(doc[action], "id", ""),
      FindParentAction(doc, parentMap, action),
      ProcessSingleAction(engine, ActionDataOf(doc, action)))
  }

  /** The steps of the visited actions, one per action, left to right. */
  function MapSteps(f: nat --> Step, actions: seq<nat>): (r: seq<Step>)
    requires forall i :: 0 <= i < |actions| ==> f.requires(actions[i])
    ensures |r| == |actions|
  {
    if actions == [] then []
    else MapSteps(f, actions[..|actions| - 1]) + [f(actions[|actions| - 1])]
  }

  lemma {:induction false} MapStepsAt(f: nat --> Step, actions: seq<nat>, i: nat)
    requires forall j :: 0 <= j < |actions| ==> f.requires(actions[j])
    requires i < |actions|
    ensures MapSteps(f, actions)[i] == f(actions[i])
  {
    var init := actions[..|actions| - 1];
    if i < |init| {
      MapStepsAt(f, init, i);
      assert init[i] == actions[i];
    }
  }

  lemma MapStepsPrefix(f: nat --> Step, actions: seq<nat>, i: nat)
    requires forall j :: 0 <= j < |actions| ==> f.requires(actions[j])
    requires i < |actions|
    ensures MapSteps(f, actions[..i + 1]) == MapSteps(f, actions[..i]) + [f(actions[i])]
  {
    assert actions[..i + 1][..i] == actions[..i];
  }

  /** `StepOf` as a function of the action alone. */
  function StepFn(engine: Engine, doc: Document, parentMap: map<nat, nat>): (f: nat --> Step)
    requires ChildrenFollow(doc) && IndexesInto(parentMap, doc)
  {
    (a: nat) requires a < |doc| => StepOf(engine, doc, parentMap, a)
  }

  /** What the loop of `build_action_tree` computes for the actions, in order. */
  function Steps(engine: Engine, doc: Document, parentMap: map<nat, nat>, actions: seq<nat>): (r: seq<Step>)
    requires ChildrenFollow(doc) && IndexesInto(parentMap, doc)
    requires forall i :: 0 <= i < |actions| ==> actions[i] < |doc|
  {
    MapSteps(StepFn(engine, doc, parentMap), actions)
  }

  /** One step per action, and the i-th step is the one of the i-th action. */
  lemma StepsAt(engine: Engine, doc: Document, parentMap: map<nat, nat>, actions: seq<nat>)
    requires ChildrenFollow(doc) && IndexesInto(parentMap, doc)
    requires forall i :: 0 <= i < |actions| ==> actions[i] < |doc|
    ensures |Steps(engine, doc, parentMap, actions)| == |actions|
    ensures forall i :: 0 <= i < |actions| ==>
      Steps(engine, doc, parentMap, actions)[i] == StepOf(engine, doc, parentMap, actions[i])
  {
    forall i | 0 <= i < |actions|
      ensures Steps(engine, doc, parentMap, actions)[i] == StepOf(engine, doc, parentMap, actions[i])
    {
      MapStepsAt(StepFn(engine, doc, parentMap), actions, i);
    }
  }

  lemma StepsPrefix(engine: Engine, doc: Document, parentMap: map<nat, nat>, actions: seq<nat>, i: nat)
    requires ChildrenFollow(doc) && IndexesInto(parentMap, doc)
    requires forall i :: 0 <= i < |actions| ==> actions[i] < |doc|
    requires i < |actions|
    ensures Steps(engine, doc, parentMap, actions[..i + 1]) ==
      Steps(engine, doc, parentMap, actions[..i]) + [StepOf(engine, doc, parentMap, actions[i])]
  {
    MapStepsPrefix(StepFn(engine, doc, parentMap), actions, i);
  }

  /** `processed_actions` after the steps: each step with a non-empty id
      stores its result under that id. */
  function Record(processed: map<string, Translated>, steps: seq<Step>): (r: map<string, Translated>) {
    if steps == [] then processed
    else
      var m := Record(processed, steps[..|steps| - 1]);
      var s := steps[|steps| - 1];
      if s.id != "" then m[s.id := s.result] else m
  }

  /** The list under `k`, or `[]` when there is none: `build_action_tree`
      creates a missing list as `[]` before appending to it. */
  function Lookup(tree: map<string, seq<TreeEntry>>, k: string): (r: seq<TreeEntry>) {
    if k in tree then tree[k] else []
  }

  /** `action_tree` after the steps: each step with a non-empty id appends
      its entry to the list of its parent, creating the list if needed. */
  function Attach(tree: map<string, seq<TreeEntry>>, steps: seq<Step>): (r: map<string, seq<TreeEntry>>) {
    if steps == [] then tree
    else
      var t := Attach(tree, steps[..|steps| - 1]);
      var s := steps[|steps| - 1];
      if s.id != "" then t[s.parentId := Lookup(t, s.parentId) + [TreeEntry(s.id, s.result)]] else t
  }

  /** Independent reference: the entries of the steps with a non-empty id
      whose parent is `k`, in the order of the steps. */
  function Under(steps: seq<Step>, k: string): (r: seq<TreeEntry>) {
    if steps == [] then []
    else
      (if steps[0].id != "" && steps[0].parentId == k then [TreeEntry(steps[0].id, steps[0].result)] else [])
      + Under(steps[1..], k)
  }

  lemma {:induction false} UnderSnoc(steps: seq<Step>, s: Step, k: string)
    ensures Under(steps + [s], k) ==
      Under(steps, k) + (if s.id != "" && s.parentId == k then [TreeEntry(s.id, s.result)] else [])
  {
    if steps != [] {
      assert (steps + [s])[1..] == steps[1..] + [s];
      UnderSnoc(steps[1..], s, k);
    } else {
      assert steps + [s] == [s];
    }
  }

  /** Every parent's list is the old list followed, in step order, by the
      entries of the steps with a non-empty id under that parent. */
  lemma {:induction false} AttachSpec(tree: map<string, seq<TreeEntry>>, steps: seq<Step>)
    ensures forall k :: Lookup(Attach(tree, steps), k) == Lookup(tree, k) + Under(steps, k)
  {
    if steps != [] {
      var init, s := steps[..|steps| - 1], steps[|steps| - 1];
      assert steps == init + [s];
      AttachSpec(tree, init);
      forall k ensures Lookup(Attach(tree, steps), k) == Lookup(tree, k) + Under(steps, k) {
        UnderSnoc(init, s, k);
      }
    }
  }

  /** A parent is present exactly when it was before or some step with a
      non-empty id names it. */
  lemma {:induction false} AttachKeys(tree: map<string, seq<TreeEntry>>, steps: seq<Step>)
    ensures forall k :: k in Attach(tree, steps) <==>
      k in tree || exists i :: 0 <= i < |steps| && steps[i].id != "" && steps[i].parentId == k
  {
    if steps != [] {
      var init := steps[..|steps| - 1];
      AttachKeys(tree, init);
      forall k
        ensures k in Attach(tree, steps) <==>
          k in tree || exists i :: 0 <= i < |steps| && steps[i].id != "" && steps[i].parentId == k
      {
        if exists i :: 0 <= i < |init| && init[i].id != "" && init[i].parentId == k {
          var i :| 0 <= i < |init| && init[i].id != "" && init[i].parentId == k;
          assert steps[i] == init[i];
        }
        if exists i :: 0 <= i < |steps| && steps[i].id != "" && steps[i].parentId == k {
          var i :| 0 <= i < |steps| && steps[i].id != "" && steps[i].parentId == k;
          if i < |init| { assert init[i] == steps[i]; }
        }
      }
    }
  }

  /** The keys of `processed_actions` are the old keys and the non-empty ids
      of the steps. */
  lemma {:induction false} RecordKeys(processed: map<string, Translated>, steps: seq<Step>)
    ensures forall k :: k in Record(processed, steps) <==>
      k in processed || (k != "" && exists i :: 0 <= i < |steps| && steps[i].id == k)
  {
    if steps != [] {
      var init := steps[..|steps| - 1];
      RecordKeys(processed, init);
      forall k
        ensures k in Record(processed, steps) <==>
          k in processed || (k != "" && exists i :: 0 <= i < |steps| && steps[i].id == k)
      {
        if exists i :: 0 <= i < |init| && init[i].id == k {
          var i :| 0 <= i < |init| && init[i].id == k;
          assert steps[i] == init[i];
        }
        if exists i :: 0 <= i < |steps| && steps[i].id == k {
          var i :| 0 <= i < |steps| && steps[i].id == k;
          if i < |init| { assert init[i] == steps[i]; }
        }
      }
    }
  }

  /** With duplicate ids, the last step wins in `processed_actions`. */
  lemma {:induction false} RecordLastWins(processed: map<string, Translated>, steps: seq<Step>, i: nat)
    requires i < |steps| && steps[i].id != ""
    requires forall j :: i < j < |steps| ==> steps[j].id != steps[i].id
    ensures steps[i].id in Record(processed, steps)
    ensures Record(processed, steps)[steps[i].id] == steps[i].result
  {
    var init := steps[..|steps| - 1];
    if i < |init| {
      assert init[i] == steps[i];
      assert forall j :: i < j < |init| ==> init[j] == steps[j];
      RecordLastWins(processed, init, i);
    }
  }

  /** Keys no step names keep their old value. */
  lemma {:induction false} RecordUntouched(processed: map<string, Translated>, steps: seq<Step>, k: string)
    requires k in processed
    requires forall j :: 0 <= j < |steps| ==> steps[j].id != k
    ensures k in Record(processed, steps)
    ensures Record(processed, steps)[k] == processed[k]
  {
    if steps != [] {
      var init := steps[..|steps| - 1];
      assert forall j :: 0 <= j < |init| ==> init[j] == steps[j];
      RecordKeys(processed, init);
      RecordUntouched(processed, init, k);
    }
  }

  lemma RecordSnoc(processed: map<string, Translated>, steps: seq<Step>, s: Step)
    ensures Record(processed, steps + [s]) ==
      if s.id != "" then Record(processed, steps)[s.id := s.result] else Record(processed, steps)
  {
    assert (steps + [s])[..|steps|] == steps;
  }

  lemma AttachSnoc(tree: map<string, seq<TreeEntry>>, steps: seq<Step>, s: Step)
    ensures var t := Attach(tree, steps);
      Attach(tree, steps + [s]) ==
      if s.id != "" then t[s.parentId := Lookup(t, s.parentId) + [TreeEntry(s.id, s.result)]] else t
  {
    assert (steps + [s])[..|steps|] == steps;
  }

  /** Folding one more step is folding it onto the result so far. */
  lemma FoldOneMore(processed: map<string, Translated>, tree: map<string, seq<TreeEntry>>, done: seq<Step>, s: Step)
    ensures Record(processed, done + [s]) == Record(Record(processed, done), [s])
    ensures Attach(tree, done + [s]) == Attach(Attach(tree, done), [s])
  {
    RecordSnoc(processed, done, s);
    AttachSnoc(tree, done, s);
    assert [] + [s] == [s];
    RecordSnoc(Record(processed, done), [], s);
    AttachSnoc(Attach(tree, done), [], s);
  }

  /** Under duplicate ids, `processed_actions` keeps the translation of the
      last action, in visiting order, that carries the id. */
  lemma LastActionWins(engine: Engine, doc: Document, parentMap: map<nat, nat>,
                       processed: map<string, Translated>, actions: seq<nat>, i: nat)
    requires ChildrenFollow(doc) && IndexesInto(parentMap, doc)
    requires forall j :: 0 <= j < |actions| ==> actions[j] < |doc|
    requires i < |actions| && Get(doc[actions[i]], "id", "") != ""
    requires forall j :: i < j < |actions| ==> Get(doc[actions[j]], "id", "") != Get(doc[actions[i]], "id", "")
    ensures var r := Record(processed, Steps(engine, doc, parentMap, actions));
      && Get(doc[actions[i]], "id", "") in r
      && r[Get(doc[actions[i]], "id", "")] == ProcessSingleAction(engine, ActionDataOf(doc, actions[i]))
  {
    var steps := Steps(engine, doc, parentMap, actions);
    StepsAt(engine, doc, parentMap, actions);
    forall j | i < j < |steps| ensures steps[j].id != steps[i].id {
      assert steps[j] == StepOf(engine, doc, parentMap, actions[j]);
    }
    RecordLastWins(processed, steps, i);
  }

  /** A step with a non-empty id is among the entries listed under its parent. */
  lemma {:induction false} UnderHas(steps: seq<Step>, i: nat)
    requires i < |steps| && steps[i].id != ""
    ensures TreeEntry(steps[i].id, steps[i].result) in Under(steps, steps[i].parentId)
  {
    if i > 0 {
      assert steps[1..][i - 1] == steps[i];
      UnderHas(steps[1..], i - 1);
    }
  }

  /** Every action with a non-empty id ends up in `action_tree`, in the list
      of the parent that `find_parent_action` names for it. */
  lemma ActionUnderItsParent(engine: Engine, doc: Document, parentMap: map<nat, nat>,
                             tree: map<string, seq<TreeEntry>>, actions: seq<nat>, i: nat)
    requires ChildrenFollow(doc) && IndexesInto(parentMap, doc)
    requires forall j :: 0 <= j < |actions| ==> actions[j] < |doc|
    requires i < |actions| && Get(doc[actions[i]], "id", "") != ""
    ensures TreeEntry(Get(doc[actions[i]], "id", ""), ProcessSingleAction(engine, ActionDataOf(doc, actions[i])))
      in Lookup(Attach(tree, Steps(engine, doc, parentMap, actions)), FindParentAction(doc, parentMap, actions[i]))
  {
    var steps := Steps(engine, doc, parentMap, actions);
    StepsAt(engine, doc, parentMap, actions);
    assert steps[i] == StepOf(engine, doc, parentMap, actions[i]);
    UnderHas(steps, i);
    AttachSpec(tree, steps);
  }

  class NintexToPowerAutomate {
    const engine: Engine
    var actionTree: map<string, seq<TreeEntry>>
    var processedActions: map<string, Translated>
    var parentMap: map<nat, nat>

    constructor (engine: Engine)
      ensures actionTree == map[] && processedActions == map[] && parentMap == map[]
    {
      this.engine := engine;
      actionTree := map[];
      processedActions := map[];
      parentMap := map[];
    }

    /** `load_workflow`: on success the parent index is rebuilt from the new
        document; a missing or malformed document leaves it as it was. */
    method LoadWorkflow(source: LoadSource) returns (root: Option<Document>)
      requires source.Loaded? ==> WellFormed(source.doc)
      modifies this`parentMap
      ensures source.Loaded? ==> root == Some(source.doc) && parentMap == ParentMap(source.doc)
      ensures !source.Loaded? ==> root == None && parentMap == old(parentMap)
    {
      match source
      case Missing =>
        root := None;
      case Malformed =>
        root := None;
      case Loaded(doc) =>
        parentMap := ParentMap(doc);
        root := Some(doc);
    }

    /** One iteration of the loop of `build_action_tree`. */
    method VisitAction(doc: Document, action: nat)
      requires ChildrenFollow(doc) && action < |doc| && IndexesInto(parentMap, doc)
      modifies this`actionTree, this`processedActions
      ensures var step := StepOf(engine, doc, parentMap, action);
        && processedActions == Record(old(processedActions), [step])
        && actionTree == Attach(old(actionTree), [step])
    {
      ghost var step := StepOf(engine, doc, parentMap, action);
      var actionId := Get(doc[action], "id", "");
      var parentId := FindParentAction(doc, parentMap, action);
      var actionData := ExtractActionProperties(doc, action);
      var processedAction := ProcessSingleAction(engine, actionData);
      assert step == Step(actionId, parentId, processedAction);
      assert [] + [step] == [step];
      RecordSnoc(processedActions, [], step);
      AttachSnoc(actionTree, [], step);
      if actionId != "" {
        processedActions := processedActions[actionId := processedAction];
        if parentId !in actionTree {
          actionTree := actionTree[parentId := []];
        }
        actionTree := actionTree[parentId := actionTree[parentId] + [TreeEntry(actionId, processedAction)]];
      }
    }

    /** `build_action_tree`: visits the actions in document order and
        accumulates into the two instance maps, which it does not reset. */
    method BuildActionTree(doc: Document) returns (tree: map<string, seq<TreeEntry>>)
      requires ChildrenFollow(doc) && |doc| > 0 && IndexesInto(parentMap, doc)
      modifies this`actionTree, this`processedActions
      ensures actionTree == Attach(old(actionTree), Steps(engine, doc, parentMap, Actions(doc)))
      ensures processedActions == Record(old(processedActions), Steps(engine, doc, parentMap, Actions(doc)))
      ensures tree == actionTree
    {
      var actions := FindAll(doc, 0, ActionTag);
      ghost var done: seq<Step> := [];
      var i := 0;
      while i < |actions|
        invariant 0 <= i <= |actions|
        invariant done == Steps(engine, doc, parentMap, actions[..i])
        invariant actionTree == Attach(old(actionTree), done)
        invariant processedActions == Record(old(processedActions), done)
      {
        ghost var step := StepOf(engine, doc, parentMap, actions[i]);
        StepsPrefix(engine, doc, parentMap, actions, i);
        FoldOneMore(old(processedActions), old(actionTree), done, step);
        VisitAction(doc, actions[i]);
        done := done + [step];
        i := i + 1;
      }
      assert actions[..i] == actions;
      tree := actionTree;
    }

    /** `process_workflow`: a load failure is reported with empty maps and
        leaves the instance maps alone; otherwise the result is the two
        instance maps after building. */
    method ProcessWorkflow(source: LoadSource) returns (result: WorkflowResult)
      requires source.Loaded? ==> WellFormed(source.doc)
      modifies this
      ensures !source.Loaded? ==>
        && result == WorkflowResult(Some(LoadError), map[], map[])
        && actionTree == old(actionTree) && processedActions == old(processedActions)
        && parentMap == old(parentMap)
      ensures source.Loaded? ==>
        var steps := Steps(engine, source.doc, ParentMap(source.doc), Actions(source.doc));
        && parentMap == ParentMap(source.doc)
        && actionTree == Attach(old(actionTree), steps)
        && processedActions == Record(old(processedActions), steps)
        && result == WorkflowResult(None, actionTree, processedActions)
    {
      var root := LoadWorkflow(source);
      if root.None? {
        return WorkflowResult(Some(LoadError), map[], map[]);
      }
      var tree := BuildActionTree(root.value);
      result := WorkflowResult(None, tree, processedActions);
    }
  }
}
