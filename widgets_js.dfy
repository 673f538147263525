/**
 * The JavaScript version of the widgets benchmark
 * (benchmarks/widgets/single-file/stripped/widgets.js): contexts that name
 * child nodes, the render-node id counter, reconciliation of a new render
 * tree against an old one, the grouping of entities by id and the scene
 * diff.
 */
module WidgetsJs {
  import opened Wrappers
  import opened WidgetTree

  /** The data a ButtonAndModel widget renders. Sizes are the integers of the size tables. */
  datatype RenderData = RenderData(modelPath: string, buttonSize: nat)

  /** A widget as createForChild sees it: its class name and its `key` property. */
  datatype Widget =
    | ButtonAndModel(data: RenderData, widgetKey: Option<string>)
    | OtherWidget(className: string, widgetKey: Option<string>)

  /** `child.constructor.name`. */
  function ClassName(w: Widget): string
  {
    match w
    case ButtonAndModel(_, _) => "ButtonAndModel"
    case OtherWidget(name, _) => name
  }

  class Context {
    var key: string
    var childCounter: nat

    constructor(key: string)
      ensures this.key == key && childCounter == 0
    {
      this.key := key;
      childCounter := 0;
    }

    /**
     * Context.createForChild: the child context's key is
     * `${parentKey}_${childKey}`, and the parent's counter advances exactly
     * when the child has no key of its own.
     */
    static method CreateForChild(parentCtx: Context, child: Widget) returns (c: Context)
      modifies parentCtx
      ensures fresh(c)
      ensures c.key == Joined(parentCtx.key, ChildKey(child.widgetKey, ClassName(child), old(parentCtx.childCounter))) && c.childCounter == 0
      ensures parentCtx.key == old(parentCtx.key)
      ensures parentCtx.childCounter == old(parentCtx.childCounter) + (if child.widgetKey.Some? then 0 else 1)
    {
      var childKey: string;
      if child.widgetKey.Some? {
        childKey := child.widgetKey.value;
      } else {
        childKey := Joined(ClassName(child), NatText(parentCtx.childCounter));
        parentCtx.childCounter := parentCtx.childCounter + 1;
      }
      c := new Context(Joined(parentCtx.key, childKey));
    }
  }

  /** The static `RenderNode.idCounter` and `RenderNode.create`. */
  class RenderNodeIds {
    var idCounter: nat

    constructor()
      ensures idCounter == 0
    {
      idCounter := 0;
    }

    /** RenderNode.create: a node keyed by the context, with the next id. */
    method Create(ctx: Context, components: seq<ComponentId>, children: Option<seq<RenderNode>>) returns (n: RenderNode)
      modifies this
      ensures n == NewRenderNode(ctx.key, old(idCounter), components, children)
      ensures idCounter == old(idCounter) + 1
    {
      n := NewRenderNode(ctx.key, idCounter, components, children);
      idCounter := idCounter + 1;
    }
  }

  // ---------------------------------------------------------------------
  // Reconciliation (lines 74-96)
  // ---------------------------------------------------------------------

  /** reconcileRenderNode. */
  method ReconcileRenderNode(newNode: RenderNode, oldNode: RenderNode) returns (r: RenderNode)
    ensures r == Reconciled(LastWins, newNode, oldNode)
    decreases newNode, 1
  {
    var children := ReconcileChildren(newNode.children, oldNode.children);
    r := RenderNode(newNode.key, oldNode.id, newNode.components, children);
  }

  /** reconcileChildren: the old children go into a Map by key, where a later child replaces an earlier one. */
  method ReconcileChildren(newChildren: seq<RenderNode>, oldChildren: seq<RenderNode>) returns (outChildren: seq<RenderNode>)
    ensures outChildren == ReconciledChildren(LastWins, newChildren, OldByKey(LastWins, oldChildren))
    decreases newChildren, 0
  {
    var oldChildrenByKey: map<string, RenderNode> := map[];
    var i := 0;
    while i < |oldChildren|
      invariant 0 <= i <= |oldChildren|
      invariant oldChildrenByKey == OldByKey(LastWins, oldChildren[..i])
    {
      assert oldChildren[..i + 1][..i] == oldChildren[..i];
      oldChildrenByKey := oldChildrenByKey[oldChildren[i].key := oldChildren[i]];
      i := i + 1;
    }
    assert oldChildren[..i] == oldChildren;
    outChildren := [];
    var j := 0;
    while j < |newChildren|
      invariant 0 <= j <= |newChildren|
      invariant outChildren == ReconciledChildren(LastWins, newChildren[..j], oldChildrenByKey)
    {
      var child := newChildren[j];
      assert newChildren[..j + 1][..j] == newChildren[..j];
      if child.key in oldChildrenByKey {
        var reconciled := ReconcileRenderNode(child, oldChildrenByKey[child.key]);
        outChildren := outChildren + [reconciled];
      } else {
        outChildren := outChildren + [child];
      }
      j := j + 1;
    }
    assert newChildren[..j] == newChildren;
  }

  // ---------------------------------------------------------------------
  // Grouping and diffing (lines 97-155)
  // ---------------------------------------------------------------------

  /**
   * mapEntitiesToComponents: a Map from id to the list of its components,
   * with its keys in insertion order.
   */
  method MapEntitiesToComponents(entities: seq<Entity>) returns (keys: seq<int>, groups: map<int, seq<ComponentId>>)
    ensures (keys, groups) == Grouped(entities)
  {
    keys, groups := [], map[];
    var i := 0;
    while i < |entities|
      invariant 0 <= i <= |entities|
      invariant (keys, groups) == Grouped(entities[..i])
    {
      var key := entities[i].entityId;
      var value := entities[i].entityComponents;
      assert entities[..i + 1][..i] == entities[..i];
      assert entities[..i + 1][i] == entities[i];
      ghost var g := Grouped(entities[..i + 1]);
      if key !in groups {
        keys := keys + [key];
        groups := groups[key := []];
        assert groups[key] + value == [] + value;
        assert g.1 == groups[key := [] + value];
      }
      groups := groups[key := groups[key] + value];
      i := i + 1;
    }
    assert entities[..i] == entities;
  }

  /** createdEntities.forEach: every component of each created entity, paired with its id. */
  method PushEntityPairs(createdEntities: seq<int>, newComponents: map<int, seq<ComponentId>>) returns (createdComponents: seq<ComponentPair>)
    ensures createdComponents == EntityPairs(createdEntities, newComponents)
  {
    createdComponents := [];
    var i := 0;
    while i < |createdEntities|
      invariant 0 <= i <= |createdEntities|
      invariant createdComponents == EntityPairs(createdEntities[..i], newComponents)
    {
      var entityId := createdEntities[i];
      assert createdEntities[..i + 1][..i] == createdEntities[..i];
      var components := if entityId in newComponents then newComponents[entityId] else [];
      createdComponents := createdComponents + Tagged(entityId, components);
      i := i + 1;
    }
    assert createdEntities[..i] == createdEntities;
  }

  /**
   * newComponents.forEach: for each id the old list also has, the components
   * only the old list holds are deleted and those only the new list holds
   * are created.
   */
  method PushChangedPairs(newKeys: seq<int>, newComponents: map<int, seq<ComponentId>>, oldComponents: map<int, seq<ComponentId>>,
                          createdSoFar: seq<ComponentPair>)
    returns (createdComponents: seq<ComponentPair>, deletedComponents: seq<ComponentPair>)
    requires forall i | 0 <= i < |newKeys| :: newKeys[i] in newComponents
    ensures createdComponents == createdSoFar + ChangedPairs(newKeys, newComponents, oldComponents).0
    ensures deletedComponents == ChangedPairs(newKeys, newComponents, oldComponents).1
  {
    createdComponents, deletedComponents := createdSoFar, [];
    var j := 0;
    while j < |newKeys|
      invariant 0 <= j <= |newKeys|
      invariant createdComponents == createdSoFar + ChangedPairs(newKeys[..j], newComponents, oldComponents).0
      invariant deletedComponents == ChangedPairs(newKeys[..j], newComponents, oldComponents).1
    {
      var key := newKeys[j];
      assert newKeys[..j + 1][..j] == newKeys[..j];
      ghost var acc := ChangedPairs(newKeys[..j], newComponents, oldComponents);
      if key in oldComponents {
        var oldComponentsForKey := oldComponents[key];
        var newComponentsForKey := newComponents[key];
        var deleted := Missing(oldComponentsForKey, newComponentsForKey);
        var created := Missing(newComponentsForKey, oldComponentsForKey);
        deletedComponents := deletedComponents + Tagged(key, deleted);
        createdComponents := createdComponents + Tagged(key, created);
        assert createdSoFar + acc.0 + Tagged(key, created) == createdSoFar + (acc.0 + Tagged(key, created));
      }
      j := j + 1;
    }
    assert newKeys[..j] == newKeys;
  }

  /** diffTrees. */
  method DiffTrees(newEntities: seq<Entity>, oldEntities: seq<Entity>) returns (diff: SceneDiff)
    ensures diff == DiffSpec(newEntities, oldEntities)
  {
    var oldEntityIds := Ids(oldEntities);
    var newEntityIds := Ids(newEntities);
    var createdEntities := Missing(newEntityIds, oldEntityIds);
    var deletedEntities := Missing(oldEntityIds, newEntityIds);
    var oldKeys, oldComponents := MapEntitiesToComponents(oldEntities);
    var newKeys, newComponents := MapEntitiesToComponents(newEntities);
    GroupedMeaning(newEntities);
    var createdComponents := PushEntityPairs(createdEntities, newComponents);
    var deletedComponents;
    createdComponents, deletedComponents := PushChangedPairs(newKeys, newComponents, oldComponents, createdComponents);
    diff := SceneDiff(createdEntities, deletedEntities, createdComponents, deletedComponents);
  }

  // ---------------------------------------------------------------------
  // The widget list (lines 236-249)
  // ---------------------------------------------------------------------

  /** TestApp.getWidgets: one keyed ButtonAndModel per model path, or the length error. */
  function GetWidgets(sizes: seq<nat>, models: seq<string>): (r: Result<seq<Widget>>)
    ensures r.Err? <==> |sizes| != |models|
    ensures r.Ok? ==> |r.value| == |models| && forall i | 0 <= i < |models| ::
      r.value[i] == ButtonAndModel(RenderData(models[i], sizes[i]), Some(Joined(models[i], NatText(sizes[i]))))
  {
    if |sizes| != |models| then Err("sizes and models must have same length")
    else Ok(seq(|models|, i requires 0 <= i < |models| =>
      ButtonAndModel(RenderData(models[i], sizes[i]), Some(Joined(models[i], NatText(sizes[i]))))))
  }

  /** Widgets with different model paths or sizes get different keys. */
  lemma GetWidgetsKeysDistinct(sizes: seq<nat>, models: seq<string>, i: nat, j: nat)
    requires |sizes| == |models| && i < |models| && j < |models|
    requires models[i] != models[j] || sizes[i] != sizes[j]
    ensures GetWidgets(sizes, models).value[i].widgetKey != GetWidgets(sizes, models).value[j].widgetKey
  {
    var ws := GetWidgets(sizes, models).value;
    NatTextNoUnderscore(sizes[i]);
    NatTextNoUnderscore(sizes[j]);
    if ws[i].widgetKey == ws[j].widgetKey {
      JoinedSplits(models[i], NatText(sizes[i]), models[j], NatText(sizes[j]));
      NatTextInjective(sizes[i], sizes[j]);
    }
  }
}
