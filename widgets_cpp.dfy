/**
 * The C++ version of the widgets benchmark
 * (benchmarks/widgets/single-file/cpp/widgets.cpp): the vector helpers,
 * contexts, the render-node id counter, reduction of a render tree to
 * entities, reconciliation and the scene diff.
 *
 * Vectors are handed around by pointer but never changed once shared, so
 * each is its value, a sequence; the `double` counters and loop indices are
 * naturals.
 */
module WidgetsCpp {
  import opened Wrappers
  import opened WidgetTree

  // ---------------------------------------------------------------------
  // Vector helpers (lines 19-65)
  // ---------------------------------------------------------------------

  /** arrayMap: the callback applied to each element and its index, in order. */
  method ArrayMap<A, B>(input: seq<A>, cb: (A, nat) -> B) returns (res: seq<B>)
    ensures |res| == |input|
    ensures forall i | 0 <= i < |input| :: res[i] == cb(input[i], i)
  {
    res := [];
    var i := 0;
    while i < |input|
      invariant 0 <= i <= |input|
      invariant |res| == i
      invariant forall j | 0 <= j < i :: res[j] == cb(input[j], j)
    {
      res := res + [cb(input[i], i)];
      i := i + 1;
    }
  }

  /** The elements of xs the predicate keeps, in order. */
  function Filtered<T>(xs: seq<T>, keep: T -> bool): seq<T>
  {
    if xs == [] then []
    else Filtered(xs[..|xs| - 1], keep) + (if keep(xs[|xs| - 1]) then [xs[|xs| - 1]] else [])
  }

  /** A filter keeps exactly the elements the predicate accepts. */
  lemma {:induction false} FilteredMembers<T>(xs: seq<T>, keep: T -> bool, x: T)
    ensures x in Filtered(xs, keep) <==> x in xs && keep(x)
  {
    if xs != [] {
      var pre := xs[..|xs| - 1];
      assert xs == pre + [xs[|xs| - 1]];
      FilteredMembers(pre, keep, x);
    }
  }

  /** Filtering with "not included in ys" is the order-keeping difference. */
  lemma {:induction false} FilteredNotIn<T(!new)>(xs: seq<T>, ys: seq<T>)
    ensures Filtered(xs, x => x !in ys) == Missing(xs, ys)
  {
    if xs != [] {
      FilteredNotIn(xs[..|xs| - 1], ys);
    }
  }

  /** arrayFilter: the elements the callback accepts, in order. */
  method ArrayFilter<T>(input: seq<T>, cb: T -> bool) returns (res: seq<T>)
    ensures res == Filtered(input, cb)
  {
    res := [];
    var i := 0;
    while i < |input|
      invariant 0 <= i <= |input|
      invariant res == Filtered(input[..i], cb)
    {
      var el := input[i];
      assert input[..i + 1][..i] == input[..i];
      if cb(el) {
        res := res + [el];
      }
      i := i + 1;
    }
    assert input[..i] == input;
  }

  /** arrayIncludes: membership. */
  method ArrayIncludes<T(==)>(input: seq<T>, t: T) returns (found: bool)
    ensures found <==> t in input
  {
    var i := 0;
    while i < |input|
      invariant 0 <= i <= |input|
      invariant t !in input[..i]
    {
      if input[i] == t {
        return true;
      }
      assert input[..i + 1] == input[..i] + [input[i]];
      i := i + 1;
    }
    assert input[..i] == input;
    return false;
  }

  /** arrayConcat: the first vector followed by the second. */
  method ArrayConcat<T>(arr1: seq<T>, arr2: seq<T>) returns (result: seq<T>)
    ensures result == arr1 + arr2
  {
    result := [];
    var i := 0;
    while i < |arr1|
      invariant 0 <= i <= |arr1|
      invariant result == arr1[..i]
    {
      assert arr1[..i + 1] == arr1[..i] + [arr1[i]];
      result := result + [arr1[i]];
      i := i + 1;
    }
    assert arr1[..i] == arr1;
    var j := 0;
    while j < |arr2|
      invariant 0 <= j <= |arr2|
      invariant result == arr1 + arr2[..j]
    {
      assert arr2[..j + 1] == arr2[..j] + [arr2[j]];
      result := result + [arr2[j]];
      j := j + 1;
    }
    assert arr2[..j] == arr2;
  }

  // ---------------------------------------------------------------------
  // Contexts and render nodes (lines 100-168)
  // ---------------------------------------------------------------------

  class Context {
    var key: string
    var childCounter: nat

    constructor(key: string)
      ensures this.key == key && childCounter == 0
    {
      this.key := key;
      childCounter := 0;
    }

    /**
     * Context::createForChild, with the counter printed as the integer it
     * holds (see ChildKeyAsWritten): the child key is the widget's key,
     * else `${typeName}_${counter}` and the counter advances.
     * `typeid(*child).name()` is implementation-defined, so it is a parameter.
     */
    static method CreateForChild(parentCtx: Context, widgetKey: Option<string>, typeName: string) returns (c: Context)
      modifies parentCtx
      ensures fresh(c)
      ensures c.key == Joined(parentCtx.key, ChildKey(widgetKey, typeName, old(parentCtx.childCounter))) && c.childCounter == 0
      ensures parentCtx.key == old(parentCtx.key)
      ensures parentCtx.childCounter == old(parentCtx.childCounter) + (if widgetKey.Some? then 0 else 1)
    {
      var childKey: string;
      if widgetKey.Some? {
        childKey := widgetKey.value;
      } else {
        childKey := Joined(typeName, NatText(parentCtx.childCounter));
        parentCtx.childCounter := parentCtx.childCounter + 1;
      }
      c := new Context(Joined(parentCtx.key, childKey));
    }
  }

  /** The decimal text `%d` prints for an int. */
  function IntText(n: int): (r: string)
    ensures n >= 0 ==> r == NatText(n)
    ensures n < 0 ==> |r| >= 2 && r[0] == '-' && r[1..] == NatText(-n)
  {
    if n < 0 then "-" + NatText(-n) else NatText(n)
  }

  /**
   * The child key as line 116 writes it: `%d` is handed the `double`
   * counter, which is undefined behaviour. What gets printed is whatever int
   * the variadic call reads in its place (`intRead`), not the counter.
   */
  function ChildKeyAsWritten(widgetKey: Option<string>, name: string, counter: nat, intRead: int): (r: string)
    ensures widgetKey.Some? ==> r == ChildKey(widgetKey, name, counter)
    ensures intRead == counter ==> r == ChildKey(widgetKey, name, counter)
  {
    if widgetKey.Some? then widgetKey.value else Joined(name, IntText(intRead))
  }

  /**
   * As written, two unkeyed children of one parent, named at different
   * counter values, get the same key whenever the same int is read, while
   * the intended keys differ.
   */
  lemma UnkeyedChildKeysCollideAsWritten(parentKey: string, name: string, intRead: int)
    ensures Joined(parentKey, ChildKeyAsWritten(None, name, 0, intRead)) ==
            Joined(parentKey, ChildKeyAsWritten(None, name, 1, intRead))
    ensures Joined(parentKey, ChildKey(None, name, 0)) != Joined(parentKey, ChildKey(None, name, 1))
  {
    UnkeyedChildKeysDistinct(parentKey, name, 0, name, 1);
  }

  /** The static `RenderNode::idCounter` and `RenderNode::create`. */
  class RenderNodeIds {
    var idCounter: nat

    constructor()
      ensures idCounter == 0
    {
      idCounter := 0;
    }

    /** RenderNode::create: a node keyed by the context, with the next id. */
    method Create(ctx: Context, components: seq<ComponentId>, children: Option<seq<RenderNode>>) returns (n: RenderNode)
      modifies this
      ensures n == NewRenderNode(ctx.key, old(idCounter), components, children)
      ensures idCounter == old(idCounter) + 1
    {
      n := NewRenderNode(ctx.key, idCounter, components, children);
      idCounter := idCounter + 1;
    }
  }

  /** RenderNode::reduce: the children's entities flattened, then the node's own entity put in front. */
  method Reduce(n: RenderNode) returns (entities: seq<Entity>)
    ensures entities == WidgetTree.Reduce(n)
    decreases n, 1
  {
    var flat := ReduceChildren(n.children);
    entities := ArrayConcat([Entity(n.id, n.components)], flat);
  }

  /** The nested loops of RenderNode::reduce: each child's entities pushed one by one. */
  method ReduceChildren(children: seq<RenderNode>) returns (flat: seq<Entity>)
    ensures flat == ReduceAll(children)
    decreases children, 0
  {
    flat := [];
    var i := 0;
    while i < |children|
      invariant 0 <= i <= |children|
      invariant flat == ReduceAll(children[..i])
    {
      var child := children[i];
      assert children[..i + 1][..i] == children[..i];
      var sub := Reduce(child);
      ghost var before := flat;
      var k := 0;
      while k < |sub|
        invariant 0 <= k <= |sub|
        invariant flat == before + sub[..k]
      {
        assert sub[..k + 1] == sub[..k] + [sub[k]];
        flat := flat + [sub[k]];
        k := k + 1;
      }
      assert sub[..k] == sub;
      i := i + 1;
    }
    assert children[..i] == children;
  }

  // ---------------------------------------------------------------------
  // Reconciliation (lines 332-360)
  // ---------------------------------------------------------------------

  /** reconcileRenderNode. */
  method ReconcileRenderNode(newNode: RenderNode, oldNode: RenderNode) returns (r: RenderNode)
    ensures r == Reconciled(FirstWins, newNode, oldNode)
    decreases newNode, 1
  {
    var children := ReconcileChildren(newNode.children, oldNode.children);
    r := NewRenderNode(newNode.key, oldNode.id, newNode.components, Some(children));
  }

  /**
   * reconcileChildren: the old children go into an unordered_map by key with
   * `emplace`, which leaves an existing entry in place.
   */
  method ReconcileChildren(newChildren: seq<RenderNode>, oldChildren: seq<RenderNode>) returns (outChildren: seq<RenderNode>)
    ensures outChildren == ReconciledChildren(FirstWins, newChildren, OldByKey(FirstWins, oldChildren))
    decreases newChildren, 0
  {
    var oldChildrenByKey: map<string, RenderNode> := map[];
    var i := 0;
    while i < |oldChildren|
      invariant 0 <= i <= |oldChildren|
      invariant oldChildrenByKey == OldByKey(FirstWins, oldChildren[..i])
    {
      var child := oldChildren[i];
      assert oldChildren[..i + 1][..i] == oldChildren[..i];
      if child.key !in oldChildrenByKey {
        oldChildrenByKey := oldChildrenByKey[child.key := child];
      }
      i := i + 1;
    }
    assert oldChildren[..i] == oldChildren;
    outChildren := [];
    var j := 0;
    while j < |newChildren|
      invariant 0 <= j <= |newChildren|
      invariant outChildren == ReconciledChildren(FirstWins, newChildren[..j], oldChildrenByKey)
    {
      var child := newChildren[j];
      assert newChildren[..j + 1][..j] == newChildren[..j];
      if child.key in oldChildrenByKey {
        var reconciled := ReconcileRenderNode(child, oldChildrenByKey[child.key]);
        outChildren := outChildren + [reconciled];
      } else {
        outChildren := outChildren + [child];
      }
      j := j + 1;
    }
    assert newChildren[..j] == newChildren;
  }

  // ---------------------------------------------------------------------
  // Grouping and diffing (lines 362-465)
  // ---------------------------------------------------------------------

  /**
   * mapEntitiesToComponents: `vec` records each id once, when it is first
   * met, and `map` holds the vector its components are pushed onto.
   */
  method MapEntitiesToComponents(entities: seq<Entity>) returns (vec: seq<int>, m: map<int, seq<ComponentId>>)
    ensures (vec, m) == Grouped(entities)
  {
    vec, m := [], map[];
    var i := 0;
    while i < |entities|
      invariant 0 <= i <= |entities|
      invariant (vec, m) == Grouped(entities[..i])
    {
      var key := entities[i].entityId;
      var value := entities[i].entityComponents;
      assert entities[..i + 1][..i] == entities[..i];
      assert entities[..i + 1][i] == entities[i];
      ghost var g := Grouped(entities[..i + 1]);
      if key !in m {
        m := m[key := []];
        vec := vec + [key];
        assert g.1 == m[key := [] + value];
      }
      var components := PushAll(m[key], value);
      m := m[key := components];
      i := i + 1;
    }
    assert entities[..i] == entities;
  }

  /** `for (auto *v : *value) components->push_back(v)`. */
  method PushAll(components: seq<ComponentId>, value: seq<ComponentId>) returns (r: seq<ComponentId>)
    ensures r == components + value
  {
    r := components;
    var k := 0;
    while k < |value|
      invariant 0 <= k <= |value|
      invariant r == components + value[..k]
    {
      assert value[..k + 1] == value[..k] + [value[k]];
      r := r + [value[k]];
      k := k + 1;
    }
    assert value[..k] == value;
  }

  /** The forEach over the created entities: each one's components, paired with its id. */
  method PushEntityPairs(createdEntities: seq<int>, newComponents: map<int, seq<ComponentId>>) returns (createdComponents: seq<ComponentPair>)
    ensures createdComponents == EntityPairs(createdEntities, newComponents)
  {
    createdComponents := [];
    var i := 0;
    while i < |createdEntities|
      invariant 0 <= i <= |createdEntities|
      invariant createdComponents == EntityPairs(createdEntities[..i], newComponents)
    {
      var entityId := createdEntities[i];
      assert createdEntities[..i + 1][..i] == createdEntities[..i];
      if entityId in newComponents {
        var components := ArrayMap(newComponents[entityId], (component, _) => ComponentPair(entityId, component));
        createdComponents := createdComponents + components;
      }
      i := i + 1;
    }
    assert createdEntities[..i] == createdEntities;
  }

  /**
   * mapVectorForEach over the new groups: for each id the old groups also
   * hold, the components only the old vector has are deleted and those only
   * the new vector has are created.
   */
  method PushChangedPairs(vec: seq<int>, newComponents: map<int, seq<ComponentId>>, oldComponents: map<int, seq<ComponentId>>,
                          createdSoFar: seq<ComponentPair>)
    returns (createdComponents: seq<ComponentPair>, deletedComponents: seq<ComponentPair>)
    requires forall i | 0 <= i < |vec| :: vec[i] in newComponents
    ensures createdComponents == createdSoFar + ChangedPairs(vec, newComponents, oldComponents).0
    ensures deletedComponents == ChangedPairs(vec, newComponents, oldComponents).1
  {
    createdComponents, deletedComponents := createdSoFar, [];
    var j := 0;
    while j < |vec|
      invariant 0 <= j <= |vec|
      invariant createdComponents == createdSoFar + ChangedPairs(vec[..j], newComponents, oldComponents).0
      invariant deletedComponents == ChangedPairs(vec[..j], newComponents, oldComponents).1
    {
      var key := vec[j];
      assert vec[..j + 1][..j] == vec[..j];
      ghost var acc := ChangedPairs(vec[..j], newComponents, oldComponents);
      if key in oldComponents {
        var deleted, created := ComponentChanges(oldComponents[key], newComponents[key]);
        deletedComponents := deletedComponents + Tagged(key, deleted);
        createdComponents := createdComponents + Tagged(key, created);
        assert createdSoFar + acc.0 + Tagged(key, created) == createdSoFar + (acc.0 + Tagged(key, created));
      }
      j := j + 1;
    }
    assert vec[..j] == vec;
  }

  /** The two arrayFilter calls for one id: the components only the old, and only the new, vector holds. */
  method ComponentChanges(oldComponentsForKey: seq<ComponentId>, newComponentsForKey: seq<ComponentId>)
    returns (deleted: seq<ComponentId>, created: seq<ComponentId>)
    ensures deleted == Missing(oldComponentsForKey, newComponentsForKey)
    ensures created == Missing(newComponentsForKey, oldComponentsForKey)
  {
    deleted := ArrayFilter(oldComponentsForKey, component => component !in newComponentsForKey);
    created := ArrayFilter(newComponentsForKey, component => component !in oldComponentsForKey);
    FilteredNotIn(oldComponentsForKey, newComponentsForKey);
    FilteredNotIn(newComponentsForKey, oldComponentsForKey);
  }

  /** diffTrees. */
  method DiffTrees(newEntities: seq<Entity>, oldEntities: seq<Entity>) returns (diff: SceneDiff)
    ensures diff == DiffSpec(newEntities, oldEntities)
  {
    var oldEntityIds := ArrayMap(oldEntities, (entity: Entity, _) => entity.entityId);
    var newEntityIds := ArrayMap(newEntities, (entity: Entity, _) => entity.entityId);
    assert oldEntityIds == Ids(oldEntities) && newEntityIds == Ids(newEntities);
    var createdEntities := ArrayFilter(newEntityIds, id => id !in oldEntityIds);
    var deletedEntities := ArrayFilter(oldEntityIds, id => id !in newEntityIds);
    FilteredNotIn(newEntityIds, oldEntityIds);
    FilteredNotIn(oldEntityIds, newEntityIds);
    var oldVec, oldComponents := MapEntitiesToComponents(oldEntities);
    var newVec, newComponents := MapEntitiesToComponents(newEntities);
    GroupedMeaning(newEntities);
    var createdComponents := PushEntityPairs(createdEntities, newComponents);
    var deletedComponents;
    createdComponents, deletedComponents := PushChangedPairs(newVec, newComponents, oldComponents, createdComponents);
    diff := SceneDiff(createdEntities, deletedEntities, createdComponents, deletedComponents);
  }
}
