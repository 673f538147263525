/**
 * The render tree, the entity list and the scene diff shared by the two
 * versions of the widgets benchmark
 * (benchmarks/widgets/single-file/stripped/widgets.js and
 * benchmarks/widgets/single-file/cpp/widgets.cpp), with the specification
 * functions both versions are proved against.
 *
 * Components are objects compared by identity (`includes` in the JavaScript
 * version, pointer `==` in the C++ one), so a component is its identity here.
 * Entity ids are the values of the `idCounter` counter.
 */
module WidgetTree {
  import opened Wrappers

  /** The identity of a component object. */
  type ComponentId = nat

  datatype RenderNode = RenderNode(key: string, id: int, components: seq<ComponentId>, children: seq<RenderNode>)

  /** A virtual entity: `[id, components]`. */
  datatype Entity = Entity(entityId: int, entityComponents: seq<ComponentId>)

  /** A component pair: `[entityId, component]`. */
  datatype ComponentPair = ComponentPair(pairEntity: int, pairComponent: ComponentId)

  datatype SceneDiff = SceneDiff(
    createdEntities: seq<int>,
    deletedEntities: seq<int>,
    createdComponents: seq<ComponentPair>,
    deletedComponents: seq<ComponentPair>)

  // ---------------------------------------------------------------------
  // Keys
  // ---------------------------------------------------------------------

  function Digit(d: nat): (c: char)
    requires d < 10
    ensures '0' <= c <= '9'
  {
    "0123456789"[d]
  }

  /** The decimal text of a counter, as `${n}` writes a non-negative integer. */
  function NatText(n: nat): (r: string)
    ensures r != []
    ensures forall i | 0 <= i < |r| :: '0' <= r[i] <= '9'
    ensures n >= 10 ==> |r| >= 2
  {
    if n < 10 then [Digit(n)] else NatText(n / 10) + [Digit(n % 10)]
  }

  lemma DigitInjective(a: nat, b: nat)
    requires a < 10 && b < 10 && Digit(a) == Digit(b)
    ensures a == b
  {
  }

  /** Different counters have different texts. */
  lemma {:induction false} NatTextInjective(a: nat, b: nat)
    requires NatText(a) == NatText(b)
    ensures a == b
  {
    var ta, tb := NatText(a), NatText(b);
    if a < 10 && b < 10 {
      DigitInjective(a, b);
    } else if a >= 10 && b >= 10 {
      assert ta[|ta| - 1] == Digit(a % 10) && tb[|tb| - 1] == Digit(b % 10);
      DigitInjective(a % 10, b % 10);
      assert ta[..|ta| - 1] == NatText(a / 10);
      assert tb[..|tb| - 1] == NatText(b / 10);
      NatTextInjective(a / 10, b / 10);
    }
  }

  /** `${prefix}_${suffix}`. */
  function Joined(prefix: string, suffix: string): (r: string)
    ensures |r| == |prefix| + 1 + |suffix|
    ensures r[|prefix|] == '_'
  {
    prefix + "_" + suffix
  }

  /** The text has no underscore. */
  predicate NoUnderscore(s: string)
  {
    forall i | 0 <= i < |s| :: s[i] != '_'
  }

  /** A suffix without underscores is recovered from the joined text: it follows the last underscore. */
  lemma JoinedSplits(p1: string, s1: string, p2: string, s2: string)
    requires NoUnderscore(s1) && NoUnderscore(s2)
    requires Joined(p1, s1) == Joined(p2, s2)
    ensures p1 == p2 && s1 == s2
  {
    var j := Joined(p1, s1);
    assert p1 == j[..|p1|] == p2;
    assert s1 == j[|p1| + 1..] == s2;
  }

  lemma NatTextNoUnderscore(n: nat)
    ensures NoUnderscore(NatText(n))
  {
  }

  /**
   * The child part of a context key (createForChild): the widget's own key,
   * else `${name}_${counter}` with the parent's child counter.
   */
  function ChildKey(widgetKey: Option<string>, name: string, counter: nat): string
  {
    if widgetKey.Some? then widgetKey.value else Joined(name, NatText(counter))
  }

  /**
   * Two children without keys named under one parent at different counter
   * values get different context keys, whatever their names.
   */
  lemma UnkeyedChildKeysDistinct(parentKey: string, name1: string, n1: nat, name2: string, n2: nat)
    requires n1 != n2
    ensures Joined(parentKey, ChildKey(None, name1, n1)) != Joined(parentKey, ChildKey(None, name2, n2))
  {
    var d1, d2 := NatText(n1), NatText(n2);
    assert Joined(parentKey, ChildKey(None, name1, n1)) == Joined(Joined(parentKey, name1), d1);
    assert Joined(parentKey, ChildKey(None, name2, n2)) == Joined(Joined(parentKey, name2), d2);
    NatTextNoUnderscore(n1);
    NatTextNoUnderscore(n2);
    if Joined(parentKey, ChildKey(None, name1, n1)) == Joined(parentKey, ChildKey(None, name2, n2)) {
      JoinedSplits(Joined(parentKey, name1), d1, Joined(parentKey, name2), d2);
      NatTextInjective(n1, n2);
    }
  }

  // ---------------------------------------------------------------------
  // Filters and grouping over entity lists
  // ---------------------------------------------------------------------

  /** `xs.filter(x => !ys.includes(x))`: the elements of xs that are not in ys, in order. */
  function Missing<T(==,!new)>(xs: seq<T>, ys: seq<T>): (r: seq<T>)
    ensures |r| <= |xs|
    ensures forall x :: x in r <==> x in xs && x !in ys
  {
    if xs == [] then []
    else
      var pre := xs[..|xs| - 1];
      var x := xs[|xs| - 1];
      assert xs == pre + [x];
      Missing(pre, ys) + (if x in ys then [] else [x])
  }

  /** `entities.map(entity => entity[0])`. */
  function Ids(es: seq<Entity>): (r: seq<int>)
    ensures |r| == |es|
    ensures forall i | 0 <= i < |es| :: r[i] == es[i].entityId
  {
    seq(|es|, i requires 0 <= i < |es| => es[i].entityId)
  }

  /** The index of the first occurrence of x in xs, |xs| when there is none. */
  function FirstIndex(xs: seq<int>, x: int): (r: nat)
    ensures r <= |xs|
    ensures r < |xs| ==> xs[r] == x
    ensures forall q | 0 <= q < r :: xs[q] != x
  {
    if xs == [] then 0
    else if xs[0] == x then 0
    else 1 + FirstIndex(xs[1..], x)
  }

  lemma FirstIndexSnoc(xs: seq<int>, y: int, x: int)
    ensures x in xs ==> FirstIndex(xs + [y], x) == FirstIndex(xs, x)
    ensures x !in xs && x == y ==> FirstIndex(xs + [y], x) == |xs|
  {
    var r := FirstIndex(xs + [y], x);
    if x in xs {
      var f := FirstIndex(xs, x);
      assert (xs + [y])[f] == x;
    }
    if x !in xs && x == y {
      assert (xs + [y])[|xs|] == x;
    }
  }

  /** The components of every entity with id k, concatenated in entity order. */
  function ComponentsOf(es: seq<Entity>, k: int): seq<ComponentId>
  {
    if es == [] then []
    else
      var e := es[|es| - 1];
      ComponentsOf(es[..|es| - 1], k) + (if e.entityId == k then e.entityComponents else [])
  }

  /** A component of id k's list comes from an entity with id k. */
  lemma {:induction false} ComponentsOfMembers(es: seq<Entity>, k: int, c: ComponentId)
    ensures c in ComponentsOf(es, k) <==> exists i :: 0 <= i < |es| && es[i].entityId == k && c in es[i].entityComponents
  {
    if es != [] {
      var pre := es[..|es| - 1];
      ComponentsOfMembers(pre, k, c);
      if c in ComponentsOf(es, k) && c !in ComponentsOf(pre, k) {
        assert es[|es| - 1].entityId == k && c in es[|es| - 1].entityComponents;
      }
      if exists i :: 0 <= i < |es| && es[i].entityId == k && c in es[i].entityComponents {
        var i :| 0 <= i < |es| && es[i].entityId == k && c in es[i].entityComponents;
        if i < |pre| {
          assert pre[i] == es[i];
        }
      }
    }
  }

  /** An id that no entity has gets no components. */
  lemma {:induction false} ComponentsOfAbsent(es: seq<Entity>, k: int)
    requires k !in Ids(es)
    ensures ComponentsOf(es, k) == []
  {
    if es != [] {
      var pre := es[..|es| - 1];
      assert Ids(pre) == Ids(es)[..|es| - 1];
      ComponentsOfAbsent(pre, k);
    }
  }

  /**
   * mapEntitiesToComponents: the ids in the order they first occur, and for
   * each the list its entities' components were pushed onto.
   */
  function Grouped(es: seq<Entity>): (r: (seq<int>, map<int, seq<ComponentId>>))
  {
    if es == [] then ([], map[])
    else
      var g := Grouped(es[..|es| - 1]);
      var e := es[|es| - 1];
      if e.entityId in g.1 then (g.0, g.1[e.entityId := g.1[e.entityId] + e.entityComponents])
      else (g.0 + [e.entityId], g.1[e.entityId := [] + e.entityComponents])
  }

  /** The keys occur once each. */
  predicate Distinct(xs: seq<int>)
  {
    forall i, j | 0 <= i < j < |xs| :: xs[i] != xs[j]
  }

  /**
   * Grouping records each id once, in the order of first occurrence, and
   * maps it to the components of all its entities in entity order.
   */
  lemma {:induction false} GroupedMeaning(es: seq<Entity>)
    ensures Distinct(Grouped(es).0)
    ensures forall k :: k in Grouped(es).0 <==> k in Ids(es)
    ensures forall k :: k in Grouped(es).1 <==> k in Grouped(es).0
    ensures forall k | k in Grouped(es).1 :: Grouped(es).1[k] == ComponentsOf(es, k)
    ensures forall i, j | 0 <= i < j < |Grouped(es).0| ::
      FirstIndex(Ids(es), Grouped(es).0[i]) < FirstIndex(Ids(es), Grouped(es).0[j])
  {
    if es != [] {
      var pre := es[..|es| - 1];
      var e := es[|es| - 1];
      GroupedMeaning(pre);
      var ids, idsPre := Ids(es), Ids(pre);
      assert ids == idsPre + [e.entityId];
      var g, gPre := Grouped(es), Grouped(pre);
      forall k | k in gPre.0
        ensures FirstIndex(ids, k) == FirstIndex(idsPre, k)
      {
        FirstIndexSnoc(idsPre, e.entityId, k);
      }
      if e.entityId !in gPre.1 {
        FirstIndexSnoc(idsPre, e.entityId, e.entityId);
        ComponentsOfAbsent(pre, e.entityId);
        forall i | 0 <= i < |gPre.0|
          ensures FirstIndex(idsPre, gPre.0[i]) < |idsPre|
        {
          assert gPre.0[i] in gPre.0;
          assert gPre.0[i] in idsPre;
        }
        assert g.0 == gPre.0 + [e.entityId];
      }
    }
  }

  // ---------------------------------------------------------------------
  // Render nodes and their entities
  // ---------------------------------------------------------------------

  /** The RenderNode constructor: a node built without children gets an empty child list. */
  function NewRenderNode(key: string, id: int, components: seq<ComponentId>, children: Option<seq<RenderNode>>): (r: RenderNode)
    ensures r.key == key && r.id == id && r.components == components
    ensures children.None? ==> r.children == []
    ensures children.Some? ==> r.children == children.value
  {
    RenderNode(key, id, components, if children.Some? then children.value else [])
  }

  /** RenderNode.reduce: the node's own entity, then its children's entities in order. */
  function Reduce(n: RenderNode): (r: seq<Entity>)
    ensures |r| >= 1 && r[0] == Entity(n.id, n.components)
    decreases n, 1
  {
    [Entity(n.id, n.components)] + ReduceAll(n.children)
  }

  /** The flatMap over the children. */
  function ReduceAll(ns: seq<RenderNode>): seq<Entity>
    decreases ns, 0
  {
    if ns == [] then [] else ReduceAll(ns[..|ns| - 1]) + Reduce(ns[|ns| - 1])
  }

  /** The ids of a tree's nodes, in no order. */
  function TreeIds(n: RenderNode): set<int>
    decreases n, 1
  {
    {n.id} + ForestIds(n.children)
  }

  function ForestIds(ns: seq<RenderNode>): set<int>
    decreases ns, 0
  {
    set i, x | 0 <= i < |ns| && x in TreeIds(ns[i]) :: x
  }

  /** The entities of a tree are exactly one per node: their ids are the tree's ids. */
  lemma {:induction false} ReduceIds(n: RenderNode)
    ensures (set e | e in Reduce(n) :: e.entityId) == TreeIds(n)
    decreases n, 1
  {
    ReduceAllIds(n.children);
    var r := Reduce(n);
    assert r == [Entity(n.id, n.components)] + ReduceAll(n.children);
    assert (set e | e in r :: e.entityId) == {n.id} + (set e | e in ReduceAll(n.children) :: e.entityId);
  }

  lemma {:induction false} ReduceAllIds(ns: seq<RenderNode>)
    ensures (set e | e in ReduceAll(ns) :: e.entityId) == ForestIds(ns)
    decreases ns, 0
  {
    if ns != [] {
      var pre := ns[..|ns| - 1];
      var last := ns[|ns| - 1];
      ReduceAllIds(pre);
      ReduceIds(last);
      assert ReduceAll(ns) == ReduceAll(pre) + Reduce(last);
      assert (set e | e in ReduceAll(ns) :: e.entityId) ==
        (set e | e in ReduceAll(pre) :: e.entityId) + (set e | e in Reduce(last) :: e.entityId);
      assert ForestIds(ns) == ForestIds(pre) + TreeIds(last) by {
        forall x | x in ForestIds(ns) ensures x in ForestIds(pre) + TreeIds(last) {
          var i :| 0 <= i < |ns| && x in TreeIds(ns[i]);
          if i < |pre| {
            assert ns[i] == pre[i];
          }
        }
        forall x | x in ForestIds(pre) ensures x in ForestIds(ns) {
          var i :| 0 <= i < |pre| && x in TreeIds(pre[i]);
          assert pre[i] == ns[i];
        }
      }
    }
  }

  // ---------------------------------------------------------------------
  // Reconciliation
  // ---------------------------------------------------------------------

  /**
   * Which old child a key names when several share it: `Map.set` keeps the
   * last, `unordered_map::emplace` the first.
   */
  datatype KeyRule = LastWins | FirstWins

  /** The old children by key, filled in child order under the rule. */
  function OldByKey(rule: KeyRule, olds: seq<RenderNode>): map<string, RenderNode>
  {
    if olds == [] then map[]
    else
      var m := OldByKey(rule, olds[..|olds| - 1]);
      var c := olds[|olds| - 1];
      if rule == FirstWins && c.key in m then m else m[c.key := c]
  }

  /** Old child i is the one the rule picks for key k. */
  predicate PicksAt(rule: KeyRule, olds: seq<RenderNode>, k: string, i: int)
  {
    0 <= i < |olds| && olds[i].key == k &&
    (rule == LastWins ==> forall j | i < j < |olds| :: olds[j].key != k) &&
    (rule == FirstWins ==> forall j | 0 <= j < i :: olds[j].key != k)
  }

  /**
   * The map holds every old key, and maps it to the last (Map.set) or the
   * first (emplace) old child with that key.
   */
  lemma {:induction false} OldByKeyMeaning(rule: KeyRule, olds: seq<RenderNode>)
    ensures forall i | 0 <= i < |olds| :: olds[i].key in OldByKey(rule, olds)
    ensures forall k | k in OldByKey(rule, olds) :: exists i :: PicksAt(rule, olds, k, i) && OldByKey(rule, olds)[k] == olds[i]
  {
    forall i | 0 <= i < |olds| ensures olds[i].key in OldByKey(rule, olds) {
      OldByKeyHas(rule, olds, i);
    }
    forall k | k in OldByKey(rule, olds) ensures exists i :: PicksAt(rule, olds, k, i) && OldByKey(rule, olds)[k] == olds[i] {
      OldByKeyPicks(rule, olds, k);
    }
  }

  /** Every old child's key is in the map. */
  lemma {:induction false} OldByKeyHas(rule: KeyRule, olds: seq<RenderNode>, i: nat)
    requires i < |olds|
    ensures olds[i].key in OldByKey(rule, olds)
  {
    var pre := olds[..|olds| - 1];
    if i < |pre| {
      assert olds[i] == pre[i];
      OldByKeyHas(rule, pre, i);
    }
  }

  /** A key in the map is held by the child the rule picks. */
  lemma {:induction false} OldByKeyPicks(rule: KeyRule, olds: seq<RenderNode>, k: string)
    requires k in OldByKey(rule, olds)
    ensures exists i :: PicksAt(rule, olds, k, i) && OldByKey(rule, olds)[k] == olds[i]
  {
    var pre := olds[..|olds| - 1];
    var c := olds[|olds| - 1];
    if k == c.key && (rule == LastWins || c.key !in OldByKey(rule, pre)) {
      if rule == FirstWins {
        forall j | 0 <= j < |olds| - 1 ensures olds[j].key != k {
          assert olds[j] == pre[j];
          if olds[j].key == k {
            OldByKeyHas(rule, pre, j);
          }
        }
      }
      assert PicksAt(rule, olds, k, |olds| - 1);
    } else {
      OldByKeyPicks(rule, pre, k);
      var i :| PicksAt(rule, pre, k, i) && OldByKey(rule, pre)[k] == pre[i];
      assert pre[i] == olds[i];
      assert PicksAt(rule, olds, k, i);
    }
  }

  /** The child of the new tree, reconciled against the old child with its key if there is one. */
  function ReconcileOne(rule: KeyRule, c: RenderNode, byKey: map<string, RenderNode>): RenderNode
    decreases c, 2
  {
    if c.key in byKey then Reconciled(rule, c, byKey[c.key]) else c
  }

  /** reconcileRenderNode: the new node's key and components, the old node's id, the reconciled children. */
  function Reconciled(rule: KeyRule, newNode: RenderNode, oldNode: RenderNode): RenderNode
    decreases newNode, 1
  {
    RenderNode(newNode.key, oldNode.id, newNode.components,
      ReconciledChildren(rule, newNode.children, OldByKey(rule, oldNode.children)))
  }

  /** reconcileChildren, once the old children are indexed by key: one output per new child, in order. */
  function ReconciledChildren(rule: KeyRule, ns: seq<RenderNode>, byKey: map<string, RenderNode>): (r: seq<RenderNode>)
    ensures |r| == |ns|
    ensures forall i | 0 <= i < |ns| :: r[i] == ReconcileOne(rule, ns[i], byKey)
    decreases ns, 0
  {
    if ns == [] then []
    else ReconciledChildren(rule, ns[..|ns| - 1], byKey) + [ReconcileOne(rule, ns[|ns| - 1], byKey)]
  }

  /** Same keys, components and child structure; only the ids may differ. */
  predicate SameShape(a: RenderNode, b: RenderNode)
    decreases a
  {
    a.key == b.key && a.components == b.components && |a.children| == |b.children| &&
    forall i | 0 <= i < |a.children| :: SameShape(a.children[i], b.children[i])
  }

  /**
   * Reconciliation changes ids only: the result has the new tree's keys,
   * components and children, its root takes the old root's id, and every
   * id it holds comes from one of the two trees.
   */
  lemma {:induction false} ReconciledShape(rule: KeyRule, newNode: RenderNode, oldNode: RenderNode)
    ensures SameShape(Reconciled(rule, newNode, oldNode), newNode)
    ensures Reconciled(rule, newNode, oldNode).id == oldNode.id
    ensures TreeIds(Reconciled(rule, newNode, oldNode)) <= TreeIds(newNode) + TreeIds(oldNode)
    decreases newNode
  {
    var r := Reconciled(rule, newNode, oldNode);
    var byKey := OldByKey(rule, oldNode.children);
    OldByKeyMeaning(rule, oldNode.children);
    forall i | 0 <= i < |newNode.children|
      ensures SameShape(r.children[i], newNode.children[i])
      ensures TreeIds(r.children[i]) <= TreeIds(newNode.children[i]) + ForestIds(oldNode.children)
    {
      var c := newNode.children[i];
      if c.key in byKey {
        var j :| PicksAt(rule, oldNode.children, c.key, j) && byKey[c.key] == oldNode.children[j];
        ReconciledShape(rule, c, byKey[c.key]);
        assert TreeIds(byKey[c.key]) <= ForestIds(oldNode.children);
      } else {
        SameShapeReflexive(c);
      }
    }
    forall x | x in ForestIds(r.children) ensures x in TreeIds(newNode) + TreeIds(oldNode) {
      var i :| 0 <= i < |r.children| && x in TreeIds(r.children[i]);
      assert x in TreeIds(newNode.children[i]) + ForestIds(oldNode.children);
      if x in TreeIds(newNode.children[i]) {
        assert x in ForestIds(newNode.children);
      }
    }
  }

  lemma {:induction false} SameShapeReflexive(n: RenderNode)
    ensures SameShape(n, n)
    decreases n
  {
    forall i | 0 <= i < |n.children| ensures SameShape(n.children[i], n.children[i]) {
      SameShapeReflexive(n.children[i]);
    }
  }

  /** No two children of any node of the tree share a key. */
  predicate SiblingKeysDistinct(n: RenderNode)
    decreases n
  {
    (forall i, j | 0 <= i < j < |n.children| :: n.children[i].key != n.children[j].key) &&
    forall i | 0 <= i < |n.children| :: SiblingKeysDistinct(n.children[i])
  }

  /** With distinct sibling keys in the old tree, the two rules reconcile alike. */
  lemma {:induction false} RulesAgree(newNode: RenderNode, oldNode: RenderNode)
    requires SiblingKeysDistinct(oldNode)
    ensures Reconciled(LastWins, newNode, oldNode) == Reconciled(FirstWins, newNode, oldNode)
    decreases newNode
  {
    var olds := oldNode.children;
    var m1, m2 := OldByKey(LastWins, olds), OldByKey(FirstWins, olds);
    OldByKeyMeaning(LastWins, olds);
    OldByKeyMeaning(FirstWins, olds);
    forall k | k in m1 ensures k in m2 && m1[k] == m2[k] && SiblingKeysDistinct(m1[k]) {
      var i :| PicksAt(LastWins, olds, k, i) && m1[k] == olds[i];
      var j :| PicksAt(FirstWins, olds, k, j) && m2[k] == olds[j];
      assert i == j;
    }
    forall k | k in m2 ensures k in m1 {
      var j :| PicksAt(FirstWins, olds, k, j) && m2[k] == olds[j];
    }
    assert m1 == m2;
    var r1, r2 := Reconciled(LastWins, newNode, oldNode), Reconciled(FirstWins, newNode, oldNode);
    forall i | 0 <= i < |newNode.children| ensures r1.children[i] == r2.children[i] {
      var c := newNode.children[i];
      if c.key in m1 {
        RulesAgree(c, m1[c.key]);
      }
    }
  }

  /** With a repeated old key, the JavaScript rule takes the last old child and the C++ rule the first. */
  lemma RulesDiverge()
    ensures
      var oldNode := RenderNode("root", 0, [], [RenderNode("a", 1, [], []), RenderNode("a", 2, [], [])]);
      var newNode := RenderNode("root", 3, [], [RenderNode("a", 4, [], [])]);
      Reconciled(LastWins, newNode, oldNode).children[0].id == 2 &&
      Reconciled(FirstWins, newNode, oldNode).children[0].id == 1
  {
    var olds := [RenderNode("a", 1, [], []), RenderNode("a", 2, [], [])];
    assert olds[..1] == [olds[0]];
    assert olds[..1][..0] == [];
    assert OldByKey(LastWins, olds)["a"] == olds[1];
    assert OldByKey(FirstWins, olds)["a"] == olds[0];
  }

  // ---------------------------------------------------------------------
  // The scene diff
  // ---------------------------------------------------------------------

  /** The components of one entity, each paired with its id. */
  function Tagged(k: int, cs: seq<ComponentId>): (r: seq<ComponentPair>)
    ensures |r| == |cs|
    ensures forall i | 0 <= i < |cs| :: r[i] == ComponentPair(k, cs[i])
  {
    seq(|cs|, i requires 0 <= i < |cs| => ComponentPair(k, cs[i]))
  }

  lemma TaggedMembers(k: int, cs: seq<ComponentId>, p: ComponentPair)
    ensures p in Tagged(k, cs) <==> p.pairEntity == k && p.pairComponent in cs
  {
    if p.pairEntity == k && p.pairComponent in cs {
      var i :| 0 <= i < |cs| && cs[i] == p.pairComponent;
      assert Tagged(k, cs)[i] == p;
    }
  }

  /** The pairs pushed for the created entities, in their order. */
  function EntityPairs(ids: seq<int>, groups: map<int, seq<ComponentId>>): seq<ComponentPair>
  {
    if ids == [] then []
    else
      var k := ids[|ids| - 1];
      EntityPairs(ids[..|ids| - 1], groups) + (if k in groups then Tagged(k, groups[k]) else [])
  }

  /** The pairs pushed for the ids both lists share, in the order of the new keys: (created, deleted). */
  function ChangedPairs(keys: seq<int>, newGroups: map<int, seq<ComponentId>>, oldGroups: map<int, seq<ComponentId>>): (seq<ComponentPair>, seq<ComponentPair>)
    requires forall i | 0 <= i < |keys| :: keys[i] in newGroups
  {
    if keys == [] then ([], [])
    else
      var acc := ChangedPairs(keys[..|keys| - 1], newGroups, oldGroups);
      var k := keys[|keys| - 1];
      if k !in oldGroups then acc
      else (acc.0 + Tagged(k, Missing(newGroups[k], oldGroups[k])), acc.1 + Tagged(k, Missing(oldGroups[k], newGroups[k])))
  }

  /** diffTrees. */
  function DiffSpec(newEntities: seq<Entity>, oldEntities: seq<Entity>): SceneDiff
  {
    var oldIds := Ids(oldEntities);
    var newIds := Ids(newEntities);
    var createdEntities := Missing(newIds, oldIds);
    var deletedEntities := Missing(oldIds, newIds);
    var oldGroups := Grouped(oldEntities).1;
    var newComponents := Grouped(newEntities);
    GroupedMeaning(newEntities);
    var changed := ChangedPairs(newComponents.0, newComponents.1, oldGroups);
    SceneDiff(createdEntities, deletedEntities, EntityPairs(createdEntities, newComponents.1) + changed.0, changed.1)
  }

  lemma {:induction false} EntityPairsMembers(ids: seq<int>, groups: map<int, seq<ComponentId>>, p: ComponentPair)
    ensures p in EntityPairs(ids, groups) <==>
      p.pairEntity in ids && p.pairEntity in groups && p.pairComponent in groups[p.pairEntity]
  {
    if ids != [] {
      var pre := ids[..|ids| - 1];
      var k := ids[|ids| - 1];
      assert ids == pre + [k];
      EntityPairsMembers(pre, groups, p);
      if k in groups {
        TaggedMembers(k, groups[k], p);
      }
    }
  }

  lemma {:induction false} ChangedPairsMembers(keys: seq<int>, newGroups: map<int, seq<ComponentId>>, oldGroups: map<int, seq<ComponentId>>, p: ComponentPair)
    requires forall i | 0 <= i < |keys| :: keys[i] in newGroups
    ensures p in ChangedPairs(keys, newGroups, oldGroups).0 <==>
      p.pairEntity in keys && p.pairEntity in oldGroups &&
      p.pairComponent in newGroups[p.pairEntity] && p.pairComponent !in oldGroups[p.pairEntity]
    ensures p in ChangedPairs(keys, newGroups, oldGroups).1 <==>
      p.pairEntity in keys && p.pairEntity in oldGroups &&
      p.pairComponent in oldGroups[p.pairEntity] && p.pairComponent !in newGroups[p.pairEntity]
  {
    if keys != [] {
      var pre := keys[..|keys| - 1];
      var k := keys[|keys| - 1];
      assert keys == pre + [k];
      ChangedPairsMembers(pre, newGroups, oldGroups, p);
      if k in oldGroups {
        TaggedMembers(k, Missing(newGroups[k], oldGroups[k]), p);
        TaggedMembers(k, Missing(oldGroups[k], newGroups[k]), p);
      }
    }
  }

  /**
   * The diff: an entity is created exactly when its id is new and deleted
   * exactly when its id is gone; a component is reported created when its
   * entity is created or it is new to a surviving entity, and deleted when
   * it left a surviving entity (the components of a deleted entity are not
   * listed).
   */
  lemma DiffMeaning(newEntities: seq<Entity>, oldEntities: seq<Entity>)
    ensures forall x :: x in DiffSpec(newEntities, oldEntities).createdEntities <==> x in Ids(newEntities) && x !in Ids(oldEntities)
    ensures forall x :: x in DiffSpec(newEntities, oldEntities).deletedEntities <==> x in Ids(oldEntities) && x !in Ids(newEntities)
    ensures forall k, c :: ComponentPair(k, c) in DiffSpec(newEntities, oldEntities).createdComponents <==>
      k in Ids(newEntities) && c in ComponentsOf(newEntities, k) && (k in Ids(oldEntities) ==> c !in ComponentsOf(oldEntities, k))
    ensures forall k, c :: ComponentPair(k, c) in DiffSpec(newEntities, oldEntities).deletedComponents <==>
      k in Ids(newEntities) && k in Ids(oldEntities) && c in ComponentsOf(oldEntities, k) && c !in ComponentsOf(newEntities, k)
  {
    var d := DiffSpec(newEntities, oldEntities);
    var newIds, oldIds := Ids(newEntities), Ids(oldEntities);
    var ng, og := Grouped(newEntities), Grouped(oldEntities);
    GroupedMeaning(newEntities);
    GroupedMeaning(oldEntities);
    var created := Missing(newIds, oldIds);
    var changed := ChangedPairs(ng.0, ng.1, og.1);
    assert d.createdComponents == EntityPairs(created, ng.1) + changed.0;
    forall k, c
      ensures ComponentPair(k, c) in d.createdComponents <==>
        k in newIds && c in ComponentsOf(newEntities, k) && (k in oldIds ==> c !in ComponentsOf(oldEntities, k))
      ensures ComponentPair(k, c) in d.deletedComponents <==>
        k in newIds && k in oldIds && c in ComponentsOf(oldEntities, k) && c !in ComponentsOf(newEntities, k)
    {
      var p := ComponentPair(k, c);
      EntityPairsMembers(created, ng.1, p);
      ChangedPairsMembers(ng.0, ng.1, og.1, p);
      if k !in newIds {
        ComponentsOfAbsent(newEntities, k);
      }
    }
  }
}
