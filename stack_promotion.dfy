/**
 * SimpleStackPromotion: frame variables whose scope does not escape, or
 * whose value is a known literal, are moved out of the heap-allocated
 * scope. Each rewrite of one variable or one scope is a method that walks
 * the users of that variable or scope, in user-list order, and returns the
 * IR edits it makes as an `Edits` value.
 */
module StackPromotion {
  import opened Wrappers

  /** A value operand: a uniqued literal (identified by a key) or the result of an instruction. */
  datatype Operand = Lit(key: nat) | Ref(id: nat)

  /** The scope operand of a frame access: a CreateScopeInst, or a scope resolved from an inner function. */
  datatype ScopeOperand = CreatedScope(csi: nat) | ResolvedScope(inst: nat)

  /** A user of a frame variable or of a scope. */
  datatype Access =
    | LoadFrame(id: nat, scope: ScopeOperand, variable: nat)
    | StoreFrame(id: nat, scope: ScopeOperand, variable: nat, value: Operand)
    | OtherUser(id: nat)

  /** An AllocStackInst, placed just before the CreateScopeInst `scope`, holding `variable`. */
  datatype Slot = Slot(scope: nat, variable: nat)

  /** A stack access inserted just before instruction `before`; `slot` indexes the new slots. */
  datatype StackOp = LoadStack(before: nat, slot: nat) | StoreStack(before: nat, value: Operand, slot: nat)

  /** What the uses of a rewritten instruction read afterwards: an operand, or the `op`-th new stack access. */
  datatype Replacement = ByOperand(operand: Operand) | ByStackOp(op: nat)

  /**
   * The edits a rewrite makes: the stack slots and stack accesses it creates
   * (in creation order), the instructions whose uses it redirects
   * (replaceAllUsesWith) and the instructions it hands to the destroyer.
   */
  datatype Edits = Edits(slots: seq<Slot>, ops: seq<StackOp>, replaced: map<nat, Replacement>, destroyed: seq<nat>)

  const NoEdits: Edits := Edits([], [], map[], [])

  /** The ids of the users, in user-list order. */
  function Ids(users: seq<Access>): (r: seq<nat>)
    ensures |r| == |users| && forall i :: 0 <= i < |users| ==> r[i] == users[i].id
  {
    if users == [] then [] else Ids(users[..|users| - 1]) + [users[|users| - 1].id]
  }

  /** Different users are different instructions: no user repeats the id of an earlier one. */
  ghost predicate UniqueIds(users: seq<Access>)
  {
    users == [] || (UniqueIds(users[..|users| - 1]) && users[|users| - 1].id !in Ids(users[..|users| - 1]))
  }

  lemma {:induction false} UniqueIdsApart(users: seq<Access>, i: nat, j: nat)
    requires UniqueIds(users) && i < j < |users|
    ensures users[i].id != users[j].id
  {
    var n := |users| - 1;
    var p := users[..n];
    assert p[i] == users[i];
    if j < n {
      assert p[j] == users[j];
      UniqueIdsApart(p, i, j);
    } else {
      assert Ids(p)[i] == users[i].id;
    }
  }

  // ---------------------------------------------------------------------
  // tryPromoteConstVariable

  /** The values the stores among `users` write, in order. */
  function StoredValues(users: seq<Access>): (r: seq<Operand>)
    ensures forall w :: w in r <==> exists i :: 0 <= i < |users| && users[i].StoreFrame? && users[i].value == w
  {
    if users == [] then []
    else
      var u := users[|users| - 1];
      assert forall i :: 0 <= i < |users| - 1 ==> users[..|users| - 1][i] == users[i];
      StoredValues(users[..|users| - 1]) + (if u.StoreFrame? then [u.value] else [])
  }

  /**
   * isStoreOnceVariable: the single value written to the variable, when
   * every user is a frame load or store, some store exists and all stores
   * write the same value; None otherwise.
   */
  function StoreOnceValue(users: seq<Access>): (r: Option<Operand>)
    ensures r.Some? ==> forall i :: 0 <= i < |users| ==> users[i].LoadFrame? || (users[i].StoreFrame? && users[i].value == r.value)
    ensures r.Some? ==> exists i :: 0 <= i < |users| && users[i].StoreFrame?
  {
    var vals := StoredValues(users);
    if (forall i :: 0 <= i < |users| ==> !users[i].OtherUser?) && vals != [] && forall w :: w in vals ==> w == vals[0]
    then
      assert forall i :: 0 <= i < |users| && users[i].StoreFrame? ==> users[i].value in vals;
      assert vals[0] in vals;
      Some(vals[0])
    else None
  }

  /** The edits of a constant promotion to `v`, user by user: a load's uses read `v`, every user is destroyed. */
  function ConstRewrite(users: seq<Access>, v: Operand): Edits
  {
    if users == [] then NoEdits
    else
      var e := ConstRewrite(users[..|users| - 1], v);
      var u := users[|users| - 1];
      e.(replaced := if u.LoadFrame? then e.replaced[u.id := ByOperand(v)] else e.replaced, destroyed := e.destroyed + [u.id])
  }

  /** A constant promotion creates nothing, destroys every user and makes exactly the loads read `v`. */
  lemma {:induction false} ConstRewriteMeaning(users: seq<Access>, v: Operand)
    ensures ConstRewrite(users, v).slots == [] && ConstRewrite(users, v).ops == []
    ensures ConstRewrite(users, v).destroyed == Ids(users)
    ensures forall id :: id in ConstRewrite(users, v).replaced <==> exists i :: 0 <= i < |users| && users[i].LoadFrame? && users[i].id == id
    ensures forall id :: id in ConstRewrite(users, v).replaced ==> ConstRewrite(users, v).replaced[id] == ByOperand(v)
  {
    ConstRewriteShape(users, v);
    ConstRewriteKeys(users, v);
  }

  lemma {:induction false} ConstRewriteShape(users: seq<Access>, v: Operand)
    ensures ConstRewrite(users, v).slots == [] && ConstRewrite(users, v).ops == []
    ensures ConstRewrite(users, v).destroyed == Ids(users)
    ensures forall id :: id in ConstRewrite(users, v).replaced ==> ConstRewrite(users, v).replaced[id] == ByOperand(v)
  {
    if users != [] {
      ConstRewriteShape(users[..|users| - 1], v);
    }
  }

  lemma {:induction false} ConstRewriteKeys(users: seq<Access>, v: Operand)
    ensures forall id :: id in ConstRewrite(users, v).replaced <==> exists i :: 0 <= i < |users| && users[i].LoadFrame? && users[i].id == id
  {
    if users != [] {
      var n := |users| - 1;
      ConstRewriteKeys(users[..n], v);
      assert forall i :: 0 <= i < n ==> users[..n][i] == users[i];
    }
  }

  /**
   * When the variable only ever holds one literal, every load is replaced by
   * that literal and every load and store is destroyed; otherwise nothing
   * changes.
   */
  method TryPromoteConstVariable(users: seq<Access>) returns (promoted: bool, e: Edits)
    ensures promoted <==> StoreOnceValue(users).Some? && StoreOnceValue(users).value.Lit?
    ensures promoted ==> e == ConstRewrite(users, StoreOnceValue(users).value)
    ensures !promoted ==> e == NoEdits
  {
    var stored := StoreOnceValue(users);
    if stored.None? || !stored.value.Lit? {
      return false, NoEdits;
    }
    e := NoEdits;
    var k := 0;
    while k < |users|
      invariant k <= |users|
      invariant e == ConstRewrite(users[..k], stored.value)
    {
      var u := users[k];
      if u.LoadFrame? {
        e := e.(replaced := e.replaced[u.id := ByOperand(stored.value)]);
      } else {
        assert u.StoreFrame?;
      }
      e := e.(destroyed := e.destroyed + [u.id]);
      assert users[..k + 1] == users[..k] + [u];
      k := k + 1;
    }
    assert users[..k] == users;
    promoted := true;
  }

  // ---------------------------------------------------------------------
  // Stack slots, one per key

  /** What a slot is looked up by: its scope (tryCopyToStack) or its variable (runOnCreateScope). */
  datatype Keying = ByScope | ByVariable

  function Key(s: Slot, keying: Keying): nat
  {
    if keying == ByScope then s.scope else s.variable
  }

  /** The index of the first slot with `key`, or |slots| when there is none. */
  function SlotIndex(slots: seq<Slot>, key: nat, keying: Keying): (r: nat)
    ensures r <= |slots|
    ensures r < |slots| ==> Key(slots[r], keying) == key
    ensures forall i :: 0 <= i < r ==> Key(slots[i], keying) != key
  {
    if slots == [] then 0
    else
      var r := SlotIndex(slots[..|slots| - 1], key, keying);
      if r < |slots| - 1 then r
      else if Key(slots[|slots| - 1], keying) == key then |slots| - 1
      else |slots|
  }

  /** No two slots share a key: every slot is the first one with its key. */
  ghost predicate Keyed(slots: seq<Slot>, keying: Keying)
  {
    forall i :: 0 <= i < |slots| ==> SlotIndex(slots, Key(slots[i], keying), keying) == i
  }

  lemma SlotIndexAppend(slots: seq<Slot>, x: Slot, key: nat, keying: Keying)
    ensures SlotIndex(slots + [x], key, keying) ==
      if SlotIndex(slots, key, keying) < |slots| then SlotIndex(slots, key, keying)
      else if Key(x, keying) == key then |slots| else |slots| + 1
  {
    assert (slots + [x])[..|slots|] == slots;
  }

  /** The slot table after looking up `slot`'s key, creating `slot` when the key is new. */
  function WithSlot(slots: seq<Slot>, slot: Slot, keying: Keying): (r: seq<Slot>)
    ensures SlotIndex(r, Key(slot, keying), keying) < |r| && |slots| <= |r|
  {
    if SlotIndex(slots, Key(slot, keying), keying) < |slots| then slots
    else
      SlotIndexAppend(slots, slot, Key(slot, keying), keying);
      slots + [slot]
  }

  /** Looking up or creating a slot keeps keys unique and adds exactly the looked-up key. */
  lemma WithSlotKeyed(slots: seq<Slot>, slot: Slot, keying: Keying)
    requires Keyed(slots, keying)
    ensures Keyed(WithSlot(slots, slot, keying), keying)
    ensures forall c :: SlotIndex(WithSlot(slots, slot, keying), c, keying) < |WithSlot(slots, slot, keying)| <==>
      SlotIndex(slots, c, keying) < |slots| || c == Key(slot, keying)
    ensures forall c :: SlotIndex(slots, c, keying) < |slots| ==> SlotIndex(WithSlot(slots, slot, keying), c, keying) == SlotIndex(slots, c, keying)
    ensures |slots| <= |WithSlot(slots, slot, keying)| && WithSlot(slots, slot, keying)[..|slots|] == slots
    ensures WithSlot(slots, slot, keying) == slots || WithSlot(slots, slot, keying) == slots + [slot]
  {
    var r := WithSlot(slots, slot, keying);
    if r != slots {
      forall c ensures SlotIndex(r, c, keying) == if SlotIndex(slots, c, keying) < |slots| then SlotIndex(slots, c, keying) else if Key(slot, keying) == c then |slots| else |slots| + 1 {
        SlotIndexAppend(slots, slot, c, keying);
      }
      assert r[..|slots|] == slots;
    }
  }

  /** Inserts `op` before instruction `id`, redirects `id`'s uses to it and destroys `id`. */
  function Redirect(e: Edits, id: nat, op: StackOp): (r: Edits)
    ensures r.slots == e.slots && r.ops == e.ops + [op] && r.destroyed == e.destroyed + [id]
    ensures r.replaced == e.replaced[id := ByStackOp(|e.ops|)]
  {
    e.(ops := e.ops + [op], replaced := e.replaced[id := ByStackOp(|e.ops|)], destroyed := e.destroyed + [id])
  }

  // ---------------------------------------------------------------------
  // tryCopyToStack

  predicate IsDirectLoad(u: Access)
  {
    u.LoadFrame? && u.scope.CreatedScope?
  }

  /** Some store reaches the variable through a scope that is not a CreateScopeInst. */
  predicate HasIndirectStore(users: seq<Access>)
  {
    exists i :: 0 <= i < |users| && users[i].StoreFrame? && users[i].scope.ResolvedScope?
  }

  /** The scopes read by direct loads. */
  function DirectScopes(users: seq<Access>): (r: set<nat>)
    ensures forall i :: 0 <= i < |users| && IsDirectLoad(users[i]) ==> users[i].scope.csi in r
    ensures forall c :: c in r ==> exists i :: 0 <= i < |users| && IsDirectLoad(users[i]) && users[i].scope.csi == c
  {
    if users == [] then {}
    else
      var n := |users| - 1;
      assert forall i :: 0 <= i < n ==> users[..n][i] == users[i];
      DirectScopes(users[..n]) + (if IsDirectLoad(users[n]) then {users[n].scope.csi} else {})
  }

  /** The ids of the direct loads, in user-list order. */
  function DirectLoadIds(users: seq<Access>): (r: seq<nat>)
    ensures forall id :: id in r <==> exists i :: 0 <= i < |users| && IsDirectLoad(users[i]) && users[i].id == id
  {
    if users == [] then []
    else
      var u := users[|users| - 1];
      assert forall i :: 0 <= i < |users| - 1 ==> users[..|users| - 1][i] == users[i];
      DirectLoadIds(users[..|users| - 1]) + (if IsDirectLoad(u) then [u.id] else [])
  }

  /** First loop of tryCopyToStack, one user: a direct load is replaced by a load of its scope's slot. */
  function CopyLoadStep(v: nat, e: Edits, u: Access): (r: Edits)
  {
    if IsDirectLoad(u) then
      var slots := WithSlot(e.slots, Slot(u.scope.csi, v), ByScope);
      Redirect(e.(slots := slots), u.id, LoadStack(u.id, SlotIndex(slots, u.scope.csi, ByScope)))
    else e
  }

  function CopyLoads(v: nat, users: seq<Access>): Edits
  {
    if users == [] then NoEdits else CopyLoadStep(v, CopyLoads(v, users[..|users| - 1]), users[|users| - 1])
  }

  /** Second loop of tryCopyToStack, one user: a store to a scope with a slot is duplicated into that slot. */
  function CopyStoreStep(e: Edits, u: Access): (r: Edits)
  {
    if u.StoreFrame? && u.scope.CreatedScope? && SlotIndex(e.slots, u.scope.csi, ByScope) < |e.slots| then
      e.(ops := e.ops + [StoreStack(u.id, u.value, SlotIndex(e.slots, u.scope.csi, ByScope))])
    else e
  }

  function CopyStores(e: Edits, users: seq<Access>): Edits
  {
    if users == [] then e else CopyStoreStep(CopyStores(e, users[..|users| - 1]), users[|users| - 1])
  }

  /** tryCopyToStack of variable `v`: whether it copied, and the edits. */
  function CopyToStack(v: nat, users: seq<Access>): (bool, Edits)
  {
    if HasIndirectStore(users) then (false, NoEdits)
    else
      var e := CopyLoads(v, users);
      if e.slots == [] then (false, e) else (true, CopyStores(e, users))
  }

  /** Slot lookups answered by a map from key to slot index, as the `allocs` maps of the source do. */
  ghost predicate AllocsMatch(allocs: map<nat, nat>, slots: seq<Slot>, keying: Keying)
  {
    (forall c :: c in allocs <==> SlotIndex(slots, c, keying) < |slots|) &&
    (forall c :: c in allocs ==> allocs[c] == SlotIndex(slots, c, keying))
  }

  /** One lookup-or-create of the `allocs` map, as on lines 88-92 and 191-195 of the source. */
  lemma AllocStep(allocs: map<nat, nat>, slots: seq<Slot>, slot: Slot, keying: Keying, allocs': map<nat, nat>, slots': seq<Slot>)
    requires AllocsMatch(allocs, slots, keying)
    requires allocs' == if Key(slot, keying) in allocs then allocs else allocs[Key(slot, keying) := |slots|]
    requires slots' == if Key(slot, keying) in allocs then slots else slots + [slot]
    ensures slots' == WithSlot(slots, slot, keying) && AllocsMatch(allocs', slots', keying)
    ensures Key(slot, keying) in allocs' && allocs'[Key(slot, keying)] == SlotIndex(slots', Key(slot, keying), keying)
  {
    if Key(slot, keying) !in allocs {
      forall c ensures SlotIndex(slots', c, keying) == if SlotIndex(slots, c, keying) < |slots| then SlotIndex(slots, c, keying) else if Key(slot, keying) == c then |slots| else |slots| + 1 {
        SlotIndexAppend(slots, slot, c, keying);
      }
    }
  }

  /** The allocs map is empty exactly when no slot exists. */
  lemma AllocsEmpty(allocs: map<nat, nat>, slots: seq<Slot>, keying: Keying)
    requires AllocsMatch(allocs, slots, keying)
    ensures |allocs| == 0 <==> slots == []
  {
    if slots != [] {
      assert Key(slots[0], keying) in allocs;
    } else {
      assert allocs.Keys == {};
    }
  }

  /** One user of the first loop of tryCopyToStack, as the loop computes it. */
  lemma CopyLoadStepIs(v: nat, e: Edits, u: Access, slots: seq<Slot>, s: nat)
    requires IsDirectLoad(u) && slots == WithSlot(e.slots, Slot(u.scope.csi, v), ByScope)
    requires s == SlotIndex(slots, u.scope.csi, ByScope)
    ensures Redirect(e.(slots := slots), u.id, LoadStack(u.id, s)) == CopyLoadStep(v, e, u)
  {
  }

  /** Folding one more user. */
  lemma CopyLoadsSnoc(v: nat, users: seq<Access>, k: nat)
    requires k < |users|
    ensures CopyLoads(v, users[..k + 1]) == CopyLoadStep(v, CopyLoads(v, users[..k]), users[k])
  {
    assert users[..k + 1][..k] == users[..k];
  }

  /**
   * Gives up on an indirect store; otherwise replaces each direct load by a
   * load of a stack slot created once per scope, and, when some slot was
   * created, duplicates each store into its scope's slot.
   */
  method TryCopyToStack(v: nat, users: seq<Access>) returns (copied: bool, e: Edits)
    ensures (copied, e) == CopyToStack(v, users)
  {
    var hasIndirectStore := false;
    var k := 0;
    while k < |users|
      invariant k <= |users|
      invariant hasIndirectStore <==> HasIndirectStore(users[..k])
    {
      if users[k].StoreFrame? {
        hasIndirectStore := hasIndirectStore || !users[k].scope.CreatedScope?;
      }
      assert users[..k + 1] == users[..k] + [users[k]];
      k := k + 1;
    }
    assert users[..k] == users;
    if hasIndirectStore {
      return false, NoEdits;
    }
    var allocs;
    e, allocs := ReplaceDirectLoads(v, users);
    if |allocs| == 0 {
      AllocsEmpty(allocs, e.slots, ByScope);
      return false, e;
    }
    AllocsEmpty(allocs, e.slots, ByScope);
    e := DuplicateStores(e, allocs, users);
    copied := true;
  }

  /** The first loop of tryCopyToStack. */
  method ReplaceDirectLoads(v: nat, users: seq<Access>) returns (e: Edits, allocs: map<nat, nat>)
    ensures e == CopyLoads(v, users) && AllocsMatch(allocs, e.slots, ByScope)
  {
    allocs := map[];
    e := NoEdits;
    var k := 0;
    while k < |users|
      invariant k <= |users|
      invariant e == CopyLoads(v, users[..k]) && AllocsMatch(allocs, e.slots, ByScope)
    {
      e, allocs := ReplaceDirectLoad(v, users, k, e, allocs);
      k := k + 1;
    }
    assert users[..k] == users;
  }

  /** One user of the first loop of tryCopyToStack. */
  method ReplaceDirectLoad(v: nat, users: seq<Access>, k: nat, e: Edits, allocs: map<nat, nat>) returns (e': Edits, allocs': map<nat, nat>)
    requires k < |users| && e == CopyLoads(v, users[..k]) && AllocsMatch(allocs, e.slots, ByScope)
    ensures e' == CopyLoads(v, users[..k + 1]) && AllocsMatch(allocs', e'.slots, ByScope)
  {
    var u := users[k];
    CopyLoadsSnoc(v, users, k);
    if !IsDirectLoad(u) {
      return e, allocs;
    }
    var csi := u.scope.csi;
    var slots := e.slots;
    allocs' := allocs;
    if csi !in allocs {
      allocs', slots := allocs[csi := |e.slots|], e.slots + [Slot(csi, v)];
    }
    AllocStep(allocs, e.slots, Slot(csi, v), ByScope, allocs', slots);
    CopyLoadStepIs(v, e, u, slots, allocs'[csi]);
    e' := Redirect(e.(slots := slots), u.id, LoadStack(u.id, allocs'[csi]));
  }

  /** The second loop of tryCopyToStack. */
  method DuplicateStores(e0: Edits, allocs: map<nat, nat>, users: seq<Access>) returns (e: Edits)
    requires AllocsMatch(allocs, e0.slots, ByScope) && !HasIndirectStore(users)
    ensures e == CopyStores(e0, users)
  {
    e := e0;
    var k := 0;
    while k < |users|
      invariant k <= |users|
      invariant e == CopyStores(e0, users[..k]) && e.slots == e0.slots
    {
      var u := users[k];
      if u.StoreFrame? {
        var csi := u.scope.csi;
        if csi in allocs {
          e := e.(ops := e.ops + [StoreStack(u.id, u.value, allocs[csi])]);
        }
      }
      assert users[..k + 1] == users[..k] + [u];
      k := k + 1;
    }
    assert users[..k] == users;
  }

  // ---------------------------------------------------------------------
  // What tryCopyToStack does

  /** The slots tryCopyToStack creates: one per scope read by a direct load, each holding `v`. */
  lemma {:induction false} CopyLoadsSlots(v: nat, users: seq<Access>)
    ensures Keyed(CopyLoads(v, users).slots, ByScope)
    ensures forall c :: SlotIndex(CopyLoads(v, users).slots, c, ByScope) < |CopyLoads(v, users).slots| <==> c in DirectScopes(users)
    ensures forall j :: 0 <= j < |CopyLoads(v, users).slots| ==> CopyLoads(v, users).slots[j].variable == v
  {
    if users != [] {
      var n := |users| - 1;
      var u := users[n];
      CopyLoadsSlots(v, users[..n]);
      var e := CopyLoads(v, users[..n]);
      if IsDirectLoad(u) {
        WithSlotKeyed(e.slots, Slot(u.scope.csi, v), ByScope);
      }
    }
  }

  /**
   * The load rewrites of tryCopyToStack: exactly the direct loads are
   * destroyed, in order, each with one new stack load inserted before it,
   * and nothing else has its uses redirected.
   */
  lemma {:induction false} CopyLoadsOps(v: nat, users: seq<Access>)
    ensures CopyLoads(v, users).destroyed == DirectLoadIds(users)
    ensures |CopyLoads(v, users).ops| == |CopyLoads(v, users).destroyed|
    ensures forall k :: 0 <= k < |CopyLoads(v, users).ops| ==>
      CopyLoads(v, users).ops[k].LoadStack? && CopyLoads(v, users).ops[k].before == CopyLoads(v, users).destroyed[k] &&
      CopyLoads(v, users).ops[k].slot < |CopyLoads(v, users).slots|
    ensures CopyLoads(v, users).replaced.Keys == set id | id in CopyLoads(v, users).destroyed
  {
    CopyLoadsDestroyed(v, users);
    if users != [] {
      var n := |users| - 1;
      CopyLoadsOps(v, users[..n]);
      var e := CopyLoads(v, users[..n]);
      var u := users[n];
      CopyLoadsDestroyed(v, users[..n]);
    }
  }

  /** The ids tryCopyToStack's first loop destroys, one stack operation and one redirection each. */
  lemma {:induction false} CopyLoadsDestroyed(v: nat, users: seq<Access>)
    ensures CopyLoads(v, users).destroyed == DirectLoadIds(users)
    ensures |CopyLoads(v, users).ops| == |CopyLoads(v, users).destroyed|
    ensures CopyLoads(v, users).replaced.Keys == set id | id in CopyLoads(v, users).destroyed
  {
    if users != [] {
      var n := |users| - 1;
      CopyLoadsDestroyed(v, users[..n]);
    }
  }

  /** Without a direct load, tryCopyToStack's first loop changes nothing. */
  lemma {:induction false} CopyLoadsNothing(v: nat, users: seq<Access>)
    requires forall i :: 0 <= i < |users| ==> !IsDirectLoad(users[i])
    ensures CopyLoads(v, users) == NoEdits
  {
    if users != [] {
      var n := |users| - 1;
      assert forall i :: 0 <= i < n ==> users[..n][i] == users[i];
      CopyLoadsNothing(v, users[..n]);
    }
  }

  /** The uses of direct load `u` read a new load of the slot of its scope. */
  predicate LoadRedirected(e: Edits, u: Access)
    requires IsDirectLoad(u)
  {
    SlotIndex(e.slots, u.scope.csi, ByScope) < |e.slots| &&
    u.id in e.replaced && e.replaced[u.id].ByStackOp? && e.replaced[u.id].op < |e.ops| &&
    e.ops[e.replaced[u.id].op] == LoadStack(u.id, SlotIndex(e.slots, u.scope.csi, ByScope))
  }

  /** A later user of the first loop keeps an earlier direct load redirected. */
  lemma LoadRedirectedStep(v: nat, e: Edits, w: Access, u: Access)
    requires IsDirectLoad(w) && LoadRedirected(e, w) && Keyed(e.slots, ByScope) && u.id != w.id
    ensures LoadRedirected(CopyLoadStep(v, e, u), w)
  {
    if IsDirectLoad(u) {
      var slots := WithSlot(e.slots, Slot(u.scope.csi, v), ByScope);
      WithSlotKeyed(e.slots, Slot(u.scope.csi, v), ByScope);
      var r := CopyLoadStep(v, e, u);
      var k := e.replaced[w.id].op;
      assert r.replaced[w.id] == e.replaced[w.id];
      assert r.ops[k] == e.ops[k];
      assert SlotIndex(slots, w.scope.csi, ByScope) == SlotIndex(e.slots, w.scope.csi, ByScope);
    }
  }

  /** Each direct load's uses are redirected to a new load of the slot of its scope. */
  lemma {:induction false} CopyLoadRedirected(v: nat, users: seq<Access>, i: nat)
    requires UniqueIds(users) && i < |users| && IsDirectLoad(users[i])
    ensures LoadRedirected(CopyLoads(v, users), users[i])
  {
    var n := |users| - 1;
    var p := users[..n];
    var e := CopyLoads(v, p);
    assert CopyLoads(v, users) == CopyLoadStep(v, e, users[n]);
    if i < n {
      assert p[i] == users[i];
      UniqueIdsApart(users, i, n);
      CopyLoadRedirected(v, p, i);
      CopyLoadsSlots(v, p);
      LoadRedirectedStep(v, e, users[i], users[n]);
    }
  }

  /** The second loop of tryCopyToStack only appends store duplicates. */
  lemma {:induction false} CopyStoresKeeps(e: Edits, users: seq<Access>)
    ensures CopyStores(e, users).slots == e.slots && CopyStores(e, users).replaced == e.replaced
    ensures CopyStores(e, users).destroyed == e.destroyed
    ensures |e.ops| <= |CopyStores(e, users).ops| && CopyStores(e, users).ops[..|e.ops|] == e.ops
  {
    if users != [] {
      CopyStoresKeeps(e, users[..|users| - 1]);
    }
  }

  /** A store is duplicated into the stack iff its scope has a slot, with the same value, into that slot. */
  lemma {:induction false} CopyStoreDuplicated(e: Edits, users: seq<Access>, i: nat)
    requires i < |users| && users[i].StoreFrame? && users[i].scope.CreatedScope?
    requires SlotIndex(e.slots, users[i].scope.csi, ByScope) < |e.slots|
    ensures exists k :: (|e.ops| <= k < |CopyStores(e, users).ops| &&
      CopyStores(e, users).ops[k] == StoreStack(users[i].id, users[i].value, SlotIndex(e.slots, users[i].scope.csi, ByScope)))
  {
    var n := |users| - 1;
    CopyStoresKeeps(e, users[..n]);
    var r := CopyStores(e, users[..n]);
    if i < n {
      assert users[..n][i] == users[i];
      CopyStoreDuplicated(e, users[..n], i);
      var k :| |e.ops| <= k < |r.ops| && r.ops[k] == StoreStack(users[i].id, users[i].value, SlotIndex(e.slots, users[i].scope.csi, ByScope));
      assert CopyStores(e, users).ops[k] == r.ops[k];
    } else {
      assert CopyStores(e, users).ops[|r.ops|] == StoreStack(users[i].id, users[i].value, SlotIndex(e.slots, users[i].scope.csi, ByScope));
    }
  }

  /** `op` duplicates store `u` into the slot of its scope. */
  predicate StoreDuplicate(slots: seq<Slot>, u: Access, op: StackOp)
  {
    u.StoreFrame? && u.scope.CreatedScope? && SlotIndex(slots, u.scope.csi, ByScope) < |slots| &&
    op == StoreStack(u.id, u.value, SlotIndex(slots, u.scope.csi, ByScope))
  }

  /** Every duplicate comes from a store whose scope has a slot, and writes its value into that slot. */
  lemma {:induction false} CopyStoresSources(e: Edits, users: seq<Access>)
    ensures forall k :: |e.ops| <= k < |CopyStores(e, users).ops| ==>
      exists i :: 0 <= i < |users| && StoreDuplicate(e.slots, users[i], CopyStores(e, users).ops[k])
  {
    if users != [] {
      var n := |users| - 1;
      CopyStoresSources(e, users[..n]);
      CopyStoresKeeps(e, users[..n]);
      var r := CopyStores(e, users[..n]);
      forall k | |e.ops| <= k < |CopyStores(e, users).ops|
        ensures exists i :: 0 <= i < |users| && StoreDuplicate(e.slots, users[i], CopyStores(e, users).ops[k])
      {
        if k < |r.ops| {
          var i :| 0 <= i < |users[..n]| && StoreDuplicate(e.slots, users[..n][i], r.ops[k]);
          assert users[..n][i] == users[i];
          assert CopyStores(e, users).ops[k] == r.ops[k];
        } else {
          assert StoreDuplicate(e.slots, users[n], CopyStores(e, users).ops[k]);
        }
      }
    } else {
      assert CopyStores(e, users) == e;
    }
  }

  /**
   * tryCopyToStack reports a change iff no store goes through a resolved
   * scope and some load reads straight from a CreateScopeInst; when it
   * reports none, it made no edit.
   */
  lemma CopyToStackFires(v: nat, users: seq<Access>)
    ensures CopyToStack(v, users).0 <==> !HasIndirectStore(users) && exists i :: 0 <= i < |users| && IsDirectLoad(users[i])
    ensures !CopyToStack(v, users).0 ==> CopyToStack(v, users).1 == NoEdits
  {
    CopyLoadsSlots(v, users);
    var slots := CopyLoads(v, users).slots;
    if exists i :: 0 <= i < |users| && IsDirectLoad(users[i]) {
      var i :| 0 <= i < |users| && IsDirectLoad(users[i]);
      assert users[i].scope.csi in DirectScopes(users);
    } else {
      CopyLoadsNothing(v, users);
    }
  }

  // ---------------------------------------------------------------------
  // tryDeleteStoreOnlyVariable and runOnVariable

  /** tryDeleteStoreOnlyVariable: every store is destroyed when the users are all stores and there is one. */
  function DeleteStoreOnly(users: seq<Access>): (bool, Edits)
  {
    if users != [] && forall i :: 0 <= i < |users| ==> users[i].StoreFrame? then (true, NoEdits.(destroyed := Ids(users)))
    else (false, NoEdits)
  }

  /** Gives up without users or on a user that is not a store; otherwise destroys every store. */
  method TryDeleteStoreOnlyVariable(users: seq<Access>) returns (deleted: bool, e: Edits)
    ensures (deleted, e) == DeleteStoreOnly(users)
  {
    if |users| == 0 {
      return false, NoEdits;
    }
    var k := 0;
    while k < |users|
      invariant k <= |users|
      invariant forall i :: 0 <= i < k ==> users[i].StoreFrame?
    {
      if !users[k].StoreFrame? {
        return false, NoEdits;
      }
      k := k + 1;
    }
    var destroyed := [];
    k := 0;
    while k < |users|
      invariant k <= |users| && destroyed == Ids(users[..k])
    {
      assert users[..k + 1][..k] == users[..k];
      destroyed := destroyed + [users[k].id];
      k := k + 1;
    }
    assert users[..k] == users;
    return true, NoEdits.(destroyed := destroyed);
  }

  /** The users left once the instructions in `gone` are destroyed, in order. */
  function Remaining(users: seq<Access>, gone: seq<nat>): seq<Access>
  {
    if users == [] then []
    else
      var n := |users| - 1;
      Remaining(users[..n], gone) + (if users[n].id in gone then [] else [users[n]])
  }

  /** The edits of `a` followed by those of `b`. */
  function Then(a: Edits, b: Edits): Edits
  {
    Edits(a.slots + b.slots, a.ops + b.ops, a.replaced + b.replaced, a.destroyed + b.destroyed)
  }

  /**
   * runOnVariable: a constant promotion ends the work on the variable;
   * otherwise the stack copy is tried, then the deletion of the stores on the
   * users the copy left.
   */
  function VariableRewrite(v: nat, users: seq<Access>): (bool, Edits)
  {
    var stored := StoreOnceValue(users);
    if stored.Some? && stored.value.Lit? then (true, ConstRewrite(users, stored.value))
    else
      var copy := CopyToStack(v, users);
      var deletion := DeleteStoreOnly(Remaining(users, copy.1.destroyed));
      (copy.0 || deletion.0, Then(copy.1, deletion.1))
  }

  method RunOnVariable(v: nat, users: seq<Access>) returns (changed: bool, e: Edits)
    ensures (changed, e) == VariableRewrite(v, users)
  {
    var promoted;
    promoted, e := TryPromoteConstVariable(users);
    if promoted {
      return true, e;
    }
    var copied, deleted, e2;
    copied, e := TryCopyToStack(v, users);
    deleted, e2 := TryDeleteStoreOnlyVariable(Remaining(users, e.destroyed));
    changed := copied || deleted;
    e := Then(e, e2);
  }

  /** The stores among the users, in order. */
  function Stores(users: seq<Access>): (r: seq<Access>)
    ensures forall k :: 0 <= k < |r| ==> r[k].StoreFrame?
  {
    if users == [] then []
    else
      var n := |users| - 1;
      Stores(users[..n]) + (if users[n].StoreFrame? then [users[n]] else [])
  }

  /** Destroying instructions that are not users changes nothing. */
  lemma {:induction false} RemainingIgnores(users: seq<Access>, gone: seq<nat>, x: nat)
    requires x !in Ids(users)
    ensures Remaining(users, gone + [x]) == Remaining(users, gone)
  {
    if users != [] {
      var n := |users| - 1;
      assert Ids(users) == Ids(users[..n]) + [users[n].id];
      RemainingIgnores(users[..n], gone, x);
    }
  }

  lemma {:induction false} DirectLoadIdsAreIds(users: seq<Access>)
    ensures forall x :: x in DirectLoadIds(users) ==> x in Ids(users)
  {
    if users != [] {
      var n := |users| - 1;
      DirectLoadIdsAreIds(users[..n]);
      assert Ids(users) == Ids(users[..n]) + [users[n].id];
    }
  }

  /** When every user is a direct load or a store, the users the copy leaves are exactly the stores. */
  lemma {:induction false} StoresRemain(users: seq<Access>)
    requires UniqueIds(users)
    requires forall i :: 0 <= i < |users| ==> IsDirectLoad(users[i]) || users[i].StoreFrame?
    ensures Remaining(users, DirectLoadIds(users)) == Stores(users)
  {
    if users != [] {
      var n := |users| - 1;
      var p := users[..n];
      var u := users[n];
      assert forall i :: 0 <= i < n ==> p[i] == users[i];
      StoresRemain(p);
      DirectLoadIdsAreIds(p);
      if IsDirectLoad(u) {
        RemainingIgnores(p, DirectLoadIds(p), u.id);
      } else {
        assert DirectLoadIds(users) == DirectLoadIds(p);
      }
    }
  }

  /** Every store of the users is among `Stores`, so its id is destroyed when they are deleted. */
  lemma {:induction false} StoreIdsKept(users: seq<Access>, i: nat)
    requires i < |users| && users[i].StoreFrame?
    ensures users[i].id in Ids(Stores(users))
  {
    var n := |users| - 1;
    var p := users[..n];
    var r := Stores(users);
    assert Ids(r) == Ids(Stores(p)) + Ids(if users[n].StoreFrame? then [users[n]] else []) by {
      IdsAppend(Stores(p), if users[n].StoreFrame? then [users[n]] else []);
    }
    if i < n {
      assert p[i] == users[i];
      StoreIdsKept(p, i);
    } else {
      assert Ids([users[n]]) == [users[n].id];
    }
  }

  lemma IdsAppend(a: seq<Access>, b: seq<Access>)
    ensures Ids(a + b) == Ids(a) + Ids(b)
  {
  }

  /** A copy that fires destroys exactly the direct loads. */
  lemma CopyDestroysDirectLoads(v: nat, users: seq<Access>)
    requires !HasIndirectStore(users) && exists i :: 0 <= i < |users| && IsDirectLoad(users[i])
    ensures CopyToStack(v, users).0 && CopyToStack(v, users).1.destroyed == DirectLoadIds(users)
  {
    CopyToStackFires(v, users);
    CopyLoadsOps(v, users);
    CopyStoresKeeps(CopyLoads(v, users), users);
  }

  /**
   * When every load of the variable reads straight from its CreateScopeInst,
   * the stack copy removes all loads and the remaining stores are deleted:
   * no user of the variable survives.
   */
  lemma CopyThenDeleteRemovesAll(v: nat, users: seq<Access>)
    requires UniqueIds(users)
    requires forall i :: 0 <= i < |users| ==> IsDirectLoad(users[i]) || (users[i].StoreFrame? && users[i].scope.CreatedScope?)
    requires exists i :: 0 <= i < |users| && users[i].LoadFrame?
    requires exists i :: 0 <= i < |users| && users[i].StoreFrame?
    requires !(StoreOnceValue(users).Some? && StoreOnceValue(users).value.Lit?)
    ensures VariableRewrite(v, users).0
    ensures forall i :: 0 <= i < |users| ==> users[i].id in VariableRewrite(v, users).1.destroyed
  {
    var j :| 0 <= j < |users| && users[j].LoadFrame?;
    assert IsDirectLoad(users[j]);
    CopyDestroysDirectLoads(v, users);
    StoresRemain(users);
    var k :| 0 <= k < |users| && users[k].StoreFrame?;
    StoreIdsKept(users, k);
    var copy := CopyToStack(v, users);
    var stores := Stores(users);
    assert Remaining(users, copy.1.destroyed) == stores;
    assert stores != [];
    var deletion := DeleteStoreOnly(stores);
    assert deletion == (true, NoEdits.(destroyed := Ids(stores)));
    var r := VariableRewrite(v, users);
    assert r == (copy.0 || deletion.0, Then(copy.1, deletion.1));
    assert r.1.destroyed == DirectLoadIds(users) + Ids(stores);
    forall i | 0 <= i < |users| ensures users[i].id in r.1.destroyed {
      if users[i].StoreFrame? {
        StoreIdsKept(users, i);
      }
    }
  }

  // ---------------------------------------------------------------------
  // runOnCreateScope

  /** A user that keeps the scope from escaping: a load, or a store that does not store the scope itself. */
  predicate KeepsScopeLocal(csi: nat, u: Access)
  {
    u.LoadFrame? || (u.StoreFrame? && u.value != Ref(csi))
  }

  /** Every user is a frame load or store, as the users of a promotable scope are. */
  predicate FrameAccesses(users: seq<Access>)
  {
    forall i :: 0 <= i < |users| ==> users[i].LoadFrame? || users[i].StoreFrame?
  }

  lemma FrameAccessesPrefix(users: seq<Access>, n: nat)
    requires FrameAccesses(users) && n <= |users|
    ensures FrameAccesses(users[..n])
  {
    assert forall i :: 0 <= i < n ==> users[..n][i] == users[i];
  }

  /** One user of the rewriting loop: the frame access becomes the same access to its variable's slot. */
  function ScopeStep(csi: nat, e: Edits, u: Access): Edits
    requires u.LoadFrame? || u.StoreFrame?
  {
    var slots := WithSlot(e.slots, Slot(csi, u.variable), ByVariable);
    var s := SlotIndex(slots, u.variable, ByVariable);
    Redirect(e.(slots := slots), u.id, if u.LoadFrame? then LoadStack(u.id, s) else StoreStack(u.id, u.value, s))
  }

  function ScopeRewrite(csi: nat, users: seq<Access>): Edits
    requires FrameAccesses(users)
  {
    if users == [] then NoEdits
    else
      FrameAccessesPrefix(users, |users| - 1);
      ScopeStep(csi, ScopeRewrite(csi, users[..|users| - 1]), users[|users| - 1])
  }

  /** runOnCreateScope: whether the scope was promoted, and the edits. */
  function PromoteScope(csi: nat, users: seq<Access>): (bool, Edits)
  {
    if forall i :: 0 <= i < |users| ==> KeepsScopeLocal(csi, users[i]) then
      var e := ScopeRewrite(csi, users);
      (true, e.(destroyed := e.destroyed + [csi]))
    else (false, NoEdits)
  }

  /** Folding one more user. */
  lemma ScopeRewriteSnoc(csi: nat, users: seq<Access>, k: nat)
    requires k < |users| && FrameAccesses(users)
    ensures FrameAccesses(users[..k]) && FrameAccesses(users[..k + 1])
    ensures ScopeRewrite(csi, users[..k + 1]) == ScopeStep(csi, ScopeRewrite(csi, users[..k]), users[k])
  {
    FrameAccessesPrefix(users, k);
    FrameAccessesPrefix(users, k + 1);
    assert users[..k + 1][..k] == users[..k];
  }

  /**
   * Gives up when some user could let the scope escape; otherwise turns each
   * frame load and store into a stack access to a slot created once per
   * variable, and destroys the scope.
   */
  method RunOnCreateScope(csi: nat, users: seq<Access>) returns (promoted: bool, e: Edits)
    ensures (promoted, e) == PromoteScope(csi, users)
  {
    var k := 0;
    while k < |users|
      invariant k <= |users|
      invariant forall i :: 0 <= i < k ==> KeepsScopeLocal(csi, users[i])
    {
      var u := users[k];
      if !u.LoadFrame? && !(u.StoreFrame? && u.value != Ref(csi)) {
        return false, NoEdits;
      }
      k := k + 1;
    }
    assert FrameAccesses(users);
    e := RedirectScopeUsers(csi, users);
    e := e.(destroyed := e.destroyed + [csi]);
    promoted := true;
  }

  /** The rewriting loop of runOnCreateScope. */
  method RedirectScopeUsers(csi: nat, users: seq<Access>) returns (e: Edits)
    requires FrameAccesses(users)
    ensures e == ScopeRewrite(csi, users)
  {
    var allocs: map<nat, nat> := map[];
    e := NoEdits;
    var k := 0;
    while k < |users|
      invariant k <= |users|
      invariant FrameAccesses(users[..k]) && e == ScopeRewrite(csi, users[..k]) && AllocsMatch(allocs, e.slots, ByVariable)
    {
      e, allocs := RedirectScopeUser(csi, users, k, e, allocs);
      k := k + 1;
    }
    assert users[..k] == users;
  }

  /** One user of the rewriting loop of runOnCreateScope. */
  method RedirectScopeUser(csi: nat, users: seq<Access>, k: nat, e: Edits, allocs: map<nat, nat>) returns (e': Edits, allocs': map<nat, nat>)
    requires k < |users| && FrameAccesses(users) && FrameAccesses(users[..k])
    requires e == ScopeRewrite(csi, users[..k]) && AllocsMatch(allocs, e.slots, ByVariable)
    ensures FrameAccesses(users[..k + 1]) && e' == ScopeRewrite(csi, users[..k + 1]) && AllocsMatch(allocs', e'.slots, ByVariable)
  {
    var u := users[k];
    var slots := e.slots;
    allocs' := allocs;
    if u.variable !in allocs {
      allocs', slots := allocs[u.variable := |e.slots|], e.slots + [Slot(csi, u.variable)];
    }
    AllocStep(allocs, e.slots, Slot(csi, u.variable), ByVariable, allocs', slots);
    var s := allocs'[u.variable];
    var op := if u.LoadFrame? then LoadStack(u.id, s) else StoreStack(u.id, u.value, s);
    ScopeStepIs(csi, e, u, slots, s);
    ScopeRewriteSnoc(csi, users, k);
    e' := Redirect(e.(slots := slots), u.id, op);
  }

  lemma ScopeStepIs(csi: nat, e: Edits, u: Access, slots: seq<Slot>, s: nat)
    requires (u.LoadFrame? || u.StoreFrame?) && slots == WithSlot(e.slots, Slot(csi, u.variable), ByVariable)
    requires s == SlotIndex(slots, u.variable, ByVariable)
    ensures Redirect(e.(slots := slots), u.id, if u.LoadFrame? then LoadStack(u.id, s) else StoreStack(u.id, u.value, s)) == ScopeStep(csi, e, u)
  {
  }

  /** The variables the users access. */
  function Variables(users: seq<Access>): (r: set<nat>)
    requires FrameAccesses(users)
    ensures forall i :: 0 <= i < |users| ==> users[i].variable in r
    ensures forall x :: x in r ==> exists i :: 0 <= i < |users| && users[i].variable == x
  {
    if users == [] then {}
    else
      var n := |users| - 1;
      FrameAccessesPrefix(users, n);
      assert forall i :: 0 <= i < n ==> users[..n][i] == users[i];
      Variables(users[..n]) + {users[n].variable}
  }

  /** A promoted scope gets exactly one slot per variable accessed through it, each placed at the scope. */
  lemma {:induction false} ScopeSlots(csi: nat, users: seq<Access>)
    requires FrameAccesses(users)
    ensures Keyed(ScopeRewrite(csi, users).slots, ByVariable)
    ensures forall x :: SlotIndex(ScopeRewrite(csi, users).slots, x, ByVariable) < |ScopeRewrite(csi, users).slots| <==> x in Variables(users)
    ensures forall j :: 0 <= j < |ScopeRewrite(csi, users).slots| ==> ScopeRewrite(csi, users).slots[j].scope == csi
  {
    if users != [] {
      var n := |users| - 1;
      FrameAccessesPrefix(users, n);
      ScopeSlots(csi, users[..n]);
      WithSlotKeyed(ScopeRewrite(csi, users[..n]).slots, Slot(csi, users[n].variable), ByVariable);
    }
  }

  /** The stack access that replaces user `u`: same kind, same stored value, the slot of its variable. */
  predicate StackOpFor(slots: seq<Slot>, u: Access, op: StackOp)
    requires u.LoadFrame? || u.StoreFrame?
  {
    var s := SlotIndex(slots, u.variable, ByVariable);
    s < |slots| && op == if u.LoadFrame? then LoadStack(u.id, s) else StoreStack(u.id, u.value, s)
  }

  lemma StackOpForGrows(slots: seq<Slot>, slots': seq<Slot>, u: Access, op: StackOp)
    requires (u.LoadFrame? || u.StoreFrame?) && StackOpFor(slots, u, op) && |slots| <= |slots'|
    requires SlotIndex(slots', u.variable, ByVariable) == SlotIndex(slots, u.variable, ByVariable)
    ensures StackOpFor(slots', u, op)
  {
  }

  lemma ScopeStepOp(csi: nat, e: Edits, u: Access)
    requires u.LoadFrame? || u.StoreFrame?
    ensures var r := ScopeStep(csi, e, u);
      |r.ops| == |e.ops| + 1 && r.ops[..|e.ops|] == e.ops && StackOpFor(r.slots, u, r.ops[|e.ops|]) &&
      r.destroyed == e.destroyed + [u.id]
  {
  }

  /**
   * Every user of a promoted scope is destroyed, in order, and replaced by a
   * stack access of the same kind on its variable's slot, placed just before it.
   */
  lemma {:induction false} ScopeOps(csi: nat, users: seq<Access>)
    requires FrameAccesses(users)
    ensures var r := ScopeRewrite(csi, users);
      r.destroyed == Ids(users) && |r.ops| == |users| && forall k :: 0 <= k < |users| ==> StackOpFor(r.slots, users[k], r.ops[k])
  {
    if users != [] {
      var n := |users| - 1;
      var p := users[..n];
      FrameAccessesPrefix(users, n);
      ScopeOps(csi, p);
      ScopeSlots(csi, p);
      var e := ScopeRewrite(csi, p);
      var u := users[n];
      WithSlotKeyed(e.slots, Slot(csi, u.variable), ByVariable);
      var r := ScopeStep(csi, e, u);
      assert ScopeRewrite(csi, users) == r;
      ScopeStepOp(csi, e, u);
      forall k | 0 <= k < |users| ensures StackOpFor(r.slots, users[k], r.ops[k]) {
        if k < n {
          assert p[k] == users[k] && r.ops[k] == e.ops[k];
          assert StackOpFor(e.slots, users[k], e.ops[k]);
          assert SlotIndex(e.slots, users[k].variable, ByVariable) < |e.slots|;
          assert SlotIndex(r.slots, users[k].variable, ByVariable) == SlotIndex(e.slots, users[k].variable, ByVariable);
          StackOpForGrows(e.slots, r.slots, users[k], e.ops[k]);
        } else {
          assert k == |e.ops|;
        }
      }
    }
  }

  /** The rewrite emits one stack access per user. */
  lemma {:induction false} ScopeOpsCount(csi: nat, users: seq<Access>)
    requires FrameAccesses(users)
    ensures |ScopeRewrite(csi, users).ops| == |users|
  {
    if users != [] {
      FrameAccessesPrefix(users, |users| - 1);
      ScopeOpsCount(csi, users[..|users| - 1]);
    }
  }

  /** With distinct users, each user's uses are redirected to its own stack access, and nothing else is. */
  lemma {:induction false} ScopeReplaced(csi: nat, users: seq<Access>)
    requires FrameAccesses(users) && UniqueIds(users)
    ensures var r := ScopeRewrite(csi, users);
      (forall id :: id in r.replaced <==> id in Ids(users)) &&
      forall k :: 0 <= k < |users| ==> users[k].id in r.replaced && r.replaced[users[k].id] == ByStackOp(k)
  {
    if users != [] {
      var n := |users| - 1;
      var p := users[..n];
      var u := users[n];
      FrameAccessesPrefix(users, n);
      ScopeReplaced(csi, p);
      ScopeOpsCount(csi, p);
      var e := ScopeRewrite(csi, p);
      assert e.replaced.Keys == set id | id in Ids(p);
      var r := ScopeRewrite(csi, users);
      assert r.replaced == e.replaced[u.id := ByStackOp(n)];
      assert Ids(users) == Ids(p) + [u.id];
      ReplacedSnoc(users, e.replaced, r.replaced);
    }
  }

  /** The replacement map after one more user, from the map before it. */
  lemma ReplacedSnoc(users: seq<Access>, m0: map<nat, Replacement>, m: map<nat, Replacement>)
    requires users != [] && m == m0[users[|users| - 1].id := ByStackOp(|users| - 1)]
    requires var p := users[..|users| - 1];
      forall k :: 0 <= k < |p| ==> p[k].id in m0 && m0[p[k].id] == ByStackOp(k)
    requires users[|users| - 1].id !in Ids(users[..|users| - 1])
    ensures forall k :: 0 <= k < |users| ==> users[k].id in m && m[users[k].id] == ByStackOp(k)
  {
    var n := |users| - 1;
    var p := users[..n];
    forall k | 0 <= k < |users| ensures users[k].id in m && m[users[k].id] == ByStackOp(k) {
      if k < n {
        assert p[k] == users[k];
        assert Ids(p)[k] == users[k].id;
      }
    }
  }
}
