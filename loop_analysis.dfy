/**
 * Loop discovery over the control-flow graph. A depth-first search records
 * every block's discovery time and DFS parent, and the set of loop headers
 * that enclose each block. Headers that fail to dominate some block of their
 * loop are "bad". The innermost good header of each block is the one with the
 * largest discovery time, and a header's preheader is its DFS parent when
 * that parent properly dominates it.
 */
module Loops {
  import opened Wrappers
  import opened Cfg

  /** The dominance relation, given as the pairs (a, b) with a dominating b. */
  datatype Dominance = Dominance(pairs: set<(nat, nat)>)

  predicate Dominates(dom: Dominance, a: nat, b: nat)
  {
    (a, b) in dom.pairs
  }

  predicate ProperlyDominates(dom: Dominance, a: nat, b: nat)
  {
    a != b && Dominates(dom, a, b)
  }

  predicate Distinct(s: seq<nat>)
  {
    forall i, j :: 0 <= i < j < |s| ==> s[i] != s[j]
  }

  // ---------------------------------------------------------------------------
  // Phase 1: depth-first search with an explicit stack.
  // ---------------------------------------------------------------------------

  /**
   * The headers a block collects when it is finished: each successor that is
   * not yet finished (a back edge), and for each finished successor those of
   * its recorded headers that are not yet finished.
   */
  ghost predicate CollectedHeader(f: Function, bb: nat, finished: set<nat>, headerSets: map<nat, set<nat>>, h: nat)
    requires bb < |f|
  {
    exists s :: s in f[bb].succs && Contributes(s, finished, headerSets, h)
  }

  /** Successor `s` contributes header `h`. */
  predicate Contributes(s: nat, finished: set<nat>, headerSets: map<nat, set<nat>>, h: nat)
  {
    (s !in finished && h == s) ||
    (s in finished && s in headerSets && h in headerSets[s] && h !in finished)
  }

  /** The header set of `bb`, gathered one successor at a time. */
  method CollectHeaders(f: Function, bb: nat, finished: set<nat>, headerSets: map<nat, set<nat>>)
    returns (headers: set<nat>)
    requires bb < |f|
    ensures forall h :: h in headers <==> CollectedHeader(f, bb, finished, headerSets, h)
  {
    var succs := f[bb].succs;
    headers := {};
    var i := 0;
    while i < |succs|
      invariant 0 <= i <= |succs|
      invariant forall h :: h in headers <==> exists k :: 0 <= k < i && Contributes(succs[k], finished, headerSets, h)
    {
      var succ := succs[i];
      if succ !in finished {
        headers := headers + {succ};
      } else if succ in headerSets {
        headers := headers + (set h | h in headerSets[succ] && h !in finished);
      }
      i := i + 1;
    }
    forall h
      ensures h in headers <==> CollectedHeader(f, bb, finished, headerSets, h)
    {
      if h in headers {
        var k :| 0 <= k < |succs| && Contributes(succs[k], finished, headerSets, h);
        assert succs[k] in f[bb].succs;
      }
      if CollectedHeader(f, bb, finished, headerSets, h) {
        var s :| s in f[bb].succs && Contributes(s, finished, headerSets, h);
        var k :| 0 <= k < |succs| && succs[k] == s;
      }
    }
  }

  /** Discovery times are distinct and count up from 0. */
  predicate TimesDistinct(discovered: map<nat, nat>)
  {
    (forall b :: b in discovered ==> discovered[b] < |discovered|) &&
    (forall a, b :: a in discovered && b in discovered && a != b ==> discovered[a] != discovered[b])
  }

  /** Every stacked block and every discovered block is a block of `f`. */
  predicate InRange(f: Function, stack: seq<nat>, discovered: map<nat, nat>)
  {
    (forall i :: 0 <= i < |stack| ==> stack[i] < |f|) &&
    (forall b :: b in discovered ==> b < |f|)
  }

  /** A discovered block that is not finished sits on the stack at the position where it was discovered. */
  ghost predicate AtPositions(stack: seq<nat>, discovered: map<nat, nat>, finished: set<nat>, pos: map<nat, nat>)
  {
    forall b :: b in discovered && b !in finished ==> b in pos && pos[b] < |stack| && stack[pos[b]] == b
  }

  /** No copy of a discovered, unfinished block lies above its discovery position. */
  ghost predicate NoCopyAbove(stack: seq<nat>, discovered: map<nat, nat>, finished: set<nat>, pos: map<nat, nat>)
  {
    forall b, q :: b in discovered && b !in finished && b in pos && pos[b] < q < |stack| ==> stack[q] != b
  }

  /** Each undiscovered successor of a discovered, unfinished block has a copy above its position. */
  ghost predicate SuccsAbove(f: Function, stack: seq<nat>, discovered: map<nat, nat>, finished: set<nat>,
                             pos: map<nat, nat>)
  {
    forall b, s ::
      (b < |f| && b in discovered && b !in finished && b in pos && pos[b] < |stack| && s in f[b].succs &&
       s !in discovered) ==> s in stack[pos[b] + 1..]
  }

  /** Every successor of a finished block is discovered. */
  predicate FinishedClosed(f: Function, discovered: map<nat, nat>, finished: set<nat>)
  {
    forall b, s :: 0 <= b < |f| && b in finished && s in f[b].succs ==> s in discovered
  }

  /** The invariant of the search's stack. */
  ghost predicate SearchInv(f: Function, stack: seq<nat>, discovered: map<nat, nat>, finished: set<nat>,
                            pos: map<nat, nat>)
  {
    InRange(f, stack, discovered) && finished <= discovered.Keys &&
    AtPositions(stack, discovered, finished, pos) && NoCopyAbove(stack, discovered, finished, pos) &&
    SuccsAbove(f, stack, discovered, finished, pos) && FinishedClosed(f, discovered, finished)
  }

  /** What the search records besides the stack. */
  ghost predicate RecordsInv(discovered: map<nat, nat>, finished: set<nat>, headerSets: map<nat, set<nat>>,
                             entries: seq<nat>)
  {
    TimesDistinct(discovered) &&
    (forall b :: b in headerSets ==> b in finished && headerSets[b] != {} && headerSets[b] <= discovered.Keys) &&
    Distinct(entries) &&
    (forall b :: b in headerSets <==> b in entries)
  }

  /** Each DFS parent has an edge to its child and was discovered before it. */
  predicate ParentEdges(f: Function, discovered: map<nat, nat>, parent: map<nat, nat>)
  {
    (forall s :: s in parent ==> parent[s] < |f| && s in f[parent[s]].succs) &&
    (forall s :: s in parent && s in discovered ==> parent[s] in discovered && discovered[parent[s]] < discovered[s])
  }

  /** The DFS parents recorded so far: discovered, joined by an edge, and every child pending on the stack or discovered. */
  ghost predicate ParentsOk(f: Function, discovered: map<nat, nat>, parent: map<nat, nat>, stack: seq<nat>)
  {
    (forall b :: b in parent ==> parent[b] in discovered) && ParentEdges(f, discovered, parent) &&
    (forall s :: s in parent ==> s in discovered || s in stack)
  }

  /** Discovering `bb` at the next time keeps the parents consistent. */
  lemma DiscoverParents(f: Function, discovered: map<nat, nat>, parent: map<nat, nat>, stack: seq<nat>, bb: nat,
                        t: nat)
    requires TimesDistinct(discovered) && t == |discovered| && bb !in discovered
    requires ParentsOk(f, discovered, parent, stack)
    ensures ParentsOk(f, discovered[bb := t], parent, stack)
  {
    var d' := discovered[bb := t];
    forall s | s in parent && s in d'
      ensures parent[s] in d' && d'[parent[s]] < d'[s]
    {
      assert parent[s] in discovered && parent[s] != bb;
    }
  }

  /** Pushing an undiscovered successor `succ` of `bb` with `bb` as its parent keeps the parents consistent. */
  lemma PushParent(f: Function, discovered: map<nat, nat>, parent: map<nat, nat>, stack: seq<nat>, bb: nat,
                   succ: nat)
    requires ParentsOk(f, discovered, parent, stack)
    requires bb in discovered && bb < |f| && succ in f[bb].succs && succ !in discovered
    ensures ParentsOk(f, discovered, parent[succ := bb], stack + [succ])
  {
    assert succ in stack + [succ];
    forall s | s in parent && s != succ && s !in discovered
      ensures s in stack + [succ]
    {
      var k :| 0 <= k < |stack| && stack[k] == s;
      assert (stack + [succ])[k] == s;
    }
  }

  /** The blocks finished before the `i`-th block of the finishing order. */
  function Earlier(order: seq<nat>, i: nat): set<nat>
    requires i <= |order|
  {
    set b | b in order[..i]
  }

  /**
   * The header set recorded for `b` is exactly what `b` collects when the
   * blocks of `before` are the finished ones; no set is recorded when it
   * collects nothing.
   */
  ghost predicate RecordedAt(f: Function, headerSets: map<nat, set<nat>>, b: nat, before: set<nat>)
    requires b < |f|
  {
    forall h {:trigger CollectedHeader(f, b, before, headerSets, h)} ::
      (b in headerSets && h in headerSets[b]) <==> CollectedHeader(f, b, before, headerSets, h)
  }

  /** The blocks of `order` that have a recorded header set, in the same order. */
  function WithHeaders(order: seq<nat>, headerSets: map<nat, set<nat>>): seq<nat>
  {
    if order == [] then []
    else
      var last := order[|order| - 1];
      WithHeaders(order[..|order| - 1], headerSets) + (if last in headerSets then [last] else [])
  }

  /**
   * `order` lists the finished blocks in the order they were finished; each
   * block's header set is the one collected at its finish, and the entries
   * are the blocks with a header set, in finishing order.
   */
  ghost predicate FinishInv(f: Function, order: seq<nat>, finished: set<nat>, headerSets: map<nat, set<nat>>,
                            entries: seq<nat>)
  {
    Distinct(order) && (forall b :: b in order <==> b in finished) &&
    (forall i :: 0 <= i < |order| ==> order[i] < |f| && RecordedAt(f, headerSets, order[i], Earlier(order, i))) &&
    entries == WithHeaders(order, headerSets)
  }

  /**
   * The search phase of the LoopAnalysis constructor: every block reachable
   * from the entry is discovered exactly once, with distinct discovery times;
   * each DFS parent has an edge to its child; and, in the finishing order
   * `order`, each block's header set is the one it collects from the blocks
   * finished before it, with the entries listed in that order.
   */
  method FindLoopHeaders(f: Function)
    returns (discovered: map<nat, nat>, parent: map<nat, nat>, headerSets: map<nat, set<nat>>, entries: seq<nat>,
             ghost order: seq<nat>)
    requires WellFormed(f)
    ensures Entry in discovered && (forall b :: b in discovered ==> b < |f|)
    ensures ClosedUnderSuccessors(f, discovered.Keys)
    ensures RecordsInv(discovered, discovered.Keys, headerSets, entries)
    ensures ParentEdges(f, discovered, parent) && parent.Keys <= discovered.Keys
    ensures FinishInv(f, order, discovered.Keys, headerSets, entries)
  {
    var dfsTime: nat := 0;
    discovered, parent, headerSets, entries := map[], map[], map[], [];
    order := [];
    var finished: set<nat> := {};
    var stack: seq<nat> := [Entry];
    ghost var pos: map<nat, nat> := map[];
    while |stack| > 0
      invariant LoopInv(f, stack, discovered, finished, parent, headerSets, entries, pos, order, dfsTime)
      invariant |discovered.Keys| <= |f|
      decreases |f| - |discovered.Keys|, |stack|
    {
      var bb := stack[|stack| - 1];
      if bb !in discovered {
        stack, discovered, parent, pos :=
          Discover(f, bb, dfsTime, stack, discovered, finished, parent, headerSets, entries, pos, order);
        dfsTime := dfsTime + 1;
      } else if bb in finished {
        var popped := stack[..|stack| - 1];
        PopFinished(f, stack, popped, discovered, finished, parent, headerSets, entries, pos, order, dfsTime);
        stack := popped;
      } else {
        stack, finished, headerSets, entries, order :=
          FinishTop(f, stack, discovered, finished, parent, headerSets, entries, pos, order, dfsTime);
      }
    }
    SearchDone(f, discovered, finished, parent, headerSets, entries, pos, order, dfsTime);
  }

  /** The invariant of the search loop. */
  ghost predicate LoopInv(f: Function, stack: seq<nat>, discovered: map<nat, nat>, finished: set<nat>,
                          parent: map<nat, nat>, headerSets: map<nat, set<nat>>, entries: seq<nat>,
                          pos: map<nat, nat>, order: seq<nat>, dfsTime: nat)
  {
    SearchInv(f, stack, discovered, finished, pos) && RecordsInv(discovered, finished, headerSets, entries) &&
    ParentsOk(f, discovered, parent, stack) && FinishInv(f, order, finished, headerSets, entries) &&
    dfsTime == |discovered| && (Entry in discovered || stack == [Entry])
  }

  /** When the stack is empty, every discovered block is finished and the search's results hold. */
  lemma SearchDone(f: Function, discovered: map<nat, nat>, finished: set<nat>, parent: map<nat, nat>,
                   headerSets: map<nat, set<nat>>, entries: seq<nat>, pos: map<nat, nat>, order: seq<nat>,
                   dfsTime: nat)
    requires LoopInv(f, [], discovered, finished, parent, headerSets, entries, pos, order, dfsTime)
    ensures Entry in discovered && (forall b :: b in discovered ==> b < |f|)
    ensures ClosedUnderSuccessors(f, discovered.Keys)
    ensures RecordsInv(discovered, discovered.Keys, headerSets, entries)
    ensures ParentEdges(f, discovered, parent) && parent.Keys <= discovered.Keys
    ensures FinishInv(f, order, discovered.Keys, headerSets, entries)
  {
    assert forall b :: b in discovered ==> b in finished;
    assert finished == discovered.Keys;
  }

  /** Finishing the unfinished block on top of the stack: pop it, collect its header set and record it. */
  method FinishTop(f: Function, stack: seq<nat>, discovered: map<nat, nat>, finished: set<nat>, parent: map<nat, nat>,
                   headerSets: map<nat, set<nat>>, entries: seq<nat>, ghost pos: map<nat, nat>, ghost order: seq<nat>,
                   ghost dfsTime: nat)
    returns (stack': seq<nat>, finished': set<nat>, headerSets': map<nat, set<nat>>, entries': seq<nat>,
             ghost order': seq<nat>)
    requires LoopInv(f, stack, discovered, finished, parent, headerSets, entries, pos, order, dfsTime)
    requires |stack| > 0 && stack[|stack| - 1] in discovered && stack[|stack| - 1] !in finished
    ensures stack' == stack[..|stack| - 1]
    ensures LoopInv(f, stack', discovered, finished', parent, headerSets', entries', pos, order', dfsTime)
  {
    var bb := stack[|stack| - 1];
    stack' := stack[..|stack| - 1];
    finished' := finished + {bb};
    PopFinishing(f, stack, stack', discovered, finished, finished', pos);
    PopKeepsParents(f, stack, stack', discovered, parent);
    var headers := CollectHeaders(f, bb, finished, headerSets);
    HeadersDiscovered(f, bb, discovered, finished, headerSets, headers);
    headerSets', entries' := RecordHeaders(bb, discovered, finished, headerSets, entries, headers);
    FinishKeeps(f, order, finished, headerSets, entries, bb, headers, headerSets', entries');
    order' := order + [bb];
  }

  /** Popping a discovered block keeps every parent key discovered or on the stack. */
  lemma PopKeepsParents(f: Function, stack: seq<nat>, popped: seq<nat>, discovered: map<nat, nat>,
                        parent: map<nat, nat>)
    requires |stack| > 0 && popped == stack[..|stack| - 1] && stack[|stack| - 1] in discovered
    requires ParentsOk(f, discovered, parent, stack)
    ensures ParentsOk(f, discovered, parent, popped)
  {
    forall s | s in parent && s !in discovered
      ensures s in popped
    {
      var k :| 0 <= k < |stack| && stack[k] == s;
      assert popped[k] == s;
    }
  }

  /** Recording a header set for a block outside `before` changes nothing another block collects. */
  lemma CollectedFrame(f: Function, b: nat, before: set<nat>, headerSets: map<nat, set<nat>>,
                       headerSets': map<nat, set<nat>>, h: nat)
    requires b < |f|
    requires forall s :: s in before ==> (s in headerSets <==> s in headerSets') &&
                                         (s in headerSets ==> headerSets[s] == headerSets'[s])
    ensures CollectedHeader(f, b, before, headerSets, h) <==> CollectedHeader(f, b, before, headerSets', h)
  {
    if CollectedHeader(f, b, before, headerSets, h) {
      var s :| s in f[b].succs && Contributes(s, before, headerSets, h);
      assert Contributes(s, before, headerSets', h);
    }
    if CollectedHeader(f, b, before, headerSets', h) {
      var s :| s in f[b].succs && Contributes(s, before, headerSets', h);
      assert Contributes(s, before, headerSets, h);
    }
  }

  /** Recording a set for a block not in `order` keeps the filtered entries. */
  lemma {:induction false} WithHeadersFrame(order: seq<nat>, headerSets: map<nat, set<nat>>, bb: nat, x: set<nat>)
    requires bb !in order
    ensures WithHeaders(order, headerSets[bb := x]) == WithHeaders(order, headerSets)
  {
    if order != [] {
      WithHeadersFrame(order[..|order| - 1], headerSets, bb, x);
    }
  }

  /** Finishing `bb` extends the finishing order and keeps every recorded header set as collected. */
  lemma FinishKeeps(f: Function, order: seq<nat>, finished: set<nat>, headerSets: map<nat, set<nat>>,
                    entries: seq<nat>, bb: nat, headers: set<nat>, headerSets': map<nat, set<nat>>,
                    entries': seq<nat>)
    requires FinishInv(f, order, finished, headerSets, entries)
    requires bb < |f| && bb !in finished && forall b :: b in headerSets ==> b in finished
    requires forall h :: h in headers <==> CollectedHeader(f, bb, finished, headerSets, h)
    requires headerSets' == if headers == {} then headerSets else headerSets[bb := headers]
    requires entries' == if headers == {} then entries else entries + [bb]
    ensures FinishInv(f, order + [bb], finished + {bb}, headerSets', entries')
  {
    var order' := order + [bb];
    forall i | 0 <= i < |order'|
      ensures order'[i] < |f| && RecordedAt(f, headerSets', order'[i], Earlier(order', i))
    {
      if i < |order| {
        RecordedEarlier(f, order, finished, headerSets, entries, bb, headers, headerSets', i);
      } else {
        RecordedLast(f, order, finished, headerSets, bb, headers, headerSets');
      }
    }
    OrderExtends(order, finished, bb);
    EntriesExtend(order, headerSets, entries, bb, headers, headerSets', entries');
  }

  /** Appending the block being finished keeps the order free of repeats and in step with the finished set. */
  lemma OrderExtends(order: seq<nat>, finished: set<nat>, bb: nat)
    requires Distinct(order) && (forall b :: b in order <==> b in finished) && bb !in finished
    ensures Distinct(order + [bb]) && forall b :: b in order + [bb] <==> b in finished + {bb}
  {
  }

  /** The entries grow by the finished block exactly when it records a header set. */
  lemma EntriesExtend(order: seq<nat>, headerSets: map<nat, set<nat>>, entries: seq<nat>, bb: nat,
                      headers: set<nat>, headerSets': map<nat, set<nat>>, entries': seq<nat>)
    requires entries == WithHeaders(order, headerSets) && bb !in order
    requires headerSets' == if headers == {} then headerSets else headerSets[bb := headers]
    requires entries' == if headers == {} then entries else entries + [bb]
    requires bb !in headerSets
    ensures entries' == WithHeaders(order + [bb], headerSets')
  {
    if headers != {} {
      WithHeadersFrame(order, headerSets, bb, headers);
    }
    assert (order + [bb])[..|order + [bb]| - 1] == order;
  }

  /** The header set of a block finished earlier stays as it was collected. */
  lemma RecordedEarlier(f: Function, order: seq<nat>, finished: set<nat>, headerSets: map<nat, set<nat>>,
                        entries: seq<nat>, bb: nat, x: set<nat>, headerSets': map<nat, set<nat>>, i: nat)
    requires FinishInv(f, order, finished, headerSets, entries)
    requires bb !in finished && i < |order|
    requires headerSets' == headerSets || headerSets' == headerSets[bb := x]
    ensures order[i] < |f| && RecordedAt(f, headerSets', order[i], Earlier(order + [bb], i))
  {
    assert (order + [bb])[..i] == order[..i];
    var before := Earlier(order, i);
    assert Earlier(order + [bb], i) == before;
    assert forall s :: s in before ==> s in order;
    forall h
      ensures (order[i] in headerSets' && h in headerSets'[order[i]]) <==>
              CollectedHeader(f, order[i], before, headerSets', h)
    {
      CollectedFrame(f, order[i], before, headerSets, headerSets', h);
    }
  }

  /** The header set of the block being finished is the one it collects now. */
  lemma RecordedLast(f: Function, order: seq<nat>, finished: set<nat>, headerSets: map<nat, set<nat>>, bb: nat,
                     headers: set<nat>, headerSets': map<nat, set<nat>>)
    requires Distinct(order) && (forall b :: b in order <==> b in finished)
    requires bb < |f| && bb !in finished && forall b :: b in headerSets ==> b in finished
    requires forall h :: h in headers <==> CollectedHeader(f, bb, finished, headerSets, h)
    requires headerSets' == if headers == {} then headerSets else headerSets[bb := headers]
    ensures RecordedAt(f, headerSets', bb, Earlier(order + [bb], |order|))
  {
    assert (order + [bb])[..|order|] == order;
    var before := Earlier(order + [bb], |order|);
    assert before == finished;
    forall h
      ensures (bb in headerSets' && h in headerSets'[bb]) <==> CollectedHeader(f, bb, before, headerSets', h)
    {
      CollectedFrame(f, bb, before, headerSets, headerSets', h);
    }
  }

  /** A new block's discovery time is the number of blocks discovered before it. */
  lemma TimesExtend(discovered: map<nat, nat>, bb: nat, t: nat)
    requires TimesDistinct(discovered) && bb !in discovered && t == |discovered|
    ensures TimesDistinct(discovered[bb := t]) && |discovered[bb := t]| == t + 1
    ensures discovered[bb := t].Keys == discovered.Keys + {bb}
  {
    assert discovered[bb := t].Keys == discovered.Keys + {bb};
  }

  /** Discovering a new block keeps what the search has recorded. */
  lemma DiscoverRecords(discovered: map<nat, nat>, finished: set<nat>, headerSets: map<nat, set<nat>>,
                        entries: seq<nat>, bb: nat, t: nat)
    requires RecordsInv(discovered, finished, headerSets, entries)
    requires bb !in discovered && t == |discovered| && TimesDistinct(discovered[bb := t])
    ensures RecordsInv(discovered[bb := t], finished, headerSets, entries)
  {
    assert discovered.Keys <= discovered[bb := t].Keys;
  }

  /** Finishing `bb` records its header set when that set is not empty. */
  method RecordHeaders(bb: nat, discovered: map<nat, nat>, finished: set<nat>, headerSets: map<nat, set<nat>>,
                       entries: seq<nat>, headers: set<nat>)
    returns (headerSets': map<nat, set<nat>>, entries': seq<nat>)
    requires RecordsInv(discovered, finished, headerSets, entries)
    requires bb in discovered && bb !in finished && headers <= discovered.Keys
    ensures RecordsInv(discovered, finished + {bb}, headerSets', entries')
    ensures headerSets' == if headers == {} then headerSets else headerSets[bb := headers]
    ensures entries' == if headers == {} then entries else entries + [bb]
  {
    headerSets', entries' := headerSets, entries;
    if headers != {} {
      headerSets' := headerSets[bb := headers];
      entries' := entries + [bb];
    }
  }

  /**
   * Discovering the block `bb` on top of the stack: record its discovery time,
   * then push its undiscovered successors, recording `bb` as their parent.
   */
  method Discover(f: Function, bb: nat, dfsTime: nat, stack: seq<nat>, discovered: map<nat, nat>, finished: set<nat>,
                  parent: map<nat, nat>, ghost headerSets: map<nat, set<nat>>, ghost entries: seq<nat>,
                  ghost pos: map<nat, nat>, ghost order: seq<nat>)
    returns (stack': seq<nat>, discovered': map<nat, nat>, parent': map<nat, nat>, ghost pos': map<nat, nat>)
    requires WellFormed(f) && LoopInv(f, stack, discovered, finished, parent, headerSets, entries, pos, order, dfsTime)
    requires |stack| > 0 && stack[|stack| - 1] == bb && bb !in discovered
    ensures discovered' == discovered[bb := dfsTime]
    ensures |discovered'.Keys| == |discovered.Keys| + 1 && |discovered'.Keys| <= |f|
    ensures LoopInv(f, stack', discovered', finished, parent', headerSets, entries, pos', order, dfsTime + 1)
  {
    CardBelow(discovered.Keys + {bb}, |f|);
    TimesExtend(discovered, bb, dfsTime);
    DiscoverRecords(discovered, finished, headerSets, entries, bb, dfsTime);
    DiscoverParents(f, discovered, parent, stack, bb, dfsTime);
    discovered' := discovered[bb := dfsTime];
    pos' := pos[bb := |stack| - 1];
    stack', parent' := PushSuccessors(f, bb, stack, discovered', parent);
    PushedKeeps(f, bb, dfsTime, stack, stack', discovered, finished, pos);
  }

  /** The loop of a discovery: each undiscovered successor of `bb` is pushed with `bb` as its parent. */
  method PushSuccessors(f: Function, bb: nat, stack: seq<nat>, discovered: map<nat, nat>, parent: map<nat, nat>)
    returns (stack': seq<nat>, parent': map<nat, nat>)
    requires bb < |f| && bb in discovered && ParentsOk(f, discovered, parent, stack)
    requires forall k :: 0 <= k < |stack| ==> stack[k] < |f|
    requires WellFormed(f)
    ensures |stack'| >= |stack| && stack'[..|stack|] == stack
    ensures forall k :: 0 <= k < |stack'| ==> stack'[k] < |f|
    ensures forall k :: |stack| <= k < |stack'| ==> stack'[k] !in discovered
    ensures forall s :: s in f[bb].succs && s !in discovered ==> s in stack'[|stack|..]
    ensures ParentsOk(f, discovered, parent', stack')
  {
    var succs := f[bb].succs;
    stack', parent' := stack, parent;
    var i := 0;
    while i < |succs|
      invariant 0 <= i <= |succs|
      invariant |stack'| >= |stack| && stack'[..|stack|] == stack
      invariant forall k :: 0 <= k < |stack'| ==> stack'[k] < |f|
      invariant forall k :: |stack| <= k < |stack'| ==> stack'[k] !in discovered
      invariant forall s :: s in succs[..i] && s !in discovered ==> s in stack'[|stack|..]
      invariant ParentsOk(f, discovered, parent', stack')
    {
      var succ := succs[i];
      if succ !in discovered {
        assert succ in f[bb].succs;
        assert (stack' + [succ])[..|stack|] == stack'[..|stack|];
        assert (stack' + [succ])[|stack|..] == stack'[|stack|..] + [succ];
        PushParent(f, discovered, parent', stack', bb, succ);
        stack' := stack' + [succ];
        parent' := parent'[succ := bb];
      }
      assert succs[..i + 1] == succs[..i] + [succ];
      i := i + 1;
    }
    assert succs[..i] == succs;
  }

  /** The pushes that follow a discovery keep the search invariant. */
  lemma PushedKeeps(f: Function, bb: nat, dfsTime: nat, stack: seq<nat>, stack': seq<nat>,
                    discovered: map<nat, nat>, finished: set<nat>, pos: map<nat, nat>)
    requires WellFormed(f) && SearchInv(f, stack, discovered, finished, pos)
    requires |stack| > 0 && stack[|stack| - 1] == bb && bb !in discovered
    requires |stack'| >= |stack| && stack'[..|stack|] == stack
    requires forall k :: 0 <= k < |stack'| ==> stack'[k] < |f|
    requires forall k :: |stack| <= k < |stack'| ==> stack'[k] !in discovered[bb := dfsTime]
    requires forall s :: s in f[bb].succs && s !in discovered[bb := dfsTime] ==> s in stack'[|stack|..]
    ensures SearchInv(f, stack', discovered[bb := dfsTime], finished, pos[bb := |stack| - 1])
  {
    var d', p' := discovered[bb := dfsTime], pos[bb := |stack| - 1];
    PushedAtPositions(bb, stack, stack', discovered, d', finished, pos, p');
    PushedNoCopy(bb, stack, stack', discovered, d', finished, pos, p');
    PushedSuccs(f, bb, stack, stack', discovered, d', finished, pos, p');
  }

  lemma PushedAtPositions(bb: nat, stack: seq<nat>, stack': seq<nat>, discovered: map<nat, nat>,
                          d': map<nat, nat>, finished: set<nat>, pos: map<nat, nat>, p': map<nat, nat>)
    requires AtPositions(stack, discovered, finished, pos)
    requires |stack| > 0 && stack[|stack| - 1] == bb && d'.Keys == discovered.Keys + {bb}
    requires p' == pos[bb := |stack| - 1]
    requires |stack'| >= |stack| && stack'[..|stack|] == stack
    ensures AtPositions(stack', d', finished, p')
  {
    forall b | b in d' && b !in finished
      ensures b in p' && p'[b] < |stack'| && stack'[p'[b]] == b
    {
      assert stack'[p'[b]] == stack[p'[b]];
    }
  }

  lemma PushedNoCopy(bb: nat, stack: seq<nat>, stack': seq<nat>, discovered: map<nat, nat>,
                     d': map<nat, nat>, finished: set<nat>, pos: map<nat, nat>, p': map<nat, nat>)
    requires NoCopyAbove(stack, discovered, finished, pos)
    requires |stack| > 0 && stack[|stack| - 1] == bb && d'.Keys == discovered.Keys + {bb}
    requires p' == pos[bb := |stack| - 1]
    requires |stack'| >= |stack| && stack'[..|stack|] == stack
    requires forall k :: |stack| <= k < |stack'| ==> stack'[k] !in d'
    ensures NoCopyAbove(stack', d', finished, p')
  {
    forall b, q | b in d' && b !in finished && b in p' && p'[b] < q < |stack'|
      ensures stack'[q] != b
    {
      if q < |stack| {
        assert stack'[q] == stack[q];
      }
    }
  }

  lemma PushedSuccs(f: Function, bb: nat, stack: seq<nat>, stack': seq<nat>, discovered: map<nat, nat>,
                    d': map<nat, nat>, finished: set<nat>, pos: map<nat, nat>, p': map<nat, nat>)
    requires SuccsAbove(f, stack, discovered, finished, pos) && AtPositions(stack, discovered, finished, pos)
    requires |stack| > 0 && stack[|stack| - 1] == bb && d'.Keys == discovered.Keys + {bb}
    requires p' == pos[bb := |stack| - 1]
    requires |stack'| >= |stack| && stack'[..|stack|] == stack
    requires bb < |f| ==> forall s :: s in f[bb].succs && s !in d' ==> s in stack'[|stack|..]
    ensures SuccsAbove(f, stack', d', finished, p')
  {
    forall b, s | b < |f| && b in d' && b !in finished && b in p' && p'[b] < |stack'| && s in f[b].succs && s !in d'
      ensures s in stack'[p'[b] + 1..]
    {
      assert stack'[p'[b] + 1..] == stack[p'[b] + 1..] + stack'[|stack|..];
    }
  }

  /** Popping the top of the stack keeps every position below it. */
  lemma PopSlices(stack: seq<nat>, p: nat)
    requires p < |stack| - 1
    ensures stack[..|stack| - 1][p] == stack[p]
    ensures stack[p + 1..] == stack[..|stack| - 1][p + 1..] + [stack[|stack| - 1]]
  {
  }

  /** Popping the top of the stack, which is finished afterwards, keeps every other unfinished block's position. */
  lemma PopAtPositions(stack: seq<nat>, popped: seq<nat>, discovered: map<nat, nat>, finished: set<nat>,
                       finished': set<nat>, pos: map<nat, nat>)
    requires AtPositions(stack, discovered, finished, pos)
    requires |stack| > 0 && popped == stack[..|stack| - 1] && finished' == finished + {stack[|stack| - 1]}
    ensures AtPositions(popped, discovered, finished', pos)
  {
    forall b | b in discovered && b !in finished'
      ensures pos[b] < |popped| && popped[pos[b]] == b
    {
      PopSlices(stack, pos[b]);
    }
  }

  lemma PopNoCopy(stack: seq<nat>, popped: seq<nat>, discovered: map<nat, nat>, finished: set<nat>,
                  finished': set<nat>, pos: map<nat, nat>)
    requires NoCopyAbove(stack, discovered, finished, pos)
    requires |stack| > 0 && popped == stack[..|stack| - 1] && finished <= finished'
    ensures NoCopyAbove(popped, discovered, finished', pos)
  {
  }

  lemma PopSuccs(f: Function, stack: seq<nat>, popped: seq<nat>, discovered: map<nat, nat>, finished: set<nat>,
                 finished': set<nat>, pos: map<nat, nat>)
    requires SuccsAbove(f, stack, discovered, finished, pos)
    requires |stack| > 0 && popped == stack[..|stack| - 1] && finished' == finished + {stack[|stack| - 1]}
    requires stack[|stack| - 1] in discovered
    ensures SuccsAbove(f, popped, discovered, finished', pos)
  {
    forall b, s | b < |f| && b in discovered && b !in finished' && b in pos && pos[b] < |popped| &&
      s in f[b].succs && s !in discovered
      ensures s in popped[pos[b] + 1..]
    {
      PopSlices(stack, pos[b]);
    }
  }

  /** Popping a duplicate of an already finished block keeps the loop invariant. */
  lemma PopFinished(f: Function, stack: seq<nat>, popped: seq<nat>, discovered: map<nat, nat>, finished: set<nat>,
                    parent: map<nat, nat>, headerSets: map<nat, set<nat>>, entries: seq<nat>, pos: map<nat, nat>,
                    order: seq<nat>, dfsTime: nat)
    requires LoopInv(f, stack, discovered, finished, parent, headerSets, entries, pos, order, dfsTime)
    requires |stack| > 0 && stack[|stack| - 1] in finished && popped == stack[..|stack| - 1]
    ensures LoopInv(f, popped, discovered, finished, parent, headerSets, entries, pos, order, dfsTime)
  {
    PopDuplicate(f, stack, popped, discovered, finished, pos);
    PopKeepsParents(f, stack, popped, discovered, parent);
  }

  /** Popping a duplicate of an already finished block keeps the search invariant. */
  lemma PopDuplicate(f: Function, stack: seq<nat>, popped: seq<nat>, discovered: map<nat, nat>, finished: set<nat>,
                     pos: map<nat, nat>)
    requires SearchInv(f, stack, discovered, finished, pos)
    requires |stack| > 0 && stack[|stack| - 1] in finished && popped == stack[..|stack| - 1]
    ensures SearchInv(f, popped, discovered, finished, pos)
  {
    var top := |stack| - 1;
    assert finished + {stack[top]} == finished;
    PopAtPositions(stack, popped, discovered, finished, finished, pos);
    PopNoCopy(stack, popped, discovered, finished, finished, pos);
    PopSuccs(f, stack, popped, discovered, finished, finished, pos);
  }

  /** An unfinished block on top of the stack is there at its discovery position, with all successors discovered. */
  lemma TopAtPosition(f: Function, stack: seq<nat>, discovered: map<nat, nat>, finished: set<nat>, pos: map<nat, nat>)
    requires AtPositions(stack, discovered, finished, pos) && NoCopyAbove(stack, discovered, finished, pos)
    requires SuccsAbove(f, stack, discovered, finished, pos)
    requires |stack| > 0 && stack[|stack| - 1] < |f|
    requires stack[|stack| - 1] in discovered && stack[|stack| - 1] !in finished
    ensures pos[stack[|stack| - 1]] == |stack| - 1
    ensures forall s :: s in f[stack[|stack| - 1]].succs ==> s in discovered
  {
  }

  /** Finishing the block on top of the stack, which sits at its discovery position, keeps the invariant. */
  lemma PopFinishing(f: Function, stack: seq<nat>, popped: seq<nat>, discovered: map<nat, nat>, finished: set<nat>,
                     finished': set<nat>, pos: map<nat, nat>)
    requires SearchInv(f, stack, discovered, finished, pos)
    requires |stack| > 0 && stack[|stack| - 1] in discovered && stack[|stack| - 1] !in finished
    requires popped == stack[..|stack| - 1] && finished' == finished + {stack[|stack| - 1]}
    ensures forall s :: s in f[stack[|stack| - 1]].succs ==> s in discovered
    ensures SearchInv(f, popped, discovered, finished', pos)
  {
    TopAtPosition(f, stack, discovered, finished, pos);
    PopAtPositions(stack, popped, discovered, finished, finished', pos);
    PopNoCopy(stack, popped, discovered, finished, finished', pos);
    PopSuccs(f, stack, popped, discovered, finished, finished', pos);
  }

  /** The headers a block collects when it is finished are discovered blocks. */
  lemma HeadersDiscovered(f: Function, bb: nat, discovered: map<nat, nat>, finished: set<nat>,
                          headerSets: map<nat, set<nat>>, headers: set<nat>)
    requires bb < |f| && forall s :: s in f[bb].succs ==> s in discovered
    requires forall b :: b in headerSets ==> headerSets[b] <= discovered.Keys
    requires forall h :: h in headers <==> CollectedHeader(f, bb, finished, headerSets, h)
    ensures headers <= discovered.Keys
  {
    forall h | h in headers
      ensures h in discovered
    {
      var s :| s in f[bb].succs && Contributes(s, finished, headerSets, h);
    }
  }

  /** Every block reachable from the entry is discovered by the search. */
  lemma ReachableDiscovered(f: Function, discovered: map<nat, nat>, b: nat)
    requires Entry in discovered && ClosedUnderSuccessors(f, discovered.Keys)
    requires Reachable(f, Entry, b)
    ensures b in discovered
  {
    ClosedContainsReachable(f, Entry, discovered.Keys, b);
  }

  // ---------------------------------------------------------------------------
  // Phase 2: bad headers and preheaders.
  // ---------------------------------------------------------------------------

  /** Some block of `h`'s loop among the first `n` entries is not dominated by `h`. */
  ghost predicate BadWithin(dom: Dominance, headerSets: map<nat, set<nat>>, entries: seq<nat>, n: nat, h: nat)
    requires n <= |entries| && forall i :: 0 <= i < |entries| ==> entries[i] in headerSets
  {
    exists j :: 0 <= j < n && h in headerSets[entries[j]] && !Dominates(dom, h, entries[j])
  }

  /** Entry `k` is the first of the entries whose header set holds `h`. */
  ghost predicate FirstHolder(headerSets: map<nat, set<nat>>, entries: seq<nat>, k: nat, h: nat)
    requires forall i :: 0 <= i < |entries| ==> entries[i] in headerSets
  {
    k < |entries| && h in headerSets[entries[k]] &&
    forall j :: 0 <= j < k ==> h !in headerSets[entries[j]]
  }

  /**
   * Header `h` receives a preheader: its DFS parent properly dominates it, and
   * it dominates the first block (within the first `n` entries) whose loop it heads.
   */
  ghost predicate GetsPreheader(dom: Dominance, parent: map<nat, nat>, headerSets: map<nat, set<nat>>,
                                entries: seq<nat>, n: nat, h: nat)
    requires n <= |entries| && forall i :: 0 <= i < |entries| ==> entries[i] in headerSets
  {
    h in parent && ProperlyDominates(dom, parent[h], h) &&
    exists k: nat :: k < n && FirstHolder(headerSets, entries, k, h) && Dominates(dom, h, entries[k])
  }

  /**
   * The second phase of the LoopAnalysis constructor: a header is bad iff it
   * fails to dominate some block of its loop, and a header is mapped to its DFS
   * parent iff that parent properly dominates it and the header dominates the
   * first block, in iteration order, whose header set holds it.
   */
  method ClassifyHeaders(dom: Dominance, parent: map<nat, nat>, headerSets: map<nat, set<nat>>, entries: seq<nat>)
    returns (bad: set<nat>, preheaders: map<nat, nat>)
    requires forall i :: 0 <= i < |entries| ==> entries[i] in headerSets
    ensures forall h :: h in bad <==> BadWithin(dom, headerSets, entries, |entries|, h)
    ensures forall h :: h in preheaders <==> GetsPreheader(dom, parent, headerSets, entries, |entries|, h)
    ensures forall h :: h in preheaders ==> h in parent && preheaders[h] == parent[h]
  {
    bad, preheaders := {}, map[];
    var i := 0;
    while i < |entries|
      invariant 0 <= i <= |entries|
      invariant forall h :: h in bad <==> BadWithin(dom, headerSets, entries, i, h)
      invariant forall h :: h in preheaders <==> GetsPreheader(dom, parent, headerSets, entries, i, h)
      invariant forall h :: h in preheaders ==> h in parent && preheaders[h] == parent[h]
    {
      bad, preheaders := ClassifyEntry(dom, parent, headerSets, entries, i, bad, preheaders);
      i := i + 1;
    }
  }

  /** The headers of one entry, taken in any order. */
  method ClassifyEntry(dom: Dominance, parent: map<nat, nat>, headerSets: map<nat, set<nat>>, entries: seq<nat>,
                       i: nat, bad: set<nat>, preheaders: map<nat, nat>)
    returns (bad': set<nat>, preheaders': map<nat, nat>)
    requires i < |entries| && forall k :: 0 <= k < |entries| ==> entries[k] in headerSets
    requires forall h :: h in bad <==> BadWithin(dom, headerSets, entries, i, h)
    requires forall h :: h in preheaders <==> GetsPreheader(dom, parent, headerSets, entries, i, h)
    requires forall h :: h in preheaders ==> h in parent && preheaders[h] == parent[h]
    ensures forall h :: h in bad' <==> BadWithin(dom, headerSets, entries, i + 1, h)
    ensures forall h :: h in preheaders' <==> GetsPreheader(dom, parent, headerSets, entries, i + 1, h)
    ensures forall h :: h in preheaders' ==> h in parent && preheaders'[h] == parent[h]
  {
    var bb := entries[i];
    var rest := headerSets[bb];
    bad', preheaders' := bad, preheaders;
    while rest != {}
      invariant rest <= headerSets[bb]
      invariant forall h :: h in bad' <==>
        BadWithin(dom, headerSets, entries, i, h) || (h in headerSets[bb] - rest && !Dominates(dom, h, bb))
      invariant forall h :: h in preheaders' <==>
        GetsPreheader(dom, parent, headerSets, entries, i, h) ||
        (h in headerSets[bb] - rest && FirstHolder(headerSets, entries, i, h) && Dominates(dom, h, bb) &&
         h in parent && ProperlyDominates(dom, parent[h], h))
      invariant forall h :: h in preheaders' ==> h in parent && preheaders'[h] == parent[h]
      decreases rest
    {
      var header :| header in rest;
      if header in bad' {
      } else if !Dominates(dom, header, bb) {
        bad' := bad' + {header};
      } else if header !in preheaders' {
        if header in parent && ProperlyDominates(dom, parent[header], header) {
          HeldEarlierIsFirst(dom, parent, headerSets, entries, i, header);
          preheaders' := preheaders'[header := parent[header]];
        }
      }
      rest := rest - {header};
    }
    forall h
      ensures h in bad' <==> BadWithin(dom, headerSets, entries, i + 1, h)
    {
      if BadWithin(dom, headerSets, entries, i + 1, h) {
        var j :| 0 <= j < i + 1 && h in headerSets[entries[j]] && !Dominates(dom, h, entries[j]);
        if j < i {
          assert BadWithin(dom, headerSets, entries, i, h);
        }
      }
    }
    forall h
      ensures h in preheaders' <==> GetsPreheader(dom, parent, headerSets, entries, i + 1, h)
    {
      if GetsPreheader(dom, parent, headerSets, entries, i + 1, h) {
        var k: nat :| k < i + 1 && FirstHolder(headerSets, entries, k, h) && Dominates(dom, h, entries[k]);
        if k < i {
          assert GetsPreheader(dom, parent, headerSets, entries, i, h);
        }
      }
    }
  }

  /**
   * A header that is not bad and already appeared in an earlier entry either
   * got its preheader there or cannot get one.
   */
  lemma HeldEarlierIsFirst(dom: Dominance, parent: map<nat, nat>, headerSets: map<nat, set<nat>>, entries: seq<nat>,
                           i: nat, h: nat)
    requires i < |entries| && forall k :: 0 <= k < |entries| ==> entries[k] in headerSets
    requires h in headerSets[entries[i]]
    requires !BadWithin(dom, headerSets, entries, i, h)
    requires h in parent && ProperlyDominates(dom, parent[h], h)
    ensures FirstHolder(headerSets, entries, i, h) || GetsPreheader(dom, parent, headerSets, entries, i, h)
  {
    var k := FirstIndex(headerSets, entries, i, h);
    if k < i {
      assert Dominates(dom, h, entries[k]);
    }
  }

  /** If `h` is held by some entry at or before `n`, there is a first one. */
  lemma {:induction false} FirstIndex(headerSets: map<nat, set<nat>>, entries: seq<nat>, n: nat, h: nat)
    returns (k: nat)
    requires n < |entries| && forall i :: 0 <= i < |entries| ==> entries[i] in headerSets
    requires h in headerSets[entries[n]]
    ensures k <= n && FirstHolder(headerSets, entries, k, h)
    decreases n
  {
    var j := 0;
    while j < n && h !in headerSets[entries[j]]
      invariant j <= n
      invariant forall m :: 0 <= m < j ==> h !in headerSets[entries[m]]
    {
      j := j + 1;
    }
    k := j;
  }

  /** A good header whose DFS parent properly dominates it receives that parent as its preheader. */
  lemma GoodHeaderHasPreheader(dom: Dominance, parent: map<nat, nat>, headerSets: map<nat, set<nat>>,
                               entries: seq<nat>, i: nat, h: nat)
    requires i < |entries| && forall k :: 0 <= k < |entries| ==> entries[k] in headerSets
    requires h in headerSets[entries[i]]
    requires !BadWithin(dom, headerSets, entries, |entries|, h)
    requires h in parent && ProperlyDominates(dom, parent[h], h)
    ensures GetsPreheader(dom, parent, headerSets, entries, |entries|, h)
  {
    var k := FirstIndex(headerSets, entries, i, h);
    assert Dominates(dom, h, entries[k]);
  }

  // ---------------------------------------------------------------------------
  // Phase 3: the innermost good header of each block.
  // ---------------------------------------------------------------------------

  /**
   * `r` is the innermost good header among `headers`: absent iff every header
   * is bad, and otherwise a good header discovered no earlier than any other.
   */
  ghost predicate IsInnermost(discovered: map<nat, nat>, headers: set<nat>, bad: set<nat>, r: Option<nat>)
    requires headers <= discovered.Keys
  {
    match r
    case None => headers <= bad
    case Some(h) =>
      h in headers && h !in bad &&
      forall h' :: h' in headers && h' !in bad ==> discovered[h'] <= discovered[h]
  }

  /** The header with the maximum discovery time that is not bad, if any. */
  method InnermostHeader(discovered: map<nat, nat>, headers: set<nat>, bad: set<nat>) returns (r: Option<nat>)
    requires headers <= discovered.Keys
    ensures IsInnermost(discovered, headers, bad, r)
  {
    r := None;
    var maxDiscovery: int := -1;
    var rest := headers;
    while rest != {}
      invariant rest <= headers
      invariant r.None? ==> maxDiscovery == -1 && headers - rest <= bad
      invariant r.Some? ==> r.value in headers - rest && r.value !in bad && maxDiscovery == discovered[r.value]
      invariant forall h' :: h' in headers - rest && h' !in bad ==> discovered[h'] <= maxDiscovery
      decreases rest
    {
      var header :| header in rest;
      var discovery := discovered[header];
      if discovery > maxDiscovery && header !in bad {
        maxDiscovery := discovery;
        r := Some(header);
      }
      rest := rest - {header};
    }
  }

  /** With distinct discovery times the innermost header does not depend on iteration order. */
  lemma InnermostUnique(discovered: map<nat, nat>, headers: set<nat>, bad: set<nat>, r1: Option<nat>, r2: Option<nat>)
    requires TimesDistinct(discovered) && headers <= discovered.Keys
    requires IsInnermost(discovered, headers, bad, r1) && IsInnermost(discovered, headers, bad, r2)
    ensures r1 == r2
  {
  }

  /**
   * The third phase of the LoopAnalysis constructor: each block with a
   * non-empty header set is mapped to its innermost good header (or to none).
   */
  method InnermostHeaders(discovered: map<nat, nat>, headerSets: map<nat, set<nat>>, entries: seq<nat>,
                          bad: set<nat>)
    returns (blockToHeader: map<nat, Option<nat>>)
    requires forall i :: 0 <= i < |entries| ==> entries[i] in headerSets
    requires forall b :: b in headerSets ==> headerSets[b] <= discovered.Keys
    ensures forall b :: b in blockToHeader <==> b in entries && headerSets[b] != {}
    ensures forall b :: b in blockToHeader ==> IsInnermost(discovered, headerSets[b], bad, blockToHeader[b])
  {
    blockToHeader := map[];
    var i := 0;
    while i < |entries|
      invariant 0 <= i <= |entries|
      invariant forall b :: b in blockToHeader <==> b in entries[..i] && headerSets[b] != {}
      invariant forall b :: b in blockToHeader ==> IsInnermost(discovered, headerSets[b], bad, blockToHeader[b])
    {
      var bb := entries[i];
      var headers := headerSets[bb];
      if headers != {} {
        var inner := InnermostHeader(discovered, headers, bad);
        blockToHeader := blockToHeader[bb := inner];
      }
      assert entries[..i + 1] == entries[..i] + [bb];
      i := i + 1;
    }
    assert entries[..i] == entries;
  }

  /** The header tables are consistent and each block's header is its innermost good one. */
  ghost predicate TablesValid(discovered: map<nat, nat>, parent: map<nat, nat>, headerSets: map<nat, set<nat>>,
                              bad: set<nat>, blockToHeader: map<nat, Option<nat>>, headerToPreheader: map<nat, nat>)
  {
    TimesDistinct(discovered) &&
    (forall b :: b in headerSets ==> headerSets[b] <= discovered.Keys) &&
    (forall b :: b in blockToHeader <==> b in headerSets) &&
    (forall b :: b in blockToHeader ==> IsInnermost(discovered, headerSets[b], bad, blockToHeader[b])) &&
    (forall h :: h in headerToPreheader ==> h in parent && headerToPreheader[h] == parent[h])
  }

  /**
   * What the three phases establish over `f` and `dom`: the tables are valid;
   * every reachable block is discovered; DFS parents have an edge to their
   * children; in the finishing order `order` each block's header set is the
   * one it collected and the entries follow that order; and the bad headers
   * and preheaders are those the classification describes.
   */
  ghost predicate Analysed(f: Function, dom: Dominance, discovered: map<nat, nat>, parent: map<nat, nat>,
                           headerSets: map<nat, set<nat>>, entries: seq<nat>, order: seq<nat>, bad: set<nat>,
                           blockToHeader: map<nat, Option<nat>>, headerToPreheader: map<nat, nat>)
  {
    TablesValid(discovered, parent, headerSets, bad, blockToHeader, headerToPreheader) &&
    (forall b :: Reachable(f, Entry, b) ==> b in discovered) &&
    ParentEdges(f, discovered, parent) &&
    FinishInv(f, order, discovered.Keys, headerSets, entries) &&
    (forall i :: 0 <= i < |entries| ==> entries[i] in headerSets) &&
    (forall h :: h in bad <==> BadWithin(dom, headerSets, entries, |entries|, h)) &&
    (forall h :: h in headerToPreheader <==> GetsPreheader(dom, parent, headerSets, entries, |entries|, h))
  }

  /** The three phases of the LoopAnalysis constructor, run over `f` with the dominance relation `dom`. */
  method Analyze(f: Function, dom: Dominance)
    returns (discovered: map<nat, nat>, parent: map<nat, nat>, headerSets: map<nat, set<nat>>, entries: seq<nat>,
             ghost order: seq<nat>, bad: set<nat>, blockToHeader: map<nat, Option<nat>>,
             headerToPreheader: map<nat, nat>)
    requires WellFormed(f)
    ensures Analysed(f, dom, discovered, parent, headerSets, entries, order, bad, blockToHeader, headerToPreheader)
  {
    discovered, parent, headerSets, entries, order := FindLoopHeaders(f);
    forall b | Reachable(f, Entry, b)
      ensures b in discovered
    {
      ReachableDiscovered(f, discovered, b);
    }
    bad, headerToPreheader := ClassifyHeaders(dom, parent, headerSets, entries);
    blockToHeader := InnermostHeaders(discovered, headerSets, entries, bad);
    PhasesAnalysed(f, dom, discovered, parent, headerSets, entries, order, bad, blockToHeader, headerToPreheader);
  }

  /** Copies of an analysis' tables are an analysis. */
  lemma AnalysedCopy(f: Function, dom: Dominance, discovered: map<nat, nat>, parent: map<nat, nat>,
                     headerSets: map<nat, set<nat>>, entries: seq<nat>, order: seq<nat>, bad: set<nat>,
                     blockToHeader: map<nat, Option<nat>>, headerToPreheader: map<nat, nat>,
                     discovered': map<nat, nat>, parent': map<nat, nat>, headerSets': map<nat, set<nat>>,
                     entries': seq<nat>, order': seq<nat>, bad': set<nat>, blockToHeader': map<nat, Option<nat>>,
                     headerToPreheader': map<nat, nat>)
    requires Analysed(f, dom, discovered, parent, headerSets, entries, order, bad, blockToHeader, headerToPreheader)
    requires discovered' == discovered && parent' == parent && headerSets' == headerSets && entries' == entries
    requires order' == order && bad' == bad && blockToHeader' == blockToHeader
    requires headerToPreheader' == headerToPreheader
    ensures Analysed(f, dom, discovered', parent', headerSets', entries', order', bad', blockToHeader',
                     headerToPreheader')
  {
  }

  /** The three phases' results together make an analysis. */
  lemma PhasesAnalysed(f: Function, dom: Dominance, discovered: map<nat, nat>, parent: map<nat, nat>,
                       headerSets: map<nat, set<nat>>, entries: seq<nat>, order: seq<nat>, bad: set<nat>,
                       blockToHeader: map<nat, Option<nat>>, headerToPreheader: map<nat, nat>)
    requires RecordsInv(discovered, discovered.Keys, headerSets, entries)
    requires forall b :: Reachable(f, Entry, b) ==> b in discovered
    requires ParentEdges(f, discovered, parent) && parent.Keys <= discovered.Keys
    requires FinishInv(f, order, discovered.Keys, headerSets, entries)
    requires forall h :: h in bad <==> BadWithin(dom, headerSets, entries, |entries|, h)
    requires forall h :: h in headerToPreheader <==> GetsPreheader(dom, parent, headerSets, entries, |entries|, h)
    requires forall h :: h in headerToPreheader ==> h in parent && headerToPreheader[h] == parent[h]
    requires forall b :: b in blockToHeader <==> b in entries && headerSets[b] != {}
    requires forall b :: b in blockToHeader ==> IsInnermost(discovered, headerSets[b], bad, blockToHeader[b])
    ensures Analysed(f, dom, discovered, parent, headerSets, entries, order, bad, blockToHeader, headerToPreheader)
  {
    assert forall b :: b in blockToHeader <==> b in headerSets;
    assert TablesValid(discovered, parent, headerSets, bad, blockToHeader, headerToPreheader);
  }

  /** The results of the loop analysis, with the intermediate tables it was computed from. */
  class LoopAnalysis {
    var blockToHeader: map<nat, Option<nat>>
    var headerToPreheader: map<nat, nat>
    ghost var discovered: map<nat, nat>
    ghost var parent: map<nat, nat>
    ghost var headerSets: map<nat, set<nat>>
    ghost var entries: seq<nat>
    ghost var bad: set<nat>
    ghost var order: seq<nat>

    ghost predicate Valid()
      reads this
    {
      TablesValid(discovered, parent, headerSets, bad, blockToHeader, headerToPreheader)
    }

    /** Runs the three phases over `f` with the dominance relation `dom`. */
    constructor(f: Function, dom: Dominance)
      requires WellFormed(f)
      ensures Valid()
      ensures Analysed(f, dom, discovered, parent, headerSets, entries, order, bad, blockToHeader, headerToPreheader)
    {
      var disc, par, hs, es, badHeaders, toHeader, preheaders;
      ghost var ord;
      disc, par, hs, es, ord, badHeaders, toHeader, preheaders := Analyze(f, dom);
      discovered, parent, headerSets, entries, order, bad := disc, par, hs, es, ord, badHeaders;
      blockToHeader, headerToPreheader := toHeader, preheaders;
      new;
      AnalysedCopy(f, dom, disc, par, hs, es, ord, badHeaders, toHeader, preheaders,
                   discovered, parent, headerSets, entries, order, bad, blockToHeader, headerToPreheader);
    }

    /** `getLoopHeader`: the innermost good loop header of `b`, if any. */
    function GetLoopHeader(b: nat): (r: Option<nat>)
      reads this
      requires Valid()
      ensures r.Some? ==> b in headerSets && r.value in headerSets[b] && r.value !in bad
      ensures r.Some? ==> forall h :: h in headerSets[b] && h !in bad ==> discovered[h] <= discovered[r.value]
      ensures r.None? <==> b !in headerSets || headerSets[b] <= bad
    {
      if b in blockToHeader then blockToHeader[b] else None
    }

    /** `getLoopPreheader`: the preheader of the innermost good loop of `b`, if it has one. */
    function GetLoopPreheader(b: nat): (r: Option<nat>)
      reads this
      requires Valid()
      ensures r.Some? <==> GetLoopHeader(b).Some? && GetLoopHeader(b).value in headerToPreheader
      ensures r.Some? ==> r.value == parent[GetLoopHeader(b).value]
    {
      match GetLoopHeader(b)
      case None => None
      case Some(h) => if h in headerToPreheader then Some(headerToPreheader[h]) else None
    }
  }
}
