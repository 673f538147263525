/**
 * Whole-function CFG analyses: post-order traversal, try-nesting depths,
 * and the innermost enclosing try of every block.
 */
module CfgAnalysis {
  import opened Wrappers
  import opened Cfg

  // ---------------------------------------------------------------------------
  // Post order

  /** A DFS frame: a block and the index of the next successor to look at. */
  datatype Frame = Frame(block: nat, cur: nat)

  function FrameBlocks(stack: seq<Frame>): set<nat>
  {
    set i | 0 <= i < |stack| :: stack[i].block
  }

  predicate FramesInRange(f: Function, stack: seq<Frame>)
  {
    forall i :: 0 <= i < |stack| ==> stack[i].block < |f| && stack[i].cur <= |f[stack[i].block].succs|
  }

  predicate FramesDistinct(stack: seq<Frame>)
  {
    forall i, j :: 0 <= i < j < |stack| ==> stack[i].block != stack[j].block
  }

  predicate Distinct(order: seq<nat>)
  {
    forall i, j :: 0 <= i < j < |order| ==> order[i] != order[j]
  }

  ghost predicate VisitedIsUnion(visited: set<nat>, stack: seq<Frame>, order: seq<nat>)
  {
    (forall b :: b in visited <==> b in order || b in FrameBlocks(stack)) &&
    (forall i :: 0 <= i < |stack| ==> stack[i].block !in order)
  }

  predicate FinishedSuccessorsVisited(f: Function, order: seq<nat>, visited: set<nat>)
  {
    forall b, x :: b in order && 0 <= b < |f| && x in f[b].succs ==> x in visited
  }

  predicate CursorsVisited(f: Function, stack: seq<Frame>, visited: set<nat>)
    requires FramesInRange(f, stack)
  {
    forall i, k :: 0 <= i < |stack| && 0 <= k < stack[i].cur ==> f[stack[i].block].succs[k] in visited
  }

  /** The DFS invariant shared by both loops of VisitPostOrder. */
  ghost predicate PostOrderInv(f: Function, start: nat, stack: seq<Frame>, order: seq<nat>,
                               visited: set<nat>, paths: map<nat, seq<nat>>)
  {
    WellFormed(f) && |stack| > 0 && stack[0].block == start &&
    FramesInRange(f, stack) && FramesDistinct(stack) && Distinct(order) &&
    VisitedIsUnion(visited, stack, order) &&
    start in visited && |visited| <= |f| &&
    FinishedSuccessorsVisited(f, order, visited) &&
    CursorsVisited(f, stack, visited) &&
    PathsKnown(f, start, visited, paths)
  }

  /**
   * visitPostOrder: a depth-first search with an explicit stack and visited
   * set. Every block reachable from `start` is listed exactly once, and
   * `start` comes last.
   */
  method VisitPostOrder(f: Function, start: nat) returns (order: seq<nat>)
    requires WellFormed(f) && start < |f|
    ensures |order| > 0 && Last(order) == start
    ensures Distinct(order)
    ensures forall b :: b in order ==> Reachable(f, start, b)
    ensures ClosedUnderSuccessors(f, set b | b in order)
  {
    var stack := [Frame(start, 0)];
    var visited := {start};
    ghost var paths: map<nat, seq<nat>> := map[start := [start]];
    ghost var done: set<nat> := {};
    order := [];
    assert FrameBlocks(stack) == {start} by {
      assert stack[0].block == start;
    }
    while true
      invariant PostOrderInv(f, start, stack, order, visited, paths)
      invariant (forall b :: b in done <==> b in order) && |done| == |order|
      decreases |f| - |done|
    {
      while stack[|stack| - 1].cur < |f[stack[|stack| - 1].block].succs|
        invariant PostOrderInv(f, start, stack, order, visited, paths)
        decreases |f| - |visited|, |f[stack[|stack| - 1].block].succs| - stack[|stack| - 1].cur
      {
        stack, visited, paths := VisitNextSuccessor(f, start, stack, order, visited, paths);
      }
      var top := stack[|stack| - 1];
      if |stack| == 1 {
        PostOrderComplete(f, start, stack, order, visited, paths);
      } else {
        PopFrame(f, start, stack, order, visited, paths);
        PopDone(f, stack, order, visited, done);
      }
      order := order + [top.block];
      done := done + {top.block};
      stack := stack[..|stack| - 1];
      if stack == [] {
        break;
      }
    }
  }

  /** The bookkeeping of the outer loop: the finished block is new and the count stays below the block count. */
  lemma PopDone(f: Function, stack: seq<Frame>, order: seq<nat>, visited: set<nat>, done: set<nat>)
    requires |stack| > 0 && VisitedIsUnion(visited, stack, order) && (forall b :: b in visited ==> b < |f|)
    requires forall b :: b in done <==> b in order
    ensures stack[|stack| - 1].block !in done && |done + {stack[|stack| - 1].block}| <= |f|
  {
    var top := stack[|stack| - 1];
    FrameBlocksPop(stack);
    CardBelow(done + {top.block}, |f|);
  }

  /** Finishing the last frame, the start block, completes the post order. */
  lemma PostOrderComplete(f: Function, start: nat, stack: seq<Frame>, order: seq<nat>,
                          visited: set<nat>, paths: map<nat, seq<nat>>)
    requires PostOrderInv(f, start, stack, order, visited, paths) && |stack| == 1
    requires stack[0].cur == |f[stack[0].block].succs|
    ensures var order' := order + [stack[0].block];
      Last(order') == start && Distinct(order') &&
      (forall b :: b in order' ==> Reachable(f, start, b)) &&
      ClosedUnderSuccessors(f, set b | b in order')
  {
    var order' := order + [start];
    PopFrame(f, start, stack, order, visited, paths);
    assert FrameBlocks(stack[..0]) == {};
    forall b | b in order'
      ensures Reachable(f, start, b)
    {
      assert b in visited;
      assert IsPathFrom(f, start, paths[b]) && Last(paths[b]) == b;
    }
  }

  lemma FrameBlocksPop(stack: seq<Frame>)
    requires |stack| > 0
    ensures FrameBlocks(stack) == FrameBlocks(stack[..|stack| - 1]) + {stack[|stack| - 1].block}
  {
    var rest := stack[..|stack| - 1];
    forall b | b in FrameBlocks(stack)
      ensures b in FrameBlocks(rest) + {stack[|stack| - 1].block}
    {
      var i :| 0 <= i < |stack| && stack[i].block == b;
      if i < |stack| - 1 {
        assert rest[i].block == b;
      }
    }
    forall b | b in FrameBlocks(rest)
      ensures b in FrameBlocks(stack)
    {
      var i :| 0 <= i < |rest| && rest[i].block == b;
      assert stack[i].block == b;
    }
  }

  /** Popping a finished frame onto the order keeps the invariant. */
  lemma PopFrame(f: Function, start: nat, stack: seq<Frame>, order: seq<nat>,
                 visited: set<nat>, paths: map<nat, seq<nat>>)
    requires PostOrderInv(f, start, stack, order, visited, paths)
    requires stack[|stack| - 1].cur == |f[stack[|stack| - 1].block].succs|
    ensures var rest := stack[..|stack| - 1];
      var order' := order + [stack[|stack| - 1].block];
      FramesInRange(f, rest) && FramesDistinct(rest) && Distinct(order') &&
      VisitedIsUnion(visited, rest, order') &&
      FinishedSuccessorsVisited(f, order', visited) &&
      CursorsVisited(f, rest, visited)
  {
    var top := stack[|stack| - 1];
    var rest := stack[..|stack| - 1];
    var order' := order + [top.block];
    FrameBlocksPop(stack);
    assert FramesInRange(f, rest) by {
      forall i | 0 <= i < |rest|
        ensures rest[i].block < |f| && rest[i].cur <= |f[rest[i].block].succs|
      {
        assert rest[i] == stack[i];
      }
    }
    assert FramesDistinct(rest) by {
      forall i, j | 0 <= i < j < |rest|
        ensures rest[i].block != rest[j].block
      {
        assert rest[i] == stack[i] && rest[j] == stack[j];
      }
    }
    assert Distinct(order') by {
      forall i, j | 0 <= i < j < |order'|
        ensures order'[i] != order'[j]
      {
        if j == |order'| - 1 {
          assert order'[i] == order[i];
        }
      }
    }
    assert VisitedIsUnion(visited, rest, order') by {
      forall i | 0 <= i < |rest|
        ensures rest[i].block !in order'
      {
        assert rest[i] == stack[i];
      }
    }
    assert FinishedSuccessorsVisited(f, order', visited) by {
      forall b, x | b in order' && 0 <= b < |f| && x in f[b].succs
        ensures x in visited
      {
        if b == top.block {
          var k :| 0 <= k < |f[top.block].succs| && f[top.block].succs[k] == x;
          assert f[stack[|stack| - 1].block].succs[k] in visited;
        }
      }
    }
    assert CursorsVisited(f, rest, visited) by {
      forall i, k | 0 <= i < |rest| && 0 <= k < rest[i].cur
        ensures f[rest[i].block].succs[k] in visited
      {
        assert rest[i] == stack[i];
      }
    }
  }

  /** The top frame with its cursor moved one successor on. */
  function Advance(stack: seq<Frame>): seq<Frame>
    requires |stack| > 0
  {
    stack[..|stack| - 1] + [Frame(stack[|stack| - 1].block, stack[|stack| - 1].cur + 1)]
  }

  /** Advance changes only the cursor of the top frame. */
  lemma AdvanceShape(stack: seq<Frame>)
    requires |stack| > 0
    ensures |Advance(stack)| == |stack|
    ensures forall i :: 0 <= i < |stack| ==> Advance(stack)[i].block == stack[i].block
    ensures forall i :: 0 <= i < |stack| - 1 ==> Advance(stack)[i].cur == stack[i].cur
    ensures Advance(stack)[|stack| - 1].cur == stack[|stack| - 1].cur + 1
    ensures FrameBlocks(Advance(stack)) == FrameBlocks(stack)
  {
    var s' := Advance(stack);
    forall b | b in FrameBlocks(stack)
      ensures b in FrameBlocks(s')
    {
      var i :| 0 <= i < |stack| && stack[i].block == b;
      assert s'[i].block == b;
    }
    forall b | b in FrameBlocks(s')
      ensures b in FrameBlocks(stack)
    {
      var i :| 0 <= i < |s'| && s'[i].block == b;
      assert stack[i].block == b;
    }
  }

  lemma AdvanceCursors(f: Function, stack: seq<Frame>, visited: set<nat>)
    requires |stack| > 0 && FramesInRange(f, stack) && CursorsVisited(f, stack, visited)
    requires stack[|stack| - 1].cur < |f[stack[|stack| - 1].block].succs|
    requires f[stack[|stack| - 1].block].succs[stack[|stack| - 1].cur] in visited
    ensures FramesInRange(f, Advance(stack)) && CursorsVisited(f, Advance(stack), visited)
  {
    var s' := Advance(stack);
    var n := |stack| - 1;
    AdvanceShape(stack);
    forall i, k | 0 <= i < |s'| && 0 <= k < s'[i].cur
      ensures f[s'[i].block].succs[k] in visited
    {
      if i < n || k < stack[n].cur {
        assert f[stack[i].block].succs[k] in visited;
      }
    }
  }

  /** Moving the cursor past a visited successor keeps the invariant. */
  lemma AdvanceKeeps(f: Function, start: nat, stack: seq<Frame>, order: seq<nat>,
                     visited: set<nat>, paths: map<nat, seq<nat>>)
    requires PostOrderInv(f, start, stack, order, visited, paths)
    requires stack[|stack| - 1].cur < |f[stack[|stack| - 1].block].succs|
    requires f[stack[|stack| - 1].block].succs[stack[|stack| - 1].cur] in visited
    ensures PostOrderInv(f, start, Advance(stack), order, visited, paths)
  {
    AdvanceShape(stack);
    AdvanceCursors(f, stack, visited);
  }

  lemma PushShape(stack: seq<Frame>, x: nat)
    ensures |stack + [Frame(x, 0)]| == |stack| + 1
    ensures forall i :: 0 <= i < |stack| ==> (stack + [Frame(x, 0)])[i] == stack[i]
    ensures FrameBlocks(stack + [Frame(x, 0)]) == FrameBlocks(stack) + {x}
  {
    var s' := stack + [Frame(x, 0)];
    FrameBlocksPop(s');
    assert s'[..|s'| - 1] == stack;
  }

  lemma PushFrames(f: Function, stack: seq<Frame>, visited: set<nat>, x: nat)
    requires FramesInRange(f, stack) && FramesDistinct(stack) && CursorsVisited(f, stack, visited)
    requires FrameBlocks(stack) <= visited && x < |f| && x !in visited
    ensures FramesInRange(f, stack + [Frame(x, 0)]) && FramesDistinct(stack + [Frame(x, 0)])
    ensures CursorsVisited(f, stack + [Frame(x, 0)], visited + {x})
  {
    var s' := stack + [Frame(x, 0)];
    PushShape(stack, x);
    forall i, j | 0 <= i < j < |s'|
      ensures s'[i].block != s'[j].block
    {
      if j == |s'| - 1 {
        assert s'[i].block in FrameBlocks(stack);
      }
    }
  }

  /** Pushing a new frame for an unvisited block keeps the invariant. */
  lemma PushKeeps(f: Function, start: nat, stack: seq<Frame>, order: seq<nat>,
                  visited: set<nat>, paths: map<nat, seq<nat>>, x: nat)
    requires PostOrderInv(f, start, stack, order, visited, paths)
    requires x < |f| && x !in visited && x in f[stack[|stack| - 1].block].succs
    ensures PostOrderInv(f, start, stack + [Frame(x, 0)], order, visited + {x},
                         paths[x := paths[stack[|stack| - 1].block] + [x]])
  {
    var top := stack[|stack| - 1];
    PushShape(stack, x);
    assert top.block in FrameBlocks(stack) by {
      FrameBlocksPop(stack);
    }
    PushFrames(f, stack, visited, x);
    PushPaths(f, start, visited, paths, top.block, x);
    CardBelow(visited + {x}, |f|);
    PushVisited(f, stack, order, visited, x);
  }

  /** The new block joins the visited set through the stack; finished blocks keep their successors visited. */
  lemma PushVisited(f: Function, stack: seq<Frame>, order: seq<nat>, visited: set<nat>, x: nat)
    requires VisitedIsUnion(visited, stack, order) && FinishedSuccessorsVisited(f, order, visited) && x !in visited
    requires FrameBlocks(stack + [Frame(x, 0)]) == FrameBlocks(stack) + {x}
    requires forall i :: 0 <= i < |stack| ==> (stack + [Frame(x, 0)])[i] == stack[i]
    ensures VisitedIsUnion(visited + {x}, stack + [Frame(x, 0)], order)
    ensures FinishedSuccessorsVisited(f, order, visited + {x})
  {
  }

  /** One step of the inner loop: look at the next successor of the top frame and push it if new. */
  method VisitNextSuccessor(f: Function, start: nat, stack: seq<Frame>, order: seq<nat>,
                            visited: set<nat>, ghost paths: map<nat, seq<nat>>)
    returns (stack': seq<Frame>, visited': set<nat>, ghost paths': map<nat, seq<nat>>)
    requires PostOrderInv(f, start, stack, order, visited, paths)
    requires stack[|stack| - 1].cur < |f[stack[|stack| - 1].block].succs|
    ensures PostOrderInv(f, start, stack', order, visited', paths')
    ensures visited <= visited'
    ensures |visited'| > |visited| ||
      (visited' == visited && stack'[|stack'| - 1].block == stack[|stack| - 1].block &&
       stack'[|stack'| - 1].cur == stack[|stack| - 1].cur + 1)
  {
    var top := stack[|stack| - 1];
    var x := f[top.block].succs[top.cur];
    assert x in f[top.block].succs;
    if x in visited {
      AdvanceKeeps(f, start, stack, order, visited, paths);
      stack', visited', paths' := Advance(stack), visited, paths;
    } else {
      PushKeeps(f, start, stack, order, visited, paths, x);
      var s1 := stack + [Frame(x, 0)];
      var v1 := visited + {x};
      var p1 := paths[x := paths[top.block] + [x]];
      assert s1[|s1| - 2] == top;
      stack', visited', paths' := s1, v1, p1;
    }
  }

  /** postOrderAnalysis: the post order from the entry block, which comes last. */
  method PostOrderAnalysis(f: Function) returns (order: seq<nat>)
    requires WellFormed(f)
    ensures |order| > 0 && Last(order) == Entry
    ensures Distinct(order)
    ensures forall b :: b in order <==> Reachable(f, Entry, b)
  {
    order := VisitPostOrder(f, Entry);
    forall b | Reachable(f, Entry, b)
      ensures b in order
    {
      ClosedContainsReachable(f, Entry, (set x | x in order), b);
    }
  }

  // ---------------------------------------------------------------------------
  // Try depths

  /** Depths are `size_t`: decrementing 0 wraps around. */
  const SizeTModulus: int := 0x1_0000_0000_0000_0000

  function Dec(d: nat): nat
  {
    if d == 0 then SizeTModulus - 1 else d - 1
  }

  function Inc(d: nat): nat
  {
    if d + 1 == SizeTModulus then 0 else d + 1
  }

  /** The depth of a block entered at depth `d`: a leading CatchInst closes the nearest try. */
  function OwnDepth(f: Function, b: nat, d: nat): nat
    requires b < |f|
  {
    if f[b].startsWithCatch then Dec(d) else d
  }

  /** The successors getBlockTryDepths follows: only the branch target after TryEnd, none after a throw. */
  function Followed(f: Function, b: nat): seq<nat>
    requires b < |f|
  {
    match f[b].term
    case TryEnd(dest) => [dest]
    case Throw(_) => []
    case _ => f[b].succs
  }

  /** The depth at which the followed successors of `b` are entered. */
  function ExitDepth(f: Function, b: nat, d: nat): nat
    requires b < |f|
  {
    var own := OwnDepth(f, b, d);
    match f[b].term
    case TryEnd(_) => Dec(own)
    case TryStart(_, _) => Inc(own)
    case _ => own
  }

  datatype Pending = Pending(block: nat, depth: nat)

  function PendingBlocks(stack: seq<Pending>): set<nat>
  {
    set i | 0 <= i < |stack| :: stack[i].block
  }

  lemma PendingBlocksPop(stack: seq<Pending>)
    requires |stack| > 0
    ensures PendingBlocks(stack) == PendingBlocks(stack[..|stack| - 1]) + {stack[|stack| - 1].block}
  {
    var rest := stack[..|stack| - 1];
    forall b | b in PendingBlocks(stack)
      ensures b in PendingBlocks(rest) + {stack[|stack| - 1].block}
    {
      var i :| 0 <= i < |stack| && stack[i].block == b;
      if i < |stack| - 1 {
        assert rest[i].block == b;
      }
    }
    forall b | b in PendingBlocks(rest)
      ensures b in PendingBlocks(stack)
    {
      var i :| 0 <= i < |rest| && rest[i].block == b;
      assert stack[i].block == b;
    }
  }

  /**
   * Every visited block other than the entry was pushed by a processed
   * block, `pushedBy[s]`, among whose followed successors it is, at that
   * block's exit depth.
   */
  ghost predicate Explained(f: Function, visited: set<nat>, processed: set<nat>, entryDepth: map<nat, nat>,
                            pushedBy: map<nat, nat>)
  {
    (forall s :: s in visited && s != Entry ==> s in pushedBy) &&
    (forall s {:trigger pushedBy[s]} :: s in pushedBy ==>
      s in entryDepth && pushedBy[s] in processed && pushedBy[s] < |f| && pushedBy[s] in entryDepth &&
      s in Followed(f, pushedBy[s]) && entryDepth[s] == ExitDepth(f, pushedBy[s], entryDepth[pushedBy[s]]))
  }

  /** The worklist invariant of getBlockTryDepths. */
  ghost predicate TryDepthInv(f: Function, stack: seq<Pending>, visited: set<nat>,
                              processed: set<nat>, entryDepth: map<nat, nat>, pushedBy: map<nat, nat>)
  {
    WellFormed(f) &&
    entryDepth.Keys == visited && (forall b :: b in visited ==> b < |f|) &&
    Entry in visited && entryDepth[Entry] == 0 &&
    (forall b :: b in visited <==> b in processed || b in PendingBlocks(stack)) &&
    StackEntries(stack, processed, entryDepth) &&
    Explained(f, visited, processed, entryDepth, pushedBy)
  }

  /** What has been recorded for the processed blocks. */
  ghost predicate DepthsRecorded(f: Function, processed: set<nat>, entryDepth: map<nat, nat>,
                                 depths: map<nat, nat>, maxDepth: nat)
  {
    (forall b :: b in processed ==> b < |f| && b in entryDepth) &&
    (forall b :: b in depths <==> b in processed && b < |f| && b in entryDepth && OwnDepth(f, b, entryDepth[b]) != 0) &&
    (forall b :: b in depths ==> b < |f| && b in entryDepth && depths[b] == OwnDepth(f, b, entryDepth[b])) &&
    (forall b :: b in depths ==> depths[b] <= maxDepth) &&
    (maxDepth == 0 || exists b :: b in depths && depths[b] == maxDepth)
  }

  /** Followed successors of processed blocks (other than `current`) are visited. */
  ghost predicate FollowedVisited(f: Function, processed: set<nat>, visited: set<nat>, current: Option<nat>)
  {
    forall b, s :: b in processed && Some(b) != current && b < |f| && s in Followed(f, b) ==> s in visited
  }

  /**
   * getBlockTryDepths: a worklist walk from the entry at depth 0. A TryStart
   * terminator raises the depth of its successors, a TryEnd lowers it and
   * follows only its branch target, a leading CatchInst lowers the block's
   * own depth, and throws are not followed. Each visited block has one
   * entry depth, explained by the block that first pushed it; exactly the
   * blocks with a non-zero own depth are recorded, and `maxDepth` is the
   * largest recorded depth (0 if none).
   */
  method GetBlockTryDepths(f: Function) returns (depths: map<nat, nat>, maxDepth: nat, ghost entryDepth: map<nat, nat>,
                                              ghost pushedBy: map<nat, nat>)
    requires WellFormed(f)
    ensures Entry in entryDepth && entryDepth[Entry] == 0
    ensures forall b :: b in entryDepth ==> b < |f|
    ensures forall b, s :: b in entryDepth && b < |f| && s in Followed(f, b) ==> s in entryDepth
    ensures Explained(f, entryDepth.Keys, entryDepth.Keys, entryDepth, pushedBy)
    ensures forall b :: b in depths <==> b in entryDepth && b < |f| && OwnDepth(f, b, entryDepth[b]) != 0
    ensures forall b :: b in depths ==> b < |f| && b in entryDepth && depths[b] == OwnDepth(f, b, entryDepth[b])
    ensures forall b :: b in depths ==> depths[b] <= maxDepth
    ensures maxDepth == 0 || exists b :: b in depths && depths[b] == maxDepth
  {
    var visited := {Entry};
    var stack := [Pending(Entry, 0)];
    ghost var processed: set<nat> := {};
    entryDepth := map[Entry := 0];
    pushedBy := map[];
    depths := map[];
    maxDepth := 0;
    assert PendingBlocks(stack) == {Entry} by {
      assert stack[0].block == Entry;
    }
    while stack != []
      invariant DepthsLoopInv(f, stack, visited, processed, entryDepth, pushedBy, depths, maxDepth)
      decreases |f| - |processed|
    {
      stack, visited, processed, entryDepth, pushedBy, depths, maxDepth :=
        ProcessPending(f, stack, visited, processed, entryDepth, pushedBy, depths, maxDepth);
    }
    FinishTryDepths(f, stack, visited, processed, entryDepth, pushedBy, depths, maxDepth);
  }

  /** Everything the loop of getBlockTryDepths keeps. */
  ghost predicate DepthsLoopInv(f: Function, stack: seq<Pending>, visited: set<nat>, processed: set<nat>,
                                entryDepth: map<nat, nat>, pushedBy: map<nat, nat>, depths: map<nat, nat>, maxDepth: nat)
  {
    TryDepthInv(f, stack, visited, processed, entryDepth, pushedBy) &&
    FollowedVisited(f, processed, visited, None) &&
    DepthsRecorded(f, processed, entryDepth, depths, maxDepth) &&
    processed <= visited
  }

  /** One iteration: pop a block, record its depth, push its unvisited followed successors. */
  method ProcessPending(f: Function, stack: seq<Pending>, visited: set<nat>, ghost processed: set<nat>,
                        ghost entryDepth: map<nat, nat>, ghost pushedBy: map<nat, nat>, depths: map<nat, nat>, maxDepth: nat)
    returns (stack': seq<Pending>, visited': set<nat>, ghost processed': set<nat>,
             ghost entryDepth': map<nat, nat>, ghost pushedBy': map<nat, nat>, depths': map<nat, nat>, maxDepth': nat)
    requires stack != [] && DepthsLoopInv(f, stack, visited, processed, entryDepth, pushedBy, depths, maxDepth)
    ensures DepthsLoopInv(f, stack', visited', processed', entryDepth', pushedBy', depths', maxDepth')
    ensures |processed| < |processed'| <= |f|
  {
    var bb, depth;
    bb, depth, stack', processed' := TakePending(f, stack, visited, processed, entryDepth, pushedBy, depths, maxDepth);
    var own, exit := EnterBlock(f, bb, depth);
    depths', maxDepth' := RecordDepth(bb, own, depths, maxDepth);
    RecordKeeps(f, processed, bb, entryDepth, depths, maxDepth, depths', maxDepth');
    stack', visited', entryDepth', pushedBy' := PushUnvisited(f, bb, exit, stack', visited, processed', entryDepth, pushedBy);
    DepthsRecordedFrame(f, processed', entryDepth, entryDepth', depths', maxDepth');
  }

  /** The first half of an iteration: pop the top block of the worklist and mark it processed. */
  method TakePending(f: Function, stack: seq<Pending>, visited: set<nat>, ghost processed: set<nat>,
                     ghost entryDepth: map<nat, nat>, ghost pushedBy: map<nat, nat>, ghost depths: map<nat, nat>,
                     ghost maxDepth: nat)
    returns (bb: nat, depth: nat, stack': seq<Pending>, ghost processed': set<nat>)
    requires stack != [] && DepthsLoopInv(f, stack, visited, processed, entryDepth, pushedBy, depths, maxDepth)
    ensures TryDepthInv(f, stack', visited, processed', entryDepth, pushedBy)
    ensures FollowedVisited(f, processed', visited, Some(bb))
    ensures DepthsRecorded(f, processed, entryDepth, depths, maxDepth)
    ensures bb !in processed && processed' == processed + {bb} && bb < |f| && bb in entryDepth
    ensures depth == entryDepth[bb]
    ensures processed' <= visited && |processed| < |processed'| <= |f|
  {
    var top := stack[|stack| - 1];
    bb, depth := top.block, top.depth;
    PopPending(f, stack, visited, processed, entryDepth, pushedBy);
    stack' := stack[..|stack| - 1];
    processed' := processed + {bb};
    CardAddOne(processed, bb);
    CardBelow(processed', |f|);
    StartFollowing(f, processed, visited, bb);
  }

  /** Taking `bb` up exempts it alone from having its followed successors visited. */
  lemma StartFollowing(f: Function, processed: set<nat>, visited: set<nat>, bb: nat)
    requires FollowedVisited(f, processed, visited, None)
    ensures FollowedVisited(f, processed + {bb}, visited, Some(bb))
  {
  }

  /** An empty worklist leaves every visited block processed, which gives the postconditions. */
  lemma FinishTryDepths(f: Function, stack: seq<Pending>, visited: set<nat>, processed: set<nat>,
                        entryDepth: map<nat, nat>, pushedBy: map<nat, nat>, depths: map<nat, nat>, maxDepth: nat)
    requires stack == [] && TryDepthInv(f, stack, visited, processed, entryDepth, pushedBy)
    requires FollowedVisited(f, processed, visited, None)
    requires DepthsRecorded(f, processed, entryDepth, depths, maxDepth)
    ensures Entry in entryDepth && entryDepth[Entry] == 0
    ensures forall b :: b in entryDepth ==> b < |f|
    ensures forall b, s :: b in entryDepth && b < |f| && s in Followed(f, b) ==> s in entryDepth
    ensures Explained(f, entryDepth.Keys, entryDepth.Keys, entryDepth, pushedBy)
    ensures forall b :: b in depths <==> b in entryDepth && b < |f| && OwnDepth(f, b, entryDepth[b]) != 0
    ensures forall b :: b in depths ==> b < |f| && b in entryDepth && depths[b] == OwnDepth(f, b, entryDepth[b])
    ensures forall b :: b in depths ==> depths[b] <= maxDepth
    ensures maxDepth == 0 || exists b :: b in depths && depths[b] == maxDepth
  {
    assert PendingBlocks(stack) == {};
    assert processed == visited;
  }

  /**
   * Entering `bb` at depth `depth`: its own depth, the depth its followed
   * successors are entered at, and those successors.
   */
  method EnterBlock(f: Function, bb: nat, depth: nat) returns (own: nat, exit: nat)
    requires bb < |f|
    ensures own == OwnDepth(f, bb, depth) && exit == ExitDepth(f, bb, depth)
  {
    own := depth;
    if f[bb].startsWithCatch {
      own := Dec(own);
    }
    exit := own;
    match f[bb].term {
      case TryEnd(dest) =>
        exit := Dec(exit);
      case TryStart(_, _) =>
        exit := Inc(exit);
      case _ =>
    }
  }

  /** A block with a non-zero depth raises the maximum and is recorded unless already present. */
  method RecordDepth(bb: nat, depth: nat, depths: map<nat, nat>, maxDepth: nat)
    returns (depths': map<nat, nat>, maxDepth': nat)
    ensures depth == 0 ==> depths' == depths && maxDepth' == maxDepth
    ensures depth != 0 ==> maxDepth' == (if maxDepth < depth then depth else maxDepth)
    ensures depth != 0 ==> depths' == if bb in depths then depths else depths[bb := depth]
  {
    depths', maxDepth' := depths, maxDepth;
    if depth != 0 {
      maxDepth' := if maxDepth < depth then depth else maxDepth;
      if bb !in depths {
        depths' := depths[bb := depth];
      }
    }
  }

  lemma RecordKeeps(f: Function, processed: set<nat>, bb: nat, entryDepth: map<nat, nat>,
                    depths: map<nat, nat>, maxDepth: nat, depths': map<nat, nat>, maxDepth': nat)
    requires DepthsRecorded(f, processed, entryDepth, depths, maxDepth)
    requires bb !in processed && bb < |f| && bb in entryDepth
    requires var own := OwnDepth(f, bb, entryDepth[bb]);
      (own == 0 ==> depths' == depths && maxDepth' == maxDepth) &&
      (own != 0 ==> maxDepth' == (if maxDepth < own then own else maxDepth)) &&
      (own != 0 ==> depths' == if bb in depths then depths else depths[bb := own])
    ensures DepthsRecorded(f, processed + {bb}, entryDepth, depths', maxDepth')
  {
    var own := OwnDepth(f, bb, entryDepth[bb]);
    if own != 0 {
      assert bb !in depths;
      assert depths'[bb] == own;
      if maxDepth < own {
        assert depths'[bb] == maxDepth';
      } else if maxDepth != 0 {
        var w :| w in depths && depths[w] == maxDepth;
        assert w in depths' && depths'[w] == maxDepth';
      }
    }
  }

  lemma DepthsRecordedFrame(f: Function, processed: set<nat>, entryDepth: map<nat, nat>, entryDepth': map<nat, nat>,
                            depths: map<nat, nat>, maxDepth: nat)
    requires DepthsRecorded(f, processed, entryDepth, depths, maxDepth)
    requires forall b :: b in entryDepth ==> b in entryDepth' && entryDepth'[b] == entryDepth[b]
    ensures DepthsRecorded(f, processed, entryDepth', depths, maxDepth)
  {
  }

  /** The index facts of the worklist: no processed block, the recorded depth, no duplicates. */
  ghost predicate StackEntries(stack: seq<Pending>, processed: set<nat>, entryDepth: map<nat, nat>)
  {
    (forall i :: 0 <= i < |stack| ==>
      stack[i].block !in processed && stack[i].block in entryDepth && entryDepth[stack[i].block] == stack[i].depth) &&
    (forall i, j :: 0 <= i < j < |stack| ==> stack[i].block != stack[j].block)
  }

  lemma PopStackEntries(stack: seq<Pending>, processed: set<nat>, entryDepth: map<nat, nat>)
    requires |stack| > 0 && StackEntries(stack, processed, entryDepth)
    ensures StackEntries(stack[..|stack| - 1], processed + {stack[|stack| - 1].block}, entryDepth)
  {
    var rest := stack[..|stack| - 1];
    assert forall i :: 0 <= i < |rest| ==> rest[i] == stack[i];
  }

  /** Taking the top of the worklist moves it to the processed set. */
  lemma PopPending(f: Function, stack: seq<Pending>, visited: set<nat>, processed: set<nat>,
                   entryDepth: map<nat, nat>, pushedBy: map<nat, nat>)
    requires |stack| > 0 && TryDepthInv(f, stack, visited, processed, entryDepth, pushedBy)
    ensures var bb := stack[|stack| - 1].block;
      bb in visited && bb !in processed && bb < |f| && entryDepth[bb] == stack[|stack| - 1].depth &&
      TryDepthInv(f, stack[..|stack| - 1], visited, processed + {bb}, entryDepth, pushedBy)
  {
    var bb := stack[|stack| - 1].block;
    PendingBlocksPop(stack);
    PopStackEntries(stack, processed, entryDepth);
  }

  /** Pushes the unvisited `Followed(f, bb)` blocks at `depth`, in successor order. */
  method PushUnvisited(f: Function, bb: nat, depth: nat, stack: seq<Pending>, visited: set<nat>,
                       ghost processed: set<nat>, ghost entryDepth: map<nat, nat>, ghost pushedBy: map<nat, nat>)
    returns (stack': seq<Pending>, visited': set<nat>, ghost entryDepth': map<nat, nat>, ghost pushedBy': map<nat, nat>)
    requires TryDepthInv(f, stack, visited, processed, entryDepth, pushedBy)
    requires FollowedVisited(f, processed, visited, Some(bb))
    requires bb in processed && bb < |f| && depth == ExitDepth(f, bb, entryDepth[bb])
    ensures TryDepthInv(f, stack', visited', processed, entryDepth', pushedBy')
    ensures FollowedVisited(f, processed, visited', None)
    ensures visited <= visited' && forall b :: b in visited ==> entryDepth'[b] == entryDepth[b]
  {
    var targets := Followed(f, bb);
    stack', visited', entryDepth', pushedBy' := stack, visited, entryDepth, pushedBy;
    var i := 0;
    while i < |targets|
      invariant 0 <= i <= |targets|
      invariant TryDepthInv(f, stack', visited', processed, entryDepth', pushedBy')
      invariant FollowedVisited(f, processed, visited', Some(bb))
      invariant forall k :: 0 <= k < i ==> targets[k] in visited'
      invariant visited <= visited' && forall b :: b in visited ==> entryDepth'[b] == entryDepth[b]
    {
      var s := targets[i];
      ghost var before := visited';
      if s !in visited' {
        PushOne(f, bb, s, depth, stack', visited', processed, entryDepth', pushedBy');
        stack', visited' := stack' + [Pending(s, depth)], visited' + {s};
        entryDepth', pushedBy' := entryDepth'[s := depth], pushedBy'[s := bb];
      }
      assert before <= visited' && s in visited';
      i := i + 1;
    }
    CompleteFollowed(f, bb, processed, visited');
  }

  /** Once every followed successor of `bb` is visited, `bb` needs no exemption. */
  lemma CompleteFollowed(f: Function, bb: nat, processed: set<nat>, visited: set<nat>)
    requires bb < |f| && FollowedVisited(f, processed, visited, Some(bb))
    requires forall k :: 0 <= k < |Followed(f, bb)| ==> Followed(f, bb)[k] in visited
    ensures FollowedVisited(f, processed, visited, None)
  {
  }

  /** Pushing one followed successor of a processed block keeps the worklist invariant. */
  lemma PushOne(f: Function, bb: nat, s: nat, depth: nat, stack: seq<Pending>, visited: set<nat>,
                processed: set<nat>, entryDepth: map<nat, nat>, pushedBy: map<nat, nat>)
    requires TryDepthInv(f, stack, visited, processed, entryDepth, pushedBy)
    requires bb in processed && bb < |f| && depth == ExitDepth(f, bb, entryDepth[bb])
    requires s in Followed(f, bb) && s !in visited
    ensures TryDepthInv(f, stack + [Pending(s, depth)], visited + {s}, processed, entryDepth[s := depth],
                        pushedBy[s := bb])
  {
    var stack' := stack + [Pending(s, depth)];
    assert s < |f| by {
      assert s in f[bb].succs;
    }
    PendingBlocksPop(stack');
    assert stack'[..|stack'| - 1] == stack;
    assert forall i :: 0 <= i < |stack| ==> stack'[i] == stack[i];
    forall i, j | 0 <= i < j < |stack'|
      ensures stack'[i].block != stack'[j].block
    {
      if j == |stack'| - 1 {
        assert stack[i].block in PendingBlocks(stack);
      }
    }
    PushExplained(f, bb, s, depth, visited, processed, entryDepth, pushedBy);
  }

  lemma PushExplained(f: Function, bb: nat, s: nat, depth: nat, visited: set<nat>,
                      processed: set<nat>, entryDepth: map<nat, nat>, pushedBy: map<nat, nat>)
    requires Explained(f, visited, processed, entryDepth, pushedBy) && entryDepth.Keys == visited
    requires bb in processed && bb < |f| && bb in entryDepth && depth == ExitDepth(f, bb, entryDepth[bb])
    requires s in Followed(f, bb) && s !in visited
    ensures Explained(f, visited + {s}, processed, entryDepth[s := depth], pushedBy[s := bb])
  {
    var e', p' := entryDepth[s := depth], pushedBy[s := bb];
    forall x | x in p'
      ensures x in e' && p'[x] in processed && p'[x] < |f| && p'[x] in e' &&
        x in Followed(f, p'[x]) && e'[x] == ExitDepth(f, p'[x], e'[p'[x]])
    {
      if x != s {
        assert pushedBy[x] in entryDepth && x in entryDepth && pushedBy[x] != s;
      }
    }
  }
}
