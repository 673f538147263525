/**
 * The control-flow graph of an IR function as the analyses see it: blocks
 * are numbered, block 0 is the entry, and each block lists its successors
 * in order together with the kind of its terminator.
 */
module Cfg {
  import opened Wrappers

  /** The terminators the analyses distinguish. */
  datatype Terminator =
    | Branch
    | TryStart(tryBody: nat, catchTarget: nat)
    | TryEnd(branchDest: nat)
    | Throw(throwTarget: Option<nat>)
    | OtherTerminator

  /** A basic block: its successors, its terminator, and whether its first instruction is a CatchInst. */
  datatype Block = Block(succs: seq<nat>, term: Terminator, startsWithCatch: bool)

  type Function = seq<Block>

  const Entry: nat := 0

  /** Every successor is a block, and the blocks a terminator names are among its successors. */
  predicate WellFormed(f: Function)
  {
    |f| > 0 &&
    (forall b, s :: 0 <= b < |f| && s in f[b].succs ==> s < |f|) &&
    (forall b :: 0 <= b < |f| && f[b].term.TryStart? ==>
      f[b].term.tryBody in f[b].succs && f[b].term.catchTarget in f[b].succs) &&
    (forall b :: 0 <= b < |f| && f[b].term.TryEnd? ==> f[b].term.branchDest in f[b].succs)
  }

  function Last(p: seq<nat>): nat
    requires |p| > 0
  {
    p[|p| - 1]
  }

  /** `p` is a path of blocks from `start` along successor edges. */
  predicate IsPathFrom(f: Function, start: nat, p: seq<nat>)
  {
    |p| > 0 && p[0] == start &&
    (forall i :: 0 <= i < |p| ==> p[i] < |f|) &&
    (forall i :: 0 <= i < |p| - 1 ==> p[i + 1] in f[p[i]].succs)
  }

  /** Block `b` is reachable from `start`. */
  ghost predicate Reachable(f: Function, start: nat, b: nat)
  {
    exists p :: IsPathFrom(f, start, p) && Last(p) == b
  }

  /** Every successor of a member of `s` is a member. */
  predicate ClosedUnderSuccessors(f: Function, s: set<nat>)
  {
    forall b, x :: b in s && 0 <= b < |f| && x in f[b].succs ==> x in s
  }

  /** Extending a path by a successor of its last block gives a path. */
  lemma ExtendPath(f: Function, start: nat, p: seq<nat>, x: nat)
    requires IsPathFrom(f, start, p) && x < |f| && x in f[Last(p)].succs
    ensures IsPathFrom(f, start, p + [x]) && Last(p + [x]) == x
  {
    var q := p + [x];
    forall i | 0 <= i < |q| - 1
      ensures q[i + 1] in f[q[i]].succs
    {
      if i < |p| - 1 {
        assert q[i] == p[i] && q[i + 1] == p[i + 1];
      }
    }
  }

  /** A successor-closed set holding the start holds every block reachable from it. */
  lemma {:induction false} ClosedContainsPath(f: Function, start: nat, s: set<nat>, p: seq<nat>)
    requires start in s && ClosedUnderSuccessors(f, s) && IsPathFrom(f, start, p)
    ensures Last(p) in s
    decreases |p|
  {
    if |p| > 1 {
      var q := p[..|p| - 1];
      assert IsPathFrom(f, start, q) by {
        forall i | 0 <= i < |q| - 1
          ensures q[i + 1] in f[q[i]].succs
        {
          assert q[i] == p[i] && q[i + 1] == p[i + 1];
        }
      }
      ClosedContainsPath(f, start, s, q);
      assert p[|p| - 1] in f[p[|p| - 2]].succs;
    }
  }

  /** A successor-closed set holding the start holds every reachable block. */
  lemma ClosedContainsReachable(f: Function, start: nat, s: set<nat>, b: nat)
    requires start in s && ClosedUnderSuccessors(f, s) && Reachable(f, start, b)
    ensures b in s
  {
    var p :| IsPathFrom(f, start, p) && Last(p) == b;
    ClosedContainsPath(f, start, s, p);
  }

  /** A set of block numbers has at most as many members as there are blocks. */
  lemma {:induction false} CardBelow(s: set<nat>, n: nat)
    requires forall x :: x in s ==> x < n
    ensures |s| <= n
    decreases n
  {
    if n > 0 {
      CardBelow(s - {n - 1}, n - 1);
    } else {
      assert s == {};
    }
  }

  /** Adding a new member to a set adds one to its size. */
  lemma CardAddOne(s: set<nat>, x: nat)
    requires x !in s
    ensures |s + {x}| == |s| + 1
  {
  }

  /** `paths` holds a path from `start` to every block of `visited`. */
  ghost predicate PathsKnown(f: Function, start: nat, visited: set<nat>, paths: map<nat, seq<nat>>)
  {
    forall b :: b in visited ==> b < |f| && b in paths && IsPathFrom(f, start, paths[b]) && Last(paths[b]) == b
  }

  /** Recording a path to a successor of a block with a known path. */
  lemma PushPaths(f: Function, start: nat, visited: set<nat>, paths: map<nat, seq<nat>>, from: nat, x: nat)
    requires PathsKnown(f, start, visited, paths) && from in visited
    requires x < |f| && x in f[from].succs
    ensures PathsKnown(f, start, visited + {x}, paths[x := paths[from] + [x]])
  {
    var p' := paths[x := paths[from] + [x]];
    ExtendPath(f, start, paths[from], x);
    forall b | b in visited + {x}
      ensures b < |f| && b in p' && IsPathFrom(f, start, p'[b]) && Last(p'[b]) == b
    {
      if b != x {
        assert p'[b] == paths[b];
      }
    }
  }
}
