/**
 * The path search of the `repool` analyzer: can a function return without using the
 * repool function `v`?
 */
module Repool {
  import opened Wrappers

  // A statement or expression of a block: whether it uses `v`, and whether it is an
  // expression statement that calls `panic`.
  datatype Node = Node(id: nat, usesVar: bool, callsPanic: bool)

  datatype Block = Block(nodes: seq<Node>, succs: seq<nat>)

  type Cfg = seq<Block>

  ghost predicate ValidCfg(g: Cfg) {
    forall b, k :: 0 <= b < |g| && 0 <= k < |g[b].succs| ==> g[b].succs[k] < |g|
  }

  predicate UsesVar(nodes: seq<Node>) {
    exists i :: 0 <= i < |nodes| && nodes[i].usesVar
  }

  predicate BlockEndsPanic(b: Block) {
    |b.nodes| > 0 && b.nodes[|b.nodes| - 1].callsPanic
  }

  predicate LeakExit(b: Block) {
    |b.succs| == 0 && !BlockEndsPanic(b)
  }

  // ---------- paths over blocks ----------

  ghost predicate Edge(g: Cfg, path: seq<nat>, i: nat)
    requires 0 < i < |path|
  {
    path[i - 1] < |g| && path[i] in g[path[i - 1]].succs
  }

  /** A path from one of `starts` through blocks that do not use `v` to a return. */
  ghost predicate LeakPath(g: Cfg, starts: seq<nat>, path: seq<nat>) {
    && |path| > 0 && path[0] in starts
    && (forall i :: 0 <= i < |path| ==> path[i] < |g| && !UsesVar(g[path[i]].nodes))
    && (forall i :: 0 < i < |path| ==> Edge(g, path, i))
    && LeakExit(g[path[|path| - 1]])
  }

  ghost predicate CanLeak(g: Cfg, starts: seq<nat>) {
    exists path :: LeakPath(g, starts, path)
  }

  // ---------- the depth-first search ----------

  ghost predicate InCfg(g: Cfg, b: nat) {
    b < |g|
  }

  ghost function Universe(g: Cfg): set<nat> {
    set b: nat | b < |g| && InCfg(g, b)
  }

  /** The search left nothing behind at `b`: it is blocked, or all its successors are seen. */
  ghost predicate Passed(g: Cfg, b: nat, seen: set<nat>)
    requires b < |g|
  {
    UsesVar(g[b].nodes) || (!LeakExit(g[b]) && forall k :: 0 <= k < |g[b].succs| ==> g[b].succs[k] in seen)
  }

  /** The map of blocks seen that all calls of one search share. */
  class SeenMap {
    var blocks: set<nat>
    ghost var visits: seq<nat>

    constructor ()
      ensures blocks == {} && visits == []
    {
      blocks, visits := {}, [];
    }

    /** Every block seen was visited, and visited once. */
    ghost predicate VisitedOnce()
      reads this
    {
      && (forall b :: b in blocks <==> b in visits)
      && (forall i, j :: 0 <= i < j < |visits| ==> visits[i] != visits[j])
    }

    method Mark(b: nat)
      requires VisitedOnce() && b !in blocks
      modifies this
      ensures VisitedOnce()
      ensures blocks == old(blocks) + {b} && visits == old(visits) + [b]
    {
      blocks := blocks + {b};
      visits := visits + [b];
    }
  }

  method SearchUnused(g: Cfg, blocks: seq<nat>, seen: SeenMap) returns (ret: Option<nat>)
    requires ValidCfg(g) && forall k :: 0 <= k < |blocks| ==> blocks[k] < |g|
    requires seen.blocks <= Universe(g) && seen.VisitedOnce()
    modifies seen
    ensures old(seen.blocks) <= seen.blocks <= Universe(g)
    ensures seen.VisitedOnce() && old(seen.visits) <= seen.visits
    ensures ret.None? ==> forall k :: 0 <= k < |blocks| ==> blocks[k] in seen.blocks
    ensures ret.None? ==> forall b :: b in seen.blocks && b !in old(seen.blocks) ==> Passed(g, b, seen.blocks)
    ensures ret.Some? ==> exists path :: LeakPath(g, blocks, path) && path[|path| - 1] == ret.value
    ensures old(seen.blocks) == {} ==> (ret.Some? <==> CanLeak(g, blocks))
    decreases Universe(g) - seen.blocks
  {
    for i := 0 to |blocks|
      invariant old(seen.blocks) <= seen.blocks <= Universe(g)
      invariant seen.VisitedOnce() && old(seen.visits) <= seen.visits
      invariant forall k :: 0 <= k < i ==> blocks[k] in seen.blocks
      invariant forall b :: b in seen.blocks && b !in old(seen.blocks) ==> Passed(g, b, seen.blocks)
    {
      var b := blocks[i];
      if b in seen.blocks {
        continue;
      }
      seen.Mark(b);
      if UsesVar(g[b].nodes) {
        continue;
      }
      if |g[b].succs| == 0 {
        if BlockEndsPanic(g[b]) {
          continue;
        }
        assert LeakPath(g, blocks, [b]);
        return Some(b);
      }
      var found := SearchUnused(g, g[b].succs, seen);
      if found.Some? {
        PrependBlock(g, blocks, b, found.value);
        return found;
      }
    }
    if old(seen.blocks) == {} {
      NoPathLeft(g, blocks, seen.blocks);
    }
    return None;
  }

  lemma PrependBlock(g: Cfg, starts: seq<nat>, b: nat, end: nat)
    requires ValidCfg(g) && b < |g| && b in starts && !UsesVar(g[b].nodes)
    requires exists path :: LeakPath(g, g[b].succs, path) && path[|path| - 1] == end
    ensures exists path :: LeakPath(g, starts, path) && path[|path| - 1] == end
  {
    var path :| LeakPath(g, g[b].succs, path) && path[|path| - 1] == end;
    var longer := [b] + path;
    forall i | 0 < i < |longer|
      ensures Edge(g, longer, i)
    {
      if i > 1 { assert Edge(g, path, i - 1); }
    }
    assert LeakPath(g, starts, longer);
  }

  /** A set of blocks that the search left nothing behind at admits no leaking path. */
  lemma NoPathLeft(g: Cfg, starts: seq<nat>, seen: set<nat>)
    requires ValidCfg(g) && seen <= Universe(g)
    requires forall k :: 0 <= k < |starts| ==> starts[k] in seen
    requires forall b :: b in seen ==> Passed(g, b, seen)
    ensures !CanLeak(g, starts)
  {
    forall path
      ensures !LeakPath(g, starts, path)
    {
      if LeakPath(g, starts, path) {
        StaysSeen(g, starts, seen, path, |path| - 1);
      }
    }
  }

  lemma {:induction false} StaysSeen(g: Cfg, starts: seq<nat>, seen: set<nat>, path: seq<nat>, i: nat)
    requires ValidCfg(g) && seen <= Universe(g)
    requires forall k :: 0 <= k < |starts| ==> starts[k] in seen
    requires forall b :: b in seen ==> Passed(g, b, seen)
    requires LeakPath(g, starts, path) && i < |path|
    ensures path[i] in seen
  {
    if i > 0 {
      StaysSeen(g, starts, seen, path, i - 1);
      assert Edge(g, path, i);
    }
  }

  // ---------- execution, node by node ----------

  datatype Position = Position(block: nat, index: nat)

  /** Execution goes from `p` to `q` without touching `v`. */
  ghost predicate Executes(g: Cfg, p: Position, q: Position) {
    && p.block < |g| && p.index <= |g[p.block].nodes|
    && if p.index < |g[p.block].nodes|
       then !g[p.block].nodes[p.index].usesVar && q == Position(p.block, p.index + 1)
       else q.block in g[p.block].succs && q.index == 0
  }

  /** The function returns at `p`: nothing is left to do, and the last thing done was no panic. */
  ghost predicate Returns(g: Cfg, p: Position) {
    && p.block < |g| && p.index == |g[p.block].nodes| && g[p.block].succs == []
    && (p.index > 0 ==> !g[p.block].nodes[p.index - 1].callsPanic)
  }

  ghost predicate LeakRun(g: Cfg, p: Position, run: seq<Position>) {
    && |run| > 0 && run[0] == p
    && (forall i :: 0 < i < |run| ==> Executes(g, run[i - 1], run[i]))
    && Returns(g, run[|run| - 1])
  }

  ghost predicate Leaks(g: Cfg, p: Position) {
    exists run :: LeakRun(g, p, run)
  }

  lemma LeaksStep(g: Cfg, p: Position, q: Position)
    requires Executes(g, p, q) && Leaks(g, q)
    ensures Leaks(g, p)
  {
    var run :| LeakRun(g, q, run);
    var longer := [p] + run;
    assert forall i :: 0 < i < |longer| ==> longer[i] == run[i - 1];
    assert LeakRun(g, p, longer);
  }

  /** The rest of a block is passed without touching `v`. */
  lemma {:induction false} LeaksThroughBlock(g: Cfg, b: nat, i: nat)
    requires b < |g| && i <= |g[b].nodes| && !UsesVar(g[b].nodes[i..])
    requires Leaks(g, Position(b, |g[b].nodes|))
    ensures Leaks(g, Position(b, i))
    decreases |g[b].nodes| - i
  {
    if i < |g[b].nodes| {
      var rest, fewer := g[b].nodes[i..], g[b].nodes[i + 1..];
      assert !rest[0].usesVar;
      forall k | 0 <= k < |fewer|
        ensures !fewer[k].usesVar
      {
        assert fewer[k] == rest[k + 1];
      }
      LeaksThroughBlock(g, b, i + 1);
      LeaksStep(g, Position(b, i), Position(b, i + 1));
    }
  }

  lemma ReturnLeaks(g: Cfg, p: Position)
    requires Returns(g, p)
    ensures Leaks(g, p)
  {
    assert LeakRun(g, p, [p]);
  }

  lemma {:induction false} PathLeaks(g: Cfg, starts: seq<nat>, path: seq<nat>)
    requires ValidCfg(g) && LeakPath(g, starts, path)
    ensures Leaks(g, Position(path[0], 0))
    decreases |path|
  {
    var b := path[0];
    var end := Position(b, |g[b].nodes|);
    if |path| == 1 {
      ReturnLeaks(g, end);
    } else {
      var rest := path[1..];
      assert Edge(g, path, 1);
      forall i | 0 < i < |rest|
        ensures Edge(g, rest, i)
      {
        assert Edge(g, path, i + 1);
      }
      PathLeaks(g, g[b].succs, rest);
      LeaksStep(g, end, Position(rest[0], 0));
    }
    assert g[b].nodes[0..] == g[b].nodes;
    LeaksThroughBlock(g, b, 0);
  }

  /** What a leaking run still has to do, seen as blocks. */
  lemma {:induction false} RunIsPath(g: Cfg, p: Position, run: seq<Position>)
    requires ValidCfg(g) && p.block < |g| && p.index <= |g[p.block].nodes| && LeakRun(g, p, run)
    ensures !UsesVar(g[p.block].nodes[p.index..])
    ensures if |g[p.block].succs| == 0 then LeakExit(g[p.block]) else CanLeak(g, g[p.block].succs)
    decreases |run|
  {
    var nodes := g[p.block].nodes;
    if |run| == 1 {
      assert Returns(g, p);
    } else {
      var q, rest := run[1], run[1..];
      assert Executes(g, run[0], run[1]);
      assert forall i :: 0 < i < |rest| ==> rest[i] == run[i + 1] && rest[i - 1] == run[i];
      assert forall i :: 0 < i < |rest| ==> Executes(g, run[i], run[i + 1]);
      assert LeakRun(g, q, rest);
      RunIsPath(g, q, rest);
      if p.index < |nodes| {
        assert nodes[p.index..] == [nodes[p.index]] + nodes[q.index..];
      } else {
        var c := q.block;
        assert g[c].nodes[0..] == g[c].nodes;
        if |g[c].succs| == 0 {
          assert LeakPath(g, g[p.block].succs, [c]);
        } else {
          var path :| LeakPath(g, g[c].succs, path);
          PrependBlock(g, g[p.block].succs, c, path[|path| - 1]);
        }
      }
    }
  }

  /** Paths over blocks are exactly what execution, node by node, can do. */
  lemma LeaksExactly(g: Cfg, b: nat, i: nat)
    requires ValidCfg(g) && b < |g| && i <= |g[b].nodes|
    ensures Leaks(g, Position(b, i)) <==>
            && !UsesVar(g[b].nodes[i..])
            && if |g[b].succs| == 0 then LeakExit(g[b]) else CanLeak(g, g[b].succs)
  {
    if Leaks(g, Position(b, i)) {
      var run :| LeakRun(g, Position(b, i), run);
      RunIsPath(g, Position(b, i), run);
    } else if !UsesVar(g[b].nodes[i..]) {
      var end := Position(b, |g[b].nodes|);
      if |g[b].succs| == 0 {
        if LeakExit(g[b]) {
          ReturnLeaks(g, end);
          LeaksThroughBlock(g, b, i);
        }
      } else if CanLeak(g, g[b].succs) {
        var path :| LeakPath(g, g[b].succs, path);
        PathLeaks(g, g[b].succs, path);
        LeaksStep(g, end, Position(path[0], 0));
        LeaksThroughBlock(g, b, i);
      }
    }
  }

  // ---------- the check ----------

  /** `p` is the first place in the control-flow graph that holds the node `def`. */
  ghost predicate DefinedAt(g: Cfg, def: nat, p: Position) {
    && p.block < |g| && p.index < |g[p.block].nodes| && g[p.block].nodes[p.index].id == def
    && (forall i :: 0 <= i < p.index ==> g[p.block].nodes[i].id != def)
    && (forall b, i :: 0 <= b < p.block && 0 <= i < |g[b].nodes| ==> g[b].nodes[i].id != def)
  }

  const SUPPRESS: string := "//repool:suppress"

  // A comment of a source file and the line it is on.
  datatype Comment = Comment(line: nat, text: string)

  // A statement at the top level of a function body; `usesVar` is about the deferred call.
  datatype Statement = Statement(isDefer: bool, usesVar: bool)

  // What the check looks at: the comments of all files, the line of the definition, the body
  // of the function if it has one, and its control-flow graph if one was built.
  datatype Subject = Subject(comments: seq<seq<Comment>>, line: nat, body: Option<seq<Statement>>, cfg: Option<Cfg>)

  predicate Contains(text: string, part: string) {
    exists i: nat :: i <= |text| && part <= text[i..]
  }

  /** The comment is on the line of the definition or the one above, in whatever file. */
  predicate Silences(c: Comment, line: nat) {
    (c.line == line || c.line == line - 1) && Contains(c.text, SUPPRESS)
  }

  /** Some comment of some file, on the line of the definition or the one above it, contains the marker. */
  ghost predicate Suppressed(comments: seq<seq<Comment>>, line: nat) {
    exists f, i, at: nat ::
      && 0 <= f < |comments| && 0 <= i < |comments[f]|
      && (comments[f][i].line == line || comments[f][i].line + 1 == line)
      && MarkedAt(comments[f][i].text, at)
  }

  ghost predicate MarkedAt(text: string, at: nat) {
    at + 17 <= |text| && text[at..at + 17] == "//repool:suppress"
  }

  lemma SilencesExactly(c: Comment, line: nat)
    ensures Silences(c, line) <==> (c.line == line || c.line + 1 == line) && exists at: nat :: MarkedAt(c.text, at)
  {
    assert |SUPPRESS| == 17;
    if at: nat :| MarkedAt(c.text, at) {
      assert c.text[at..][..17] == c.text[at..at + 17];
      assert SUPPRESS <= c.text[at..];
    }
    if at: nat :| at <= |c.text| && SUPPRESS <= c.text[at..] {
      assert c.text[at..][..17] == c.text[at..at + 17];
      assert MarkedAt(c.text, at);
    }
  }

  ghost predicate Deferred(body: Option<seq<Statement>>) {
    body.Some? && exists i :: 0 <= i < |body.value| && body.value[i].isDefer && body.value[i].usesVar
  }

  /** A report is made exactly when execution can get from the definition to a return untouched. */
  ghost predicate ShouldReport(subject: Subject, def: nat) {
    && !Suppressed(subject.comments, subject.line) && !Deferred(subject.body) && subject.cfg.Some?
    && exists p :: DefinedAt(subject.cfg.value, def, p) && Leaks(subject.cfg.value, Position(p.block, p.index + 1))
  }

  method HasSuppressComment(comments: seq<seq<Comment>>, line: nat) returns (found: bool)
    ensures found <==> Suppressed(comments, line)
  {
    forall f, i | 0 <= f < |comments| && 0 <= i < |comments[f]|
      ensures Silences(comments[f][i], line) <==>
              (comments[f][i].line == line || comments[f][i].line + 1 == line) &&
              exists at: nat :: MarkedAt(comments[f][i].text, at)
    {
      SilencesExactly(comments[f][i], line);
    }
    hide Silences, MarkedAt;
    for f := 0 to |comments|
      invariant forall g, i :: 0 <= g < f && 0 <= i < |comments[g]| ==> !Silences(comments[g][i], line)
    {
      for i := 0 to |comments[f]|
        invariant forall k :: 0 <= k < i ==> !Silences(comments[f][k], line)
      {
        if Silences(comments[f][i], line) {
          return true;
        }
      }
    }
    return false;
  }

  method DeferUsesVar(body: Option<seq<Statement>>) returns (found: bool)
    ensures found <==> Deferred(body)
  {
    if body.None? {
      return false;
    }
    for i := 0 to |body.value|
      invariant forall k :: 0 <= k < i ==> !(body.value[k].isDefer && body.value[k].usesVar)
    {
      if !body.value[i].isDefer {
        continue;
      }
      if body.value[i].usesVar {
        return true;
      }
    }
    return false;
  }

  method FindDefinition(g: Cfg, def: nat) returns (p: Option<Position>)
    ensures p.Some? ==> DefinedAt(g, def, p.value)
    ensures p.None? ==> forall q :: !DefinedAt(g, def, q)
  {
    for b := 0 to |g|
      invariant forall c, i :: 0 <= c < b && 0 <= i < |g[c].nodes| ==> g[c].nodes[i].id != def
    {
      for i := 0 to |g[b].nodes|
        invariant forall k :: 0 <= k < i ==> g[b].nodes[k].id != def
      {
        if g[b].nodes[i].id == def {
          return Some(Position(b, i));
        }
      }
    }
    return None;
  }

  method CheckVarUsedOnAllPaths(subject: Subject, defStmt: nat) returns (reported: bool)
    requires subject.cfg.Some? ==> ValidCfg(subject.cfg.value)
    ensures reported <==> ShouldReport(subject, defStmt)
  {
    hide Suppressed, Deferred;
    var suppressed := HasSuppressComment(subject.comments, subject.line);
    if suppressed {
      return false;
    }
    var deferred := DeferUsesVar(subject.body);
    if deferred {
      return false;
    }
    if subject.cfg.None? {
      return false;
    }
    var g := subject.cfg.value;
    var def := FindDefinition(g, defStmt);
    if def.None? {
      return false;
    }
    var defblock := g[def.value.block];
    var rest := defblock.nodes[def.value.index + 1..];
    DefinedOnce(g, defStmt, def.value);
    LeaksExactly(g, def.value.block, def.value.index + 1);
    if UsesVar(rest) {
      return false;
    }
    if |defblock.succs| == 0 {
      return !BlockEndsPanic(defblock);
    }
    var seen := new SeenMap();
    var ret := SearchUnused(g, defblock.succs, seen);
    return ret.Some?;
  }

  lemma DefinedOnce(g: Cfg, def: nat, p: Position)
    requires DefinedAt(g, def, p)
    ensures forall q :: DefinedAt(g, def, q) ==> q == p
  {
  }
}
