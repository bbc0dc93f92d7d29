/** Where source files may be cut (ast_chunk.rs). */
module AstBoundaries {
  // The declarations of a syntax tree, found with an explicit stack, each moved up over the
  // comments that belong to it.
  import opened Common

  datatype Node = Node(kind: string, start: nat, startRow: nat, endRow: nat, endColumn: nat, children: seq<Node>)

  datatype Language = Language(kinds: set<string>, leading: set<string>, outermostOnly: bool)

  // ── Leading comments ───────────────────────────────────────────────────────

  /** `siblings[i]` shares a line with the code before it. */
  predicate TrailsCode(siblings: seq<Node>, i: nat)
    requires i < |siblings|
  {
    i >= 1 && siblings[i - 1].endColumn != 0 && siblings[i - 1].endRow == siblings[i].startRow
  }

  /** `siblings[i]` may be taken along by what follows it. */
  predicate Leads(l: Language, siblings: seq<Node>, i: nat)
    requires i < |siblings|
  {
    siblings[i].kind in l.leading && !TrailsCode(siblings, i)
  }

  /** `from` starts the unbroken run of leading siblings just above `at`. */
  predicate IsRunStart(l: Language, siblings: seq<Node>, from: nat, at: nat) {
    && from <= at < |siblings|
    && (forall i | from <= i < at :: Leads(l, siblings, i))
    && (from > 0 ==> !Leads(l, siblings, from - 1))
  }

  function RunStart(l: Language, siblings: seq<Node>, at: nat): (from: nat)
    requires at < |siblings|
    ensures IsRunStart(l, siblings, from, at)
    decreases at
  {
    if at > 0 && Leads(l, siblings, at - 1) then RunStart(l, siblings, at - 1) else at
  }

  lemma {:induction false} RunStartIsUnique(l: Language, siblings: seq<Node>, at: nat, from: nat)
    requires at < |siblings| && IsRunStart(l, siblings, from, at)
    ensures from == RunStart(l, siblings, at)
    decreases at
  {
    if from < at {
      assert Leads(l, siblings, at - 1);
      RunStartIsUnique(l, siblings, at - 1, from);
    }
  }

  /** A leading node is taken along unless it stands on the line on which the node before it ends, past
      the start of that line. */
  lemma RunIs(l: Language, siblings: seq<Node>, at: nat)
    requires at < |siblings|
    ensures var from := RunStart(l, siblings, at);
            && from <= at
            && (forall i | from <= i < at ::
                  siblings[i].kind in l.leading
                  && (i == 0 || siblings[i - 1].endColumn == 0 || siblings[i - 1].endRow != siblings[i].startRow))
            && (from == 0 || siblings[from - 1].kind !in l.leading
                || (from >= 2 && siblings[from - 2].endColumn != 0 && siblings[from - 2].endRow == siblings[from - 1].startRow))
  {
    var from := RunStart(l, siblings, at);
    forall i | from <= i < at
      ensures siblings[i].kind in l.leading
      ensures i == 0 || siblings[i - 1].endColumn == 0 || siblings[i - 1].endRow != siblings[i].startRow
    {
      assert Leads(l, siblings, i);
    }
  }

  function CutAt(l: Language, siblings: seq<Node>, at: nat): nat
    requires at < |siblings|
  {
    siblings[RunStart(l, siblings, at)].start
  }

  method BoundaryStart(l: Language, siblings: seq<Node>, at: nat) returns (start: nat)
    requires at < |siblings|
    ensures start == CutAt(l, siblings, at)
  {
    start := siblings[at].start;
    var i := at;
    while i > 0 && siblings[i - 1].kind in l.leading
      invariant i <= at && start == siblings[i].start
      invariant RunStart(l, siblings, i) == RunStart(l, siblings, at)
    {
      var comment := siblings[i - 1];
      var trailsPreviousCode := i >= 2 && siblings[i - 2].endColumn != 0 && siblings[i - 2].endRow == comment.startRow;
      if trailsPreviousCode {
        break;
      }
      start := comment.start;
      i := i - 1;
    }
  }

  // ── The tree ───────────────────────────────────────────────────────────────

  /** The cuts below a node: every child that is a declaration, at the start of its run, and
      the cuts below every child that is not itself a whole declaration to keep. */
  function Below(l: Language, node: Node): multiset<int>
    decreases node, |node.children| + 1
  {
    BelowFirst(l, node, |node.children|)
  }

  /** The cuts of the first `n` children. */
  function BelowFirst(l: Language, node: Node, n: nat): multiset<int>
    requires n <= |node.children|
    decreases node, n
  {
    if n == 0 then multiset{}
    else
      var child := node.children[n - 1];
      BelowFirst(l, node, n - 1)
      + (if child.kind in l.kinds then multiset{CutAt(l, node.children, n - 1)} else multiset{})
      + (if child.kind in l.kinds && l.outermostOnly then multiset{} else Below(l, child))
  }

  function Boundaries(l: Language, root: Node): multiset<int> {
    if root.kind in l.kinds then
      multiset{root.start} + (if l.outermostOnly then multiset{} else Below(l, root))
    else Below(l, root)
  }

  /** Nodes of a tree, and of its first `n` subtrees. */
  function Size(node: Node): nat
    decreases node, |node.children| + 1
  {
    1 + SizeFirst(node, |node.children|)
  }

  function SizeFirst(node: Node, n: nat): nat
    requires n <= |node.children|
    decreases node, n
  {
    if n == 0 then 0 else SizeFirst(node, n - 1) + Size(node.children[n - 1])
  }

  /** What a stack still stands for. */
  function Pending(l: Language, stack: seq<Node>): multiset<int> {
    if stack == [] then multiset{} else Pending(l, stack[..|stack| - 1]) + Below(l, stack[|stack| - 1])
  }

  function Weight(stack: seq<Node>): nat {
    if stack == [] then 0 else Weight(stack[..|stack| - 1]) + Size(stack[|stack| - 1])
  }

  lemma PendingPush(l: Language, stack: seq<Node>, node: Node)
    ensures Pending(l, stack + [node]) == Pending(l, stack) + Below(l, node)
    ensures Weight(stack + [node]) == Weight(stack) + Size(node)
  {
    assert (stack + [node])[..|stack|] == stack;
  }

  function OwnCut(l: Language, node: Node, at: nat): multiset<int>
    requires at < |node.children|
  {
    if node.children[at].kind in l.kinds then multiset{CutAt(l, node.children, at)} else multiset{}
  }

  predicate Skipped(l: Language, child: Node) {
    child.kind in l.kinds && l.outermostOnly
  }

  lemma BelowStep(l: Language, node: Node, at: nat)
    requires at < |node.children|
    ensures var child := node.children[at];
            && BelowFirst(l, node, at + 1)
               == BelowFirst(l, node, at) + OwnCut(l, node, at) + (if Skipped(l, child) then multiset{} else Below(l, child))
            && SizeFirst(node, at + 1) == SizeFirst(node, at) + Size(child)
  {
  }

  /** The traversal finds exactly the cuts of the recursive definition, however deep the tree. */
  method CollectBoundaries(root: Node, l: Language) returns (out: seq<int>)
    ensures multiset(out) == Boundaries(l, root)
  {
    out := [];
    if root.kind in l.kinds {
      out := [root.start];
      if l.outermostOnly {
        return;
      }
    }
    var stack := [root];
    PendingPush(l, [], root);
    assert [] + [root] == stack;
    while stack != []
      invariant multiset(out) + Pending(l, stack) == Boundaries(l, root)
      decreases Weight(stack)
    {
      stack, out := Visit(l, stack, out);
    }
  }

  /** Pops one node and pushes its children. */
  method Visit(l: Language, stack: seq<Node>, out: seq<int>) returns (stack': seq<Node>, out': seq<int>)
    requires stack != []
    ensures multiset(out') + Pending(l, stack') == multiset(out) + Pending(l, stack)
    ensures Weight(stack') < Weight(stack)
  {
    var node, rest := stack[|stack| - 1], stack[..|stack| - 1];
    stack', out' := VisitChildren(node, l, rest, out);
    assert Weight(stack) == Weight(rest) + 1 + SizeFirst(node, |node.children|);
  }

  method VisitChildren(node: Node, l: Language, stack: seq<Node>, out: seq<int>) returns (stack': seq<Node>, out': seq<int>)
    ensures multiset(out') + Pending(l, stack') == multiset(out) + Pending(l, stack) + BelowFirst(l, node, |node.children|)
    ensures Weight(stack') <= Weight(stack) + SizeFirst(node, |node.children|)
  {
    stack', out' := stack, out;
    for at := 0 to |node.children|
      invariant multiset(out') + Pending(l, stack') == multiset(out) + Pending(l, stack) + BelowFirst(l, node, at)
      invariant Weight(stack') <= Weight(stack) + SizeFirst(node, at)
    {
      BelowStep(l, node, at);
      ghost var had := multiset(out') + Pending(l, stack');
      stack', out' := VisitChild(node, l, at, stack', out');
      assert multiset(out') + Pending(l, stack')
          == had + OwnCut(l, node, at) + (if Skipped(l, node.children[at]) then multiset{} else Below(l, node.children[at]));
    }
  }

  method VisitChild(node: Node, l: Language, at: nat, stack: seq<Node>, out: seq<int>) returns (stack': seq<Node>, out': seq<int>)
    requires at < |node.children|
    ensures var child := node.children[at];
            && multiset(out') == multiset(out) + OwnCut(l, node, at)
            && Pending(l, stack') == Pending(l, stack) + (if Skipped(l, child) then multiset{} else Below(l, child))
            && Weight(stack') <= Weight(stack) + Size(child)
  {
    var child := node.children[at];
    stack', out' := stack, out;
    if child.kind in l.kinds {
      var start := BoundaryStart(l, node.children, at);
      out' := out' + [start];
      if l.outermostOnly {
        return;
      }
    }
    PendingPush(l, stack, child);
    stack' := stack' + [child];
  }

  /** The break points handed to the chunker: strictly increasing, exactly the cuts of the tree,
      and none when there is no declaration. */
  method BreakPoints(root: Node, l: Language) returns (positions: seq<int>)
    ensures StrictlySorted((a: int, b: int) => a < b, positions)
    ensures forall p :: p in positions <==> p in Boundaries(l, root)
  {
    var out := CollectBoundaries(root, l);
    var less := (a: int, b: int) => a < b;
    var sorted := SortBy(less, out);
    SortByIsSorted(less, Elements(out), out);
    SortByMembers(less, out);
    assert Elements(sorted) == Elements(out);
    DedupIsStrict(less, (a: int) => a, Elements(out), sorted);
    positions := DedupBy((a: int) => a, sorted);
    assert forall p :: p in positions <==> p in Elements(positions);
    assert forall p :: p in out <==> p in multiset(out);
  }

  // ── What the cuts are ──────────────────────────────────────────────────────

  /** Following child indices from `node` leads to a declaration whose run starts at `p`, without
      passing through a declaration when only outermost ones count. */
  predicate CutBy(l: Language, node: Node, path: seq<nat>, p: int)
    decreases |path|
  {
    && path != [] && path[0] < |node.children|
    && var child := node.children[path[0]];
    if |path| == 1 then child.kind in l.kinds && p == CutAt(l, node.children, path[0])
    else !Skipped(l, child) && CutBy(l, child, path[1..], p)
  }

  ghost predicate HasCut(l: Language, node: Node, p: int) {
    exists path :: CutBy(l, node, path, p)
  }

  ghost predicate HasCutAt(l: Language, node: Node, at: nat, p: int) {
    exists path :: CutBy(l, node, path, p) && path[0] == at
  }

  ghost predicate HasCutBefore(l: Language, node: Node, n: nat, p: int) {
    exists path :: CutBy(l, node, path, p) && path[0] < n
  }

  lemma {:induction false} BelowIsCuts(l: Language, node: Node, p: int)
    ensures p in Below(l, node) <==> HasCut(l, node, p)
    decreases node, |node.children| + 1
  {
    FirstAreCuts(l, node, |node.children|, p);
  }

  lemma {:induction false} FirstAreCuts(l: Language, node: Node, n: nat, p: int)
    requires n <= |node.children|
    ensures p in BelowFirst(l, node, n) <==> HasCutBefore(l, node, n, p)
    decreases node, n
  {
    if n > 0 {
      FirstAreCuts(l, node, n - 1, p);
      BelowIsCuts(l, node.children[n - 1], p);
      OneMoreChild(l, node, n - 1, p);
    } else {
      NoCutBeforeFirst(l, node, p);
    }
  }

  lemma NoCutBeforeFirst(l: Language, node: Node, p: int)
    ensures !HasCutBefore(l, node, 0, p) && p !in BelowFirst(l, node, 0)
  {
  }

  lemma OneMoreChild(l: Language, node: Node, at: nat, p: int)
    requires at < |node.children|
    requires p in BelowFirst(l, node, at) <==> HasCutBefore(l, node, at, p)
    requires p in Below(l, node.children[at]) <==> HasCut(l, node.children[at], p)
    ensures p in BelowFirst(l, node, at + 1) <==> HasCutBefore(l, node, at + 1, p)
  {
    BelowMember(l, node, at, p);
    ChildCuts(l, node, at, p);
    CutsBeforeNext(l, node, at, p);
  }

  lemma BelowMember(l: Language, node: Node, at: nat, p: int)
    requires at < |node.children|
    ensures p in BelowFirst(l, node, at + 1) <==>
              p in BelowFirst(l, node, at) || p in OwnCut(l, node, at)
              || (!Skipped(l, node.children[at]) && p in Below(l, node.children[at]))
  {
    BelowStep(l, node, at);
  }

  lemma CutsBeforeNext(l: Language, node: Node, n: nat, p: int)
    ensures HasCutBefore(l, node, n + 1, p) <==> HasCutBefore(l, node, n, p) || HasCutAt(l, node, n, p)
  {
    if path :| CutBy(l, node, path, p) && path[0] < n + 1 {
      assert path[0] < n || path[0] == n;
    }
  }

  lemma ChildCuts(l: Language, node: Node, at: nat, p: int)
    requires at < |node.children|
    ensures HasCutAt(l, node, at, p) <==>
              p in OwnCut(l, node, at) || (!Skipped(l, node.children[at]) && HasCut(l, node.children[at], p))
  {
    var child := node.children[at];
    if p in OwnCut(l, node, at) {
      assert CutBy(l, node, [at], p) && [at][0] == at;
    }
    if !Skipped(l, child) && HasCut(l, child, p) {
      var path :| CutBy(l, child, path, p);
      var longer := [at] + path;
      assert longer[1..] == path && |longer| > 1 && longer[0] == at;
      assert CutBy(l, node, longer, p);
    }
    if HasCutAt(l, node, at, p) {
      var path :| CutBy(l, node, path, p) && path[0] == at;
      assert |path| > 1 ==> CutBy(l, child, path[1..], p);
    }
  }

  /** The cuts of a file, path by path: the root itself if it is a declaration, and every
      declaration that no outer one hides, each at the start of its unbroken run of leading
      siblings. */
  lemma BoundariesAreCuts(l: Language, root: Node, p: int)
    ensures p in Boundaries(l, root) <==>
              (root.kind in l.kinds && p == root.start)
              || (!Skipped(l, root) && HasCut(l, root, p))
  {
    BelowIsCuts(l, root, p);
  }
}
