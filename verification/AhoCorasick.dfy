/**
 The Aho-Corasick matcher as the program builds it: a trie of nodes on the heap, failure links set in
 breadth-first order, lists of matches inherited along them, and one scan over the text.
 */
module AhoCorasick {
  import opened Sequences
  import opened TrieWords

  /** `BorNode`; the path is the string that leads to it from the root. */
  class BorNode {
    ghost const path: string
    var children: map<char, BorNode>
    var matches: seq<string>
    var failNode: BorNode?

    constructor (ghost path: string)
      ensures this.path == path && children == map[] && matches == [] && failNode == null
    {
      this.path := path;
      children, matches, failNode := map[], [], null;
    }

    /** Adds the word below this node, whose path and `suff` make it up; missing nodes are created. */
    method AddWord(word: string, suff: string, ghost nodes: map<string, BorNode>)
      returns (ghost nodes': map<string, BorNode>)
      requires Linked(nodes) && IsNode(nodes, this)
      modifies nodes.Values`children, nodes.Values`matches
      ensures Linked(nodes') && Extends(nodes, nodes')
      ensures forall p :: p in nodes' <==> p in nodes || Between(path, p, path + suff)
      ensures forall p :: p in nodes ==>
        nodes[p].matches == old(nodes[p].matches) + (if p == path + suff then [word] else [])
      ensures forall p :: p in nodes' && p !in nodes ==> nodes'[p].matches == if p == path + suff then [word] else []
      decreases |suff|
    {
      hide Extend, Between, Linked;
      nodes' := nodes;
      Branch(path, suff);
      ChildrenAre(nodes, this, if suff == "" then 'x' else suff[0]);
      if suff == "" {
        matches := matches + [word];
        return;
      }
      var c := suff[0];
      ghost var middle := nodes;
      if c !in children {
        middle := AddChild(c, nodes);
      }
      ChildrenAre(middle, this, c);
      nodes' := children[c].AddWord(word, suff[1..], middle);
    }

    /** `getFallNode`. The failure links of all nodes that are no deeper than this one have been set. */
    method GetFallNode(c: char, ghost nodes: map<string, BorNode>, ghost dict: seq<string>, ghost settled: set<string>)
      returns (r: BorNode)
      requires Staged(nodes, dict, settled) && IsNode(nodes, this)
      requires forall p :: p in nodes && |p| <= |path| ==> p in settled
      ensures IsNode(nodes, r) && r.path == Fallen(nodes.Keys, path, c)
      decreases |path|
    {
      hide Staged, Extend, Linked, Fallen, Fail;
      LinkOf(nodes, dict, settled, this);
      ChildrenAre(nodes, failNode, c);
      FallenStep(nodes.Keys, path, c);
      if c in failNode.children {
        r := failNode.children[c];
      } else if this != failNode {
        r := failNode.GetFallNode(c, nodes, dict, settled);
      } else {
        r := this;
      }
    }

    /** `pushChildrenToQueue`; the order among the children does not matter. */
    method PushChildrenToQueue(queue: seq<BorNode>) returns (queue': seq<BorNode>)
      requires forall a, b :: a in children && b in children && a != b ==> children[a] != children[b]
      ensures |queue| <= |queue'| && queue'[..|queue|] == queue
      ensures forall n :: n in queue'[|queue|..] <==> exists c :: c in children && children[c] == n
      ensures forall i, j :: |queue| <= i < j < |queue'| ==> queue'[i] != queue'[j]
    {
      queue' := queue;
      var rest := children.Keys;
      while rest != {}
        invariant rest <= children.Keys && |queue| <= |queue'| && queue'[..|queue|] == queue
        invariant forall n :: n in queue'[|queue|..] <==> exists c :: c in children && c !in rest && children[c] == n
        invariant forall i, j :: |queue| <= i < j < |queue'| ==> queue'[i] != queue'[j]
        decreases rest
      {
        var c :| c in rest;
        ghost var before := queue';
        assert children[c] !in before[|queue|..];
        queue' := queue' + [children[c]];
        rest := rest - {c};
        assert queue'[|queue|..] == before[|queue|..] + [children[c]];
        assert forall i :: |queue| <= i < |before| ==> before[i] in before[|queue|..];
      }
    }

    method AddChild(c: char, ghost nodes: map<string, BorNode>) returns (ghost nodes': map<string, BorNode>)
      requires Linked(nodes) && IsNode(nodes, this) && c !in children
      modifies this`children
      ensures Linked(nodes') && Extends(nodes, nodes') && nodes'.Keys == nodes.Keys + {Extend(path, c)}
      ensures nodes'[Extend(path, c)].matches == [] && c in children
      ensures nodes'[Extend(path, c)].failNode == null
    {
      hide Extend, Fall;
      ghost var key := Extend(path, c);
      assert key !in nodes;
      var child := new BorNode(Extend(path, c));
      children := children[c := child];
      nodes' := nodes[Extend(path, c) := child];
    }
  }

  /** `p` is on the way from `path` to `full`. */
  predicate Between(path: string, p: string, full: string) { path <= p && p <= full }

  /** The paths from `path` to `path + suff`. */
  lemma Branch(path: string, suff: string)
    ensures suff == "" ==> path + suff == path && forall p :: Between(path, p, path) <==> p == path
    ensures suff != "" ==>
      && Extend(path, suff[0]) + suff[1..] == path + suff
      && Between(path, Extend(path, suff[0]), path + suff)
      && forall p :: Between(path, p, path + suff) <==> p == path || Between(Extend(path, suff[0]), p, path + suff)
  {
    if suff != "" {
      assert Extend(path, suff[0]) + suff[1..] == path + suff;
    }
  }

  lemma ChildrenAre(nodes: map<string, BorNode>, n: BorNode, c: char)
    requires Linked(nodes) && IsNode(nodes, n)
    ensures forall p :: p in nodes && nodes[p] == n ==> p == n.path
    ensures c in n.children <==> Extend(n.path, c) in nodes
    ensures c in n.children ==> n.children[c] == nodes[Extend(n.path, c)] && n.children[c].path == Extend(n.path, c)
  {}

  ghost predicate IsNode(nodes: map<string, BorNode>, n: BorNode) { n.path in nodes && nodes[n.path] == n }

  /** The nodes by their paths: a tree in which a node's children extend its path by a character. */
  ghost predicate Linked(nodes: map<string, BorNode>)
    reads nodes.Values`children
  {
    && "" in nodes
    && (forall p :: p in nodes ==> nodes[p].path == p)
    && (forall p, c :: Extend(p, c) in nodes ==> p in nodes && c in nodes[p].children)
    && (forall p, c :: p in nodes && c in nodes[p].children ==>
          Extend(p, c) in nodes && nodes[p].children[c] == nodes[Extend(p, c)])
  }

  twostate predicate Extends(nodes: map<string, BorNode>, new nodes': map<string, BorNode>) {
    && (forall p :: p in nodes ==> p in nodes' && nodes'[p] == nodes[p])
    && (forall p :: p in nodes' && p !in nodes ==> fresh(nodes'[p]))
  }

  // ----- failure links

  /** The node's link and its matches are what they have to be. */
  ghost predicate Settled(n: BorNode, nodes: map<string, BorNode>, dict: seq<string>)
    requires "" in nodes
    reads n
  {
    && n.failNode == nodes[if n.path == "" then "" else Fail(nodes.Keys, n.path)]
    && n.matches == Inherited(dict, nodes.Keys, n.path)
  }

  /** Nodes in `settled` are finished; the others have the words that `addWord` gave them. */
  ghost predicate StageOf(n: BorNode, nodes: map<string, BorNode>, dict: seq<string>, settled: set<string>)
    requires "" in nodes
    reads n
  {
    if n.path in settled then Settled(n, nodes, dict) else n.matches == Own(dict, n.path)
  }

  ghost predicate Staged(nodes: map<string, BorNode>, dict: seq<string>, settled: set<string>)
    reads nodes.Values
  {
    && Linked(nodes) && Covers(nodes.Keys, dict)
    && forall p :: p in nodes ==> StageOf(nodes[p], nodes, dict, settled)
  }

  lemma LinkOf(nodes: map<string, BorNode>, dict: seq<string>, settled: set<string>, n: BorNode)
    requires Staged(nodes, dict, settled) && IsNode(nodes, n) && n.path in settled
    ensures Linked(nodes) && n.failNode != null && IsNode(nodes, n.failNode)
    ensures n.failNode.path == if n.path == "" then "" else Fail(nodes.Keys, n.path)
    ensures n.path != "" ==> |n.failNode.path| < |n.path|
    ensures n.matches == Inherited(dict, nodes.Keys, n.path)
  {
    assert StageOf(n, nodes, dict, settled);
  }

  lemma LinkedIsTrie(nodes: map<string, BorNode>)
    requires Linked(nodes)
    ensures IsTrie(nodes.Keys)
  {}

  /** The link of `child` is set and what it leads to is inherited. */
  method SetFailNode(child: BorNode, fall: BorNode,
                     ghost nodes: map<string, BorNode>, ghost dict: seq<string>, ghost settled: set<string>)
    requires Staged(nodes, dict, settled) && IsNode(nodes, child) && IsNode(nodes, fall)
    requires child.path != "" && child.path !in settled && fall.path == Fail(nodes.Keys, child.path)
    requires child.matches + fall.matches == Inherited(dict, nodes.Keys, child.path)
    modifies child`failNode, child`matches
    ensures Staged(nodes, dict, settled + {child.path})
  {
    hide Fail, Inherited, Linked, StageOf, Settled;
    Paths(nodes);
    ghost var after := settled + {child.path};
    child.failNode := fall;
    child.matches := child.matches + fall.matches;
    SettledNow(child, fall, nodes, dict, after);
    forall p | p in nodes && p != child.path
      ensures StageOf(nodes[p], nodes, dict, after)
    {
      assert nodes[p] != child && StageOf(nodes[p], nodes, dict, settled);
      StageStill(nodes[p], nodes, dict, settled, after);
    }
  }

  lemma SettledNow(child: BorNode, fall: BorNode, nodes: map<string, BorNode>, dict: seq<string>, after: set<string>)
    requires IsNode(nodes, fall) && "" in nodes && child.path != "" && child.path in after
    requires child.failNode == fall && fall.path == Fail(nodes.Keys, child.path)
    requires child.matches == Inherited(dict, nodes.Keys, child.path)
    ensures StageOf(child, nodes, dict, after)
  {}

  lemma StageStill(n: BorNode, nodes: map<string, BorNode>, dict: seq<string>, settled: set<string>, after: set<string>)
    requires "" in nodes && StageOf(n, nodes, dict, settled) && (n.path in settled <==> n.path in after)
    ensures StageOf(n, nodes, dict, after)
  {}

  lemma Paths(nodes: map<string, BorNode>)
    requires Linked(nodes)
    ensures "" in nodes && forall p :: p in nodes ==> nodes[p].path == p
  {}

  /** One turn of the inner loop: the child of `cur` on `c` gets its link and inherits its matches. */
  method SettleChild(cur: BorNode, c: char, child: BorNode,
                     ghost nodes: map<string, BorNode>, ghost dict: seq<string>, ghost settled: set<string>)
    requires Staged(nodes, dict, settled) && IsNode(nodes, cur) && cur.path != ""
    requires c in cur.children && child == cur.children[c]
    requires forall p :: p in nodes && |p| <= |cur.path| ==> p in settled
    requires Extend(cur.path, c) !in settled
    modifies child`failNode, child`matches
    ensures Staged(nodes, dict, settled + {Extend(cur.path, c)})
  {
    hide Fallen, Fail, Linked, Inherited, Settled, Extend;
    ChildrenAre(nodes, cur, c);
    LinkedIsTrie(nodes);
    FailOfChild(nodes.Keys, cur.path, c);
    var fall := cur.GetFallNode(c, nodes, dict, settled);
    LinkOf(nodes, dict, settled, fall);
    InheritedBelow(dict, nodes.Keys, child.path);
    assert StageOf(child, nodes, dict, settled);
    hide Staged;
    SetFailNode(child, fall, nodes, dict, settled);
  }

  lemma InheritedBelow(dict: seq<string>, keys: set<string>, k: string)
    requires "" in keys && |k| > 1
    ensures Inherited(dict, keys, k) == Own(dict, k) + Inherited(dict, keys, Fail(keys, k))
  {}

  // ----- the breadth-first pass

  ghost predicate Members(nodes: map<string, BorNode>, queue: seq<BorNode>, done: set<string>, settled: set<string>) {
    forall n :: n in queue ==> IsNode(nodes, n) && n.path != "" && n.path !in done && n.path in settled
  }

  /** By depth, over two levels at most. */
  ghost predicate Ordered(queue: seq<BorNode>) {
    forall i, j :: 0 <= i < j < |queue| ==> |queue[i].path| <= |queue[j].path| <= |queue[i].path| + 1
  }

  ghost predicate Deep(queue: seq<BorNode>, done: set<string>) {
    forall p, n :: p in done && n in queue ==> |p| <= |n.path|
  }

  ghost predicate Closed(nodes: map<string, BorNode>, queue: seq<BorNode>, done: set<string>, settled: set<string>) {
    forall p, c :: Extend(p, c) in nodes ==>
      && (Extend(p, c) in settled <==> p in done)
      && (p in done && Extend(p, c) !in done ==> nodes[Extend(p, c)] in queue)
  }

  /**
   Between two turns of the loop: `done` are the paths whose children have been given their links, the
   queue holds the other nodes that have theirs, in the order of their depth.
   */
  ghost predicate Frontier(nodes: map<string, BorNode>, queue: seq<BorNode>, done: set<string>, settled: set<string>) {
    && "" in done && done <= settled
    && Members(nodes, queue, done, settled) && Distinct(queue) && Ordered(queue) && Deep(queue, done)
    && Closed(nodes, queue, done, settled)
  }

  /** Everything above the head of the queue is done. */
  lemma {:induction false} ShallowDone(nodes: map<string, BorNode>, queue: seq<BorNode>, done: set<string>,
                                       settled: set<string>, p: string)
    requires Linked(nodes) && Frontier(nodes, queue, done, settled) && p in nodes
    requires forall n :: n in queue ==> |p| < |n.path|
    ensures p in done
    decreases |p|
  {
    if p != "" {
      var n := |p| - 1;
      assert p == Extend(p[..n], p[n]);
      ShallowDone(nodes, queue, done, settled, p[..n]);
    }
  }

  lemma ShallowSettled(nodes: map<string, BorNode>, queue: seq<BorNode>, done: set<string>,
                      settled: set<string>, p: string)
    requires Linked(nodes) && Frontier(nodes, queue, done, settled) && p in nodes
    requires forall n :: n in queue ==> |p| <= |n.path|
    ensures p in settled
  {
    if p != "" {
      var n := |p| - 1;
      assert p == Extend(p[..n], p[n]);
      ShallowDone(nodes, queue, done, settled, p[..n]);
    }
  }

  /** The children of `cur` that are nodes, each once, and `settled'` with their paths. */
  ghost predicate NextLevel(nodes: map<string, BorNode>, cur: BorNode, children: seq<BorNode>,
                            settled: set<string>, settled': set<string>) {
    && Distinct(children)
    && (forall n :: n in children ==>
          IsNode(nodes, n) && |n.path| == |cur.path| + 1 && n.path[..|cur.path|] == cur.path)
    && (forall c :: Extend(cur.path, c) in nodes ==> nodes[Extend(cur.path, c)] in children)
    && (forall n :: n in children ==> n.path in settled')
    && (forall p :: p in settled' && p !in settled ==> p in nodes && nodes[p] in children)
    && settled <= settled'
  }

  lemma NextMember(nodes: map<string, BorNode>, queue: seq<BorNode>, done: set<string>,
                   settled: set<string>, n: BorNode)
    requires Linked(nodes) && Frontier(nodes, queue, done, settled) && queue != []
    requires IsNode(nodes, n) && |n.path| == |queue[0].path| + 1 && n.path[..|queue[0].path|] == queue[0].path
    ensures n.path !in settled && n !in queue
  {
    var cur := queue[0];
    assert n.path == Extend(cur.path, n.path[|cur.path|]);
    assert cur in queue;
  }

  lemma NextQueue(nodes: map<string, BorNode>, queue: seq<BorNode>, done: set<string>, settled: set<string>,
                  children: seq<BorNode>, settled': set<string>)
    requires Linked(nodes) && Frontier(nodes, queue, done, settled) && queue != []
    requires NextLevel(nodes, queue[0], children, settled, settled')
    ensures var queue' := queue[1..] + children;
      Members(nodes, queue', done + {queue[0].path}, settled') && Distinct(queue')
  {
    var queue' := queue[1..] + children;
    forall n | n in children
      ensures n.path !in settled && n !in queue && n.path != ""
    {
      NextMember(nodes, queue, done, settled, n);
    }
    assert forall i :: 1 <= i < |queue| ==> queue[i] in queue && queue[i] != queue[0];
    assert queue[0] in queue;
    forall n | n in queue'
      ensures IsNode(nodes, n) && n.path != "" && n.path !in done + {queue[0].path} && n.path in settled'
    {
      if n in children {
      } else {
        assert n in queue[1..] && n in queue;
      }
    }
    hide Members;
    forall i, j | 0 <= i < j < |queue'|
      ensures queue'[i] != queue'[j]
    {
      if j < |queue| - 1 {
        assert queue'[i] == queue[i + 1] && queue'[j] == queue[j + 1];
      } else if i < |queue| - 1 {
        assert queue'[i] == queue[i + 1] && queue'[j] == children[j - (|queue| - 1)];
        assert queue'[j] in children;
      } else {
        assert queue'[i] == children[i - (|queue| - 1)] && queue'[j] == children[j - (|queue| - 1)];
      }
    }
  }

  lemma NextOrder(queue: seq<BorNode>, done: set<string>, children: seq<BorNode>)
    requires queue != [] && Ordered(queue) && Deep(queue, done)
    requires forall n :: n in children ==> |n.path| == |queue[0].path| + 1
    ensures var queue' := queue[1..] + children; Ordered(queue') && Deep(queue', done + {queue[0].path})
  {
    var queue' := queue[1..] + children;
    var cur := queue[0];
    assert cur in queue;
    forall i | 0 <= i < |queue'|
      ensures |cur.path| <= |queue'[i].path| <= |cur.path| + 1
      ensures i >= |queue| - 1 ==> |queue'[i].path| == |cur.path| + 1
      ensures i < |queue| - 1 ==> queue'[i] == queue[i + 1]
    {
      if i >= |queue| - 1 {
        assert queue'[i] == children[i - (|queue| - 1)];
        assert queue'[i] in children;
      } else {
        assert queue'[i] == queue[i + 1];
      }
    }
    forall p, n | p in done + {cur.path} && n in queue'
      ensures |p| <= |n.path|
    {
      var i :| 0 <= i < |queue'| && queue'[i] == n;
      assert p in done ==> |p| <= |cur.path|;
    }
  }

  lemma NextClosed(nodes: map<string, BorNode>, queue: seq<BorNode>, done: set<string>, settled: set<string>,
                   children: seq<BorNode>, settled': set<string>)
    requires Linked(nodes) && Frontier(nodes, queue, done, settled) && queue != []
    requires NextLevel(nodes, queue[0], children, settled, settled')
    ensures Closed(nodes, queue[1..] + children, done + {queue[0].path}, settled')
  {
    hide Distinct, Ordered, Deep, Extend;
    var cur := queue[0];
    var queue' := queue[1..] + children;
    assert cur in queue;
    forall p, c | Extend(p, c) in nodes
      ensures Extend(p, c) in settled' <==> p in done + {cur.path}
      ensures p in done + {cur.path} && Extend(p, c) !in done + {cur.path} ==> nodes[Extend(p, c)] in queue'
    {
      var k := Extend(p, c);
      assert nodes[k].path == k;
      if p == cur.path {
        assert nodes[k] in children;
      } else {
        if p in done && k !in done + {cur.path} {
          assert nodes[k] in queue && nodes[k] != cur;
          var i :| 0 <= i < |queue| && queue[i] == nodes[k];
          assert queue[1..][i - 1] == nodes[k];
        }
      }
    }
  }

  /** One turn: the head of the queue is done, its children are settled and go to the end. */
  lemma FrontierNext(nodes: map<string, BorNode>, queue: seq<BorNode>, done: set<string>, settled: set<string>,
                     children: seq<BorNode>, settled': set<string>)
    requires Linked(nodes) && Frontier(nodes, queue, done, settled) && queue != []
    requires NextLevel(nodes, queue[0], children, settled, settled')
    ensures Frontier(nodes, queue[1..] + children, done + {queue[0].path}, settled')
  {
    assert queue[0] in queue;
    NextQueue(nodes, queue, done, settled, children, settled');
    NextOrder(queue, done, children);
    NextClosed(nodes, queue, done, settled, children, settled');
    hide Distinct, Ordered, Deep, Closed, Linked;
  }

  // ----- the matcher

  /** The paths of the words' trie: the prefixes of the words. */
  predicate InTrie(dict: seq<string>, p: string) {
    p == "" || (dict != [] && (p <= dict[|dict| - 1] || InTrie(dict[..|dict| - 1], p)))
  }

  lemma {:induction false} WordsInTrie(dict: seq<string>)
    ensures forall w :: w in dict ==> InTrie(dict, w)
  {
    if dict != [] {
      WordsInTrie(dict[..|dict| - 1]);
    }
  }

  /** The trie of `words`, before the links are set. */
  ghost predicate Planted(nodes: map<string, BorNode>, words: seq<string>)
    reads nodes.Values
  {
    && Linked(nodes)
    && (forall p :: p in nodes <==> InTrie(words, p))
    && (forall p :: p in nodes ==> nodes[p].matches == Own(words, p))
  }

  /** The children of `cur` get their links. */
  method SettleChildren(cur: BorNode, ghost nodes: map<string, BorNode>, ghost dict: seq<string>,
                          ghost settled: set<string>)
    returns (ghost settled': set<string>)
    requires Staged(nodes, dict, settled) && IsNode(nodes, cur) && cur.path != ""
    requires forall p :: p in nodes && |p| <= |cur.path| ==> p in settled
    requires forall c :: c in cur.children ==> Extend(cur.path, c) !in settled
    modifies nodes.Values`failNode, nodes.Values`matches
    ensures Staged(nodes, dict, settled')
    ensures settled' == settled + set c | c in cur.children :: Extend(cur.path, c)
  {
    hide Staged, Extend;
    settled' := settled;
    var rest := cur.children.Keys;
    while rest != {}
      invariant rest <= cur.children.Keys && Staged(nodes, dict, settled')
      invariant settled' == settled + set c | c in cur.children && c !in rest :: Extend(cur.path, c)
      decreases rest
    {
      var c :| c in rest;
      ChildOf(nodes, dict, settled', cur, c);
      SettleChild(cur, c, cur.children[c], nodes, dict, settled');
      settled' := settled' + {Extend(cur.path, c)};
      rest := rest - {c};
    }
  }

  lemma ChildOf(nodes: map<string, BorNode>, dict: seq<string>, settled: set<string>, cur: BorNode, c: char)
    requires Staged(nodes, dict, settled) && IsNode(nodes, cur) && c in cur.children
    ensures IsNode(nodes, cur.children[c]) && cur.children[c] in nodes.Values &&
      cur.children[c].path == Extend(cur.path, c)
  {
    assert nodes[Extend(cur.path, c)] in nodes.Values;
  }

  /** The root's children get their links before the loop begins; they inherit nothing. */
  method SettleTop(root: BorNode, ghost nodes: map<string, BorNode>, ghost dict: seq<string>)
    returns (ghost settled: set<string>)
    requires Staged(nodes, dict, {""}) && IsNode(nodes, root) && root.path == ""
    modifies nodes.Values`failNode
    ensures Staged(nodes, dict, settled)
    ensures settled == {""} + set c | c in root.children :: Extend("", c)
  {
    hide Staged, Extend, Inherited;
    settled := {""};
    var rest := root.children.Keys;
    while rest != {}
      invariant rest <= root.children.Keys && Staged(nodes, dict, settled)
      invariant settled == {""} + set c | c in root.children && c !in rest :: Extend("", c)
      decreases rest
    {
      var c :| c in rest;
      ChildOf(nodes, dict, settled, root, c);
      SettleTopChild(root.children[c], root, nodes, dict, settled);
      settled := settled + {Extend("", c)};
      rest := rest - {c};
    }
  }

  method SettleTopChild(child: BorNode, root: BorNode,
                        ghost nodes: map<string, BorNode>, ghost dict: seq<string>, ghost settled: set<string>)
    requires Staged(nodes, dict, settled) && IsNode(nodes, child) && IsNode(nodes, root) && root.path == ""
    requires |child.path| == 1
    modifies child`failNode
    ensures Staged(nodes, dict, settled + {child.path})
  {
    hide Fail, Inherited, Linked, StageOf, Settled;
    Paths(nodes);
    TopMatches(nodes, dict, settled, child);
    ghost var after := settled + {child.path};
    child.failNode := root;
    SettledNow(child, root, nodes, dict, after);
    forall p | p in nodes && p != child.path
      ensures StageOf(nodes[p], nodes, dict, after)
    {
      assert nodes[p] != child && StageOf(nodes[p], nodes, dict, settled);
      StageStill(nodes[p], nodes, dict, settled, after);
    }
  }

  lemma TopMatches(nodes: map<string, BorNode>, dict: seq<string>, settled: set<string>, child: BorNode)
    requires Staged(nodes, dict, settled) && IsNode(nodes, child) && |child.path| == 1
    ensures child.matches == Inherited(dict, nodes.Keys, child.path) && Fail(nodes.Keys, child.path) == ""
  {
    assert StageOf(child, nodes, dict, settled);
    assert Own(dict, child.path) + [] == Own(dict, child.path);
    assert child.path[1..] == "";
  }

  /** What `pushChildrenToQueue` adds for `cur` is its part of the next level. */
  lemma PushedIsNextLevel(nodes: map<string, BorNode>, cur: BorNode, pushed: seq<BorNode>,
                            settled: set<string>, settled': set<string>)
    requires Linked(nodes) && IsNode(nodes, cur) && Distinct(pushed)
    requires forall n :: n in pushed <==> exists c :: c in cur.children && cur.children[c] == n
    requires settled' == settled + set c | c in cur.children :: Extend(cur.path, c)
    ensures NextLevel(nodes, cur, pushed, settled, settled')
  {
    hide Extend, Distinct;
    forall n | n in pushed
      ensures IsNode(nodes, n) && |n.path| == |cur.path| + 1 && n.path[..|cur.path|] == cur.path && n.path in settled'
    {
      var c :| c in cur.children && cur.children[c] == n;
      assert n == nodes[Extend(cur.path, c)];
    }
  }

  lemma ChildrenDistinct(nodes: map<string, BorNode>, cur: BorNode)
    requires Linked(nodes) && IsNode(nodes, cur)
    ensures forall a, b :: a in cur.children && b in cur.children && a != b ==> cur.children[a] != cur.children[b]
  {
    hide Extend;
    forall a, b | a in cur.children && b in cur.children && a != b
      ensures cur.children[a] != cur.children[b]
    {
      assert cur.children[a].path == Extend(cur.path, a) && cur.children[b].path == Extend(cur.path, b);
    }
  }

  lemma FrontierFirst(nodes: map<string, BorNode>, root: BorNode, pushed: seq<BorNode>, settled: set<string>)
    requires Linked(nodes) && IsNode(nodes, root) && root.path == ""
    requires NextLevel(nodes, root, pushed, {""}, settled)
    requires forall c :: Extend("", c) in settled <==> Extend("", c) in nodes
    ensures Frontier(nodes, pushed, {""}, settled)
  {
    hide Extend;
    assert forall i :: 0 <= i < |pushed| ==> pushed[i] in pushed;
    forall p, c | Extend(p, c) in nodes
      ensures Extend(p, c) in settled <==> p in {""}
      ensures p in {""} && Extend(p, c) !in {""} ==> nodes[Extend(p, c)] in pushed
    {
      if p == "" {
        assert nodes[Extend("", c)] in pushed;
      } else {
        assert Extend(p, c) in settled ==> nodes[Extend(p, c)] in pushed;
      }
    }
  }

  /** The breadth-first loop: every node gets its link and all its matches. */
  method SetLinks(root: BorNode, ghost nodes: map<string, BorNode>, ghost dict: seq<string>)
    requires Staged(nodes, dict, {""}) && IsNode(nodes, root) && root.path == ""
    modifies nodes.Values`failNode, nodes.Values`matches
    ensures Staged(nodes, dict, nodes.Keys)
  {
    hide Staged, Frontier, Extend, Linked, NextLevel;
    StagedIsLinked(nodes, dict, {""});
    ChildrenDistinct(nodes, root);
    var queue := root.PushChildrenToQueue([]);
    ghost var settled := SettleTop(root, nodes, dict);
    assert queue[0..] == queue;
    PushedIsNextLevel(nodes, root, queue, {""}, settled);
    TopIsSettled(nodes, root, settled);
    FrontierFirst(nodes, root, queue, settled);
    ghost var done := {""};
    while queue != []
      invariant Staged(nodes, dict, settled) && Linked(nodes) && Frontier(nodes, queue, done, settled)
      decreases nodes.Keys - done
    {
      queue, done, settled := Turn(queue, nodes, dict, done, settled);
    }
    AllSettled(nodes, dict, done, settled);
  }

  lemma StagedIsLinked(nodes: map<string, BorNode>, dict: seq<string>, settled: set<string>)
    requires Staged(nodes, dict, settled)
    ensures Linked(nodes)
  {}

  lemma TopIsSettled(nodes: map<string, BorNode>, root: BorNode, settled: set<string>)
    requires Linked(nodes) && IsNode(nodes, root) && root.path == ""
    requires settled == {""} + set c | c in root.children :: Extend("", c)
    ensures forall c :: Extend("", c) in settled <==> Extend("", c) in nodes
  {
    hide Extend;
    forall c
      ensures Extend("", c) in settled <==> Extend("", c) in nodes
    {
      ChildrenAre(nodes, root, c);
      if Extend("", c) in settled {
        var d :| d in root.children && Extend("", c) == Extend("", d);
      }
    }
  }

  lemma HeadOf(nodes: map<string, BorNode>, queue: seq<BorNode>, done: set<string>, settled: set<string>)
    requires Linked(nodes) && Frontier(nodes, queue, done, settled) && queue != []
    ensures var cur := queue[0];
      && IsNode(nodes, cur) && cur.path != "" && cur.path !in done
      && (forall p :: p in nodes && |p| <= |cur.path| ==> p in settled)
      && (forall c :: c in cur.children ==> Extend(cur.path, c) !in settled)
  {
    hide Extend;
    var cur := queue[0];
    assert cur in queue;
    forall p | p in nodes && |p| <= |cur.path|
      ensures p in settled
    {
      forall n | n in queue
        ensures |p| <= |n.path|
      {
        var i :| 0 <= i < |queue| && queue[i] == n;
      }
      ShallowSettled(nodes, queue, done, settled, p);
    }
  }

  /** One turn of the breadth-first loop. */
  method Turn(queue: seq<BorNode>, ghost nodes: map<string, BorNode>, ghost dict: seq<string>,
              ghost done: set<string>, ghost settled: set<string>)
    returns (queue': seq<BorNode>, ghost done': set<string>, ghost settled': set<string>)
    requires Staged(nodes, dict, settled) && Linked(nodes) && Frontier(nodes, queue, done, settled) && queue != []
    modifies nodes.Values`failNode, nodes.Values`matches
    ensures Staged(nodes, dict, settled') && Linked(nodes) && Frontier(nodes, queue', done', settled')
    ensures done' == done + {queue[0].path} && queue[0].path in nodes && queue[0].path !in done
  {
    hide Staged, Frontier, Extend, Linked, NextLevel;
    HeadOf(nodes, queue, done, settled);
    var cur := queue[0];
    settled' := SettleChildren(cur, nodes, dict, settled);
    ChildrenDistinct(nodes, cur);
    queue' := cur.PushChildrenToQueue(queue);
    ghost var pushed := queue'[|queue|..];
    PushedIsNextLevel(nodes, cur, pushed, settled, settled');
    FrontierNext(nodes, queue, done, settled, pushed, settled');
    assert queue'[1..] == queue[1..] + pushed;
    queue' := queue'[1..];
    done' := done + {cur.path};
  }

  lemma AllSettled(nodes: map<string, BorNode>, dict: seq<string>, done: set<string>, settled: set<string>)
    requires Staged(nodes, dict, settled) && Frontier(nodes, [], done, settled)
    ensures Staged(nodes, dict, nodes.Keys)
  {
    hide StageOf;
    forall p | p in nodes
      ensures StageOf(nodes[p], nodes, dict, nodes.Keys)
    {
      ShallowSettled(nodes, [], done, settled, p);
      StageStill(nodes[p], nodes, dict, settled, nodes.Keys);
    }
  }

  /** The word `dict[i]` joins the trie of the words before it. */
  method Plant(root: BorNode, dict: seq<string>, i: nat, ghost nodes: map<string, BorNode>)
    returns (ghost nodes': map<string, BorNode>)
    requires i < |dict| && Planted(nodes, dict[..i]) && IsNode(nodes, root) && root.path == ""
    modifies nodes.Values`children, nodes.Values`matches
    ensures Planted(nodes', dict[..i + 1]) && IsNode(nodes', root)
    ensures fresh(nodes'.Values - nodes.Values)
  {
    hide Linked, InTrie, Own;
    nodes' := root.AddWord(dict[i], dict[i], nodes);
    OneMoreWord(dict, i);
    assert "" + dict[i] == dict[i];
    forall p | p in nodes'
      ensures nodes'[p].matches == Own(dict[..i + 1], p)
    {
      NothingOwned(dict[..i], p);
    }
    forall n | n in nodes'.Values && n !in nodes.Values
      ensures fresh(n)
    {
      var p :| p in nodes' && nodes'[p] == n;
    }
  }

  method PlantAll(root: BorNode, dict: seq<string>) returns (ghost nodes: map<string, BorNode>)
    requires root.path == "" && root.children == map[] && root.matches == []
    modifies root`children, root`matches
    ensures Planted(nodes, dict) && IsNode(nodes, root) && fresh(nodes.Values - {root})
  {
    hide Planted;
    nodes := map["" := root];
    RootAlone(root, nodes);
    var i := 0;
    assert dict[..0] == [];
    while i < |dict|
      invariant i <= |dict| && Planted(nodes, dict[..i]) && IsNode(nodes, root) && fresh(nodes.Values - {root})
    {
      nodes := Plant(root, dict, i, nodes);
      i := i + 1;
    }
    assert dict[..i] == dict;
  }

  lemma PlantedPaths(nodes: map<string, BorNode>, words: seq<string>)
    requires Planted(nodes, words)
    ensures forall p :: p in nodes <==> InTrie(words, p)
  {}

  /** A string that is no path of the trie is no word. */
  lemma NothingOwned(words: seq<string>, p: string)
    ensures !InTrie(words, p) ==> Own(words, p) == []
  {
    WordsInTrie(words);
    OwnOnly(words, p);
  }

  /** `AhoCorasick`. */
  class AhoCorasick {
    const dict: seq<string>
    const root: BorNode
    ghost var nodes: map<string, BorNode>

    ghost predicate Valid()
      reads this, nodes.Values
    {
      && Staged(nodes, dict, nodes.Keys) && IsNode(nodes, root) && root.path == ""
      && forall p :: p in nodes <==> InTrie(dict, p)
    }

    constructor (dict: seq<string>)
      ensures Valid() && this.dict == dict && fresh(nodes.Values)
    {
      hide Planted, Staged, InTrie;
      this.dict := dict;
      root := new BorNode("");
      nodes := map[];
      new;
      root.failNode := root;
      nodes := PlantAll(root, dict);
      RootSettled(root, nodes, dict);
      PlantedPaths(nodes, dict);
      SetLinks(root, nodes, dict);
    }

    /**
     `findMatches`: the matches found are appended. The loop takes at most two turns for every character
     of the text, and what it finds is what is there, unless the dictionary has an empty word.
     */
    method FindMatches(text: string, before: seq<Match>) returns (matches: seq<Match>, ghost turns: nat)
      requires Valid()
      ensures matches == before + Reported(dict, nodes.Keys, text)
      ensures matches == before + Occurrences(dict, text) <==> "" !in dict || text == ""
      ensures turns <= 2 * |text|
    {
      hide Linked, Extend, Inherited, Fail, Staged, Reported, Occurrences, Scanning, At, IsTrie, Covers, InTrie;
      var cur: BorNode := root;
      var i := 0;
      matches, turns := before, 0;
      ghost var keys, found := nodes.Keys, [];
      TrieOf(nodes, dict);
      ScanStart(dict, keys, text);
      NoneFound(before);
      while i < |text|
        invariant i <= |text| && IsNode(nodes, cur) && matches == before + found
        invariant Scanning(dict, keys, text, i, cur.path, found)
        invariant turns + |cur.path| <= 2 * i
        decreases 2 * |text| - 2 * i + |cur.path|
      {
        turns := turns + 1;
        LinkOf(nodes, dict, keys, cur);
        ChildrenAre(nodes, cur, text[i]);
        if text[i] in cur.children {
          ScanHit(dict, keys, text, i, cur.path, found);
          cur := cur.children[text[i]];
          LinkOf(nodes, dict, keys, cur);
        } else {
          ScanMiss(dict, keys, text, i, cur.path, found);
          if cur == cur.failNode {
            i := i + 1;
          }
          cur := cur.failNode;
          continue;
        }
        Appended(before, found, At(cur.matches, i + 1));
        matches := matches + At(cur.matches, i + 1);
        found := found + At(cur.matches, i + 1);
        i := i + 1;
      }
      ScanEnd(dict, keys, text, cur.path, found);
      Exactness(dict, keys, text);
      SamePrefix(before, found, Occurrences(dict, text));
    }
  }

  lemma Appended(a: seq<Match>, b: seq<Match>, c: seq<Match>)
    ensures a + b + c == a + (b + c)
  {}

  lemma NoneFound(a: seq<Match>)
    ensures a + [] == a
  {}

  lemma SamePrefix(a: seq<Match>, b: seq<Match>, c: seq<Match>)
    ensures a + b == a + c <==> b == c
  {
    assert b == (a + b)[|a|..] && c == (a + c)[|a|..];
  }

  lemma RootAlone(root: BorNode, nodes: map<string, BorNode>)
    requires root.path == "" && root.children == map[] && root.matches == [] && nodes == map["" := root]
    ensures Planted(nodes, [])
  {}

  lemma OneMoreWord(dict: seq<string>, i: nat)
    requires i < |dict|
    ensures forall p :: InTrie(dict[..i + 1], p) <==> InTrie(dict[..i], p) || Between("", p, dict[i])
    ensures forall p :: Own(dict[..i + 1], p) == Own(dict[..i], p) + (if p == dict[i] then [p] else [])
  {
    assert dict[..i + 1][..i] == dict[..i];
  }

  lemma RootSettled(root: BorNode, nodes: map<string, BorNode>, dict: seq<string>)
    requires Planted(nodes, dict) && IsNode(nodes, root) && root.path == "" && root.failNode == root
    ensures Staged(nodes, dict, {""})
  {
    WordsInTrie(dict);
    assert Own(dict, "") + [] == Own(dict, "");
  }

  lemma TrieOf(nodes: map<string, BorNode>, dict: seq<string>)
    requires Staged(nodes, dict, nodes.Keys)
    ensures Linked(nodes) && Covers(nodes.Keys, dict) && IsTrie(nodes.Keys)
  {}
}
