/**
 The tree of CVS branches (scratch/rcsutil/src/revision.py). A symbol whose second to last
 number is 0 names a branch; the names are found again by walking the numbers of a revision
 until a node without children is met.
 */
module RevisionTree {

  type Path = seq<int>

  /** The branches named so far, in order. */
  type History = seq<(string, Path)>

  /** The path of a branch symbol: without the first number and without the 0. */
  predicate IsBranch(nums: seq<int>) { |nums| >= 4 && nums[|nums| - 2] == 0 }

  function BranchPath(nums: seq<int>): Path
    requires IsBranch(nums)
  {
    nums[1..|nums| - 2] + [nums[|nums| - 1]]
  }

  predicate Prefix(p: Path, q: Path) { p <= q }

  function Snoc(p: Path, num: int): Path { p + [num] }

  /** p is on the way to some branch. */
  ghost predicate InTree(h: History, p: Path) {
    p == [] || exists k :: 0 <= k < |h| && Prefix(p, h[k].1)
  }

  /** A branch without a branch behind it. */
  ghost predicate Final(h: History, p: Path) {
    (exists k :: 0 <= k < |h| && h[k].1 == p) && forall k :: 0 <= k < |h| && Prefix(p, h[k].1) ==> p == h[k].1
  }

  /** The name last given to p. */
  function LastName(h: History, p: Path): string {
    if h == [] then ""
    else if h[|h| - 1].1 == p then h[|h| - 1].0
    else LastName(h[..|h| - 1], p)
  }

  lemma SnocInjective(p: Path, m: int, q: Path, n: int)
    requires Snoc(p, m) == Snoc(q, n)
    ensures p == q && m == n
  {
    assert Snoc(p, m)[..|p|] == p && Snoc(q, n)[..|q|] == q;
    assert Snoc(p, m)[|p|] == m && Snoc(q, n)[|q|] == n;
  }

  lemma {:induction false} UnnamedOutside(h: History, p: Path)
    requires !InTree(h, p)
    ensures LastName(h, p) == ""
    decreases |h|
  {
    if h != [] {
      var front := h[..|h| - 1];
      assert h[|h| - 1].1 != p;
      assert forall k :: 0 <= k < |front| ==> front[k] == h[k];
      UnnamedOutside(front, p);
    }
  }

  lemma PrefixStep(path: Path, i: nat)
    requires i < |path|
    ensures forall p :: Prefix(p, path[..i + 1]) <==> Prefix(p, path[..i]) || p == path[..i + 1]
  {
    forall p: Path | Prefix(p, path[..i + 1]) ensures Prefix(p, path[..i]) || p == path[..i + 1] {
      if |p| <= i { assert p == path[..i + 1][..|p|] == path[..i][..|p|]; }
    }
    forall p: Path | Prefix(p, path[..i]) ensures Prefix(p, path[..i + 1]) {
      assert p == path[..i][..|p|] == path[..i + 1][..|p|];
    }
  }

  lemma AddedToHistory(h: History, name: string, path: Path)
    ensures forall p :: InTree(h + [(name, path)], p) <==> InTree(h, p) || Prefix(p, path)
    ensures forall p :: LastName(h + [(name, path)], p) == if p == path then name else LastName(h, p)
  {
    var h' := h + [(name, path)];
    assert h'[|h|] == (name, path) && h'[..|h|] == h;
    forall p: Path | InTree(h, p) || Prefix(p, path) ensures InTree(h', p) {
      if p != [] && InTree(h, p) {
        var k :| 0 <= k < |h| && Prefix(p, h[k].1);
        assert h'[k] == h[k];
      }
    }
  }

  lemma InTreePrefix(h: History, p: Path, q: Path)
    requires Prefix(p, q)
    ensures InTree(h, q) ==> InTree(h, p)
  {
    if InTree(h, q) && q != [] {
      var k :| 0 <= k < |h| && Prefix(q, h[k].1);
      assert Prefix(p, h[k].1);
    }
  }

  lemma FinalInTree(h: History, p: Path)
    ensures Final(h, p) ==> InTree(h, p)
  {
    if Final(h, p) {
      var k :| 0 <= k < |h| && h[k].1 == p;
      assert Prefix(p, h[k].1);
    }
  }

  /** What has more of the tree behind it is not final. */
  lemma BehindMeansNotFinal(h: History, p: Path, q: Path)
    requires InTree(h, q) && p < q
    ensures !Final(h, p)
  {
    var k :| 0 <= k < |h| && Prefix(q, h[k].1);
    assert Prefix(p, h[k].1);
  }

  lemma TreeBehind(h: History, p: Path, k: nat)
    requires k < |h| && Prefix(p, h[k].1)
    ensures p != h[k].1 ==> InTree(h, Snoc(p, h[k].1[|p|]))
  {
    if p != h[k].1 {
      assert Prefix(Snoc(p, h[k].1[|p|]), h[k].1);
    }
  }

  /** A node of the tree without children, above the end of q, is the only final branch on
      the way to q. */
  lemma StopsAtFinal(h: History, q: Path, i: nat)
    requires i < |q| && h != [] && InTree(h, q[..i]) && forall num :: !InTree(h, Snoc(q[..i], num))
    ensures Final(h, q[..i]) && !InTree(h, q)
    ensures forall p :: Final(h, p) && p < q ==> p == q[..i]
  {
    var p := q[..i];
    forall k | 0 <= k < |h| && Prefix(p, h[k].1) ensures p == h[k].1 { TreeBehind(h, p, k); }
    if p == [] { assert Prefix(p, h[0].1); }
    var k :| 0 <= k < |h| && Prefix(p, h[k].1);
    assert Final(h, p);
    assert Snoc(p, q[i]) == q[..i + 1];
    InTreePrefix(h, q[..i + 1], q);
    forall o | o < q && o != p ensures !Final(h, o) { OtherNotFinal(h, o, q, i); }
  }

  lemma OtherNotFinal(h: History, o: Path, q: Path, i: nat)
    requires i < |q| && InTree(h, q[..i]) && !InTree(h, q[..i + 1]) && o < q && o != q[..i]
    ensures !Final(h, o)
  {
    if |o| < i {
      assert o == q[..|o|] == q[..i][..|o|];
      BehindMeansNotFinal(h, o, q[..i]);
    } else {
      assert o == q[..|o|] && q[..i + 1] == o[..i + 1];
      InTreePrefix(h, q[..i + 1], o);
      FinalInTree(h, o);
    }
  }

  /** When q leaves the tree behind a node with children, no final branch is on its way. */
  lemma LeavesTree(h: History, q: Path, i: nat, num: int)
    requires i < |q| && InTree(h, Snoc(q[..i], num)) && !InTree(h, q[..i + 1])
    ensures !InTree(h, q) && forall p :: p < q ==> !Final(h, p)
  {
    InTreePrefix(h, q[..i + 1], q);
    InTreePrefix(h, q[..i], Snoc(q[..i], num));
    BehindMeansNotFinal(h, q[..i], Snoc(q[..i], num));
    forall p | p < q && p != q[..i] ensures !Final(h, p) { OtherNotFinal(h, p, q, i); }
  }

  /** No final branch is above another place of the tree. */
  lemma StaysInTree(h: History, q: Path)
    requires InTree(h, q)
    ensures forall p :: p < q ==> !Final(h, p)
  {
    forall p | p < q ensures !Final(h, p) { BehindMeansNotFinal(h, p, q); }
  }

  /** Branch symbols are those of the form r.0.b with at least two numbers in r. */
  lemma BranchSymbols(nums: seq<int>)
    ensures IsBranch(nums) <==> exists r, b :: |r| >= 2 && nums == r + [0, b]
  {
    if IsBranch(nums) {
      var n := |nums| - 2;
      var r, b := nums[..n], nums[n + 1];
      assert nums == r + [0, b];
    }
  }

  /** The symbol r.0.b names the branch of exactly the revisions r.b.k, and of those behind. */
  lemma SymbolOfRevisions(r: seq<int>, b: int, nums: seq<int>)
    requires |r| >= 2 && nums != [] && nums[0] == r[0]
    ensures IsBranch(r + [0, b])
    ensures BranchPath(r + [0, b]) < nums[1..] <==> r + [b] < nums
  {
    var symbol, path := r + [0, b], r[1..] + [b];
    assert symbol[1..|symbol| - 2] == r[1..] && BranchPath(symbol) == path;
    assert r + [b] == [r[0]] + path && nums == [nums[0]] + nums[1..];
    if path < nums[1..] {
      assert nums[1..][..|path|] == path;
      assert (r + [b]) == nums[..|path| + 1];
    }
    if r + [b] < nums {
      assert nums[..|path| + 1] == r + [b];
      assert nums[1..][..|path|] == nums[..|path| + 1][1..] == path;
    }
  }

  /** Once the last symbol is r.0.b and no named branch lies behind it, the name that belongs
      to a revision r.b.k is the one of this symbol. */
  lemma LastSymbolNames(h: History, name: string, r: seq<int>, b: int, nums: seq<int>)
    requires |r| >= 2 && r + [b] < nums
    requires forall k :: 0 <= k < |h| ==> !(r[1..] + [b] < h[k].1)
    ensures IsBranch(r + [0, b])
    ensures var h', p := h + [(name, BranchPath(r + [0, b]))], BranchPath(r + [0, b]);
      Final(h', p) && p < nums[1..] && LastName(h', p) == name
  {
    assert nums[0] == (r + [b])[0] == r[0];
    SymbolOfRevisions(r, b, nums);
    var symbol := r + [0, b];
    var p := BranchPath(symbol);
    assert symbol[1..|symbol| - 2] == r[1..] && p == r[1..] + [b];
    var h' := h + [(name, p)];
    AddedToHistory(h, name, p);
    assert h'[|h|].1 == p;
    forall k | 0 <= k < |h'| && Prefix(p, h'[k].1) ensures p == h'[k].1 {
      if k < |h| { assert h'[k] == h[k]; }
    }
  }

  lemma SomeElement<T>(s: set<T>) returns (x: T)
    requires |s| != 0
    ensures x in s
  {
    x :| x in s;
  }

  datatype Answer = Name(name: string) | Nothing | NotOne | NoBranch

  class Node {
    const num: int
    var children: map<int, Node>
    var branchName: string

    constructor (num: int)
      ensures this.num == num && children == map[] && branchName == ""
    {
      this.num, children, branchName := num, map[], "";
    }
  }

  class RevisionTree {
    const root: Node
    ghost var nodes: map<Path, Node>
    ghost var history: History

    constructor ()
      ensures Valid() && history == [] && fresh(nodes.Values)
    {
      root := new Node(1);
      new;
      nodes := map[[] := root];
      history := [];
    }

    /** Every node is reached by one path; its children are the paths one longer. */
    ghost predicate Shape()
      reads this, nodes.Values
    {
      && root.num == 1 && [] in nodes && nodes[[]] == root
      && (forall p, q :: p in nodes && q in nodes && p != q ==> nodes[p] != nodes[q])
      && (forall p, num :: p in nodes && num in nodes[p].children ==>
            Snoc(p, num) in nodes && nodes[p].children[num] == nodes[Snoc(p, num)])
      && (forall p, num :: Snoc(p, num) in nodes ==> p in nodes && num in nodes[p].children)
    }

    ghost predicate Valid()
      reads this, nodes.Values
    {
      && Shape()
      && (forall p :: p in nodes <==> InTree(history, p))
      && Named()
    }

    ghost predicate Named()
      reads this, nodes.Values
    {
      forall p :: p in nodes ==> nodes[p].branchName == LastName(history, p)
    }

    /** The child for num, made if it is missing. */
    method Descend(node: Node, ghost p: Path, num: int) returns (child: Node)
      requires Shape() && p in nodes && nodes[p] == node
      modifies this`nodes, node`children
      ensures Shape() && Snoc(p, num) in nodes && nodes[Snoc(p, num)] == child
      ensures Snoc(p, num) in old(nodes) ==> nodes == old(nodes)
      ensures Snoc(p, num) !in old(nodes) ==>
                fresh(child) && child.branchName == "" && nodes == old(nodes)[Snoc(p, num) := child]
    {
      if num !in node.children {
        var made := new Node(num);
        node.children := node.children[num := made];
        nodes := nodes[Snoc(p, num) := made];
        assert forall q, n :: Snoc(q, n) == Snoc(p, num) ==> q == p && n == num by {
          forall q, n | Snoc(q, n) == Snoc(p, num) ensures q == p && n == num { SnocInjective(q, n, p, num); }
        }
        assert Snoc(p, num) != [];
      }
      child := node.children[num];
    }

    /** Adds a branch name; other symbols are ignored. */
    method AddSymbol(name: string, nums: seq<int>)
      requires Valid()
      modifies this, nodes.Values
      ensures Valid() && fresh(nodes.Values - old(nodes.Values))
      ensures history == if IsBranch(nums) then old(history) + [(name, BranchPath(nums))] else old(history)
    {
      if !(|nums| >= 4 && nums[|nums| - 2] == 0) { return; }
      var path := nums[1..|nums| - 2] + [nums[|nums| - 1]];
      var currentNode := AddPath(path);
      GiveName(currentNode, name, path);
    }

    /** The last node of the path gets the name. */
    method GiveName(node: Node, name: string, ghost path: Path)
      requires Shape() && Named() && path in nodes && nodes[path] == node
      requires forall p :: p in nodes <==> InTree(history, p) || Prefix(p, path)
      modifies this`history, node`branchName
      ensures Valid() && history == old(history) + [(name, path)]
    {
      AddedToHistory(history, name, path);
      node.branchName := name;
      history := history + [(name, path)];
    }

    /** Makes the nodes of a path that are missing and returns the last one. */
    method AddPath(path: Path) returns (currentNode: Node)
      requires Valid()
      modifies this`nodes, nodes.Values
      ensures Shape() && path in nodes && nodes[path] == currentNode
      ensures fresh(nodes.Values - old(nodes.Values))
      ensures forall p :: p in nodes <==> InTree(history, p) || Prefix(p, path)
      ensures Named()
    {
      currentNode := root;
      for i := 0 to |path|
        invariant Shape() && path[..i] in nodes && nodes[path[..i]] == currentNode
        invariant fresh(nodes.Values - old(nodes.Values))
        invariant forall p :: p in nodes <==> InTree(history, p) || Prefix(p, path[..i])
        invariant Named()
      {
        currentNode := AddNode(currentNode, path, i);
      }
      assert path[..|path|] == path;
    }

    method AddNode(node: Node, path: Path, i: nat) returns (child: Node)
      requires i < |path| && Shape() && Named() && path[..i] in nodes && nodes[path[..i]] == node
      requires forall p :: p in nodes <==> InTree(history, p) || Prefix(p, path[..i])
      modifies this`nodes, node`children
      ensures Shape() && Named() && path[..i + 1] in nodes && nodes[path[..i + 1]] == child
      ensures forall p :: p in nodes <==> InTree(history, p) || Prefix(p, path[..i + 1])
      ensures fresh(nodes.Values - old(nodes.Values))
    {
      ghost var next := path[..i + 1];
      assert next == Snoc(path[..i], path[i]);
      if next !in nodes { UnnamedOutside(history, next); }
      PrefixStep(path, i);
      child := Descend(node, path[..i], path[i]);
    }

    /** Walks the numbers until a node without children is met. */
    method GetBranchName(nums: seq<int>) returns (r: Answer)
      requires Valid() && nums != []
      ensures r == NotOne <==> nums[0] != 1
      ensures nums[0] == 1 && history == [] ==> r == if |nums| == 1 then Nothing else Name("")
      ensures nums[0] == 1 && history != [] ==>
                && (r.Name? <==> exists p :: Final(history, p) && p < nums[1..])
                && (forall p :: Final(history, p) && p < nums[1..] ==> r == Name(LastName(history, p)))
                && (r == Nothing <==> InTree(history, nums[1..]))
    {
      var node := root;
      if nums[0] != node.num { return NotOne; }
      var q := nums[1..];
      for i := 0 to |q|
        invariant q[..i] in nodes && nodes[q[..i]] == node
      {
        if history == [] {
          assert forall num :: !InTree(history, Snoc(q[..i], num));
          assert forall num :: num !in node.children;
        }
        if |node.children.Keys| == 0 {
          if history != [] {
            forall num ensures !InTree(history, Snoc(q[..i], num)) { assert num !in node.children; }
            StopsAtFinal(history, q, i);
          }
          return Name(node.branchName);
        }
        assert q[..i + 1] == Snoc(q[..i], q[i]);
        if q[i] !in node.children {
          if history != [] {
            var num := SomeElement(node.children.Keys);
            LeavesTree(history, q, i, num);
          }
          return NoBranch;
        }
        node := node.children[q[i]];
      }
      assert q[..|q|] == q;
      StaysInTree(history, q);
      return Nothing;
    }
  }

  /** A branch symbol, then the name of a revision on the branch: from r.0.b to r.b.k. */
  method NameOfNewBranch(tree: RevisionTree, name: string, r: seq<int>, b: int, nums: seq<int>) returns (a: Answer)
    requires tree.Valid() && |r| >= 2 && r[0] == 1 && r + [b] < nums
    requires forall k :: 0 <= k < |tree.history| ==> !(r[1..] + [b] < tree.history[k].1)
    modifies tree, tree.nodes.Values
    ensures a == Name(name)
  {
    LastSymbolNames(tree.history, name, r, b, nums);
    assert nums[0] == (r + [b])[0] == 1;
    tree.AddSymbol(name, r + [0, b]);
    a := tree.GetBranchName(nums);
  }
}
