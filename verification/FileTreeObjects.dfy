/** `buildTree` as it runs: nodes that are pushed into, then overwritten with rolled-up figures, in place. */
module FileTreeObjects {
  import opened Options
  import opened FileTree

  class TreeNode {
    var name: string
    var isDir: bool
    var size: nat
    var progress: real
    var priority: int
    var fileIndex: Option<nat>
    var children: seq<TreeNode>
    ghost var Repr: set<object>

    ghost predicate Valid()
      reads this, Repr
      decreases Repr, 0
    {
      && this in Repr
      && Apart(children, Repr - {this})
    }

    /** The nodes own disjoint trees inside `repr`. */
    static ghost predicate Apart(nodes: seq<TreeNode>, repr: set<object>)
      reads repr
      decreases repr, |nodes|
    {
      && (forall c :: c in nodes ==> c in repr && c.Repr <= repr && c.Valid())
      && (forall i, j :: 0 <= i < j < |nodes| ==> nodes[i].Repr !! nodes[j].Repr)
    }

    ghost function View(): Node
      requires Valid()
      reads this, Repr
      decreases Repr, 0
    {
      Node(name, isDir, size, progress, priority, fileIndex, Views(children, Repr - {this}))
    }

    static ghost function Views(nodes: seq<TreeNode>, repr: set<object>): (r: seq<Node>)
      requires Apart(nodes, repr)
      reads repr
      ensures |r| == |nodes| && forall i :: 0 <= i < |nodes| ==> r[i] == nodes[i].View()
      decreases repr, |nodes|
    {
      if nodes == [] then [] else [nodes[0].View()] + Views(nodes[1..], repr)
    }

    constructor (name: string, isDir: bool, size: nat, progress: real, priority: int, fileIndex: Option<nat>)
      ensures Valid() && fresh(Repr) && Repr == {this}
      ensures View() == Node(name, isDir, size, progress, priority, fileIndex, [])
    {
      this.name, this.isDir, this.size := name, isDir, size;
      this.progress, this.priority, this.fileIndex, children := progress, priority, fileIndex, [];
      Repr := {this};
    }

    /** `node.children.find(...)`, by the fields of the children. */
    method SearchChildren(name: string, isDir: bool) returns (k: Option<nat>)
      ensures match k
        case Some(i) => i < |children| && children[i].name == name && children[i].isDir == isDir
                        && forall j :: 0 <= j < i ==> children[j].name != name || children[j].isDir != isDir
        case None => forall j :: 0 <= j < |children| ==> children[j].name != name || children[j].isDir != isDir
    {
      var i := 0;
      while i < |children|
        invariant 0 <= i <= |children|
        invariant forall j :: 0 <= j < i ==> children[j].name != name || children[j].isDir != isDir
      {
        if children[i].name == name && children[i].isDir == isDir {
          return Some(i);
        }
        i := i + 1;
      }
      return None;
    }

    method FindChild(name: string, isDir: bool) returns (k: Option<nat>)
      requires Valid()
      ensures k == Find(View().children, name, isDir)
    {
      k := SearchChildren(name, isDir);
      ghost var views := View().children;
      forall j | 0 <= j < |children|
        ensures j < |views| && views[j].name == children[j].name && views[j].isDir == children[j].isDir
      {
        ChildView(j);
      }
      FindIs(views, name, isDir, k);
    }

    /** Take the objects its children consist of as its own. */
    ghost method Own(more: set<object>)
      requires this in Repr && this !in more && Apart(children, (Repr - {this}) + more)
      modifies this`Repr
      ensures Repr == old(Repr) + more && Valid()
      ensures View() ==
        Node(name, isDir, size, progress, priority, fileIndex, old(Views(children, (Repr - {this}) + more)))
    {
      ghost var below := (Repr - {this}) + more;
      Repr := Repr + more;
      assert Repr - {this} == below;
    }

    static lemma ApartSnoc(nodes: seq<TreeNode>, child: TreeNode, repr: set<object>)
      requires Apart(nodes, repr) && child.Valid() && child.Repr !! repr
      ensures Apart(nodes + [child], repr + child.Repr)
    {
      var all := nodes + [child];
      forall i, j | 0 <= i < j < |all| ensures all[i].Repr !! all[j].Repr {
        assert all[i] in nodes;
        if j < |nodes| { assert nodes[i].Repr !! nodes[j].Repr; }
      }
    }

    static lemma ViewsSnoc(nodes: seq<TreeNode>, child: TreeNode, repr: set<object>, larger: set<object>)
      requires Apart(nodes, repr) && Apart(nodes + [child], larger)
      ensures Views(nodes + [child], larger) == Views(nodes, repr) + [child.View()]
    {}

    /** `node.children.push(child)`. */
    method Push(child: TreeNode)
      requires Valid() && child.Valid() && child.Repr !! Repr
      modifies this`children, this`Repr
      ensures Valid() && Repr == old(Repr) + child.Repr
      ensures View() == old(View()).(children := old(View().children) + [child.View()])
    {
      ghost var below := Repr - {this};
      ApartSnoc(children, child, below);
      ViewsSnoc(children, child, below, below + child.Repr);
      children := children + [child];
      Own(child.Repr);
    }

    /** Two different children have nothing in common. */
    lemma SiblingsApart(i: nat, k: nat)
      requires Valid() && i < |children| && k < |children| && i != k
      ensures children[i].Valid() && children[k].Valid() && children[i] in children[i].Repr
      ensures children[i].Repr !! children[k].Repr && this !in children[i].Repr && this !in children[k].Repr
    {}

    /** Walk the rest of a path down from child `k`; its siblings are left alone. */
    method DescendChild(k: nat, parts: seq<string>, file: File, index: nat)
      requires Valid() && k < |children| && forall i :: 0 <= i < |children| ==> children[i].Valid()
      modifies children[k].Repr
      ensures unchanged(this) && fresh(children[k].Repr - old(children[k].Repr))
      ensures Separate(children) && this !in children[k].Repr
      ensures forall i :: 0 <= i < |children| && i != k ==>
        children[i].Repr == old(children[i].Repr) && children[i].View() == old(children[i].View())
      ensures children[k].View() ==
        old(children[k].View()).(children := Insert(old(children[k].View()).children, parts, file, index))
      decreases |parts|, 3
    {
      var child := children[k];
      forall i | 0 <= i < |children| && i != k
        ensures children[i].Valid() && children[i] in children[i].Repr && children[i].Repr !! child.Repr
        ensures this !in child.Repr
      {
        SiblingsApart(i, k);
      }
      assert child in children;
      child.Descend(parts, file, index);
    }

    /** Valid trees that have nothing in common. */
    static ghost predicate Separate(nodes: seq<TreeNode>)
      reads nodes, set c, o | c in nodes && o in c.Repr :: o
    {
      && (forall i :: 0 <= i < |nodes| ==> nodes[i].Valid())
      && (forall i, j :: 0 <= i < j < |nodes| ==> nodes[i].Repr !! nodes[j].Repr)
    }

    static lemma SeparateApart(nodes: seq<TreeNode>, repr: set<object>)
      requires Separate(nodes) && forall i :: 0 <= i < |nodes| ==> nodes[i] in repr && nodes[i].Repr <= repr
      ensures Apart(nodes, repr)
    {}

    static lemma ViewsUpdated(nodes: seq<TreeNode>, k: nat, before: seq<Node>, repr: set<object>)
      requires Apart(nodes, repr) && k < |nodes| == |before|
      requires forall i :: 0 <= i < |nodes| && i != k ==> nodes[i].View() == before[i]
      ensures Views(nodes, repr) == before[k := nodes[k].View()]
    {}

    /** Walk the rest of a path down into child `k`, and own what it has created. */
    method DescendInto(k: nat, parts: seq<string>, file: File, index: nat)
      requires Valid() && k < |children|
      modifies Repr
      ensures Valid() && fresh(Repr - old(Repr))
      ensures View() == old(View()).(children := old(View().children)[k :=
        old(View().children[k]).(children := Insert(old(View().children[k].children), parts, file, index))])
      decreases |parts|, 4
    {
      ghost var was, below := View(), Repr - {this};
      forall i | 0 <= i < |children|
        ensures children[i].Valid() && children[i].View() == was.children[i] && children[i] in below && children[i].Repr <= below
      {
        assert children[i] in children;
      }
      DescendChild(k, parts, file, index);
      ghost var larger, grown := below + children[k].Repr, children[k].View();
      assert grown == was.children[k].(children := Insert(was.children[k].children, parts, file, index));
      SeparateApart(children, larger);
      ViewsUpdated(children, k, was.children, larger);
      Own(children[k].Repr);
    }

    /** The node for the first part of a path nobody has walked, with the rest of the path below it. */
    static method Create(parts: seq<string>, file: File, index: nat) returns (child: TreeNode)
      requires parts != []
      ensures child.Valid() && fresh(child.Repr)
      ensures child.View() == NewNode(parts, file, index).(children := Insert([], parts[1..], file, index))
      decreases |parts|, 0
    {
      if |parts| == 1 {
        child := new TreeNode(parts[0], false, file.size, file.progress, file.priority, Some(index));
      } else {
        child := new TreeNode(parts[0], true, 0, 0.0, -1, None);
      }
      child.Descend(parts[1..], file, index);
    }

    /** Nobody has walked this way before: push a new child with the rest of the path below it. */
    method DescendNew(parts: seq<string>, file: File, index: nat)
      requires Valid() && parts != []
      modifies this`children, this`Repr
      ensures Valid() && fresh(Repr - old(Repr))
      ensures View() == old(View()).(children := old(View().children) +
        [NewNode(parts, file, index).(children := Insert([], parts[1..], file, index))])
      decreases |parts|, 1
    {
      var child := Create(parts, file, index);
      Push(child);
    }

    /** Walk one file down from this folder, creating what is missing, as the inner `forEach` does. */
    method Descend(parts: seq<string>, file: File, index: nat)
      requires Valid()
      modifies Repr
      ensures Valid() && fresh(Repr - old(Repr))
      ensures View() == old(View()).(children := Insert(old(View().children), parts, file, index))
      decreases |parts|, 2
    {
      if parts == [] {
        return;
      }
      var found := FindChild(parts[0], |parts| > 1);
      InsertUnfolds(View().children, parts, file, index);
      if found.None? {
        DescendNew(parts, file, index);
      } else {
        DescendInto(found.value, parts[1..], file, index);
      }
    }

    /** `sumStats`: roll the children up, then overwrite this folder's figures. */
    method SumStats()
      requires Valid()
      modifies Repr
      ensures Repr == old(Repr) && Valid()
      ensures View() == RollUp(old(View()))
      decreases Repr, 2
    {
      if !isDir {
        return;
      }
      SumChildren();
      SumOwn();
    }

    /** `n.children.forEach(sumStats)`. */
    method SumChildren()
      requires Valid()
      modifies Repr - {this}
      ensures Valid() && unchanged(this)
      ensures View() == old(View()).(children := RollUpAll(old(View().children)))
      decreases Repr, 1
    {
      var i := 0;
      ghost var before := View().children;
      while i < |children|
        invariant 0 <= i <= |children| && unchanged(this) && Valid()
        invariant |View().children| == |before|
        invariant forall j :: 0 <= j < |before| ==> View().children[j] == if j < i then RollUp(before[j]) else before[j]
      {
        SumChild(i);
        i := i + 1;
      }
      RollUpPointwise(before);
      assert View().children == RollUpAll(before);
    }

    method SumChild(i: nat)
      requires Valid() && i < |children|
      modifies Repr - {this}
      ensures Valid() && unchanged(this)
      ensures View().children == old(View().children)[i := RollUp(old(View().children[i]))]
      decreases Repr, 0
    {
      var child := children[i];
      assert child in children;
      forall j | 0 <= j < |children| && j != i
        ensures children[j].Valid() && children[j] in children[j].Repr && children[j].Repr !! child.Repr
      {
        SiblingsApart(j, i);
      }
      child.SumStats();
      forall j | 0 <= j < |children| && j != i
        ensures children[j].Repr == old(children[j].Repr) && children[j].Valid() && children[j].View() == old(children[j].View())
      {
      }
      assert Apart(children, Repr - {this});
    }

    /** A child and its place in the view. */
    lemma ChildView(i: nat)
      requires Valid() && i < |children|
      ensures |View().children| == |children| && View().children[i].size == children[i].size
      ensures View().children[i].progress == children[i].progress
      ensures View().children[i].priority == children[i].priority
      ensures View().children[i].name == children[i].name && View().children[i].isDir == children[i].isDir
    {}

    method ReduceSizes() returns (total: nat)
      requires Valid()
      ensures total == SizeOf(View().children)
    {
      ghost var views := View().children;
      total := 0;
      var i := 0;
      while i < |children|
        invariant 0 <= i <= |children| && total == SizeOf(views[..i])
      {
        ChildView(i);
        SumsStep(views, i);
        total := total + children[i].size;
        i := i + 1;
      }
      assert views[..|views|] == views;
    }

    method ReduceWeights() returns (weighted: real)
      requires Valid()
      ensures weighted == WeightOf(View().children)
    {
      ghost var views := View().children;
      weighted := 0.0;
      var i := 0;
      while i < |children|
        invariant 0 <= i <= |children| && weighted == WeightOf(views[..i])
      {
        ChildView(i);
        SumsStep(views, i);
        var size, progress := children[i].size, children[i].progress;
        assert size == views[i].size && progress == views[i].progress;
        weighted := weighted + size as real * progress;
        i := i + 1;
      }
      assert views[..|views|] == views;
    }

    method ReduceProgress() returns (sum: real)
      requires Valid()
      ensures sum == ProgressSum(View().children)
    {
      ghost var views := View().children;
      sum := 0.0;
      var i := 0;
      while i < |children|
        invariant 0 <= i <= |children| && sum == ProgressSum(views[..i])
      {
        ChildView(i);
        SumsStep(views, i);
        sum := sum + children[i].progress;
        i := i + 1;
      }
      assert views[..|views|] == views;
    }

    /** `priorities.every((p) => p === priorities[0])`. */
    method SamePriority() returns (same: bool)
      requires Valid()
      ensures var views := View().children;
        same <==> forall j :: 0 <= j < |views| ==> views[j].priority == views[0].priority
    {
      ghost var views := View().children;
      same := true;
      var i := 0;
      while i < |children|
        invariant 0 <= i <= |children|
        invariant same <==> forall j :: 0 <= j < i ==> views[j].priority == views[0].priority
      {
        ChildView(0);
        ChildView(i);
        same := same && children[i].priority == children[0].priority;
        i := i + 1;
      }
    }

    /** This folder's size, progress and priority from its children's. */
    method Figures() returns (total: nat, average: real, common: int)
      requires Valid()
      ensures Stats(View()) == View().(size := total, progress := average, priority := common)
    {
      ghost var view := View();
      total := ReduceSizes();
      var weighted := ReduceWeights();
      var sum := ReduceProgress();
      var same := SamePriority();
      if |children| > 0 { ChildView(0); }
      average := if total > 0 then weighted / total as real
                 else if |children| > 0 then sum / |children| as real else 0.0;
      common := if |children| > 0 && same then children[0].priority else -1;
      FiguresAreStats(view, average, common, same);
    }

    method SetFigures(total: nat, average: real, common: int)
      requires Valid()
      modifies this`size, this`progress, this`priority
      ensures Valid() && View() == old(View()).(size := total, progress := average, priority := common)
    {
      ghost var before := View();
      size, progress, priority := total, average, common;
      forall i | 0 <= i < |children| ensures children[i].Valid() && children[i].View() == before.children[i] {
        assert children[i] in children;
      }
      assert View().children == before.children;
    }

    method SumOwn()
      requires Valid()
      modifies this`size, this`progress, this`priority
      ensures Valid() && View() == Stats(old(View()))
    {
      var total, average, common := Figures();
      SetFigures(total, average, common);
    }
  }

  /** Only the first child of that name and kind is found. */
  lemma FindIs(views: seq<Node>, name: string, isDir: bool, k: Option<nat>)
    requires match k
      case Some(i) => i < |views| && views[i].name == name && views[i].isDir == isDir
                      && forall j :: 0 <= j < i ==> views[j].name != name || views[j].isDir != isDir
      case None => forall j :: 0 <= j < |views| ==> views[j].name != name || views[j].isDir != isDir
    ensures k == Find(views, name, isDir)
  {
    FindSound(views, name, isDir);
  }

  lemma FiguresAreStats(view: Node, average: real, common: int, same: bool)
    requires var total := SizeOf(view.children);
      average == if total > 0 then WeightOf(view.children) / total as real
                 else if |view.children| > 0 then ProgressSum(view.children) / |view.children| as real else 0.0
    requires var kids := view.children;
      && (same <==> forall j :: 0 <= j < |kids| ==> kids[j].priority == kids[0].priority)
      && common == if |kids| > 0 && same then kids[0].priority else -1
    ensures Stats(view) == view.(size := SizeOf(view.children), progress := average, priority := common)
  {}

  /** One step down a path. */
  lemma InsertUnfolds(children: seq<Node>, parts: seq<string>, file: File, index: nat)
    requires parts != []
    ensures match Find(children, parts[0], |parts| > 1)
      case None =>
        Insert(children, parts, file, index) ==
          children + [NewNode(parts, file, index).(children := Insert([], parts[1..], file, index))]
      case Some(k) =>
        && k < |children|
        && Insert(children, parts, file, index) ==
             children[k := children[k].(children := Insert(children[k].children, parts[1..], file, index))]
  {
    FindSound(children, parts[0], |parts| > 1);
  }

  lemma SumsStep(views: seq<Node>, i: nat)
    requires i < |views|
    ensures SizeOf(views[..i + 1]) == SizeOf(views[..i]) + views[i].size
    ensures WeightOf(views[..i + 1]) == WeightOf(views[..i]) + views[i].size as real * views[i].progress
    ensures ProgressSum(views[..i + 1]) == ProgressSum(views[..i]) + views[i].progress
  {
    assert views[..i + 1][..i] == views[..i];
  }

  lemma InsertAllStep(files: seq<File>, i: nat)
    requires i < |files|
    ensures InsertAll(files[..i + 1]) == Insert(InsertAll(files[..i]), Parts(files[i].path), files[i], i)
  {
    assert files[..i + 1][..i] == files[..i];
  }

  lemma {:induction false} RollUpPointwise(nodes: seq<Node>)
    ensures |RollUpAll(nodes)| == |nodes|
    ensures forall i :: 0 <= i < |nodes| ==> RollUpAll(nodes)[i] == RollUp(nodes[i])
  {
    if nodes == [] {
    } else {
      RollUpPointwise(nodes[1..]);
    }
  }

  /** `buildTree`: the roots of the mutable tree, whose values are exactly `FileTree.BuildTree(files)`. */
  method BuildTree(files: seq<File>) returns (root: TreeNode)
    ensures root.Valid() && fresh(root.Repr)
    ensures root.View().children == FileTree.BuildTree(files)
  {
    root := new TreeNode("", true, 0, 0.0, -1, None);
    var i := 0;
    while i < |files|
      invariant 0 <= i <= |files|
      invariant root.Valid() && fresh(root.Repr)
      invariant root.View().children == InsertAll(files[..i])
    {
      InsertAllStep(files, i);
      root.Descend(Parts(files[i].path), files[i], i);
      i := i + 1;
    }
    assert files[..|files|] == files;
    root.SumChildren();
  }
}
