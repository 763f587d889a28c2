/**
 The folder tree of src/utils/filetree.ts on values: inserting a file along its path, rolling folder statistics up,
 and the helpers over the finished tree. `FileTreeObjects.dfy` builds it by mutation.
 */
module FileTree {
  import opened Options

  datatype File = File(path: string, size: nat, progress: real, priority: int)

  datatype Node = Node(
    name: string, isDir: bool, size: nat, progress: real, priority: int, fileIndex: Option<nat>, children: seq<Node>)

  // --- Paths ------------------------------------------------------------------

  function CutAt(path: string): (i: nat)
    ensures i <= |path| && '/' !in path[..i] && (i < |path| ==> path[i] == '/')
  {
    if path == "" || path[0] == '/' then 0 else 1 + CutAt(path[1..])
  }

  /** `path.split("/").filter(Boolean)`. */
  function Parts(path: string): seq<string>
    decreases |path|
  {
    var i := CutAt(path);
    (if i > 0 then [path[..i]] else []) + (if i < |path| then Parts(path[i + 1..]) else [])
  }

  // --- Building ---------------------------------------------------------------

  /** The first child with this name and kind. */
  function Find(children: seq<Node>, name: string, isDir: bool): Option<nat> {
    if children == [] then None
    else if children[0].name == name && children[0].isDir == isDir then Some(0)
    else
      match Find(children[1..], name, isDir)
      case None => None
      case Some(k) => Some(k + 1)
  }

  lemma {:induction false} FindSound(children: seq<Node>, name: string, isDir: bool)
    ensures match Find(children, name, isDir)
      case Some(k) => k < |children| && children[k].name == name && children[k].isDir == isDir
                      && forall j :: 0 <= j < k ==> children[j].name != name || children[j].isDir != isDir
      case None => forall j :: 0 <= j < |children| ==> children[j].name != name || children[j].isDir != isDir
  {
    if children == [] {
    } else {
      FindSound(children[1..], name, isDir);
    }
  }

  function NewNode(parts: seq<string>, file: File, index: nat): Node
    requires parts != []
  {
    if |parts| == 1 then Node(parts[0], false, file.size, file.progress, file.priority, Some(index), [])
    else Node(parts[0], true, 0, 0.0, -1, None, [])
  }

  /** One file walked down from `children`, creating what is missing on the way. */
  function Insert(children: seq<Node>, parts: seq<string>, file: File, index: nat): seq<Node>
    decreases |parts|
  {
    if parts == [] then children
    else
      FindSound(children, parts[0], |parts| > 1);
      match Find(children, parts[0], |parts| > 1)
      case None =>
        var made := NewNode(parts, file, index);
        children + [made.(children := Insert([], parts[1..], file, index))]
      case Some(k) => children[k := children[k].(children := Insert(children[k].children, parts[1..], file, index))]
  }

  function InsertAll(files: seq<File>): seq<Node> {
    if files == [] then []
    else
      var last := |files| - 1;
      Insert(InsertAll(files[..last]), Parts(files[last].path), files[last], last)
  }

  // --- Rolling up -------------------------------------------------------------

  function SizeOf(nodes: seq<Node>): nat {
    if nodes == [] then 0 else SizeOf(nodes[..|nodes| - 1]) + nodes[|nodes| - 1].size
  }

  function Weight(n: Node): real {
    n.size as real * n.progress
  }

  function WeightOf(nodes: seq<Node>): real {
    if nodes == [] then 0.0 else WeightOf(nodes[..|nodes| - 1]) + Weight(nodes[|nodes| - 1])
  }

  function ProgressSum(nodes: seq<Node>): real {
    if nodes == [] then 0.0 else ProgressSum(nodes[..|nodes| - 1]) + nodes[|nodes| - 1].progress
  }

  /** A folder's statistics from its children's, once those are final. */
  function Stats(n: Node): Node {
    var size := SizeOf(n.children);
    var progress :=
      if size > 0 then WeightOf(n.children) / size as real
      else if n.children != [] then ProgressSum(n.children) / |n.children| as real
      else 0.0;
    var priority :=
      if n.children != [] && forall c :: c in n.children ==> c.priority == n.children[0].priority
      then n.children[0].priority else -1;
    n.(size := size, progress := progress, priority := priority)
  }

  /** `sumStats`: children first, then the folder. */
  function RollUp(n: Node): Node
    decreases n
  {
    if !n.isDir then n else Stats(n.(children := RollUpAll(n.children)))
  }

  function RollUpAll(nodes: seq<Node>): seq<Node>
    decreases nodes
  {
    if nodes == [] then [] else [RollUp(nodes[0])] + RollUpAll(nodes[1..])
  }

  function BuildTree(files: seq<File>): seq<Node> {
    RollUpAll(InsertAll(files))
  }

  // --- Helpers over a tree ----------------------------------------------------

  function LeafIndexes(n: Node): seq<nat>
    decreases n
  {
    if !n.isDir then (if n.fileIndex.Some? then [n.fileIndex.value] else []) else AllLeafIndexes(n.children)
  }

  function AllLeafIndexes(nodes: seq<Node>): seq<nat>
    decreases nodes
  {
    if nodes == [] then [] else LeafIndexes(nodes[0]) + AllLeafIndexes(nodes[1..])
  }

  datatype TriState = Checked | Unchecked | Indeterminate

  function CountIn(indexes: seq<nat>, selected: set<nat>): nat {
    if indexes == [] then 0
    else (if indexes[0] in selected then 1 else 0) + CountIn(indexes[1..], selected)
  }

  function FolderState(n: Node, selected: set<nat>): TriState {
    var indexes := LeafIndexes(n);
    var on := CountIn(indexes, selected);
    if indexes == [] || on == 0 then Unchecked
    else if on == |indexes| then Checked
    else Indeterminate
  }

  function SelectedSize(files: seq<File>, selected: set<nat>): nat {
    if files == [] then 0
    else SelectedSize(files[..|files| - 1], selected)
         + if |files| - 1 in selected then files[|files| - 1].size else 0
  }
}
