/** What the tree keeps of the files, and how a folder's figures relate to the leaves below it. */
module FileTreeLaws {
  import opened Options
  import opened FileTree
  import opened Sequences

  /** A leaf with the names on the way down to it. */
  datatype Entry = Entry(path: seq<string>, index: nat, size: nat, progress: real, priority: int)

  function Below(name: string, entries: seq<Entry>): seq<Entry> {
    seq(|entries|, i requires 0 <= i < |entries| => entries[i].(path := [name] + entries[i].path))
  }

  function NodeEntries(n: Node): seq<Entry>
    decreases n
  {
    if n.isDir then Below(n.name, Entries(n.children))
    else if n.fileIndex.Some? then [Entry([n.name], n.fileIndex.value, n.size, n.progress, n.priority)]
    else []
  }

  function Entries(nodes: seq<Node>): seq<Entry>
    decreases nodes
  {
    if nodes == [] then [] else NodeEntries(nodes[0]) + Entries(nodes[1..])
  }

  function EntryOf(file: File, index: nat): Entry {
    Entry(Parts(file.path), index, file.size, file.progress, file.priority)
  }

  ghost predicate HasPath(entries: seq<Entry>, path: seq<string>) {
    exists i :: 0 <= i < |entries| && entries[i].path == path
  }

  /** Leaves carry an index and nothing below; folders carry no index, are not empty, and no two siblings collide. */
  ghost predicate WellFormed(nodes: seq<Node>)
    decreases nodes
  {
    && (forall i, j :: 0 <= i < j < |nodes| ==> nodes[i].name != nodes[j].name || nodes[i].isDir != nodes[j].isDir)
    && forall n :: n in nodes ==> NodeWellFormed(n)
  }

  ghost predicate NodeWellFormed(n: Node)
    decreases n
  {
    if n.isDir then n.fileIndex.None? && n.children != [] && WellFormed(n.children)
    else n.fileIndex.Some? && n.children == []
  }

  // --- Entries ----------------------------------------------------------------

  lemma {:induction false} EntriesAppend(a: seq<Node>, b: seq<Node>)
    ensures Entries(a + b) == Entries(a) + Entries(b)
  {
    if a == [] {
      assert a + b == b;
    } else {
      EntriesAppend(a[1..], b);
      assert (a + b)[0] == a[0] && (a + b)[1..] == a[1..] + b;
      Associative(NodeEntries(a[0]), Entries(a[1..]), Entries(b));
    }
  }

  lemma EntriesOne(n: Node)
    ensures Entries([n]) == NodeEntries(n)
  {}

  lemma {:induction false} EntriesAt(nodes: seq<Node>, k: nat)
    requires k < |nodes|
    ensures Entries(nodes) == Entries(nodes[..k]) + NodeEntries(nodes[k]) + Entries(nodes[k + 1..])
  {
    var left, node, right := nodes[..k], nodes[k], nodes[k + 1..];
    assert nodes == (left + [node]) + right;
    EntriesAppend(left + [node], right);
    EntriesAppend(left, [node]);
    EntriesOne(node);
  }

  /** Every entry comes from one of the nodes. */
  lemma {:induction false} EntryFromNode(nodes: seq<Node>, e: Entry) returns (k: nat)
    requires e in Entries(nodes)
    ensures k < |nodes| && e in NodeEntries(nodes[k])
  {
    if e in NodeEntries(nodes[0]) {
      k := 0;
    } else {
      var j := EntryFromNode(nodes[1..], e);
      k := j + 1;
    }
  }

  lemma {:induction false} PathsNonEmpty(n: Node, e: Entry)
    requires e in NodeEntries(n)
    ensures e.path != [] && e.path[0] == n.name && (n.isDir <==> |e.path| > 1)
    decreases n
  {
    if n.isDir {
      var below := Entries(n.children);
      var i :| 0 <= i < |below| && e == below[i].(path := [n.name] + below[i].path);
      assert below[i] in below;
      var k := EntryFromNode(n.children, below[i]);
      PathsNonEmpty(n.children[k], below[i]);
    }
  }

  // --- Inserting one file -----------------------------------------------------

  /** `after` is `before` with `e` put in somewhere. */
  ghost predicate Inserted(before: seq<Entry>, after: seq<Entry>, e: Entry) {
    exists k :: 0 <= k <= |before| && after == before[..k] + [e] + before[k..]
  }

  lemma InsertedBetween(left: seq<Entry>, before: seq<Entry>, after: seq<Entry>, right: seq<Entry>, e: Entry)
    requires Inserted(before, after, e)
    ensures Inserted(left + before + right, left + after + right, e)
  {
    var k :| 0 <= k <= |before| && after == before[..k] + [e] + before[k..];
    var whole := left + before + right;
    assert whole[..|left| + k] == left + before[..k];
    assert whole[|left| + k..] == before[k..] + right;
    assert left + after + right == whole[..|left| + k] + [e] + whole[|left| + k..];
  }

  lemma InsertedBelow(name: string, before: seq<Entry>, after: seq<Entry>, e: Entry)
    requires Inserted(before, after, e)
    ensures Inserted(Below(name, before), Below(name, after), e.(path := [name] + e.path))
  {
    var k :| 0 <= k <= |before| && after == before[..k] + [e] + before[k..];
    assert Below(name, after) == Below(name, before)[..k] + [e.(path := [name] + e.path)] + Below(name, before)[k..];
  }

  lemma {:induction false} NoSuchPath(nodes: seq<Node>, parts: seq<string>)
    requires parts != []
    requires forall j :: 0 <= j < |nodes| ==> nodes[j].name != parts[0] || nodes[j].isDir != (|parts| > 1)
    ensures !HasPath(Entries(nodes), parts)
  {
    if HasPath(Entries(nodes), parts) {
      var i :| 0 <= i < |Entries(nodes)| && Entries(nodes)[i].path == parts;
      var k := EntryFromNode(nodes, Entries(nodes)[i]);
      PathsNonEmpty(nodes[k], Entries(nodes)[i]);
      assert false;
    }
  }

  /** Under unique siblings a longer path exists exactly if its rest exists in the folder its first name leads to. */
  lemma {:induction false} PathThrough(nodes: seq<Node>, k: nat, parts: seq<string>)
    requires WellFormed(nodes) && k < |nodes| && nodes[k].isDir && |parts| > 1 && nodes[k].name == parts[0]
    ensures HasPath(Entries(nodes), parts) <==> HasPath(Entries(nodes[k].children), parts[1..])
  {
    if HasPath(Entries(nodes), parts) { PathGoesThrough(nodes, k, parts); }
    if HasPath(Entries(nodes[k].children), parts[1..]) { PathComesThrough(nodes, k, parts); }
  }

  lemma {:induction false} PathGoesThrough(nodes: seq<Node>, k: nat, parts: seq<string>)
    requires WellFormed(nodes) && k < |nodes| && nodes[k].isDir && |parts| > 1 && nodes[k].name == parts[0]
    requires HasPath(Entries(nodes), parts)
    ensures HasPath(Entries(nodes[k].children), parts[1..])
  {
    var i :| 0 <= i < |Entries(nodes)| && Entries(nodes)[i].path == parts;
    var e := Entries(nodes)[i];
    var m := EntryFromNode(nodes, e);
    PathsNonEmpty(nodes[m], e);
    assert m == k;
    var below := Entries(nodes[k].children);
    var j :| 0 <= j < |below| && e == below[j].(path := [parts[0]] + below[j].path);
    assert below[j].path == parts[1..];
  }

  lemma PathComesThrough(nodes: seq<Node>, k: nat, parts: seq<string>)
    requires k < |nodes| && nodes[k].isDir && |parts| > 1 && nodes[k].name == parts[0]
    requires HasPath(Entries(nodes[k].children), parts[1..])
    ensures HasPath(Entries(nodes), parts)
  {
    var left, node, right := Entries(nodes[..k]), NodeEntries(nodes[k]), Entries(nodes[k + 1..]);
    EntriesAt(nodes, k);
    var below := Entries(nodes[k].children);
    var j :| 0 <= j < |below| && below[j].path == parts[1..];
    assert [parts[0]] + parts[1..] == parts;
    assert node[j].path == parts && (left + node + right)[|left| + j] == node[j];
  }

  /** A file adds exactly its own leaf at its own path - unless the path is empty or already taken. */
  lemma {:induction false} InsertAddsEntry(nodes: seq<Node>, parts: seq<string>, file: File, index: nat)
    requires WellFormed(nodes)
    ensures var after := Insert(nodes, parts, file, index);
      var e := Entry(parts, index, file.size, file.progress, file.priority);
      && WellFormed(after)
      && (parts != [] ==> after != [])
      && if parts == [] || HasPath(Entries(nodes), parts) then Entries(after) == Entries(nodes)
         else Inserted(Entries(nodes), Entries(after), e)
    decreases |parts|
  {
    if parts != [] {
      FindSound(nodes, parts[0], |parts| > 1);
      match Find(nodes, parts[0], |parts| > 1)
      case None => InsertCreates(nodes, parts, file, index);
      case Some(k) => InsertDescends(nodes, k, parts, file, index);
    }
  }

  lemma {:induction false} InsertCreates(nodes: seq<Node>, parts: seq<string>, file: File, index: nat)
    requires WellFormed(nodes) && parts != [] && Find(nodes, parts[0], |parts| > 1).None?
    ensures var after := Insert(nodes, parts, file, index);
      && WellFormed(after) && after != []
      && !HasPath(Entries(nodes), parts)
      && Inserted(Entries(nodes), Entries(after), Entry(parts, index, file.size, file.progress, file.priority))
    decreases |parts|, 0
  {
    var e := Entry(parts, index, file.size, file.progress, file.priority);
    FindSound(nodes, parts[0], |parts| > 1);
    NoSuchPath(nodes, parts);
    InsertAddsEntry([], parts[1..], file, index);
    var below := Insert([], parts[1..], file, index);
    var made := NewNode(parts, file, index).(children := below);
    MadeEntries(parts, file, index, below);
    EntriesAppend(nodes, [made]);
    EntriesOne(made);
    InsertedLast(Entries(nodes), e);
    SnocWellFormed(nodes, made);
  }

  /** A new node has one entry: the leaf of the file it was made for. */
  lemma MadeEntries(parts: seq<string>, file: File, index: nat, below: seq<Node>)
    requires parts != []
    requires |parts| > 1 ==>
      Inserted([], Entries(below), Entry(parts[1..], index, file.size, file.progress, file.priority))
    ensures NodeEntries(NewNode(parts, file, index).(children := below)) ==
      [Entry(parts, index, file.size, file.progress, file.priority)]
  {
    var e := Entry(parts, index, file.size, file.progress, file.priority);
    if |parts| > 1 {
      assert [parts[0]] + parts[1..] == parts;
      assert Entries(below) == [e.(path := parts[1..])];
      assert Below(parts[0], Entries(below)) == [e];
    } else {
      assert [parts[0]] == parts;
    }
  }

  lemma InsertedLast(before: seq<Entry>, e: Entry)
    ensures Inserted(before, before + [e], e)
  {
    assert before + [e] == before[..|before|] + [e] + before[|before|..];
  }

  lemma ReplaceWellFormed(nodes: seq<Node>, k: nat, grown: Node)
    requires WellFormed(nodes) && k < |nodes|
    requires grown.name == nodes[k].name && grown.isDir && nodes[k].isDir
    requires grown.fileIndex.None? && grown.children != [] && WellFormed(grown.children)
    ensures WellFormed(nodes[k := grown])
  {
    var after := nodes[k := grown];
    forall n | n in after ensures NodeWellFormed(n) {
      var i :| 0 <= i < |after| && after[i] == n;
      if i != k { assert nodes[i] in nodes; }
    }
  }

  lemma SnocWellFormed(nodes: seq<Node>, made: Node)
    requires WellFormed(nodes) && NodeWellFormed(made)
    requires forall j :: 0 <= j < |nodes| ==> nodes[j].name != made.name || nodes[j].isDir != made.isDir
    ensures WellFormed(nodes + [made])
  {}

  lemma {:induction false} InsertDescends(nodes: seq<Node>, k: nat, parts: seq<string>, file: File, index: nat)
    requires WellFormed(nodes) && parts != [] && Find(nodes, parts[0], |parts| > 1) == Some(k)
    ensures var after := Insert(nodes, parts, file, index);
      && WellFormed(after) && after != []
      && if HasPath(Entries(nodes), parts) then Entries(after) == Entries(nodes)
         else Inserted(Entries(nodes), Entries(after), Entry(parts, index, file.size, file.progress, file.priority))
    decreases |parts|, 0
  {
    FindSound(nodes, parts[0], |parts| > 1);
    var child := nodes[k];
    assert child in nodes;
    if |parts| == 1 {
      assert Insert(nodes, parts, file, index) == nodes;
      EntriesAt(nodes, k);
      var at := |Entries(nodes[..k])|;
      assert Entries(nodes)[at] == NodeEntries(child)[0] && Entries(nodes)[at].path == parts;
    } else {
      var below := Insert(child.children, parts[1..], file, index);
      InsertAddsEntry(child.children, parts[1..], file, index);
      PathThrough(nodes, k, parts);
      ReplaceWellFormed(nodes, k, child.(children := below));
      ReplaceEntries(nodes, k, below, Entry(parts[1..], index, file.size, file.progress, file.priority));
      assert [parts[0]] + parts[1..] == parts;
    }
  }

  /** Growing one folder by an entry, or not at all, does the same to the whole list. */
  lemma ReplaceEntries(nodes: seq<Node>, k: nat, below: seq<Node>, e: Entry)
    requires k < |nodes| && nodes[k].isDir
    ensures var after := nodes[k := nodes[k].(children := below)];
      && (Entries(below) == Entries(nodes[k].children) ==> Entries(after) == Entries(nodes))
      && (Inserted(Entries(nodes[k].children), Entries(below), e) ==>
            Inserted(Entries(nodes), Entries(after), e.(path := [nodes[k].name] + e.path)))
  {
    var child := nodes[k];
    var grown := child.(children := below);
    var after := nodes[k := grown];
    EntriesAt(nodes, k);
    EntriesAt(after, k);
    assert after[..k] == nodes[..k] && after[k + 1..] == nodes[k + 1..];
    if Inserted(Entries(child.children), Entries(below), e) {
      InsertedBelow(child.name, Entries(child.children), Entries(below), e);
      InsertedBetween(Entries(nodes[..k]), NodeEntries(child), NodeEntries(grown), Entries(nodes[k + 1..]),
                      e.(path := [child.name] + e.path));
    }
  }

  // --- Sums over entries ------------------------------------------------------

  function Indexes(entries: seq<Entry>): seq<nat> {
    seq(|entries|, i requires 0 <= i < |entries| => entries[i].index)
  }

  function SumSizes(entries: seq<Entry>): nat {
    if entries == [] then 0 else entries[0].size + SumSizes(entries[1..])
  }

  function SumWeights(entries: seq<Entry>): real {
    if entries == [] then 0.0 else entries[0].size as real * entries[0].progress + SumWeights(entries[1..])
  }

  lemma {:induction false} SumsAppend(a: seq<Entry>, b: seq<Entry>)
    ensures SumSizes(a + b) == SumSizes(a) + SumSizes(b)
    ensures SumWeights(a + b) == SumWeights(a) + SumWeights(b)
  {
    if a == [] {
      assert a + b == b;
    } else {
      SumsAppend(a[1..], b);
      assert (a + b)[0] == a[0] && (a + b)[1..] == a[1..] + b;
    }
  }

  lemma {:induction false} SumsBelow(name: string, entries: seq<Entry>)
    ensures SumSizes(Below(name, entries)) == SumSizes(entries)
    ensures SumWeights(Below(name, entries)) == SumWeights(entries)
  {
    if entries == [] {
    } else {
      SumsBelow(name, entries[1..]);
      assert Below(name, entries)[1..] == Below(name, entries[1..]);
    }
  }

  lemma {:induction false} WeightlessIfEmpty(entries: seq<Entry>)
    requires SumSizes(entries) == 0
    ensures SumWeights(entries) == 0.0
  {
    if entries == [] {
    } else {
      WeightlessIfEmpty(entries[1..]);
    }
  }

  lemma InsertedCounts(before: seq<Entry>, after: seq<Entry>, e: Entry)
    requires Inserted(before, after, e)
    ensures multiset(after) == multiset(before) + multiset{e}
    ensures multiset(Indexes(after)) == multiset(Indexes(before)) + multiset{e.index}
    ensures SumSizes(after) == SumSizes(before) + e.size
  {
    var k :| 0 <= k <= |before| && after == before[..k] + [e] + before[k..];
    var left, right := before[..k], before[k..];
    assert before == left + right;
    assert Indexes(before) == Indexes(left) + Indexes(right);
    assert Indexes(after) == Indexes(left) + [e.index] + Indexes(right);
    SumsAppend(left, right);
    SumsAppend(left + [e], right);
    SumsAppend(left, [e]);
  }

  // --- The whole build --------------------------------------------------------

  /** The files that get a leaf: those with a path, the first of each path. */
  ghost function Firsts(files: seq<File>): seq<Entry> {
    if files == [] then []
    else
      var last := |files| - 1;
      var before, e := Firsts(files[..last]), EntryOf(files[last], last);
      if e.path == [] || HasPath(before, e.path) then before else before + [e]
  }

  /** Two entry lists with the same entries, the same indexes and the same total size, in whatever order. */
  ghost predicate SameEntries(a: seq<Entry>, b: seq<Entry>) {
    && multiset(a) == multiset(b)
    && multiset(Indexes(a)) == multiset(Indexes(b))
    && SumSizes(a) == SumSizes(b)
  }

  lemma InsertedAlike(a: seq<Entry>, after: seq<Entry>, b: seq<Entry>, e: Entry)
    requires SameEntries(a, b) && Inserted(a, after, e)
    ensures SameEntries(after, b + [e])
  {
    InsertedCounts(a, after, e);
    InsertedLast(b, e);
    InsertedCounts(b, b + [e], e);
  }

  lemma {:induction false} InsertAllKeepsFirsts(files: seq<File>)
    ensures WellFormed(InsertAll(files)) && SameEntries(Entries(InsertAll(files)), Firsts(files))
  {
    if files == [] {
    } else {
      var last := |files| - 1;
      InsertAllKeepsFirsts(files[..last]);
      var nodes, firsts, e := InsertAll(files[..last]), Firsts(files[..last]), EntryOf(files[last], last);
      InsertAddsEntry(nodes, e.path, files[last], last);
      SamePaths(Entries(nodes), firsts, e.path);
      if e.path != [] && !HasPath(firsts, e.path) {
        InsertedAlike(Entries(nodes), Entries(InsertAll(files)), firsts, e);
      }
    }
  }

  lemma SamePaths(a: seq<Entry>, b: seq<Entry>, path: seq<string>)
    requires multiset(a) == multiset(b)
    ensures HasPath(a, path) <==> HasPath(b, path)
  {
    if HasPath(a, path) {
      var i :| 0 <= i < |a| && a[i].path == path;
      assert a[i] in multiset(a) && a[i] in b;
    }
    if HasPath(b, path) {
      var i :| 0 <= i < |b| && b[i].path == path;
      assert b[i] in multiset(b) && b[i] in a;
    }
  }

  /** Every file has a non-empty path and no two share one. */
  ghost predicate PathsDistinct(files: seq<File>) {
    && (forall i :: 0 <= i < |files| ==> Parts(files[i].path) != [])
    && (forall i, j :: 0 <= i < j < |files| ==> Parts(files[i].path) != Parts(files[j].path))
  }

  /** Each of them is some file's leaf, at that file's path. */
  lemma {:induction false} FirstsAreFiles(files: seq<File>)
    ensures |Firsts(files)| <= |files|
    ensures forall e :: e in Firsts(files) ==> e.index < |files| && e == EntryOf(files[e.index], e.index) && e.path != []
  {
    if files == [] {
    } else {
      var init, last := files[..|files| - 1], |files| - 1;
      FirstsAreFiles(init);
      assert forall i :: 0 <= i < last ==> init[i] == files[i];
      assert Firsts(files) == Firsts(init) || Firsts(files) == Firsts(init) + [EntryOf(files[last], last)];
    }
  }

  /** Every file with a path has its path among them. */
  lemma {:induction false} FirstsCover(files: seq<File>, i: nat)
    requires i < |files| && Parts(files[i].path) != []
    ensures HasPath(Firsts(files), Parts(files[i].path))
  {
    var last := |files| - 1;
    var before, e := Firsts(files[..last]), EntryOf(files[last], last);
    if i < last {
      FirstsCover(files[..last], i);
      var k :| 0 <= k < |before| && before[k].path == Parts(files[i].path);
      assert Firsts(files)[k].path == Parts(files[i].path);
    } else if !HasPath(before, e.path) {
      assert Firsts(files)[|before|].path == e.path;
    }
  }

  lemma PathsDistinctInit(files: seq<File>)
    requires files != []
    ensures var last := |files| - 1;
      PathsDistinct(files) <==>
        && PathsDistinct(files[..last])
        && Parts(files[last].path) != []
        && forall i :: 0 <= i < last ==> Parts(files[i].path) != Parts(files[last].path)
  {
    var last := |files| - 1;
    assert forall i :: 0 <= i < last ==> files[..last][i] == files[i];
  }

  /** All files are among them exactly if every file has a path of its own; then they are in file order. */
  lemma {:induction false} FirstsAreAll(files: seq<File>)
    ensures |Firsts(files)| == |files| <==> PathsDistinct(files)
    ensures PathsDistinct(files) ==> forall i :: 0 <= i < |files| ==> Firsts(files)[i] == EntryOf(files[i], i)
  {
    if files == [] {
    } else {
      var last := |files| - 1;
      var init, e := files[..last], EntryOf(files[last], last);
      FirstsAreAll(init);
      FirstsAreFiles(init);
      PathsDistinctInit(files);
      FirstsGrow(files);
      if PathsDistinct(files) {
        forall i | 0 <= i < last ensures Firsts(files)[i] == EntryOf(files[i], i) {
          assert Firsts(init)[i] == EntryOf(init[i], i);
        }
      }
    }
  }

  /** The last file is added exactly if it has a path that no file before it has. */
  lemma {:induction false} FirstsGrow(files: seq<File>)
    requires files != []
    ensures var last := |files| - 1;
      var before, e := Firsts(files[..last]), EntryOf(files[last], last);
      Firsts(files) ==
        if e.path != [] && forall i :: 0 <= i < last ==> Parts(files[i].path) != e.path then before + [e] else before
  {
    var last := |files| - 1;
    var init, path := files[..last], Parts(files[last].path);
    if path != [] {
      TakenIfRepeated(init, path);
      if i :| 0 <= i < last && Parts(files[i].path) == path { assert Parts(init[i].path) == path; }
      if i :| 0 <= i < last && Parts(init[i].path) == path { assert Parts(files[i].path) == path; }
    }
  }

  /** A path is among them exactly if some file has it. */
  lemma {:induction false} TakenIfRepeated(files: seq<File>, path: seq<string>)
    requires path != []
    ensures HasPath(Firsts(files), path) <==> exists i :: 0 <= i < |files| && Parts(files[i].path) == path
  {
    var firsts := Firsts(files);
    if HasPath(firsts, path) {
      FirstsAreFiles(files);
      var k :| 0 <= k < |firsts| && firsts[k].path == path;
      assert firsts[k] in firsts && Parts(files[firsts[k].index].path) == path;
    }
    if i :| 0 <= i < |files| && Parts(files[i].path) == path { FirstsCover(files, i); }
  }

  // --- Rolling up -------------------------------------------------------------

  /** Rolling up touches no leaf and no name. */
  lemma {:induction false} RollUpKeeps(nodes: seq<Node>)
    ensures |RollUpAll(nodes)| == |nodes|
    ensures forall i :: 0 <= i < |nodes| ==> RollUpAll(nodes)[i] == RollUp(nodes[i])
    ensures Entries(RollUpAll(nodes)) == Entries(nodes)
    decreases nodes
  {
    if nodes == [] {
    } else {
      RollUpKeeps(nodes[1..]);
      if nodes[0].isDir { RollUpKeeps(nodes[0].children); }
      assert NodeEntries(RollUp(nodes[0])) == NodeEntries(nodes[0]);
    }
  }

  lemma {:induction false} RollUpWellFormed(nodes: seq<Node>)
    requires WellFormed(nodes)
    ensures WellFormed(RollUpAll(nodes))
    decreases nodes
  {
    RollUpKeeps(nodes);
    var rolled := RollUpAll(nodes);
    forall n | n in rolled ensures NodeWellFormed(n) {
      var i :| 0 <= i < |nodes| && rolled[i] == n;
      assert NodeWellFormed(nodes[i]) && n == RollUp(nodes[i]);
      if n.isDir {
        RollUpKeeps(nodes[i].children);
        RollUpWellFormed(nodes[i].children);
      }
    }
  }

  /** There are leaves and they all have priority `p`. */
  ghost predicate CommonPriority(entries: seq<Entry>, p: int) {
    entries != [] && forall e :: e in entries ==> e.priority == p
  }

  /** The figures of a node are those of its leaves. */
  ghost predicate Tallied(n: Node) {
    && n.size == SumSizes(NodeEntries(n))
    && Weight(n) == SumWeights(NodeEntries(n))
    && (forall p :: p >= 0 ==> (n.priority == p <==> CommonPriority(NodeEntries(n), p)))
  }

  /** ... and so are those of every folder underneath. */
  ghost predicate TalliedThroughout(nodes: seq<Node>)
    decreases nodes
  {
    forall n :: n in nodes ==> Tallied(n) && (n.isDir ==> TalliedThroughout(n.children))
  }

  lemma {:induction false} EntriesSnoc(nodes: seq<Node>)
    requires nodes != []
    ensures Entries(nodes) == Entries(nodes[..|nodes| - 1]) + NodeEntries(nodes[|nodes| - 1])
  {
    var init, last := nodes[..|nodes| - 1], nodes[|nodes| - 1];
    EntriesAppend(init, [last]);
    EntriesOne(last);
    assert nodes == init + [last];
  }

  lemma {:induction false} ListSize(nodes: seq<Node>)
    requires forall n :: n in nodes ==> n.size == SumSizes(NodeEntries(n))
    ensures SizeOf(nodes) == SumSizes(Entries(nodes))
  {
    if nodes == [] {
    } else {
      ListSize(nodes[..|nodes| - 1]);
      EntriesSnoc(nodes);
      SumsAppend(Entries(nodes[..|nodes| - 1]), NodeEntries(nodes[|nodes| - 1]));
    }
  }

  lemma {:induction false} ListWeight(nodes: seq<Node>)
    requires forall n :: n in nodes ==> Weight(n) == SumWeights(NodeEntries(n))
    ensures WeightOf(nodes) == SumWeights(Entries(nodes))
  {
    if nodes == [] {
    } else {
      ListWeight(nodes[..|nodes| - 1]);
      EntriesSnoc(nodes);
      SumsAppend(Entries(nodes[..|nodes| - 1]), NodeEntries(nodes[|nodes| - 1]));
    }
  }

  lemma {:induction false} HasLeaves(n: Node)
    requires NodeWellFormed(n)
    ensures NodeEntries(n) != []
    decreases n
  {
    if n.isDir {
      var c := n.children[0];
      assert c in n.children;
      HasLeaves(c);
    }
  }

  lemma PriorityTally(n: Node, p: int)
    requires n.isDir && n.children != [] && WellFormed(n.children) && p >= 0
    requires forall c :: c in n.children ==> Tallied(c)
    ensures Stats(n).priority == p <==> CommonPriority(Entries(n.children), p)
  {
    var kids := n.children;
    assert kids[0] in kids;
    HasLeaves(kids[0]);
    if Stats(n).priority == p {
      forall e | e in Entries(kids) ensures e.priority == p {
        var k := EntryFromNode(kids, e);
        assert kids[k] in kids && kids[k].priority == p && Tallied(kids[k]);
        assert CommonPriority(NodeEntries(kids[k]), p);
      }
    }
    if CommonPriority(Entries(kids), p) {
      forall c | c in kids ensures c.priority == p {
        var k :| 0 <= k < |kids| && kids[k] == c;
        HasLeaves(c);
        EntriesAt(kids, k);
        forall e | e in NodeEntries(c) ensures e.priority == p { assert e in Entries(kids); }
        assert Tallied(c) && CommonPriority(NodeEntries(c), p);
      }
    }
  }

  lemma BelowPriority(name: string, entries: seq<Entry>, p: int)
    ensures CommonPriority(Below(name, entries), p) <==> CommonPriority(entries, p)
  {
    var below := Below(name, entries);
    if CommonPriority(below, p) {
      forall e | e in entries ensures e.priority == p {
        var i :| 0 <= i < |entries| && entries[i] == e;
        assert below[i] in below;
      }
    }
  }

  /** A folder's size times its progress is the weight of its children. */
  lemma FolderWeight(n: Node)
    requires SizeOf(n.children) == 0 ==> WeightOf(n.children) == 0.0
    ensures Weight(Stats(n)) == WeightOf(n.children)
  {}

  /** A folder computed from tallied children is tallied: sizes, size-weighted progress and common priority. */
  lemma FolderTally(n: Node)
    requires n.isDir && n.children != [] && WellFormed(n.children)
    requires forall c :: c in n.children ==> Tallied(c)
    ensures Tallied(Stats(n))
  {
    var below := Entries(n.children);
    ListSize(n.children);
    ListWeight(n.children);
    SumsBelow(n.name, below);
    if SumSizes(below) == 0 { WeightlessIfEmpty(below); }
    FolderWeight(n);
    StatsEntries(n);
    forall p | p >= 0 ensures Stats(n).priority == p <==> CommonPriority(NodeEntries(Stats(n)), p) {
      PriorityTally(n, p);
      BelowPriority(n.name, below, p);
    }
  }

  lemma StatsEntries(n: Node)
    requires n.isDir
    ensures NodeEntries(Stats(n)) == Below(n.name, Entries(n.children))
  {}

  lemma LeafTally(n: Node)
    requires !n.isDir && n.fileIndex.Some?
    ensures Tallied(n)
  {}

  lemma {:induction false} RollUpTallies(nodes: seq<Node>)
    requires WellFormed(nodes)
    ensures TalliedThroughout(RollUpAll(nodes))
    decreases nodes, 1
  {
    RollUpKeeps(nodes);
    forall n | n in RollUpAll(nodes) ensures Tallied(n) && (n.isDir ==> TalliedThroughout(n.children)) {
      var i :| 0 <= i < |nodes| && n == RollUp(nodes[i]);
      assert nodes[i] in nodes;
      if nodes[i].isDir {
        FolderTallies(nodes[i]);
      } else {
        LeafTally(n);
      }
    }
  }

  lemma {:induction false} FolderTallies(n: Node)
    requires n.isDir && n.children != [] && WellFormed(n.children)
    ensures Tallied(RollUp(n)) && TalliedThroughout(RollUp(n).children)
    decreases n, 0
  {
    RollUpTallies(n.children);
    RollUpKeeps(n.children);
    RollUpWellFormed(n.children);
    FolderTally(n.(children := RollUpAll(n.children)));
  }
}
