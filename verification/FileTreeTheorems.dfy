/** The promises of `buildTree` and of the tri-state helpers over its result. */
module FileTreeTheorems {
  import opened FileTree
  import opened FileTreeLaws
  import opened Sequences

  lemma {:induction false} LeafIndexesAreEntries(nodes: seq<Node>)
    ensures AllLeafIndexes(nodes) == Indexes(Entries(nodes))
    decreases nodes
  {
    if nodes == [] {
    } else {
      NodeLeafIndexes(nodes[0]);
      LeafIndexesAreEntries(nodes[1..]);
      IndexesConcat(NodeEntries(nodes[0]), Entries(nodes[1..]));
    }
  }

  lemma IndexesConcat(a: seq<Entry>, b: seq<Entry>)
    ensures Indexes(a + b) == Indexes(a) + Indexes(b)
  {}

  lemma {:induction false} NodeLeafIndexes(n: Node)
    ensures LeafIndexes(n) == Indexes(NodeEntries(n))
    decreases n
  {
    if n.isDir { LeafIndexesAreEntries(n.children); }
  }

  function Numbers(n: nat): seq<nat> {
    seq(n, i => i)
  }

  function TotalSize(files: seq<File>): nat {
    if files == [] then 0 else TotalSize(files[..|files| - 1]) + files[|files| - 1].size
  }

  lemma {:induction false} BuildKeepsFirsts(files: seq<File>)
    ensures Entries(BuildTree(files)) == Entries(InsertAll(files))
    ensures SameEntries(Entries(BuildTree(files)), Firsts(files))
    ensures multiset(AllLeafIndexes(BuildTree(files))) == multiset(Indexes(Firsts(files)))
  {
    InsertAllKeepsFirsts(files);
    RollUpKeeps(InsertAll(files));
    LeafIndexesAreEntries(BuildTree(files));
  }

  /** The leaf indexes under the roots are a permutation of all file indexes exactly if every file has its own path. */
  lemma NothingIsLost(files: seq<File>)
    ensures multiset(AllLeafIndexes(BuildTree(files))) == multiset(Numbers(|files|)) <==> PathsDistinct(files)
  {
    BuildKeepsFirsts(files);
    FirstsAreAll(files);
    if PathsDistinct(files) {
      InFileOrder(files);
    } else {
      SameSize(Indexes(Firsts(files)), Numbers(|files|));
    }
  }

  lemma InFileOrder(files: seq<File>)
    requires PathsDistinct(files)
    ensures Indexes(Firsts(files)) == Numbers(|files|)
  {
    FirstsAreAll(files);
  }

  lemma SameSize(a: seq<nat>, b: seq<nat>)
    ensures multiset(a) == multiset(b) ==> |a| == |b|
  {
    assert |multiset(a)| == |a| && |multiset(b)| == |b|;
  }

  /** Each leaf is one file, at that file's own path and with its figures; each path is there; siblings never collide. */
  lemma LeavesAreTheFiles(files: seq<File>)
    ensures WellFormed(BuildTree(files))
    ensures forall e :: e in Entries(BuildTree(files)) ==> e.index < |files| && e == EntryOf(files[e.index], e.index)
    ensures forall i :: 0 <= i < |files| && Parts(files[i].path) != [] ==>
      HasPath(Entries(BuildTree(files)), Parts(files[i].path))
  {
    BuildKeepsFirsts(files);
    FirstsAreFiles(files);
    InsertAllKeepsFirsts(files);
    RollUpWellFormed(InsertAll(files));
    var entries := Entries(BuildTree(files));
    forall e | e in entries ensures e.index < |files| && e == EntryOf(files[e.index], e.index) {
      assert e in multiset(entries) && e in Firsts(files);
    }
    forall i | 0 <= i < |files| && Parts(files[i].path) != [] ensures HasPath(entries, Parts(files[i].path)) {
      FirstsCover(files, i);
      SamePaths(entries, Firsts(files), Parts(files[i].path));
    }
  }

  /** File `j` has a path, and no file before it has the same one. */
  ghost predicate FirstOfItsPath(files: seq<File>, j: nat)
    requires j < |files|
  {
    Parts(files[j].path) != [] && forall i :: 0 <= i < j ==> Parts(files[i].path) != Parts(files[j].path)
  }

  lemma {:induction false} FirstsIndexes(files: seq<File>, j: nat)
    requires j < |files|
    ensures j in Indexes(Firsts(files)) <==> FirstOfItsPath(files, j)
  {
    var last := |files| - 1;
    IndexesGrow(files);
    if j < last {
      FirstsIndexes(files[..last], j);
      FirstInInit(files, j);
    }
  }

  lemma FirstInInit(files: seq<File>, j: nat)
    requires j < |files| - 1
    ensures FirstOfItsPath(files[..|files| - 1], j) <==> FirstOfItsPath(files, j)
  {
    var init := files[..|files| - 1];
    assert forall i :: 0 <= i <= j ==> init[i] == files[i];
  }

  lemma {:induction false} IndexesGrow(files: seq<File>)
    requires files != []
    ensures var last := |files| - 1;
      && Indexes(Firsts(files)) ==
           Indexes(Firsts(files[..last])) + (if FirstOfItsPath(files, last) then [last] else [])
      && last !in Indexes(Firsts(files[..last]))
  {
    var last := |files| - 1;
    var before := Firsts(files[..last]);
    FirstsGrow(files);
    FirstsFaithful(files[..last]);
    assert Indexes(before + [EntryOf(files[last], last)]) == Indexes(before) + [last];
  }

  /** A file has a leaf exactly if it is the first of its path; all others are dropped. */
  lemma LeafExactlyIfFirst(files: seq<File>, j: nat)
    requires j < |files|
    ensures j in AllLeafIndexes(BuildTree(files)) <==> FirstOfItsPath(files, j)
  {
    BuildKeepsFirsts(files);
    FirstsIndexes(files, j);
    assert j in AllLeafIndexes(BuildTree(files)) <==> j in multiset(AllLeafIndexes(BuildTree(files)));
    assert j in Indexes(Firsts(files)) <==> j in multiset(Indexes(Firsts(files)));
  }

  /** Of three files at `a/b`, `a//b` and `/` the second repeats the first's path and the third has none. */
  lemma TwoOfThreeAreDropped(size: nat, progress: real, priority: int)
    ensures var files := [File("a/b", size, progress, priority), File("a//b", size, progress, priority),
                          File("/", size, progress, priority)];
      var leaves := AllLeafIndexes(BuildTree(files));
      0 in leaves && 1 !in leaves && 2 !in leaves
  {
    var files := [File("a/b", size, progress, priority), File("a//b", size, progress, priority),
                  File("/", size, progress, priority)];
    LeafExactlyIfFirst(files, 0);
    LeafExactlyIfFirst(files, 1);
    LeafExactlyIfFirst(files, 2);
    PathsOfThree();
  }

  lemma PathsOfThree()
    ensures Parts("a/b") == Parts("a//b") == ["a", "b"] && Parts("/") == []
  {
    PartsOfB();
    assert "a/b" == "a/" + "b" && "a//b" == "a/" + "/b";
    PartsBehindA("b");
    PartsBehindA("/b");
    assert "/"[1..] == "" && CutAt("/") == 0;
  }

  lemma PartsBehindA(rest: string)
    ensures Parts("a/" + rest) == ["a"] + Parts(rest)
  {
    var path := "a/" + rest;
    assert path[0] == 'a' && path[1..][0] == '/';
    assert CutAt(path[1..]) == 0 && CutAt(path) == 1;
    assert path[..1] == "a" && path[2..] == rest;
  }

  lemma PartsOfB()
    ensures Parts("b") == Parts("/b") == ["b"] && Parts("") == []
  {
    assert "/b"[1..] == "b" && "b"[1..] == "" && "b"[..1] == "b";
    assert CutAt("b") == 1 && CutAt("/b") == 0;
  }

  lemma {:induction false} AllFirstsTotal(files: seq<File>)
    requires PathsDistinct(files)
    ensures SumSizes(Firsts(files)) == TotalSize(files)
  {
    if files == [] {
    } else {
      var last := |files| - 1;
      PathsDistinctInit(files);
      AllFirstsTotal(files[..last]);
      FirstsAreAll(files);
      FirstsAreAll(files[..last]);
      var e := EntryOf(files[last], last);
      assert Firsts(files) == Firsts(files[..last]) + [e];
      SumsAppend(Firsts(files[..last]), [e]);
    }
  }

  /** At every depth: size, size-weighted progress and priority are those of the leaves; the roots add up to the total. */
  lemma FiguresAreRolledUp(files: seq<File>)
    ensures TalliedThroughout(BuildTree(files))
    ensures PathsDistinct(files) ==> SizeOf(BuildTree(files)) == TotalSize(files)
  {
    InsertAllKeepsFirsts(files);
    RollUpTallies(InsertAll(files));
    BuildKeepsFirsts(files);
    ListSize(BuildTree(files));
    if PathsDistinct(files) { AllFirstsTotal(files); }
  }

  // --- The tri-state box ------------------------------------------------------

  lemma {:induction false} CountInBounds(indexes: seq<nat>, selected: set<nat>)
    ensures CountIn(indexes, selected) <= |indexes|
    ensures CountIn(indexes, selected) == |indexes| <==> forall i :: i in indexes ==> i in selected
    ensures CountIn(indexes, selected) == 0 <==> forall i :: i in indexes ==> i !in selected
  {
    if indexes == [] {
    } else {
      CountInBounds(indexes[1..], selected);
      assert forall i :: i in indexes <==> i == indexes[0] || i in indexes[1..];
    }
  }

  /** Checked: there are leaves and all are selected. Unchecked: none is. Otherwise some are and some are not. */
  lemma FolderStateMeans(n: Node, selected: set<nat>)
    ensures FolderState(n, selected).Checked? <==>
      LeafIndexes(n) != [] && forall i :: i in LeafIndexes(n) ==> i in selected
    ensures FolderState(n, selected).Unchecked? <==> forall i :: i in LeafIndexes(n) ==> i !in selected
  {
    CountInBounds(LeafIndexes(n), selected);
    if LeafIndexes(n) != [] { assert LeafIndexes(n)[0] in LeafIndexes(n); }
  }

  // --- What a selection weighs ------------------------------------------------

  lemma {:induction false} SelectOne(files: seq<File>, selected: set<nat>, i: nat)
    requires i < |files| && i !in selected
    ensures SelectedSize(files, selected + {i}) == SelectedSize(files, selected) + files[i].size
  {
    var last := |files| - 1;
    if i < last {
      SelectOne(files[..last], selected, i);
    } else {
      SelectBeyond(files[..last], selected, i);
    }
  }

  lemma {:induction false} SelectBeyond(files: seq<File>, selected: set<nat>, i: nat)
    requires i >= |files|
    ensures SelectedSize(files, selected + {i}) == SelectedSize(files, selected)
  {
    if files == [] {
    } else {
      SelectBeyond(files[..|files| - 1], selected, i);
    }
  }

  lemma {:induction false} SelectNone(files: seq<File>)
    ensures SelectedSize(files, {}) == 0
  {
    if files == [] {
    } else {
      SelectNone(files[..|files| - 1]);
    }
  }

  /** Entries that name files of the list, each once, with the right size. */
  ghost predicate Faithful(entries: seq<Entry>, files: seq<File>) {
    && (forall e :: e in entries ==> e.index < |files| && e.size == files[e.index].size)
    && (forall i, j :: 0 <= i < j < |entries| ==> entries[i].index != entries[j].index)
  }

  function IndexSet(entries: seq<Entry>): set<nat> {
    set i | 0 <= i < |entries| :: entries[i].index
  }

  lemma {:induction false} SelectionWeighs(entries: seq<Entry>, files: seq<File>)
    requires Faithful(entries, files)
    ensures SelectedSize(files, IndexSet(entries)) == SumSizes(entries)
  {
    if entries == [] {
      SelectNone(files);
      assert IndexSet(entries) == {};
    } else {
      SelectionWeighs(entries[1..], files);
      SelectOne(files, IndexSet(entries[1..]), entries[0].index);
      assert IndexSet(entries) == IndexSet(entries[1..]) + {entries[0].index} by {
        forall k | k in IndexSet(entries) ensures k in IndexSet(entries[1..]) + {entries[0].index} {
          var i :| 0 <= i < |entries| && entries[i].index == k;
          if i > 0 { assert entries[1..][i - 1].index == k; }
        }
        forall k | k in IndexSet(entries[1..]) ensures k in IndexSet(entries) {
          var i :| 0 <= i < |entries[1..]| && entries[1..][i].index == k;
          assert entries[i + 1].index == k;
        }
      }
    }
  }

  lemma {:induction false} FirstsFaithful(files: seq<File>)
    ensures Faithful(Firsts(files), files)
    ensures forall i :: 0 <= i < |Firsts(files)| ==> Firsts(files)[i].index < |files|
  {
    FirstsAreFiles(files);
    if files == [] {
    } else {
      FirstsFaithful(files[..|files| - 1]);
    }
  }

  lemma BuildFaithful(files: seq<File>)
    ensures Faithful(Entries(BuildTree(files)), files)
  {
    BuildKeepsFirsts(files);
    FirstsFaithful(files);
    FaithfulShuffled(Entries(BuildTree(files)), Firsts(files), files);
  }

  /** The same entries in another order are as faithful. */
  lemma {:induction false} FaithfulShuffled(entries: seq<Entry>, firsts: seq<Entry>, files: seq<File>)
    requires SameEntries(entries, firsts) && Faithful(firsts, files)
    ensures Faithful(entries, files)
  {
    forall e | e in entries ensures e.index < |files| && e.size == files[e.index].size {
      assert e in multiset(entries) && e in firsts;
    }
    forall i, j | 0 <= i < j < |entries| ensures entries[i].index != entries[j].index {
      if entries[i].index == entries[j].index {
        CountOf(Indexes(entries), i, j);
        AtMostOnce(Indexes(firsts), entries[i].index);
      }
    }
  }

  function ToSet(s: seq<nat>): set<nat> {
    set i | i in s
  }

  /** At every depth, selecting a node's leaves selects exactly the size it shows. */
  ghost predicate SelectionExact(nodes: seq<Node>, files: seq<File>)
    decreases nodes
  {
    forall n :: n in nodes ==>
      SelectedSize(files, ToSet(LeafIndexes(n))) == n.size && (n.isDir ==> SelectionExact(n.children, files))
  }

  lemma NodeSelectionExact(n: Node, files: seq<File>)
    requires n.size == SumSizes(NodeEntries(n)) && Faithful(NodeEntries(n), files)
    ensures SelectedSize(files, ToSet(LeafIndexes(n))) == n.size
  {
    var leaves, entries := LeafIndexes(n), NodeEntries(n);
    NodeLeafIndexes(n);
    SelectionWeighs(entries, files);
    forall k ensures k in ToSet(leaves) <==> k in IndexSet(entries) {
      if k in ToSet(leaves) {
        var i :| 0 <= i < |leaves| && leaves[i] == k;
        assert entries[i].index == k;
      }
      if k in IndexSet(entries) {
        var i :| 0 <= i < |entries| && entries[i].index == k;
        assert leaves[i] == k;
      }
    }
    assert ToSet(leaves) == IndexSet(entries);
  }

  lemma {:induction false} FaithfulPart(nodes: seq<Node>, k: nat, files: seq<File>)
    requires k < |nodes| && Faithful(Entries(nodes), files)
    ensures Faithful(NodeEntries(nodes[k]), files)
    ensures nodes[k].isDir ==> Faithful(Entries(nodes[k].children), files)
  {
    EntriesAt(nodes, k);
    FaithfulSlice(Entries(nodes[..k]), NodeEntries(nodes[k]), Entries(nodes[k + 1..]), files);
    if nodes[k].isDir { FaithfulBelow(nodes[k].name, Entries(nodes[k].children), files); }
  }

  lemma FaithfulSlice(left: seq<Entry>, part: seq<Entry>, right: seq<Entry>, files: seq<File>)
    requires Faithful(left + part + right, files)
    ensures Faithful(part, files)
  {
    var whole := left + part + right;
    forall i, j | 0 <= i < j < |part| ensures part[i].index != part[j].index {
      assert part[i] == whole[|left| + i] && part[j] == whole[|left| + j];
    }
  }

  lemma FaithfulBelow(name: string, entries: seq<Entry>, files: seq<File>)
    requires Faithful(Below(name, entries), files)
    ensures Faithful(entries, files)
  {
    var below := Below(name, entries);
    forall e | e in entries ensures e.index < |files| && e.size == files[e.index].size {
      var i :| 0 <= i < |entries| && entries[i] == e;
      assert below[i] in below;
    }
    forall i, j | 0 <= i < j < |entries| ensures entries[i].index != entries[j].index {
      assert below[i].index != below[j].index;
    }
  }

  lemma {:induction false} SelectionExactBelow(nodes: seq<Node>, files: seq<File>)
    requires TalliedThroughout(nodes) && Faithful(Entries(nodes), files)
    ensures SelectionExact(nodes, files)
    decreases nodes
  {
    forall n | n in nodes
      ensures SelectedSize(files, ToSet(LeafIndexes(n))) == n.size && (n.isDir ==> SelectionExact(n.children, files))
    {
      var k :| 0 <= k < |nodes| && nodes[k] == n;
      FaithfulPart(nodes, k, files);
      NodeSelectionExact(n, files);
      if n.isDir { SelectionExactBelow(n.children, files); }
    }
  }

  /** Ticking any folder of a built tree selects exactly the bytes the folder shows. */
  lemma TickingAFolderSelectsItsSize(files: seq<File>)
    ensures SelectionExact(BuildTree(files), files)
  {
    FiguresAreRolledUp(files);
    BuildFaithful(files);
    SelectionExactBelow(BuildTree(files), files);
  }
}
