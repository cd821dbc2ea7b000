/**
  The target tree of a home migration with its owner permissions, and the two passes over it:
  the copy, which unlocks directories from the top and relocks them from the bottom, and the prune,
  which removes what the inventory does not name, deepest paths first.
 */
module HomeTarget {
  import opened HomeInventory
  import opened Options

  /** A target node; `through` is the file content a symbolic link leads to, if any. */
  datatype TNode =
    | TDir(mode: Mode)
    | TFile(mode: Mode, content: Content)
    | TLink(through: Option<Content>)

  type Nodes = map<Path, TNode>

  const FRESH := Mode(true, true, true, 0)
  const STATE_DB: Path := [StateDb]
  const RECEIPT: Path := [MigrationReceipt]
  const SIDE_FILES: set<Path> := {[StateDbWal], [StateDbShm]}

  /** Entries that the copy leaves to the database backup. */
  predicate Database(p: Path) {
    p == STATE_DB || p in SIDE_FILES
  }

  predicate IsDir(nodes: Nodes, p: Path) {
    p in nodes && nodes[p].TDir?
  }

  /** The root is a directory its owner can use, and every other node lies in a directory. */
  ghost predicate TreeShaped(nodes: Nodes) {
    && IsDir(nodes, []) && nodes[[]].mode.r && nodes[[]].mode.w && nodes[[]].mode.x
    && forall p :: p in nodes && p != [] ==> IsDir(nodes, p[..|p| - 1])
  }

  /** All directories above `p` can be traversed. */
  predicate Searchable(nodes: Nodes, p: Path) {
    forall k :: 0 <= k < |p| ==> IsDir(nodes, p[..k]) && nodes[p[..k]].mode.x
  }

  /** An entry may be created, replaced or removed at `p`. */
  predicate Writable(nodes: Nodes, p: Path) {
    p != [] && Searchable(nodes, p) && nodes[p[..|p| - 1]].mode.w
  }

  /** The directory entries of one depth. */
  function AtDepth(entries: seq<Entry>, depth: nat): (r: seq<Entry>)
    ensures forall e :: e in r <==> e in entries && e.directory && |e.logical| == depth
  {
    if entries == [] then []
    else if entries[0].directory && |entries[0].logical| == depth then [entries[0]] + AtDepth(entries[1..], depth)
    else AtDepth(entries[1..], depth)
  }

  /** The directory entries down to a depth, parents before children. */
  function ByDepth(entries: seq<Entry>, depth: nat): (r: seq<Entry>)
    ensures forall e :: e in r <==> e in entries && e.directory && 0 < |e.logical| <= depth
  {
    if depth == 0 then [] else ByDepth(entries, depth - 1) + AtDepth(entries, depth)
  }

  function Deepest(entries: seq<Entry>): (d: nat)
    ensures forall e :: e in entries ==> |e.logical| <= d
  {
    if entries == [] then 0
    else
      var rest := Deepest(entries[1..]);
      if |entries[0].logical| > rest then |entries[0].logical| else rest
  }

  /** The entry recorded for a path. */
  ghost predicate RecordedAs(entries: seq<Entry>, p: Path, e: Entry) {
    e in entries && e.logical == p
  }

  /** Target nodes do not clash in kind with the entries. */
  ghost predicate NoClash(nodes: Nodes, entries: seq<Entry>) {
    forall e :: e in entries && e.logical in nodes ==> (nodes[e.logical].TDir? <==> e.directory)
  }

  /** The content that a file entry is copied from. */
  function ContentOf(fs: Tree, e: Entry): Content {
    if e.source in fs && fs[e.source].File? then fs[e.source].content else 0
  }

  /** What the copy leaves at the path of entry `e`. */
  function CopyOf(fs: Tree, e: Entry): TNode {
    if e.directory then TDir(e.mode) else TFile(e.mode, ContentOf(fs, e))
  }

  predicate Copied(e: Entry) {
    e.directory || !Database(e.logical)
  }

  /** The tree after a copy: every copied entry stands at its path with its own mode, all else is as before. */
  ghost predicate AfterCopy(fs: Tree, before: Nodes, after: Nodes, entries: seq<Entry>) {
    && (forall e :: e in entries && Copied(e) ==> e.logical in after && after[e.logical] == CopyOf(fs, e))
    && (forall p :: (forall e :: e in entries && Copied(e) ==> e.logical != p) ==>
          (p in after <==> p in before) && (p in before ==> after[p] == before[p]))
  }

  /** The target home directory. Operations report whether the operating system permits them. */
  class Home {
    var nodes: Nodes

    constructor (nodes: Nodes)
      ensures this.nodes == nodes
    {
      this.nodes := nodes;
    }

    /** `mkdir(exist_ok=True)` below an existing parent. */
    method MakeDir(p: Path) returns (ok: bool)
      modifies this
      ensures ok <==> (p in old(nodes) && Searchable(old(nodes), p) && old(nodes)[p].TDir?) || (p !in old(nodes) && Writable(old(nodes), p))
      ensures nodes == if ok && p !in old(nodes) then old(nodes)[p := TDir(FRESH)] else old(nodes)
    {
      ok := if p in nodes then Searchable(nodes, p) && nodes[p].TDir? else Writable(nodes, p);
      if ok && p !in nodes {
        nodes := nodes[p := TDir(FRESH)];
      }
    }

    method ChangeMode(p: Path, mode: Mode) returns (ok: bool)
      modifies this
      ensures ok <==> IsDir(old(nodes), p) && Searchable(old(nodes), p)
      ensures nodes == if ok then old(nodes)[p := TDir(mode)] else old(nodes)
    {
      ok := IsDir(nodes, p) && Searchable(nodes, p);
      if ok {
        nodes := nodes[p := TDir(mode)];
      }
    }

    /** Copies to a temporary name in the same directory and renames it over `p`. */
    method PutFile(p: Path, mode: Mode, content: Content) returns (ok: bool)
      modifies this
      ensures ok <==> Writable(old(nodes), p) && !IsDir(old(nodes), p)
      ensures nodes == if ok then old(nodes)[p := TFile(mode, content)] else old(nodes)
    {
      ok := Writable(nodes, p) && !IsDir(nodes, p);
      if ok {
        nodes := nodes[p := TFile(mode, content)];
      }
    }

    /** Removes a file, a link or an empty directory. */
    method Remove(p: Path) returns (ok: bool)
      modifies this
      ensures ok <==> p in old(nodes) && Writable(old(nodes), p) && (IsDir(old(nodes), p) ==> forall q :: q in old(nodes) ==> !(p < q))
      ensures nodes == if ok then old(nodes) - {p} else old(nodes)
    {
      ok := p in nodes && Writable(nodes, p) && (IsDir(nodes, p) ==> forall q :: q in nodes ==> !(p < q));
      if ok {
        nodes := nodes - {p};
      }
    }

    /** Makes one directory exist and usable by its owner. */
    method UnlockOne(e: Entry) returns (ok: bool)
      requires Writable(nodes, e.logical) && (e.logical in nodes ==> nodes[e.logical].TDir?)
      modifies this
      ensures ok && nodes == old(nodes)[e.logical := TDir(Usable(e.mode))]
    {
      ok := MakeDir(e.logical);
      assert forall k :: 0 <= k < |e.logical| ==> e.logical[..k] != e.logical;
      ok := ChangeMode(e.logical, Usable(e.mode));
    }

    /** Makes every directory of the inventory exist and, for the time of the copy, usable by its owner. */
    method Unlock(ghost entries: seq<Entry>, dirs: seq<Entry>) returns (ok: bool)
      requires TreeShaped(nodes) && Inventoried(entries) && NoClash(nodes, entries) && TopDown(entries, dirs)
      modifies this
      ensures ok && UnlockedUpTo(old(nodes), nodes, dirs, |dirs|)
      ensures forall j :: 0 <= j < |dirs| ==>
                dirs[j].logical in nodes && nodes[dirs[j].logical] == TDir(Mode(true, true, true, dirs[j].mode.rest))
    {
      var i := 0;
      while i < |dirs|
        invariant 0 <= i <= |dirs|
        invariant UnlockedUpTo(old(nodes), nodes, dirs, i)
      {
        ghost var before := nodes;
        CanUnlock(old(nodes), nodes, entries, dirs, i);
        ok := UnlockOne(dirs[i]);
        UnlockedStep(old(nodes), before, nodes, dirs, i);
        i := i + 1;
      }
      ok := true;
    }

    /** Copies one file, if its owner may read it; its directory is already there. */
    method PutOne(fs: Tree, e: Entry) returns (ok: bool)
      requires Writable(nodes, e.logical) && !IsDir(nodes, e.logical) && !e.directory
      modifies this
      ensures ok <==> e.mode.r
      ensures nodes == if ok then old(nodes)[e.logical := CopyOf(fs, e)] else old(nodes)
    {
      var parent := e.logical[..|e.logical| - 1];
      assert forall k :: 0 <= k < |parent| ==> parent[..k] == e.logical[..k];
      ok := MakeDir(parent);
      if !e.mode.r {
        return false;
      }
      ok := PutFile(e.logical, e.mode, ContentOf(fs, e));
    }

    /** Copies one entry of the inventory, if it is a file to copy. */
    method PutNext(fs: Tree, entries: seq<Entry>, i: nat, ghost dirs: seq<Entry>, ghost first: Nodes) returns (ok: bool)
      requires TreeShaped(first) && Inventoried(entries) && NoClash(first, entries) && TopDown(entries, dirs)
      requires i < |entries| && PutUpTo(fs, first, nodes, entries, dirs, i)
      modifies this
      ensures ok <==> ReadableFile(entries[i])
      ensures PutUpTo(fs, first, nodes, entries, dirs, if ok then i + 1 else i)
    {
      ghost var before := nodes;
      ok := true;
      if !entries[i].directory && !Database(entries[i].logical) {
        FileIsWritable(fs, first, nodes, entries, dirs, i);
        ok := PutOne(fs, entries[i]);
        if ok {
          PutStep(fs, first, before, nodes, entries, dirs, i);
        }
      } else {
        PutSkips(fs, first, nodes, entries, dirs, i);
      }
    }

    /** Copies every file of the inventory except the database files, up to the first one that cannot be read. */
    method PutFiles(fs: Tree, entries: seq<Entry>, ghost dirs: seq<Entry>, ghost first: Nodes) returns (ok: bool, ghost done: nat)
      requires TreeShaped(first) && Inventoried(entries) && NoClash(first, entries) && TopDown(entries, dirs)
      requires UnlockedUpTo(first, nodes, dirs, |dirs|)
      modifies this
      ensures ok <==> Readable(entries)
      ensures done <= |entries| && PutUpTo(fs, first, nodes, entries, dirs, done) && (ok ==> done == |entries|)
    {
      var i := 0;
      PutNothing(fs, first, nodes, entries, dirs);
      while i < |entries|
        invariant 0 <= i <= |entries|
        invariant PutUpTo(fs, first, nodes, entries, dirs, i)
        invariant ReadableUpTo(entries, i)
      {
        ok := PutNext(fs, entries, i, dirs, first);
        if !ok {
          return false, i;
        }
        i := i + 1;
      }
      return true, i;
    }

    /** Gives every directory its source mode, deepest directories first. */
    method Relock(ghost entries: seq<Entry>, dirs: seq<Entry>, ghost first: Nodes) returns (ok: bool)
      requires TreeShaped(first) && Inventoried(entries) && TopDown(entries, dirs)
      requires AllUnlocked(nodes, dirs, |dirs|) && [] in nodes && nodes[[]] == first[[]]
      modifies this
      ensures ok && AllLocked(nodes, dirs, 0) && SameOutside(old(nodes), nodes, PathsOf(dirs))
    {
      var i := |dirs|;
      while i > 0
        invariant 0 <= i <= |dirs|
        invariant AllUnlocked(nodes, dirs, i) && AllLocked(nodes, dirs, i)
        invariant SameOutside(old(nodes), nodes, PathsOf(dirs))
      {
        i := i - 1;
        ghost var before := nodes;
        var e := dirs[i];
        assert [] !in PathsOf(dirs);
        AncestorsUsableRoot(first, nodes, entries, dirs, i, e);
        ok := ChangeMode(e.logical, e.mode);
        LockStep(before, nodes, dirs, i);
        assert e.logical in PathsOf(dirs);
      }
      ok := true;
    }

    /**
      The copy never lacks a permission on the target, also on one that an earlier run left read-only. It succeeds
      exactly if every file to copy can be read, and then every copied entry is in place under its own mode; in any
      case it touches nothing but the paths of entries.
     */
    method Copy(fs: Tree, entries: seq<Entry>) returns (ok: bool)
      requires TreeShaped(nodes) && Inventoried(entries) && NoClash(nodes, entries)
      modifies this
      ensures ok <==> Readable(entries)
      ensures ok ==> AfterCopy(fs, old(nodes), nodes, entries) && TreeShaped(nodes)
      ensures SameOutside(old(nodes), nodes, PathsOf(entries))
    {
      var dirs := ByDepth(entries, Deepest(entries));
      ByDepthOrdered(entries, Deepest(entries));
      ok := Unlock(entries, dirs);
      ghost var done: nat;
      ok, done := PutFiles(fs, entries, dirs, old(nodes));
      ghost var put := nodes;
      if !ok {
        PutOutside(fs, old(nodes), nodes, entries, dirs, done);
        return;
      }
      PutOutside(fs, old(nodes), nodes, entries, dirs, |entries|);
      assert [] !in PathsOf(dirs) + CopiedPaths(entries[..|entries|]);
      ok := Relock(entries, dirs, old(nodes));
      CopyDone(fs, old(nodes), put, nodes, entries, dirs);
      CopyKeepsShape(fs, old(nodes), nodes, entries);
    }

    /** Removes `p` after making its directory writable, and gives the directory its mode back. */
    method RemoveForced(p: Path) returns (done: bool)
      requires p in nodes && p != [] && Searchable(nodes, p)
      modifies this
      ensures done <==> (IsDir(old(nodes), p) ==> forall q :: q in old(nodes) ==> !(p < q))
      ensures nodes == if done then old(nodes) - {p} else old(nodes)
    {
      var parent := p[..|p| - 1];
      var mode := nodes[parent].mode;
      assert forall k :: 0 <= k < |parent| ==> parent[..k] == p[..k] && p[..k] != parent;
      assert forall k :: 0 <= k < |p| ==> p[..k] != p;
      if mode.w {
        done := Remove(p);
      } else {
        var ok := ChangeMode(parent, mode.(w := true));
        assert Writable(nodes, p) && forall q :: q in nodes <==> q in old(nodes);
        done := Remove(p);
        ok := ChangeMode(parent, mode);
        assert nodes[parent] == old(nodes)[parent];
      }
    }

    /**
      Removes what is not allowed, deepest paths first. It finishes and removes everything that has to go exactly
      when its owner may list and traverse every directory above such a path; it never touches anything else.
     */
    method Prune(allowed: set<Path>) returns (ok: bool)
      requires [] in nodes
      modifies this
      ensures forall p :: p in nodes ==> p in old(nodes) && nodes[p] == old(nodes)[p]
      ensures forall p :: p in old(nodes) && (p == [] || Kept(allowed, p)) ==> p in nodes
      ensures (ok && forall p :: p in nodes && p != [] ==> Kept(allowed, p)) <==> AllOpen(old(nodes), allowed)
    {
      var rest := set p | p in nodes && Visible(nodes, p);
      while rest != {}
        invariant Pruning(old(nodes), nodes, allowed, rest)
        decreases |rest|
      {
        DeepestExists(rest);
        var p :| p in rest && forall q :: q in rest ==> |q| <= |p|;
        ghost var before, left := nodes, rest;
        rest := rest - {p};
        PruneReach(old(nodes), nodes, allowed, left, p);
        if !Kept(allowed, p) {
          if !nodes[p[..|p| - 1]].mode.x {
            return false;
          }
          SearchableChild(nodes, p);
          var done := RemoveForced(p);
          PruneStep(old(nodes), before, nodes, allowed, left, p, done);
        } else {
          PruneSkip(old(nodes), nodes, allowed, left, p);
        }
      }
      return true;
    }
  }

  function Usable(m: Mode): Mode {
    m.(r := true, w := true, x := true)
  }

  ghost function PathsOf(entries: seq<Entry>): set<Path> {
    set e | e in entries :: e.logical
  }

  ghost function CopiedPaths(entries: seq<Entry>): set<Path> {
    set e | e in entries && !e.directory && !Database(e.logical) :: e.logical
  }

  ghost predicate SameOutside(before: Nodes, after: Nodes, paths: set<Path>) {
    forall p :: p !in paths ==> (p in after <==> p in before) && (p in before ==> after[p] == before[p])
  }

  /** An entry that the copy need not read, or that its owner can read. */
  predicate ReadableFile(e: Entry) {
    e.directory || Database(e.logical) || e.mode.r
  }

  predicate Readable(entries: seq<Entry>) {
    ReadableUpTo(entries, |entries|)
  }

  predicate ReadableUpTo(entries: seq<Entry>, n: nat) {
    n <= |entries| && forall i :: 0 <= i < n ==> ReadableFile(entries[i])
  }

  lemma PutOutside(fs: Tree, first: Nodes, nodes: Nodes, entries: seq<Entry>, dirs: seq<Entry>, n: nat)
    requires TopDown(entries, dirs) && PutUpTo(fs, first, nodes, entries, dirs, n)
    ensures SameOutside(first, nodes, PathsOf(entries)) && PathsOf(dirs) <= PathsOf(entries)
  {
    forall p | p in PathsOf(dirs) + CopiedPaths(entries[..n]) ensures p in PathsOf(entries) {
    }
  }

  /** What the copy relies on in its entries. */
  ghost predicate Inventoried(entries: seq<Entry>) {
    && ParentClosed(entries) && DistinctPaths(entries)
    && forall e :: e in entries ==> e.logical != []
  }

  /** `dirs` are the directory entries, parents before children. */
  ghost predicate TopDown(entries: seq<Entry>, dirs: seq<Entry>) {
    && (forall e :: e in dirs <==> e in entries && e.directory)
    && DistinctPaths(dirs)
    && forall i, j :: 0 <= i < j < |dirs| ==> |dirs[i].logical| <= |dirs[j].logical|
  }

  lemma OnePath(entries: seq<Entry>, a: Entry, b: Entry)
    requires DistinctPaths(entries) && a in entries && b in entries && a.logical == b.logical
    ensures a == b
  {
    var i :| 0 <= i < |entries| && entries[i] == a;
    var j :| 0 <= j < |entries| && entries[j] == b;
    assert i == j;
  }

  lemma {:induction false} AtDepthDistinct(entries: seq<Entry>, depth: nat)
    requires DistinctPaths(entries)
    ensures DistinctPaths(AtDepth(entries, depth))
  {
    if entries != [] {
      var rest := entries[1..];
      AtDepthDistinct(rest, depth);
      forall x | x in AtDepth(rest, depth) ensures x.logical != entries[0].logical {
        var k :| 0 <= k < |rest| && rest[k] == x;
        assert entries[k + 1] == x;
      }
      PrependDistinct(entries[0], AtDepth(rest, depth));
    }
  }

  lemma {:induction false} ByDepthOrdered(entries: seq<Entry>, depth: nat)
    requires DistinctPaths(entries)
    ensures var r := ByDepth(entries, depth);
            DistinctPaths(r) && forall i, j :: 0 <= i < j < |r| ==> |r[i].logical| <= |r[j].logical|
  {
    if depth > 0 {
      var above, last := ByDepth(entries, depth - 1), AtDepth(entries, depth);
      ByDepthOrdered(entries, depth - 1);
      AtDepthDistinct(entries, depth);
      ConcatDistinct(above, last);
      assert forall k :: 0 <= k < |above| ==> above[k] in above;
      assert forall k :: 0 <= k < |last| ==> last[k] in last;
    }
  }

  ghost predicate AllUnlocked(nodes: Nodes, dirs: seq<Entry>, n: nat) {
    n <= |dirs| && forall j :: 0 <= j < n ==> dirs[j].logical in nodes && nodes[dirs[j].logical] == TDir(Usable(dirs[j].mode))
  }

  ghost predicate AllLocked(nodes: Nodes, dirs: seq<Entry>, n: nat) {
    n <= |dirs| && forall j :: n <= j < |dirs| ==> dirs[j].logical in nodes && nodes[dirs[j].logical] == TDir(dirs[j].mode)
  }

  ghost predicate AllPut(fs: Tree, nodes: Nodes, entries: seq<Entry>, n: nat) {
    n <= |entries| && forall j :: 0 <= j < n && !entries[j].directory && !Database(entries[j].logical) ==>
      entries[j].logical in nodes && nodes[entries[j].logical] == CopyOf(fs, entries[j])
  }

  /** The ancestors of an entry precede it among the directories. */
  lemma AncestorFirst(entries: seq<Entry>, dirs: seq<Entry>, n: nat, e: Entry, k: nat) returns (j: nat)
    requires Inventoried(entries) && TopDown(entries, dirs) && n <= |dirs|
    requires e in entries && 0 < k < |e.logical|
    requires n < |dirs| ==> |e.logical| <= |dirs[n].logical|
    ensures j < n && dirs[j].logical == e.logical[..k]
  {
    assert HasDirectory(entries, e.logical[..k]);
    var d :| d in entries && d.directory && d.logical == e.logical[..k];
    assert d in dirs;
    j :| 0 <= j < |dirs| && dirs[j] == d;
    assert n < |dirs| ==> forall i :: n <= i < |dirs| ==> |dirs[n].logical| <= |dirs[i].logical|;
  }

  /** While the directories above an entry are unlocked, it can be reached and its directory can be written. */
  lemma AncestorsUsableRoot(first: Nodes, nodes: Nodes, entries: seq<Entry>, dirs: seq<Entry>, n: nat, e: Entry)
    requires TreeShaped(first) && Inventoried(entries) && TopDown(entries, dirs) && AllUnlocked(nodes, dirs, n)
    requires [] in nodes && nodes[[]] == first[[]]
    requires e in entries && (n < |dirs| ==> |e.logical| <= |dirs[n].logical|)
    ensures Searchable(nodes, e.logical) && Writable(nodes, e.logical)
  {
    forall k | 0 <= k < |e.logical| ensures IsDir(nodes, e.logical[..k]) && nodes[e.logical[..k]].mode.x && nodes[e.logical[..k]].mode.w {
      if k == 0 {
        assert e.logical[..0] == [];
      } else {
        var j := AncestorFirst(entries, dirs, n, e, k);
      }
    }
  }

  /** The first `n` directories are unlocked and nothing else has changed. */
  ghost predicate UnlockedUpTo(first: Nodes, nodes: Nodes, dirs: seq<Entry>, n: nat) {
    AllUnlocked(nodes, dirs, n) && SameOutside(first, nodes, PathsOf(dirs[..n]))
  }

  /** The next directory can be created or is one already, and can be reached. */
  lemma CanUnlock(first: Nodes, nodes: Nodes, entries: seq<Entry>, dirs: seq<Entry>, i: nat)
    requires TreeShaped(first) && Inventoried(entries) && NoClash(first, entries) && TopDown(entries, dirs)
    requires i < |dirs| && UnlockedUpTo(first, nodes, dirs, i)
    ensures Writable(nodes, dirs[i].logical)
    ensures dirs[i].logical in nodes ==> nodes[dirs[i].logical].TDir?
  {
    assert dirs[i] in dirs;
    assert [] !in PathsOf(dirs[..i]) by {
      forall d | d in dirs[..i] ensures d.logical != [] {
        assert d in dirs;
      }
    }
    AncestorsUsableRoot(first, nodes, entries, dirs, i, dirs[i]);
    forall d | d in dirs[..i] ensures d.logical != dirs[i].logical {
      var j :| 0 <= j < i && dirs[j] == d;
    }
  }

  lemma UnlockedStep(first: Nodes, before: Nodes, after: Nodes, dirs: seq<Entry>, i: nat)
    requires DistinctPaths(dirs) && i < |dirs| && UnlockedUpTo(first, before, dirs, i)
    requires after == before[dirs[i].logical := TDir(Usable(dirs[i].mode))]
    ensures UnlockedUpTo(first, after, dirs, i + 1)
  {
    assert dirs[..i + 1] == dirs[..i] + [dirs[i]];
    assert PathsOf(dirs[..i + 1]) == PathsOf(dirs[..i]) + {dirs[i].logical};
  }

  lemma LockStep(before: Nodes, after: Nodes, dirs: seq<Entry>, i: nat)
    requires DistinctPaths(dirs)
    requires i < |dirs| && AllUnlocked(before, dirs, i + 1) && AllLocked(before, dirs, i + 1)
    requires after == before[dirs[i].logical := TDir(dirs[i].mode)]
    ensures AllUnlocked(after, dirs, i) && AllLocked(after, dirs, i)
  {
  }

  lemma NoDirThere(entries: seq<Entry>, dirs: seq<Entry>, e: Entry)
    requires Inventoried(entries) && TopDown(entries, dirs) && e in entries && !e.directory
    ensures e.logical !in PathsOf(dirs)
  {
    forall d | d in dirs ensures d.logical != e.logical {
      if d.logical == e.logical {
        OnePath(entries, d, e);
      }
    }
  }

  lemma FileIsWritable(fs: Tree, first: Nodes, nodes: Nodes, entries: seq<Entry>, dirs: seq<Entry>, i: nat)
    requires TreeShaped(first) && Inventoried(entries) && NoClash(first, entries) && TopDown(entries, dirs)
    requires i < |entries| && !entries[i].directory && PutUpTo(fs, first, nodes, entries, dirs, i)
    ensures Writable(nodes, entries[i].logical) && !IsDir(nodes, entries[i].logical)
  {
    var e := entries[i];
    assert [] !in PathsOf(dirs) + CopiedPaths(entries[..i]);
    AncestorsUsableRoot(first, nodes, entries, dirs, |dirs|, e);
    NoDirThere(entries, dirs, e);
    forall d | d in entries[..i] ensures d.logical != e.logical {
      var j :| 0 <= j < i && entries[j] == d;
    }
  }

  /** The first `n` entries have been put in place and nothing but directories and copied files has changed. */
  ghost predicate PutUpTo(fs: Tree, first: Nodes, nodes: Nodes, entries: seq<Entry>, dirs: seq<Entry>, n: nat) {
    && AllUnlocked(nodes, dirs, |dirs|) && AllPut(fs, nodes, entries, n)
    && SameOutside(first, nodes, PathsOf(dirs) + CopiedPaths(entries[..n]))
  }

  lemma PutNothing(fs: Tree, first: Nodes, nodes: Nodes, entries: seq<Entry>, dirs: seq<Entry>)
    requires UnlockedUpTo(first, nodes, dirs, |dirs|)
    ensures PutUpTo(fs, first, nodes, entries, dirs, 0)
  {
    assert dirs[..|dirs|] == dirs;
  }

  lemma PutSparesDirs(fs: Tree, before: Nodes, after: Nodes, entries: seq<Entry>, dirs: seq<Entry>, e: Entry)
    requires Inventoried(entries) && TopDown(entries, dirs) && e in entries && !e.directory
    requires AllUnlocked(before, dirs, |dirs|) && after == before[e.logical := CopyOf(fs, e)]
    ensures AllUnlocked(after, dirs, |dirs|)
  {
    NoDirThere(entries, dirs, e);
    forall j | 0 <= j < |dirs| ensures dirs[j].logical != e.logical {
      assert dirs[j] in dirs;
    }
  }

  /** Nothing is put where entry `i` is a directory or a database file. */
  lemma PutSkips(fs: Tree, first: Nodes, nodes: Nodes, entries: seq<Entry>, dirs: seq<Entry>, i: nat)
    requires i < |entries| && PutUpTo(fs, first, nodes, entries, dirs, i)
    requires entries[i].directory || Database(entries[i].logical)
    ensures PutUpTo(fs, first, nodes, entries, dirs, i + 1)
  {
    assert entries[..i + 1] == entries[..i] + [entries[i]];
    assert CopiedPaths(entries[..i + 1]) == CopiedPaths(entries[..i]);
  }

  lemma PutStep(fs: Tree, first: Nodes, before: Nodes, after: Nodes, entries: seq<Entry>, dirs: seq<Entry>, i: nat)
    requires Inventoried(entries) && TopDown(entries, dirs)
    requires i < |entries| && PutUpTo(fs, first, before, entries, dirs, i)
    requires !entries[i].directory && !Database(entries[i].logical)
    requires after == before[entries[i].logical := CopyOf(fs, entries[i])]
    ensures PutUpTo(fs, first, after, entries, dirs, i + 1)
  {
    var e := entries[i];
    assert entries[..i + 1] == entries[..i] + [e];
    assert CopiedPaths(entries[..i + 1]) == CopiedPaths(entries[..i]) + {e.logical};
    PutSparesDirs(fs, before, after, entries, dirs, e);
  }

  lemma CopyDone(fs: Tree, first: Nodes, put: Nodes, after: Nodes, entries: seq<Entry>, dirs: seq<Entry>)
    requires Inventoried(entries) && TopDown(entries, dirs)
    requires PutUpTo(fs, first, put, entries, dirs, |entries|)
    requires AllLocked(after, dirs, 0) && SameOutside(put, after, PathsOf(dirs))
    ensures AfterCopy(fs, first, after, entries)
  {
    forall e | e in entries && Copied(e) ensures e.logical in after && after[e.logical] == CopyOf(fs, e) {
      if e.directory {
        assert e in dirs;
        var j :| 0 <= j < |dirs| && dirs[j] == e;
      } else {
        var j :| 0 <= j < |entries| && entries[j] == e;
        NoDirThere(entries, dirs, e);
      }
    }
    assert entries[..|entries|] == entries;
    forall p | forall e :: e in entries && Copied(e) ==> e.logical != p
      ensures (p in after <==> p in first) && (p in first ==> after[p] == first[p])
    {
      assert p !in PathsOf(dirs) && p !in CopiedPaths(entries);
    }
  }

  lemma CopyKeepsShape(fs: Tree, before: Nodes, after: Nodes, entries: seq<Entry>)
    requires TreeShaped(before) && Inventoried(entries) && NoClash(before, entries) && AfterCopy(fs, before, after, entries)
    ensures TreeShaped(after)
  {
    forall p | p in after && p != [] ensures IsDir(after, p[..|p| - 1]) {
      var q := p[..|p| - 1];
      if e :| e in entries && Copied(e) && e.logical == p {
        if q != [] {
          assert HasDirectory(entries, e.logical[..|p| - 1]);
          var d :| d in entries && d.directory && d.logical == e.logical[..|p| - 1];
          assert Copied(d);
        }
      } else if d :| d in entries && Copied(d) && d.logical == q {
        assert p in before && IsDir(before, q);
        assert d.directory;
      }
    }
  }

  /** A path is kept if it is allowed or lies above an allowed path. */
  predicate Kept(allowed: set<Path>, p: Path) {
    exists a :: a in allowed && p <= a
  }

  /** A recursive listing finds `p`: all directories above can be listed, all but the last traversed. */
  predicate Visible(nodes: Nodes, p: Path) {
    && p in nodes && p != []
    && (forall k :: 0 <= k < |p| ==> IsDir(nodes, p[..k]) && nodes[p[..k]].mode.r)
    && (forall k :: 0 <= k < |p| - 1 ==> nodes[p[..k]].mode.x)
  }

  /** All directories above `p` can be listed and traversed. */
  predicate OpenTo(nodes: Nodes, p: Path) {
    forall k :: 0 <= k < |p| ==> IsDir(nodes, p[..k]) && nodes[p[..k]].mode.r && nodes[p[..k]].mode.x
  }

  ghost predicate AllOpen(nodes: Nodes, allowed: set<Path>) {
    forall p :: p in nodes && p != [] && !Kept(allowed, p) ==> OpenTo(nodes, p)
  }

  /** The state of a prune that still has the paths of `rest` to look at. */
  ghost predicate Pruning(first: Nodes, nodes: Nodes, allowed: set<Path>, rest: set<Path>) {
    && (forall p :: p in nodes ==> p in first && nodes[p] == first[p])
    && (forall p :: p in first && p !in nodes ==> Visible(first, p) && p !in rest && OpenTo(first, p) && !Kept(allowed, p))
    && (forall p :: p in rest ==> Visible(first, p))
    && (forall p, q :: Visible(first, p) && p !in rest && q in rest ==> |q| <= |p|)
    && (AllOpen(first, allowed) ==> forall p :: Visible(first, p) && p !in rest && !Kept(allowed, p) ==> p !in nodes)
  }

  lemma DeepestExists(paths: set<Path>)
    requires paths != {}
    ensures exists p :: p in paths && forall q :: q in paths ==> |q| <= |p|
  {
    var p :| p in paths;
    var others := paths - {p};
    if others == {} {
      assert paths == {p};
    } else {
      DeepestExists(others);
      var d :| d in others && forall q :: q in others ==> |q| <= |d|;
      assert forall q :: q in paths ==> q == p || q in others;
      assert |p| <= |d| || forall q :: q in paths ==> |q| <= |p|;
    }
  }

  /** The deepest remaining path and all directories above it are still there. */
  lemma PruneReach(first: Nodes, nodes: Nodes, allowed: set<Path>, rest: set<Path>, p: Path)
    requires Pruning(first, nodes, allowed, rest) && p in rest
    ensures Visible(nodes, p)
  {
    forall k | 0 <= k < |p| ensures p[..k] in nodes {
      assert |p[..k]| < |p| && IsDir(first, p[..k]);
    }
  }

  lemma SearchableChild(nodes: Nodes, p: Path)
    requires Visible(nodes, p) && nodes[p[..|p| - 1]].mode.x
    ensures Searchable(nodes, p)
  {
    forall k | 0 <= k < |p| ensures IsDir(nodes, p[..k]) && nodes[p[..k]].mode.x {
      if k == |p| - 1 {
        assert p[..k] == p[..|p| - 1];
      }
    }
  }

  lemma KeptAbove(allowed: set<Path>, p: Path, q: Path)
    requires p <= q && Kept(allowed, q)
    ensures Kept(allowed, p)
  {
    var a :| a in allowed && q <= a;
    assert p <= a;
  }

  lemma PruneSkip(first: Nodes, nodes: Nodes, allowed: set<Path>, rest: set<Path>, p: Path)
    requires Pruning(first, nodes, allowed, rest) && p in rest && Kept(allowed, p)
    requires forall q :: q in rest ==> |q| <= |p|
    ensures Pruning(first, nodes, allowed, rest - {p})
  {
  }

  lemma PruneStep(first: Nodes, before: Nodes, after: Nodes, allowed: set<Path>, rest: set<Path>, p: Path, done: bool)
    requires Pruning(first, before, allowed, rest) && p in rest && !Kept(allowed, p)
    requires forall q :: q in rest ==> |q| <= |p|
    requires Visible(before, p) && Searchable(before, p)
    requires done <==> (IsDir(before, p) ==> forall q :: q in before ==> !(p < q))
    requires after == if done then before - {p} else before
    ensures Pruning(first, after, allowed, rest - {p})
  {
    assert OpenTo(first, p) by {
      forall k | 0 <= k < |p| ensures IsDir(first, p[..k]) && first[p[..k]].mode.r && first[p[..k]].mode.x {
        assert IsDir(before, p[..k]) && before[p[..k]].mode.x;
      }
    }
    if AllOpen(first, allowed) && !done {
      var q :| q in before && p < q;
      if Kept(allowed, q) {
        KeptAbove(allowed, p, q);
      }
      assert OpenTo(first, q) && Visible(first, q);
    }
  }
}
