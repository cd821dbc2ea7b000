/**
  The inventory walk over a runtime home: every symbolic link that stays inside the home is followed,
  so that one directory can appear under several logical paths.
 */
module HomeInventory {
  import opened Options

  /** The names that the migration treats specially, and all other file names. */
  datatype Name = StateDb | StateDbWal | StateDbShm | MigrationReceipt | Other(text: string)

  type Path = seq<Name>
  type Ino = nat
  type Content = int

  /** Permission bits: the owner's three, and everything else. */
  datatype Mode = Mode(r: bool, w: bool, x: bool, rest: nat)

  /** Where a symbolic link leads once fully resolved: out of the home, to a node of the home, or to nothing. */
  datatype Dest = Outside | Inside(ino: Ino) | Missing

  /** The entries of a directory are listed in name order. */
  datatype Node =
    | Dir(mode: Mode, children: seq<(Name, Ino)>)
    | File(mode: Mode, content: Content)
    | Link(dest: Dest)
    | Socket
    | Special

  type Tree = map<Ino, Node>

  datatype Entry = Entry(logical: Path, source: Ino, directory: bool, mode: Mode)

  datatype Problem = External(at: Path) | Cycle(at: Path) | Disappeared(at: Path) | Unsupported(at: Path)

  datatype Report = Report(entries: seq<Entry>, problems: seq<Problem>, sockets: seq<Path>)

  /** Children exist and have different names; a resolved link never ends at a link. */
  ghost predicate WellFormed(fs: Tree) {
    forall i :: i in fs ==>
      match fs[i]
      case Dir(_, children) =>
        && (forall k :: 0 <= k < |children| ==> children[k].1 in fs)
        && (forall j, k :: 0 <= j < k < |children| ==> children[j].0 != children[k].0)
      case Link(dest) => dest.Inside? ==> dest.ino in fs && !fs[dest.ino].Link?
      case _ => true
  }

  function Resolve(fs: Tree, i: Ino): Dest
    requires i in fs
  {
    if fs[i].Link? then fs[i].dest else Inside(i)
  }

  predicate Excluded(excluded: set<Name>, p: Path) {
    p != [] && p[0] in excluded
  }

  function Append(a: Report, b: Report): Report {
    Report(a.entries + b.entries, a.problems + b.problems, a.sockets + b.sockets)
  }

  /** The directories that are not open on the stack. */
  ghost function Unopened(fs: Tree, stack: seq<Ino>): set<Ino> {
    set i | i in fs && fs[i].Dir? && i !in stack
  }

  lemma OpeningShrinks(fs: Tree, stack: seq<Ino>, i: Ino)
    requires i in Unopened(fs, stack)
    ensures |Unopened(fs, stack + [i])| < |Unopened(fs, stack)|
  {
    var before, after := Unopened(fs, stack), Unopened(fs, stack + [i]);
    assert after == before - {i};
  }

  /** What the walk reports for the node `raw` met at logical path `logical`, with the directories of `stack` open. */
  ghost function Walk(fs: Tree, excluded: set<Name>, logical: Path, raw: Ino, stack: seq<Ino>): Report
    requires WellFormed(fs) && raw in fs
    decreases |Unopened(fs, stack)|, 0
  {
    if Excluded(excluded, logical) then Report([], [], []) else
    match Resolve(fs, raw)
    case Outside => Report([], [External(logical)], [])
    case Missing => Report([], [Disappeared(logical)], [])
    case Inside(i) =>
      match fs[i]
      case Dir(mode, children) =>
        if i in stack then Report([], [Cycle(logical)], []) else
        OpeningShrinks(fs, stack, i);
        Append(Report([Entry(logical, i, true, mode)], [], []), WalkAll(fs, excluded, logical, children, stack + [i]))
      case File(mode, _) => Report([Entry(logical, i, false, mode)], [], [])
      case Socket => Report([], [], [logical])
      case _ => Report([], [Unsupported(logical)], [])
  }

  ghost function WalkAll(fs: Tree, excluded: set<Name>, logical: Path, children: seq<(Name, Ino)>, stack: seq<Ino>): Report
    requires WellFormed(fs) && forall k :: 0 <= k < |children| ==> children[k].1 in fs
    decreases |Unopened(fs, stack)|, |children|
  {
    if children == [] then Report([], [], []) else
    Append(Walk(fs, excluded, logical + [children[0].0], children[0].1, stack), WalkAll(fs, excluded, logical, children[1..], stack))
  }

  /** The inventory of the home whose root directory is `root`. */
  ghost function InventoryOf(fs: Tree, excluded: set<Name>, root: Ino): Report
    requires WellFormed(fs) && root in fs && fs[root].Dir?
  {
    WalkAll(fs, excluded, [], fs[root].children, [root])
  }

  /** The lists that the walk fills. */
  class Inventory {
    var entries: seq<Entry>
    var problems: seq<Problem>
    var sockets: seq<Path>

    constructor ()
      ensures Found() == Report([], [], [])
    {
      entries, problems, sockets := [], [], [];
    }

    function Found(): Report
      reads this
    {
      Report(entries, problems, sockets)
    }

    method Record(entry: Entry)
      modifies this
      ensures Found() == Append(old(Found()), Report([entry], [], []))
    {
      entries := entries + [entry];
    }

    method Refuse(problem: Problem)
      modifies this
      ensures Found() == Append(old(Found()), Report([], [problem], []))
    {
      problems := problems + [problem];
    }

    method Ignore(socket: Path)
      modifies this
      ensures Found() == Append(old(Found()), Report([], [], [socket]))
    {
      sockets := sockets + [socket];
    }

    method Collect(fs: Tree, excluded: set<Name>, logical: Path, raw: Ino, stack: seq<Ino>)
      requires WellFormed(fs) && raw in fs
      modifies this
      ensures Found() == Append(old(Found()), Walk(fs, excluded, logical, raw, stack))
      decreases |Unopened(fs, stack)|, 0
    {
      if Excluded(excluded, logical) {
        return;
      }
      var actual := raw;
      if fs[raw].Link? {
        match fs[raw].dest {
          case Outside =>
            Refuse(External(logical));
            return;
          case Missing =>
            Refuse(Disappeared(logical));
            return;
          case Inside(i) => actual := i;
        }
      }
      match fs[actual] {
        case Dir(mode, children) =>
          if actual in stack {
            Refuse(Cycle(logical));
            return;
          }
          ghost var before := Found();
          Record(Entry(logical, actual, true, mode));
          OpeningShrinks(fs, stack, actual);
          CollectAll(fs, excluded, logical, children, stack + [actual]);
          AppendAssociates(before, Report([Entry(logical, actual, true, mode)], [], []),
                           WalkAll(fs, excluded, logical, children, stack + [actual]));
        case File(mode, _) => Record(Entry(logical, actual, false, mode));
        case Socket => Ignore(logical);
        case Special => Refuse(Unsupported(logical));
        case Link(_) => assert false;
      }
    }

    method CollectAll(fs: Tree, excluded: set<Name>, logical: Path, children: seq<(Name, Ino)>, stack: seq<Ino>)
      requires WellFormed(fs) && forall k :: 0 <= k < |children| ==> children[k].1 in fs
      modifies this
      ensures Found() == Append(old(Found()), WalkAll(fs, excluded, logical, children, stack))
      decreases |Unopened(fs, stack)|, |children| + 1
    {
      var k := 0;
      while k < |children|
        invariant 0 <= k <= |children|
        invariant Append(old(Found()), WalkAll(fs, excluded, logical, children, stack))
               == Append(Found(), WalkAll(fs, excluded, logical, children[k..], stack))
      {
        ghost var before := Found();
        Collect(fs, excluded, logical + [children[k].0], children[k].1, stack);
        assert children[k..][1..] == children[k + 1..];
        AppendAssociates(before, Walk(fs, excluded, logical + [children[k].0], children[k].1, stack),
                         WalkAll(fs, excluded, logical, children[k + 1..], stack));
        k := k + 1;
      }
    }

    method Take(fs: Tree, excluded: set<Name>, root: Ino)
      requires WellFormed(fs) && root in fs && fs[root].Dir?
      requires Found() == Report([], [], [])
      modifies this
      ensures Found() == InventoryOf(fs, excluded, root)
    {
      CollectAll(fs, excluded, [], fs[root].children, [root]);
    }
  }

  lemma AppendAssociates(a: Report, b: Report, c: Report)
    ensures Append(Append(a, b), c) == Append(a, Append(b, c))
  {
  }

  /** The index of a name in a listing, or its length. */
  function Lookup(children: seq<(Name, Ino)>, name: Name): (k: nat)
    ensures k <= |children|
    ensures k < |children| ==> children[k].0 == name
    ensures k == |children| ==> forall j :: 0 <= j < |children| ==> children[j].0 != name
  {
    if children == [] || children[0].0 == name then 0 else 1 + Lookup(children[1..], name)
  }

  /** What path `p` denotes when it starts at node `raw`, following links; independent of the walk. */
  function Denotes(fs: Tree, raw: Ino, p: Path): Dest
    requires raw in fs
    decreases |p|
  {
    var here := Resolve(fs, raw);
    if p == [] || !here.Inside? || here.ino !in fs then here
    else if !fs[here.ino].Dir? then Missing
    else
      var children := fs[here.ino].children;
      var k := Lookup(children, p[0]);
      if k == |children| || children[k].1 !in fs then Missing else Denotes(fs, children[k].1, p[1..])
  }

  /** `p`, starting at `raw`, denotes a directory or a regular file of the home. */
  predicate Stored(fs: Tree, raw: Ino, p: Path)
    requires raw in fs
  {
    var d := Denotes(fs, raw, p);
    d.Inside? && d.ino in fs && (fs[d.ino].Dir? || fs[d.ino].File?)
  }

  /** An entry that describes what its path, starting at `raw` below the logical path `logical`, denotes. */
  predicate Describes(fs: Tree, logical: Path, raw: Ino, e: Entry)
    requires raw in fs
  {
    && logical <= e.logical
    && Denotes(fs, raw, e.logical[|logical|..]) == Inside(e.source) && e.source in fs
    && (if e.directory then fs[e.source].Dir? && fs[e.source].mode == e.mode
        else fs[e.source].File? && fs[e.source].mode == e.mode)
  }

  ghost predicate Recorded(entries: seq<Entry>, p: Path) {
    exists e :: e in entries && e.logical == p
  }

  ghost predicate DistinctPaths(entries: seq<Entry>) {
    forall i, j :: 0 <= i < j < |entries| ==> entries[i].logical != entries[j].logical
  }

  /** Every recorded entry describes its path. */
  lemma {:induction false} WalkSound(fs: Tree, excluded: set<Name>, logical: Path, raw: Ino, stack: seq<Ino>)
    requires WellFormed(fs) && raw in fs
    ensures forall e :: e in Walk(fs, excluded, logical, raw, stack).entries ==> Describes(fs, logical, raw, e)
    decreases |Unopened(fs, stack)|, 0
  {
    var d := Resolve(fs, raw);
    if !Excluded(excluded, logical) && d.Inside? && fs[d.ino].Dir? && d.ino !in stack {
      var children := fs[d.ino].children;
      OpeningShrinks(fs, stack, d.ino);
      WalkAllSound(fs, excluded, logical, children, stack + [d.ino]);
      forall e | e in WalkAll(fs, excluded, logical, children, stack + [d.ino]).entries ensures Describes(fs, logical, raw, e) {
        var k :| 0 <= k < |children| && Describes(fs, logical + [children[k].0], children[k].1, e);
        DenotesChild(fs, raw, k, e.logical[|logical|..]);
        assert e.logical[|logical|..][1..] == e.logical[|logical| + 1..];
      }
    }
  }

  lemma {:induction false} WalkAllSound(fs: Tree, excluded: set<Name>, logical: Path, children: seq<(Name, Ino)>, stack: seq<Ino>)
    requires WellFormed(fs) && forall k :: 0 <= k < |children| ==> children[k].1 in fs
    ensures forall e :: e in WalkAll(fs, excluded, logical, children, stack).entries ==>
              exists k :: 0 <= k < |children| && Describes(fs, logical + [children[k].0], children[k].1, e)
    decreases |Unopened(fs, stack)|, |children|
  {
    if children != [] {
      WalkSound(fs, excluded, logical + [children[0].0], children[0].1, stack);
      WalkAllSound(fs, excluded, logical, children[1..], stack);
      forall e | e in WalkAll(fs, excluded, logical, children[1..], stack).entries
        ensures exists k :: 0 <= k < |children| && Describes(fs, logical + [children[k].0], children[k].1, e)
      {
        var k :| 0 <= k < |children[1..]| && Describes(fs, logical + [children[1..][k].0], children[1..][k].1, e);
        assert children[k + 1] == children[1..][k];
      }
    }
  }

  /** A path through the `k`-th child denotes what its rest denotes from that child. */
  lemma DenotesChild(fs: Tree, raw: Ino, k: nat, p: Path)
    requires WellFormed(fs) && raw in fs
    requires Resolve(fs, raw).Inside? && fs[Resolve(fs, raw).ino].Dir?
    requires k < |fs[Resolve(fs, raw).ino].children|
    requires p != [] && p[0] == fs[Resolve(fs, raw).ino].children[k].0
    ensures Denotes(fs, raw, p) == Denotes(fs, fs[Resolve(fs, raw).ino].children[k].1, p[1..])
  {
    var children := fs[Resolve(fs, raw).ino].children;
    assert Lookup(children, p[0]) == k;
  }

  /** Different children have different entries, and a directory's own entry is none of theirs. */
  lemma {:induction false} WalkDistinct(fs: Tree, excluded: set<Name>, logical: Path, raw: Ino, stack: seq<Ino>)
    requires WellFormed(fs) && raw in fs
    ensures DistinctPaths(Walk(fs, excluded, logical, raw, stack).entries)
    decreases |Unopened(fs, stack)|, 0
  {
    var d := Resolve(fs, raw);
    if !Excluded(excluded, logical) && d.Inside? && fs[d.ino].Dir? && d.ino !in stack {
      var children := fs[d.ino].children;
      OpeningShrinks(fs, stack, d.ino);
      WalkAllDistinct(fs, excluded, logical, children, stack + [d.ino]);
      WalkAllSound(fs, excluded, logical, children, stack + [d.ino]);
      var below := WalkAll(fs, excluded, logical, children, stack + [d.ino]).entries;
      forall e | e in below ensures e.logical != logical {
        var k :| 0 <= k < |children| && Describes(fs, logical + [children[k].0], children[k].1, e);
      }
      PrependDistinct(Entry(logical, d.ino, true, fs[d.ino].mode), below);
    }
  }

  lemma PrependDistinct(e: Entry, entries: seq<Entry>)
    requires DistinctPaths(entries) && forall x :: x in entries ==> x.logical != e.logical
    ensures DistinctPaths([e] + entries)
  {
    var all := [e] + entries;
    forall i, j | 0 <= i < j < |all| ensures all[i].logical != all[j].logical {
      assert all[j] == entries[j - 1] && all[j] in entries;
    }
  }

  lemma ConcatDistinct(a: seq<Entry>, b: seq<Entry>)
    requires DistinctPaths(a) && DistinctPaths(b)
    requires forall x, y :: x in a && y in b ==> x.logical != y.logical
    ensures DistinctPaths(a + b)
  {
    var all := a + b;
    forall i, j | 0 <= i < j < |all| ensures all[i].logical != all[j].logical {
      if i < |a| <= j {
        assert all[i] in a && all[j] in b;
      }
    }
  }

  lemma {:induction false} WalkAllDistinct(fs: Tree, excluded: set<Name>, logical: Path, children: seq<(Name, Ino)>, stack: seq<Ino>)
    requires WellFormed(fs) && forall k :: 0 <= k < |children| ==> children[k].1 in fs
    requires forall j, k :: 0 <= j < k < |children| ==> children[j].0 != children[k].0
    ensures DistinctPaths(WalkAll(fs, excluded, logical, children, stack).entries)
    decreases |Unopened(fs, stack)|, |children|
  {
    if children != [] {
      var first := logical + [children[0].0];
      var head := Walk(fs, excluded, first, children[0].1, stack).entries;
      var tail := WalkAll(fs, excluded, logical, children[1..], stack).entries;
      WalkDistinct(fs, excluded, first, children[0].1, stack);
      WalkAllDistinct(fs, excluded, logical, children[1..], stack);
      WalkSound(fs, excluded, first, children[0].1, stack);
      WalkAllSound(fs, excluded, logical, children[1..], stack);
      forall x, y | x in head && y in tail ensures x.logical != y.logical {
        var k :| 0 <= k < |children[1..]| && Describes(fs, logical + [children[1..][k].0], children[1..][k].1, y);
        assert x.logical[|logical|] == children[0].0 && y.logical[|logical|] == children[k + 1].0;
      }
      ConcatDistinct(head, tail);
    }
  }

  /** A walk without problems records every stored path below a node that is not excluded. */
  lemma {:induction false} WalkComplete(fs: Tree, excluded: set<Name>, logical: Path, raw: Ino, stack: seq<Ino>, p: Path)
    requires WellFormed(fs) && raw in fs && logical != [] && !Excluded(excluded, logical)
    requires Walk(fs, excluded, logical, raw, stack).problems == []
    requires Stored(fs, raw, p)
    ensures Recorded(Walk(fs, excluded, logical, raw, stack).entries, logical + p)
    decreases |p|
  {
    var d := Resolve(fs, raw);
    var entries := Walk(fs, excluded, logical, raw, stack).entries;
    assert entries[0].logical == logical;
    if p == [] {
      assert logical + p == logical;
      assert entries[0] in entries;
    } else {
      var children := fs[d.ino].children;
      var k := Lookup(children, p[0]);
      var below := WalkAll(fs, excluded, logical, children, stack + [d.ino]);
      assert Walk(fs, excluded, logical, raw, stack) == Append(Report([Entry(logical, d.ino, true, fs[d.ino].mode)], [], []), below);
      WalkAllChild(fs, excluded, logical, children, stack + [d.ino], k);
      WalkComplete(fs, excluded, logical + [children[k].0], children[k].1, stack + [d.ino], p[1..]);
      assert logical + [children[k].0] + p[1..] == logical + p;
      var e :| e in Walk(fs, excluded, logical + [children[k].0], children[k].1, stack + [d.ino]).entries && e.logical == logical + p;
      assert e in entries;
    }
  }

  /** The report of a directory contains the report of each child. */
  lemma {:induction false} WalkAllChild(fs: Tree, excluded: set<Name>, logical: Path, children: seq<(Name, Ino)>, stack: seq<Ino>, k: nat)
    requires WellFormed(fs) && forall k :: 0 <= k < |children| ==> children[k].1 in fs
    requires k < |children|
    ensures forall e :: e in Walk(fs, excluded, logical + [children[k].0], children[k].1, stack).entries ==>
              e in WalkAll(fs, excluded, logical, children, stack).entries
    ensures WalkAll(fs, excluded, logical, children, stack).problems == [] ==>
              Walk(fs, excluded, logical + [children[k].0], children[k].1, stack).problems == []
    decreases |children|
  {
    if k > 0 {
      assert children[1..][k - 1] == children[k];
      WalkAllChild(fs, excluded, logical, children[1..], stack, k - 1);
    }
  }

  lemma {:induction false} WalkSkipsExcluded(fs: Tree, excluded: set<Name>, children: seq<(Name, Ino)>, stack: seq<Ino>)
    requires WellFormed(fs) && forall k :: 0 <= k < |children| ==> children[k].1 in fs
    ensures forall e :: e in WalkAll(fs, excluded, [], children, stack).entries ==> e.logical != [] && e.logical[0] !in excluded
    decreases |children|
  {
    if children != [] {
      var first := [] + [children[0].0];
      assert first == [children[0].0];
      WalkSound(fs, excluded, first, children[0].1, stack);
      WalkSkipsExcluded(fs, excluded, children[1..], stack);
    }
  }

  /** The paths that belong into a copy of the home. */
  predicate Wanted(fs: Tree, excluded: set<Name>, root: Ino, p: Path)
    requires root in fs
  {
    p != [] && p[0] !in excluded && Stored(fs, root, p)
  }

  /**
    An inventory without problems holds exactly the non-excluded logical paths that denote a directory or a file,
    each once, and each entry describes what its path denotes.
   */
  lemma InventoryExact(fs: Tree, excluded: set<Name>, root: Ino)
    requires WellFormed(fs) && root in fs && fs[root].Dir?
    requires InventoryOf(fs, excluded, root).problems == []
    ensures forall p :: Recorded(InventoryOf(fs, excluded, root).entries, p) <==> Wanted(fs, excluded, root, p)
    ensures DistinctPaths(InventoryOf(fs, excluded, root).entries)
    ensures forall e :: e in InventoryOf(fs, excluded, root).entries ==> Describes(fs, [], root, e)
  {
    var children := fs[root].children;
    var entries := InventoryOf(fs, excluded, root).entries;
    WalkAllDistinct(fs, excluded, [], children, [root]);
    WalkAllSound(fs, excluded, [], children, [root]);
    WalkSkipsExcluded(fs, excluded, children, [root]);
    forall e | e in entries ensures Describes(fs, [], root, e) && Wanted(fs, excluded, root, e.logical) {
      var k :| 0 <= k < |children| && Describes(fs, [] + [children[k].0], children[k].1, e);
      assert e.logical[0..] == e.logical;
      DenotesChild(fs, root, k, e.logical);
    }
    forall p | Wanted(fs, excluded, root, p) ensures Recorded(entries, p) {
      var k := Lookup(children, p[0]);
      WalkAllChild(fs, excluded, [], children, [root], k);
      var first := [] + [children[k].0];
      assert first + p[1..] == p;
      WalkComplete(fs, excluded, first, children[k].1, [root], p[1..]);
      var e :| e in Walk(fs, excluded, first, children[k].1, [root]).entries && e.logical == p;
      assert e in entries;
    }
  }

  lemma {:induction false} StoredPrefix(fs: Tree, raw: Ino, p: Path, k: nat)
    requires WellFormed(fs) && raw in fs && Stored(fs, raw, p) && k < |p|
    ensures Denotes(fs, raw, p[..k]).Inside? && Denotes(fs, raw, p[..k]).ino in fs && fs[Denotes(fs, raw, p[..k]).ino].Dir?
    decreases |p|
  {
    if k > 0 {
      var children := fs[Resolve(fs, raw).ino].children;
      var j := Lookup(children, p[0]);
      StoredPrefix(fs, children[j].1, p[1..], k - 1);
      assert p[..k][1..] == p[1..][..k - 1];
    }
  }

  ghost predicate HasDirectory(entries: seq<Entry>, p: Path) {
    exists d :: d in entries && d.directory && d.logical == p
  }

  /** Every ancestor of an entry is recorded as a directory. */
  ghost predicate ParentClosed(entries: seq<Entry>) {
    forall e, k :: e in entries && 0 < k < |e.logical| ==> HasDirectory(entries, e.logical[..k])
  }

  lemma InventoryParentClosed(fs: Tree, excluded: set<Name>, root: Ino)
    requires WellFormed(fs) && root in fs && fs[root].Dir?
    requires InventoryOf(fs, excluded, root).problems == []
    ensures ParentClosed(InventoryOf(fs, excluded, root).entries)
  {
    InventoryExact(fs, excluded, root);
    var entries := InventoryOf(fs, excluded, root).entries;
    forall e, k | e in entries && 0 < k < |e.logical| ensures HasDirectory(entries, e.logical[..k]) {
      assert Recorded(entries, e.logical);
      StoredPrefix(fs, root, e.logical, k);
      assert Wanted(fs, excluded, root, e.logical[..k]);
      assert Recorded(entries, e.logical[..k]);
      var d :| d in entries && d.logical == e.logical[..k];
      assert d.logical[0..] == d.logical;
    }
  }

  // ----- When a home has a problem -----

  /** Path `p`, starting at `raw`, comes back to a directory of `stack` or to one that it went through. */
  ghost predicate ComesBack(fs: Tree, raw: Ino, stack: seq<Ino>, p: Path)
    requires raw in fs
  {
    var d := Denotes(fs, raw, p);
    && d.Inside? && d.ino in fs && fs[d.ino].Dir?
    && (d.ino in stack || exists j :: 0 <= j < |p| && Denotes(fs, raw, p[..j]) == d)
  }

  /** The last name of `p` stands in the directory before it. */
  ghost predicate Listed(fs: Tree, raw: Ino, p: Path)
    requires raw in fs
  {
    || p == []
    || (var d := Denotes(fs, raw, p[..|p| - 1]);
        && d.Inside? && d.ino in fs && fs[d.ino].Dir?
        && exists k :: 0 <= k < |fs[d.ino].children| && fs[d.ino].children[k].0 == p[|p| - 1])
  }

  /** What is wrong at `p`, which no directory on the way cuts off: its directories are all new. */
  ghost predicate Trouble(fs: Tree, raw: Ino, stack: seq<Ino>, p: Path, x: Problem)
    requires raw in fs
  {
    && Listed(fs, raw, p) && (forall k :: 0 <= k < |p| ==> !ComesBack(fs, raw, stack, p[..k]))
    && var d := Denotes(fs, raw, p);
       match x
       case External(_) => d.Outside?
       case Disappeared(_) => d.Missing?
       case Cycle(_) => ComesBack(fs, raw, stack, p)
       case Unsupported(_) => d.Inside? && d.ino in fs && fs[d.ino].Special?
  }

  /** A child's part of a path denotes, and comes back, like the whole path. */
  lemma ChildComesBack(fs: Tree, raw: Ino, stack: seq<Ino>, k: nat, q: Path, n: nat)
    requires WellFormed(fs) && raw in fs && Resolve(fs, raw).Inside? && fs[Resolve(fs, raw).ino].Dir?
    requires k < |fs[Resolve(fs, raw).ino].children| && n < |q| && q[0] == fs[Resolve(fs, raw).ino].children[k].0
    ensures var i := Resolve(fs, raw).ino; var c := fs[i].children[k].1;
            && Denotes(fs, raw, q[..n + 1]) == Denotes(fs, c, q[1..][..n])
            && (ComesBack(fs, raw, stack, q[..n + 1]) <==> ComesBack(fs, c, stack + [i], q[1..][..n]))
  {
    var i := Resolve(fs, raw).ino;
    var c := fs[i].children[k].1;
    forall m | 0 <= m <= n ensures Denotes(fs, raw, q[..m + 1]) == Denotes(fs, c, q[1..][..m]) {
      DenotesChild(fs, raw, k, q[..m + 1]);
      assert q[..m + 1][1..] == q[1..][..m];
    }
    var p, r := q[..n + 1], q[1..][..n];
    var d := Denotes(fs, raw, p);
    assert p[..0] == [];
    if j :| 0 <= j < |p| && Denotes(fs, raw, p[..j]) == d {
      if j > 0 {
        assert p[..j] == q[..j - 1 + 1] && r[..j - 1] == q[1..][..j - 1];
        assert Denotes(fs, c, r[..j - 1]) == d;
      }
    }
    if j :| 0 <= j < |r| && Denotes(fs, c, r[..j]) == d {
      assert r[..j] == q[1..][..j] && p[..j + 1] == q[..j + 1];
      assert Denotes(fs, raw, p[..j + 1]) == d;
    }
  }

  /** Trouble below a directory is trouble below one of its children. */
  lemma TroubleBelow(fs: Tree, raw: Ino, stack: seq<Ino>, q: Path, x: Problem)
    requires WellFormed(fs) && raw in fs && Resolve(fs, raw).Inside? && fs[Resolve(fs, raw).ino].Dir?
    requires Resolve(fs, raw).ino !in stack && q != []
    ensures var i := Resolve(fs, raw).ino; var k := Lookup(fs[i].children, q[0]);
            Trouble(fs, raw, stack, q, x) <==>
              k < |fs[i].children| && Trouble(fs, fs[i].children[k].1, stack + [i], q[1..], x)
  {
    var i := Resolve(fs, raw).ino;
    var k := Lookup(fs[i].children, q[0]);
    assert q[..0] == [] && q[..|q|] == q && q[1..][..|q| - 1] == q[1..];
    if k < |fs[i].children| {
      var c := fs[i].children[k].1;
      forall n | 0 <= n < |q|
        ensures Denotes(fs, raw, q[..n + 1]) == Denotes(fs, c, q[1..][..n])
        ensures ComesBack(fs, raw, stack, q[..n + 1]) <==> ComesBack(fs, c, stack + [i], q[1..][..n])
      {
        ChildComesBack(fs, raw, stack, k, q, n);
      }
      ChildListed(fs, raw, k, q);
      if forall n :: 0 <= n < |q[1..]| ==> !ComesBack(fs, c, stack + [i], q[1..][..n]) {
        forall n | 0 <= n < |q| ensures !ComesBack(fs, raw, stack, q[..n]) {
          if n > 0 {
            assert ComesBack(fs, raw, stack, q[..n - 1 + 1]) <==> ComesBack(fs, c, stack + [i], q[1..][..n - 1]);
          }
        }
      }
    } else {
      assert |q| > 1 ==> q[..|q| - 1][0] == q[0];
    }
  }

  lemma ChildListed(fs: Tree, raw: Ino, k: nat, q: Path)
    requires WellFormed(fs) && raw in fs && Resolve(fs, raw).Inside? && fs[Resolve(fs, raw).ino].Dir?
    requires k < |fs[Resolve(fs, raw).ino].children| && q != [] && q[0] == fs[Resolve(fs, raw).ino].children[k].0
    ensures Listed(fs, raw, q) <==> Listed(fs, fs[Resolve(fs, raw).ino].children[k].1, q[1..])
  {
    if |q| > 1 {
      DenotesChild(fs, raw, k, q[..|q| - 1]);
      assert q[..|q| - 1][1..] == q[1..][..|q| - 2];
    }
  }

  /** Nothing is listed below a node that is no directory. */
  lemma LeafListsNothing(fs: Tree, raw: Ino, q: Path)
    requires WellFormed(fs) && raw in fs && q != []
    requires Resolve(fs, raw).Inside? ==> !fs[Resolve(fs, raw).ino].Dir?
    ensures !Listed(fs, raw, q)
  {
  }

  /** The problems of a walk are those at the paths below it. */
  lemma {:induction false} WalkTroubles(fs: Tree, excluded: set<Name>, logical: Path, raw: Ino, stack: seq<Ino>, x: Problem)
    requires WellFormed(fs) && raw in fs && logical != []
    ensures x in Walk(fs, excluded, logical, raw, stack).problems <==>
              !Excluded(excluded, logical) && logical <= x.at && Trouble(fs, raw, stack, x.at[|logical|..], x)
    decreases |Unopened(fs, stack)|, 0
  {
    if !Excluded(excluded, logical) {
      var d := Resolve(fs, raw);
      if d.Inside? && fs[d.ino].Dir? && d.ino !in stack {
        OpeningShrinks(fs, stack, d.ino);
        WalkAllTroubles(fs, excluded, logical, fs[d.ino].children, stack + [d.ino], x);
        if logical <= x.at && x.at != logical {
          ChildTrouble(fs, excluded, logical, raw, stack, x);
        }
      } else if logical <= x.at {
        LeafTrouble(fs, excluded, logical, raw, stack, x);
      }
    }
  }

  /** A directory that is not open reports the problems of its children. */
  lemma ChildTrouble(fs: Tree, excluded: set<Name>, logical: Path, raw: Ino, stack: seq<Ino>, x: Problem)
    requires WellFormed(fs) && raw in fs && Resolve(fs, raw).Inside? && fs[Resolve(fs, raw).ino].Dir?
    requires Resolve(fs, raw).ino !in stack && !Excluded(excluded, logical) && logical < x.at
    ensures var i := Resolve(fs, raw).ino;
            Trouble(fs, raw, stack, x.at[|logical|..], x) && !Excluded(excluded, x.at[..|logical| + 1]) <==>
              exists k :: 0 <= k < |fs[i].children| && ChildReports(fs, excluded, logical, fs[i].children[k], stack + [i], x)
  {
    var i := Resolve(fs, raw).ino;
    var q := x.at[|logical|..];
    var k := Lookup(fs[i].children, q[0]);
    TroubleBelow(fs, raw, stack, q, x);
    assert q[1..] == x.at[|logical| + 1..];
    if k < |fs[i].children| {
      assert logical + [fs[i].children[k].0] == x.at[..|logical| + 1];
      assert ChildReports(fs, excluded, logical, fs[i].children[k], stack + [i], x) <==>
          !Excluded(excluded, x.at[..|logical| + 1]) && Trouble(fs, fs[i].children[k].1, stack + [i], q[1..], x);
    }
    forall j | 0 <= j < |fs[i].children| && ChildReports(fs, excluded, logical, fs[i].children[j], stack + [i], x) ensures j == k {
      assert (logical + [fs[i].children[j].0])[|logical|] == q[0];
    }
  }

  /** The problem is one of the child's. */
  ghost predicate ChildReports(fs: Tree, excluded: set<Name>, logical: Path, child: (Name, Ino), stack: seq<Ino>, x: Problem) {
    && child.1 in fs && !Excluded(excluded, logical + [child.0])
    && logical + [child.0] <= x.at && Trouble(fs, child.1, stack, x.at[|logical| + 1..], x)
  }

  /** Any other node has at most one problem, its own. */
  lemma LeafTrouble(fs: Tree, excluded: set<Name>, logical: Path, raw: Ino, stack: seq<Ino>, x: Problem)
    requires WellFormed(fs) && raw in fs && !Excluded(excluded, logical) && logical <= x.at
    requires Resolve(fs, raw).Inside? && fs[Resolve(fs, raw).ino].Dir? ==> Resolve(fs, raw).ino in stack
    ensures x in Walk(fs, excluded, logical, raw, stack).problems <==> Trouble(fs, raw, stack, x.at[|logical|..], x)
  {
    var q := x.at[|logical|..];
    if q != [] {
      assert q[..0] == [];
      var d := Resolve(fs, raw);
      if d.Inside? && fs[d.ino].Dir? {
        assert ComesBack(fs, raw, stack, q[..0]);
      } else {
        LeafListsNothing(fs, raw, q);
      }
    } else {
      assert x.at == logical;
    }
  }

  lemma {:induction false} WalkAllTroubles(fs: Tree, excluded: set<Name>, logical: Path, children: seq<(Name, Ino)>, stack: seq<Ino>, x: Problem)
    requires WellFormed(fs) && forall k :: 0 <= k < |children| ==> children[k].1 in fs
    ensures x in WalkAll(fs, excluded, logical, children, stack).problems <==>
              exists k :: 0 <= k < |children| && ChildReports(fs, excluded, logical, children[k], stack, x)
    decreases |Unopened(fs, stack)|, |children|
  {
    if children != [] {
      var first := logical + [children[0].0];
      WalkTroubles(fs, excluded, first, children[0].1, stack, x);
      WalkAllTroubles(fs, excluded, logical, children[1..], stack, x);
      assert |first| == |logical| + 1;
      if k :| 0 <= k < |children[1..]| && ChildReports(fs, excluded, logical, children[1..][k], stack, x) {
        assert children[1..][k] == children[k + 1];
      }
      if k :| 0 <= k < |children| && ChildReports(fs, excluded, logical, children[k], stack, x) {
        assert k > 0 ==> children[1..][k - 1] == children[k];
      }
    }
  }

  /**
    The problems of a home are exactly these, at paths that are not excluded and whose directories are all different: a link
    that leaves the home, a link to nothing, a directory that the path already went through, and a special file.
   */
  lemma ProblemsExact(fs: Tree, excluded: set<Name>, root: Ino)
    requires WellFormed(fs) && root in fs && fs[root].Dir?
    ensures forall x :: x in InventoryOf(fs, excluded, root).problems <==>
              x.at != [] && x.at[0] !in excluded && Trouble(fs, root, [], x.at, x)
  {
    forall x: Problem
      ensures x in InventoryOf(fs, excluded, root).problems <==>
                x.at != [] && x.at[0] !in excluded && Trouble(fs, root, [], x.at, x)
    {
      WalkAllTroubles(fs, excluded, [], fs[root].children, [root], x);
      assert [] + [root] == [root];
      if x.at != [] {
        ChildTrouble(fs, excluded, [], root, [], x);
        assert x.at[0..] == x.at;
      }
    }
  }
}
