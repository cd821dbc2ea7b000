/** The migration of a runtime home into a persistent target, and the verification that compares the two. */
module HomeMigration {
  import opened HomeInventory
  import opened HomeTarget
  import opened Options

  datatype Phase = Plan | Seed | Finalize

  datatype Outcome = Listed | Blocked | NotConfirmed | DatabaseUnsound | Interrupted | Done

  const PLAIN := Mode(true, true, false, 0)

  /** The content of the home's database, if the home has a database file. */
  function DatabaseOf(fs: Tree, root: Ino): (db: Option<Content>)
    requires root in fs
  {
    var d := Denotes(fs, root, STATE_DB);
    if d.Inside? && d.ino in fs && fs[d.ino].File? then Some(fs[d.ino].content) else None
  }

  ghost function AllowedPaths(entries: seq<Entry>): set<Path> {
    (set e | e in entries :: e.logical) + {STATE_DB, RECEIPT}
  }

  /**
    What a migration assumes of the two trees: nodes at the same path are of the same kind, the database files of the
    home are files, the home holds no receipt, and the target's receipt and database files can be replaced.
   */
  ghost predicate Compatible(nodes: Nodes, entries: seq<Entry>) {
    && NoClash(nodes, entries)
    && (forall e :: e in entries && Database(e.logical) ==> !e.directory)
    && (forall e :: e in entries ==> e.logical != RECEIPT)
    && (forall p :: Database(p) ==> !IsDir(nodes, p))
    && (RECEIPT in nodes ==> nodes[RECEIPT].TFile? && nodes[RECEIPT].mode.w)
  }

  /** The home can be read by its owner, who runs the migration. */
  ghost predicate SourceReadable(entries: seq<Entry>) {
    forall e :: e in entries ==> e.mode.r && (e.directory ==> e.mode.x)
  }

  /** The owner may list and traverse every directory, other than those of the inventory, above a stale path of the target. */
  ghost predicate StaleReachable(nodes: Nodes, entries: seq<Entry>) {
    forall p, k :: p in nodes && p !in AllowedPaths(entries) && 0 < k < |p| ==>
      (exists e :: RecordedAs(entries, p[..k], e)) || (IsDir(nodes, p[..k]) && nodes[p[..k]].mode.r && nodes[p[..k]].mode.x)
  }

  /** The paths of the target after a finalization. */
  ghost predicate FinalPath(before: Nodes, entries: seq<Entry>, db: Option<Content>, p: Path) {
    || p == [] || p == RECEIPT
    || (exists e :: RecordedAs(entries, p, e) && Copied(e))
    || (p == STATE_DB && (db.Some? || p in before))
    || (p in SIDE_FILES && db.None? && p in before && exists e :: RecordedAs(entries, p, e))
  }

  /** A target with exactly the final paths. */
  ghost predicate FinalShape(before: Nodes, after: Nodes, entries: seq<Entry>, db: Option<Content>) {
    forall p :: p in after <==> FinalPath(before, entries, db, p)
  }

  /** Every copied entry, the root and the database hold what they should. */
  ghost predicate FinalContents(fs: Tree, after: Nodes, entries: seq<Entry>, db: Option<Content>) {
    && (forall e :: e in entries && Copied(e) ==> e.logical in after && after[e.logical] == CopyOf(fs, e))
    && [] in after && after[[]] == TDir(Mode(true, true, true, 0))
    && (db.Some? ==> STATE_DB in after && after[STATE_DB] == TFile(PLAIN, db.value))
  }

  /** The target after a finalization that left nothing behind. */
  ghost predicate Finalized(fs: Tree, before: Nodes, after: Nodes, entries: seq<Entry>, db: Option<Content>) {
    FinalShape(before, after, entries, db) && FinalContents(fs, after, entries, db)
  }

  /** A finished target still has a side file of an older database exactly if the home has no database but names that file. */
  lemma SideFileStaysExactly(fs: Tree, before: Nodes, after: Nodes, entries: seq<Entry>, db: Option<Content>, p: Path)
    requires Finalized(fs, before, after, entries, db) && p in SIDE_FILES
    requires forall e :: e in entries && Database(e.logical) ==> !e.directory
    ensures p in after <==> db.None? && p in before && exists e :: RecordedAs(entries, p, e)
  {
    assert Database(p) && p != STATE_DB;
    assert p in after <==> FinalPath(before, entries, db, p);
  }

  const WAL: Path := [StateDbWal]

  /**
    Such a home: one side file and no database, and a target that an earlier run filled. A finalization meets all that
    `Migrate` asks for, and ends in a finished target that holds the side file.
   */
  lemma SideFileHome() returns (fs: Tree, before: Nodes, after: Nodes)
    ensures WellFormed(fs) && 0 in fs && fs[0].Dir? && InventoryOf(fs, {}, 0).problems == []
    ensures var entries := InventoryOf(fs, {}, 0).entries;
            && Compatible(before, entries) && TreeShaped(before) && DatabaseOf(fs, 0).None?
            && SourceReadable(entries) && StaleReachable(before, entries)
            && Finalized(fs, before, after, entries, None) && WAL in after
  {
    fs := map[0 := Dir(FRESH, [(StateDbWal, 1)]), 1 := File(PLAIN, 0)];
    before := map[[] := TDir(FRESH), WAL := TFile(PLAIN, 1)];
    after := before[RECEIPT := TFile(PLAIN, 2)];
    var e := Entry(WAL, 1, false, PLAIN);
    assert [] + [StateDbWal] == WAL;
    assert Walk(fs, {}, WAL, 1, [0]) == Report([e], [], []);
    var children := [(StateDbWal, 1)];
    assert children[1..] == [];
    assert WalkAll(fs, {}, [], children[1..], [0]) == Report([], [], []);
    assert WalkAll(fs, {}, [], children, [0]) == Append(Report([e], [], []), Report([], [], []));
    assert WAL[..0] == [] && RECEIPT[..0] == [];
    assert InventoryOf(fs, {}, 0).entries == [e];
    assert Lookup(children, StateDb) == 1;
    SideFileShape(before, after, e);
  }

  lemma SideFileShape(before: Nodes, after: Nodes, e: Entry)
    requires e.logical == WAL && !e.directory
    requires before == map[[] := TDir(FRESH), WAL := TFile(PLAIN, 1)] && after == before[RECEIPT := TFile(PLAIN, 2)]
    ensures FinalShape(before, after, [e], None) && !Copied(e)
  {
    assert RecordedAs([e], WAL, e) && WAL in SIDE_FILES && Database(WAL);
    assert STATE_DB !in before && STATE_DB != WAL;
    forall p ensures p in after <==> FinalPath(before, [e], None, p) {
      assert forall d :: RecordedAs([e], p, d) ==> d == e && p == WAL;
    }
  }

  ghost predicate AfterBackup(before: Nodes, after: Nodes, db: Option<Content>) {
    if db.None? then after == before
    else after == before[STATE_DB := TFile(PLAIN, db.value)] - SIDE_FILES
  }

  method Drop(home: Home, p: Path)
    requires TreeShaped(home.nodes) && !IsDir(home.nodes, p) && |p| == 1
    modifies home
    ensures home.nodes == old(home.nodes) - {p}
  {
    if p in home.nodes {
      assert p[..0] == [];
      var ok := home.Remove(p);
    }
  }

  /** The database backup: a checked copy takes the place of the old database, whose side files go. */
  method BackupDatabase(home: Home, db: Option<Content>, sound: bool) returns (ok: bool)
    requires TreeShaped(home.nodes) && forall p :: Database(p) ==> !IsDir(home.nodes, p)
    modifies home
    ensures ok <==> db.None? || sound
    ensures ok ==> AfterBackup(old(home.nodes), home.nodes, db) && TreeShaped(home.nodes)
    ensures !ok ==> home.nodes == old(home.nodes)
  {
    if db.None? {
      return true;
    }
    if !sound {
      return false;
    }
    assert STATE_DB[..0] == [];
    ok := home.PutFile(STATE_DB, PLAIN, db.value);
    ghost var put := home.nodes;
    TopFileKeepsShape(old(home.nodes), put, STATE_DB);
    assert Database([StateDbWal]) && Database([StateDbShm]);
    Drop(home, [StateDbWal]);
    TopFileGone(put, home.nodes, [StateDbWal]);
    ghost var mid := home.nodes;
    Drop(home, [StateDbShm]);
    TopFileGone(mid, home.nodes, [StateDbShm]);
    assert home.nodes == put - SIDE_FILES;
  }

  lemma TopFileKeepsShape(before: Nodes, after: Nodes, p: Path)
    requires TreeShaped(before) && |p| == 1 && !IsDir(before, p) && p in after && !after[p].TDir? && after == before[p := after[p]]
    ensures TreeShaped(after)
  {
    forall q | q in after && q != [] ensures IsDir(after, q[..|q| - 1]) {
      if q == p {
        assert q[..|q| - 1] == [];
      } else {
        assert IsDir(before, q[..|q| - 1]);
      }
    }
  }

  lemma TopFileGone(before: Nodes, after: Nodes, p: Path)
    requires TreeShaped(before) && |p| == 1 && !IsDir(before, p) && after == before - {p}
    ensures TreeShaped(after)
  {
    forall q | q in after && q != [] ensures IsDir(after, q[..|q| - 1]) {
      assert IsDir(before, q[..|q| - 1]);
    }
  }

  /** Writing the receipt creates or overwrites one file at the top of the target. */
  method WriteReceipt(home: Home, text: Content) returns (ok: bool)
    requires IsDir(home.nodes, []) && home.nodes[[]].mode.w && home.nodes[[]].mode.x
    requires RECEIPT in home.nodes ==> home.nodes[RECEIPT].TFile? && home.nodes[RECEIPT].mode.w
    modifies home
    ensures ok && exists m :: home.nodes == old(home.nodes)[RECEIPT := TFile(m, text)]
  {
    var m := if RECEIPT in home.nodes then home.nodes[RECEIPT].mode else PLAIN;
    assert RECEIPT[..0] == [];
    ok := home.PutFile(RECEIPT, m, text);
    assert home.nodes == old(home.nodes)[RECEIPT := TFile(m, text)];
  }

  /** The trees on the way from the old target to the point before the prune. */
  ghost predicate Staged(fs: Tree, first: Nodes, copied: Nodes, backed: Nodes, entries: seq<Entry>, db: Option<Content>) {
    && Inventoried(entries) && Compatible(first, entries)
    && TreeShaped(first[[] := TDir(FRESH)]) && AfterCopy(fs, first[[] := TDir(FRESH)], copied, entries)
    && AfterBackup(copied, backed, db) && TreeShaped(backed)
  }

  /** The copy does not touch the database files, the receipt or the root. */
  lemma CopySparesTop(fs: Tree, first: Nodes, copied: Nodes, entries: seq<Entry>, p: Path)
    requires Inventoried(entries) && Compatible(first, entries)
    requires AfterCopy(fs, first[[] := TDir(FRESH)], copied, entries)
    requires p == [] || p == RECEIPT || Database(p)
    ensures p == [] ==> p in copied && copied[p] == TDir(FRESH)
    ensures p != [] ==> (p in copied <==> p in first) && (p in first ==> copied[p] == first[p])
  {
    forall e | e in entries && Copied(e) ensures e.logical != p {
    }
  }

  /** In a tree every ancestor of a node is a directory. */
  lemma {:induction false} AncestorsAreDirs(nodes: Nodes, p: Path, k: nat)
    requires TreeShaped(nodes) && p in nodes && k < |p|
    ensures IsDir(nodes, p[..k])
    decreases |p|
  {
    var parent := p[..|p| - 1];
    assert IsDir(nodes, parent);
    if k < |p| - 1 {
      AncestorsAreDirs(nodes, parent, k);
      assert parent[..k] == p[..k];
    }
  }

  /** Since the entries are closed under parents, the kept paths are the allowed ones. */
  lemma KeptIsAllowed(entries: seq<Entry>, p: Path)
    requires Inventoried(entries) && p != []
    ensures Kept(AllowedPaths(entries), p) <==> p in AllowedPaths(entries)
  {
    var allowed := AllowedPaths(entries);
    if Kept(allowed, p) {
      var a :| a in allowed && p <= a;
      if p != a {
        assert |a| > 1;
        var e :| e in entries && e.logical == a;
        assert e.logical[..|p|] == p;
        assert HasDirectory(entries, e.logical[..|p|]);
        var d :| d in entries && d.directory && d.logical == e.logical[..|p|];
      }
    }
  }

  /** Where no entry stands, the tree before the prune is the old target, up to the root and the database files. */
  lemma StagedElsewhere(fs: Tree, first: Nodes, copied: Nodes, backed: Nodes, entries: seq<Entry>, db: Option<Content>, p: Path)
    requires Staged(fs, first, copied, backed, entries, db)
    requires p != [] && !Database(p) && forall e :: e in entries ==> e.logical != p
    ensures p in backed <==> p in first
    ensures p in first ==> backed[p] == first[p]
  {
  }

  lemma StagedEntry(fs: Tree, first: Nodes, copied: Nodes, backed: Nodes, entries: seq<Entry>, db: Option<Content>, e: Entry)
    requires Staged(fs, first, copied, backed, entries, db) && e in entries && Copied(e)
    ensures e.logical in backed && backed[e.logical] == CopyOf(fs, e)
  {
    assert !Database(e.logical);
  }

  lemma StagedTop(fs: Tree, first: Nodes, copied: Nodes, backed: Nodes, entries: seq<Entry>, db: Option<Content>)
    requires Staged(fs, first, copied, backed, entries, db)
    ensures [] in backed && backed[[]] == TDir(FRESH)
    ensures RECEIPT in backed <==> RECEIPT in first
    ensures RECEIPT in first ==> backed[RECEIPT] == first[RECEIPT]
    ensures STATE_DB in backed <==> db.Some? || STATE_DB in first
    ensures db.Some? ==> backed[STATE_DB] == TFile(PLAIN, db.value)
    ensures forall p :: p in SIDE_FILES ==> (p in backed <==> db.None? && p in first)
    ensures forall p :: Database(p) ==> !IsDir(backed, p)
  {
    CopySparesTop(fs, first, copied, entries, []);
    CopySparesTop(fs, first, copied, entries, RECEIPT);
    CopySparesTop(fs, first, copied, entries, STATE_DB);
    assert Database(STATE_DB);
    forall p | p in SIDE_FILES ensures (p in backed <==> db.None? && p in first) && !IsDir(backed, p) {
      assert Database(p) && p != STATE_DB;
      CopySparesTop(fs, first, copied, entries, p);
    }
  }

  /** Before the prune, every stale path is open to the owner exactly when the old target's stale paths are reachable. */
  lemma PruneCondition(fs: Tree, first: Nodes, copied: Nodes, backed: Nodes, entries: seq<Entry>, db: Option<Content>)
    requires Staged(fs, first, copied, backed, entries, db) && SourceReadable(entries)
    ensures AllOpen(backed, AllowedPaths(entries)) <==> StaleReachable(first, entries)
  {
    StagedTop(fs, first, copied, backed, entries, db);
    if StaleReachable(first, entries) {
      forall p | p in backed && p != [] && !Kept(AllowedPaths(entries), p) ensures OpenTo(backed, p) {
        KeptIsAllowed(entries, p);
        forall k | 0 <= k < |p| ensures IsDir(backed, p[..k]) && backed[p[..k]].mode.r && backed[p[..k]].mode.x {
          AncestorsAreDirs(backed, p, k);
          StaleAncestor(fs, first, copied, backed, entries, db, p, k);
        }
      }
    }
    if AllOpen(backed, AllowedPaths(entries)) {
      forall p, k | p in first && p !in AllowedPaths(entries) && 0 < k < |p| && !(exists e :: RecordedAs(entries, p[..k], e))
        ensures IsDir(first, p[..k]) && first[p[..k]].mode.r && first[p[..k]].mode.x
      {
        KeptIsAllowed(entries, p);
        assert forall e :: e in entries ==> RecordedAs(entries, e.logical, e);
        StagedElsewhere(fs, first, copied, backed, entries, db, p);
        assert OpenTo(backed, p);
        StagedElsewhere(fs, first, copied, backed, entries, db, p[..k]);
      }
    }
  }

  lemma StaleAncestor(fs: Tree, first: Nodes, copied: Nodes, backed: Nodes, entries: seq<Entry>, db: Option<Content>, p: Path, k: nat)
    requires Staged(fs, first, copied, backed, entries, db) && SourceReadable(entries) && StaleReachable(first, entries)
    requires p in backed && p !in AllowedPaths(entries) && k < |p| && IsDir(backed, p[..k])
    ensures backed[p[..k]].mode.r && backed[p[..k]].mode.x
  {
    StagedTop(fs, first, copied, backed, entries, db);
    var q := p[..k];
    if k > 0 {
      if e :| RecordedAs(entries, q, e) {
        StagedEntry(fs, first, copied, backed, entries, db, e);
      } else {
        assert forall e :: e in entries ==> RecordedAs(entries, e.logical, e);
        StagedElsewhere(fs, first, copied, backed, entries, db, q);
        StagedElsewhere(fs, first, copied, backed, entries, db, p);
      }
    }
  }

  /** Which paths of entries the target has before the prune. */
  lemma StagedAllowed(fs: Tree, first: Nodes, copied: Nodes, backed: Nodes, entries: seq<Entry>, db: Option<Content>, e: Entry)
    requires Staged(fs, first, copied, backed, entries, db) && e in entries
    ensures e.logical in backed <==> FinalPath(first, entries, db, e.logical)
  {
    StagedTop(fs, first, copied, backed, entries, db);
    assert RecordedAs(entries, e.logical, e);
    if Copied(e) {
      StagedEntry(fs, first, copied, backed, entries, db, e);
    } else {
      forall d | RecordedAs(entries, e.logical, d) ensures d == e {
        OnePath(entries, d, e);
      }
    }
  }

  lemma FinalKeys(fs: Tree, first: Nodes, copied: Nodes, backed: Nodes, pruned: Nodes, entries: seq<Entry>, db: Option<Content>, p: Path)
    requires Staged(fs, first, copied, backed, entries, db) && PrunedFrom(backed, pruned, AllowedPaths(entries))
    ensures p == [] || p == RECEIPT || p in AllowedPaths(entries) ==>
              (p in pruned || p == RECEIPT <==> FinalPath(first, entries, db, p))
    ensures FinalPath(first, entries, db, p) ==> p == [] || p == RECEIPT || p in AllowedPaths(entries)
  {
    FinalAllowed(first, entries, db, p);
    StagedTop(fs, first, copied, backed, entries, db);
    if p != [] && p in AllowedPaths(entries) && p != RECEIPT {
      KeptIsAllowed(entries, p);
      StagedKey(fs, first, copied, backed, entries, db, p);
    }
  }

  lemma FinalAllowed(first: Nodes, entries: seq<Entry>, db: Option<Content>, p: Path)
    ensures FinalPath(first, entries, db, p) ==> p == [] || p == RECEIPT || p in AllowedPaths(entries)
  {
  }

  lemma StagedKey(fs: Tree, first: Nodes, copied: Nodes, backed: Nodes, entries: seq<Entry>, db: Option<Content>, p: Path)
    requires Staged(fs, first, copied, backed, entries, db) && p in AllowedPaths(entries) && p != [] && p != RECEIPT
    ensures p in backed <==> FinalPath(first, entries, db, p)
  {
    if e :| e in entries && e.logical == p {
      StagedAllowed(fs, first, copied, backed, entries, db, e);
    } else {
      StagedTop(fs, first, copied, backed, entries, db);
      assert p == STATE_DB && forall e :: !RecordedAs(entries, p, e);
    }
  }

  /** What a prune may have left: nothing new, and all that is kept. */
  ghost predicate PrunedFrom(backed: Nodes, pruned: Nodes, allowed: set<Path>) {
    && (forall p :: p in pruned ==> p in backed && pruned[p] == backed[p])
    && (forall p :: p in backed && (p == [] || Kept(allowed, p)) ==> p in pruned)
  }

  ghost predicate OnlyKept(nodes: Nodes, allowed: set<Path>) {
    forall p :: p in nodes && p != [] ==> Kept(allowed, p)
  }

  lemma FinalEntries(fs: Tree, first: Nodes, copied: Nodes, backed: Nodes, pruned: Nodes, entries: seq<Entry>, db: Option<Content>, e: Entry)
    requires Staged(fs, first, copied, backed, entries, db) && PrunedFrom(backed, pruned, AllowedPaths(entries))
    requires e in entries && Copied(e)
    ensures e.logical in pruned && pruned[e.logical] == CopyOf(fs, e) && e.logical != RECEIPT
  {
    StagedEntry(fs, first, copied, backed, entries, db, e);
    KeptIsAllowed(entries, e.logical);
  }

  lemma FinalPathKept(fs: Tree, first: Nodes, copied: Nodes, backed: Nodes, pruned: Nodes, entries: seq<Entry>, db: Option<Content>, p: Path)
    requires Staged(fs, first, copied, backed, entries, db) && PrunedFrom(backed, pruned, AllowedPaths(entries))
    ensures (p in pruned || p == RECEIPT) && (p == [] || Kept(AllowedPaths(entries), p)) <==> FinalPath(first, entries, db, p)
  {
    FinalKeys(fs, first, copied, backed, pruned, entries, db, p);
    if p != [] {
      KeptIsAllowed(entries, p);
    } else {
      StagedTop(fs, first, copied, backed, entries, db);
    }
  }

  /** After the receipt is written, the target is as promised exactly when the prune left only kept paths. */
  lemma FinalizedExactly(fs: Tree, first: Nodes, copied: Nodes, backed: Nodes, pruned: Nodes, after: Nodes,
                         entries: seq<Entry>, db: Option<Content>)
    requires Staged(fs, first, copied, backed, entries, db) && PrunedFrom(backed, pruned, AllowedPaths(entries))
    requires RECEIPT in after && after == pruned[RECEIPT := after[RECEIPT]]
    ensures Finalized(fs, first, after, entries, db) <==> OnlyKept(pruned, AllowedPaths(entries))
  {
    FinalRest(fs, first, copied, backed, pruned, after, entries, db);
    assert Kept(AllowedPaths(entries), RECEIPT);
    assert forall p :: p in after <==> p in pruned || p == RECEIPT;
    ShapeExactly(fs, first, copied, backed, pruned, after, entries, db);
  }

  lemma ShapeExactly(fs: Tree, first: Nodes, copied: Nodes, backed: Nodes, pruned: Nodes, after: Nodes,
                     entries: seq<Entry>, db: Option<Content>)
    requires Staged(fs, first, copied, backed, entries, db) && PrunedFrom(backed, pruned, AllowedPaths(entries))
    requires forall p :: p in after <==> p in pruned || p == RECEIPT
    requires Kept(AllowedPaths(entries), RECEIPT)
    ensures FinalShape(first, after, entries, db) <==> OnlyKept(pruned, AllowedPaths(entries))
  {
    if OnlyKept(pruned, AllowedPaths(entries)) {
      forall p ensures p in after <==> FinalPath(first, entries, db, p) {
        FinalPathKept(fs, first, copied, backed, pruned, entries, db, p);
      }
    }
    if FinalShape(first, after, entries, db) {
      forall p | p in pruned && p != [] ensures Kept(AllowedPaths(entries), p) {
        FinalPathKept(fs, first, copied, backed, pruned, entries, db, p);
      }
    }
  }

  lemma FinalRest(fs: Tree, first: Nodes, copied: Nodes, backed: Nodes, pruned: Nodes, after: Nodes,
                  entries: seq<Entry>, db: Option<Content>)
    requires Staged(fs, first, copied, backed, entries, db) && PrunedFrom(backed, pruned, AllowedPaths(entries))
    requires RECEIPT in after && after == pruned[RECEIPT := after[RECEIPT]]
    ensures FinalContents(fs, after, entries, db)
  {
    forall e | e in entries && Copied(e) ensures e.logical in after && after[e.logical] == CopyOf(fs, e) {
      FinalEntries(fs, first, copied, backed, pruned, entries, db, e);
    }
    StagedTop(fs, first, copied, backed, entries, db);
    KeptIsAllowed(entries, STATE_DB);
  }

  lemma InventoryIsInventoried(fs: Tree, excluded: set<Name>, root: Ino)
    requires WellFormed(fs) && root in fs && fs[root].Dir? && InventoryOf(fs, excluded, root).problems == []
    ensures Inventoried(InventoryOf(fs, excluded, root).entries)
  {
    InventoryExact(fs, excluded, root);
    InventoryParentClosed(fs, excluded, root);
    forall e | e in InventoryOf(fs, excluded, root).entries ensures e.logical != [] {
      assert Recorded(InventoryOf(fs, excluded, root).entries, e.logical);
    }
  }

  /** The home's paths stand in the target as what they denote: directories and files with their modes, files with their contents. */
  ghost predicate Mirrors(fs: Tree, excluded: set<Name>, root: Ino, nodes: Nodes)
    requires root in fs
  {
    forall p :: Wanted(fs, excluded, root, p) && !Database(p) ==>
      && p in nodes
      && match fs[Denotes(fs, root, p).ino]
         case Dir(mode, _) => nodes[p] == TDir(mode)
         case File(mode, content) => nodes[p] == TFile(mode, content)
         case _ => false
  }

  /** The target holds the home's database, and no side file of an older one; without a database nothing of it changed. */
  ghost predicate HoldsDatabase(fs: Tree, root: Ino, before: Nodes, nodes: Nodes)
    requires root in fs
  {
    var d := Denotes(fs, root, [StateDb]);
    if d.Inside? && d.ino in fs && fs[d.ino].File? then
      && [StateDb] in nodes && nodes[[StateDb]].TFile? && nodes[[StateDb]].content == fs[d.ino].content
      && [StateDbWal] !in nodes && [StateDbShm] !in nodes
    else
      forall p :: Database(p) ==> (p in nodes <==> p in before) && (p in before ==> nodes[p] == before[p])
  }

  ghost predicate HoldsReceipt(nodes: Nodes, receipt: Content) {
    RECEIPT in nodes && nodes[RECEIPT].TFile? && nodes[RECEIPT].content == receipt
  }

  /** The target after a seed: a mirror of the home beside what was there before. */
  ghost predicate Seeded(fs: Tree, excluded: set<Name>, root: Ino, before: Nodes, nodes: Nodes, receipt: Content)
    requires root in fs
  {
    && Mirrors(fs, excluded, root, nodes) && HoldsDatabase(fs, root, before, nodes) && HoldsReceipt(nodes, receipt)
    && [] in nodes && nodes[[]] == TDir(Mode(true, true, true, 0))
    && forall p :: p != [] && p != RECEIPT && !Database(p) && !Wanted(fs, excluded, root, p) ==>
         (p in nodes <==> p in before) && (p in before ==> nodes[p] == before[p])
  }

  /** Where no entry is copied, the target is as it was, up to its root, its receipt and its database. */
  ghost predicate SpareElsewhere(before: Nodes, after: Nodes, entries: seq<Entry>) {
    forall p :: p != [] && p != RECEIPT && !Database(p) && (forall e :: e in entries ==> e.logical != p) ==>
      (p in after <==> p in before) && (p in before ==> after[p] == before[p])
  }

  lemma SeedSpares(fs: Tree, first: Nodes, copied: Nodes, backed: Nodes, after: Nodes, entries: seq<Entry>, db: Option<Content>)
    requires Staged(fs, first, copied, backed, entries, db) && RECEIPT in after && after == backed[RECEIPT := after[RECEIPT]]
    ensures SpareElsewhere(first, after, entries)
  {
    forall p | p != [] && p != RECEIPT && !Database(p) && (forall e :: e in entries ==> e.logical != p)
      ensures (p in after <==> p in first) && (p in first ==> after[p] == first[p])
    {
      StagedElsewhere(fs, first, copied, backed, entries, db, p);
    }
  }

  lemma StagedContents(fs: Tree, first: Nodes, copied: Nodes, backed: Nodes, after: Nodes, entries: seq<Entry>, db: Option<Content>)
    requires Staged(fs, first, copied, backed, entries, db) && RECEIPT in after && after == backed[RECEIPT := after[RECEIPT]]
    ensures FinalContents(fs, after, entries, db)
  {
    StagedTop(fs, first, copied, backed, entries, db);
    forall e | e in entries && Copied(e) ensures e.logical in after && after[e.logical] == CopyOf(fs, e) {
      StagedEntry(fs, first, copied, backed, entries, db, e);
    }
  }

  /** Entries that are copied faithfully make a mirror of the home. */
  lemma EntriesMirror(fs: Tree, excluded: set<Name>, root: Ino, nodes: Nodes)
    requires WellFormed(fs) && root in fs && fs[root].Dir? && InventoryOf(fs, excluded, root).problems == []
    requires forall e :: e in InventoryOf(fs, excluded, root).entries && Copied(e) ==> e.logical in nodes && nodes[e.logical] == CopyOf(fs, e)
    ensures Mirrors(fs, excluded, root, nodes)
  {
    InventoryExact(fs, excluded, root);
    var entries := InventoryOf(fs, excluded, root).entries;
    forall p | Wanted(fs, excluded, root, p) && !Database(p)
      ensures p in nodes && match fs[Denotes(fs, root, p).ino]
                            case Dir(mode, _) => nodes[p] == TDir(mode)
                            case File(mode, content) => nodes[p] == TFile(mode, content)
                            case _ => false
    {
      assert Recorded(entries, p);
      var e :| e in entries && e.logical == p;
      assert Describes(fs, [], root, e) && e.logical[0..] == e.logical;
    }
  }

  /** What the copy does not touch is what the home does not want. */
  lemma ElsewhereIsUnwanted(fs: Tree, excluded: set<Name>, root: Ino, before: Nodes, after: Nodes)
    requires WellFormed(fs) && root in fs && fs[root].Dir? && InventoryOf(fs, excluded, root).problems == []
    requires SpareElsewhere(before, after, InventoryOf(fs, excluded, root).entries)
    ensures forall p :: p != [] && p != RECEIPT && !Database(p) && !Wanted(fs, excluded, root, p) ==>
              (p in after <==> p in before) && (p in before ==> after[p] == before[p])
  {
    InventoryExact(fs, excluded, root);
    var entries := InventoryOf(fs, excluded, root).entries;
    forall p | p != [] && p != RECEIPT && !Database(p) && !Wanted(fs, excluded, root, p)
      ensures (p in after <==> p in before) && (p in before ==> after[p] == before[p])
    {
      assert !Recorded(entries, p);
    }
  }

  /** The database part, after the receipt. */
  lemma SeedHoldsDatabase(fs: Tree, root: Ino, first: Nodes, copied: Nodes, backed: Nodes, after: Nodes, entries: seq<Entry>)
    requires root in fs && Staged(fs, first, copied, backed, entries, DatabaseOf(fs, root))
    requires RECEIPT in after && after == backed[RECEIPT := after[RECEIPT]]
    ensures HoldsDatabase(fs, root, first, after)
  {
    var db := DatabaseOf(fs, root);
    StagedTop(fs, first, copied, backed, entries, db);
    assert [StateDbWal] in SIDE_FILES && [StateDbShm] in SIDE_FILES;
    if db.None? {
      forall p | Database(p) ensures (p in after <==> p in first) && (p in first ==> after[p] == first[p]) {
        CopySparesTop(fs, first, copied, entries, p);
      }
    }
  }

  /** Copy, database backup, prune when finalizing, receipt. */
  method Transfer(finalize: bool, fs: Tree, root: Ino, entries: seq<Entry>, home: Home, sound: bool, receipt: Content)
    returns (outcome: Outcome)
    requires root in fs && Inventoried(entries) && Compatible(home.nodes, entries)
    requires TreeShaped(home.nodes[[] := TDir(FRESH)])
    modifies home
    ensures outcome.DatabaseUnsound? || outcome.Interrupted? || outcome.Done?
    ensures outcome.DatabaseUnsound? <==> Readable(entries) && DatabaseOf(fs, root).Some? && !sound
    ensures outcome.Interrupted? ==> finalize || !Readable(entries)
    ensures !Readable(entries) ==> outcome.Interrupted?
    ensures outcome.Done? ==> FinalContents(fs, home.nodes, entries, DatabaseOf(fs, root)) && HoldsReceipt(home.nodes, receipt)
    ensures outcome.Done? && !finalize ==>
              SpareElsewhere(old(home.nodes), home.nodes, entries) && HoldsDatabase(fs, root, old(home.nodes), home.nodes)
    ensures finalize && (sound || DatabaseOf(fs, root).None?) && SourceReadable(entries) ==>
              ((outcome.Done? && Finalized(fs, old(home.nodes), home.nodes, entries, DatabaseOf(fs, root)))
               <==> StaleReachable(old(home.nodes), entries))
  {
    var db := DatabaseOf(fs, root);
    ghost var first := home.nodes;
    home.nodes := home.nodes[[] := TDir(FRESH)];
    var ok := home.Copy(fs, entries);
    if !ok {
      return Interrupted;
    }
    ghost var copied := home.nodes;
    forall p | p == RECEIPT || Database(p) ensures (p in copied <==> p in first) && (p in first ==> copied[p] == first[p]) {
      CopySparesTop(fs, first, copied, entries, p);
    }
    ok := BackupDatabase(home, db, sound);
    if !ok {
      return DatabaseUnsound;
    }
    ghost var backed := home.nodes;
    StagedTop(fs, first, copied, backed, entries, db);
    if !finalize {
      ok := WriteReceipt(home, receipt);
      SeedSpares(fs, first, copied, backed, home.nodes, entries, db);
      SeedHoldsDatabase(fs, root, first, copied, backed, home.nodes, entries);
      StagedContents(fs, first, copied, backed, home.nodes, entries, db);
      return Done;
    }
    ok := home.Prune((set e | e in entries :: e.logical) + {STATE_DB, RECEIPT});
    if SourceReadable(entries) {
      PruneCondition(fs, first, copied, backed, entries, db);
    }
    if !ok {
      return Interrupted;
    }
    ghost var pruned := home.nodes;
    ok := WriteReceipt(home, receipt);
    FinalizedExactly(fs, first, copied, backed, pruned, home.nodes, entries, db);
    FinalRest(fs, first, copied, backed, pruned, home.nodes, entries, db);
    return Done;
  }

  /**
    The migration. With the gateway confirmed stopped, an inventory without problems and a sound database, finalizing
    ends with exactly the final paths, each holding the copy of its source, if and only if the owner may reach every
    stale path of the old target.
   */
  method Migrate(phase: Phase, confirmed: bool, fs: Tree, excluded: set<Name>, root: Ino, home: Home, sound: bool, receipt: Content)
    returns (outcome: Outcome)
    requires WellFormed(fs) && root in fs && fs[root].Dir?
    requires TreeShaped(home.nodes[[] := TDir(FRESH)])
    requires Compatible(home.nodes, InventoryOf(fs, excluded, root).entries)
    modifies home
    ensures outcome.Listed? <==> phase.Plan?
    ensures outcome.Blocked? <==> !phase.Plan? && InventoryOf(fs, excluded, root).problems != []
    ensures outcome.NotConfirmed? <==> phase.Finalize? && InventoryOf(fs, excluded, root).problems == [] && !confirmed
    ensures outcome.Listed? || outcome.Blocked? || outcome.NotConfirmed? ==> home.nodes == old(home.nodes)
    ensures outcome.DatabaseUnsound? <==>
              && !phase.Plan? && (phase.Finalize? ==> confirmed) && InventoryOf(fs, excluded, root).problems == []
              && Readable(InventoryOf(fs, excluded, root).entries) && DatabaseOf(fs, root).Some? && !sound
    ensures phase.Seed? && InventoryOf(fs, excluded, root).problems == [] ==>
              (outcome.Done? <==> Readable(InventoryOf(fs, excluded, root).entries) && (sound || DatabaseOf(fs, root).None?))
    ensures phase.Seed? && outcome.Done? ==> Seeded(fs, excluded, root, old(home.nodes), home.nodes, receipt)
    ensures outcome.Done? ==> Mirrors(fs, excluded, root, home.nodes) && HoldsReceipt(home.nodes, receipt)
    ensures phase.Finalize? && confirmed && InventoryOf(fs, excluded, root).problems == []
            && (sound || DatabaseOf(fs, root).None?) && SourceReadable(InventoryOf(fs, excluded, root).entries) ==>
              ((outcome.Done? && Finalized(fs, old(home.nodes), home.nodes, InventoryOf(fs, excluded, root).entries, DatabaseOf(fs, root)))
               <==> StaleReachable(old(home.nodes), InventoryOf(fs, excluded, root).entries))
  {
    var inventory := new Inventory();
    inventory.Take(fs, excluded, root);
    if phase.Plan? {
      return Listed;
    }
    if inventory.problems != [] {
      return Blocked;
    }
    if phase.Finalize? && !confirmed {
      return NotConfirmed;
    }
    InventoryIsInventoried(fs, excluded, root);
    outcome := Transfer(phase.Finalize?, fs, root, inventory.entries, home, sound, receipt);
    if outcome.Done? {
      EntriesMirror(fs, excluded, root, home.nodes);
      if phase.Seed? {
        ElsewhereIsUnwanted(fs, excluded, root, old(home.nodes), home.nodes);
      }
    }
  }

  /** The owner can read a regular file with this content at `p`. */
  predicate ReadsAs(nodes: Nodes, p: Path, content: Content) {
    && p in nodes && Searchable(nodes, p)
    && match nodes[p]
       case TDir(_) => false
       case TFile(mode, c) => mode.r && c == content
       case TLink(through) => through == Some(content)
  }

  predicate IsFile(nodes: Nodes, p: Path) {
    p in nodes && (nodes[p].TFile? || (nodes[p].TLink? && nodes[p].through.Some?))
  }

  /** The verification of a target against its home; `sound` is the integrity check of the target's database. */
  method Verify(fs: Tree, excluded: set<Name>, root: Ino, home: Home, sound: bool) returns (ok: bool)
    requires WellFormed(fs) && root in fs && fs[root].Dir?
    ensures ok <==> VerifyPasses(fs, excluded, root, home.nodes, sound)
  {
    var inventory := new Inventory();
    inventory.Take(fs, excluded, root);
    if inventory.problems != [] {
      return false;
    }
    var entries := inventory.entries;
    ok := true;
    for k := 0 to |entries|
      invariant ok <==> forall e :: e in entries[..k] && !e.directory && Copied(e) ==> ReadsAs(home.nodes, e.logical, ContentOf(fs, e))
    {
      var e := entries[k];
      assert entries[..k + 1] == entries[..k] + [e];
      if !e.directory && Copied(e) && !ReadsAs(home.nodes, e.logical, ContentOf(fs, e)) {
        ok := false;
      }
    }
    assert entries[..|entries|] == entries;
    if DatabaseOf(fs, root).Some? && !IsFile(home.nodes, STATE_DB) {
      ok := false;
    } else if IsFile(home.nodes, STATE_DB) && !sound {
      ok := false;
    }
  }

  ghost predicate VerifyPasses(fs: Tree, excluded: set<Name>, root: Ino, nodes: Nodes, sound: bool)
    requires WellFormed(fs) && root in fs && fs[root].Dir?
  {
    var inventory := InventoryOf(fs, excluded, root);
    && inventory.problems == []
    && (forall e :: e in inventory.entries && !e.directory && Copied(e) ==> ReadsAs(nodes, e.logical, ContentOf(fs, e)))
    && (DatabaseOf(fs, root).Some? ==> IsFile(nodes, STATE_DB))
    && (IsFile(nodes, STATE_DB) ==> sound)
  }

  /** The verification compares what the home's paths denote: every file must be read in the target with its content. */
  lemma VerifyExactly(fs: Tree, excluded: set<Name>, root: Ino, nodes: Nodes, sound: bool)
    requires WellFormed(fs) && root in fs && fs[root].Dir?
    ensures VerifyPasses(fs, excluded, root, nodes, sound) <==>
              && InventoryOf(fs, excluded, root).problems == []
              && (forall p :: Wanted(fs, excluded, root, p) && !Database(p) && fs[Denotes(fs, root, p).ino].File? ==>
                    ReadsAs(nodes, p, fs[Denotes(fs, root, p).ino].content))
              && (Stored(fs, root, [StateDb]) && fs[Denotes(fs, root, [StateDb]).ino].File? ==> IsFile(nodes, [StateDb]))
              && (IsFile(nodes, [StateDb]) ==> sound)
  {
    if InventoryOf(fs, excluded, root).problems == [] {
      InventoryExact(fs, excluded, root);
      var entries := InventoryOf(fs, excluded, root).entries;
      forall e | e in entries
        ensures Wanted(fs, excluded, root, e.logical) && Denotes(fs, root, e.logical) == Inside(e.source)
        ensures e.source in fs && (e.directory <==> fs[e.source].Dir?) && (!e.directory ==> fs[e.source].File?)
      {
        assert Recorded(entries, e.logical) && e.logical[0..] == e.logical && Describes(fs, [], root, e);
      }
      forall p | Wanted(fs, excluded, root, p) ensures exists e :: e in entries && e.logical == p {
        assert Recorded(entries, p);
      }
    }
  }

  /** Verifying right after a finalization, on an unchanged home with sound databases, finds no mismatch. */
  lemma VerifyAfterFinalize(fs: Tree, excluded: set<Name>, root: Ino, before: Nodes, after: Nodes)
    requires WellFormed(fs) && root in fs && fs[root].Dir?
    requires InventoryOf(fs, excluded, root).problems == [] && SourceReadable(InventoryOf(fs, excluded, root).entries)
    requires Finalized(fs, before, after, InventoryOf(fs, excluded, root).entries, DatabaseOf(fs, root))
    ensures VerifyPasses(fs, excluded, root, after, true)
  {
    var entries := InventoryOf(fs, excluded, root).entries;
    InventoryIsInventoried(fs, excluded, root);
    forall e | e in entries && !e.directory && Copied(e) ensures ReadsAs(after, e.logical, ContentOf(fs, e)) {
      forall k | 0 <= k < |e.logical| ensures IsDir(after, e.logical[..k]) && after[e.logical[..k]].mode.x {
        if k == 0 {
          assert e.logical[..0] == [];
        } else {
          assert HasDirectory(entries, e.logical[..k]);
          var d :| d in entries && d.directory && d.logical == e.logical[..k];
          assert Copied(d);
        }
      }
    }
  }
}
