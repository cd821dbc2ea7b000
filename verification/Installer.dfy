/**
  Installing a release by replacing every target path with a link into the release's code tree, with an undo log
  that is replayed in reverse when a step fails. Different target paths may denote the same location
  (`.venv/lib64` is usually a link to `.venv/lib`), and every file operation may fail.
 */
module Installer {
  type Path = string
  type Location = nat

  /** What stands at a location: a symbolic link with its text, or a directory or file with the relative files below it. */
  datatype Node = Link(text: string) | Tree(files: set<string>)

  type Nodes = map<Location, Node>

  datatype Target = Target(tag: string, path: Path, source: string)

  /** An entry of the undo log. */
  datatype Undo =
    | Relink(target: Target, text: string)
    | MoveBack(target: Target)
    | Remove(target: Target)

  datatype Outcome = Refused | Installed | RolledBack | RollbackIncomplete(errors: seq<Path>)

  predicate DistinctLabels(targets: seq<Target>) {
    forall i, j :: 0 <= i < j < |targets| ==> targets[i].tag != targets[j].tag
  }

  /** The targets with every repeated path dropped after its first appearance. */
  method UniqueTargets(raw: seq<Target>) returns (unique: seq<Target>)
    ensures forall i, j :: 0 <= i < j < |unique| ==> unique[i].path != unique[j].path
    ensures forall t :: t in unique ==> exists k :: 0 <= k < |raw| && raw[k] == t && forall j :: 0 <= j < k ==> raw[j].path != t.path
    ensures forall t :: t in raw ==> exists u :: u in unique && u.path == t.path
    ensures DistinctLabels(raw) ==> DistinctLabels(unique)
  {
    unique := [];
    var seen: set<Path> := {};
    ghost var origin: seq<nat> := [];
    for k := 0 to |raw|
      invariant |origin| == |unique|
      invariant forall i :: 0 <= i < |unique| ==>
                  origin[i] < k && raw[origin[i]] == unique[i] && forall j :: 0 <= j < origin[i] ==> raw[j].path != unique[i].path
      invariant forall i, j :: 0 <= i < j < |unique| ==> origin[i] < origin[j] && unique[i].path != unique[j].path
      invariant forall p :: p in seen <==> exists i :: 0 <= i < |unique| && unique[i].path == p
      invariant forall j :: 0 <= j < k ==> raw[j].path in seen
    {
      if raw[k].path !in seen {
        seen := seen + {raw[k].path};
        ghost var previous := unique;
        unique := unique + [raw[k]];
        origin := origin + [k];
        assert unique[|previous|] == raw[k];
        assert forall i :: 0 <= i < |previous| ==> unique[i] == previous[i];
      }
    }
  }

  /** What the log moved away is in the backup directory. */
  predicate BackedUp(log: seq<Undo>, backups: map<string, Node>) {
    forall step :: step in log && step.MoveBack? ==> step.target.tag in backups
  }

  /** The content that a path has after undoing one logged step. */
  function Undone(at: Path -> Location, nodes: Nodes, backups: map<string, Node>, step: Undo): Nodes {
    var here := at(step.target.path);
    match step
    case Relink(_, text) => nodes[here := Link(text)]
    case MoveBack(t) => if t.tag in backups then nodes[here := backups[t.tag]] else nodes
    case Remove(_) => nodes - {here}
  }

  /** The nodes after replaying the whole log, newest step first. */
  function Replayed(at: Path -> Location, nodes: Nodes, backups: map<string, Node>, log: seq<Undo>): Nodes
    decreases |log|
  {
    if log == [] then nodes
    else Replayed(at, Undone(at, nodes, backups, log[|log| - 1]), backups, log[..|log| - 1])
  }

  /** Equal content, or nothing in both. */
  predicate SameAt(a: Nodes, b: Nodes, l: Location) {
    if l in a then l in b && a[l] == b[l] else l !in b
  }

  /** None of the paths denotes `l`. */
  predicate Spared(at: Path -> Location, paths: seq<Path>, l: Location) {
    forall i :: 0 <= i < |paths| ==> at(paths[i]) != l
  }

  lemma SameEverywhere(a: Nodes, b: Nodes)
    requires forall l :: SameAt(a, b, l)
    ensures a == b
  {
    forall l ensures l in a <==> l in b {
      assert SameAt(a, b, l);
    }
    forall l | l in a ensures a[l] == b[l] {
      assert SameAt(a, b, l);
    }
  }

  lemma {:induction false} ReplayedIsLocal(at: Path -> Location, a: Nodes, b: Nodes, backups: map<string, Node>, log: seq<Undo>, l: Location)
    requires SameAt(a, b, l)
    ensures SameAt(Replayed(at, a, backups, log), Replayed(at, b, backups, log), l)
    decreases |log|
  {
    if log != [] {
      var last := log[|log| - 1];
      ReplayedIsLocal(at, Undone(at, a, backups, last), Undone(at, b, backups, last), backups, log[..|log| - 1], l);
    }
  }

  /** Where no undo step failed, the rest of the log leads to the goal. */
  ghost predicate Restored(at: Path -> Location, nodes: Nodes, backups: map<string, Node>, log: seq<Undo>, errors: seq<Path>, goal: Nodes) {
    forall l :: Spared(at, errors, l) ==> SameAt(Replayed(at, nodes, backups, log), goal, l)
  }

  /** An undo step, whether it went through or was reported, keeps this. */
  lemma RestoredStep(at: Path -> Location, before: Nodes, kept: map<string, Node>, nodes: Nodes, backups: map<string, Node>,
                     rest: seq<Undo>, step: Undo, failed: seq<Path>, errors: seq<Path>, goal: Nodes)
    requires Restored(at, before, kept, rest + [step], failed, goal)
    requires forall tag :: tag != step.target.tag ==>
               (tag in backups <==> tag in kept) && (tag in backups ==> backups[tag] == kept[tag])
    requires forall s :: s in rest ==> s.target.tag != step.target.tag
    requires (errors == failed && nodes == Undone(at, before, kept, step))
          || (errors == failed + [step.target.path] && forall l :: l != at(step.target.path) ==> SameAt(before, nodes, l))
    ensures Restored(at, nodes, backups, rest, errors, goal)
  {
    ReplayedLast(at, before, kept, rest, step);
    ReplayedFrame(at, nodes, kept, backups, rest);
    forall l | Spared(at, errors, l) ensures SameAt(Replayed(at, nodes, backups, rest), goal, l) {
      assert forall k :: 0 <= k < |failed| ==> failed[k] == errors[k];
      assert Spared(at, failed, l);
      if |errors| > |failed| {
        assert errors[|failed|] == step.target.path;
        assert at(errors[|failed|]) != l;
        assert SameAt(before, nodes, l);
      }
      assert SameAt(Undone(at, before, kept, step), nodes, l);
      ReplayedIsLocal(at, Undone(at, before, kept, step), nodes, kept, rest, l);
      assert SameAt(Replayed(at, before, kept, rest + [step]), goal, l);
    }
  }

  /** Only the backups of the logged targets matter. */
  lemma {:induction false} ReplayedFrame(at: Path -> Location, nodes: Nodes, b: map<string, Node>, c: map<string, Node>, log: seq<Undo>)
    requires forall step :: step in log ==>
               (step.target.tag in b <==> step.target.tag in c)
               && (step.target.tag in b ==> b[step.target.tag] == c[step.target.tag])
    ensures Replayed(at, nodes, b, log) == Replayed(at, nodes, c, log)
    decreases |log|
  {
    if log != [] {
      assert log[|log| - 1] in log;
      ReplayedFrame(at, Undone(at, nodes, b, log[|log| - 1]), b, c, log[..|log| - 1]);
    }
  }

  lemma ReplayedLast(at: Path -> Location, nodes: Nodes, backups: map<string, Node>, log: seq<Undo>, step: Undo)
    ensures Replayed(at, nodes, backups, log + [step]) == Replayed(at, Undone(at, nodes, backups, step), backups, log)
  {
    assert (log + [step])[..|log|] == log;
  }

  /** The log stays an exact undo of everything done since `first` when a step adds its own undo to it. */
  lemma LogGrows(at: Path -> Location, first: Nodes, before: Nodes, kept: map<string, Node>, log: seq<Undo>,
                 nodes: Nodes, backups: map<string, Node>, undo: seq<Undo>)
    requires Replayed(at, before, kept, log) == first
    requires |undo| <= 1 && Replayed(at, nodes, backups, undo) == before
    requires forall step :: step in log ==>
               (step.target.tag in kept <==> step.target.tag in backups)
               && (step.target.tag in kept ==> kept[step.target.tag] == backups[step.target.tag])
    ensures Replayed(at, nodes, backups, log + undo) == first
  {
    ReplayedFrame(at, before, kept, backups, log);
    if undo == [] {
      assert log + undo == log;
    } else {
      assert undo == [undo[0]] && undo[..0] == [];
      assert Replayed(at, nodes, backups, undo) == Undone(at, nodes, backups, undo[0]);
      ReplayedLast(at, nodes, backups, log, undo[0]);
    }
  }

  /** The log is about the first targets, has its backups, and undoes everything. */
  ghost predicate Logged(at: Path -> Location, first: Nodes, nodes: Nodes, backups: map<string, Node>,
                         targets: seq<Target>, log: seq<Undo>, k: nat) {
    && |log| <= k <= |targets| && (forall i :: 0 <= i < |log| ==> log[i].target == targets[i])
    && Replayed(at, nodes, backups, log) == first && BackedUp(log, backups)
  }

  /** The backups are those of the first targets. */
  ghost predicate Tagged(targets: seq<Target>, k: nat, backups: map<string, Node>) {
    forall tag :: tag in backups ==> exists j :: 0 <= j < k && j < |targets| && targets[j].tag == tag
  }

  lemma LoggedStep(at: Path -> Location, first: Nodes, before: Nodes, kept: map<string, Node>, nodes: Nodes,
                   backups: map<string, Node>, targets: seq<Target>, log: seq<Undo>, k: nat, undo: seq<Undo>)
    requires DistinctLabels(targets) && Logged(at, first, before, kept, targets, log, k) && |log| == k < |targets|
    requires forall tag :: tag != targets[k].tag ==>
               (tag in backups <==> tag in kept) && (tag in backups ==> backups[tag] == kept[tag])
    requires |undo| <= 1 && Replayed(at, nodes, backups, undo) == before && BackedUp(undo, backups)
    requires forall step :: step in undo ==> step.target == targets[k]
    ensures Logged(at, first, nodes, backups, targets, log + undo, k + 1)
  {
    forall step | step in log ensures step.target.tag != targets[k].tag {
      var i :| 0 <= i < |log| && log[i] == step;
    }
    LogGrows(at, first, before, kept, log, nodes, backups, undo);
    forall step | step in log + undo && step.MoveBack? ensures step.target.tag in backups {
      assert step in log || step in undo;
    }
  }

  /** The link text that installation writes for a payload path. */
  function Canonical(payload: string, source: string): string {
    payload + "/" + source
  }

  /** The nodes after every target has been switched, in order. */
  function Switched(at: Path -> Location, payload: string, nodes: Nodes, targets: seq<Target>): Nodes {
    if targets == [] then nodes
    else
      var last := targets[|targets| - 1];
      Switched(at, payload, nodes, targets[..|targets| - 1])[at(last.path) := Link(Canonical(payload, last.source))]
  }

  /** Target `k` is the last one that denotes location `l`. */
  ghost predicate LastAt(at: Path -> Location, targets: seq<Target>, l: Location, k: nat) {
    k < |targets| && at(targets[k].path) == l && forall j :: k < j < |targets| ==> at(targets[j].path) != l
  }

  /** Switching touches the targets' locations only. */
  lemma {:induction false} SwitchedElsewhere(at: Path -> Location, payload: string, nodes: Nodes, targets: seq<Target>, l: Location)
    requires forall t :: t in targets ==> at(t.path) != l
    ensures SameAt(nodes, Switched(at, payload, nodes, targets), l)
    decreases |targets|
  {
    if targets != [] {
      assert targets[|targets| - 1] in targets;
      SwitchedElsewhere(at, payload, nodes, targets[..|targets| - 1], l);
    }
  }

  /** A target's location ends as the link of the last target that denotes it. */
  lemma {:induction false} SwitchedAt(at: Path -> Location, payload: string, nodes: Nodes, targets: seq<Target>, l: Location, k: nat)
    requires LastAt(at, targets, l, k)
    ensures l in Switched(at, payload, nodes, targets)
    ensures Switched(at, payload, nodes, targets)[l] == Link(Canonical(payload, targets[k].source))
    decreases |targets|
  {
    var rest := targets[..|targets| - 1];
    if k < |rest| {
      assert at(targets[|rest|].path) != l;
      SwitchedAt(at, payload, nodes, rest, l, k);
    }
  }

  lemma {:induction false} SomeLastAt(at: Path -> Location, targets: seq<Target>, l: Location) returns (k: nat)
    requires exists t :: t in targets && at(t.path) == l
    ensures LastAt(at, targets, l, k)
    decreases |targets|
  {
    k := |targets| - 1;
    if at(targets[k].path) != l {
      k := SomeLastAt(at, targets[..k], l);
    }
  }

  /** The relative files seen below a location; `behind` gives those behind a link text. */
  function FilesAt(nodes: Nodes, behind: string -> set<string>, l: Location): set<string> {
    if l !in nodes then {} else
    match nodes[l]
    case Link(text) => behind(text)
    case Tree(files) => files
  }

  /** The plan check: no target holds a file that the release does not bring. */
  predicate NothingUnknown(at: Path -> Location, payload: string, nodes: Nodes, behind: string -> set<string>, targets: seq<Target>) {
    forall t :: t in targets ==> FilesAt(nodes, behind, at(t.path)) <= behind(Canonical(payload, t.source))
  }

  /** The relative file is seen below the location: in the tree there, or behind the link. */
  predicate Holds(nodes: Nodes, behind: string -> set<string>, l: Location, file: string) {
    && l in nodes
    && match nodes[l]
       case Link(text) => file in behind(text)
       case Tree(files) => file in files
  }

  /** A planned installation takes no file away from any target path, whichever of them share a location. */
  lemma InstallLosesNoFile(at: Path -> Location, payload: string, nodes: Nodes, behind: string -> set<string>, targets: seq<Target>, l: Location)
    requires NothingUnknown(at, payload, nodes, behind, targets)
    ensures forall file :: Holds(nodes, behind, l, file) ==> Holds(Switched(at, payload, nodes, targets), behind, l, file)
  {
    assert forall n: Nodes, file :: file in FilesAt(n, behind, l) <==> Holds(n, behind, l, file);
    if exists t :: t in targets && at(t.path) == l {
      var k := SomeLastAt(at, targets, l);
      SwitchedAt(at, payload, nodes, targets, l, k);
      assert targets[k] in targets;
    } else {
      SwitchedElsewhere(at, payload, nodes, targets, l);
    }
  }

  /**
    Every target path denotes a link to its code tree in the release: the payload, a slash, and the source of the last target
    that denotes the same location. Nothing else has changed.
   */
  ghost predicate LinkedIn(at: Path -> Location, payload: string, before: Nodes, after: Nodes, targets: seq<Target>) {
    && (forall l: Location, k: nat :: LastAt(at, targets, l, k) ==> l in after && after[l] == Link(payload + "/" + targets[k].source))
    && (forall l :: (forall t :: t in targets ==> at(t.path) != l) ==> SameAt(before, after, l))
  }

  lemma SwitchedIsLinked(at: Path -> Location, payload: string, nodes: Nodes, targets: seq<Target>)
    ensures LinkedIn(at, payload, nodes, Switched(at, payload, nodes, targets), targets)
  {
    forall l: Location, k: nat | LastAt(at, targets, l, k)
      ensures var after := Switched(at, payload, nodes, targets); l in after && after[l] == Link(payload + "/" + targets[k].source)
    {
      SwitchedAt(at, payload, nodes, targets, l, k);
    }
    forall l | forall t :: t in targets ==> at(t.path) != l ensures SameAt(nodes, Switched(at, payload, nodes, targets), l) {
      SwitchedElsewhere(at, payload, nodes, targets, l);
    }
  }

  /** The text of a link is below the payload. */
  predicate Below(payload: string, text: string) {
    |payload| < |text| && text[..|payload|] == payload && text[|payload|] == '/'
  }

  /** So every target path denotes a link below the payload. */
  lemma LinkLeadsBelow(at: Path -> Location, payload: string, before: Nodes, after: Nodes, targets: seq<Target>, t: Target)
    requires LinkedIn(at, payload, before, after, targets) && t in targets
    ensures at(t.path) in after && after[at(t.path)].Link? && Below(payload, after[at(t.path)].text)
  {
    var k := SomeLastAt(at, targets, at(t.path));
  }

  /** Two locations have the same link exactly if their last targets have the same source. */
  lemma SameLinkExactly(at: Path -> Location, payload: string, before: Nodes, after: Nodes, targets: seq<Target>,
                        l: Location, k: nat, l': Location, k': nat)
    requires LinkedIn(at, payload, before, after, targets) && LastAt(at, targets, l, k) && LastAt(at, targets, l', k')
    ensures l in after && l' in after && (after[l] == after[l'] <==> targets[k].source == targets[k'].source)
  {
    var text, text' := payload + "/" + targets[k].source, payload + "/" + targets[k'].source;
    assert text[|payload| + 1..] == targets[k].source && text'[|payload| + 1..] == targets[k'].source;
  }

  /** A target holds a file that the release does not bring to it. */
  ghost predicate HoldsUnknown(at: Path -> Location, payload: string, nodes: Nodes, behind: string -> set<string>, t: Target) {
    exists file :: Holds(nodes, behind, at(t.path), file) && file !in behind(payload + "/" + t.source)
  }

  /** The installation base: the nodes at target locations and the backup directory of this installation. */
  class Base {
    const at: Path -> Location
    const payload: string
    var nodes: Nodes
    var backups: map<string, Node>

    /** How many file operations have failed although nothing stood in their way. */
    ghost var faults: nat

    constructor (at: Path -> Location, payload: string, nodes: Nodes)
      ensures this.at == at && this.payload == payload && this.nodes == nodes && backups == map[]
    {
      this.at, this.payload, this.nodes := at, payload, nodes;
      backups, faults := map[], 0;
    }

    /** Whether an operation goes through is up to the operating system. */
    method Attempt() returns (ok: bool)
      modifies this`faults
      ensures faults == old(faults) + if ok then 0 else 1
    {
      ok := *;
      if !ok {
        faults := faults + 1;
      }
    }

    method MakeParent(p: Path) returns (ok: bool)
      modifies this`faults
      ensures faults == old(faults) + if ok then 0 else 1
    {
      ok := Attempt();
    }

    method WriteBackup(tag: string, text: string) returns (ok: bool)
      modifies this`backups, this`faults
      ensures backups == if ok then old(backups)[tag := Link(text)] else old(backups)
      ensures faults == old(faults) + if ok then 0 else 1
    {
      ok := Attempt();
      if ok {
        backups := backups[tag := Link(text)];
      }
    }

    method Unlink(p: Path) returns (ok: bool)
      modifies this`nodes, this`faults
      ensures nodes == if ok then old(nodes) - {at(p)} else old(nodes)
      ensures faults == old(faults) + if ok then 0 else 1
    {
      ok := Attempt();
      if ok {
        nodes := nodes - {at(p)};
      }
    }

    method MoveAway(p: Path, tag: string) returns (ok: bool)
      requires at(p) in nodes
      modifies this
      ensures nodes == if ok then old(nodes) - {at(p)} else old(nodes)
      ensures backups == if ok then old(backups)[tag := old(nodes)[at(p)]] else old(backups)
      ensures faults == old(faults) + if ok then 0 else 1
    {
      ok := Attempt();
      if ok {
        backups := backups[tag := nodes[at(p)]];
        nodes := nodes - {at(p)};
      }
    }

    method Symlink(p: Path, text: string) returns (ok: bool)
      modifies this`nodes, this`faults
      ensures at(p) in old(nodes) ==> !ok
      ensures nodes == if ok then old(nodes)[at(p) := Link(text)] else old(nodes)
      ensures faults == old(faults) + if ok || at(p) in old(nodes) then 0 else 1
    {
      if at(p) in nodes {
        return false;
      }
      ok := Attempt();
      if ok {
        nodes := nodes[at(p) := Link(text)];
      }
    }

    method MoveFromBackup(tag: string, p: Path) returns (ok: bool)
      requires at(p) !in nodes
      modifies this
      ensures ok ==> tag in old(backups) && nodes == old(nodes)[at(p) := old(backups)[tag]] && backups == old(backups) - {tag}
      ensures !ok ==> nodes == old(nodes) && backups == old(backups)
      ensures faults == old(faults) + if ok || tag !in old(backups) then 0 else 1
    {
      if tag !in backups {
        return false;
      }
      ok := Attempt();
      if ok {
        nodes := nodes[at(p) := backups[tag]];
        backups := backups - {tag};
      }
    }

    /** Removes a tree; on failure part of it may be gone. */
    method RemoveTree(p: Path) returns (ok: bool)
      requires at(p) in nodes
      modifies this`nodes, this`faults
      ensures ok ==> nodes == old(nodes) - {at(p)}
      ensures !ok ==> forall l :: l != at(p) ==> SameAt(old(nodes), nodes, l)
      ensures faults == old(faults) + if ok then 0 else 1
    {
      ok := Attempt();
      if ok {
        nodes := nodes - {at(p)};
      } else {
        var left: set<string> := *;
        nodes := nodes[at(p) := Tree(left)];
      }
    }

    /** Switches one target; `undo` is what was appended to the undo log before the switch was over. */
    method Switch(t: Target) returns (ok: bool, undo: seq<Undo>)
      requires t.tag !in backups
      modifies this
      ensures |undo| <= 1 && (forall step :: step in undo ==> step.target == t)
      ensures forall tag :: tag != t.tag ==> (tag in backups <==> tag in old(backups))
                                                && (tag in backups ==> backups[tag] == old(backups)[tag])
      ensures Replayed(at, nodes, backups, undo) == old(nodes)
      ensures forall step :: step in undo && step.MoveBack? ==> t.tag in backups
      ensures faults == old(faults) + if ok then 0 else 1
      ensures ok ==> |undo| == 1 && nodes == old(nodes)[at(t.path) := Link(Canonical(payload, t.source))]
    {
      undo := [];
      ok := MakeParent(t.path);
      if !ok { return; }
      var here := at(t.path);
      if here in nodes && nodes[here].Link? {
        var text := nodes[here].text;
        ok := WriteBackup(t.tag, text);
        if !ok { return; }
        ok := Unlink(t.path);
        if !ok { return; }
        undo := [Relink(t, text)];
      } else if here in nodes {
        ok := MoveAway(t.path, t.tag);
        if !ok { return; }
        undo := [MoveBack(t)];
      } else {
        undo := [Remove(t)];
      }
      ok := Symlink(t.path, Canonical(payload, t.source));
      ghost var last := undo[0];
      assert undo[..0] == [];
      assert Replayed(at, nodes, backups, undo) == Undone(at, nodes, backups, last) == old(nodes);
    }

    /** Undoes one logged step. */
    method UndoStep(step: Undo) returns (ok: bool)
      modifies this
      ensures ok ==> nodes == Undone(at, old(nodes), old(backups), step)
      ensures !ok ==> forall l :: l != at(step.target.path) ==> SameAt(old(nodes), nodes, l)
      ensures forall tag :: tag != step.target.tag ==> (tag in backups <==> tag in old(backups))
                                                          && (tag in backups ==> backups[tag] == old(backups)[tag])
      ensures ok ==> faults == old(faults)
      ensures !ok ==> faults == old(faults) + 1 || (faults == old(faults) && step.MoveBack? && step.target.tag !in old(backups))
    {
      var p := step.target.path;
      if at(p) in nodes {
        if nodes[at(p)].Link? {
          ok := Unlink(p);
        } else {
          ok := RemoveTree(p);
        }
        if !ok { return; }
      }
      match step {
        case MoveBack(t) => ok := MoveFromBackup(t.tag, p);
        case Relink(_, text) => ok := Symlink(p, text);
        case Remove(_) => ok := true;
      }
      if ok {
        ghost var goal := Undone(at, old(nodes), old(backups), step);
        assert forall l :: SameAt(nodes, goal, l);
        SameEverywhere(nodes, goal);
      }
    }

    /**
      Replays the undo log, newest step first, going on after failures. Every location whose own steps all succeeded
      denotes again what the full replay gives it. A log whose backups are there fails only where an operation does.
     */
    method Rollback(log: seq<Undo>) returns (errors: seq<Path>)
      requires forall i, j :: 0 <= i < j < |log| ==> log[i].target.tag != log[j].target.tag
      modifies this
      ensures forall l :: Spared(at, errors, l) ==> SameAt(nodes, Replayed(at, old(nodes), old(backups), log), l)
      ensures faults >= old(faults) && (BackedUp(log, old(backups)) ==> (errors == [] <==> faults == old(faults)))
    {
      errors := [];
      var i := |log|;
      ghost var goal := Replayed(at, nodes, backups, log);
      assert log[..i] == log;
      while i > 0
        invariant 0 <= i <= |log|
        invariant Restored(at, nodes, backups, log[..i], errors, goal)
        invariant faults >= old(faults)
        invariant BackedUp(log, old(backups)) ==> BackedUp(log[..i], backups) && (errors == [] <==> faults == old(faults))
      {
        i := i - 1;
        ghost var before, kept, failed := nodes, backups, errors;
        var ok := UndoStep(log[i]);
        if !ok {
          errors := errors + [log[i].target.path];
        }
        assert log[..i + 1] == log[..i] + [log[i]];
        RestoredStep(at, before, kept, nodes, backups, log[..i], log[i], failed, errors, goal);
      }
      assert log[..0] == [];
    }

    /** Switches the targets one after the other until one fails; the log undoes exactly what was done. */
    method SwitchAll(targets: seq<Target>) returns (ok: bool, log: seq<Undo>)
      requires DistinctLabels(targets) && backups == map[]
      modifies this
      ensures ok ==> nodes == Switched(at, payload, old(nodes), targets)
      ensures |log| <= |targets| && (forall i :: 0 <= i < |log| ==> log[i].target == targets[i])
      ensures Replayed(at, nodes, backups, log) == old(nodes)
      ensures BackedUp(log, backups) && faults == old(faults) + if ok then 0 else 1
    {
      ok, log := true, [];
      var k := 0;
      while k < |targets| && ok
        invariant 0 <= k <= |targets|
        invariant Logged(at, old(nodes), nodes, backups, targets, log, k)
        invariant ok ==> |log| == k && nodes == Switched(at, payload, old(nodes), targets[..k])
        invariant ok ==> Tagged(targets, k, backups)
        invariant faults == old(faults) + if ok then 0 else 1
      {
        ghost var before, kept := nodes, backups;
        var undo;
        ok, undo := Switch(targets[k]);
        LoggedStep(at, old(nodes), before, kept, nodes, backups, targets, log, k, undo);
        assert targets[..k + 1][..k] == targets[..k];
        log := log + undo;
        k := k + 1;
      }
      assert ok ==> targets[..k] == targets;
    }

    /**
      The installation. It succeeds exactly if no file operation fails, and then switches every target. It is rolled
      back exactly if one fails and no other one during the rollback, and then every location is as it was. If more
      fail, every location is as it was but those reported.
     */
    method Install(targets: seq<Target>, behind: string -> set<string>, apply: bool) returns (outcome: Outcome)
      requires DistinctLabels(targets) && backups == map[]
      modifies this
      ensures outcome.Refused? <==> !apply || exists t :: t in targets && HoldsUnknown(at, payload, old(nodes), behind, t)
      ensures outcome.Refused? ==> nodes == old(nodes)
      ensures outcome.Installed? ==> nodes == Switched(at, payload, old(nodes), targets)
      ensures outcome.Installed? ==> LinkedIn(at, payload, old(nodes), nodes, targets)
      ensures outcome.RolledBack? ==> nodes == old(nodes)
      ensures outcome.RollbackIncomplete? ==> outcome.errors != []
      ensures !outcome.Refused? ==> (outcome.Installed? <==> faults == old(faults))
      ensures !outcome.Refused? ==> (outcome.RolledBack? <==> faults == old(faults) + 1)
      ensures outcome.RollbackIncomplete? ==> forall l :: Spared(at, outcome.errors, l) ==> SameAt(old(nodes), nodes, l)
    {
      assert NothingUnknown(at, payload, nodes, behind, targets) <==>
          !exists t :: t in targets && HoldsUnknown(at, payload, nodes, behind, t);
      if !apply || !NothingUnknown(at, payload, nodes, behind, targets) {
        return Refused;
      }
      var ok, log := SwitchAll(targets);
      if ok {
        SwitchedIsLinked(at, payload, old(nodes), targets);
        return Installed;
      }
      var errors := Rollback(log);
      forall l | Spared(at, errors, l) ensures SameAt(old(nodes), nodes, l) {
        assert SameAt(nodes, old(nodes), l);
      }
      if errors == [] {
        SameEverywhere(nodes, old(nodes));
        return RolledBack;
      }
      return RollbackIncomplete(errors);
    }
  }
}
