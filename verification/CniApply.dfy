/** The steps of one apply, in the order the watcher runs them. */
module CniApply {
  import opened StringOrder
  import opened Wrappers
  import opened CniDisk
  import opened CniConf

  // --- checks and preparation: nothing is changed ----------------------------

  method CheckConfigDirectory(disk: Disk, path: Path) returns (ok: bool)
    modifies disk`faults
    ensures disk.faults >= old(disk.faults)
    ensures ok ==> Climbable(disk.tree, path)
    ensures disk.faults == old(disk.faults) ==> ok == Climbable(disk.tree, path)
  {
    var current := path;
    while true
      invariant disk.faults >= old(disk.faults)
      invariant Climbable(disk.tree, path) <==> Climbable(disk.tree, current)
      decreases current
    {
      var seen, node := disk.Lstat(current);
      if !seen || (node.Some? && !node.value.Directory?) { return false; }
      if current.Slash? { return true; }
      current := current.parent;
    }
  }

  method CheckConfigFile(disk: Disk, path: Path) returns (ok: bool)
    modifies disk`faults
    ensures disk.faults >= old(disk.faults)
    ensures ok ==> RegularOrAbsent(At(disk.tree, path))
    ensures disk.faults == old(disk.faults) ==> ok == RegularOrAbsent(At(disk.tree, path))
  {
    var seen, node := disk.Lstat(path);
    ok := seen && RegularOrAbsent(node);
  }

  ghost predicate AllAcceptable(t: Tree, reader: Reader, conf: Path, configs: map<string, Option<Bytes>>) {
    forall n :: n in configs ==> AcceptableConfig(t, reader, conf, n, configs[n])
  }

  /** Every file is validated and encoded; the result is sorted whatever order the map had. */
  method PrepareConfigFiles(disk: Disk, reader: Reader, conf: Path, configs: map<string, Option<Bytes>>)
    returns (ok: bool, names: seq<string>, contents: map<string, Bytes>)
    modifies disk`faults
    ensures disk.faults >= old(disk.faults)
    ensures ok ==> Climbable(disk.tree, conf) && AllAcceptable(disk.tree, reader, conf, configs)
    ensures ok ==> contents == Wanted(configs) && names == SortedKeys(contents.Keys)
    ensures disk.faults == old(disk.faults) ==>
      ok == (Climbable(disk.tree, conf) && AllAcceptable(disk.tree, reader, conf, configs))
  {
    names, contents := [], map[];
    ok := CheckConfigDirectory(disk, conf);
    if !ok { return; }
    var order := AnyOrder(configs.Keys);
    for i := 0 to |order|
      invariant disk.faults >= old(disk.faults)
      invariant contents.Keys == set n | n in order[..i]
      invariant forall j :: 0 <= j < i ==> AcceptableConfig(disk.tree, reader, conf, order[j], configs[order[j]])
      invariant forall n :: n in contents ==> n in configs && configs[n] == Some(contents[n])
    {
      var name := order[i];
      assert order[..i + 1] == order[..i] + [name];
      if !ValidName(name) { return false, [], map[]; }
      var regular := CheckConfigFile(disk, In(conf, name));
      if !regular || configs[name].None? || !reader.valid(configs[name].value) { return false, [], map[]; }
      contents := contents[name := configs[name].value];
    }
    forall n | n in configs ensures n in order {
      assert n in multiset(order);
    }
    assert order[..|order|] == order;
    names := CollectSorted(contents.Keys);
  }

  /** Looks the two platform names up among the prepared files. */
  method FindPlatformFiles(names: seq<string>) returns (current: bool, legacy: bool)
    ensures current == (CURRENT_NAME in names) && legacy == (LEGACY_NAME in names)
  {
    current, legacy := false, false;
    assert LEGACY_NAME[3] != CURRENT_NAME[3];
    for i := 0 to |names|
      invariant current == (CURRENT_NAME in names[..i]) && legacy == (LEGACY_NAME in names[..i])
    {
      assert names[..i + 1] == names[..i] + [names[i]];
      if names[i] == LEGACY_NAME {
        legacy := true;
      } else if names[i] == CURRENT_NAME {
        current := true;
      }
    }
    assert names[..|names|] == names;
  }

  method CheckBackup(disk: Disk, r: Retirement) returns (ok: bool)
    modifies disk`faults
    ensures disk.faults >= old(disk.faults)
    ensures ok ==> BackupFits(disk.tree, r)
    ensures disk.faults == old(disk.faults) ==> ok == BackupFits(disk.tree, r)
  {
    ok := CheckConfigFile(disk, r.backup);
    if !ok { return; }
    var read, backup := disk.ReadFile(r.backup);
    ok := read && (backup.None? || backup.value == r.content);
  }

  method ClassifyOld(disk: Disk, reader: Reader, conf: Path, oldName: string, oldExpected: Contract) returns (choice: Choice)
    modifies disk`faults
    ensures disk.faults >= old(disk.faults)
    ensures choice != Refused ==> choice == OldChoice(disk.tree, reader, conf, oldName, oldExpected)
    ensures disk.faults == old(disk.faults) ==> choice == OldChoice(disk.tree, reader, conf, oldName, oldExpected)
  {
    var path := In(conf, oldName);
    var regular := CheckConfigFile(disk, path);
    if !regular { return Refused; }
    var read, content := disk.ReadFile(path);
    if !read { return Refused; }
    if content.None? { return Nothing; }
    if !reader.valid(content.value) { return Refused; }
    var owner := reader.contract(content.value);
    if owner.None? { return Refused; }
    var ownedFields := MatchingFields(owner.value, oldExpected);
    if ownedFields == 0 { return Nothing; }
    if ownedFields != 3 { return Refused; }
    var r := Retirement(path, In(conf, oldName + RETIRED_SUFFIX), content.value);
    var fits := CheckBackup(disk, r);
    choice := if fits then Chosen(r) else Refused;
  }

  method PrepareLegacyRetirement(disk: Disk, reader: Reader, conf: Path, names: seq<string>, contents: map<string, Bytes>)
    returns (choice: Choice)
    requires forall n :: n in names <==> n in contents
    modifies disk`faults
    ensures disk.faults >= old(disk.faults)
    ensures choice != Refused ==> choice == Select(disk.tree, reader, conf, contents)
    ensures disk.faults == old(disk.faults) ==> choice == Select(disk.tree, reader, conf, contents)
  {
    var current, legacy := FindPlatformFiles(names);
    if current == legacy { return Nothing; }
    var successor, expected, oldName, oldExpected := CURRENT_NAME, CURRENT_CONTRACT, LEGACY_NAME, LEGACY_CONTRACT;
    if legacy {
      successor, expected, oldName, oldExpected := LEGACY_NAME, LEGACY_CONTRACT, CURRENT_NAME, CURRENT_CONTRACT;
    }
    var desired := reader.contract(contents[successor]);
    if desired.None? || MatchingFields(desired.value, expected) != 3 { return Nothing; }
    choice := ClassifyOld(disk, reader, conf, oldName, oldExpected);
  }

  // --- atomic replacement ----------------------------------------------------

  method FillAndInstall(disk: Disk, temporary: Path, path: Path, content: Bytes) returns (ok: bool)
    requires temporary in disk.tree && temporary != path && disk.tree[temporary].File?
    modifies disk
    ensures disk.faults >= old(disk.faults) && old(disk.history) <= disk.history
    ensures forall i :: |old(disk.history)| <= i < |disk.history| ==>
      Filling(disk.history[i], old(disk.tree), temporary) || disk.history[i] == Moved(old(disk.tree), temporary, path, File(content))
    ensures ok ==> disk.tree == Moved(old(disk.tree), temporary, path, File(content))
    ensures !ok ==> Filling(disk.tree, old(disk.tree), temporary)
    ensures disk.faults == old(disk.faults) ==> ok == RegularOrAbsent(At(old(disk.tree), path))
  {
    ok := disk.Write(temporary, content);
    if !ok { return; }
    ok := disk.Finish();
    if !ok { return; }
    ok := disk.Finish();
    if !ok { return; }
    ok := disk.Finish();
    if !ok { return; }
    ok := CheckConfigFile(disk, path);
    if !ok { return; }
    ok := disk.Rename(temporary, path);
  }

  /** Only the temporary differs. */
  ghost predicate Filling(now: Tree, before: Tree, temporary: Path) {
    temporary in now && now[temporary].File? && now == before[temporary := now[temporary]]
  }

  ghost function Moved(t: Tree, from: Path, to: Path, node: Node): Tree {
    (t - {from})[to := node]
  }

  /** The file is the old one or the new one at every moment. */
  method WriteConfigAtomic(disk: Disk, folder: Path, name: string, content: Bytes) returns (ok: bool)
    modifies disk
    ensures disk.faults >= old(disk.faults) && old(disk.history) <= disk.history
    ensures forall i :: |old(disk.history)| <= i < |disk.history| ==>
      Replacing(disk.history[i], old(disk.tree), folder, name, File(content))
    ensures Replacing(disk.tree, old(disk.tree), folder, name, File(content))
    ensures ok ==> disk.tree == old(disk.tree)[In(folder, name) := File(content)]
    ensures disk.faults == old(disk.faults) ==>
      ok == (IsDirectory(old(disk.tree), folder) && RegularOrAbsent(At(old(disk.tree), In(folder, name))))
    ensures disk.faults == old(disk.faults) && !ok ==> disk.tree == old(disk.tree)
  {
    var path := In(folder, name);
    ok := CheckConfigFile(disk, path);
    if !ok { return; }
    var temporary;
    ok, temporary := disk.CreateTemp(folder, name);
    if !ok { return; }
    assert |temporary.name| > |name|;
    ghost var t := old(disk.tree);
    ghost var created := disk.tree;
    ok := FillAndInstall(disk, temporary, path, content);
    assert Moved(created, temporary, path, File(content)) == t[path := File(content)];
    assert forall i :: |old(disk.history)| <= i < |disk.history| && Filling(disk.history[i], created, temporary) ==>
      Staged(disk.history[i], t, temporary);
    assert !ok ==> Staged(disk.tree, t, temporary) && disk.tree - {temporary} == t;
    var _ := disk.Remove(temporary);
  }

  method SwapLink(disk: Disk, staged: Path, target: Path, ghost t: Tree) returns (ok: bool)
    requires IsTemporary(staged, BASE, "managed.d") && staged !in t
    requires disk.tree == t[staged := File([])] && !IsDirectory(t, MANAGED)
    modifies disk
    ensures disk.faults >= old(disk.faults) && old(disk.history) <= disk.history
    ensures forall i :: |old(disk.history)| <= i < |disk.history| ==>
      Replacing(disk.history[i], t, BASE, "managed.d", Link(target))
    ensures ok ==> disk.tree == t[MANAGED := Link(target)]
    ensures !ok ==> disk.tree == t || (Staged(disk.tree, t, staged) && !disk.tree[staged].Directory?)
    ensures disk.faults == old(disk.faults) ==> ok
  {
    assert |staged.name| > |"managed.d"|;
    assert Staged(disk.tree, t, staged);
    ok := disk.Finish();
    if !ok { return; }
    assert disk.tree - {staged} == t;
    ok := disk.Remove(staged);
    if !ok { return; }
    ok := disk.Symlink(target, staged);
    if !ok { return; }
    assert Staged(disk.tree, t, staged) && (disk.tree - {staged})[MANAGED := Link(target)] == t[MANAGED := Link(target)];
    ok := disk.Rename(staged, MANAGED);
  }

  /** The link is staged first, so a failure leaves the old pointer. */
  method ReplaceManagedSymlink(disk: Disk, target: Path) returns (ok: bool)
    modifies disk
    ensures disk.faults >= old(disk.faults) && old(disk.history) <= disk.history
    ensures forall i :: |old(disk.history)| <= i < |disk.history| ==>
      (At(old(disk.tree), MANAGED).None? || At(old(disk.tree), MANAGED).value.Link?) &&
      Replacing(disk.history[i], old(disk.tree), BASE, "managed.d", Link(target))
    ensures disk.tree == old(disk.tree) ||
      ((At(old(disk.tree), MANAGED).None? || At(old(disk.tree), MANAGED).value.Link?) &&
       Replacing(disk.tree, old(disk.tree), BASE, "managed.d", Link(target)))
    ensures ok ==> disk.tree == old(disk.tree)[MANAGED := Link(target)]
    ensures disk.faults == old(disk.faults) ==>
      ok == (IsDirectory(old(disk.tree), BASE) &&
             (At(old(disk.tree), MANAGED).None? || At(old(disk.tree), MANAGED).value.Link?))
    ensures disk.faults == old(disk.faults) && !ok ==> disk.tree == old(disk.tree)
  {
    var seen, node := disk.Lstat(MANAGED);
    if !seen || (node.Some? && !node.value.Link?) { return false; }
    var staged;
    ok, staged := disk.CreateTemp(BASE, "managed.d");
    if !ok { return; }
    ghost var t := old(disk.tree);
    assert disk.tree - {staged} == t;
    ok := SwapLink(disk, staged, target, t);
    var _ := disk.Remove(staged);
  }

  /** Re-checks the file and its backup, then moves or removes it in one step. */
  method Retire(disk: Disk, choice: Choice) returns (ok: bool)
    requires choice.Chosen? ==>
      At(disk.tree, choice.retirement.path) == Some(File(choice.retirement.content)) &&
      choice.retirement.path != choice.retirement.backup
    modifies disk
    ensures disk.faults >= old(disk.faults) && old(disk.history) <= disk.history
    ensures disk.tree == old(disk.tree) || Retired(old(disk.tree), choice) == Some(disk.tree)
    ensures forall i :: |old(disk.history)| <= i < |disk.history| ==> disk.history[i] == disk.tree
    ensures ok ==> Retired(old(disk.tree), choice) == Some(disk.tree)
    ensures !ok ==> disk.tree == old(disk.tree)
    ensures disk.faults == old(disk.faults) ==> ok == Retired(old(disk.tree), choice).Some?
  {
    if !choice.Chosen? { return true; }
    var r := choice.retirement;
    ok := CheckConfigFile(disk, r.path);
    if !ok { return; }
    var read, content := disk.ReadFile(r.path);
    if !read || content != Some(r.content) { return false; }
    ok := CheckBackup(disk, r);
    if !ok { return; }
    var seen, node := disk.Lstat(r.backup);
    if !seen { return false; }
    if node.Some? {
      ok := disk.Remove(r.path);
    } else {
      ok := disk.Rename(r.path, r.backup);
    }
  }

  // --- the migration ---------------------------------------------------------

  /** Every tree recorded since `before` keeps the promises of the plan. */
  ghost predicate Recorded(before: seq<Tree>, now: seq<Tree>, start: Tree, plan: Plan) {
    before <= now && forall i :: |before| <= i < |now| ==> Kept(now[i], start, plan)
  }

  function WrittenOneByOne(t: Tree, conf: Path, contents: map<string, Bytes>, names: seq<string>): Tree
    requires forall n :: n in names ==> n in contents
  {
    if names == [] then t
    else
      var last := names[|names| - 1];
      WrittenOneByOne(t, conf, contents, names[..|names| - 1])[In(conf, last) := File(contents[last])]
  }

  lemma {:induction false} OneByOneAt(t: Tree, conf: Path, contents: map<string, Bytes>, names: seq<string>, p: Path)
    requires forall n :: n in names ==> n in contents
    ensures var w := WrittenOneByOne(t, conf, contents, names);
            if p.In? && p.parent == conf && p.name in names then p in w && w[p] == File(contents[p.name])
            else (p in w <==> p in t) && (p in w ==> w[p] == t[p])
  {
    if names != [] { OneByOneAt(t, conf, contents, names[..|names| - 1], p); }
  }

  /** The order of the writes does not show in the result. */
  lemma OneByOneIsAll(t: Tree, conf: Path, contents: map<string, Bytes>, names: seq<string>)
    requires forall n :: n in names <==> n in contents
    ensures WrittenOneByOne(t, conf, contents, names) == Written(t, conf, contents)
  {
    var w := WrittenOneByOne(t, conf, contents, names);
    var all := Written(t, conf, contents);
    forall p ensures (p in w <==> p in all) && (p in w ==> w[p] == all[p]) {
      OneByOneAt(t, conf, contents, names, p);
      WrittenAt(t, conf, contents, p);
    }
  }

  method EnsureConfigDirectory(disk: Disk, ghost plan: Plan, conf: Path) returns (ok: bool)
    requires plan.conf == conf && Sound(disk.tree, plan)
    modifies disk
    ensures disk.faults >= old(disk.faults)
    ensures Recorded(old(disk.history), disk.history, old(disk.tree), plan)
    ensures Kept(disk.tree, old(disk.tree), plan) && NotYet(disk.tree, plan)
    ensures ok ==> disk.tree == WithDirectories(old(disk.tree), conf) && IsDirectory(disk.tree, conf)
    ensures disk.faults == old(disk.faults) && Climbable(old(disk.tree), conf) ==> ok
  {
    ghost var start := disk.tree;
    DirectoriesKeep(start, start, plan);
    ok := CheckConfigDirectory(disk, conf);
    if !ok { return; }
    ok := disk.MkdirAll(conf);
    DirectoriesKeep(disk.tree, start, plan);
    forall i | |old(disk.history)| <= i < |disk.history| ensures Kept(disk.history[i], start, plan) {
      DirectoriesKeep(disk.history[i], start, plan);
    }
  }

  method WriteOne(disk: Disk, conf: Path, name: string, content: Bytes, ghost start: Tree, ghost plan: Plan) returns (ok: bool)
    requires plan.conf == conf && name in plan.wanted && plan.wanted[name] == content
    requires Sound(start, plan) && Kept(disk.tree, start, plan) && NotYet(disk.tree, plan)
    modifies disk
    ensures disk.faults >= old(disk.faults)
    ensures Recorded(old(disk.history), disk.history, start, plan)
    ensures Kept(disk.tree, start, plan) && NotYet(disk.tree, plan)
    ensures ok ==> disk.tree == old(disk.tree)[In(conf, name) := File(content)]
    ensures disk.faults == old(disk.faults) ==>
      ok == (IsDirectory(old(disk.tree), conf) && RegularOrAbsent(At(old(disk.tree), In(conf, name))))
  {
    ghost var t, past := disk.tree, disk.history;
    ok := WriteConfigAtomic(disk, conf, name, content);
    WriteKeeps(disk.tree, t, start, plan, name);
    forall i | |past| <= i < |disk.history| ensures Kept(disk.history[i], start, plan) {
      WriteKeeps(disk.history[i], t, start, plan, name);
    }
  }

  method WriteAll(disk: Disk, conf: Path, names: seq<string>, contents: map<string, Bytes>, ghost start: Tree, ghost plan: Plan)
    returns (ok: bool)
    requires plan.conf == conf && plan.wanted == contents && forall n :: n in names <==> n in contents
    requires Sound(start, plan) && Kept(disk.tree, start, plan) && NotYet(disk.tree, plan)
    requires IsDirectory(disk.tree, conf) && forall n :: n in contents ==> RegularOrAbsent(At(disk.tree, In(conf, n)))
    modifies disk
    ensures disk.faults >= old(disk.faults)
    ensures Recorded(old(disk.history), disk.history, start, plan)
    ensures Kept(disk.tree, start, plan) && NotYet(disk.tree, plan)
    ensures ok ==> disk.tree == Written(old(disk.tree), conf, contents)
    ensures disk.faults == old(disk.faults) ==> ok
  {
    ghost var t := disk.tree;
    for i := 0 to |names|
      invariant disk.faults >= old(disk.faults)
      invariant Recorded(old(disk.history), disk.history, start, plan)
      invariant Kept(disk.tree, start, plan) && NotYet(disk.tree, plan)
      invariant disk.tree == WrittenOneByOne(t, conf, contents, names[..i])
    {
      OneByOneAt(t, conf, contents, names[..i], conf);
      OneByOneAt(t, conf, contents, names[..i], In(conf, names[i]));
      assert names[..i + 1][..i] == names[..i];
      ok := WriteOne(disk, conf, names[i], contents[names[i]], start, plan);
      if !ok { return; }
    }
    assert names[..|names|] == names;
    OneByOneIsAll(t, conf, contents, names);
    ok := true;
  }

  /** `managed.d` follows the default network. */
  method LinkManaged(disk: Disk, isDefault: bool, conf: Path, ghost start: Tree, ghost plan: Plan) returns (ok: bool)
    requires plan.conf == conf && plan.isDefault == isDefault
    requires Sound(start, plan) && Kept(disk.tree, start, plan) && NotYet(disk.tree, plan)
    requires IsDirectory(disk.tree, conf) && IsDirectory(disk.tree, BASE)
    modifies disk
    ensures disk.faults >= old(disk.faults)
    ensures Recorded(old(disk.history), disk.history, start, plan)
    ensures Kept(disk.tree, start, plan) && NotYet(disk.tree, plan)
    ensures ok ==> isDefault ==> SameFile(disk.tree, MANAGED, conf)
    ensures ok ==> forall p :: p != MANAGED ==> At(disk.tree, p) == At(old(disk.tree), p)
    ensures ok ==> IsDirectory(disk.tree, conf)
    ensures disk.faults == old(disk.faults) ==> ok == Relinked(old(disk.tree), plan).Some?
    ensures disk.faults == old(disk.faults) ==> disk.tree == if ok then Relinked(old(disk.tree), plan).value else old(disk.tree)
  {
    if !isDefault { return true; }
    var same := disk.StatSame(MANAGED, conf);
    if same { return true; }
    ghost var t, past := disk.tree, disk.history;
    ok := ReplaceManagedSymlink(disk, conf);
    if disk.tree != t { RelinkKeeps(disk.tree, t, start, plan); }
    forall j | |past| <= j < |disk.history| ensures Kept(disk.history[j], start, plan) {
      RelinkKeeps(disk.history[j], t, start, plan);
    }
  }

  lemma BaseExists(t: Tree, name: string)
    requires Climbable(t, ConfDirectory(name))
    ensures IsDirectory(WithDirectories(t, ConfDirectory(name)), BASE)
  {
    DirectoriesExist(t, BASE);
  }

  lemma AllInPlace(now: Tree, t: Tree, plan: Plan)
    requires exists name :: plan.conf == ConfDirectory(name)
    requires forall p :: p != MANAGED ==> At(now, p) == At(Written(t, plan.conf, plan.wanted), p)
    requires plan.isDefault ==> SameFile(now, MANAGED, plan.conf)
    ensures InPlace(now, plan)
  {
    forall n | n in plan.wanted ensures At(now, In(plan.conf, n)) == Some(File(plan.wanted[n])) {
      WrittenAt(t, plan.conf, plan.wanted, In(plan.conf, n));
    }
  }

  method WriteFiles(disk: Disk, conf: Path, names: seq<string>, contents: map<string, Bytes>, ghost plan: Plan)
    returns (ok: bool)
    requires plan.conf == conf && plan.wanted == contents && forall n :: n in names <==> n in contents
    requires Sound(disk.tree, plan) && Climbable(disk.tree, conf)
    modifies disk
    ensures disk.faults >= old(disk.faults)
    ensures Recorded(old(disk.history), disk.history, old(disk.tree), plan) && Kept(disk.tree, old(disk.tree), plan)
    ensures ok ==> NotYet(disk.tree, plan) && IsDirectory(disk.tree, conf) && IsDirectory(disk.tree, BASE)
    ensures ok ==> disk.tree == Written(WithDirectories(old(disk.tree), conf), conf, contents)
    ensures disk.faults == old(disk.faults) ==> ok
  {
    ghost var start := disk.tree;
    ok := EnsureConfigDirectory(disk, plan, conf);
    if !ok { return; }
    ghost var name :| conf == ConfDirectory(name);
    BaseExists(start, name);
    forall n | n in contents ensures RegularOrAbsent(At(disk.tree, In(conf, n))) { WantedStayRegular(start, plan, n); }
    WrittenAt(disk.tree, conf, contents, conf);
    WrittenAt(disk.tree, conf, contents, BASE);
    ok := WriteAll(disk, conf, names, contents, start, plan);
  }

  method LinkAndRetire(disk: Disk, isDefault: bool, conf: Path, choice: Choice, ghost start: Tree, ghost plan: Plan)
    returns (ok: bool)
    requires plan.conf == conf && plan.isDefault == isDefault && plan.choice == choice
    requires Sound(start, plan) && Kept(disk.tree, start, plan) && NotYet(disk.tree, plan)
    requires IsDirectory(disk.tree, conf) && IsDirectory(disk.tree, BASE)
    requires disk.tree == Written(WithDirectories(start, conf), conf, plan.wanted)
    modifies disk
    ensures disk.faults >= old(disk.faults)
    ensures Recorded(old(disk.history), disk.history, start, plan) && Kept(disk.tree, start, plan)
    ensures ok ==> Migrated(disk.tree, plan)
    ensures disk.faults == old(disk.faults) ==> (ok, disk.tree) == Finished(old(disk.tree), plan)
  {
    ok := LinkManaged(disk, isDefault, conf, start, plan);
    if !ok { return; }
    AllInPlace(disk.tree, WithDirectories(start, conf), plan);
    RetireKeeps(disk.tree, start, plan);
    ok := Retire(disk, choice);
  }

  /** Directory, files, link, retirement: nothing is retired before all else is in place. */
  method Execute(disk: Disk, isDefault: bool, conf: Path, names: seq<string>, contents: map<string, Bytes>,
                 choice: Choice, ghost plan: Plan)
    returns (ok: bool)
    requires plan == Plan(conf, contents, isDefault, choice) && forall n :: n in names <==> n in contents
    requires Sound(disk.tree, plan) && Climbable(disk.tree, conf)
    modifies disk
    ensures disk.faults >= old(disk.faults)
    ensures Recorded(old(disk.history), disk.history, old(disk.tree), plan) && Kept(disk.tree, old(disk.tree), plan)
    ensures ok ==> Migrated(disk.tree, plan)
    ensures disk.faults == old(disk.faults) ==> (ok, disk.tree) == Executed(old(disk.tree), plan)
  {
    ghost var start := disk.tree;
    ok := WriteFiles(disk, conf, names, contents, plan);
    if !ok { return; }
    ok := LinkAndRetire(disk, isDefault, conf, choice, start, plan);
  }

  class Watcher {
    const disk: Disk
    const reader: Reader
    var applied: map<string, Network>

    constructor (disk: Disk, reader: Reader)
      ensures this.disk == disk && this.reader == reader && applied == map[]
    {
      this.disk, this.reader, applied := disk, reader, map[];
    }

    /** Whatever step fails, and at every moment a crash could strike, the file
        selected for retirement survives and nothing unrelated has changed. */
    method Apply(network: Network) returns (ok: bool)
      modifies this, disk
      ensures disk.faults >= old(disk.faults)
      ensures var plan := PlanOf(old(disk.tree), reader, network);
              Recorded(old(disk.history), disk.history, old(disk.tree), plan) && Kept(disk.tree, old(disk.tree), plan)
      ensures ok ==> Migrated(disk.tree, PlanOf(old(disk.tree), reader, network))
      ensures disk.faults == old(disk.faults) ==> (ok, disk.tree) == Applied(old(disk.tree), reader, network)
      ensures applied == if ok then old(applied)[network.name := network] else old(applied)
      ensures PlanOf(old(disk.tree), reader, network).choice.Refused? ==>
        !ok && disk.tree == old(disk.tree) && disk.history == old(disk.history)
      ensures ok ==> forall n :: n in network.configs ==>
        ValidName(n) && network.configs[n].Some? && reader.valid(network.configs[n].value) &&
        At(disk.tree, In(ConfDirectory(network.name), n)) == Some(File(network.configs[n].value))
    {
      ghost var start := disk.tree;
      ghost var plan := PlanOf(start, reader, network);
      SelectionIsSound(start, reader, plan.conf, plan.wanted);
      if !ValidName(network.name) { return false; }
      var conf := ConfDirectory(network.name);
      var names, contents;
      ok, names, contents := PrepareConfigFiles(disk, reader, conf, network.configs);
      if !ok { return; }
      forall n ensures n in names <==> n in contents { EveryKeyListed(contents.Keys, n); }
      RequestIsSound(start, reader, network);
      var choice := PrepareLegacyRetirement(disk, reader, conf, names, contents);
      if choice.Refused? { return false; }
      ok := Execute(disk, network.isDefault, conf, names, contents, choice, plan);
      if ok { applied := applied[network.name := network]; }
    }
  }
}
