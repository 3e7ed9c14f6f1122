/** The CNI configuration migration: validate everything, write everything, then
    retire the superseded platform file. */
module CniConf {
  import opened StringOrder
  import opened Wrappers
  import opened CniDisk

  const LEGACY_NAME := "10-rancher.conf"
  const CURRENT_NAME := "10-pasturestack.conf"
  const RETIRED_SUFFIX := ".pasturestack-retired"

  const BASE := In(In(Slash, "etc"), "cni")
  const MANAGED := In(BASE, "managed.d")

  function ConfDirectory(network: string): Path {
    In(BASE, network + ".d")
  }

  /** The three fields that prove a file is the platform's own. */
  datatype Contract = Contract(name: string, kind: string, ipam: string)

  const LEGACY_CONTRACT := Contract("rancher-cni-network", "rancher-bridge", "rancher-cni-ipam")
  const CURRENT_CONTRACT := Contract("pasturestack-cni-network", "pasture-bridge", "metadata-cni-ipam")

  /** `libcni`'s validation and the JSON decoder, which may reject the bytes. */
  datatype Reader = Reader(valid: Bytes -> bool, contract: Bytes -> Option<Contract>)

  /** A network's requested files; `None` is a value JSON cannot encode. */
  datatype Network = Network(name: string, isDefault: bool, configs: map<string, Option<Bytes>>)

  datatype Retirement = Retirement(path: Path, backup: Path, content: Bytes)

  datatype Choice = Refused | Nothing | Chosen(retirement: Retirement)

  datatype Plan = Plan(conf: Path, wanted: map<string, Bytes>, isDefault: bool, choice: Choice)

  predicate ValidCharacter(c: char) {
    'a' <= c <= 'z' || 'A' <= c <= 'Z' || '0' <= c <= '9' || c in ['.', '-', '_']
  }

  predicate ValidName(name: string) {
    name != "" && name != "." && name != ".." && forall i :: 0 <= i < |name| ==> ValidCharacter(name[i])
  }

  // --- what is asked for -----------------------------------------------------

  function Wanted(configs: map<string, Option<Bytes>>): map<string, Bytes> {
    map n | n in configs && configs[n].Some? :: configs[n].value
  }

  predicate AcceptableConfig(t: Tree, reader: Reader, conf: Path, name: string, config: Option<Bytes>) {
    ValidName(name) && RegularOrAbsent(At(t, In(conf, name))) && config.Some? && reader.valid(config.value)
  }

  ghost predicate Requestable(t: Tree, reader: Reader, network: Network) {
    var conf := ConfDirectory(network.name);
    ValidName(network.name) && Climbable(t, conf) &&
    forall n :: n in network.configs ==> AcceptableConfig(t, reader, conf, n, network.configs[n])
  }

  function MatchingFields(actual: Contract, expected: Contract): nat {
    (if actual.name == expected.name then 1 else 0) +
    (if actual.kind == expected.kind then 1 else 0) +
    (if actual.ipam == expected.ipam then 1 else 0)
  }

  predicate BackupFits(t: Tree, r: Retirement) {
    At(t, r.backup).None? || At(t, r.backup) == Some(File(r.content))
  }

  /** Which file, if any, the requested ones supersede. */
  function Select(t: Tree, reader: Reader, conf: Path, wanted: map<string, Bytes>): Choice {
    if (CURRENT_NAME in wanted) == (LEGACY_NAME in wanted) then Nothing
    else if CURRENT_NAME in wanted then SelectOld(t, reader, conf, wanted[CURRENT_NAME], CURRENT_CONTRACT, LEGACY_NAME, LEGACY_CONTRACT)
    else SelectOld(t, reader, conf, wanted[LEGACY_NAME], LEGACY_CONTRACT, CURRENT_NAME, CURRENT_CONTRACT)
  }

  function SelectOld(t: Tree, reader: Reader, conf: Path, successor: Bytes, expected: Contract, oldName: string, oldExpected: Contract): Choice {
    var desired := reader.contract(successor);
    if desired.None? || MatchingFields(desired.value, expected) != 3 then Nothing
    else OldChoice(t, reader, conf, oldName, oldExpected)
  }

  /** A foreign file is left alone; one that is only partly the platform's is refused. */
  function OldChoice(t: Tree, reader: Reader, conf: Path, oldName: string, oldExpected: Contract): Choice {
    var path := In(conf, oldName);
    match At(t, path)
    case None => Nothing
    case Some(File(content)) =>
      var owner := reader.contract(content);
      if !reader.valid(content) || owner.None? then Refused
      else if MatchingFields(owner.value, oldExpected) == 0 then Nothing
      else if MatchingFields(owner.value, oldExpected) != 3 then Refused
      else
        var r := Retirement(path, In(conf, oldName + RETIRED_SUFFIX), content);
        if BackupFits(t, r) then Chosen(r) else Refused
    case Some(_) => Refused
  }

  ghost function PlanOf(t: Tree, reader: Reader, network: Network): Plan {
    var conf := ConfDirectory(network.name);
    var wanted := Wanted(network.configs);
    Plan(conf, wanted, network.isDefault, Select(t, reader, conf, wanted))
  }

  // --- what an apply does when nothing fails ---------------------------------

  function Written(t: Tree, conf: Path, wanted: map<string, Bytes>): Tree {
    t + map p | p in (set n | n in wanted :: In(conf, n)) :: File(wanted[p.name])
  }

  lemma WrittenAt(t: Tree, conf: Path, wanted: map<string, Bytes>, p: Path)
    ensures var w := Written(t, conf, wanted);
            if p.In? && p.parent == conf && p.name in wanted then p in w && w[p] == File(wanted[p.name])
            else (p in w <==> p in t) && (p in w ==> w[p] == t[p])
  {
    var paths := set n | n in wanted :: In(conf, n);
    if p.In? && p.parent == conf && p.name in wanted {
      assert p == In(conf, p.name);
      assert p in paths;
    }
  }

  function Relinked(t: Tree, plan: Plan): Option<Tree> {
    if !plan.isDefault || SameFile(t, MANAGED, plan.conf) then Some(t)
    else if At(t, MANAGED).None? || At(t, MANAGED).value.Link? then Some(t[MANAGED := Link(plan.conf)])
    else None
  }

  function Retired(t: Tree, choice: Choice): Option<Tree> {
    match choice
    case Chosen(r) =>
      if !BackupFits(t, r) then None
      else if At(t, r.backup).None? && r.path in t then Some((t - {r.path})[r.backup := t[r.path]])
      else Some(t - {r.path})
    case _ => Some(t)
  }

  /** The verdict and the tree of linking and retiring, when nothing fails. */
  ghost function Finished(t: Tree, plan: Plan): (bool, Tree) {
    match Relinked(t, plan)
    case None => (false, t)
    case Some(linked) =>
      match Retired(linked, plan.choice)
      case None => (false, linked)
      case Some(done) => (true, done)
  }

  /** The verdict and the tree of the changing half, when nothing fails. */
  ghost function Executed(t: Tree, plan: Plan): (bool, Tree) {
    Finished(Written(WithDirectories(t, plan.conf), plan.conf, plan.wanted), plan)
  }

  /** The verdict and the tree of a whole apply, when nothing fails. */
  ghost function Applied(t: Tree, reader: Reader, network: Network): (bool, Tree) {
    var plan := PlanOf(t, reader, network);
    if !Requestable(t, reader, network) || plan.choice.Refused? then (false, t) else Executed(t, plan)
  }

  // --- what holds at every moment --------------------------------------------

  /** Every requested file is in place and, for the default network, `managed.d` leads to it. */
  ghost predicate InPlace(t: Tree, plan: Plan) {
    (forall n :: n in plan.wanted ==> At(t, In(plan.conf, n)) == Some(File(plan.wanted[n]))) &&
    (plan.isDefault ==> SameFile(t, MANAGED, plan.conf))
  }

  predicate IsWanted(p: Path, plan: Plan) {
    p.In? && p.parent == plan.conf && p.name in plan.wanted
  }

  ghost predicate Scratch(p: Path, plan: Plan) {
    IsTemporary(p, BASE, "managed.d") || exists n :: n in plan.wanted && IsTemporary(p, plan.conf, n)
  }

  /** How one path may differ from what it was. */
  ghost predicate Permitted(p: Path, was: Option<Node>, now: Option<Node>, plan: Plan) {
    now == was
    || (was.None? && Scratch(p, plan))
    || (was.None? && Above(p, plan.conf) && now == Some(Directory))
    || (RegularOrAbsent(was) && IsWanted(p, plan) && now == Some(File(plan.wanted[p.name])))
    || (plan.isDefault && p == MANAGED && p != plan.conf && (was.None? || was.value.Link?) && now == Some(Link(plan.conf)))
    || (plan.choice.Chosen? && p == plan.choice.retirement.path && now.None?)
    || (plan.choice.Chosen? && p == plan.choice.retirement.backup && was.None? &&
        now == Some(File(plan.choice.retirement.content)))
  }

  ghost predicate OnlyPermitted(t: Tree, start: Tree, plan: Plan) {
    forall p :: Permitted(p, At(start, p), At(t, p), plan)
  }

  /** The file being retired is still active, or everything that replaces it is
      in place and its bytes are in the backup. */
  ghost predicate Survives(t: Tree, plan: Plan) {
    plan.choice.Chosen? ==>
      var r := plan.choice.retirement;
      At(t, r.path) == Some(File(r.content)) ||
      (At(t, r.path).None? && At(t, r.backup) == Some(File(r.content)) && InPlace(t, plan))
  }

  ghost predicate Kept(t: Tree, start: Tree, plan: Plan) {
    OnlyPermitted(t, start, plan) && Survives(t, plan)
  }

  /** The old file is gone and recoverable, and what replaces it is active. */
  ghost predicate Migrated(t: Tree, plan: Plan) {
    InPlace(t, plan) &&
    (plan.choice.Chosen? ==>
      At(t, plan.choice.retirement.path).None? &&
      At(t, plan.choice.retirement.backup) == Some(File(plan.choice.retirement.content)))
  }

  // --- every single change is permitted --------------------------------------

  /** What validation establishes before anything is changed. */
  ghost predicate Sound(start: Tree, plan: Plan) {
    (exists name :: plan.conf == ConfDirectory(name)) &&
    (forall n :: n in plan.wanted ==> RegularOrAbsent(At(start, In(plan.conf, n)))) &&
    (plan.choice.Chosen? ==>
      var r := plan.choice.retirement;
      r.path.In? && r.path.parent == plan.conf && r.path.name !in plan.wanted &&
      r.backup == In(plan.conf, r.path.name + RETIRED_SUFFIX) &&
      At(start, r.path) == Some(File(r.content)) && BackupFits(start, r))
  }

  lemma SelectionIsSound(t: Tree, reader: Reader, conf: Path, wanted: map<string, Bytes>)
    ensures Select(t, reader, conf, wanted).Chosen? ==>
      var r := Select(t, reader, conf, wanted).retirement;
      r.path.In? && r.path.parent == conf && r.path.name !in wanted &&
      r.backup == In(conf, r.path.name + RETIRED_SUFFIX) &&
      At(t, r.path) == Some(File(r.content)) && BackupFits(t, r)
  {
  }

  lemma RequestIsSound(t: Tree, reader: Reader, network: Network)
    requires Requestable(t, reader, network)
    ensures Sound(t, PlanOf(t, reader, network))
  {
    var conf := ConfDirectory(network.name);
    SelectionIsSound(t, reader, conf, Wanted(network.configs));
  }

  /** The old file still holds its bytes, so nothing has been retired yet. */
  ghost predicate NotYet(t: Tree, plan: Plan) {
    plan.choice.Chosen? ==> At(t, plan.choice.retirement.path) == Some(File(plan.choice.retirement.content))
  }

  lemma {:induction false} NothingBelowIsAbove(p: Path, q: Path)
    requires Above(p, q)
    ensures p == q || p < q
  {
    if p != q { NothingBelowIsAbove(p, q.parent); }
  }

  /** Making directories does not put one where a file is to be written. */
  lemma WantedStayRegular(start: Tree, plan: Plan, n: string)
    requires Sound(start, plan) && n in plan.wanted
    ensures RegularOrAbsent(At(WithDirectories(start, plan.conf), In(plan.conf, n)))
  {
    var p := In(plan.conf, n);
    DirectoriesOnlyAdded(start, plan.conf, p);
    if Above(p, plan.conf) { NothingBelowIsAbove(p, plan.conf); }
  }

  lemma DirectoriesKeep(now: Tree, start: Tree, plan: Plan)
    requires Sound(start, plan) && OnTheWay(now, start, plan.conf)
    ensures Kept(now, start, plan) && NotYet(now, plan)
  {
  }

  lemma WriteKeeps(now: Tree, t: Tree, start: Tree, plan: Plan, name: string)
    requires Sound(start, plan) && Kept(t, start, plan) && NotYet(t, plan) && name in plan.wanted
    requires Replacing(now, t, plan.conf, name, File(plan.wanted[name]))
    ensures Kept(now, start, plan) && NotYet(now, plan)
  {
    forall p ensures Permitted(p, At(start, p), At(now, p), plan) {
      assert Permitted(p, At(start, p), At(t, p), plan);
      if now != t && At(now, p) != At(t, p) {
        if p == In(plan.conf, name) {
        } else {
          assert IsTemporary(p, plan.conf, name) && At(t, p).None?;
        }
      }
    }
  }

  lemma RelinkKeeps(now: Tree, t: Tree, start: Tree, plan: Plan)
    requires Sound(start, plan) && Kept(t, start, plan) && NotYet(t, plan) && plan.isDefault
    requires IsDirectory(t, plan.conf) && (At(t, MANAGED).None? || At(t, MANAGED).value.Link?)
    requires Replacing(now, t, BASE, "managed.d", Link(plan.conf))
    ensures Kept(now, start, plan) && NotYet(now, plan)
  {
    forall p ensures Permitted(p, At(start, p), At(now, p), plan) {
      assert Permitted(p, At(start, p), At(t, p), plan);
    }
  }

  /** Where links lead does not depend on regular files. */
  lemma {:induction false} LinksLeadOn(t: Tree, now: Tree, p: Path, u: set<Path>, v: set<Path>, end: Path)
    requires Follow(t, p, u) == Some(end) && IsDirectory(now, end)
    requires forall x :: x in u && At(t, x).Some? && At(t, x).value.Link? ==> x in v && At(now, x) == At(t, x)
    ensures Follow(now, p, v) == Some(end)
    decreases u
  {
    match At(t, p)
    case Some(Link(target)) => LinksLeadOn(t, now, target, u - {p}, v - {p}, end);
    case _ =>
  }

  lemma RetireKeeps(t: Tree, start: Tree, plan: Plan)
    requires Sound(start, plan) && Kept(t, start, plan) && NotYet(t, plan)
    requires InPlace(t, plan) && IsDirectory(t, plan.conf)
    ensures match Retired(t, plan.choice)
            case None => true
            case Some(now) => Kept(now, start, plan) && Migrated(now, plan)
  {
    if plan.choice.Chosen? && Retired(t, plan.choice).Some? {
      var r := plan.choice.retirement;
      var now := Retired(t, plan.choice).value;
      assert r.path != r.backup;
      forall n | n in plan.wanted ensures At(now, In(plan.conf, n)) == Some(File(plan.wanted[n])) {
        assert At(t, In(plan.conf, n)) == Some(File(plan.wanted[n]));
      }
      if plan.isDefault { LinksLeadOn(t, now, MANAGED, t.Keys, now.Keys, plan.conf); }
      forall p ensures Permitted(p, At(start, p), At(now, p), plan) {
        assert Permitted(p, At(start, p), At(t, p), plan);
        assert Permitted(r.backup, At(start, r.backup), At(t, r.backup), plan);
      }
    }
  }
}
