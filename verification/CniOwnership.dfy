/** Which file a migration may take away, in the platform's own words: only a file
    that is the platform's in every field, for a successor that is. */
module CniOwnership {
  import opened Wrappers
  import opened CniDisk
  import opened CniConf

  const RANCHER := Contract("rancher-cni-network", "rancher-bridge", "rancher-cni-ipam")
  const PASTURE := Contract("pasturestack-cni-network", "pasture-bridge", "metadata-cni-ipam")

  /** One platform file is requested with its exact contract and the other is not requested. */
  predicate Succeeds(reader: Reader, wanted: map<string, Bytes>, newName: string, exact: Contract, oldName: string) {
    newName in wanted && oldName !in wanted && reader.contract(wanted[newName]) == Some(exact)
  }

  /** The platform's own file, in all three fields, with room for its backup. */
  predicate Retirable(t: Tree, reader: Reader, conf: Path, oldName: string, exact: Contract, r: Retirement) {
    r.path == In(conf, oldName) && r.backup == In(conf, oldName + ".pasturestack-retired") &&
    At(t, r.path) == Some(File(r.content)) && reader.valid(r.content) && reader.contract(r.content) == Some(exact) &&
    (At(t, r.backup) == None || At(t, r.backup) == Some(File(r.content)))
  }

  predicate Upgrade(t: Tree, reader: Reader, conf: Path, wanted: map<string, Bytes>, r: Retirement) {
    Succeeds(reader, wanted, "10-pasturestack.conf", PASTURE, "10-rancher.conf") &&
    Retirable(t, reader, conf, "10-rancher.conf", RANCHER, r)
  }

  predicate Rollback(t: Tree, reader: Reader, conf: Path, wanted: map<string, Bytes>, r: Retirement) {
    Succeeds(reader, wanted, "10-rancher.conf", RANCHER, "10-pasturestack.conf") &&
    Retirable(t, reader, conf, "10-pasturestack.conf", PASTURE, r)
  }

  /** A file is chosen for retirement exactly in a proven upgrade or rollback. */
  lemma ChosenExactly(t: Tree, reader: Reader, conf: Path, wanted: map<string, Bytes>, r: Retirement)
    ensures Select(t, reader, conf, wanted) == Chosen(r) <==>
            Upgrade(t, reader, conf, wanted, r) || Rollback(t, reader, conf, wanted, r)
  {
    NamesInFull();
    assert Contract("", "", "") != RANCHER;
  }

  lemma NamesInFull()
    ensures LEGACY_NAME == "10-rancher.conf" && CURRENT_NAME == "10-pasturestack.conf"
    ensures RETIRED_SUFFIX == ".pasturestack-retired"
    ensures LEGACY_CONTRACT == RANCHER && CURRENT_CONTRACT == PASTURE
  {
  }

  predicate AgreesSomewhere(a: Contract, b: Contract) {
    a.name == b.name || a.kind == b.kind || a.ipam == b.ipam
  }

  /** Partly the platform's: the apply is refused. */
  lemma PartlyOwnedIsRefused(t: Tree, reader: Reader, conf: Path, wanted: map<string, Bytes>, content: Bytes, owner: Contract)
    requires reader.valid(content) && reader.contract(content) == Some(owner)
    requires
      (Succeeds(reader, wanted, "10-pasturestack.conf", PASTURE, "10-rancher.conf") &&
       At(t, In(conf, "10-rancher.conf")) == Some(File(content)) && AgreesSomewhere(owner, RANCHER) && owner != RANCHER) ||
      (Succeeds(reader, wanted, "10-rancher.conf", RANCHER, "10-pasturestack.conf") &&
       At(t, In(conf, "10-pasturestack.conf")) == Some(File(content)) && AgreesSomewhere(owner, PASTURE) && owner != PASTURE)
    ensures Select(t, reader, conf, wanted) == Refused
  {
    NamesInFull();
  }

  /** The old file is there but is no regular file, cannot be read as a configuration,
      is only partly the platform's, or would overwrite a different backup. */
  predicate Blocked(t: Tree, reader: Reader, conf: Path, oldName: string, exact: Contract) {
    match At(t, In(conf, oldName))
    case None => false
    case Some(File(content)) =>
      !reader.valid(content) || reader.contract(content) == None ||
      (AgreesSomewhere(reader.contract(content).value, exact) &&
       (reader.contract(content).value != exact ||
        (At(t, In(conf, oldName + ".pasturestack-retired")) != None &&
         At(t, In(conf, oldName + ".pasturestack-retired")) != Some(File(content)))))
    case Some(_) => true
  }

  /** A migration is refused exactly when the file it would retire is blocked. */
  lemma RefusedExactly(t: Tree, reader: Reader, conf: Path, wanted: map<string, Bytes>)
    ensures Select(t, reader, conf, wanted) == Refused <==>
      (Succeeds(reader, wanted, "10-pasturestack.conf", PASTURE, "10-rancher.conf") &&
       Blocked(t, reader, conf, "10-rancher.conf", RANCHER)) ||
      (Succeeds(reader, wanted, "10-rancher.conf", RANCHER, "10-pasturestack.conf") &&
       Blocked(t, reader, conf, "10-pasturestack.conf", PASTURE))
  {
    NamesInFull();
  }

  /** What a contract must be for a file of this name to be the platform's own. */
  function OwnContract(name: string): Contract {
    if name == "10-rancher.conf" then RANCHER else PASTURE
  }

  /** Any file in the directory that is not requested and is not the platform's own
      keeps its bytes at every moment of every apply, whatever fails. */
  lemma ForeignFileIsKept(t: Tree, start: Tree, reader: Reader, network: Network, name: string, content: Bytes)
    requires Kept(t, start, PlanOf(start, reader, network))
    requires name !in network.configs && At(start, In(ConfDirectory(network.name), name)) == Some(File(content))
    requires (name == "10-rancher.conf" || name == "10-pasturestack.conf") && reader.valid(content) ==>
      reader.contract(content) != Some(OwnContract(name))
    ensures At(t, In(ConfDirectory(network.name), name)) == Some(File(content))
  {
    var plan := PlanOf(start, reader, network);
    var p := In(plan.conf, name);
    assert Permitted(p, At(start, p), At(t, p), plan);
    if plan.choice.Chosen? {
      ChosenExactly(start, reader, plan.conf, plan.wanted, plan.choice.retirement);
    }
  }

  /** The places, written out. */
  lemma PathsInFull(network: string)
    ensures ConfDirectory(network) == In(In(In(Slash, "etc"), "cni"), network + ".d")
    ensures MANAGED == In(In(In(Slash, "etc"), "cni"), "managed.d")
  {
  }

  /** A name is one harmless path component. */
  lemma NamesAreComponents(name: string)
    ensures ValidName(name) ==> name != "" && name != "." && name != ".." && '/' !in name && '\\' !in name && ':' !in name
    ensures ValidName(name) <==> name !in ["", ".", ".."] && forall i :: 0 <= i < |name| ==> IsOrdinary(name[i])
  {
  }

  predicate IsOrdinary(c: char) {
    'a' <= c <= 'z' || 'A' <= c <= 'Z' || '0' <= c <= '9' || c == '.' || c == '-' || c == '_'
  }

  /** Nothing stands in the way of a network's files: names, encodings, directories, targets. */
  ghost predicate Unobstructed(t: Tree, reader: Reader, network: Network) {
    ValidName(network.name) && Climbable(t, ConfDirectory(network.name)) &&
    forall n :: n in network.configs ==>
      ValidName(n) && network.configs[n].Some? && reader.valid(network.configs[n].value) &&
      (At(t, In(ConfDirectory(network.name), n)) == None || At(t, In(ConfDirectory(network.name), n)).value.File?)
  }

  /** Without faults an apply that names neither platform file succeeds exactly when
      nothing stands in its way, here for a network that is not the default. */
  lemma PlainApplySucceeds(t: Tree, reader: Reader, network: Network)
    requires !network.isDefault && "10-rancher.conf" !in network.configs && "10-pasturestack.conf" !in network.configs
    ensures Applied(t, reader, network).0 <==> Unobstructed(t, reader, network)
    ensures !Applied(t, reader, network).0 ==> Applied(t, reader, network).1 == t
  {
    NamesInFull();
  }
}
