/** Which xtables frontend Docker really uses, found out without loading a legacy
    table that is not in use, and what must be gone before native nftables starts. */
module XtFrontend {
  import opened Wrappers
  import opened PlatformHook

  datatype Mode = IptablesNft | IptablesLegacy

  datatype Presence = Present | NotInstalled | LookupFailed

  /** `-S` on a table: its lines, or a failure that may say the kernel lacks support. */
  datatype Inspection = Lines(rules: seq<Line>) | Failed(unsupported: bool)

  /** `/proc/net/ip_tables_names`, one trimmed name a line. */
  datatype ProcFile = NoFile | ReadError | Names(lines: seq<string>)

  /** Everything the detection asks the host; `version` is `None` when it fails. */
  datatype Host = Host(
    lookup: string -> Presence, version: string -> Option<string>,
    inspect: (string, string) -> Inspection, loaded: ProcFile)

  const LEGACY_COMMAND := "iptables-legacy"

  predicate Mentions(text: string, word: string) {
    exists i :: 0 <= i <= |text| && word <= text[i..]
  }

  function LoadedTables(host: Host): seq<string> {
    if host.loaded.Names? then host.loaded.lines else []
  }

  datatype Frontend = Broken | Absent | Usable(command: string)

  function LegacyFrontend(host: Host): Frontend {
    if host.lookup(LEGACY_COMMAND) != Present || host.version(LEGACY_COMMAND).None? ||
       !Mentions(host.version(LEGACY_COMMAND).value, "(legacy)") then Broken
    else Usable(LEGACY_COMMAND)
  }

  function NftFrontend(host: Host): Frontend {
    match host.lookup("iptables-nft")
    case LookupFailed => Broken
    case Present =>
      if host.version("iptables-nft").None? || !Mentions(host.version("iptables-nft").value, "nf_tables") then Broken
      else Usable("iptables-nft")
    case NotInstalled => GenericFrontend(host)
  }

  function GenericFrontend(host: Host): Frontend {
    match host.lookup("iptables")
    case LookupFailed => Broken
    case NotInstalled => Absent
    case Present =>
      match host.version("iptables")
      case None => Broken
      case Some(text) =>
        if Mentions(text, "nf_tables") then Usable("iptables") else if Mentions(text, "legacy") then Absent else Broken
  }

  // --- what an answer must mean ----------------------------------------------

  /** What a frontend's table holds: unknown, nothing at all, or these rules. */
  datatype Reading = Unreadable | Nothing | Rules(rules: seq<Line>)

  function NftNat(host: Host): Reading {
    match NftFrontend(host)
    case Broken => Unreadable
    case Absent => Nothing
    case Usable(command) =>
      match host.inspect(command, "nat")
      case Lines(rules) => Rules(rules)
      case Failed(unsupported) => if unsupported then Nothing else Unreadable
  }

  function NftFilter(host: Host): Reading {
    match NftNat(host)
    case Unreadable => Unreadable
    case Nothing => Nothing
    case Rules(_) => Listed(host.inspect(NftFrontend(host).command, "filter"))
  }

  function Listed(inspection: Inspection): Reading {
    match inspection
    case Lines(rules) => Rules(rules)
    case Failed(_) => Unreadable
  }

  function LegacyTable(host: Host, table: string): Reading {
    if table !in LoadedTables(host) then Nothing
    else if LegacyFrontend(host).Broken? then Unreadable
    else Listed(host.inspect(LEGACY_COMMAND, table))
  }

  ghost predicate OwnedByDocker(table: Reading) {
    table.Rules? && DockerOwnsNat(table.rules)
  }

  /** Known, and no platform chain is live in it. */
  ghost predicate NoPlatform(table: Reading) {
    !table.Unreadable? && (table.Rules? ==> !PlatformLive(table.rules))
  }

  /** Known, no platform chain is live in it and it does not drop forwarding. */
  ghost predicate Clean(filter: Reading) {
    NoPlatform(filter) && (filter.Rules? ==> !DropsForward(filter.rules))
  }

  /** Docker's NAT chain is hooked in exactly this frontend, and the other
      frontend is known to be free of live platform chains and forward drops. */
  ghost predicate Qualifies(host: Host, mode: Mode) {
    !host.loaded.ReadError? && !NftNat(host).Unreadable? && !LegacyTable(host, "nat").Unreadable? &&
    match mode
    case IptablesNft =>
      OwnedByDocker(NftNat(host)) && !OwnedByDocker(LegacyTable(host, "nat")) &&
      NoPlatform(LegacyTable(host, "nat")) && Clean(LegacyTable(host, "filter"))
    case IptablesLegacy =>
      OwnedByDocker(LegacyTable(host, "nat")) && !OwnedByDocker(NftNat(host)) &&
      NoPlatform(NftNat(host)) && Clean(NftFilter(host))
  }

  type Calls = seq<(string, string)>

  /** A legacy command may load a module, so only loaded tables may be listed with it. */
  ghost predicate OnlyLoaded(host: Host, calls: Calls) {
    forall i :: 0 <= i < |calls| && calls[i].0 == LEGACY_COMMAND ==> calls[i].1 in LoadedTables(host)
  }

  // --- the detection ---------------------------------------------------------

  /** The only way to list a table; every listing is on record. */
  class Prober {
    const host: Host
    var calls: Calls

    constructor (host: Host)
      ensures this.host == host && calls == []
    {
      this.host, calls := host, [];
    }

    ghost predicate Careful()
      reads this
    {
      OnlyLoaded(host, calls)
    }

    method Inspect(command: string, table: string) returns (inspection: Inspection)
      modifies this`calls
      ensures inspection == host.inspect(command, table) && calls == old(calls) + [(command, table)]
    {
      inspection := host.inspect(command, table);
      calls := calls + [(command, table)];
    }
  }

  method HasTable(host: Host, table: string) returns (listed: bool)
    ensures listed == (table in LoadedTables(host))
  {
    var lines := LoadedTables(host);
    for i := 0 to |lines|
      invariant table !in lines[..i]
    {
      assert lines[..i + 1] == lines[..i] + [lines[i]];
      if lines[i] == table { return true; }
    }
    assert lines[..|lines|] == lines;
    listed := false;
  }

  method ReadLegacy(prober: Prober, table: string) returns (reading: Reading)
    requires prober.Careful()
    modifies prober`calls
    ensures reading == LegacyTable(prober.host, table) && prober.Careful()
  {
    var listed := HasTable(prober.host, table);
    if !listed { return Nothing; }
    var frontend := LegacyFrontend(prober.host);
    if frontend.Broken? { return Unreadable; }
    var inspection := prober.Inspect(frontend.command, table);
    reading := Listed(inspection);
  }

  method ReadNftNat(prober: Prober) returns (reading: Reading)
    requires prober.Careful()
    modifies prober`calls
    ensures reading == NftNat(prober.host) && prober.Careful()
  {
    match NftFrontend(prober.host)
    case Broken => reading := Unreadable;
    case Absent => reading := Nothing;
    case Usable(command) =>
      NftIsNotLegacy(prober.host);
      var inspection := prober.Inspect(command, "nat");
      match inspection
      case Lines(rules) => reading := Rules(rules);
      case Failed(unsupported) => reading := if unsupported then Nothing else Unreadable;
  }

  lemma NftIsNotLegacy(host: Host)
    ensures NftFrontend(host).Usable? ==> NftFrontend(host).command != LEGACY_COMMAND
  {
    assert |LEGACY_COMMAND| == 15 && |"iptables-nft"| == 12 && |"iptables"| == 8;
  }

  method HasDocker(table: Reading) returns (owns: bool)
    ensures owns == OwnedByDocker(table)
  {
    if !table.Rules? { return false; }
    owns := HasDockerNatChain(table.rules);
  }

  method IsFree(table: Reading) returns (free: bool)
    ensures free == NoPlatform(table)
  {
    if !table.Rules? { return table.Nothing?; }
    var hook := FindPlatformHook(table.rules);
    free := hook.None?;
  }

  method IsClean(filter: Reading) returns (clean: bool)
    ensures clean == Clean(filter)
  {
    clean := IsFree(filter);
    if clean && filter.Rules? {
      var drops := HasForwardDropPolicy(filter.rules);
      clean := !drops;
    }
  }

  /** A mode is returned exactly when it qualifies, and no legacy table is ever
      listed unless it was loaded already. */
  method DetectDockerXTFrontend(prober: Prober) returns (mode: Option<Mode>)
    requires prober.Careful()
    modifies prober`calls
    ensures forall m :: mode == Some(m) <==> Qualifies(prober.host, m)
    ensures prober.Careful()
  {
    var host := prober.host;
    if host.loaded.ReadError? { return None; }
    var nftNat := ReadNftNat(prober);
    if nftNat.Unreadable? { return None; }
    var legacyNat := ReadLegacy(prober, "nat");
    if legacyNat.Unreadable? { return None; }
    var nftActive := HasDocker(nftNat);
    var legacyActive := HasDocker(legacyNat);
    if nftActive == legacyActive { return None; }
    var filter := Nothing;
    if nftActive {
      var free := IsFree(legacyNat);
      if !free { return None; }
      filter := ReadLegacy(prober, "filter");
    } else if nftNat.Rules? {
      var free := IsFree(nftNat);
      if !free { return None; }
      NftIsNotLegacy(host);
      var inspection := prober.Inspect(NftFrontend(host).command, "filter");
      filter := Listed(inspection);
    }
    var clean := IsClean(filter);
    if !clean { return None; }
    mode := Some(if nftActive then IptablesNft else IptablesLegacy);
  }

  /** At most one frontend can qualify. */
  lemma OneFrontendQualifies(host: Host)
    ensures !(Qualifies(host, IptablesNft) && Qualifies(host, IptablesLegacy))
  {
  }

  // --- before native nftables ------------------------------------------------

  /** Nothing of the platform or of Docker is live in the table. */
  ghost predicate Retired(rules: seq<Line>, table: string) {
    !PlatformLive(rules) && (table == "filter" ==> !DropsForward(rules)) && (table == "nat" ==> !DockerOwnsNat(rules))
  }

  ghost predicate RetiredIn(host: Host, command: string, table: string) {
    host.inspect(command, table).Lines? && Retired(host.inspect(command, table).rules, table)
  }

  /** Both frontends are free of earlier hooks, as far as they exist or are loaded. */
  ghost predicate Migratable(host: Host) {
    !host.loaded.ReadError? && !NftFrontend(host).Broken? &&
    (NftFrontend(host).Usable? ==>
      RetiredIn(host, NftFrontend(host).command, "filter") && RetiredIn(host, NftFrontend(host).command, "nat")) &&
    forall table :: table in ["filter", "nat"] && table in LoadedTables(host) ==>
      LegacyFrontend(host).Usable? && RetiredIn(host, LEGACY_COMMAND, table)
  }

  method CheckPreviousXTRules(prober: Prober, command: string, table: string) returns (ok: bool)
    requires prober.Careful() && (command == LEGACY_COMMAND ==> table in LoadedTables(prober.host))
    modifies prober`calls
    ensures ok == RetiredIn(prober.host, command, table) && prober.Careful()
  {
    var inspection := prober.Inspect(command, table);
    if inspection.Failed? { return false; }
    if table == "filter" {
      var drops := HasForwardDropPolicy(inspection.rules);
      if drops { return false; }
    }
    var hook := FindPlatformHook(inspection.rules);
    if hook.Some? { return false; }
    if table == "nat" {
      var owns := HasDockerNatChain(inspection.rules);
      if owns { return false; }
    }
    ok := true;
  }

  method CheckNativeMigration(prober: Prober) returns (ok: bool)
    requires prober.Careful()
    modifies prober`calls
    ensures ok == Migratable(prober.host) && prober.Careful()
  {
    var host := prober.host;
    if host.loaded.ReadError? { return false; }
    var nft := NftFrontend(host);
    if nft.Broken? { return false; }
    if nft.Usable? {
      NftIsNotLegacy(host);
      ok := CheckPreviousXTRules(prober, nft.command, "filter");
      if !ok { return; }
      ok := CheckPreviousXTRules(prober, nft.command, "nat");
      if !ok { return; }
    }
    var filterLoaded := HasTable(host, "filter");
    var natLoaded := HasTable(host, "nat");
    if !filterLoaded && !natLoaded { return true; }
    var legacy := LegacyFrontend(host);
    if legacy.Broken? { return false; }
    if filterLoaded {
      ok := CheckPreviousXTRules(prober, legacy.command, "filter");
      if !ok { return; }
    }
    if natLoaded {
      ok := CheckPreviousXTRules(prober, legacy.command, "nat");
      if !ok { return; }
    }
    ok := true;
  }

  // --- the frontends, in full ------------------------------------------------

  /** The command whose answers count as the nft frontend's. */
  ghost predicate NftCommandIs(host: Host, command: string) {
    (command == "iptables-nft" && host.lookup("iptables-nft") == Present && Says(host, "iptables-nft", "nf_tables")) ||
    (command == "iptables" && host.lookup("iptables-nft") == NotInstalled && host.lookup("iptables") == Present &&
     Says(host, "iptables", "nf_tables"))
  }

  ghost predicate Says(host: Host, command: string, word: string) {
    host.version(command).Some? && Mentions(host.version(command).value, word)
  }

  /** No nft frontend on this host: nothing installed, or a generic legacy command. */
  ghost predicate NoNftCommand(host: Host) {
    host.lookup("iptables-nft") == NotInstalled &&
    (host.lookup("iptables") == NotInstalled ||
     (host.lookup("iptables") == Present && !Says(host, "iptables", "nf_tables") && Says(host, "iptables", "legacy")))
  }

  lemma NftFrontendExactly(host: Host)
    ensures forall c :: NftFrontend(host) == Usable(c) <==> NftCommandIs(host, c)
    ensures NftFrontend(host) == Absent <==> NoNftCommand(host)
  {
    assert |"iptables"| != |"iptables-nft"|;
  }

  lemma LegacyFrontendExactly(host: Host)
    ensures LegacyFrontend(host) == Usable("iptables-legacy") <==>
            host.lookup("iptables-legacy") == Present && Says(host, "iptables-legacy", "(legacy)")
    ensures LegacyFrontend(host) == Usable("iptables-legacy") || LegacyFrontend(host) == Broken
  {
  }

  ghost predicate Loaded(host: Host, table: string) {
    host.loaded.Names? && table in host.loaded.lines
  }

  ghost predicate FreeTable(inspection: Inspection) {
    inspection.Lines? && !PlatformLive(inspection.rules)
  }

  ghost predicate FreeFilter(inspection: Inspection) {
    FreeTable(inspection) && ["-P", "FORWARD", "DROP"] !in inspection.rules
  }

  ghost predicate DockerIn(inspection: Inspection) {
    inspection.Lines? && DockerOwnsNat(inspection.rules)
  }

  /** What it takes to report the nft frontend, in terms of the commands' answers. */
  lemma NftQualifiesExactly(host: Host)
    ensures Qualifies(host, IptablesNft) <==>
      host.loaded != ReadError &&
      (exists c :: NftCommandIs(host, c) && DockerIn(host.inspect(c, "nat"))) &&
      (Loaded(host, "nat") || Loaded(host, "filter") ==>
        host.lookup("iptables-legacy") == Present && Says(host, "iptables-legacy", "(legacy)")) &&
      (Loaded(host, "nat") ==>
        FreeTable(host.inspect("iptables-legacy", "nat")) && !DockerIn(host.inspect("iptables-legacy", "nat"))) &&
      (Loaded(host, "filter") ==> FreeFilter(host.inspect("iptables-legacy", "filter")))
  {
    NftFrontendExactly(host);
    LegacyFrontendExactly(host);
  }

  /** No rules can come from an nft frontend: there is none, or its kernel part is missing. */
  ghost predicate NftUnavailable(host: Host) {
    NoNftCommand(host) || exists c :: NftCommandIs(host, c) && host.inspect(c, "nat") == Failed(true)
  }

  /** What it takes to report the legacy frontend. */
  lemma LegacyQualifiesExactly(host: Host)
    ensures Qualifies(host, IptablesLegacy) <==>
      Loaded(host, "nat") && host.lookup("iptables-legacy") == Present && Says(host, "iptables-legacy", "(legacy)") &&
      DockerIn(host.inspect("iptables-legacy", "nat")) &&
      (NftUnavailable(host) ||
       exists c :: NftCommandIs(host, c) && FreeTable(host.inspect(c, "nat")) && !DockerIn(host.inspect(c, "nat")) &&
         FreeFilter(host.inspect(c, "filter")))
  {
    NftFrontendExactly(host);
    LegacyFrontendExactly(host);
  }

  /** Neither a platform chain, nor Docker's NAT chain, nor a forward drop is live. */
  ghost predicate Retires(host: Host, command: string) {
    FreeFilter(host.inspect(command, "filter")) &&
    FreeTable(host.inspect(command, "nat")) && !DockerIn(host.inspect(command, "nat"))
  }

  lemma RetiredInExactly(host: Host, command: string)
    ensures RetiredIn(host, command, "filter") <==> FreeFilter(host.inspect(command, "filter"))
    ensures RetiredIn(host, command, "nat") <==>
            FreeTable(host.inspect(command, "nat")) && !DockerIn(host.inspect(command, "nat"))
  {
    assert |"filter"| == 6 && |"nat"| == 3;
  }

  ghost predicate LegacyRetires(host: Host) {
    (Loaded(host, "nat") || Loaded(host, "filter") ==>
      host.lookup("iptables-legacy") == Present && Says(host, "iptables-legacy", "(legacy)")) &&
    (Loaded(host, "filter") ==> FreeFilter(host.inspect("iptables-legacy", "filter"))) &&
    (Loaded(host, "nat") ==>
      FreeTable(host.inspect("iptables-legacy", "nat")) && !DockerIn(host.inspect("iptables-legacy", "nat")))
  }

  ghost predicate TablesRetired(host: Host) {
    forall table :: table in ["filter", "nat"] && table in LoadedTables(host) ==>
      LegacyFrontend(host).Usable? && RetiredIn(host, LEGACY_COMMAND, table)
  }

  lemma TablesRetiredExactly(host: Host)
    requires host.loaded != ReadError
    ensures TablesRetired(host) <==> LegacyRetires(host)
  {
    LegacyFrontendExactly(host);
    RetiredInExactly(host, "iptables-legacy");
    assert "filter" in ["filter", "nat"] && "nat" in ["filter", "nat"];
  }

  ghost predicate NftRetires(host: Host) {
    NoNftCommand(host) || exists c :: NftCommandIs(host, c) && Retires(host, c)
  }

  lemma NftRetiresExactly(host: Host)
    ensures NftRetires(host) <==>
      NftFrontend(host) == Absent ||
      (NftFrontend(host).Usable? && RetiredIn(host, NftFrontend(host).command, "filter") &&
       RetiredIn(host, NftFrontend(host).command, "nat"))
  {
    NftFrontendExactly(host);
    if NftFrontend(host).Usable? {
      assert NftCommandIs(host, NftFrontend(host).command);
      RetiredInExactly(host, NftFrontend(host).command);
    }
  }

  /** What it takes to pass to native nftables, in terms of the commands' answers. */
  lemma MigratableExactly(host: Host)
    ensures Migratable(host) <==> host.loaded != ReadError && NftRetires(host) && LegacyRetires(host)
  {
    NftRetiresExactly(host);
    if host.loaded != ReadError {
      TablesRetiredExactly(host);
    }
  }
}
