/** The migration interrupted anywhere: what a failed or killed apply leaves is a
    state every later apply can start from. */
module CniCrash {
  import opened Wrappers
  import opened Cidr
  import opened CniDisk
  import opened CniConf
  import opened CniApply
  import opened CniMoves

  lemma TemporaryEndsInDigit(p: Path, folder: Path, name: string)
    requires IsTemporary(p, folder, name)
    ensures p.name != "" && IsDigit(p.name[|p.name| - 1])
  {
    var digits := p.name[|TemporaryPrefix(name)|..];
    assert digits[|digits| - 1] == p.name[|p.name| - 1];
  }

  /** Paths whose name does not end in a digit are never temporaries. */
  lemma NotScratch(p: Path, plan: Plan)
    requires p.In? && p.name != "" && !IsDigit(p.name[|p.name| - 1])
    ensures !Scratch(p, plan)
  {
    if IsTemporary(p, BASE, "managed.d") { TemporaryEndsInDigit(p, BASE, "managed.d"); }
    if n :| n in plan.wanted && IsTemporary(p, plan.conf, n) { TemporaryEndsInDigit(p, plan.conf, n); }
  }

  predicate Component(t: Tree, p: Path) { At(t, p).None? || At(t, p).value.Directory? }

  lemma ClimbableComponents(t: Tree, network: string)
    ensures Climbable(t, ConfDirectory(network)) <==>
            Component(t, ConfDirectory(network)) && Component(t, BASE) && Component(t, ETC)
  {
    assert Climbable(t, ETC) <==> Component(t, ETC);
    assert Climbable(t, BASE) <==> Component(t, BASE) && Component(t, ETC);
  }

  /** The directories on the way stay missing or directories. */
  lemma ComponentsKept(t: Tree, start: Tree, plan: Plan, network: string)
    requires plan.conf == ConfDirectory(network) && OnlyPermitted(t, start, plan)
    requires plan.choice.Chosen? ==>
      plan.choice.retirement.path.In? && plan.choice.retirement.path.parent == plan.conf &&
      plan.choice.retirement.backup.In? && plan.choice.retirement.backup.parent == plan.conf
    requires Climbable(start, plan.conf)
    ensures Climbable(t, plan.conf)
  {
    ClimbableComponents(start, network);
    ClimbableComponents(t, network);
    assert (network + ".d")[|network| + 1] == 'd' && "cni"[2] == 'i' && "etc"[2] == 'c';
    NotScratch(plan.conf, plan);
    NotScratch(BASE, plan);
    NotScratch(ETC, plan);
    assert Permitted(plan.conf, At(start, plan.conf), At(t, plan.conf), plan);
    assert Permitted(BASE, At(start, BASE), At(t, BASE), plan);
    assert Permitted(ETC, At(start, ETC), At(t, ETC), plan);
  }

  lemma LinkableKept(t: Tree, start: Tree, plan: Plan, network: string)
    requires plan.conf == ConfDirectory(network) && OnlyPermitted(t, start, plan)
    requires plan.choice.Chosen? ==>
      plan.choice.retirement.path.In? && plan.choice.retirement.path.parent == plan.conf &&
      plan.choice.retirement.backup.In? && plan.choice.retirement.backup.parent == plan.conf
    requires Climbable(start, plan.conf) && Climbable(t, plan.conf) && Linkable(start, network)
    ensures Linkable(t, network)
  {
    assert "managed.d"[8] == 'd';
    NotScratch(MANAGED, plan);
    assert Permitted(MANAGED, At(start, MANAGED), At(t, MANAGED), plan);
    if Above(MANAGED, BASE) { NothingBelowIsAbove(MANAGED, BASE); }
  }

  /** One of the four files afterwards: as it was, or the one side effect the
      move may have on it. */
  lemma FilesKept(t: Tree, start: Tree, reader: Reader, network: string, isDefault: bool, side: Side, pair: Pair, s: Side)
    requires Ready(start, network, isDefault, pair) && ExactContracts(reader, pair)
    requires OnlyPermitted(t, start, PlanOf(start, reader, Request(network, isDefault, side, pair)))
    ensures Fits(t, network, s, pair)
  {
    var plan := PlanOf(start, reader, Request(network, isDefault, side, pair));
    SelectsOther(start, reader, network, isDefault, side, pair);
    NamesDiffer(network);
    FileKept(t, start, plan, network, Active(network, s));
    FileKept(t, start, plan, network, Backup(network, s));
  }

  /** What may become of a path in the configuration directory that is no temporary. */
  lemma FileKept(t: Tree, start: Tree, plan: Plan, network: string, p: Path)
    requires plan.conf == ConfDirectory(network) && OnlyPermitted(t, start, plan)
    requires p.In? && p.parent == plan.conf && p.name in PLATFORM_NAMES
    ensures At(t, p) == At(start, p)
      || (IsWanted(p, plan) && At(t, p) == Some(File(plan.wanted[p.name])))
      || (plan.choice.Chosen? && p == plan.choice.retirement.path && At(t, p).None?)
      || (plan.choice.Chosen? && p == plan.choice.retirement.backup && At(t, p) == Some(File(plan.choice.retirement.content)))
  {
    PlatformNamesEndInLetters(p.name);
    NotScratch(p, plan);
    if Above(p, plan.conf) { NothingBelowIsAbove(p, plan.conf); }
    assert Permitted(p, At(start, p), At(t, p), plan);
  }

  const PLATFORM_NAMES := [LEGACY_NAME, CURRENT_NAME, LEGACY_NAME + RETIRED_SUFFIX, CURRENT_NAME + RETIRED_SUFFIX]

  lemma PlatformNamesEndInLetters(name: string)
    requires name in PLATFORM_NAMES
    ensures name != "" && !IsDigit(name[|name| - 1])
  {
    assert LEGACY_NAME[14] == 'f' && CURRENT_NAME[19] == 'f' && RETIRED_SUFFIX[20] == 'd';
    assert |LEGACY_NAME| == 15 && |CURRENT_NAME| == 20 && |RETIRED_SUFFIX| == 21;
    assert name == PLATFORM_NAMES[0] || name == PLATFORM_NAMES[1] || name == PLATFORM_NAMES[2] || name == PLATFORM_NAMES[3];
  }

  /** Whatever an interrupted upgrade or rollback leaves, the next one can start
      from it, and no bytes of either configuration are lost. */
  lemma InterruptedMoveStaysReady(t: Tree, start: Tree, reader: Reader, network: string, isDefault: bool, side: Side, pair: Pair)
    requires Ready(start, network, isDefault, pair) && ExactContracts(reader, pair)
    requires Kept(t, start, PlanOf(start, reader, Request(network, isDefault, side, pair)))
    ensures Ready(t, network, isDefault, pair)
    ensures forall s :: Recoverable(start, network, s, pair) ==> Recoverable(t, network, s, pair)
  {
    var plan := PlanOf(start, reader, Request(network, isDefault, side, pair));
    SelectsOther(start, reader, network, isDefault, side, pair);
    ComponentsKept(t, start, plan, network);
    if isDefault { LinkableKept(t, start, plan, network); }
    FilesKept(t, start, reader, network, isDefault, side, pair, Legacy);
    FilesKept(t, start, reader, network, isDefault, side, pair, Current);
    forall s | Recoverable(start, network, s, pair) ensures Recoverable(t, network, s, pair) {
      BytesKept(t, start, reader, network, isDefault, side, pair, s);
    }
  }

  lemma BytesKept(t: Tree, start: Tree, reader: Reader, network: string, isDefault: bool, side: Side, pair: Pair, s: Side)
    requires Ready(start, network, isDefault, pair) && ExactContracts(reader, pair) && Recoverable(start, network, s, pair)
    requires Kept(t, start, PlanOf(start, reader, Request(network, isDefault, side, pair)))
    ensures Recoverable(t, network, s, pair)
  {
    var plan := PlanOf(start, reader, Request(network, isDefault, side, pair));
    SelectsOther(start, reader, network, isDefault, side, pair);
    NamesDiffer(network);
    FileKept(t, start, plan, network, Active(network, s));
    FileKept(t, start, plan, network, Backup(network, s));
  }

  // --- whole lifetimes -------------------------------------------------------

  /** Trees left one after the other by applies that may each have been cut short. */
  ghost predicate CutShort(trace: seq<Tree>, reader: Reader, network: string, isDefault: bool, pair: Pair, sides: seq<Side>) {
    |trace| == |sides| + 1 &&
    forall i :: 0 <= i < |sides| ==>
      Kept(trace[i + 1], trace[i], PlanOf(trace[i], reader, Request(network, isDefault, sides[i], pair)))
  }

  lemma {:induction false} CutShortStaysReady(trace: seq<Tree>, reader: Reader, network: string, isDefault: bool, pair: Pair, sides: seq<Side>)
    requires CutShort(trace, reader, network, isDefault, pair, sides) && ExactContracts(reader, pair)
    requires Ready(trace[0], network, isDefault, pair)
    ensures Ready(trace[|sides|], network, isDefault, pair)
    ensures forall s :: Recoverable(trace[0], network, s, pair) ==> Recoverable(trace[|sides|], network, s, pair)
  {
    if sides != [] {
      var n := |sides| - 1;
      CutShortStaysReady(trace[..n + 1], reader, network, isDefault, pair, sides[..n]);
      InterruptedMoveStaysReady(trace[n + 1], trace[n], reader, network, isDefault, sides[n], pair);
    }
  }

  /** After any number of interrupted moves, undisturbed ones succeed, leave exactly
      the file asked for last active, and have lost nothing since the beginning. */
  lemma MovesConvergeAfterCrashes(trace: seq<Tree>, reader: Reader, network: string, isDefault: bool, pair: Pair,
                                  broken: seq<Side>, sides: seq<Side>)
    requires CutShort(trace, reader, network, isDefault, pair, broken) && ExactContracts(reader, pair)
    requires Ready(trace[0], network, isDefault, pair) && sides != []
    ensures var end := RunMoves(trace[|broken|], reader, network, isDefault, pair, sides);
            end.0 && OnlyActive(end.1, network, sides[|sides| - 1], pair) &&
            (forall s :: Recoverable(trace[0], network, s, pair) ==> Recoverable(end.1, network, s, pair)) &&
            Applied(end.1, reader, Request(network, isDefault, sides[|sides| - 1], pair)) == (true, end.1)
  {
    CutShortStaysReady(trace, reader, network, isDefault, pair, broken);
    MovesConverge(trace[|broken|], reader, network, isDefault, pair, sides);
  }

  datatype Event =
    | Move(side: Side)
    /** The process dies somewhere inside an apply and a new one starts. */
    | CrashDuring(side: Side)

  /** Ready for either move, with everything recoverable that ever was. */
  ghost predicate Sane(t: Tree, start: Tree, network: string, isDefault: bool, pair: Pair) {
    Ready(t, network, isDefault, pair) &&
    forall s :: Recoverable(start, network, s, pair) ==> Recoverable(t, network, s, pair)
  }

  ghost predicate AllSane(trees: seq<Tree>, start: Tree, network: string, isDefault: bool, pair: Pair) {
    forall i :: 0 <= i < |trees| ==> Sane(trees[i], start, network, isDefault, pair)
  }

  lemma KeptIsSane(t: Tree, before: Tree, start: Tree, reader: Reader, network: string, isDefault: bool, side: Side, pair: Pair)
    requires Sane(before, start, network, isDefault, pair) && ExactContracts(reader, pair)
    requires Kept(t, before, PlanOf(before, reader, Request(network, isDefault, side, pair)))
    ensures Sane(t, start, network, isDefault, pair)
  {
    InterruptedMoveStaysReady(t, before, reader, network, isDefault, side, pair);
  }

  /** One apply with any failures: every tree it passes through is sane. */
  method TryMove(disk: Disk, w: Watcher, network: string, isDefault: bool, side: Side, pair: Pair, ghost start: Tree)
    requires w.disk == disk && ExactContracts(w.reader, pair)
    requires Sane(disk.tree, start, network, isDefault, pair) && AllSane(disk.history, start, network, isDefault, pair)
    modifies w, disk
    ensures Sane(disk.tree, start, network, isDefault, pair) && AllSane(disk.history, start, network, isDefault, pair)
    ensures old(disk.history) <= disk.history
  {
    ghost var before, past := disk.tree, disk.history;
    var _ := w.Apply(Request(network, isDefault, side, pair));
    KeptIsSane(disk.tree, before, start, w.reader, network, isDefault, side, pair);
    forall i | 0 <= i < |disk.history| ensures Sane(disk.history[i], start, network, isDefault, pair) {
      if i < |past| {
        assert disk.history[i] == past[i];
      } else {
        KeptIsSane(disk.history[i], before, start, w.reader, network, isDefault, side, pair);
      }
    }
  }

  /** Any sequence of moves and crashes, with any operation failing. */
  method Lifetime(start: Tree, reader: Reader, network: string, isDefault: bool, pair: Pair, events: seq<Event>) returns (disk: Disk)
    requires Ready(start, network, isDefault, pair) && ExactContracts(reader, pair)
    ensures AllSane(disk.history, start, network, isDefault, pair) && Sane(disk.tree, start, network, isDefault, pair)
  {
    disk := new Disk(start);
    var w := new Watcher(disk, reader);
    for n := 0 to |events|
      invariant fresh(disk) && fresh(w) && w.disk == disk && w.reader == reader
      invariant AllSane(disk.history, start, network, isDefault, pair) && Sane(disk.tree, start, network, isDefault, pair)
    {
      match events[n] {
        case Move(side) =>
          TryMove(disk, w, network, isDefault, side, pair, start);
        case CrashDuring(side) =>
          var before := |disk.history|;
          TryMove(disk, w, network, isDefault, side, pair, start);
          if before < |disk.history| {
            var at :| before <= at < |disk.history|;
            disk.CrashAt(at);
          }
          w := new Watcher(disk, reader);
      }
    }
  }
}
