/** Upgrades and rollbacks between the two platform configurations: any sequence
    of them converges on the one asked for last. */
module CniMoves {
  import opened Wrappers
  import opened CniDisk
  import opened CniConf

  datatype Side = Legacy | Current

  /** The exact bytes of the two configurations. */
  datatype Pair = Pair(legacy: Bytes, current: Bytes)

  function Other(side: Side): Side {
    if side.Legacy? then Current else Legacy
  }

  function NameOf(side: Side): string {
    if side.Legacy? then LEGACY_NAME else CURRENT_NAME
  }

  function BytesOf(side: Side, pair: Pair): Bytes {
    if side.Legacy? then pair.legacy else pair.current
  }

  function Active(network: string, side: Side): Path {
    In(ConfDirectory(network), NameOf(side))
  }

  function Backup(network: string, side: Side): Path {
    In(ConfDirectory(network), NameOf(side) + RETIRED_SUFFIX)
  }

  function Request(network: string, isDefault: bool, side: Side, pair: Pair): Network {
    Network(network, isDefault, map[NameOf(side) := Some(BytesOf(side, pair))])
  }

  ghost predicate ExactContracts(reader: Reader, pair: Pair) {
    reader.valid(pair.legacy) && reader.contract(pair.legacy) == Some(LEGACY_CONTRACT) &&
    reader.valid(pair.current) && reader.contract(pair.current) == Some(CURRENT_CONTRACT)
  }

  predicate Holds(t: Tree, p: Path, content: Bytes) {
    At(t, p) == Some(File(content))
  }

  predicate Fits(t: Tree, network: string, side: Side, pair: Pair) {
    (At(t, Active(network, side)).None? || Holds(t, Active(network, side), BytesOf(side, pair))) &&
    (At(t, Backup(network, side)).None? || Holds(t, Backup(network, side), BytesOf(side, pair)))
  }

  predicate Linkable(t: Tree, network: string) {
    SameFile(t, MANAGED, ConfDirectory(network)) || At(t, MANAGED).None? || At(t, MANAGED).value.Link?
  }

  /** Files and backups absent or byte-equal to the two configurations. */
  ghost predicate Ready(t: Tree, network: string, isDefault: bool, pair: Pair) {
    ValidName(network) && Climbable(t, ConfDirectory(network)) &&
    Fits(t, network, Legacy, pair) && Fits(t, network, Current, pair) && (isDefault ==> Linkable(t, network))
  }

  /** Exactly the requested one of the two is active. */
  predicate OnlyActive(t: Tree, network: string, side: Side, pair: Pair) {
    Holds(t, Active(network, side), BytesOf(side, pair)) && At(t, Active(network, Other(side))).None?
  }

  predicate Recoverable(t: Tree, network: string, side: Side, pair: Pair) {
    Holds(t, Active(network, side), BytesOf(side, pair)) || Holds(t, Backup(network, side), BytesOf(side, pair))
  }

  // --- one move --------------------------------------------------------------

  lemma NamesDiffer(network: string)
    ensures Active(network, Legacy) != Active(network, Current)
    ensures Backup(network, Legacy) != Backup(network, Current)
    ensures forall s, r :: Active(network, s) != Backup(network, r)
    ensures ValidName(LEGACY_NAME) && ValidName(CURRENT_NAME)
  {
    assert LEGACY_NAME[3] != CURRENT_NAME[3];
    assert (LEGACY_NAME + RETIRED_SUFFIX)[3] != (CURRENT_NAME + RETIRED_SUFFIX)[3];
    assert |LEGACY_NAME| == 15 && |CURRENT_NAME| == 20 && |RETIRED_SUFFIX| == 21;
  }

  const ETC := In(Slash, "etc")

  predicate Standing(t: Tree, network: string) {
    IsDirectory(t, ETC) && IsDirectory(t, BASE) && IsDirectory(t, ConfDirectory(network))
  }

  lemma MadeStanding(t: Tree, network: string)
    requires Climbable(t, ConfDirectory(network))
    ensures Standing(WithDirectories(t, ConfDirectory(network)), network)
  {
    DirectoriesExist(t, ETC);
    DirectoriesExist(t, BASE);
    DirectoriesExist(t, ConfDirectory(network));
    DirectoriesOnlyAdded(WithDirectories(t, ETC), BASE, ETC);
    assert WithDirectories(t, BASE) == if BASE in WithDirectories(t, ETC) then WithDirectories(t, ETC) else WithDirectories(t, ETC)[BASE := Directory];
  }

  lemma StandingNeedsNothing(t: Tree, network: string)
    requires Standing(t, network)
    ensures WithDirectories(t, ConfDirectory(network)) == t && Climbable(t, ConfDirectory(network))
  {
    assert WithDirectories(t, ETC) == t && Climbable(t, ETC);
    assert WithDirectories(t, BASE) == t && Climbable(t, BASE);
  }

  lemma SelectsOther(t: Tree, reader: Reader, network: string, isDefault: bool, side: Side, pair: Pair)
    requires Ready(t, network, isDefault, pair) && ExactContracts(reader, pair)
    ensures Requestable(t, reader, Request(network, isDefault, side, pair))
    ensures Wanted(Request(network, isDefault, side, pair).configs) == map[NameOf(side) := BytesOf(side, pair)]
    ensures PlanOf(t, reader, Request(network, isDefault, side, pair)).choice ==
            if At(t, Active(network, Other(side))).None? then Nothing
            else Chosen(Retirement(Active(network, Other(side)), Backup(network, Other(side)), BytesOf(Other(side), pair)))
  {
    NamesDiffer(network);
    assert LEGACY_NAME != CURRENT_NAME by { assert Active(network, Legacy) != Active(network, Current); }
  }

  lemma WrittenOnce(t: Tree, conf: Path, name: string, content: Bytes)
    ensures Written(t, conf, map[name := content]) == t[In(conf, name) := File(content)]
  {
    var w := Written(t, conf, map[name := content]);
    forall p ensures (p in w <==> p in t[In(conf, name) := File(content)]) {
      WrittenAt(t, conf, map[name := content], p);
    }
    forall p | p in w ensures w[p] == t[In(conf, name) := File(content)][p] {
      WrittenAt(t, conf, map[name := content], p);
    }
  }

  /** The tree after the directories and the requested file are there. */
  function Placed(t: Tree, network: string, side: Side, pair: Pair): Tree {
    WithDirectories(t, ConfDirectory(network))[Active(network, side) := File(BytesOf(side, pair))]
  }

  lemma PlacedAt(t: Tree, network: string, side: Side, pair: Pair, p: Path)
    ensures p == Active(network, side) ==> Holds(Placed(t, network, side, pair), p, BytesOf(side, pair))
    ensures p.In? && p.parent == ConfDirectory(network) && p != Active(network, side) ==>
            At(Placed(t, network, side, pair), p) == At(t, p)
  {
    DirectoriesOnlyAdded(t, ConfDirectory(network), p);
    if Above(p, ConfDirectory(network)) { NothingBelowIsAbove(p, ConfDirectory(network)); }
  }

  lemma PlacedStands(t: Tree, network: string, side: Side, pair: Pair)
    requires Climbable(t, ConfDirectory(network))
    ensures Standing(Placed(t, network, side, pair), network)
    ensures Linkable(t, network) ==> Linkable(Placed(t, network, side, pair), network)
  {
    MadeStanding(t, network);
    DirectoriesOnlyAdded(t, ConfDirectory(network), MANAGED);
  }

  function Linked(t: Tree, network: string, isDefault: bool): Tree {
    if isDefault && !SameFile(t, MANAGED, ConfDirectory(network)) then t[MANAGED := Link(ConfDirectory(network))] else t
  }

  lemma LinkedStands(t: Tree, network: string, isDefault: bool)
    requires Standing(t, network) && (isDefault ==> Linkable(t, network))
    ensures Standing(Linked(t, network, isDefault), network)
    ensures isDefault ==> SameFile(Linked(t, network, isDefault), MANAGED, ConfDirectory(network))
    ensures forall p :: p != MANAGED ==> At(Linked(t, network, isDefault), p) == At(t, p)
  {
  }

  /** The old file leaves its active path, or was never there. */
  function Moved(t: Tree, network: string, gone: Side): Tree {
    var path, backup := Active(network, gone), Backup(network, gone);
    if path !in t then t
    else if At(t, backup).None? then (t - {path})[backup := t[path]]
    else t - {path}
  }

  lemma MovedStands(t: Tree, network: string, isDefault: bool, side: Side, pair: Pair)
    requires Standing(t, network) && Fits(t, network, Other(side), pair)
    requires isDefault ==> SameFile(t, MANAGED, ConfDirectory(network))
    ensures var now := Moved(t, network, Other(side));
            Standing(now, network) && (isDefault ==> SameFile(now, MANAGED, ConfDirectory(network)))
  {
    var now, conf := Moved(t, network, Other(side)), ConfDirectory(network);
    if isDefault { LinksLeadOn(t, now, MANAGED, t.Keys, now.Keys, conf); }
  }

  function After(t: Tree, network: string, isDefault: bool, side: Side, pair: Pair): Tree {
    Moved(Linked(Placed(t, network, side, pair), network, isDefault), network, Other(side))
  }

  /** An apply of either configuration succeeds, and this is all it does. */
  lemma MoveSucceeds(t: Tree, reader: Reader, network: string, isDefault: bool, side: Side, pair: Pair)
    requires Ready(t, network, isDefault, pair) && ExactContracts(reader, pair)
    ensures Applied(t, reader, Request(network, isDefault, side, pair)) == (true, After(t, network, isDefault, side, pair))
  {
    var conf := ConfDirectory(network);
    SelectsOther(t, reader, network, isDefault, side, pair);
    WrittenOnce(WithDirectories(t, conf), conf, NameOf(side), BytesOf(side, pair));
    PlacedStands(t, network, side, pair);
    var placed := Placed(t, network, side, pair);
    LinkedStands(placed, network, isDefault);
    NamesDiffer(network);
    PlacedAt(t, network, side, pair, Active(network, Other(side)));
    PlacedAt(t, network, side, pair, Backup(network, Other(side)));
  }

  /** It leaves exactly the requested file active and loses no bytes. */
  lemma MoveSettles(t: Tree, network: string, isDefault: bool, side: Side, pair: Pair)
    requires Ready(t, network, isDefault, pair)
    ensures var now := After(t, network, isDefault, side, pair);
            Standing(now, network) && OnlyActive(now, network, side, pair) && Ready(now, network, isDefault, pair) &&
            (isDefault ==> SameFile(now, MANAGED, ConfDirectory(network)))
    ensures forall s :: Recoverable(t, network, s, pair) ==> Recoverable(After(t, network, isDefault, side, pair), network, s, pair)
  {
    PlacedStands(t, network, side, pair);
    var placed := Placed(t, network, side, pair);
    LinkedStands(placed, network, isDefault);
    NamesDiffer(network);
    PlacedAt(t, network, side, pair, Active(network, side));
    PlacedAt(t, network, side, pair, Backup(network, side));
    PlacedAt(t, network, side, pair, Active(network, Other(side)));
    PlacedAt(t, network, side, pair, Backup(network, Other(side)));
    MovedStands(Linked(placed, network, isDefault), network, isDefault, side, pair);
    StandingNeedsNothing(After(t, network, isDefault, side, pair), network);
  }

  /** Repeating the last apply changes nothing. */
  lemma MoveIsIdempotent(t: Tree, network: string, isDefault: bool, side: Side, pair: Pair)
    requires Standing(t, network) && OnlyActive(t, network, side, pair)
    requires isDefault ==> SameFile(t, MANAGED, ConfDirectory(network))
    ensures After(t, network, isDefault, side, pair) == t
  {
    StandingNeedsNothing(t, network);
    assert Placed(t, network, side, pair) == t;
  }

  // --- any sequence of moves -------------------------------------------------

  /** The applies of a run, oldest first: did all succeed, and where did they lead. */
  ghost function RunMoves(t: Tree, reader: Reader, network: string, isDefault: bool, pair: Pair, sides: seq<Side>): (bool, Tree) {
    if sides == [] then (true, t)
    else
      var before := RunMoves(t, reader, network, isDefault, pair, sides[..|sides| - 1]);
      var after := Applied(before.1, reader, Request(network, isDefault, sides[|sides| - 1], pair));
      (before.0 && after.0, after.1)
  }

  lemma {:induction false} MovesStayReady(t: Tree, reader: Reader, network: string, isDefault: bool, pair: Pair, sides: seq<Side>)
    requires Ready(t, network, isDefault, pair) && ExactContracts(reader, pair)
    ensures var end := RunMoves(t, reader, network, isDefault, pair, sides);
            end.0 && Ready(end.1, network, isDefault, pair) &&
            forall s :: Recoverable(t, network, s, pair) ==> Recoverable(end.1, network, s, pair)
  {
    if sides != [] {
      var before := RunMoves(t, reader, network, isDefault, pair, sides[..|sides| - 1]).1;
      MovesStayReady(t, reader, network, isDefault, pair, sides[..|sides| - 1]);
      MoveSucceeds(before, reader, network, isDefault, sides[|sides| - 1], pair);
      MoveSettles(before, network, isDefault, sides[|sides| - 1], pair);
    }
  }

  /** Every apply of every sequence succeeds, exactly the file asked for last is
      active, what was ever there can be recovered, and once more changes nothing. */
  lemma MovesConverge(t: Tree, reader: Reader, network: string, isDefault: bool, pair: Pair, sides: seq<Side>)
    requires Ready(t, network, isDefault, pair) && ExactContracts(reader, pair) && sides != []
    ensures var last := sides[|sides| - 1];
            var end := RunMoves(t, reader, network, isDefault, pair, sides);
            end.0 && OnlyActive(end.1, network, last, pair) &&
            (isDefault ==> SameFile(end.1, MANAGED, ConfDirectory(network))) &&
            (forall s :: Recoverable(t, network, s, pair) ==> Recoverable(end.1, network, s, pair)) &&
            Applied(end.1, reader, Request(network, isDefault, last, pair)) == (true, end.1)
  {
    var last := sides[|sides| - 1];
    var before := RunMoves(t, reader, network, isDefault, pair, sides[..|sides| - 1]).1;
    MovesStayReady(t, reader, network, isDefault, pair, sides[..|sides| - 1]);
    MovesStayReady(t, reader, network, isDefault, pair, sides);
    MoveSucceeds(before, reader, network, isDefault, last, pair);
    MoveSettles(before, network, isDefault, last, pair);
    var end := After(before, network, isDefault, last, pair);
    MoveSucceeds(end, reader, network, isDefault, last, pair);
    MoveIsIdempotent(end, network, isDefault, last, pair);
  }
}
