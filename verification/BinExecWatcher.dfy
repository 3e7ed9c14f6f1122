/** One pass of the CNI binary watcher: select providers, then install, keep or
    remove each name's wrapper. */
module BinExecWatcher {
  import opened StringOrder
  import opened Lists
  import opened Wrappers
  import opened BinExec
  import opened BinExecDrivers
  import CniConf

  // --- selection -------------------------------------------------------------

  /** What the selection loop knows after the containers in `seen`. */
  ghost predicate Selected(binaries: map<string, string>, versions: map<string, Version>, uncertain: map<string, set<string>>,
                           seen: seq<Container>, host: string, inspect: string -> Answer) {
    (forall n, id :: IsRunning(seen, host, inspect, n, id) ==> n in binaries) &&
    (forall n :: n in binaries ==>
      IsBest(seen, host, inspect, n, binaries[n]) && n in versions && inspect(binaries[n]) == Running(versions[n])) &&
    (forall n, id :: (n in uncertain && id in uncertain[n]) <==> IsUncertain(seen, host, inspect, n, id))
  }

  lemma OneMore(seen: seq<Container>, c: Container, host: string, name: string, id: string)
    ensures Authorized(seen + [c], host, name, id) <==>
            Authorized(seen, host, name, id) || (Provides(c, host, name) && c.id == id)
  {
    assert (seen + [c])[|seen|] == c;
    if Authorized(seen, host, name, id) {
      var i :| 0 <= i < |seen| && Provides(seen[i], host, name) && seen[i].id == id;
      assert (seen + [c])[i] == seen[i];
    }
  }

  /** A container that is not a running provider of the name leaves its best one best. */
  lemma BestUntouched(seen: seq<Container>, c: Container, host: string, inspect: string -> Answer, name: string, id: string)
    requires IsBest(seen, host, inspect, name, id) && !(Provides(c, host, name) && inspect(c.id).Running?)
    ensures IsBest(seen + [c], host, inspect, name, id)
  {
    forall other ensures IsRunning(seen + [c], host, inspect, name, other) <==> IsRunning(seen, host, inspect, name, other) {
      OneMore(seen, c, host, name, other);
    }
  }

  lemma FirstIsBest(seen: seq<Container>, c: Container, host: string, inspect: string -> Answer, name: string)
    requires Provides(c, host, name) && inspect(c.id).Running?
    requires forall id :: !IsRunning(seen, host, inspect, name, id)
    ensures IsBest(seen + [c], host, inspect, name, c.id)
  {
    forall other ensures IsRunning(seen + [c], host, inspect, name, other) <==> other == c.id {
      OneMore(seen, c, host, name, other);
      assert !IsRunning(seen, host, inspect, name, other);
    }
  }

  /** The names a container does not provide keep what was selected for them. */
  lemma Carried(binaries: map<string, string>, versions: map<string, Version>, uncertain: map<string, set<string>>,
                seen: seq<Container>, c: Container, host: string, inspect: string -> Answer)
    requires Selected(binaries, versions, uncertain, seen, host, inspect)
    ensures forall n, id :: IsRunning(seen + [c], host, inspect, n, id) ==>
      n in binaries || (Provides(c, host, n) && inspect(c.id).Running?)
    ensures forall n :: n in binaries && !(Provides(c, host, n) && inspect(c.id).Running?) ==>
      IsBest(seen + [c], host, inspect, n, binaries[n])
    ensures forall n, id :: IsUncertain(seen + [c], host, inspect, n, id) <==>
      (n in uncertain && id in uncertain[n]) || (Provides(c, host, n) && inspect(c.id).Unknown? && id == c.id)
  {
    forall n, id
      ensures IsRunning(seen + [c], host, inspect, n, id) ==>
        n in binaries || (Provides(c, host, n) && inspect(c.id).Running?)
    {
      OneMore(seen, c, host, n, id);
      assert IsRunning(seen, host, inspect, n, id) ==> n in binaries;
    }
    forall n | n in binaries && !(Provides(c, host, n) && inspect(c.id).Running?)
      ensures IsBest(seen + [c], host, inspect, n, binaries[n]) { BestUntouched(seen, c, host, inspect, n, binaries[n]); }
    forall n, id
      ensures IsUncertain(seen + [c], host, inspect, n, id) <==>
        (n in uncertain && id in uncertain[n]) || (Provides(c, host, n) && inspect(c.id).Unknown? && id == c.id)
    {
      OneMore(seen, c, host, n, id);
      assert (n in uncertain && id in uncertain[n]) <==> IsUncertain(seen, host, inspect, n, id);
    }
  }

  method Consider(c: Container, host: string, inspect: string -> Answer, ghost seen: seq<Container>,
                  binaries: map<string, string>, versions: map<string, Version>, uncertain: map<string, set<string>>)
    returns (binaries': map<string, string>, versions': map<string, Version>, uncertain': map<string, set<string>>)
    requires Selected(binaries, versions, uncertain, seen, host, inspect)
    ensures Selected(binaries', versions', uncertain', seen + [c], host, inspect)
  {
    binaries', versions', uncertain' := binaries, versions, uncertain;
    Carried(binaries, versions, uncertain, seen, c, host, inspect);
    var name := c.binary;
    if c.id == "" || c.host != host || name == "" || !CniConf.ValidName(name) {
      assert forall n :: !Provides(c, host, n);
      return;
    }
    match inspect(c.id)
    case Missing =>
    case NotRunning =>
    case Unknown =>
      uncertain' := uncertain[name := (if name in uncertain then uncertain[name] else {}) + {c.id}];
    case Running(version) =>
      var better := true;
      if name in binaries {
        better := PreferProvider(binaries[name], versions[name], c.id, version);
        BestStaysBest(seen, c, host, inspect, name, binaries[name], if better then c.id else binaries[name]);
      } else {
        FirstIsBest(seen, c, host, inspect, name);
      }
      if better { binaries', versions' := binaries[name := c.id], versions[name := version]; }
  }

  /** The containers of the driver services, in the order the services were visited. */
  function Listing(drivers: map<string, Service>, order: seq<string>): seq<Container> {
    FlatMap(order, k => if k in drivers then drivers[k].containers else [])
  }

  ghost predicate NoneRunning(seen: seq<Container>, host: string, inspect: string -> Answer, name: string) {
    forall id :: !IsRunning(seen, host, inspect, name, id)
  }

  /** The best running provider, else the previous one while it is authorized and
      its state unknown, else nothing. */
  ghost predicate DesiredFor(name: string, choice: Option<string>, previous: Option<string>,
                             seen: seq<Container>, host: string, inspect: string -> Answer) {
    if NoneRunning(seen, host, inspect, name) then
      choice == (if previous.Some? && IsUncertain(seen, host, inspect, name, previous.value) then previous else None)
    else choice.Some? && IsBest(seen, host, inspect, name, choice.value)
  }

  function Look<V>(m: map<string, V>, key: string): Option<V> {
    if key in m then Some(m[key]) else None
  }

  ghost predicate Desired(binaries: map<string, string>, applied: map<string, string>,
                          seen: seq<Container>, host: string, inspect: string -> Answer) {
    forall n :: DesiredFor(n, Look(binaries, n), Look(applied, n), seen, host, inspect)
  }

  /** Two visiting orders authorize the same containers. */
  lemma SameMembersAuthorize(xs: seq<Container>, ys: seq<Container>, host: string, name: string, id: string)
    requires multiset(xs) == multiset(ys)
    ensures Authorized(xs, host, name, id) ==> Authorized(ys, host, name, id)
  {
    if Authorized(xs, host, name, id) {
      var i :| 0 <= i < |xs| && Provides(xs[i], host, name) && xs[i].id == id;
      assert xs[i] in multiset(ys);
      assert xs[i] in ys;
    }
  }

  lemma SameMembersDesire(binaries: map<string, string>, applied: map<string, string>,
                          xs: seq<Container>, ys: seq<Container>, host: string, inspect: string -> Answer)
    requires multiset(xs) == multiset(ys) && Desired(binaries, applied, xs, host, inspect)
    ensures Desired(binaries, applied, ys, host, inspect)
  {
    forall n, id ensures Authorized(xs, host, n, id) <==> Authorized(ys, host, n, id) {
      SameMembersAuthorize(xs, ys, host, n, id);
      SameMembersAuthorize(ys, xs, host, n, id);
    }
    forall n ensures DesiredFor(n, Look(binaries, n), Look(applied, n), ys, host, inspect) {
      assert DesiredFor(n, Look(binaries, n), Look(applied, n), xs, host, inspect);
      assert forall id :: IsRunning(xs, host, inspect, n, id) <==> IsRunning(ys, host, inspect, n, id);
    }
  }

  /** One selection is desired, so no iteration order can give another. */
  lemma DesiredIsUnique(a: map<string, string>, b: map<string, string>, applied: map<string, string>,
                        seen: seq<Container>, host: string, inspect: string -> Answer)
    requires Desired(a, applied, seen, host, inspect) && Desired(b, applied, seen, host, inspect)
    ensures a == b
  {
    forall n ensures Look(a, n) == Look(b, n) {
      assert DesiredFor(n, Look(a, n), Look(applied, n), seen, host, inspect);
      assert DesiredFor(n, Look(b, n), Look(applied, n), seen, host, inspect);
      if !NoneRunning(seen, host, inspect, n) { BestIsUnique(seen, host, inspect, n, a[n], b[n]); }
    }
    forall n ensures n in a <==> n in b { assert Look(a, n) == Look(b, n); }
    forall n | n in a ensures a[n] == b[n] { assert Look(a, n) == Look(b, n); }
  }

  /** Selecting again with what was selected in force selects the same. */
  lemma DesiredIsStable(binaries: map<string, string>, applied: map<string, string>,
                        seen: seq<Container>, host: string, inspect: string -> Answer)
    requires Desired(binaries, applied, seen, host, inspect)
    ensures Desired(binaries, binaries, seen, host, inspect)
  {
    forall n ensures DesiredFor(n, Look(binaries, n), Look(binaries, n), seen, host, inspect) {
      assert DesiredFor(n, Look(binaries, n), Look(applied, n), seen, host, inspect);
    }
  }

  // --- the errors of a selection ---------------------------------------------

  /** A container whose label or whose answer is reported as an error. */
  predicate Troubled(c: Container, host: string, inspect: string -> Answer) {
    c.id != "" && c.host == host && c.binary != "" &&
    (!CniConf.ValidName(c.binary) || inspect(c.id).Missing? || inspect(c.id).Unknown?)
  }

  ghost predicate Available(seen: seq<Container>, host: string, name: string) {
    exists id :: Authorized(seen, host, name, id)
  }

  ghost predicate Noted(troubled: bool, names: set<string>, seen: seq<Container>, host: string, inspect: string -> Answer) {
    (troubled <==> exists i :: 0 <= i < |seen| && Troubled(seen[i], host, inspect)) &&
    (forall n :: n in names <==> Available(seen, host, n))
  }

  /** Nothing is reported: every container is sound and every offered name is provided. */
  ghost predicate Clean(seen: seq<Container>, host: string, inspect: string -> Answer, binaries: map<string, string>) {
    (forall i :: 0 <= i < |seen| ==> !Troubled(seen[i], host, inspect)) &&
    (forall n :: Available(seen, host, n) ==> n in binaries)
  }

  method Note(c: Container, host: string, inspect: string -> Answer, ghost seen: seq<Container>, troubled: bool, names: set<string>)
    returns (troubled': bool, names': set<string>)
    requires Noted(troubled, names, seen, host, inspect)
    ensures Noted(troubled', names', seen + [c], host, inspect)
  {
    var more := seen + [c];
    assert more[|seen|] == c && forall i :: 0 <= i < |seen| ==> more[i] == seen[i];
    troubled', names' := troubled || Troubled(c, host, inspect), names;
    if c.id != "" && c.host == host && c.binary != "" && CniConf.ValidName(c.binary) { names' := names + {c.binary}; }
    forall n ensures n in names' <==> Available(more, host, n) {
      forall id ensures Authorized(more, host, n, id) <==>
        Authorized(seen, host, n, id) || (Provides(c, host, n) && c.id == id) { OneMore(seen, c, host, n, id); }
      assert n in names' <==> n in names || Provides(c, host, n);
      assert n in names <==> Available(seen, host, n);
      if Provides(c, host, n) { assert Authorized(more, host, n, c.id); }
      if id :| Authorized(seen, host, n, id) { assert Authorized(more, host, n, id); }
    }
  }

  method AllProvided(names: set<string>, binaries: map<string, string>) returns (all: bool)
    ensures all <==> forall n :: n in names ==> n in binaries
  {
    var order := AnyOrder(names);
    for i := 0 to |order|
      invariant forall n :: n in order[..i] ==> n in binaries
    {
      assert order[..i + 1] == order[..i] + [order[i]];
      if order[i] !in binaries { return false; }
    }
    AllVisited(order, names);
    all := true;
  }

  lemma SameMembersClean(xs: seq<Container>, ys: seq<Container>, host: string, inspect: string -> Answer, binaries: map<string, string>)
    requires multiset(xs) == multiset(ys) && Clean(xs, host, inspect, binaries)
    ensures Clean(ys, host, inspect, binaries)
  {
    forall i | 0 <= i < |ys| ensures !Troubled(ys[i], host, inspect) {
      assert ys[i] in multiset(xs);
      assert ys[i] in xs;
    }
    forall n | Available(ys, host, n) ensures n in binaries {
      var id :| Authorized(ys, host, n, id);
      SameMembersAuthorize(ys, xs, host, n, id);
      assert Available(xs, host, n);
    }
  }

  /** The walk over every container: the selection and what it has to report. */
  method VisitAll(drivers: map<string, Service>, order: seq<string>, host: string, inspect: string -> Answer)
    returns (binaries: map<string, string>, uncertain: map<string, set<string>>, troubled: bool, names: set<string>,
             ghost versions: map<string, Version>)
    requires forall i :: 0 <= i < |order| ==> order[i] in drivers
    ensures Selected(binaries, versions, uncertain, Listing(drivers, order), host, inspect)
    ensures Noted(troubled, names, Listing(drivers, order), host, inspect)
  {
    var found: map<string, Version> := map[];
    binaries, uncertain, troubled, names := map[], map[], false, {};
    ghost var seen: seq<Container> := [];
    for i := 0 to |order|
      invariant seen == Listing(drivers, order[..i])
      invariant Selected(binaries, found, uncertain, seen, host, inspect) && Noted(troubled, names, seen, host, inspect)
    {
      assert order[..i + 1][..i] == order[..i];
      var containers := drivers[order[i]].containers;
      ghost var before := seen;
      for j := 0 to |containers|
        invariant seen == before + containers[..j]
        invariant Selected(binaries, found, uncertain, seen, host, inspect) && Noted(troubled, names, seen, host, inspect)
      {
        binaries, found, uncertain := Consider(containers[j], host, inspect, seen, binaries, found, uncertain);
        troubled, names := Note(containers[j], host, inspect, seen, troubled, names);
        assert containers[..j + 1] == containers[..j] + [containers[j]];
        seen := seen + [containers[j]];
      }
      assert containers[..|containers|] == containers;
    }
    assert order[..|order|] == order;
    versions := found;
  }

  function KeptFor(n: string, binaries: map<string, string>, applied: map<string, string>, uncertain: map<string, set<string>>): Option<string> {
    if n !in binaries && n in applied && n in uncertain && applied[n] in uncertain[n] then Some(applied[n]) else Look(binaries, n)
  }

  /** An unknown answer keeps the provider the metadata still authorizes. */
  method KeepUncertain(binaries: map<string, string>, applied: map<string, string>, uncertain: map<string, set<string>>)
    returns (result: map<string, string>)
    ensures forall n :: Look(result, n) == KeptFor(n, binaries, applied, uncertain)
  {
    result := binaries;
    var order := AnyOrder(applied.Keys);
    for i := 0 to |order|
      invariant forall n ::
        Look(result, n) == if n in order[..i] then KeptFor(n, binaries, applied, uncertain) else Look(binaries, n)
    {
      var name := order[i];
      assert order[..i + 1] == order[..i] + [name];
      if name !in result && name in uncertain && applied[name] in uncertain[name] {
        result := result[name := applied[name]];
      }
    }
    forall n | n in applied ensures n in order { assert n in multiset(order); }
    assert order[..|order|] == order;
  }

  method SelectProviders(drivers: map<string, Service>, host: string, inspect: string -> Answer, applied: map<string, string>)
    returns (binaries: map<string, string>, clean: bool)
    ensures Desired(binaries, applied, Listing(drivers, SortedKeys(drivers.Keys)), host, inspect)
    ensures clean <==> Clean(Listing(drivers, SortedKeys(drivers.Keys)), host, inspect, binaries)
  {
    var order := AnyOrder(drivers.Keys);
    var best, uncertain, troubled, names;
    ghost var versions;
    best, uncertain, troubled, names, versions := VisitAll(drivers, order, host, inspect);
    ghost var seen, sorted := Listing(drivers, order), Listing(drivers, SortedKeys(drivers.Keys));
    binaries := KeepUncertain(best, applied, uncertain);
    forall n ensures DesiredFor(n, Look(binaries, n), Look(applied, n), seen, host, inspect) {
      if n in best { assert IsRunning(seen, host, inspect, n, best[n]); }
    }
    var all := AllProvided(names, binaries);
    clean := !troubled && all;
    assert clean <==> Clean(seen, host, inspect, binaries);
    SortedKeysSorted(drivers.Keys);
    FlatMapPermutes(order, SortedKeys(drivers.Keys), k => if k in drivers then drivers[k].containers else []);
    SameMembersDesire(binaries, applied, seen, sorted, host, inspect);
    if Clean(seen, host, inspect, binaries) { SameMembersClean(seen, sorted, host, inspect, binaries); }
    if Clean(sorted, host, inspect, binaries) { SameMembersClean(sorted, seen, host, inspect, binaries); }
  }

  // --- installing ------------------------------------------------------------

  /** A wrapper's text is fixed by its target and name, and tells them apart. */
  datatype Text = Rendered(target: string, name: string) | Foreign(text: string)

  datatype File = File(text: Text, regular: bool, mode: nat)

  /** 0700 in octal. */
  const WRAPPER_MODE := 448

  /** What the containers and the wrapper directory answer during one pass. */
  datatype Environment = Environment(
    inspect: string -> Answer, directory: bool,
    readable: string -> bool, writable: string -> bool, removable: string -> bool)

  function Wrapper(target: string, name: string): File {
    File(Rendered(target, name), true, WRAPPER_MODE)
  }

  predicate Matches(env: Environment, file: Option<File>, target: string, name: string) {
    env.readable(name) && file == Some(Wrapper(target, name))
  }

  /** Where one name stands: recorded target, file on disk, known to be gone, error seen. */
  datatype Standing = Standing(target: Option<string>, file: Option<File>, gone: bool, failed: bool)

  function Installed(env: Environment, name: string, want: Option<string>, before: Standing): Standing {
    match want
    case None => before
    case Some(target) =>
      match env.inspect(target)
      case Unknown => before.(failed := true)
      case Missing => before.(failed := true, gone := before.target == want)
      case NotRunning => before.(failed := true, gone := before.target == want)
      case Running(_) =>
        if env.writable(name) then before.(target := want, file := Some(Wrapper(target, name))) else before.(failed := true)
  }

  function Removed(env: Environment, name: string, want: Option<string>, had: Option<string>, before: Standing): Standing {
    if had.None? || (want.Some? && !before.gone) then before
    else if !Matches(env, before.file, had.value, name) then before.(target := None)
    else if env.removable(name) then before.(target := None, file := None)
    else before.(failed := true)
  }

  /** What an apply does to one name; nothing about any other name enters. */
  function Outcome(env: Environment, name: string, want: Option<string>, had: Option<string>, file: Option<File>): Standing {
    Removed(env, name, want, had, Installed(env, name, want, Standing(had, file, false, false)))
  }

  lemma NoRepeats(order: seq<string>, keys: set<string>, i: nat)
    requires multiset(order) == multiset(keys) && i < |order|
    ensures order[i] !in order[..i]
  {
    var x := order[i];
    assert order == order[..i] + [x] + order[i + 1..];
    assert multiset(keys)[x] <= 1;
    var front := order[..i];
    assert x in front ==> x in multiset(front);
  }

  lemma AllVisited(order: seq<string>, keys: set<string>)
    requires multiset(order) == multiset(keys)
    ensures forall n :: n in order[..|order|] <==> n in keys
  {
    assert order[..|order|] == order;
    forall n ensures n in order <==> n in keys { assert n in order <==> n in multiset(order); }
  }

  class Watcher {
    var applied: map<string, string>
    var files: map<string, File>

    constructor (files: map<string, File>)
      ensures applied == map[] && this.files == files
    {
      applied, this.files := map[], files;
    }

    function At(name: string, updated: map<string, string>, gone: set<string>, failed: set<string>): Standing
      reads this`files
    {
      Standing(Look(updated, name), Look(files, name), name in gone, name in failed)
    }

    method InstallAll(binaries: map<string, string>, env: Environment)
      returns (updated: map<string, string>, gone: set<string>, failed: set<string>)
      modifies this`files
      ensures forall n ::
        At(n, updated, gone, failed) ==
        Installed(env, n, Look(binaries, n), Standing(Look(applied, n), Look(old(files), n), false, false))
    {
      updated, gone, failed := applied, {}, {};
      var order := AnyOrder(binaries.Keys);
      for i := 0 to |order|
        invariant forall n ::
          At(n, updated, gone, failed) ==
          Installed(env, n, if n in order[..i] then Look(binaries, n) else None,
                    Standing(Look(applied, n), Look(old(files), n), false, false))
      {
        var name := order[i];
        NoRepeats(order, binaries.Keys, i);
        assert order[..i + 1] == order[..i] + [name];
        assert At(name, updated, gone, failed) == Standing(Look(applied, name), Look(old(files), name), false, false);
        var target := binaries[name];
        match env.inspect(target)
        case Unknown =>
          failed := failed + {name};
        case Missing =>
          if name in updated && updated[name] == target { gone := gone + {name}; }
          failed := failed + {name};
        case NotRunning =>
          if name in updated && updated[name] == target { gone := gone + {name}; }
          failed := failed + {name};
        case Running(_) =>
          if env.writable(name) {
            files := files[name := Wrapper(target, name)];
            updated := updated[name := target];
          } else {
            failed := failed + {name};
          }
      }
      AllVisited(order, binaries.Keys);
    }

    /** Unlinks the watcher's own exact wrapper and nothing else. */
    method RemoveOne(name: string, binaries: map<string, string>, env: Environment,
                     before: map<string, string>, gone: set<string>, errors: set<string>)
      returns (updated: map<string, string>, failed: set<string>)
      requires name in applied
      modifies this`files
      ensures At(name, updated, gone, failed) ==
              Removed(env, name, Look(binaries, name), Look(applied, name), old(At(name, before, gone, errors)))
      ensures forall n :: n != name ==> At(n, updated, gone, failed) == old(At(n, before, gone, errors))
    {
      updated, failed := before, errors;
      if name in binaries && name !in gone { return; }
      if Matches(env, Look(files, name), applied[name], name) {
        if !env.removable(name) { return before, errors + {name}; }
        files := files - {name};
      }
      updated := before - {name};
    }

    ghost predicate Swept(env: Environment, n: string, want: Option<string>, had: Option<string>, before: Standing,
                          updated: map<string, string>, gone: set<string>, failed: set<string>)
      reads this`files
    {
      At(n, updated, gone, failed) == Removed(env, n, want, had, before)
    }

    method RemoveStale(binaries: map<string, string>, env: Environment, before: map<string, string>, gone: set<string>, errors: set<string>)
      returns (updated: map<string, string>, failed: set<string>)
      modifies this`files
      ensures forall n ::
        Swept(env, n, Look(binaries, n), Look(applied, n), Standing(Look(before, n), Look(old(files), n), n in gone, n in errors),
              updated, gone, failed)
    {
      updated, failed := before, errors;
      var order := AnyOrder(applied.Keys);
      for i := 0 to |order|
        invariant forall n ::
          Swept(env, n, Look(binaries, n), if n in order[..i] then Look(applied, n) else None,
                Standing(Look(before, n), Look(old(files), n), n in gone, n in errors), updated, gone, failed)
      {
        var name := order[i];
        NoRepeats(order, applied.Keys, i);
        assert order[..i + 1] == order[..i] + [name];
        assert Swept(env, name, Look(binaries, name), None,
                     Standing(Look(before, name), Look(old(files), name), name in gone, name in errors), updated, gone, failed);
        updated, failed := RemoveOne(name, binaries, env, updated, gone, failed);
      }
      AllVisited(order, applied.Keys);
    }

    /** Every name ends as its own outcome says, in whatever order the maps are walked. */
    method Apply(binaries: map<string, string>, env: Environment) returns (ok: bool)
      modifies this
      ensures !env.directory ==> !ok && applied == old(applied) && files == old(files)
      ensures env.directory ==> forall n ::
        Settled(Outcome(env, n, Look(binaries, n), Look(old(applied), n), Look(old(files), n)), Look(applied, n), Look(files, n))
      ensures env.directory ==>
        (ok <==> forall n :: !Outcome(env, n, Look(binaries, n), Look(old(applied), n), Look(old(files), n)).failed)
    {
      if !env.directory { return false; }
      var before, gone, errors := InstallAll(binaries, env);
      ghost var installed := files;
      var updated, failed := RemoveStale(binaries, env, before, gone, errors);
      forall n ensures Outcome(env, n, Look(binaries, n), Look(old(applied), n), Look(old(files), n)) == At(n, updated, gone, failed) {
        assert Swept(env, n, Look(binaries, n), Look(applied, n), Standing(Look(before, n), Look(installed, n), n in gone, n in errors),
                     updated, gone, failed);
      }
      applied := updated;
      ok := failed == {};
      if !ok {
        ghost var n :| n in failed;
        assert Outcome(env, n, Look(binaries, n), Look(old(applied), n), Look(old(files), n)).failed;
      }
    }

    method WrapperFilesMatch(binaries: map<string, string>, env: Environment) returns (all: bool)
      ensures all <==> forall n :: n in binaries ==> Matches(env, Look(files, n), binaries[n], n)
    {
      var order := AnyOrder(binaries.Keys);
      for i := 0 to |order|
        invariant forall n :: n in order[..i] ==> Matches(env, Look(files, n), binaries[n], n)
      {
        assert order[..i + 1] == order[..i] + [order[i]];
        if !Matches(env, Look(files, order[i]), binaries[order[i]], order[i]) { return false; }
      }
      AllVisited(order, binaries.Keys);
      all := true;
    }

    /** Every recorded provider has its wrapper on disk. */
    ghost predicate Wrapped(binaries: map<string, string>)
      reads this
    {
      applied == binaries && forall n :: n in binaries ==> Look(files, n) == Some(Wrapper(binaries[n], n))
    }

    method ApplyDesired(binaries: map<string, string>, env: Environment, ghost seen: seq<Container>, ghost host: string)
      returns (ok: bool)
      requires Desired(binaries, applied, seen, host, env.inspect)
      modifies this
      ensures ok ==> Wrapped(binaries)
      ensures Faultless(env) ==> applied == binaries && RunningWrapped(env)
      ensures Faultless(env) && Clean(seen, host, env.inspect, binaries) ==> ok
      ensures Faultless(env) ==> forall n :: n in old(applied) && n !in applied ==>
        Look(files, n) != Some(File(Rendered(old(applied)[n], n), true, 448))
      ensures forall n :: OwnChange(n, Look(old(files), n), Look(files, n), Look(old(applied), n), Look(applied, n))
    {
      ghost var had, disk := applied, files;
      ok := Apply(binaries, env);
      if env.directory {
        forall n
          ensures OwnChange(n, Look(disk, n), Look(files, n), Look(had, n), Look(applied, n))
          ensures Faultless(env) || ok ==> Look(applied, n) == Look(binaries, n)
          ensures ok && n in binaries ==> Look(files, n) == Some(Wrapper(binaries[n], n))
          ensures Faultless(env) && n in applied && env.inspect(applied[n]).Running? ==>
            Look(files, n) == Some(Wrapper(applied[n], n))
          ensures Faultless(env) && n in had && n !in applied ==> Look(files, n) != Some(File(Rendered(had[n], n), true, 448))
        {
          ghost var outcome := Outcome(env, n, Look(binaries, n), Look(had, n), Look(disk, n));
          assert DesiredFor(n, Look(binaries, n), Look(had, n), seen, host, env.inspect);
          OutcomeIsOwn(env, n, Look(binaries, n), Look(had, n), Look(disk, n));
          SuccessIsInstalled(env, n, Look(binaries, n), Look(had, n), Look(disk, n));
          if Faultless(env) { DesiredIsInstalled(env, n, Look(binaries, n), Look(had, n), Look(disk, n), seen, host); }
          if n in had && n !in binaries { GoneIsRemoved(env, n, None, had[n], Look(disk, n)); }
          assert Settled(outcome, Look(applied, n), Look(files, n)) && (ok ==> !outcome.failed);
        }
        if Faultless(env) || ok { SameLooks(applied, binaries); }
        if Faultless(env) && Clean(seen, host, env.inspect, binaries) {
          forall n ensures !Outcome(env, n, Look(binaries, n), Look(had, n), Look(disk, n)).failed {
            assert DesiredFor(n, Look(binaries, n), Look(had, n), seen, host, env.inspect);
            CleanHasNoFailure(env, n, Look(binaries, n), Look(had, n), Look(disk, n), seen, host, binaries);
          }
        }
      }
    }

    /** Every recorded provider that runs has its wrapper on disk. */
    ghost predicate RunningWrapped(env: Environment)
      reads this
    {
      forall n :: n in applied && env.inspect(applied[n]).Running? ==> Look(files, n) == Some(Wrapper(applied[n], n))
    }

    /** A pass during which answers are stable. Success means that every name has
        its desired provider with its wrapper on disk and that nothing had to be
        reported; without file faults a failure only means a report. Whatever
        fails, only the watcher's own wrappers are replaced or removed. */
    method OnChange(services: seq<Service>, host: string, env: Environment, force: bool) returns (ok: bool)
      modifies this
      ensures ok ==> Desired(applied, old(applied), SeenIn(services), host, env.inspect) && Wrapped(applied) &&
                     Clean(SeenIn(services), host, env.inspect, applied)
      ensures Faultless(env) ==> Desired(applied, old(applied), SeenIn(services), host, env.inspect) && RunningWrapped(env)
      ensures Faultless(env) ==> (ok <==> Clean(SeenIn(services), host, env.inspect, applied))
      ensures Faultless(env) ==> forall n :: n in old(applied) && n !in applied ==>
        Look(files, n) != Some(File(Rendered(old(applied)[n], n), true, 448))
      ensures forall n :: OwnChange(n, Look(old(files), n), Look(files, n), Look(old(applied), n), Look(applied, n))
    {
      var drivers := CollectDrivers(services);
      var binaries, clean := SelectProviders(drivers, host, env.inspect, applied);
      var needed := force || binaries != applied;
      if !needed {
        var intact := WrapperFilesMatch(binaries, env);
        needed := !intact;
      }
      ok := clean;
      if needed {
        var done := ApplyDesired(binaries, env, SeenIn(services), host);
        ok := clean && done;
      }
    }
  }

  predicate Settled(outcome: Standing, target: Option<string>, file: Option<File>) {
    outcome.target == target && outcome.file == file
  }

  ghost predicate Faultless(env: Environment) {
    env.directory && forall n :: env.readable(n) && env.writable(n) && env.removable(n)
  }

  /** Every container of the services that are drivers or their sidekicks. */
  ghost function SeenIn(services: seq<Service>): seq<Container> {
    var drivers := WithSidekicks(services, Drivers(services));
    Listing(drivers, SortedKeys(drivers.Keys))
  }

  /** A file changes only by becoming the wrapper of the recorded provider, or by
      the removal of the wrapper of the previous one. */
  predicate OwnChange(name: string, before: Option<File>, after: Option<File>, had: Option<string>, has: Option<string>) {
    after == before ||
    (has.Some? && after == Some(Wrapper(has.value, name))) ||
    (had.Some? && before == Some(Wrapper(had.value, name)) && after.None? && has.None?)
  }

  lemma SameLooks(a: map<string, string>, b: map<string, string>)
    requires forall n :: Look(a, n) == Look(b, n)
    ensures a == b
  {
    forall n ensures n in a <==> n in b { assert Look(a, n) == Look(b, n); }
    forall n | n in a ensures a[n] == b[n] { assert Look(a, n) == Look(b, n); }
  }

  /** Without faults an apply of what is desired records exactly that. */
  lemma DesiredIsInstalled(env: Environment, name: string, want: Option<string>, had: Option<string>, file: Option<File>,
                           seen: seq<Container>, host: string)
    requires Faultless(env) && DesiredFor(name, want, had, seen, host, env.inspect)
    ensures Outcome(env, name, want, had, file).target == want
    ensures want.Some? && env.inspect(want.value).Running? ==>
      Outcome(env, name, want, had, file).file == Some(Wrapper(want.value, name))
  {
  }

  lemma OutcomeIsOwn(env: Environment, name: string, want: Option<string>, had: Option<string>, file: Option<File>)
    ensures var outcome := Outcome(env, name, want, had, file);
            OwnChange(name, file, outcome.file, had, outcome.target)
  {
  }

  /** A name without an error has exactly what was wanted. */
  lemma SuccessIsInstalled(env: Environment, name: string, want: Option<string>, had: Option<string>, file: Option<File>)
    ensures var outcome := Outcome(env, name, want, had, file);
            !outcome.failed ==> outcome.target == want && (want.Some? ==> outcome.file == Some(Wrapper(want.value, name)))
  {
  }

  lemma CleanHasNoUncertain(seen: seq<Container>, host: string, inspect: string -> Answer, binaries: map<string, string>,
                            name: string, id: string)
    requires Clean(seen, host, inspect, binaries)
    ensures !IsUncertain(seen, host, inspect, name, id)
  {
    forall i | 0 <= i < |seen| ensures !(Provides(seen[i], host, name) && seen[i].id == id && inspect(id).Unknown?) {
      assert !Troubled(seen[i], host, inspect);
    }
  }

  lemma CleanHasNoFailure(env: Environment, name: string, want: Option<string>, had: Option<string>, file: Option<File>,
                          seen: seq<Container>, host: string, binaries: map<string, string>)
    requires Faultless(env) && DesiredFor(name, want, had, seen, host, env.inspect) && Clean(seen, host, env.inspect, binaries)
    ensures !Outcome(env, name, want, had, file).failed
  {
    if want.Some? { CleanHasNoUncertain(seen, host, env.inspect, binaries, name, want.value); }
  }

  /** Who is seen: the containers of every key of the collected map. */
  lemma {:induction false} ListingAuthorizes(drivers: map<string, Service>, order: seq<string>, host: string, name: string, id: string)
    ensures Authorized(Listing(drivers, order), host, name, id) <==>
      exists k :: k in order && k in drivers && Authorized(drivers[k].containers, host, name, id)
  {
    if order != [] {
      var init, last := order[..|order| - 1], order[|order| - 1];
      ListingAuthorizes(drivers, init, host, name, id);
      assert order == init + [last];
      ConcatAuthorizes(Listing(drivers, init), if last in drivers then drivers[last].containers else [], host, name, id);
    }
  }

  lemma ConcatAuthorizes(xs: seq<Container>, ys: seq<Container>, host: string, name: string, id: string)
    ensures Authorized(xs + ys, host, name, id) <==> Authorized(xs, host, name, id) || Authorized(ys, host, name, id)
  {
    var all := xs + ys;
    if i :| 0 <= i < |xs| && Provides(xs[i], host, name) && xs[i].id == id { assert all[i] == xs[i]; }
    if i :| 0 <= i < |ys| && Provides(ys[i], host, name) && ys[i].id == id { assert all[|xs| + i] == ys[i]; }
  }

  ghost predicate Granted(drivers: map<string, Service>, host: string, name: string, id: string) {
    exists k :: k in drivers && Authorized(drivers[k].containers, host, name, id)
  }

  /** A container is authorized exactly when some collected driver or sidekick lists it. */
  lemma SeenAuthorizes(services: seq<Service>, host: string, name: string, id: string)
    ensures Authorized(SeenIn(services), host, name, id) <==>
            Granted(WithSidekicks(services, Drivers(services)), host, name, id)
  {
    var drivers := WithSidekicks(services, Drivers(services));
    var order := SortedKeys(drivers.Keys);
    ListingAuthorizes(drivers, order, host, name, id);
    if k :| k in drivers && Authorized(drivers[k].containers, host, name, id) {
      EveryKeyListed(drivers.Keys, k);
    }
  }

  // --- what becomes of one name, in full -------------------------------------

  /** A provider that is wanted and runs is installed, or its name keeps what it had. */
  lemma RunningIsInstalled(env: Environment, name: string, target: string, had: Option<string>, file: Option<File>)
    requires env.inspect(target).Running?
    ensures Outcome(env, name, Some(target), had, file) ==
            if env.writable(name) then Standing(Some(target), Some(File(Rendered(target, name), true, 448)), false, false)
            else Standing(had, file, false, true)
  {
  }

  /** A provider that is no longer wanted, or is recorded and known not to run, loses
      its record together with its own exact wrapper. When that wrapper cannot be
      unlinked the name stays recorded and the failure is reported. */
  lemma GoneIsRemoved(env: Environment, name: string, want: Option<string>, past: string, file: Option<File>)
    requires want == None || (want == Some(past) && (env.inspect(past) == Missing || env.inspect(past) == NotRunning))
    ensures var own := env.readable(name) && file == Some(File(Rendered(past, name), true, 448));
            var o := Outcome(env, name, want, Some(past), file);
            (own && env.removable(name) ==> o.target == None && o.file == None) &&
            (own && !env.removable(name) ==> o.target == Some(past) && o.file == file && o.failed) &&
            (!own ==> o.target == None && o.file == file) &&
            (want == Some(past) ==> o.failed) && (want == None ==> (o.failed <==> own && !env.removable(name)))
  {
  }

  /** A wanted provider that does not run and is not the recorded one, or whose state
      is unknown, changes nothing and is reported. */
  lemma OthersAreKept(env: Environment, name: string, target: string, had: Option<string>, file: Option<File>)
    requires env.inspect(target) == Unknown ||
      (had != Some(target) && (env.inspect(target) == Missing || env.inspect(target) == NotRunning))
    ensures var o := Outcome(env, name, Some(target), had, file); o.target == had && o.file == file && o.failed
  {
  }

  /** A name nobody wants and nobody had is left alone. */
  lemma StrangersAreLeft(env: Environment, name: string, file: Option<File>)
    ensures Outcome(env, name, None, None, file) == Standing(None, file, false, false)
  {
  }

  /** What is reported: a label, an answer or a name without provider. */
  lemma CleanInFull(seen: seq<Container>, host: string, inspect: string -> Answer, binaries: map<string, string>)
    ensures Clean(seen, host, inspect, binaries) <==>
      forall i :: 0 <= i < |seen| && seen[i].id != "" && seen[i].host == host && seen[i].binary != "" ==>
        CniConf.ValidName(seen[i].binary) && seen[i].binary in binaries &&
        inspect(seen[i].id) != Missing && inspect(seen[i].id) != Unknown
  {
    var claim := forall i :: 0 <= i < |seen| && seen[i].id != "" && seen[i].host == host && seen[i].binary != "" ==>
      CniConf.ValidName(seen[i].binary) && seen[i].binary in binaries &&
      inspect(seen[i].id) != Missing && inspect(seen[i].id) != Unknown;
    if Clean(seen, host, inspect, binaries) {
      forall i | 0 <= i < |seen| && seen[i].id != "" && seen[i].host == host && seen[i].binary != ""
        ensures CniConf.ValidName(seen[i].binary) && seen[i].binary in binaries
        ensures inspect(seen[i].id) != Missing && inspect(seen[i].id) != Unknown
      {
        assert !Troubled(seen[i], host, inspect);
        assert Authorized(seen, host, seen[i].binary, seen[i].id);
      }
    }
    if claim {
      forall i | 0 <= i < |seen| ensures !Troubled(seen[i], host, inspect) {}
      forall n | Available(seen, host, n) ensures n in binaries {
        var id :| Authorized(seen, host, n, id);
        var i :| 0 <= i < |seen| && Provides(seen[i], host, n) && seen[i].id == id;
      }
    }
  }
}
