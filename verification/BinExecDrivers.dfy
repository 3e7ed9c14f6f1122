/** Which services may provide CNI binaries: drivers and, in list order, the
    services that have one as their primary. */
module BinExecDrivers {
  import opened BinExec

  function OwnKey(s: Service): string { s.stack + "/" + s.name }

  function PrimaryKey(s: Service): string { s.stack + "/" + s.primary }

  predicate IsDriver(s: Service) {
    s.kind == "networkDriverService" || s.kind == "storageDriverService"
  }

  function Drivers(services: seq<Service>): map<string, Service> {
    if services == [] then map[]
    else
      var before, s := Drivers(services[..|services| - 1]), services[|services| - 1];
      if IsDriver(s) then before[OwnKey(s) := s] else before
  }

  /** Services whose primary service is already in the map join it. */
  function WithSidekicks(services: seq<Service>, drivers: map<string, Service>): map<string, Service> {
    if services == [] then drivers
    else
      var before, s := WithSidekicks(services[..|services| - 1], drivers), services[|services| - 1];
      if PrimaryKey(s) in before then before[OwnKey(s) := s] else before
  }

  /** Keys keep stacks apart: a name means the service of that name in the same stack. */
  lemma KeysInFull(s: Service, t: Service)
    requires '/' !in s.stack && '/' !in t.stack
    ensures OwnKey(s) == OwnKey(t) <==> s.stack == t.stack && s.name == t.name
    ensures PrimaryKey(s) == OwnKey(t) <==> s.stack == t.stack && s.primary == t.name
  {
    SlashSeparates(s.stack, s.name, t.stack, t.name);
    SlashSeparates(s.stack, s.primary, t.stack, t.name);
  }

  lemma FirstSlash(a: string, b: string)
    requires '/' !in a
    ensures (a + "/" + b)[|a|] == '/' && forall i :: 0 <= i < |a| ==> (a + "/" + b)[i] != '/'
  {
    forall i | 0 <= i < |a| ensures (a + "/" + b)[i] != '/' { assert (a + "/" + b)[i] == a[i]; }
  }

  lemma SlashSeparates(a: string, b: string, c: string, d: string)
    requires '/' !in a && '/' !in c
    ensures a + "/" + b == c + "/" + d <==> a == c && b == d
  {
    var l, r := a + "/" + b, c + "/" + d;
    if l == r {
      FirstSlash(a, b);
      FirstSlash(c, d);
      assert a == l[..|a|] && c == r[..|c|] && b == l[|a| + 1..] && d == r[|c| + 1..];
    }
  }

  /** Some driver service has the key. */
  ghost predicate DriverKey(services: seq<Service>, key: string) {
    exists i: nat :: Drives(services, i, key)
  }

  /** Each service of the path names the one before it as its primary, the first
      one names a driver, and the list has them in this order. */
  ghost predicate SidekickChain(services: seq<Service>, path: seq<nat>) {
    path != [] && (forall j :: 0 <= j < |path| ==> path[j] < |services|) &&
    (forall j :: 0 < j < |path| ==>
      path[j - 1] < path[j] && PrimaryKey(services[path[j]]) == OwnKey(services[path[j - 1]])) &&
    DriverKey(services, PrimaryKey(services[path[0]]))
  }

  ghost predicate Joins(services: seq<Service>, i: nat) {
    exists path :: SidekickChain(services, path) && path[|path| - 1] == i
  }

  ghost predicate JoinsAs(services: seq<Service>, i: nat, key: string) {
    i < |services| && Joins(services, i) && OwnKey(services[i]) == key
  }

  ghost predicate JoinsBefore(services: seq<Service>, n: nat, key: string) {
    exists i: nat :: i < n && JoinsAs(services, i, key)
  }

  ghost predicate Drives(services: seq<Service>, i: nat, key: string) {
    i < |services| && OwnKey(services[i]) == key &&
    (services[i].kind == "networkDriverService" || services[i].kind == "storageDriverService")
  }

  ghost predicate LastDriver(services: seq<Service>, n: nat, i: nat, key: string) {
    i < n && Drives(services, i, key) && forall j: nat :: i < j < n ==> !Drives(services, j, key)
  }

  ghost predicate Leads(services: seq<Service>, n: nat, key: string, s: Service) {
    exists i: nat :: LastDriver(services, n, i, key) && services[i] == s
  }

  lemma LeadsOn(services: seq<Service>, n: nat, key: string, s: Service)
    requires Leads(services, n, key, s) && !Drives(services, n, key)
    ensures Leads(services, n + 1, key, s)
  {
    var i: nat :| LastDriver(services, n, i, key) && services[i] == s;
    assert LastDriver(services, n + 1, i, key);
  }

  /** The first pass holds the last driver of every driver's key. */
  lemma {:induction false} DriversExactly(services: seq<Service>, n: nat, key: string)
    requires n <= |services|
    ensures key in Drivers(services[..n]) <==> exists i: nat :: i < n && Drives(services, i, key)
    ensures key in Drivers(services[..n]) ==> Leads(services, n, key, Drivers(services[..n])[key])
  {
    if n > 0 {
      assert services[..n][..n - 1] == services[..n - 1];
      DriversExactly(services, n - 1, key);
      if Drives(services, n - 1, key) {
        assert LastDriver(services, n, n - 1, key);
      } else if key in Drivers(services[..n - 1]) {
        LeadsOn(services, n - 1, key, Drivers(services[..n - 1])[key]);
      }
    }
  }

  lemma LongerChain(services: seq<Service>, j: nat, i: nat)
    requires j < i < |services| && JoinsAs(services, j, PrimaryKey(services[i]))
    ensures Joins(services, i)
  {
    var path :| SidekickChain(services, path) && path[|path| - 1] == j;
    var longer := path + [i];
    forall k | 0 < k < |longer|
      ensures longer[k - 1] < longer[k] && PrimaryKey(services[longer[k]]) == OwnKey(services[longer[k - 1]])
    {
      assert longer[k - 1] == path[k - 1] && (k < |path| ==> longer[k] == path[k]);
    }
    assert SidekickChain(services, longer) && longer[|longer| - 1] == i;
  }

  lemma ShorterChain(services: seq<Service>, path: seq<nat>)
    requires SidekickChain(services, path) && |path| > 1
    ensures path[|path| - 2] < path[|path| - 1] &&
            JoinsAs(services, path[|path| - 2], PrimaryKey(services[path[|path| - 1]]))
  {
    var front := path[..|path| - 1];
    assert SidekickChain(services, front) && front[|front| - 1] == path[|path| - 2];
  }

  /** A service joins exactly when its primary is a driver or joined before it. */
  lemma JoinsExactly(services: seq<Service>, i: nat)
    requires i < |services|
    ensures Joins(services, i) <==>
      DriverKey(services, PrimaryKey(services[i])) || JoinsBefore(services, i, PrimaryKey(services[i]))
  {
    if DriverKey(services, PrimaryKey(services[i])) {
      assert SidekickChain(services, [i]) && [i][|[i]| - 1] == i;
    }
    if j: nat :| j < i && JoinsAs(services, j, PrimaryKey(services[i])) {
      LongerChain(services, j, i);
    }
    if path :| SidekickChain(services, path) && path[|path| - 1] == i {
      if |path| > 1 { ShorterChain(services, path); }
    }
  }

  lemma DriverKeyExactly(services: seq<Service>, key: string)
    ensures DriverKey(services, key) <==> key in Drivers(services)
  {
    assert services[..|services|] == services;
    DriversExactly(services, |services|, key);
  }

  lemma PassStep(services: seq<Service>, drivers: map<string, Service>, n: nat, key: string)
    requires n < |services|
    ensures var before := WithSidekicks(services[..n], drivers);
      key in WithSidekicks(services[..n + 1], drivers) <==>
      key in before || (PrimaryKey(services[n]) in before && OwnKey(services[n]) == key)
  {
    assert services[..n + 1][..n] == services[..n];
  }

  lemma JoinsBeforeNext(services: seq<Service>, n: nat, key: string)
    ensures JoinsBefore(services, n + 1, key) <==> JoinsBefore(services, n, key) || JoinsAs(services, n, key)
  {
  }

  /** What the second pass holds after `n` services. */
  lemma {:induction false} SidekicksExactly(services: seq<Service>, n: nat, key: string)
    requires n <= |services|
    ensures key in WithSidekicks(services[..n], Drivers(services)) <==>
      DriverKey(services, key) || JoinsBefore(services, n, key)
  {
    if n == 0 {
      DriverKeyExactly(services, key);
    } else {
      SidekicksExactly(services, n - 1, key);
      SidekicksExactly(services, n - 1, PrimaryKey(services[n - 1]));
      PassStep(services, Drivers(services), n - 1, key);
      JoinsExactly(services, n - 1);
      JoinsBeforeNext(services, n - 1, key);
    }
  }

  ghost predicate LastJoining(services: seq<Service>, n: nat, i: nat, key: string) {
    i < n <= |services| && JoinsAs(services, i, key) && forall j: nat :: i < j < n ==> !JoinsAs(services, j, key)
  }

  /** The service a key stands for: the last one that joined with it, else the
      last driver that has it. */
  ghost predicate StandsFor(services: seq<Service>, n: nat, i: nat, key: string) {
    LastJoining(services, n, i, key) ||
    (LastDriver(services, |services|, i, key) && !JoinsBefore(services, n, key))
  }

  lemma StandsOn(services: seq<Service>, n: nat, i: nat, key: string)
    requires 0 < n <= |services| && StandsFor(services, n - 1, i, key) && !JoinsAs(services, n - 1, key)
    ensures StandsFor(services, n, i, key)
  {
    assert JoinsBefore(services, n, key) ==> JoinsBefore(services, n - 1, key);
  }

  lemma JoiningStands(services: seq<Service>, n: nat, key: string)
    requires 0 < n <= |services| && JoinsAs(services, n - 1, key)
    ensures StandsFor(services, n, n - 1, key)
  {
    assert LastJoining(services, n, n - 1, key);
  }

  ghost predicate Stands(services: seq<Service>, n: nat, key: string, s: Service) {
    exists i: nat :: i < |services| && services[i] == s && StandsFor(services, n, i, key)
  }

  lemma DriverStands(services: seq<Service>, key: string)
    requires key in Drivers(services)
    ensures Stands(services, 0, key, Drivers(services)[key])
  {
    assert services[..|services|] == services;
    DriversExactly(services, |services|, key);
    var i: nat :| LastDriver(services, |services|, i, key) && services[i] == Drivers(services)[key];
    assert StandsFor(services, 0, i, key);
  }

  lemma {:induction false} SidekicksStandFor(services: seq<Service>, n: nat, key: string)
    requires n <= |services| && key in WithSidekicks(services[..n], Drivers(services))
    ensures Stands(services, n, key, WithSidekicks(services[..n], Drivers(services))[key])
  {
    if n == 0 {
      DriverStands(services, key);
    } else {
      assert services[..n][..n - 1] == services[..n - 1];
      JoinsInPass(services, n - 1);
      if JoinsAs(services, n - 1, key) {
        JoiningStands(services, n, key);
      } else {
        SidekicksStandFor(services, n - 1, key);
        var i: nat :| i < |services| && services[i] == WithSidekicks(services[..n - 1], Drivers(services))[key] &&
          StandsFor(services, n - 1, i, key);
        StandsOn(services, n, i, key);
      }
    }
  }

  lemma JoinsInPass(services: seq<Service>, i: nat)
    requires i < |services|
    ensures Joins(services, i) <==> PrimaryKey(services[i]) in WithSidekicks(services[..i], Drivers(services))
  {
    SidekicksExactly(services, i, PrimaryKey(services[i]));
    JoinsExactly(services, i);
  }

  /** The collected map: drivers and the services that chain to one in list order,
      each key standing for the last such service. */
  lemma CollectedExactly(services: seq<Service>, key: string)
    ensures var drivers := WithSidekicks(services, Drivers(services));
      (key in drivers <==> DriverKey(services, key) || JoinsBefore(services, |services|, key)) &&
      (key in drivers ==> Stands(services, |services|, key, drivers[key]))
  {
    assert services[..|services|] == services;
    SidekicksExactly(services, |services|, key);
    if key in WithSidekicks(services, Drivers(services)) { SidekicksStandFor(services, |services|, key); }
  }

  /** The two passes of the source; both run over the services in list order. */
  method CollectDrivers(services: seq<Service>) returns (drivers: map<string, Service>)
    ensures drivers == WithSidekicks(services, Drivers(services))
    ensures forall key :: key in drivers <==> DriverKey(services, key) || JoinsBefore(services, |services|, key)
    ensures forall key :: key in drivers ==> Stands(services, |services|, key, drivers[key])
  {
    drivers := map[];
    for i := 0 to |services|
      invariant drivers == Drivers(services[..i])
    {
      assert services[..i + 1][..i] == services[..i];
      if IsDriver(services[i]) { drivers := drivers[OwnKey(services[i]) := services[i]]; }
    }
    assert services[..|services|] == services;
    for i := 0 to |services|
      invariant drivers == WithSidekicks(services[..i], Drivers(services))
    {
      assert services[..i + 1][..i] == services[..i];
      if PrimaryKey(services[i]) in drivers { drivers := drivers[OwnKey(services[i]) := services[i]]; }
    }
    assert drivers == WithSidekicks(services, Drivers(services));
    forall key
      ensures key in drivers <==> DriverKey(services, key) || JoinsBefore(services, |services|, key)
      ensures key in drivers ==> Stands(services, |services|, key, drivers[key])
    {
      CollectedExactly(services, key);
    }
  }

  /** A sidekick of a sidekick is found behind its primary and missed before it. */
  lemma SidekickOrderMatters()
    ensures var driver := Service("networkDriverService", "s", "a", "", []);
            var sidekick := Service("", "s", "b", "a", []);
            var second := Service("", "s", "c", "b", []);
            var behind, before := [driver, sidekick, second], [driver, second, sidekick];
            OwnKey(second) in WithSidekicks(behind, Drivers(behind)) &&
            OwnKey(second) !in WithSidekicks(before, Drivers(before))
  {
    var driver := Service("networkDriverService", "s", "a", "", []);
    var sidekick := Service("", "s", "b", "a", []);
    var second := Service("", "s", "c", "b", []);
    var behind, before := [driver, sidekick, second], [driver, second, sidekick];
    assert IsDriver(driver) && !IsDriver(sidekick) && !IsDriver(second);
    assert OwnKey(driver)[2] == 'a' && OwnKey(sidekick)[2] == 'b' && OwnKey(second)[2] == 'c';
    assert |PrimaryKey(driver)| == 2 && PrimaryKey(sidekick) == OwnKey(driver) && PrimaryKey(second) == OwnKey(sidekick);
    assert behind[..2][..1] == behind[..1] == [driver] == before[..1] == before[..2][..1] && [driver][..0] == [];
    assert behind[..2] == [driver, sidekick] && before[..2] == [driver, second];
    var own := map[OwnKey(driver) := driver];
    assert Drivers([driver]) == own && Drivers(behind[..2]) == own && Drivers(before[..2]) == own;
    assert Drivers(behind) == own && Drivers(before) == own;
    assert WithSidekicks([driver], own) == own;
    assert WithSidekicks(behind[..2], own) == own[OwnKey(sidekick) := sidekick];
    assert WithSidekicks(before[..2], own) == own;
  }
}
