/** Which running container provides each CNI binary, whatever order Go iterates
    its maps in. */
module BinExec {
  import opened StringOrder
  import opened Wrappers
  import CniConf

  /** The numeric parts of an image version; `None` when it is not numeric. */
  type Version = Option<seq<nat>>

  /** What inspecting a container says. */
  datatype Answer = Missing | Unknown | NotRunning | Running(version: Version)

  datatype Container = Container(id: string, host: string, binary: string)

  datatype Service = Service(kind: string, stack: string, name: string, primary: string, containers: seq<Container>)

  // --- versions --------------------------------------------------------------

  function Padded(parts: seq<nat>, i: nat): nat {
    if i < |parts| then parts[i] else 0
  }

  ghost predicate FirstDifference(l: seq<nat>, r: seq<nat>, i: nat) {
    Padded(l, i) != Padded(r, i) && forall j: nat :: j < i ==> Padded(l, j) == Padded(r, j)
  }

  ghost predicate Older(l: seq<nat>, r: seq<nat>) {
    exists i :: FirstDifference(l, r, i) && Padded(l, i) < Padded(r, i)
  }

  ghost predicate SameVersion(l: seq<nat>, r: seq<nat>) {
    forall i: nat :: Padded(l, i) == Padded(r, i)
  }

  method CompareVersions(l: seq<nat>, r: seq<nat>) returns (c: int)
    ensures c in {-1, 0, 1}
    ensures c == -1 <==> Older(l, r)
    ensures c == 1 <==> Older(r, l)
    ensures c == 0 <==> SameVersion(l, r)
  {
    var i := 0;
    while i < |l| || i < |r|
      invariant forall j: nat :: j < i ==> Padded(l, j) == Padded(r, j)
      decreases |l| + |r| - i
    {
      var left, right := 0, 0;
      if i < |l| { left := l[i]; }
      if i < |r| { right := r[i]; }
      if left != right {
        assert FirstDifference(l, r, i) && FirstDifference(r, l, i);
        OlderIsAsymmetric(l, r);
        return if left < right then -1 else 1;
      }
      i := i + 1;
    }
    assert SameVersion(l, r);
    c := 0;
  }

  lemma OlderIsAsymmetric(l: seq<nat>, r: seq<nat>)
    ensures !(Older(l, r) && Older(r, l))
    ensures Older(l, r) ==> !SameVersion(l, r)
  {
  }

  lemma OlderIsTransitive(a: seq<nat>, b: seq<nat>, c: seq<nat>)
    ensures Older(a, b) && Older(b, c) ==> Older(a, c)
    ensures Older(a, b) && SameVersion(b, c) ==> Older(a, c)
    ensures SameVersion(a, b) && Older(b, c) ==> Older(a, c)
  {
    if Older(a, b) && Older(b, c) {
      var i :| FirstDifference(a, b, i) && Padded(a, i) < Padded(b, i);
      var j :| FirstDifference(b, c, j) && Padded(b, j) < Padded(c, j);
      var k := if i < j then i else j;
      assert FirstDifference(a, c, k) && Padded(a, k) < Padded(c, k);
    }
    if Older(a, b) && SameVersion(b, c) {
      var i :| FirstDifference(a, b, i) && Padded(a, i) < Padded(b, i);
      assert FirstDifference(a, c, i);
    }
    if SameVersion(a, b) && Older(b, c) {
      var i :| FirstDifference(b, c, i) && Padded(b, i) < Padded(c, i);
      assert FirstDifference(a, c, i);
    }
  }

  /** One of the three always holds, so versions are totally preordered. */
  lemma {:induction false} VersionsAreTotal(l: seq<nat>, r: seq<nat>)
    ensures Older(l, r) || Older(r, l) || SameVersion(l, r)
  {
    if !SameVersion(l, r) {
      var k: nat :| Padded(l, k) != Padded(r, k);
      var i := 0;
      while Padded(l, i) == Padded(r, i)
        invariant i <= k && forall j: nat :: j < i ==> Padded(l, j) == Padded(r, j)
        decreases k - i
      {
        i := i + 1;
      }
      assert FirstDifference(l, r, i) && FirstDifference(r, l, i);
    }
  }

  // --- the preference --------------------------------------------------------

  /** A provider outranks another: numeric before non-numeric, newer before
      older, then the smaller id. */
  ghost predicate Outranks(id: string, version: Version, other: string, otherVersion: Version) {
    if version.Some? && otherVersion.Some? then
      Older(otherVersion.value, version.value) ||
      (SameVersion(version.value, otherVersion.value) && Less(id, other))
    else if version.Some? != otherVersion.Some? then version.Some?
    else Less(id, other)
  }

  method PreferProvider(current: string, currentVersion: Version, candidate: string, candidateVersion: Version)
    returns (prefer: bool)
    ensures prefer <==> Outranks(candidate, candidateVersion, current, currentVersion)
  {
    if candidateVersion.Some? && currentVersion.Some? {
      var comparison := CompareVersions(candidateVersion.value, currentVersion.value);
      if comparison != 0 { return comparison > 0; }
    }
    if currentVersion.Some? != candidateVersion.Some? { return candidateVersion.Some?; }
    prefer := Less(candidate, current);
  }

  lemma OutranksIsStrict(a: string, va: Version, b: string, vb: Version)
    ensures !(Outranks(a, va, b, vb) && Outranks(b, vb, a, va))
    ensures !Outranks(a, va, a, va)
  {
    LessIrreflexive(a);
    if Less(a, b) { LessAsymmetric(a, b); }
    if va.Some? { OlderIsAsymmetric(va.value, va.value); }
    if va.Some? && vb.Some? {
      OlderIsAsymmetric(va.value, vb.value);
      OlderIsAsymmetric(vb.value, va.value);
    }
  }

  lemma OutranksIsTotal(a: string, va: Version, b: string, vb: Version)
    requires a != b
    ensures Outranks(a, va, b, vb) || Outranks(b, vb, a, va)
  {
    LessTotal(a, b);
    if va.Some? && vb.Some? { VersionsAreTotal(va.value, vb.value); }
  }

  lemma OutranksIsTransitive(a: string, va: Version, b: string, vb: Version, c: string, vc: Version)
    requires Outranks(a, va, b, vb) && Outranks(b, vb, c, vc)
    ensures Outranks(a, va, c, vc)
  {
    if Less(a, b) && Less(b, c) { LessTransitive(a, b, c); }
    if va.Some? && vb.Some? && vc.Some? { OlderIsTransitive(vc.value, vb.value, va.value); }
  }

  /** The preference in full: a numeric version beats any other, of two numeric ones
      the newer wins, and the smaller id decides the rest. */
  lemma PreferenceInFull(a: string, va: Version, b: string, vb: Version)
    ensures va.Some? && vb.None? ==> Outranks(a, va, b, vb)
    ensures va.None? && vb.Some? ==> !Outranks(a, va, b, vb)
    ensures va.None? && vb.None? ==> (Outranks(a, va, b, vb) <==> Less(a, b))
    ensures va.Some? && vb.Some? && SameVersion(va.value, vb.value) ==> (Outranks(a, va, b, vb) <==> Less(a, b))
    ensures va.Some? && vb.Some? && !SameVersion(va.value, vb.value) ==>
      (Outranks(a, va, b, vb) <==> Older(vb.value, va.value))
  {
  }

  /** A common front and then the greater number decides; missing numbers are zero. */
  lemma VersionsInFull(front: seq<nat>, x: nat, y: nat, restX: seq<nat>, restY: seq<nat>)
    requires x < y
    ensures Older(front + [x] + restX, front + [y] + restY) && !Older(front + [y] + restY, front + [x] + restX)
    ensures SameVersion(front, front + [0]) && Older(front, front + [y])
  {
    var l, r := front + [x] + restX, front + [y] + restY;
    assert FirstDifference(l, r, |front|);
    OlderIsAsymmetric(l, r);
    assert FirstDifference(front, front + [y], |front|);
  }

  // --- who may provide what --------------------------------------------------

  /** A container on this host that the metadata lets provide `name`. */
  predicate Provides(c: Container, host: string, name: string) {
    c.id != "" && c.host == host && c.binary == name && CniConf.ValidName(name)
  }

  ghost predicate Authorized(seen: seq<Container>, host: string, name: string, id: string) {
    exists i :: 0 <= i < |seen| && Provides(seen[i], host, name) && seen[i].id == id
  }

  ghost predicate IsRunning(seen: seq<Container>, host: string, inspect: string -> Answer, name: string, id: string) {
    Authorized(seen, host, name, id) && inspect(id).Running?
  }

  ghost predicate IsUncertain(seen: seq<Container>, host: string, inspect: string -> Answer, name: string, id: string) {
    Authorized(seen, host, name, id) && inspect(id).Unknown?
  }

  /** The running provider no other running provider of the name outranks. */
  ghost predicate IsBest(seen: seq<Container>, host: string, inspect: string -> Answer, name: string, id: string) {
    IsRunning(seen, host, inspect, name, id) &&
    forall other :: IsRunning(seen, host, inspect, name, other) && other != id ==>
      Outranks(id, inspect(id).version, other, inspect(other).version)
  }

  lemma BestIsUnique(seen: seq<Container>, host: string, inspect: string -> Answer, name: string, a: string, b: string)
    requires IsBest(seen, host, inspect, name, a) && IsBest(seen, host, inspect, name, b)
    ensures a == b
  {
    if a != b { OutranksIsStrict(a, inspect(a).version, b, inspect(b).version); }
  }

  /** A new candidate that outranks the best so far outranks all others too. */
  lemma BestStaysBest(seen: seq<Container>, c: Container, host: string, inspect: string -> Answer, name: string, id: string, next: string)
    requires IsBest(seen, host, inspect, name, id) && Provides(c, host, name) && inspect(c.id).Running?
    requires next == if Outranks(c.id, inspect(c.id).version, id, inspect(id).version) then c.id else id
    ensures IsBest(seen + [c], host, inspect, name, next)
  {
    var longer := seen + [c];
    assert longer[|seen|] == c;
    forall i | 0 <= i < |seen| ensures longer[i] == seen[i] {}
    forall other | IsRunning(longer, host, inspect, name, other) && other != next
      ensures Outranks(next, inspect(next).version, other, inspect(other).version)
    {
      assert other == c.id || IsRunning(seen, host, inspect, name, other);
      if other == c.id {
        OutranksIsTotal(id, inspect(id).version, c.id, inspect(c.id).version);
      } else if next != id && other != id {
        OutranksIsTransitive(c.id, inspect(c.id).version, id, inspect(id).version, other, inspect(other).version);
      }
    }
  }
}
