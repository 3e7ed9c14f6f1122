/** What an `iptables -S` listing says: is a platform chain live, does Docker own
    the NAT table, is forwarding dropped by policy. */
module PlatformHook {
  import opened Wrappers

  /** A listed line, already split at white space. */
  type Line = seq<string>

  datatype Jump = Jump(target: string, line: Line)

  const BUILT_IN := ["INPUT", "FORWARD", "OUTPUT", "PREROUTING", "POSTROUTING"]

  const JUMP_FLAGS := ["-j", "-g", "--jump", "--goto"]

  predicate IsPlatform(chain: string) {
    "CATTLE_" <= chain
  }

  /** The word after the first jump flag of a rule line. */
  function TargetFrom(line: Line, i: nat): Option<string>
    decreases |line| - i
  {
    if i + 1 >= |line| then None
    else if line[i] in JUMP_FLAGS then Some(line[i + 1])
    else TargetFrom(line, i + 1)
  }

  function TargetOf(line: Line): Option<string> {
    if |line| < 4 || line[0] != "-A" then None else TargetFrom(line, 2)
  }

  predicate IsEdge(line: Line, chain: string, target: string) {
    TargetOf(line) == Some(target) && line[1] == chain
  }

  ghost predicate HasEdge(rules: seq<Line>, chain: string, target: string) {
    exists i :: 0 <= i < |rules| && IsEdge(rules[i], chain, target)
  }

  /** Chains a packet may pass in this order, beginning at a built-in hook. */
  ghost predicate IsPath(rules: seq<Line>, path: seq<string>) {
    path != [] && path[0] in BUILT_IN &&
    forall i :: 0 <= i < |path| - 1 ==> HasEdge(rules, path[i], path[i + 1])
  }

  ghost predicate Reaches(rules: seq<Line>, chain: string) {
    exists path :: IsPath(rules, path) && path[|path| - 1] == chain
  }

  /** Some platform chain processes packets. */
  ghost predicate PlatformLive(rules: seq<Line>) {
    exists chain :: IsPlatform(chain) && Reaches(rules, chain)
  }

  lemma ReachesOn(rules: seq<Line>, chain: string, target: string)
    requires Reaches(rules, chain) && HasEdge(rules, chain, target)
    ensures Reaches(rules, target)
  {
    var path :| IsPath(rules, path) && path[|path| - 1] == chain;
    assert IsPath(rules, path + [target]);
  }

  lemma BuiltInReaches(rules: seq<Line>, chain: string)
    requires chain in BUILT_IN
    ensures Reaches(rules, chain)
  {
    assert IsPath(rules, [chain]) && [chain][|[chain]| - 1] == chain;
  }

  /** A set holding the built-in chains and closed under harmless jumps holds
      every chain a packet can reach. */
  lemma {:induction false} ClosedHoldsPath(rules: seq<Line>, closed: set<string>, path: seq<string>)
    requires IsPath(rules, path)
    requires forall c :: c in BUILT_IN ==> c in closed
    requires forall c, t :: c in closed && HasEdge(rules, c, t) ==> t in closed
    ensures path[|path| - 1] in closed
    decreases |path|
  {
    if |path| > 1 {
      var front := path[..|path| - 1];
      ClosedHoldsPath(rules, closed, front);
      assert HasEdge(rules, path[|path| - 2], path[|path| - 1]);
    }
  }

  lemma BuiltInIsNotPlatform(chain: string)
    requires chain in BUILT_IN
    ensures !IsPlatform(chain)
  {
    assert "CATTLE_"[0] == 'C';
    assert chain == BUILT_IN[0] || chain == BUILT_IN[1] || chain == BUILT_IN[2] || chain == BUILT_IN[3] || chain == BUILT_IN[4];
  }

  ghost function Chains(rules: seq<Line>): set<string> {
    (set c | c in BUILT_IN) + set i | 0 <= i < |rules| && TargetOf(rules[i]).Some? :: TargetOf(rules[i]).value
  }

  function JumpsFrom(jumps: map<string, seq<Jump>>, chain: string): seq<Jump> {
    if chain in jumps then jumps[chain] else []
  }

  ghost predicate JumpsAre(jumps: map<string, seq<Jump>>, rules: seq<Line>) {
    forall c, j :: j in JumpsFrom(jumps, c) <==> j.line in rules && IsEdge(j.line, c, j.target)
  }

  method FindTarget(line: Line) returns (target: Option<string>)
    ensures target == TargetOf(line)
  {
    if |line| < 4 || line[0] != "-A" { return None; }
    var i := 2;
    while i + 1 < |line|
      invariant 2 <= i && TargetOf(line) == TargetFrom(line, i)
    {
      if line[i] in JUMP_FLAGS { return Some(line[i + 1]); }
      i := i + 1;
    }
    target := None;
  }

  method CollectJumps(rules: seq<Line>) returns (jumps: map<string, seq<Jump>>)
    ensures JumpsAre(jumps, rules)
  {
    jumps := map[];
    for i := 0 to |rules|
      invariant JumpsAre(jumps, rules[..i])
    {
      var line := rules[i];
      assert rules[..i + 1] == rules[..i] + [line];
      var target := FindTarget(line);
      if target.Some? {
        ghost var before := jumps;
        jumps := jumps[line[1] := JumpsFrom(jumps, line[1]) + [Jump(target.value, line)]];
        forall c, j ensures j in JumpsFrom(jumps, c) <==> j.line in rules[..i + 1] && IsEdge(j.line, c, j.target) {
          assert j in JumpsFrom(before, c) <==> j.line in rules[..i] && IsEdge(j.line, c, j.target);
        }
      }
    }
    assert rules[..|rules|] == rules;
  }

  /** A line through which packets enter a platform chain. */
  ghost predicate LiveHook(rules: seq<Line>, line: Line) {
    line in rules && exists c, t :: IsEdge(line, c, t) && IsPlatform(t) && Reaches(rules, c)
  }

  lemma FollowEdge(rules: seq<Line>, chain: string, edge: Jump)
    requires Reaches(rules, chain) && edge.line in rules && IsEdge(edge.line, chain, edge.target)
    ensures Reaches(rules, edge.target) && edge.target in Chains(rules)
    ensures IsPlatform(edge.target) ==> LiveHook(rules, edge.line) && PlatformLive(rules)
  {
    var i :| 0 <= i < |rules| && rules[i] == edge.line;
    assert HasEdge(rules, chain, edge.target);
    ReachesOn(rules, chain, edge.target);
    assert TargetOf(rules[i]).value in Chains(rules);
  }

  /** Chains still to visit: all reachable from a hook. */
  ghost predicate Queued(rules: seq<Line>, queue: seq<string>) {
    forall c :: c in queue ==> Reaches(rules, c) && c in Chains(rules)
  }

  /** No jump out of the chain enters a platform chain, and all are accounted for. */
  ghost predicate Explored(rules: seq<Line>, chain: string, known: seq<string>, seen: set<string>) {
    forall t :: HasEdge(rules, chain, t) ==> !IsPlatform(t) && (t in seen || t in known)
  }

  /** The jumps followed so far were harmless and their targets are queued. */
  ghost predicate Followed(edges: seq<Jump>, k: nat, next: seq<string>) {
    forall j :: 0 <= j < k && j < |edges| ==> !IsPlatform(edges[j].target) && edges[j].target in next
  }

  lemma AllFollowed(rules: seq<Line>, jumps: map<string, seq<Jump>>, chain: string, next: seq<string>)
    requires JumpsAre(jumps, rules) && Followed(JumpsFrom(jumps, chain), |JumpsFrom(jumps, chain)|, next)
    ensures Explored(rules, chain, next, {})
  {
    forall t | HasEdge(rules, chain, t) ensures !IsPlatform(t) && t in next {
      var i :| 0 <= i < |rules| && IsEdge(rules[i], chain, t);
      assert Jump(t, rules[i]) in JumpsFrom(jumps, chain);
    }
  }

  lemma QueueOneMore(rules: seq<Line>, edges: seq<Jump>, k: nat, next: seq<string>)
    requires Queued(rules, next) && Followed(edges, k, next) && k < |edges|
    requires Reaches(rules, edges[k].target) && edges[k].target in Chains(rules) && !IsPlatform(edges[k].target)
    ensures Queued(rules, next + [edges[k].target]) && Followed(edges, k + 1, next + [edges[k].target])
  {
  }

  /** One chain's jumps: stop at a platform target, queue the others. */
  method Expand(rules: seq<Line>, jumps: map<string, seq<Jump>>, chain: string, queue: seq<string>)
    returns (hook: Option<Line>, next: seq<string>)
    requires JumpsAre(jumps, rules) && Reaches(rules, chain) && Queued(rules, queue)
    ensures hook.Some? ==> LiveHook(rules, hook.value) && PlatformLive(rules)
    ensures hook.None? ==> Explored(rules, chain, next, {}) && queue <= next && Queued(rules, next)
  {
    next := queue;
    var edges := JumpsFrom(jumps, chain);
    for k := 0 to |edges|
      invariant queue <= next && Queued(rules, next)
      invariant Followed(edges, k, next)
    {
      var edge := edges[k];
      assert edge in JumpsFrom(jumps, chain);
      FollowEdge(rules, chain, edge);
      if IsPlatform(edge.target) { return Some(edge.line), next; }
      QueueOneMore(rules, edges, k, next);
      next := next + [edge.target];
    }
    AllFollowed(rules, jumps, chain, next);
    hook := None;
  }

  /** The state of the search: what is left to do covers what is not yet explored. */
  ghost predicate Searching(rules: seq<Line>, queue: seq<string>, seen: set<string>) {
    Queued(rules, queue) && seen <= Chains(rules) &&
    (forall c :: c in BUILT_IN ==> c in seen || c in queue) &&
    (forall c :: c in seen ==> Explored(rules, c, queue, seen))
  }

  lemma StartSearching(rules: seq<Line>)
    ensures Searching(rules, BUILT_IN, {})
  {
    forall c | c in BUILT_IN ensures Reaches(rules, c) && c in Chains(rules) { BuiltInReaches(rules, c); }
  }

  lemma Dequeue(rules: seq<Line>, queue: seq<string>, seen: set<string>)
    requires Searching(rules, queue, seen) && queue != []
    ensures queue[0] in seen ==> Searching(rules, queue[1..], seen)
    ensures Queued(rules, queue[1..]) && Reaches(rules, queue[0]) && queue[0] in Chains(rules)
  {
    assert queue == [queue[0]] + queue[1..];
    forall c | c in seen ensures queue[0] in seen ==> Explored(rules, c, queue[1..], seen) {
      assert Explored(rules, c, queue, seen);
    }
  }

  lemma NothingForgotten(queue: seq<string>, next: seq<string>, c: string)
    requires queue != [] && queue[1..] <= next && c in queue && c != queue[0]
    ensures c in next
  {
    assert queue == [queue[0]] + queue[1..] && next == queue[1..] + next[|queue| - 1..];
  }

  /** Visiting the first chain of the queue leaves the others as explored as they were. */
  lemma StaysExplored(rules: seq<Line>, c: string, queue: seq<string>, seen: set<string>, next: seq<string>)
    requires queue != [] && queue[1..] <= next && Explored(rules, c, queue, seen)
    ensures Explored(rules, c, next, seen + {queue[0]})
  {
    forall d | d in queue && d != queue[0] ensures d in next { NothingForgotten(queue, next, d); }
  }

  lemma Visited(rules: seq<Line>, queue: seq<string>, seen: set<string>, next: seq<string>)
    requires Searching(rules, queue, seen) && queue != [] && queue[0] in Chains(rules)
    requires Explored(rules, queue[0], next, {}) && queue[1..] <= next && Queued(rules, next)
    ensures Searching(rules, next, seen + {queue[0]})
  {
    var more := seen + {queue[0]};
    forall c | c in BUILT_IN ensures c in more || c in next {
      if c in queue && c != queue[0] { NothingForgotten(queue, next, c); }
    }
    forall c | c in more ensures Explored(rules, c, next, more) {
      if c in seen { StaysExplored(rules, c, queue, seen, next); }
    }
  }

  /** Breadth-first search from the built-in chains; cycles end it all the same.
      The answer is a line that jumps into a platform chain, if one is live. */
  method FindPlatformHook(rules: seq<Line>) returns (hook: Option<Line>)
    ensures hook.Some? <==> PlatformLive(rules)
    ensures hook.Some? ==> LiveHook(rules, hook.value)
  {
    var jumps := CollectJumps(rules);
    var queue := BUILT_IN;
    var seen: set<string> := {};
    StartSearching(rules);
    while queue != []
      invariant Searching(rules, queue, seen)
      decreases Chains(rules) - seen, |queue|
    {
      var chain := queue[0];
      Dequeue(rules, queue, seen);
      if chain in seen {
        queue := queue[1..];
        continue;
      }
      var next;
      hook, next := Expand(rules, jumps, chain, queue[1..]);
      if hook.Some? { return; }
      Visited(rules, queue, seen, next);
      queue, seen := next, seen + {chain};
    }
    NothingLive(rules, seen);
    hook := None;
  }

  lemma NothingLive(rules: seq<Line>, seen: set<string>)
    requires Searching(rules, [], seen)
    ensures !PlatformLive(rules)
  {
    var harmless := set c | c in seen && !IsPlatform(c);
    forall c | c in BUILT_IN ensures c in harmless { BuiltInIsNotPlatform(c); }
    forall c, t | c in harmless && HasEdge(rules, c, t) ensures t in harmless { assert Explored(rules, c, [], seen); }
    if PlatformLive(rules) {
      var chain :| IsPlatform(chain) && Reaches(rules, chain);
      var path :| IsPath(rules, path) && path[|path| - 1] == chain;
      ClosedHoldsPath(rules, harmless, path);
    }
  }

  // --- the other facts of a listing ------------------------------------------

  ghost predicate HooksDocker(line: Line) {
    |line| >= 4 && line[0] == "-A" && line[1] in ["PREROUTING", "OUTPUT"] &&
    exists i :: 2 <= i < |line| - 1 && line[i] == "-j" && line[i + 1] == "DOCKER"
  }

  /** Docker declared its NAT chain and a built-in hook jumps to it. */
  ghost predicate DockerOwnsNat(rules: seq<Line>) {
    ["-N", "DOCKER"] in rules && exists i :: 0 <= i < |rules| && HooksDocker(rules[i])
  }

  method LineHooksDocker(line: Line) returns (hooked: bool)
    ensures hooked == HooksDocker(line)
  {
    hooked := false;
    if |line| >= 4 && line[0] == "-A" && (line[1] == "PREROUTING" || line[1] == "OUTPUT") {
      for i := 2 to |line| - 1
        invariant hooked <==> exists j :: 2 <= j < i && line[j] == "-j" && line[j + 1] == "DOCKER"
      {
        if line[i] == "-j" && line[i + 1] == "DOCKER" { hooked := true; }
      }
    }
  }

  method HasDockerNatChain(rules: seq<Line>) returns (owns: bool)
    ensures owns == DockerOwnsNat(rules)
  {
    var declared, hooked := false, false;
    for i := 0 to |rules|
      invariant declared == (["-N", "DOCKER"] in rules[..i])
      invariant hooked <==> exists j :: 0 <= j < i && HooksDocker(rules[j])
    {
      assert rules[..i + 1] == rules[..i] + [rules[i]];
      if |rules[i]| == 2 && rules[i][0] == "-N" && rules[i][1] == "DOCKER" {
        assert rules[i] == ["-N", "DOCKER"];
        declared := true;
      }
      var here := LineHooksDocker(rules[i]);
      if here { hooked := true; }
    }
    assert rules[..|rules|] == rules;
    owns := declared && hooked;
  }

  predicate DropsForward(rules: seq<Line>) {
    ["-P", "FORWARD", "DROP"] in rules
  }

  method HasForwardDropPolicy(rules: seq<Line>) returns (drops: bool)
    ensures drops == DropsForward(rules)
  {
    for i := 0 to |rules|
      invariant ["-P", "FORWARD", "DROP"] !in rules[..i]
    {
      assert rules[..i + 1] == rules[..i] + [rules[i]];
      if |rules[i]| == 3 && rules[i][0] == "-P" && rules[i][1] == "FORWARD" && rules[i][2] == "DROP" {
        assert rules[i] == ["-P", "FORWARD", "DROP"];
        return true;
      }
    }
    assert rules[..|rules|] == rules;
    drops := false;
  }

  // --- the listing's words, in full ------------------------------------------

  predicate IsFlag(word: string) { word == "-j" || word == "-g" || word == "--jump" || word == "--goto" }

  lemma {:induction false} TargetFromExactly(line: Line, from: nat, target: string)
    ensures TargetFrom(line, from) == Some(target) <==>
      exists i: nat :: from <= i && i + 1 < |line| && IsFlag(line[i]) && line[i + 1] == target && NoFlag(line, from, i)
    decreases |line| - from
  {
    if from + 1 < |line| && !IsFlag(line[from]) {
      TargetFromExactly(line, from + 1, target);
      if i: nat :| from + 1 <= i && i + 1 < |line| && IsFlag(line[i]) && line[i + 1] == target && NoFlag(line, from + 1, i) {
        assert NoFlag(line, from, i);
      }
      if i: nat :| from <= i && i + 1 < |line| && IsFlag(line[i]) && line[i + 1] == target && NoFlag(line, from, i) {
        assert from + 1 <= i && NoFlag(line, from + 1, i);
      }
    } else if from + 1 < |line| {
      assert NoFlag(line, from, from);
    }
  }

  predicate NoFlag(line: Line, from: nat, to: nat) {
    forall k :: from <= k < to && k < |line| ==> !IsFlag(line[k])
  }

  /** A rule line of at least four words jumps to the word after its first flag from
      the third word on; no other line jumps anywhere. */
  lemma TargetExactly(line: Line, target: string)
    ensures TargetOf(line) == Some(target) <==>
      |line| >= 4 && line[0] == "-A" &&
      exists i :: 2 <= i < |line| - 1 && IsFlag(line[i]) && line[i + 1] == target && NoFlag(line, 2, i)
  {
    TargetFromExactly(line, 2, target);
  }

  /** The plain jump the platform itself installs makes the listing live. */
  lemma PlainJumpIsLive(rules: seq<Line>, chain: string, rest: string)
    requires chain in ["INPUT", "FORWARD", "OUTPUT", "PREROUTING", "POSTROUTING"]
    requires ["-A", chain, "-j", "CATTLE_" + rest] in rules
    ensures PlatformLive(rules)
  {
    var line := ["-A", chain, "-j", "CATTLE_" + rest];
    var target := "CATTLE_" + rest;
    assert line[2] == "-j" && IsFlag(line[2]) && line[3] == target && NoFlag(line, 2, 2);
    TargetExactly(line, target);
    BuiltInReaches(rules, chain);
    assert IsEdge(line, chain, target) && IsPlatform(target);
    FollowEdge(rules, chain, Jump(target, line));
  }

  /** No line of the listing jumps to a platform chain. */
  ghost predicate NoPlatformJump(rules: seq<Line>) {
    forall i, t :: 0 <= i < |rules| && TargetOf(rules[i]) == Some(t) ==> !("CATTLE_" <= t)
  }

  lemma PathsStayOutside(rules: seq<Line>, path: seq<string>)
    requires NoPlatformJump(rules) && IsPath(rules, path)
    ensures !IsPlatform(path[|path| - 1])
  {
    if |path| > 1 {
      assert HasEdge(rules, path[|path| - 2], path[|path| - 1]);
    } else {
      BuiltInIsNotPlatform(path[0]);
    }
  }

  lemma NoJumpIsNotLive(rules: seq<Line>)
    requires NoPlatformJump(rules)
    ensures !PlatformLive(rules)
  {
    forall path | IsPath(rules, path) ensures !IsPlatform(path[|path| - 1]) { PathsStayOutside(rules, path); }
  }

  /** Docker owns the NAT table: its chain is declared and a rule of PREROUTING or
      OUTPUT jumps to it. */
  lemma DockerOwnsExactly(rules: seq<Line>)
    ensures DockerOwnsNat(rules) <==>
      ["-N", "DOCKER"] in rules &&
      exists i, k :: 0 <= i < |rules| && 2 <= k < |rules[i]| - 1 && rules[i][0] == "-A" &&
        (rules[i][1] == "PREROUTING" || rules[i][1] == "OUTPUT") && rules[i][k] == "-j" && rules[i][k + 1] == "DOCKER"
  {
  }

  lemma DropsForwardExactly(rules: seq<Line>)
    ensures DropsForward(rules) <==> exists i :: 0 <= i < |rules| && rules[i] == ["-P", "FORWARD", "DROP"]
  {
  }
}
