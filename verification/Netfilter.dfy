/** IPv4 prefixes as Go's `netip` sees them. */
module Cidr {
  import opened Wrappers

  type Address = a: nat | a < 0x1_0000_0000
  type Bits = b: nat | b <= 32

  datatype Prefix = Prefix(addr: Address, bits: Bits)

  /** The number of addresses that share a network part of the given length. */
  function Block(bits: Bits): (size: nat)
    ensures size >= 1
    decreases 32 - bits
  {
    if bits == 32 then 1 else 2 * Block(bits + 1)
  }

  /** `netip.Prefix.Contains`: equal network parts, host bits of `p.addr` ignored. */
  predicate Contains(p: Prefix, a: Address) {
    a / Block(p.bits) == p.addr / Block(p.bits)
  }

  lemma HalveQuotient(a: nat, size: nat)
    requires size >= 1
    ensures a / (2 * size) == (a / size) / 2
  {
    var q, r := a / size, a % size;
    assert a == q * size + r;
    var h, l := q / 2, q % 2;
    assert q == 2 * h + l;
    assert a == h * (2 * size) + (l * size + r) by {
      assert q * size == (2 * h + l) * size == h * (2 * size) + l * size;
    }
    assert 0 <= l * size + r < 2 * size by {
      if l == 0 { assert l * size == 0; } else { assert l * size == size; }
    }
    QuotientUnique(a, 2 * size, h, l * size + r);
  }

  lemma QuotientUnique(a: int, d: int, q: int, r: int)
    requires a == q * d + r && 0 <= r < d
    ensures a / d == q
  {
    var k := a / d - q;
    assert k * d == (a / d) * d - q * d == r - a % d;
    MultipleBound(k, d);
  }

  lemma MultipleBound(k: int, d: int)
    requires d >= 1
    ensures k >= 1 ==> k * d >= d
    ensures k <= -1 ==> k * d <= -d
  {
    if k >= 1 { assert (k - 1) * d >= 0; }
    if k <= -1 { assert (-k - 1) * d >= 0; }
  }

  lemma {:induction false} Coarsen(short: Bits, long: Bits, a: Address, b: Address)
    requires short <= long
    requires a / Block(long) == b / Block(long)
    ensures a / Block(short) == b / Block(short)
    decreases long - short
  {
    if short < long {
      Coarsen(short + 1, long, a, b);
      HalveQuotient(a, Block(short + 1));
      HalveQuotient(b, Block(short + 1));
    }
  }

  ghost predicate Disjoint(p: Prefix, q: Prefix) {
    forall a: Address :: !(Contains(p, a) && Contains(q, a))
  }

  /** The two-way membership test `PeerSubnets` makes. */
  predicate Overlaps(p: Prefix, q: Prefix) {
    Contains(p, q.addr) || Contains(q, p.addr)
  }

  /** Prefixes either nest or are disjoint (section 3.1 of RFC 4632), so testing
      each base address against the other prefix decides overlap exactly. */
  lemma OverlapIsExact(p: Prefix, q: Prefix)
    ensures Overlaps(p, q) <==> !Disjoint(p, q)
  {
    if Overlaps(p, q) {
      var a := if Contains(p, q.addr) then q.addr else p.addr;
      assert Contains(p, a) && Contains(q, a);
    }
    if !Disjoint(p, q) {
      var a: Address :| Contains(p, a) && Contains(q, a);
      if p.bits <= q.bits {
        Coarsen(p.bits, q.bits, a, q.addr);
      } else {
        Coarsen(q.bits, p.bits, a, p.addr);
      }
    }
  }

  predicate IsDigit(c: char) { '0' <= c <= '9' }

  predicate AllDigits(s: string) {
    s != "" && forall i :: 0 <= i < |s| ==> IsDigit(s[i])
  }

  /** A decimal field without sign or leading zero, at most `limit`. */
  function ParseField(s: string, limit: nat): Option<nat> {
    if !AllDigits(s) || (|s| > 1 && s[0] == '0') || Decimal(s) > limit then None else Some(Decimal(s))
  }

  function Decimal(s: string): nat
    requires forall i :: 0 <= i < |s| ==> IsDigit(s[i])
  {
    if s == "" then 0
    else
      assert IsDigit(s[|s| - 1]);
      10 * Decimal(s[..|s| - 1]) + (s[|s| - 1] as int - '0' as int)
  }

  function Split(s: string, sep: char): (r: seq<string>)
    ensures |r| >= 1
  {
    if s == "" then [""]
    else
      var rest := Split(s[1..], sep);
      if s[0] == sep then [""] + rest else [[s[0]] + rest[0]] + rest[1..]
  }

  /** An IPv4 address in dotted decimal. */
  function ParseAddress4(s: string): Option<Address> {
    var fields := Split(s, '.');
    if |fields| != 4 then None
    else
      match (ParseField(fields[0], 255), ParseField(fields[1], 255), ParseField(fields[2], 255), ParseField(fields[3], 255))
      case (Some(a), Some(b), Some(c), Some(d)) =>
        if a <= 255 && b <= 255 && c <= 255 && d <= 255 then Some(((a * 256 + b) * 256 + c) * 256 + d) else None
      case _ => None
  }

  /** `netip.ParsePrefix` restricted to IPv4; every other text is `None`. */
  function ParsePrefix4(s: string): Option<Prefix> {
    var halves := Split(s, '/');
    if |halves| != 2 then None
    else
      match (ParseAddress4(halves[0]), ParseField(halves[1], 32))
      case (Some(a), Some(n)) => if n <= 32 then Some(Prefix(a, n)) else None
      case _ => None
  }

  /** The prefix a validated text stands for. */
  function Subnet(text: string): Prefix {
    match ParsePrefix4(text)
    case Some(p) => p
    case None => Prefix(0, 0)
  }

  predicate ValidSubnet(text: string) {
    ParsePrefix4(text).Some? && ParsePrefix4(text).value.bits > 0
  }
}

/** Packets, rules and first-match evaluation, shared by the iptables and the
    native nft generators. */
module Netfilter {
  import opened Lists
  import opened Wrappers
  import opened Cidr

  datatype Proto = Tcp | Udp | OtherProto(number: nat)
  datatype CtState = New | Established | Related | Invalid
  datatype AddressType = Local | Unicast | Broadcast | Multicast | Unroutable

  /** The routing table's address types: `addrtype` and `fib ... type` read it. */
  type Fib = Address -> AddressType

  datatype Packet = Packet(
    inIf: string, outIf: string, src: Address, dst: Address, proto: Proto,
    sport: nat, dport: nat, state: CtState, dnatted: bool, mark: bv32)

  datatype Match =
    | InIs(name: string) | InIsNot(name: string)
    | OutIs(name: string) | OutIsNot(name: string)
    | SrcIn(prefix: Prefix) | DstIn(prefix: Prefix) | DstNotIn(prefix: Prefix)
    | ProtoIs(proto: Proto) | SportIs(port: nat) | DportIs(port: nat)
    | StateIn(states: set<CtState>) | IsDnatted
    | SrcType(kind: AddressType) | DstType(kind: AddressType)
    | MarkIs(value: bv32) | MarkHas(mask: bv32, value: bv32)

  datatype MarkOp = KeepMark | SetMark(value: bv32) | OrMark(value: bv32)

  /** `Continue` is the absence of a verdict: evaluation goes on. */
  datatype Action =
    | Continue | Accept | Drop | Return
    | Dnat(ip: Address, port: nat) | Snat(ip: Address, port: nat)
    | Masquerade(highPorts: bool)

  datatype Rule = Rule(matches: seq<Match>, markOp: MarkOp, action: Action)

  datatype Outcome = Outcome(action: Action, mark: bv32)

  predicate Holds(m: Match, p: Packet, fib: Fib) {
    match m
    case InIs(name) => p.inIf == name
    case InIsNot(name) => p.inIf != name
    case OutIs(name) => p.outIf == name
    case OutIsNot(name) => p.outIf != name
    case SrcIn(prefix) => Contains(prefix, p.src)
    case DstIn(prefix) => Contains(prefix, p.dst)
    case DstNotIn(prefix) => !Contains(prefix, p.dst)
    case ProtoIs(proto) => p.proto == proto
    case SportIs(port) => p.sport == port
    case DportIs(port) => p.dport == port
    case StateIn(states) => p.state in states
    case IsDnatted => p.dnatted
    case SrcType(kind) => fib(p.src) == kind
    case DstType(kind) => fib(p.dst) == kind
    case MarkIs(value) => p.mark == value
    case MarkHas(mask, value) => p.mark & mask == value
  }

  predicate All(ms: seq<Match>, p: Packet, fib: Fib) {
    ms == [] || (Holds(ms[0], p, fib) && All(ms[1..], p, fib))
  }

  predicate Matches(r: Rule, p: Packet, fib: Fib) {
    All(r.matches, p, fib)
  }

  function Marked(op: MarkOp, mark: bv32): bv32 {
    match op
    case KeepMark => mark
    case SetMark(v) => v
    case OrMark(v) => mark | v
  }

  function Step(r: Rule, p: Packet, fib: Fib): Outcome {
    if Matches(r, p, fib) then Outcome(r.action, Marked(r.markOp, p.mark)) else Outcome(Continue, p.mark)
  }

  /** First-match evaluation of one chain; a rule without a verdict may still
      change the mark later rules see. */
  function Run(chain: seq<Rule>, p: Packet, fib: Fib): Outcome {
    if chain == [] then Outcome(Continue, p.mark)
    else
      var o := Step(chain[0], p, fib);
      if o.action != Continue then o else Run(chain[1..], p.(mark := o.mark), fib)
  }

  function Then(first: Outcome, chain: seq<Rule>, p: Packet, fib: Fib): Outcome {
    if first.action != Continue then first else Run(chain, p.(mark := first.mark), fib)
  }

  lemma RunCons(r: Rule, chain: seq<Rule>, p: Packet, fib: Fib)
    ensures Run([r] + chain, p, fib) == Then(Step(r, p, fib), chain, p, fib)
  {
    assert ([r] + chain)[1..] == chain;
  }

  lemma RunSingle(r: Rule, p: Packet, fib: Fib)
    ensures Run([r], p, fib) == Step(r, p, fib)
  {
    RunCons(r, [], p, fib);
    assert [r] == [r] + [];
  }

  lemma RunTwo(a: Rule, b: Rule, p: Packet, fib: Fib)
    requires a.action != Continue
    ensures Run([a, b], p, fib) == if Matches(a, p, fib) then Step(a, p, fib) else Step(b, p, fib)
  {
    assert [a, b] == [a] + [b];
    RunCons(a, [b], p, fib);
    if !Matches(a, p, fib) {
      assert p.(mark := p.mark) == p;
      RunSingle(b, p, fib);
    }
  }

  lemma {:induction false} AllConcat(a: seq<Match>, b: seq<Match>, p: Packet, fib: Fib)
    ensures All(a + b, p, fib) <==> All(a, p, fib) && All(b, p, fib)
  {
    if a == [] {
      assert a + b == b;
    } else {
      assert (a + b)[1..] == a[1..] + b;
      AllConcat(a[1..], b, p, fib);
    }
  }

  lemma AllOne(a: Match, p: Packet, fib: Fib)
    ensures All([a], p, fib) <==> Holds(a, p, fib)
  {
  }

  lemma AllTwo(a: Match, b: Match, p: Packet, fib: Fib)
    ensures All([a, b], p, fib) <==> Holds(a, p, fib) && Holds(b, p, fib)
  {
    assert [a, b][1..] == [b];
    AllOne(b, p, fib);
  }

  lemma AllThree(a: Match, b: Match, c: Match, p: Packet, fib: Fib)
    ensures All([a, b, c], p, fib) <==> Holds(a, p, fib) && Holds(b, p, fib) && Holds(c, p, fib)
  {
    assert [a, b, c][1..] == [b, c];
    AllTwo(b, c, p, fib);
  }

  lemma AllFour(a: Match, b: Match, c: Match, d: Match, p: Packet, fib: Fib)
    ensures All([a, b, c, d], p, fib)
       <==> Holds(a, p, fib) && Holds(b, p, fib) && Holds(c, p, fib) && Holds(d, p, fib)
  {
    assert [a, b, c, d][1..] == [b, c, d];
    AllThree(b, c, d, p, fib);
  }

  lemma {:induction false} RunConcat(a: seq<Rule>, b: seq<Rule>, p: Packet, fib: Fib)
    ensures Run(a + b, p, fib) == Then(Run(a, p, fib), b, p, fib)
  {
    if a == [] {
      assert a + b == b && p.(mark := p.mark) == p;
    } else {
      assert (a + b)[1..] == a[1..] + b;
      var mark := Step(a[0], p, fib).mark;
      RunConcat(a[1..], b, p.(mark := mark), fib);
      assert p.(mark := mark).(mark := Run(a[1..], p.(mark := mark), fib).mark)
          == p.(mark := Run(a[1..], p.(mark := mark), fib).mark);
    }
  }

  /** One `for` loop of a generator: append a block per element to the buffer. */
  method Emit<A>(buffer: seq<Rule>, xs: seq<A>, f: A -> seq<Rule>) returns (out: seq<Rule>)
    ensures out == buffer + FlatMap(xs, f)
    ensures buffer == [] ==> out == FlatMap(xs, f)
  {
    out := buffer;
    for i := 0 to |xs|
      invariant out == buffer + FlatMap(xs[..i], f)
    {
      assert xs[..i + 1][..i] == xs[..i];
      out := out + f(xs[i]);
    }
    assert xs[..|xs|] == xs;
  }

  /** The earliest element selected by `sel`. */
  function First<A>(xs: seq<A>, sel: A -> bool): (r: Option<A>)
    ensures r.None? ==> forall i :: 0 <= i < |xs| ==> !sel(xs[i])
    ensures r.Some? ==> exists i :: 0 <= i < |xs| && xs[i] == r.value && sel(xs[i])
                                    && forall j :: 0 <= j < i ==> !sel(xs[j])
  {
    if xs == [] then None
    else
      var last := |xs| - 1;
      var earlier := First(xs[..last], sel);
      if earlier.Some? then earlier
      else if sel(xs[last]) then Some(xs[last]) else None
  }

  function Pick<A>(xs: seq<A>, sel: A -> bool, out: A -> Outcome, p: Packet): Outcome {
    match First(xs, sel)
    case None => Outcome(Continue, p.mark)
    case Some(x) => out(x)
  }

  /** When each block either decides the packet or leaves it untouched, the
      whole chain is decided by the first deciding element. */
  lemma {:induction false} RunPicksFirst<A>(xs: seq<A>, f: A -> seq<Rule>, sel: A -> bool, out: A -> Outcome,
                                            p: Packet, fib: Fib)
    requires forall x :: x in xs ==> Run(f(x), p, fib) == if sel(x) then out(x) else Outcome(Continue, p.mark)
    requires forall x :: x in xs && sel(x) ==> out(x).action != Continue
    ensures Run(FlatMap(xs, f), p, fib) == Pick(xs, sel, out, p)
  {
    if xs != [] {
      var init, last := xs[..|xs| - 1], xs[|xs| - 1];
      assert forall x :: x in init ==> x in xs;
      RunPicksFirst(init, f, sel, out, p, fib);
      RunConcat(FlatMap(init, f), f(last), p, fib);
      assert p.(mark := p.mark) == p;
    }
  }

  ghost predicate Admits(chain: seq<Rule>, p: Packet, fib: Fib) {
    exists i :: 0 <= i < |chain| && Matches(chain[i], p, fib)
  }

  ghost predicate Uniform(chain: seq<Rule>, op: MarkOp, action: Action) {
    forall i :: 0 <= i < |chain| ==> chain[i].markOp == op && chain[i].action == action
  }

  /** In a chain whose rules all do the same thing, order is irrelevant. */
  lemma {:induction false} RunUniform(chain: seq<Rule>, op: MarkOp, action: Action, p: Packet, fib: Fib)
    requires Uniform(chain, op, action) && action != Continue
    ensures Run(chain, p, fib)
         == if Admits(chain, p, fib) then Outcome(action, Marked(op, p.mark)) else Outcome(Continue, p.mark)
  {
    if chain != [] && !Matches(chain[0], p, fib) {
      assert p.(mark := p.mark) == p;
      RunUniform(chain[1..], op, action, p, fib);
      if Admits(chain, p, fib) {
        var i :| 0 <= i < |chain| && Matches(chain[i], p, fib);
        assert chain[1..][i - 1] == chain[i];
      }
    }
  }

  lemma AdmitsConcat(a: seq<Rule>, b: seq<Rule>, p: Packet, fib: Fib)
    ensures Admits(a + b, p, fib) <==> Admits(a, p, fib) || Admits(b, p, fib)
  {
    if Admits(a, p, fib) {
      var i :| 0 <= i < |a| && Matches(a[i], p, fib);
      assert (a + b)[i] == a[i];
    }
    if Admits(b, p, fib) {
      var i :| 0 <= i < |b| && Matches(b[i], p, fib);
      assert (a + b)[|a| + i] == b[i];
    }
  }

  lemma {:induction false} AdmitsFlatMap<A>(xs: seq<A>, f: A -> seq<Rule>, p: Packet, fib: Fib)
    ensures Admits(FlatMap(xs, f), p, fib) <==> exists i :: 0 <= i < |xs| && Admits(f(xs[i]), p, fib)
  {
    if xs != [] {
      var init, last := xs[..|xs| - 1], xs[|xs| - 1];
      AdmitsFlatMap(init, f, p, fib);
      AdmitsConcat(FlatMap(init, f), f(last), p, fib);
      if exists i :: 0 <= i < |xs| && Admits(f(xs[i]), p, fib) {
        var i :| 0 <= i < |xs| && Admits(f(xs[i]), p, fib);
        if i < |init| { assert init[i] == xs[i]; }
      }
      if exists i :: 0 <= i < |init| && Admits(f(init[i]), p, fib) {
        var i :| 0 <= i < |init| && Admits(f(init[i]), p, fib);
        assert xs[i] == init[i];
      }
    }
  }

  lemma {:induction false} UniformFlatMap<A>(xs: seq<A>, f: A -> seq<Rule>, op: MarkOp, action: Action)
    requires forall x :: x in xs ==> Uniform(f(x), op, action)
    ensures Uniform(FlatMap(xs, f), op, action)
  {
    if xs != [] {
      assert forall x :: x in xs[..|xs| - 1] ==> x in xs;
      UniformFlatMap(xs[..|xs| - 1], f, op, action);
    }
  }
}
