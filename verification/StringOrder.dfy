/** Go's byte-wise string order and `sort.Strings`, which every generator in the
    repository uses to turn a randomly iterated map into one fixed order. */
module StringOrder {

  predicate Less(a: string, b: string) {
    b != "" && (a == "" || a[0] < b[0] || (a[0] == b[0] && Less(a[1..], b[1..])))
  }

  predicate Leq(a: string, b: string) {
    a == b || Less(a, b)
  }

  lemma {:induction false} LessIrreflexive(a: string)
    ensures !Less(a, a)
  {
    if a != "" { LessIrreflexive(a[1..]); }
  }

  lemma {:induction false} LessTransitive(a: string, b: string, c: string)
    requires Less(a, b) && Less(b, c)
    ensures Less(a, c)
  {
    if a != "" && a[0] == b[0] == c[0] { LessTransitive(a[1..], b[1..], c[1..]); }
  }

  lemma {:induction false} LessTotal(a: string, b: string)
    ensures a == b || Less(a, b) || Less(b, a)
  {
    if a != "" && b != "" && a[0] == b[0] {
      LessTotal(a[1..], b[1..]);
      assert a == [a[0]] + a[1..] && b == [b[0]] + b[1..];
    }
  }

  lemma LessAsymmetric(a: string, b: string)
    requires Less(a, b)
    ensures !Less(b, a)
  {
    if Less(b, a) {
      LessTransitive(a, b, a);
      LessIrreflexive(a);
    }
  }

  lemma SameHead(a: string, b: string, n: nat)
    requires n <= |a| && n <= |b| && a[..n] == b[..n]
    ensures n > 0 ==> a[0] == b[0]
  {
    if n > 0 { assert a[..n][0] == a[0] && b[..n][0] == b[0]; }
  }

  /** Byte-wise order: a proper prefix comes first, else the first difference decides. */
  lemma {:induction false} LessExactly(a: string, b: string)
    ensures Less(a, b) <==>
      exists n: nat :: n <= |a| && n < |b| && a[..n] == b[..n] && (n == |a| || a[n] < b[n])
  {
    if a != "" && b != "" && a[0] == b[0] {
      LessExactly(a[1..], b[1..]);
      if n: nat :| n <= |a[1..]| && n < |b[1..]| && a[1..][..n] == b[1..][..n] && (n == |a[1..]| || a[1..][n] < b[1..][n]) {
        assert a[..n + 1] == [a[0]] + a[1..][..n] && b[..n + 1] == [b[0]] + b[1..][..n];
      }
      if n: nat :| n <= |a| && n < |b| && a[..n] == b[..n] && (n == |a| || a[n] < b[n]) {
        assert n > 0;
        assert a[1..][..n - 1] == a[..n][1..] && b[1..][..n - 1] == b[..n][1..];
      }
    } else if a != "" && b != "" {
      forall n: nat | n <= |a| && n <= |b| && a[..n] == b[..n] ensures n == 0 { SameHead(a, b, n); }
      assert a[..0] == b[..0];
    } else {
      assert a == "" ==> a[..0] == b[..0];
    }
  }

  ghost predicate Ascending(xs: seq<string>) {
    forall i, j :: 0 <= i < j < |xs| ==> Leq(xs[i], xs[j])
  }

  function Insert(x: string, xs: seq<string>): seq<string> {
    if xs == [] || Leq(x, xs[0]) then [x] + xs else [xs[0]] + Insert(x, xs[1..])
  }

  lemma {:induction false} InsertAdds(x: string, xs: seq<string>)
    ensures multiset(Insert(x, xs)) == multiset(xs) + multiset{x}
  {
    if xs != [] && !Leq(x, xs[0]) {
      InsertAdds(x, xs[1..]);
      assert xs == [xs[0]] + xs[1..];
    }
  }

  lemma {:induction false} InsertAscending(x: string, xs: seq<string>)
    requires Ascending(xs)
    ensures Ascending(Insert(x, xs))
  {
    var r := Insert(x, xs);
    if xs == [] {
    } else if Leq(x, xs[0]) {
      forall j | 0 <= j < |xs| ensures Leq(x, xs[j]) {
        if x != xs[0] && xs[0] != xs[j] { LessTransitive(x, xs[0], xs[j]); }
      }
    } else {
      LessTotal(x, xs[0]);
      InsertAscending(x, xs[1..]);
      InsertAdds(x, xs[1..]);
      var rest := Insert(x, xs[1..]);
      forall j | 0 <= j < |rest| ensures Leq(xs[0], rest[j]) {
        assert rest[j] in multiset(rest);
        if rest[j] != x {
          assert rest[j] in multiset(xs[1..]);
          assert rest[j] in xs[1..];
        }
      }
    }
  }

  /** `sort.Strings`. */
  function Sort(xs: seq<string>): seq<string> {
    if xs == [] then [] else Insert(xs[0], Sort(xs[1..]))
  }

  lemma {:induction false} SortSorts(xs: seq<string>)
    ensures Ascending(Sort(xs))
    ensures multiset(Sort(xs)) == multiset(xs)
    ensures |Sort(xs)| == |xs|
  {
    if xs != [] {
      SortSorts(xs[1..]);
      InsertAscending(xs[0], Sort(xs[1..]));
      InsertAdds(xs[0], Sort(xs[1..]));
      assert xs == [xs[0]] + xs[1..];
    }
    SameLength(Sort(xs), xs);
  }

  lemma SameLength(xs: seq<string>, ys: seq<string>)
    requires multiset(xs) == multiset(ys)
    ensures |xs| == |ys|
  {
    assert |xs| == |multiset(xs)| == |multiset(ys)| == |ys|;
  }

  /** Two ascending lists with the same elements are the same list. */
  lemma {:induction false} AscendingUnique(xs: seq<string>, ys: seq<string>)
    requires Ascending(xs) && Ascending(ys) && multiset(xs) == multiset(ys)
    ensures xs == ys
  {
    assert |xs| == |multiset(xs)| == |multiset(ys)| == |ys|;
    if xs != [] {
      assert xs[0] in multiset(ys) && ys[0] in multiset(xs);
      assert Leq(ys[0], xs[0]) && Leq(xs[0], ys[0]);
      if xs[0] != ys[0] { LessAsymmetric(xs[0], ys[0]); }
      assert xs == [xs[0]] + xs[1..] && ys == [ys[0]] + ys[1..];
      assert multiset(xs[1..]) == multiset(xs) - multiset{xs[0]};
      AscendingUnique(xs[1..], ys[1..]);
    }
  }

  /** The order in which a list was collected does not reach its sorted form. */
  lemma SortIgnoresOrder(xs: seq<string>, ys: seq<string>)
    requires multiset(xs) == multiset(ys)
    ensures Sort(xs) == Sort(ys)
  {
    SortSorts(xs);
    SortSorts(ys);
    AscendingUnique(Sort(xs), Sort(ys));
  }

  /** The keys of a map in ascending order, each once. */
  ghost function SortedKeys(keys: set<string>): seq<string> {
    if keys == {} then []
    else
      var k :| k in keys;
      Insert(k, SortedKeys(keys - {k}))
  }

  lemma {:induction false} SortedKeysSorted(keys: set<string>)
    ensures Ascending(SortedKeys(keys))
    ensures multiset(SortedKeys(keys)) == multiset(keys)
    ensures |SortedKeys(keys)| == |keys|
  {
    if keys != {} {
      var k :| k in keys && SortedKeys(keys) == Insert(k, SortedKeys(keys - {k}));
      SortedKeysSorted(keys - {k});
      InsertAscending(k, SortedKeys(keys - {k}));
      InsertAdds(k, SortedKeys(keys - {k}));
    }
    assert |SortedKeys(keys)| == |multiset(SortedKeys(keys))| == |multiset(keys)| == |keys|;
  }

  lemma EveryKeyListed(keys: set<string>, k: string)
    ensures k in SortedKeys(keys) <==> k in keys
  {
    SortedKeysSorted(keys);
    assert k in keys <==> k in multiset(SortedKeys(keys));
  }

  lemma OnlyKeysListed(keys: set<string>)
    ensures forall i :: 0 <= i < |SortedKeys(keys)| ==> SortedKeys(keys)[i] in keys
  {
    forall i | 0 <= i < |SortedKeys(keys)| ensures SortedKeys(keys)[i] in keys {
      EveryKeyListed(keys, SortedKeys(keys)[i]);
    }
  }

  /** Go iterates a map in some order; nothing may depend on which. */
  method AnyOrder(keys: set<string>) returns (order: seq<string>)
    ensures multiset(order) == multiset(keys)
    ensures forall i :: 0 <= i < |order| ==> order[i] in keys
  {
    var todo := keys;
    order := [];
    while todo != {}
      invariant todo <= keys
      invariant multiset(order) == multiset(keys - todo)
      invariant forall i :: 0 <= i < |order| ==> order[i] in keys
    {
      var k :| k in todo;
      assert keys - (todo - {k}) == (keys - todo) + {k};
      order, todo := order + [k], todo - {k};
    }
    assert keys - todo == keys;
  }

  /** Collecting the keys of a map in any iteration order and sorting them
      always gives `SortedKeys`. */
  method CollectSorted(keys: set<string>) returns (r: seq<string>)
    ensures r == SortedKeys(keys)
  {
    r := AnyOrder(keys);
    SortSorts(r);
    SortedKeysSorted(keys);
    r := Sort(r);
    AscendingUnique(r, SortedKeys(keys));
  }

  ghost function Values<V>(m: map<string, V>, keys: seq<string>): (r: seq<V>)
    requires forall i :: 0 <= i < |keys| ==> keys[i] in m
    ensures |r| == |keys|
    ensures forall i :: 0 <= i < |keys| ==> r[i] == m[keys[i]]
  {
    seq(|keys|, i requires 0 <= i < |keys| => m[keys[i]])
  }

  /** The values of a map in ascending key order. */
  ghost function SortedValues<V>(m: map<string, V>): seq<V> {
    OnlyKeysListed(m.Keys);
    Values(m, SortedKeys(m.Keys))
  }

  method CollectValues<V>(m: map<string, V>) returns (values: seq<V>)
    ensures values == SortedValues(m)
  {
    var keys := CollectSorted(m.Keys);
    OnlyKeysListed(m.Keys);
    values := [];
    for i := 0 to |keys|
      invariant |values| == i && forall j :: 0 <= j < i ==> values[j] == m[keys[j]]
    {
      values := values + [m[keys[i]]];
    }
  }

  lemma ValuesExact<V>(m: map<string, V>, sel: V -> bool)
    ensures (exists i :: 0 <= i < |SortedValues(m)| && sel(SortedValues(m)[i])) <==> (exists k :: k in m && sel(m[k]))
  {
    var keys, values := SortedKeys(m.Keys), SortedValues(m);
    OnlyKeysListed(m.Keys);
    if k :| k in m && sel(m[k]) {
      EveryKeyListed(m.Keys, k);
      var i :| 0 <= i < |keys| && keys[i] == k;
      assert sel(values[i]);
    }
    if i :| 0 <= i < |values| && sel(values[i]) {
      assert sel(m[keys[i]]);
    }
  }

  /** Totals over the keys of a map. */
  ghost function Sum(xs: seq<string>, f: string -> nat): nat {
    if xs == [] then 0 else Sum(xs[..|xs| - 1], f) + f(xs[|xs| - 1])
  }

  lemma {:induction false} SumRemove(xs: seq<string>, i: nat, f: string -> nat)
    requires i < |xs|
    ensures Sum(xs, f) == Sum(xs[..i] + xs[i + 1..], f) + f(xs[i])
  {
    var last := |xs| - 1;
    var without := xs[..i] + xs[i + 1..];
    if i < last {
      SumRemove(xs[..last], i, f);
      assert without[..|without| - 1] == xs[..last][..i] + xs[..last][i + 1..];
    } else {
      assert without == xs[..last];
    }
  }

  /** A total does not depend on the order the map was iterated in. */
  lemma {:induction false} SumIgnoresOrder(xs: seq<string>, ys: seq<string>, f: string -> nat)
    requires multiset(xs) == multiset(ys)
    ensures Sum(xs, f) == Sum(ys, f)
    decreases |xs|
  {
    assert |xs| == |multiset(xs)| == |multiset(ys)| == |ys|;
    if xs != [] {
      var last := |xs| - 1;
      var x := xs[last];
      assert xs == xs[..last] + [x];
      assert x in multiset(ys);
      var i :| 0 <= i < |ys| && ys[i] == x;
      assert ys == ys[..i] + [x] + ys[i + 1..];
      assert multiset(ys[..i] + ys[i + 1..]) == multiset(ys) - multiset{x};
      SumIgnoresOrder(xs[..last], ys[..i] + ys[i + 1..], f);
      SumRemove(ys, i, f);
    }
  }
}
