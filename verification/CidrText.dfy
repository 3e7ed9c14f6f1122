/** Addresses, prefixes and keys as texts: what the parsers read is exactly what
    the canonical printers write. */
module CidrText {
  import opened Wrappers
  import opened Cidr

  // --- pieces ----------------------------------------------------------------

  lemma {:induction false} SplitWhole(s: string, sep: char)
    requires sep !in s
    ensures Split(s, sep) == [s]
  {
    if s != "" {
      SplitWhole(s[1..], sep);
      assert [s[0]] + s[1..] == s;
    }
  }

  lemma {:induction false} SplitFirst(s: string, sep: char, rest: string)
    requires sep !in s
    ensures Split(s + [sep] + rest, sep) == [s] + Split(rest, sep)
  {
    var text := s + [sep] + rest;
    if s == "" {
      assert text[1..] == rest;
    } else {
      SplitFirst(s[1..], sep, rest);
      assert text[1..] == s[1..] + [sep] + rest;
      assert [s[0]] + s[1..] == s;
    }
  }

  function Joined(pieces: seq<string>, sep: char): string {
    if pieces == [] then "" else if |pieces| == 1 then pieces[0] else pieces[0] + [sep] + Joined(pieces[1..], sep)
  }

  /** Splitting and joining are inverse, and no piece holds the separator. */
  lemma {:induction false} SplitJoined(s: string, sep: char)
    ensures Joined(Split(s, sep), sep) == s
    ensures forall i :: 0 <= i < |Split(s, sep)| ==> sep !in Split(s, sep)[i]
  {
    if s != "" {
      var rest := Split(s[1..], sep);
      SplitJoined(s[1..], sep);
      assert s == [s[0]] + s[1..];
      if s[0] == sep {
        assert ([""] + rest)[1..] == rest;
      } else {
        var pieces := [[s[0]] + rest[0]] + rest[1..];
        assert pieces[1..] == rest[1..];
        assert forall i :: 0 < i < |pieces| ==> pieces[i] == rest[i];
      }
    }
  }

  // --- numbers ---------------------------------------------------------------

  function Digit(d: nat): char
    requires d < 10
  {
    ('0' as int + d) as char
  }

  /** A number in decimal, without leading zeros. */
  function Show(n: nat): string {
    if n < 10 then [Digit(n)] else Show(n / 10) + [Digit(n % 10)]
  }

  lemma {:induction false} ShowIsDecimal(n: nat)
    ensures AllDigits(Show(n)) && Decimal(Show(n)) == n
    ensures |Show(n)| > 1 ==> Show(n)[0] != '0'
  {
    if n < 10 {
      assert [Digit(n)][..0] == "";
    } else {
      ShowIsDecimal(n / 10);
      var text := Show(n);
      assert text[..|text| - 1] == Show(n / 10);
      assert n / 10 < 10 ==> Show(n / 10) == [Digit(n / 10)];
    }
  }

  lemma {:induction false} DecimalIsPositive(s: string)
    requires AllDigits(s) && s[0] != '0'
    ensures Decimal(s) > 0
  {
    if |s| > 1 {
      DecimalIsPositive(s[..|s| - 1]);
    } else {
      assert s[..0] == "";
    }
  }

  lemma {:induction false} DecimalIsShown(s: string)
    requires AllDigits(s) && (|s| > 1 ==> s[0] != '0')
    ensures Show(Decimal(s)) == s
  {
    var last := |s| - 1;
    var d := s[last] as int - '0' as int;
    assert s == s[..last] + [s[last]] && Digit(d) == s[last];
    if last == 0 {
      assert s[..0] == "";
    } else {
      DecimalIsShown(s[..last]);
      DecimalIsPositive(s[..last]);
      assert Decimal(s) / 10 == Decimal(s[..last]) && Decimal(s) % 10 == d;
    }
  }

  /** A field is read exactly when it is the canonical text of a number up to the limit. */
  lemma FieldExactly(s: string, limit: nat, n: nat)
    ensures ParseField(s, limit) == Some(n) <==> n <= limit && s == Show(n)
  {
    ShowIsDecimal(n);
    if ParseField(s, limit) == Some(n) { DecimalIsShown(s); }
  }

  lemma ShownHas(n: nat, c: char)
    requires !IsDigit(c)
    ensures c !in Show(n)
  {
    ShowIsDecimal(n);
  }

  // --- addresses and prefixes ------------------------------------------------

  function ShowAddress(a: Address): string {
    Show(a / 0x100_0000) + "." + Show(a / 0x1_0000 % 256) + "." + Show(a / 256 % 256) + "." + Show(a % 256)
  }

  function Dotted(a: string, b: string, c: string, d: string): string { a + "." + b + "." + c + "." + d }

  lemma SplitDotted(a: string, b: string, c: string, d: string)
    requires '.' !in a && '.' !in b && '.' !in c && '.' !in d
    ensures Split(Dotted(a, b, c, d), '.') == [a, b, c, d]
  {
    SplitWhole(d, '.');
    SplitFirst(c, '.', d);
    SplitFirst(b, '.', c + ['.'] + d);
    SplitFirst(a, '.', b + ['.'] + (c + ['.'] + d));
    assert Dotted(a, b, c, d) == a + ['.'] + (b + ['.'] + (c + ['.'] + d));
  }

  lemma JoinedFour(pieces: seq<string>)
    requires |pieces| == 4
    ensures Joined(pieces, '.') == Dotted(pieces[0], pieces[1], pieces[2], pieces[3])
  {
    assert pieces[1..][1..] == pieces[2..] && pieces[2..][1..] == pieces[3..];
    assert Joined(pieces[3..], '.') == pieces[3];
    assert Joined(pieces[2..], '.') == pieces[2] + "." + pieces[3];
    assert Joined(pieces[1..], '.') == pieces[1] + "." + (pieces[2] + "." + pieces[3]);
  }

  /** Four numbers below 256 are one address, most significant first. */
  lemma AddressFields(a: nat, b: nat, c: nat, d: nat)
    requires a <= 255 && b <= 255 && c <= 255 && d <= 255
    ensures var x := ((a * 256 + b) * 256 + c) * 256 + d;
            x < 0x1_0000_0000 && x / 0x100_0000 == a && x / 0x1_0000 % 256 == b && x / 256 % 256 == c && x % 256 == d
  {
  }

  lemma AddressRebuilt(x: Address)
    ensures x == ((x / 0x100_0000 * 256 + x / 0x1_0000 % 256) * 256 + x / 256 % 256) * 256 + x % 256
    ensures x / 0x100_0000 <= 255
  {
  }

  lemma ShownAddressIsRead(x: Address)
    ensures ParseAddress4(ShowAddress(x)) == Some(x)
  {
    var a, b, c, d := x / 0x100_0000, x / 0x1_0000 % 256, x / 256 % 256, x % 256;
    AddressRebuilt(x);
    ShownHas(a, '.');
    ShownHas(b, '.');
    ShownHas(c, '.');
    ShownHas(d, '.');
    SplitDotted(Show(a), Show(b), Show(c), Show(d));
    FieldExactly(Show(a), 255, a);
    FieldExactly(Show(b), 255, b);
    FieldExactly(Show(c), 255, c);
    FieldExactly(Show(d), 255, d);
  }

  lemma ReadAddressIsShown(s: string, x: Address)
    requires ParseAddress4(s) == Some(x)
    ensures s == ShowAddress(x)
  {
    var fields := Split(s, '.');
    SplitJoined(s, '.');
    JoinedFour(fields);
    var p, q, r, t := ParseField(fields[0], 255).value, ParseField(fields[1], 255).value,
      ParseField(fields[2], 255).value, ParseField(fields[3], 255).value;
    FieldExactly(fields[0], 255, p);
    FieldExactly(fields[1], 255, q);
    FieldExactly(fields[2], 255, r);
    FieldExactly(fields[3], 255, t);
    AddressFields(p, q, r, t);
  }

  /** Dotted decimal, read exactly as written. */
  lemma AddressExactly(s: string, x: Address)
    ensures ParseAddress4(s) == Some(x) <==> s == ShowAddress(x)
  {
    ShownAddressIsRead(x);
    if ParseAddress4(s) == Some(x) { ReadAddressIsShown(s, x); }
  }

  lemma SplitTwo(a: string, b: string, sep: char)
    requires sep !in a && sep !in b
    ensures Split(a + [sep] + b, sep) == [a, b]
  {
    SplitFirst(a, sep, b);
    SplitWhole(b, sep);
  }

  lemma JoinedTwo(pieces: seq<string>, sep: char)
    requires |pieces| == 2
    ensures Joined(pieces, sep) == pieces[0] + [sep] + pieces[1]
  {
    assert Joined(pieces[1..], sep) == pieces[1];
  }

  lemma AddressHasNoSlash(x: Address)
    ensures '/' !in ShowAddress(x)
  {
    ShownHas(x / 0x100_0000, '/');
    ShownHas(x / 0x1_0000 % 256, '/');
    ShownHas(x / 256 % 256, '/');
    ShownHas(x % 256, '/');
  }

  /** Address, slash, length up to 32, read exactly as written. */
  lemma PrefixExactly(s: string, p: Prefix)
    ensures ParsePrefix4(s) == Some(p) <==> s == ShowAddress(p.addr) + "/" + Show(p.bits)
  {
    if s == ShowAddress(p.addr) + "/" + Show(p.bits) {
      AddressHasNoSlash(p.addr);
      ShownHas(p.bits, '/');
      SplitTwo(ShowAddress(p.addr), Show(p.bits), '/');
      AddressExactly(ShowAddress(p.addr), p.addr);
      FieldExactly(Show(p.bits), 32, p.bits);
    }
    if ParsePrefix4(s) == Some(p) {
      var halves := Split(s, '/');
      SplitJoined(s, '/');
      JoinedTwo(halves, '/');
      AddressExactly(halves[0], p.addr);
      FieldExactly(halves[1], 32, p.bits);
    }
  }
}
