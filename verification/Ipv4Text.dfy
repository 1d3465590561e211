/** The textual form in which destinations and next hops travel: dotted decimal
    addresses, with "/prefix" for networks. */
module Ipv4Text {
  import opened Options
  import opened Ipv4

  predicate IsDigit(c: char) {
    '0' <= c <= '9'
  }

  predicate AllDigits(s: string) {
    forall i :: 0 <= i < |s| ==> IsDigit(s[i])
  }

  function DigitValue(c: char): nat
    requires IsDigit(c)
  {
    c as nat - '0' as nat
  }

  function NumberValue(s: string): nat
    requires AllDigits(s)
  {
    if s == [] then 0 else 10 * NumberValue(s[..|s| - 1]) + DigitValue(s[|s| - 1])
  }

  function PrintNumber(n: nat): string {
    (if n < 10 then [] else PrintNumber(n / 10)) + [('0' as nat + n % 10) as char]
  }

  /** Decimal printing: digits only, no leading zero, and the value reads back. */
  lemma {:induction false} PrintNumberReadsBack(n: nat)
    ensures PrintNumber(n) != [] && AllDigits(PrintNumber(n))
    ensures NumberValue(PrintNumber(n)) == n
    ensures |PrintNumber(n)| > 1 ==> PrintNumber(n)[0] != '0'
    ensures |PrintNumber(n)| == 1 <==> n < 10
    ensures n < 100 ==> |PrintNumber(n)| <= 2
    ensures n < 1000 ==> |PrintNumber(n)| <= 3
    ensures n > 0 ==> PrintNumber(n)[0] != '0'
  {
    var s := PrintNumber(n);
    var front := if n < 10 then [] else PrintNumber(n / 10);
    if n >= 10 {
      PrintNumberReadsBack(n / 10);
    }
    assert s[..|s| - 1] == front;
  }

  /** The pieces of s between the occurrences of c. */
  function Split(s: string, c: char): (parts: seq<string>)
    ensures |parts| > 0
  {
    if s == [] then [[]]
    else
      var rest := Split(s[1..], c);
      if s[0] == c then [[]] + rest else [[s[0]] + rest[0]] + rest[1..]
  }

  lemma {:induction false} SplitAtSeparator(a: string, c: char, b: string)
    requires c !in a
    ensures Split(a, c) == [a]
    ensures Split(a + [c] + b, c) == [a] + Split(b, c)
  {
    var s := a + [c] + b;
    if a == [] {
      assert s[1..] == b;
    } else {
      assert s[1..] == a[1..] + [c] + b;
      SplitAtSeparator(a[1..], c, b);
      assert [a[0]] + a[1..] == a;
    }
  }

  /** One octet: one to three digits, no leading zero, at most 255. */
  function ParseOctet(s: string): Option<nat> {
    if 1 <= |s| <= 3 && AllDigits(s) && (|s| > 1 ==> s[0] != '0') && NumberValue(s) <= 255
    then Some(NumberValue(s)) else None
  }

  function PrintAddr(a: Addr): string {
    PrintNumber(a / 0x100_0000) + ['.'] + (PrintNumber(a / 0x1_0000 % 0x100) + ['.']
    + (PrintNumber(a / 0x100 % 0x100) + ['.'] + PrintNumber(a % 0x100)))
  }

  function ParseAddr(s: string): Option<Addr> {
    var parts := Split(s, '.');
    if |parts| == 4
       && ParseOctet(parts[0]).Some? && ParseOctet(parts[1]).Some?
       && ParseOctet(parts[2]).Some? && ParseOctet(parts[3]).Some?
    then Some(((ParseOctet(parts[0]).value * 0x100 + ParseOctet(parts[1]).value) * 0x100
               + ParseOctet(parts[2]).value) * 0x100 + ParseOctet(parts[3]).value)
    else None
  }

  /** A prefix length: decimal digits with an optional plus sign, at most 32. */
  function ParsePrefixLength(s: string): Option<Prefix> {
    var t := if s != [] && s[0] == '+' then s[1..] else s;
    if t != [] && AllDigits(t) && NumberValue(t) <= 32 then Some(NumberValue(t)) else None
  }

  lemma SplitFourParts(p: string, q: string, r: string, t: string, c: char)
    requires c !in p && c !in q && c !in r && c !in t
    ensures Split(p + [c] + (q + [c] + (r + [c] + t)), c) == [p, q, r, t]
  {
    SplitAtSeparator(p, c, q + [c] + (r + [c] + t));
    SplitAtSeparator(q, c, r + [c] + t);
    SplitAtSeparator(r, c, t);
    SplitAtSeparator(t, c, []);
  }

  /** s is the text of n as an octet or prefix length is printed. */
  ghost predicate IsNumberText(s: string, n: nat) {
    && '.' !in s && '/' !in s
    && (n <= 255 ==> ParseOctet(s) == Some(n))
    && (n <= 32 ==> ParsePrefixLength(s) == Some(n))
  }

  lemma NumberTextParses(s: string, n: nat)
    requires s != [] && AllDigits(s) && NumberValue(s) == n
    requires |s| > 1 ==> s[0] != '0'
    requires n < 1000 ==> |s| <= 3
    ensures IsNumberText(s, n)
  {
    forall i | 0 <= i < |s|
      ensures s[i] != '.' && s[i] != '/' && s[i] != '+'
    {
      assert IsDigit(s[i]);
    }
  }

  lemma PrintedNumber(n: nat)
    ensures IsNumberText(PrintNumber(n), n)
  {
    PrintNumberReadsBack(n);
    NumberTextParses(PrintNumber(n), n);
  }

  lemma FourOctetsParse(p: string, q: string, r: string, t: string, o0: nat, o1: nat, o2: nat, o3: nat)
    requires o0 <= 255 && o1 <= 255 && o2 <= 255 && o3 <= 255
    requires IsNumberText(p, o0) && IsNumberText(q, o1) && IsNumberText(r, o2) && IsNumberText(t, o3)
    ensures ParseAddr(p + ['.'] + (q + ['.'] + (r + ['.'] + t))) == Some(((o0 * 0x100 + o1) * 0x100 + o2) * 0x100 + o3)
  {
    SplitFourParts(p, q, r, t, '.');
  }

  lemma OctetsCompose(a: Addr, o0: nat, o1: nat, o2: nat, o3: nat)
    requires o0 == a / 0x100_0000 && o1 == a / 0x1_0000 % 0x100 && o2 == a / 0x100 % 0x100 && o3 == a % 0x100
    ensures o0 <= 255 && ((o0 * 0x100 + o1) * 0x100 + o2) * 0x100 + o3 == a
  {
    var h := a / 0x100;
    var g := h / 0x100;
    assert g == a / 0x1_0000 && g / 0x100 == o0;
  }

  lemma AddrRoundTrip(a: Addr)
    ensures ParseAddr(PrintAddr(a)) == Some(a)
  {
    hide PrintNumber, ParseAddr, IsNumberText;
    var o0, o1, o2, o3 := a / 0x100_0000, a / 0x1_0000 % 0x100, a / 0x100 % 0x100, a % 0x100;
    OctetsCompose(a, o0, o1, o2, o3);
    PrintedNumber(o0);
    PrintedNumber(o1);
    PrintedNumber(o2);
    PrintedNumber(o3);
    FourOctetsParse(PrintNumber(o0), PrintNumber(o1), PrintNumber(o2), PrintNumber(o3), o0, o1, o2, o3);
  }

  // ----- nothing else parses

  lemma DigitPrintsBack(c: char)
    requires IsDigit(c)
    ensures DigitValue(c) < 10 && ('0' as nat + DigitValue(c)) as char == c
  {
  }

  lemma PrintTenMore(front: nat, digit: nat)
    requires digit < 10 && front > 0
    ensures PrintNumber(10 * front + digit) == PrintNumber(front) + [('0' as nat + digit) as char]
  {
    var n := 10 * front + digit;
    assert n / 10 == front && n % 10 == digit;
  }

  lemma ValueOfLast(s: string)
    requires s != [] && AllDigits(s)
    ensures IsDigit(s[|s| - 1]) && NumberValue(s) == 10 * NumberValue(s[..|s| - 1]) + DigitValue(s[|s| - 1])
    ensures |s| == 1 ==> NumberValue(s) == DigitValue(s[0])
  {
  }

  lemma PrintDigit(digit: nat)
    requires digit < 10
    ensures PrintNumber(digit) == [('0' as nat + digit) as char]
  {
  }

  lemma {:induction false} ReadNumberPrintsBack(s: string)
    requires s != [] && AllDigits(s) && (|s| > 1 ==> s[0] != '0')
    ensures PrintNumber(NumberValue(s)) == s
  {
    hide PrintNumber, NumberValue, DigitValue;
    var front, last := s[..|s| - 1], s[|s| - 1];
    ValueOfLast(s);
    DigitPrintsBack(last);
    if |s| == 1 {
      PrintDigit(DigitValue(last));
      assert s == [last];
    } else {
      LeadingDigit(front);
      ReadNumberPrintsBack(front);
      PrintTenMore(NumberValue(front), DigitValue(last));
      assert s == front + [last];
    }
  }

  lemma {:induction false} LeadingDigit(s: string)
    requires s != [] && AllDigits(s) && s[0] != '0'
    ensures NumberValue(s) > 0
  {
    if |s| > 1 {
      LeadingDigit(s[..|s| - 1]);
    } else {
      assert IsDigit(s[0]) && NumberValue(s[..0]) == 0;
    }
  }

  function Join(parts: seq<string>, c: char): string
    requires parts != []
  {
    if |parts| == 1 then parts[0] else parts[0] + [c] + Join(parts[1..], c)
  }

  lemma {:induction false} SplitJoins(s: string, c: char)
    ensures Join(Split(s, c), c) == s
  {
    if s != [] {
      SplitJoins(s[1..], c);
      var rest := Split(s[1..], c);
      if s[0] == c {
        assert ([[]] + rest)[1..] == rest;
      } else {
        assert ([[s[0]] + rest[0]] + rest[1..])[1..] == rest[1..];
      }
    }
  }

  lemma OctetsApart(o0: nat, o1: nat, o2: nat, o3: nat)
    requires o0 <= 255 && o1 <= 255 && o2 <= 255 && o3 <= 255
    ensures var a := ((o0 * 0x100 + o1) * 0x100 + o2) * 0x100 + o3;
      o0 == a / 0x100_0000 && o1 == a / 0x1_0000 % 0x100 && o2 == a / 0x100 % 0x100 && o3 == a % 0x100
  {
    var a := ((o0 * 0x100 + o1) * 0x100 + o2) * 0x100 + o3;
    assert a / 0x100 == (o0 * 0x100 + o1) * 0x100 + o2;
    assert a / 0x1_0000 == o0 * 0x100 + o1;
  }

  lemma OctetText(s: string)
    requires ParseOctet(s).Some?
    ensures s == PrintNumber(ParseOctet(s).value) && ParseOctet(s).value <= 255
  {
    ReadNumberPrintsBack(s);
  }

  lemma OctetTexts(parts: seq<string>, a: Addr)
    requires |parts| == 4 && forall i :: 0 <= i < 4 ==> ParseOctet(parts[i]).Some?
    requires a == ((ParseOctet(parts[0]).value * 0x100 + ParseOctet(parts[1]).value) * 0x100
                   + ParseOctet(parts[2]).value) * 0x100 + ParseOctet(parts[3]).value
    ensures PrintAddr(a) == parts[0] + ['.'] + (parts[1] + ['.'] + (parts[2] + ['.'] + parts[3]))
  {
    hide PrintNumber, ParseOctet;
    OctetText(parts[0]);
    OctetText(parts[1]);
    OctetText(parts[2]);
    OctetText(parts[3]);
    OctetsApart(ParseOctet(parts[0]).value, ParseOctet(parts[1]).value, ParseOctet(parts[2]).value,
                ParseOctet(parts[3]).value);
  }

  /** A text is read as an address exactly if it is that address, printed. */
  lemma AddrTextIsExact(s: string, a: Addr)
    ensures ParseAddr(s) == Some(a) <==> s == PrintAddr(a)
  {
    hide PrintAddr, ParseOctet, Split, Join;
    AddrRoundTrip(a);
    if ParseAddr(s) == Some(a) {
      SplitJoins(s, '.');
      JoinFour(Split(s, '.'), '.');
      OctetTexts(Split(s, '.'), a);
    }
  }

  lemma JoinFour(parts: seq<string>, c: char)
    requires |parts| == 4
    ensures Join(parts, c) == parts[0] + [c] + (parts[1] + [c] + (parts[2] + [c] + parts[3]))
  {
    assert parts[1..][1..] == parts[2..] && parts[2..][1..] == parts[3..];
    assert Join(parts[2..], c) == parts[2] + [c] + Join(parts[3..], c);
    assert Join(parts[1..], c) == parts[1] + [c] + Join(parts[2..], c);
  }

  // ----- networks

  /** The prefix length of a netmask, searched from p on. */
  function NetmaskLength(mask: Addr, p: Prefix): Option<Prefix>
    decreases 32 - p
  {
    if mask + Pow2(32 - p) == 0x1_0000_0000 then Some(p)
    else if p == 32 then None
    else NetmaskLength(mask, p + 1)
  }

  function PrintNetwork(n: Ipv4Network): string {
    PrintAddr(n.ip) + ['/'] + PrintNumber(n.prefix)
  }

  function ParseNetwork(s: string): Option<Ipv4Network> {
    var parts := Split(s, '/');
    if |parts| > 2 || ParseAddr(parts[0]).None? then None
    else if |parts| == 1 then Some(Net(ParseAddr(parts[0]).value, 32))
    else
      var length := match ParseAddr(parts[1])
        case Some(mask) => NetmaskLength(mask, 0)
        case None => ParsePrefixLength(parts[1]);
      if length.Some? then Some(Net(ParseAddr(parts[0]).value, length.value)) else None
  }

  lemma {:induction false} Pow2Grows(j: nat, k: nat)
    requires j < k
    ensures Pow2(j) < Pow2(k)
  {
    if j < k - 1 {
      Pow2Grows(j, k - 1);
    }
  }

  /** The mask consists of p ones followed by zeros. */
  ghost predicate IsNetmask(mask: Addr, p: Prefix) {
    mask + Pow2(32 - p) == 0x1_0000_0000
  }

  lemma {:induction false} NetmaskIsExact(mask: Addr, p: Prefix, q: Prefix)
    requires forall i: Prefix :: i < p ==> !IsNetmask(mask, i)
    ensures NetmaskLength(mask, p) == Some(q) <==> IsNetmask(mask, q)
    decreases 32 - p
  {
    if IsNetmask(mask, p) {
      if q < p {
        Pow2Grows(32 - p, 32 - q);
      } else if p < q {
        Pow2Grows(32 - q, 32 - p);
      }
    } else if p < 32 {
      NetmaskIsExact(mask, p + 1, q);
    }
  }

  ghost predicate NumberText(t: string, p: Prefix) {
    t != [] && AllDigits(t) && NumberValue(t) == p
  }

  /** t is a netmask of p bits, or else p in decimal digits, with an optional plus sign. */
  ghost predicate LengthText(t: string, p: Prefix) {
    if exists m: Addr :: t == PrintAddr(m) then
      exists m: Addr :: t == PrintAddr(m) && IsNetmask(m, p)
    else
      NumberText(t, p) || (t != [] && t[0] == '+' && NumberText(t[1..], p))
  }

  lemma LengthIsExact(t: string, p: Prefix)
    ensures LengthText(t, p)
      <==> (match ParseAddr(t) case Some(mask) => NetmaskLength(mask, 0) case None => ParsePrefixLength(t)) == Some(p)
  {
    if m: Addr :| t == PrintAddr(m) {
      AddrRoundTrip(m);
      forall m': Addr | t == PrintAddr(m')
        ensures m' == m
      {
        AddrRoundTrip(m');
      }
      NetmaskIsExact(m, 0, p);
    } else {
      if ParseAddr(t).Some? {
        AddrTextIsExact(t, ParseAddr(t).value);
      }
      hide ParseAddr, PrintAddr, NetmaskLength, NumberValue;
      assert t != [] && t[0] == '+' ==> !AllDigits(t);
    }
  }

  lemma {:induction false} PiecesAreWhole(s: string, c: char, k: nat)
    requires k < |Split(s, c)|
    ensures c !in Split(s, c)[k]
  {
    if s != [] {
      var rest := Split(s[1..], c);
      if s[0] == c {
        if k > 0 {
          PiecesAreWhole(s[1..], c, k - 1);
        }
      } else {
        PiecesAreWhole(s[1..], c, k);
      }
    }
  }

  lemma AddrHasNoSlash(a: Addr)
    ensures '/' !in PrintAddr(a)
  {
    PrintedNumber(a / 0x100_0000);
    PrintedNumber(a / 0x1_0000 % 0x100);
    PrintedNumber(a / 0x100 % 0x100);
    PrintedNumber(a % 0x100);
  }

  lemma AddrWithPrefixParses(a: string, p: string, n: Prefix)
    requires '/' !in a && ParseAddr(a).Some?
    requires IsNumberText(p, n)
    ensures ParseNetwork(a + ['/'] + p) == Some(Net(ParseAddr(a).value, n))
  {
    SplitAtSeparator(a, '/', p);
    SplitAtSeparator(p, '/', []);
    SplitAtSeparator(p, '.', []);
  }

  lemma NetworkRoundTrip(n: Ipv4Network)
    ensures ParseNetwork(PrintNetwork(n)) == Some(n)
  {
    AddrHasNoSlash(n.ip);
    AddrRoundTrip(n.ip);
    PrintedNumber(n.prefix);
    AddrWithPrefixParses(PrintAddr(n.ip), PrintNumber(n.prefix), n.prefix);
  }

  lemma {:induction false} SplitConcat(a: string, c: char, b: string)
    ensures |Split(a + [c] + b, c)| == |Split(a, c)| + |Split(b, c)|
  {
    var s := a + [c] + b;
    if a == [] {
      assert s[1..] == b;
    } else {
      assert s[1..] == a[1..] + [c] + b;
      SplitConcat(a[1..], c, b);
    }
  }

  lemma {:induction false} SplitNowhere(s: string, c: char)
    ensures c !in s <==> |Split(s, c)| == 1
    ensures c !in s ==> Split(s, c) == [s]
  {
    if s != [] {
      SplitNowhere(s[1..], c);
      assert s == [s[0]] + s[1..];
    }
  }

  /** With "/32" appended, what is read as a network is exactly an address. */
  lemma HostText(text: string)
    ensures ParseNetwork(text + "/32") == match ParseAddr(text) case Some(a) => Some(Net(a, 32)) case None => None
  {
    assert text + "/32" == text + ['/'] + "32";
    PrintedNumber(32);
    assert PrintNumber(32) == "32";
    SplitNowhere(text, '/');
    SplitConcat(text, '/', "32");
    if '/' in text {
      if ParseAddr(text).Some? {
        AddrTextIsExact(text, ParseAddr(text).value);
        AddrHasNoSlash(ParseAddr(text).value);
      }
    } else {
      SplitAtSeparator(text, '/', "32");
      if ParseAddr(text).Some? {
        AddrWithPrefixParses(text, "32", 32);
      }
    }
  }

  /** A text is read as a network exactly if it is an address alone, which has 32 bits, or an address,
      a slash and a prefix length. */
  lemma NetworkTextIsExact(s: string, n: Ipv4Network)
    ensures ParseNetwork(s) == Some(n)
      <==> (s == PrintAddr(n.ip) && n.prefix == 32)
           || exists t :: '/' !in t && s == PrintAddr(n.ip) + ['/'] + t && LengthText(t, n.prefix)
  {
    var parts, a := Split(s, '/'), PrintAddr(n.ip);
    AddrHasNoSlash(n.ip);
    SplitJoins(s, '/');
    SplitNowhere(s, '/');
    forall k | 0 <= k < |parts|
      ensures '/' !in parts[k]
    {
      PiecesAreWhole(s, '/', k);
    }
    AddrTextIsExact(parts[0], n.ip);
    hide PrintAddr, ParseAddr, LengthText, NetmaskLength, ParsePrefixLength, PrintNumber, Pow2;
    if |parts| == 2 {
      LengthIsExact(parts[1], n.prefix);
      assert s == parts[0] + ['/'] + parts[1];
    }
    if t :| '/' !in t && s == a + ['/'] + t && LengthText(t, n.prefix) {
      SplitAtSeparator(a, '/', t);
      SplitNowhere(t, '/');
      LengthIsExact(t, n.prefix);
    }
  }

  // ----- special addresses

  /** A number text followed by a dot begins with "127." only if it is "127". */
  lemma DottedPrefix(p: string, rest: string)
    requires p != [] && AllDigits(p) && "127." <= p + ['.'] + rest
    ensures p == "127"
  {
    var text := p + ['.'] + rest;
    assert text[|p|] == '.' && forall i :: 0 <= i < |p| ==> text[i] == p[i];
    assert text[0] == '1' && text[1] == '2' && text[2] == '7' && text[3] == '.';
  }

  /** An address is a loopback address exactly if its text begins with "127.". */
  lemma LoopbackText(a: Addr)
    ensures IsLoopback(a) <==> "127." <= PrintAddr(a)
  {
    var x := a / 0x100_0000;
    var p := PrintNumber(x);
    var rest := PrintNumber(a / 0x1_0000 % 0x100) + ['.']
      + (PrintNumber(a / 0x100 % 0x100) + ['.'] + PrintNumber(a % 0x100));
    assert PrintAddr(a) == p + ['.'] + rest;
    PrintNumberReadsBack(x);
    PrintNumberReadsBack(127);
    assert PrintNumber(127) == "127" by {
      assert PrintNumber(12) == "12";
    }
    hide PrintNumber, PrintAddr;
    if "127." <= p + ['.'] + rest {
      DottedPrefix(p, rest);
    }
  }

  lemma UnspecifiedText(a: Addr)
    ensures a == UNSPECIFIED <==> PrintAddr(a) == "0.0.0.0"
  {
    assert PrintAddr(0) == "0.0.0.0";
    AddrTextIsExact(PrintAddr(a), a);
    AddrTextIsExact("0.0.0.0", a);
    AddrRoundTrip(0);
  }

  // ----- masked texts

  /** The network text a receiver stores for an advertised one: parsed, masked, printed. */
  function HostToNetworkRoute(s: string): Option<string> {
    match ParseNetwork(s)
    case Some(n) => Some(PrintNetwork(n.Masked()))
    case None => None
  }

  /** The destination a receiver derives from an advertised text. */
  function Canonical(s: string): Option<Ipv4Network> {
    match HostToNetworkRoute(s)
    case Some(t) => ParseNetwork(t)
    case None => None
  }

  /** Printing and re-parsing in between loses nothing: the result is the masked network. */
  lemma CanonicalIsMasked(s: string)
    ensures Canonical(s) == match ParseNetwork(s) case Some(n) => Some(n.Masked()) case None => None
    ensures Canonical(s).Some? ==> Canonical(s).value.IsMasked()
  {
    match ParseNetwork(s)
    case Some(n) =>
      NetworkRoundTrip(n.Masked());
      MaskingIsCanonical(n);
    case None =>
  }

  /** Two printed networks reach one destination exactly when prefix length and prefix bits agree. */
  lemma CanonicalAgreeIff(n: Ipv4Network, m: Ipv4Network)
    ensures Canonical(PrintNetwork(n)) == Canonical(PrintNetwork(m))
      <==> n.prefix == m.prefix && HighBits(n.ip, 32 - n.prefix) == HighBits(m.ip, 32 - m.prefix)
  {
    NetworkRoundTrip(n);
    NetworkRoundTrip(m);
    CanonicalIsMasked(PrintNetwork(n));
    CanonicalIsMasked(PrintNetwork(m));
    MaskedAgreeIff(n, m);
  }
}
