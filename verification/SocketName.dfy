/** Socket names such as "10.0.0.1:80;src=10.0.0.2;srcport=4000": printing and scanning. */
module SocketName {
  import opened Common

  type Port = x: int | 0 <= x < 0x1_0000 witness 0

  const WRAP := 0x1_0000_0000
  const MAX_NAME := 64

  const ANY := Address(0, 0, 0, 0)

  datatype Arguments = Arguments(remote: Address, remotePort: Port, local: Address, localPort: Port, device: Option<string>)

  /** Freshly initialised arguments. */
  const INITIAL := Arguments(ANY, 0, ANY, 0, None)

  // ---------- numbers ----------

  predicate IsDigit(c: char) { '0' <= c <= '9' }

  function DigitValue(c: char): nat
    requires IsDigit(c)
  {
    (c - '0') as nat
  }

  function DigitChar(d: nat): (c: char)
    requires d < 10
    ensures IsDigit(c) && DigitValue(c) == d
  {
    d as char + '0'
  }

  /** Decimal digits, most significant first, at least one. */
  ghost function Digits(n: nat): (s: string)
    ensures |s| >= 1 && forall i :: 0 <= i < |s| ==> IsDigit(s[i])
  {
    if n < 10 then [DigitChar(n)] else Digits(n / 10) + [DigitChar(n % 10)]
  }

  /** Counts the digits, then writes them from the right. */
  method UintToString(number: nat) returns (s: string)
    ensures s == Digits(number)
  {
    var len, n2: nat := 1, number / 10;
    ghost var total := |Digits(number)|;
    while n2 != 0
      invariant len >= 1 && len + (if n2 == 0 then 0 else |Digits(n2)|) == total
      decreases n2
    {
      len, n2 := len + 1, n2 / 10;
    }
    var str := new char[len](_ => '0');
    n2 := number;
    var i := len;
    while i > 0
      invariant 0 <= i <= len
      invariant i > 0 ==> |Digits(n2)| == i && Digits(number) == Digits(n2) + str[i..]
      invariant i == 0 ==> Digits(number) == str[..]
    {
      i := i - 1;
      ghost var before := str[i + 1..];
      str[i] := DigitChar(n2 % 10);
      assert str[i..] == [DigitChar(n2 % 10)] + before;
      n2 := n2 / 10;
    }
    s := str[..];
  }

  /** Length and 32-bit value of the leading digits, starting from the value u. */
  function ScanU(s: string, u: nat): (r: (nat, nat))
    ensures r.0 <= |s|
  {
    if s == [] || !IsDigit(s[0]) then (0, u)
    else
      var r := ScanU(s[1..], (u * 10 + DigitValue(s[0])) % WRAP);
      (r.0 + 1, r.1)
  }

  method StringToUInt(s: string) returns (count: int, u: nat)
    ensures u == ScanU(s, 0).1 && count == if ScanU(s, 0).0 == 0 then -1 else ScanU(s, 0).0
  {
    var i := 0;
    u := 0;
    assert s[0..] == s;
    while i < |s| && IsDigit(s[i])
      invariant 0 <= i <= |s| && ScanU(s, 0) == (i + ScanU(s[i..], u).0, ScanU(s[i..], u).1)
    {
      assert s[i..][1..] == s[i + 1..];
      u := (u * 10 + DigitValue(s[i])) % WRAP;
      i := i + 1;
    }
    count := if i == 0 then -1 else i;
  }

  lemma ScanStep(c: char, rest: string, u: nat)
    requires IsDigit(c)
    ensures var r := ScanU(rest, (u * 10 + DigitValue(c)) % WRAP); ScanU([c] + rest, u) == (r.0 + 1, r.1)
  {
    assert ([c] + rest)[1..] == rest;
  }

  /** Scanning printed digits continues after them with their value. */
  lemma {:induction false} ScanDigits(n: nat, rest: string)
    requires n < WRAP
    ensures var r := ScanU(rest, n); ScanU(Digits(n) + rest, 0) == (|Digits(n)| + r.0, r.1)
  {
    hide ScanU, DigitValue;
    var d := DigitChar(n % 10);
    DigitOf(n);
    ScanStep(d, rest, n / 10);
    if n < 10 {
      assert Digits(n) + rest == [d] + rest;
    } else {
      ScanDigits(n / 10, [d] + rest);
      assert Digits(n) + rest == Digits(n / 10) + ([d] + rest);
    }
  }

  lemma DigitOf(n: nat)
    requires n < WRAP
    ensures IsDigit(DigitChar(n % 10)) && ((n / 10) * 10 + DigitValue(DigitChar(n % 10))) % WRAP == n
  {
  }

  predicate EndsNumber(rest: string) { rest == [] || !IsDigit(rest[0]) }

  lemma ScanNumber(n: nat, rest: string)
    requires n < WRAP && EndsNumber(rest)
    ensures ScanU(Digits(n) + rest, 0) == (|Digits(n)|, n)
    ensures (Digits(n) + rest)[|Digits(n)|..] == rest && (Digits(n) + rest)[0] == Digits(n)[0]
  {
    ScanDigits(n, rest);
  }

  // ---------- addresses and ports ----------

  ghost function Dotted(a: Address): string {
    Digits(a.b0) + "." + Digits(a.b1) + "." + Digits(a.b2) + "." + Digits(a.b3)
  }

  predicate IsSpace(c: char) {
    c == ' ' || c == '\t' || c == '\n' || c == '\U{0B}' || c == '\U{0C}' || c == '\r'
  }

  function SkipSpace(s: string): string {
    if s != [] && IsSpace(s[0]) then SkipSpace(s[1..]) else s
  }

  /** One number of at most 255 and what follows it. */
  function ScanOctet(s: string): Option<(Byte, string)> {
    var r := ScanU(s, 0);
    if r.0 == 0 || r.1 > 0xff then None else Some((r.1, s[r.0..]))
  }

  function ScanDot(s: string): Option<string> {
    if s == [] || s[0] != '.' then None else Some(s[1..])
  }

  function ScanDotOctet(s: string): Option<(Byte, string)> {
    var t := ScanDot(s);
    if t.None? then None else ScanOctet(t.value)
  }

  function ScanAddress(s: string): Option<(Address, string)> {
    var o0 := ScanOctet(SkipSpace(s));
    if o0.None? then None else
    var o1 := ScanDotOctet(o0.value.1);
    if o1.None? then None else
    var o2 := ScanDotOctet(o1.value.1);
    if o2.None? then None else
    var o3 := ScanDotOctet(o2.value.1);
    if o3.None? then None else Some((Address(o0.value.0, o1.value.0, o2.value.0, o3.value.0), o3.value.1))
  }

  /** A port: an optional sign and digits.  A blank text leaves the number as it was in memory. */
  function ScanPort(s: string, uninitialised: nat): Option<(Port, string)> {
    var t := SkipSpace(s);
    if t == [] then (if uninitialised > 0xffff then None else Some((uninitialised, [])))
    else
      var signed := t[0] == '+' || t[0] == '-';
      var digits := if signed then t[1..] else t;
      var r := ScanU(digits, 0);
      var p := if t[0] == '-' then (WRAP - r.1) % WRAP else r.1;
      if r.0 == 0 || p > 0xffff || p < 0 then None else Some((p, digits[r.0..]))
  }

  /** An address with an optional port behind a colon. */
  function ScanIPAddress(s: string, uninitialised: nat): Option<(Address, Option<Port>, string)> {
    var a := ScanAddress(s);
    if a.None? then None
    else if a.value.1 == [] || a.value.1[0] != ':' then Some((a.value.0, None, a.value.1))
    else
      var p := ScanPort(a.value.1[1..], uninitialised);
      if p.None? then None else Some((a.value.0, Some(p.value.0), p.value.1))
  }

  // ---------- key=value pairs ----------

  /** First index of c, or the length. */
  function FirstOf(s: string, c: char): (i: nat)
    ensures i <= |s| && c !in s[..i] && (i < |s| ==> s[i] == c)
  {
    if s == [] || s[0] == c then 0
    else
      var i := FirstOf(s[1..], c);
      assert s[..i + 1] == [s[0]] + s[1..][..i];
      i + 1
  }

  function ScanArgument(a: Arguments, k: string, v: string, uninitialised: nat): Option<Arguments> {
    if k == "dst" then
      var r := ScanIPAddress(v, uninitialised);
      if r.None? || r.value.2 != [] then None
      else Some(a.(remote := r.value.0, remotePort := if r.value.1.Some? then r.value.1.value else a.remotePort))
    else if k == "src" then
      var r := ScanIPAddress(v, uninitialised);
      if r.None? || r.value.2 != [] then None
      else Some(a.(local := r.value.0, localPort := if r.value.1.Some? then r.value.1.value else a.localPort))
    else if k == "srcport" then
      var r := ScanPort(v, uninitialised);
      if r.None? || r.value.1 != [] then None else Some(a.(localPort := r.value.0))
    else if k == "dstport" then
      var r := ScanPort(v, uninitialised);
      if r.None? || r.value.1 != [] then None else Some(a.(remotePort := r.value.0))
    else if k == "dev" then
      if |v| > MAX_NAME then None else Some(a.(device := Some(v)))
    else None
  }

  /** What memory happens to hold where each port is scanned into: scans differ in the text left to them. */
  type Leftovers = nat -> nat

  ghost function ScanPairs(a: Arguments, s: string, uninitialised: Leftovers): Option<Arguments>
    decreases |s|
  {
    if s == [] then Some(a)
    else if s[0] != ';' then None
    else
      var t := s[1..];
      if t == [] then Some(a)
      else
        var keyEnd := FirstOf(t, '=');
        if keyEnd == |t| then None
        else
          var rest := t[keyEnd + 1..];
          var valueEnd := FirstOf(rest, ';');
          var b := ScanArgument(a, t[..keyEnd], rest[..valueEnd], uninitialised(|s|));
          if b.None? then None else ScanPairs(b.value, rest[valueEnd..], uninitialised)
  }

  ghost function ScanArguments(a: Arguments, name: string, uninitialised: Leftovers): Option<Arguments> {
    var r := ScanIPAddress(name, uninitialised(|name|));
    if r.None? then None
    else
      var b := a.(remote := r.value.0, remotePort := if r.value.1.Some? then r.value.1.value else a.remotePort);
      ScanPairs(b, r.value.2, uninitialised)
  }

  // ---------- printing ----------

  ghost function LocalPart(a: Arguments): string {
    (if a.local != ANY then ";src=" + Dotted(a.local) else "") + PortPart(a)
  }

  ghost function PortPart(a: Arguments): string {
    if a.localPort != 0 then ";srcport=" + Digits(a.localPort) else ""
  }

  ghost function Name(a: Arguments): string {
    Dotted(a.remote) + ":" + Digits(a.remotePort) + LocalPart(a)
  }

  // ---------- lengths ----------

  lemma DigitsLength(n: nat)
    ensures n < 256 ==> |Digits(n)| <= 3
    ensures n < 0x1_0000 ==> |Digits(n)| <= 5
  {
    if n >= 10 {
      assert |Digits(n)| == |Digits(n / 10)| + 1;
      if n >= 100 { assert |Digits(n / 10)| == |Digits(n / 100)| + 1 by { assert n / 10 / 10 == n / 100; } }
      if n >= 1000 { assert |Digits(n / 100)| == |Digits(n / 1000)| + 1 by { assert n / 100 / 10 == n / 1000; } }
      if n >= 10000 { assert |Digits(n / 1000)| == |Digits(n / 10000)| + 1 by { assert n / 1000 / 10 == n / 10000; } }
    }
  }

  lemma DottedLength(a: Address)
    ensures |Dotted(a)| <= 15
  {
    DigitsLength(a.b0);
    DigitsLength(a.b1);
    DigitsLength(a.b2);
    DigitsLength(a.b3);
  }

  /** A printed name always fits its buffer. */
  lemma NameFits(a: Arguments)
    ensures |Name(a)| <= 55 < MAX_NAME
  {
    DottedLength(a.remote);
    DottedLength(a.local);
    DigitsLength(a.remotePort);
    DigitsLength(a.localPort);
  }

  // ---------- the round trip ----------

  lemma ScanPrintedOctet(b: Byte, rest: string)
    requires EndsNumber(rest)
    ensures ScanOctet(Digits(b) + rest) == Some((b, rest))
  {
    ScanNumber(b, rest);
  }

  lemma ScanPrintedDotOctet(b: Byte, rest: string)
    requires EndsNumber(rest)
    ensures ScanDotOctet("." + Digits(b) + rest) == Some((b, rest))
  {
    var t := Digits(b) + rest;
    assert "." + Digits(b) + rest == "." + t;
    assert ("." + t)[1..] == t;
    ScanPrintedOctet(b, rest);
  }

  lemma SkipSpaceNone(s: string)
    requires s != [] && IsDigit(s[0])
    ensures SkipSpace(s) == s
  {
  }

  lemma ScanPrintedAddress(a: Address, rest: string)
    requires EndsNumber(rest)
    ensures ScanAddress(Dotted(a) + rest) == Some((a, rest))
  {
    var r3 := "." + Digits(a.b3) + rest;
    var r2 := "." + Digits(a.b2) + r3;
    var r1 := "." + Digits(a.b1) + r2;
    assert Dotted(a) + rest == Digits(a.b0) + r1;
    SkipSpaceNone(Digits(a.b0) + r1);
    ScanPrintedOctet(a.b0, r1);
    ScanPrintedDotOctet(a.b1, r2);
    ScanPrintedDotOctet(a.b2, r3);
    ScanPrintedDotOctet(a.b3, rest);
  }

  lemma ScanPrintedPort(p: Port, rest: string, uninitialised: nat)
    requires EndsNumber(rest)
    ensures ScanPort(Digits(p) + rest, uninitialised) == Some((p, rest))
  {
    var s := Digits(p) + rest;
    assert IsDigit(s[0]);
    SkipSpaceNone(s);
    ScanNumber(p, rest);
  }

  lemma {:induction false} FirstOfAppend(x: string, c: char, y: string)
    requires c !in x
    ensures FirstOf(x + [c] + y, c) == |x|
  {
    var s := x + [c] + y;
    if x != [] {
      FirstOfAppend(x[1..], c, y);
      assert s[1..] == x[1..] + [c] + y;
    }
  }

  lemma FirstOfAbsent(x: string, c: char)
    requires c !in x
    ensures FirstOf(x, c) == |x|
  {
  }

  /** Scanning one printed pair consumes exactly that pair. */
  lemma ScanPair(a: Arguments, key: string, v: string, rest: string, uninitialised: Leftovers)
    requires '=' !in key && ';' !in v && (rest == [] || rest[0] == ';')
    ensures ScanPairs(a, ";" + key + "=" + v + rest, uninitialised)
            == var b := ScanArgument(a, key, v, uninitialised(|";" + key + "=" + v + rest|));
               if b.None? then None else ScanPairs(b.value, rest, uninitialised)
  {
    var s := ";" + key + "=" + v + rest;
    var t := s[1..];
    var y := v + rest;
    assert t == key + ['='] + y;
    FirstOfAppend(key, '=', y);
    assert t[..|key|] == key && t[|key| + 1..] == y;
    if rest == [] {
      assert y == v;
      FirstOfAbsent(v, ';');
    } else {
      assert y == v + [';'] + rest[1..];
      FirstOfAppend(v, ';', rest[1..]);
    }
    assert y[..|v|] == v && y[|v|..] == rest;
  }

  lemma NoSemicolon(a: Address, p: Port)
    ensures ';' !in Dotted(a) && ';' !in Digits(p)
  {
    assert forall n: nat :: ';' !in Digits(n);
  }

  lemma ScanSourcePort(b: Arguments, p: Port, uninitialised: nat)
    requires b.localPort == 0
    ensures ScanArgument(b, "srcport", Digits(p), uninitialised) == Some(b.(localPort := p))
  {
    hide ScanAddress, ScanPort, Digits;
    ScanPrintedPort(p, [], uninitialised);
    assert Digits(p) + [] == Digits(p);
  }

  lemma NoPairs(b: Arguments, uninitialised: Leftovers)
    ensures ScanPairs(b, [], uninitialised) == Some(b)
  {
  }

  lemma ScanPrintedPortPart(a: Arguments, b: Arguments, uninitialised: Leftovers)
    requires b.localPort == 0
    ensures ScanPairs(b, PortPart(a), uninitialised) == Some(b.(localPort := a.localPort))
  {
    hide ScanPairs, ScanArgument, Digits;
    if a.localPort == 0 {
      NoPairs(b, uninitialised);
    } else {
      var v := Digits(a.localPort);
      NoSemicolon(ANY, a.localPort);
      ScanSourcePort(b, a.localPort, uninitialised(|PortPart(a)|));
      ScanPair(b, "srcport", v, [], uninitialised);
      NoPairs(b.(localPort := a.localPort), uninitialised);
      assert ";" + "srcport" + "=" + v + [] == PortPart(a);
    }
  }

  lemma ScanPrintedLocal(a: Arguments, b: Arguments, uninitialised: Leftovers)
    requires b.localPort == 0 && b.local == ANY
    ensures ScanPairs(b, LocalPart(a), uninitialised) == Some(b.(local := a.local, localPort := a.localPort))
  {
    hide ScanPairs, ScanAddress, Dotted, Digits;
    if a.local != ANY {
      var v := Dotted(a.local);
      NoSemicolon(a.local, 0);
      ScanPrintedAddress(a.local, []);
      assert v + [] == v;
      ScanPair(b, "src", v, PortPart(a), uninitialised);
      assert ";" + "src" + "=" + v + PortPart(a) == LocalPart(a);
      ScanPrintedPortPart(a, b.(local := a.local), uninitialised);
    } else {
      assert LocalPart(a) == PortPart(a);
      ScanPrintedPortPart(a, b, uninitialised);
    }
  }

  // ---------- what each key sets ----------

  /** Whatever the text: a key changes at most the fields it is for. */
  lemma KeyFrame(a: Arguments, k: string, v: string, u: nat)
    ensures var b := ScanArgument(a, k, v, u);
            b.Some? ==>
              && (k == "dst" || (b.value.remote == a.remote && (k == "dstport" || b.value.remotePort == a.remotePort)))
              && (k == "src" || (b.value.local == a.local && (k == "srcport" || b.value.localPort == a.localPort)))
              && (k == "dev" || b.value.device == a.device) && k in {"dst", "src", "srcport", "dstport", "dev"}
  {
    hide ScanIPAddress, ScanPort;
  }

  /** A printed address, with or without a printed port, sets the address and exactly the port given. */
  lemma AddressKeySets(a: Arguments, x: Address, p: Port, u: nat)
    ensures ScanArgument(a, "dst", Dotted(x), u) == Some(a.(remote := x))
    ensures ScanArgument(a, "src", Dotted(x), u) == Some(a.(local := x))
    ensures ScanArgument(a, "dst", Dotted(x) + ":" + Digits(p), u) == Some(a.(remote := x, remotePort := p))
    ensures ScanArgument(a, "src", Dotted(x) + ":" + Digits(p), u) == Some(a.(local := x, localPort := p))
  {
    hide ScanAddress, ScanPort, Dotted, Digits;
    var r := ":" + Digits(p);
    ScanPrintedAddress(x, []);
    assert Dotted(x) + [] == Dotted(x);
    ScanPrintedAddress(x, r);
    assert Dotted(x) + r == Dotted(x) + ":" + Digits(p);
    ScanPrintedPort(p, [], u);
    assert r[1..] == Digits(p) + [];
  }

  /** A printed port sets the port of its side; a device name binds to it. */
  lemma PortKeySets(a: Arguments, p: Port, d: string, u: nat)
    requires |d| <= MAX_NAME
    ensures ScanArgument(a, "dstport", Digits(p), u) == Some(a.(remotePort := p))
    ensures ScanArgument(a, "srcport", Digits(p), u) == Some(a.(localPort := p))
    ensures ScanArgument(a, "dev", d, u) == Some(a.(device := Some(d)))
  {
    hide ScanAddress, ScanPort, Digits;
    ScanPrintedPort(p, [], u);
    assert Digits(p) + [] == Digits(p);
  }

  /** Scanning a printed name into initialised arguments gives back every address and port,
      whatever the memory held before. */
  lemma NameRoundTrip(a: Arguments, uninitialised: Leftovers)
    requires a.device.None?
    ensures ScanArguments(INITIAL, Name(a), uninitialised) == Some(a)
  {
    hide ScanPairs, ScanAddress, Dotted, Digits, ScanPort;
    var local := LocalPart(a);
    var r := ":" + Digits(a.remotePort) + local;
    assert Name(a) == Dotted(a.remote) + r;
    ScanPrintedAddress(a.remote, r);
    assert r[1..] == Digits(a.remotePort) + local;
    assert EndsNumber(local);
    ScanPrintedPort(a.remotePort, local, uninitialised(|Name(a)|));
    ScanPrintedLocal(a, INITIAL.(remote := a.remote, remotePort := a.remotePort), uninitialised);
  }

  /** Distinct sockets have distinct names. */
  lemma NamesDistinct(a: Arguments, b: Arguments)
    requires a.device.None? && b.device.None? && Name(a) == Name(b)
    ensures a == b
  {
    NameRoundTrip(a, _ => 0);
    NameRoundTrip(b, _ => 0);
  }

  // ---------- where the result depends on memory nobody set ----------

  predicate Blank(s: string) { SkipSpace(s) == [] }

  /** A port is read from memory exactly when its text is blank. */
  lemma PortDependsIff(s: string)
    ensures (forall u: nat, v: nat :: ScanPort(s, u) == ScanPort(s, v)) <==> !Blank(s)
  {
    if Blank(s) { assert ScanPort(s, 0) != ScanPort(s, 1); }
  }

  /** What follows a text that passes for a port: blanks, or an optional sign and digits that are small enough. */
  function AfterPort(s: string): Option<string> {
    var t := SkipSpace(s);
    if t == [] then Some([])
    else
      var digits := if t[0] == '+' || t[0] == '-' then t[1..] else t;
      var r := ScanU(digits, 0);
      var p := if t[0] == '-' then (WRAP - r.1) % WRAP else r.1;
      if r.0 == 0 || p > 0xffff || p < 0 then None else Some(digits[r.0..])
  }

  /** What follows an address with an optional port. */
  function AfterAddress(s: string): Option<string> {
    var a := ScanAddress(s);
    if a.None? then None
    else if a.value.1 == [] || a.value.1[0] != ':' then Some(a.value.1)
    else AfterPort(a.value.1[1..])
  }

  predicate ValueText(k: string, v: string) {
    if k == "dst" || k == "src" then AfterAddress(v) == Some([])
    else if k == "srcport" || k == "dstport" then AfterPort(v) == Some([])
    else k == "dev" && |v| <= MAX_NAME
  }

  /** Pairs of known keys with values that pass, each after a semicolon; the last semicolon may stand alone. */
  ghost predicate PairsText(s: string)
    decreases |s|
  {
    s == [] ||
    (s[0] == ';' &&
     var t := s[1..];
     t == [] ||
     var keyEnd := FirstOf(t, '=');
     keyEnd < |t| &&
     var rest := t[keyEnd + 1..];
     var valueEnd := FirstOf(rest, ';');
     ValueText(t[..keyEnd], rest[..valueEnd]) && PairsText(rest[valueEnd..]))
  }

  /** The names that pass when memory holds small numbers. */
  ghost predicate NameText(name: string) { AfterAddress(name).Some? && PairsText(AfterAddress(name).value) }

  /** An address with a colon and nothing but blanks behind it. */
  predicate BlankAfterAddress(s: string) {
    var a := ScanAddress(s);
    a.Some? && a.value.1 != [] && a.value.1[0] == ':' && Blank(a.value.1[1..])
  }

  predicate BlankValue(k: string, v: string) {
    ((k == "dst" || k == "src") && BlankAfterAddress(v)) || ((k == "srcport" || k == "dstport") && Blank(v))
  }

  /** Some port among the pairs is blank. */
  ghost predicate BlankPairs(s: string)
    decreases |s|
  {
    s != [] && s[0] == ';' &&
    var t := s[1..];
    var keyEnd := FirstOf(t, '=');
    keyEnd < |t| &&
    var rest := t[keyEnd + 1..];
    var valueEnd := FirstOf(rest, ';');
    BlankValue(t[..keyEnd], rest[..valueEnd]) || BlankPairs(rest[valueEnd..])
  }

  /** Some port in the name is blank. */
  ghost predicate BlankPort(name: string) {
    BlankAfterAddress(name) || (AfterAddress(name).Some? && BlankPairs(AfterAddress(name).value))
  }

  lemma PortScans(s: string, u: nat)
    ensures ScanPort(s, u).Some? <==> AfterPort(s).Some? && (Blank(s) ==> u <= 0xffff)
    ensures ScanPort(s, u).Some? ==> ScanPort(s, u).value.1 == AfterPort(s).value
    ensures !Blank(s) ==> ScanPort(s, u) == ScanPort(s, 0)
  {
  }

  lemma AddressScans(s: string, u: nat)
    ensures ScanIPAddress(s, u).Some? <==> AfterAddress(s).Some? && (BlankAfterAddress(s) ==> u <= 0xffff)
    ensures ScanIPAddress(s, u).Some? ==> ScanIPAddress(s, u).value.2 == AfterAddress(s).value
    ensures !BlankAfterAddress(s) ==> ScanIPAddress(s, u) == ScanIPAddress(s, 0)
  {
    hide ScanAddress, ScanPort, AfterPort, Blank;
    var a := ScanAddress(s);
    if a.Some? && a.value.1 != [] && a.value.1[0] == ':' { PortScans(a.value.1[1..], u); }
  }

  lemma ArgumentScans(a: Arguments, k: string, v: string, u: nat)
    ensures ScanArgument(a, k, v, u).Some? <==> ValueText(k, v) && (BlankValue(k, v) ==> u <= 0xffff)
    ensures !BlankValue(k, v) ==> ScanArgument(a, k, v, u) == ScanArgument(a, k, v, 0)
  {
    hide ScanIPAddress, ScanPort, AfterAddress, AfterPort, Blank, BlankAfterAddress;
    AddressScans(v, u);
    PortScans(v, u);
  }

  /** Which pairs pass does not depend on what was scanned before: those that read well, if memory holds small numbers;
      one blank port and large numbers are enough for a refusal; without blank ports memory does not matter. */
  lemma {:induction false} PairsScan(a: Arguments, s: string, u: Leftovers, w: Leftovers)
    ensures ScanPairs(a, s, u).Some? ==> PairsText(s)
    ensures PairsText(s) && (forall i: nat :: u(i) <= 0xffff) ==> ScanPairs(a, s, u).Some?
    ensures BlankPairs(s) && (forall i: nat :: u(i) > 0xffff) ==> ScanPairs(a, s, u).None?
    ensures !BlankPairs(s) ==> ScanPairs(a, s, u) == ScanPairs(a, s, w)
    decreases |s|
  {
    hide ScanArgument, BlankValue, ValueText;
    if s != [] && s[0] == ';' {
      var t := s[1..];
      var keyEnd := FirstOf(t, '=');
      if keyEnd < |t| {
        var rest := t[keyEnd + 1..];
        var valueEnd := FirstOf(rest, ';');
        var k, v := t[..keyEnd], rest[..valueEnd];
        ArgumentScans(a, k, v, u(|s|));
        ArgumentScans(a, k, v, w(|s|));
        var b := ScanArgument(a, k, v, u(|s|));
        if b.Some? { PairsScan(b.value, rest[valueEnd..], u, w); }
      }
    }
  }

  lemma NameScans(a: Arguments, name: string, u: Leftovers, w: Leftovers)
    ensures ScanArguments(a, name, u).Some? ==> NameText(name)
    ensures NameText(name) && (forall i: nat :: u(i) <= 0xffff) ==> ScanArguments(a, name, u).Some?
    ensures BlankPort(name) && (forall i: nat :: u(i) > 0xffff) ==> ScanArguments(a, name, u).None?
    ensures !BlankPort(name) ==> ScanArguments(a, name, u) == ScanArguments(a, name, w)
  {
    hide ScanPairs, BlankPairs, PairsText, ScanIPAddress, BlankAfterAddress, AfterAddress;
    AddressScans(name, u(|name|));
    AddressScans(name, w(|name|));
    var r := ScanIPAddress(name, u(|name|));
    if r.Some? {
      var b := a.(remote := r.value.0, remotePort := if r.value.1.Some? then r.value.1.value else a.remotePort);
      PairsScan(b, r.value.2, u, w);
    }
  }

  /** Scanning a name depends on what memory holds exactly when the text is one that can pass and one of its ports is
      blank: then some contents give a port, others a refusal. */
  lemma NameDependsIff(a: Arguments, name: string)
    ensures (forall u: Leftovers, v: Leftovers :: ScanArguments(a, name, u) == ScanArguments(a, name, v))
            <==> !(BlankPort(name) && NameText(name))
  {
    hide ScanArguments, BlankPort, NameText;
    var small: Leftovers, large: Leftovers := _ => 0, _ => 0x1_0000;
    NameScans(a, name, small, small);
    NameScans(a, name, large, large);
    forall u: Leftovers, v: Leftovers | !(BlankPort(name) && NameText(name)) ensures ScanArguments(a, name, u) == ScanArguments(a, name, v) {
      NameScans(a, name, u, v);
      NameScans(a, name, v, u);
    }
  }

  /** An address, a colon and nothing more: the port is whatever memory held. */
  lemma BlankPortReadsMemory(a: Address, u: Leftovers)
    requires u(|Dotted(a) + ":"|) <= 0xffff
    ensures ScanArguments(INITIAL, Dotted(a) + ":", u) == Some(INITIAL.(remote := a, remotePort := u(|Dotted(a) + ":"|)))
  {
    hide ScanAddress, Dotted;
    ScanPrintedAddress(a, ":");
    assert ":"[1..] == [];
  }

  // ---------- the printing and scanning code ----------

  function Clip(s: string, n: nat): string { if |s| <= n then s else s[..n] }

  method PrintAddress(a: Address) returns (s: string)
    ensures s == Dotted(a)
  {
    var octets := [a.b0, a.b1, a.b2, a.b3];
    s := [];
    var i := 0;
    while i < 4
      invariant 0 <= i <= 4
      invariant i == 0 ==> s == []
      invariant i == 1 ==> s == Digits(a.b0)
      invariant i == 2 ==> s == Digits(a.b0) + "." + Digits(a.b1)
      invariant i == 3 ==> s == Digits(a.b0) + "." + Digits(a.b1) + "." + Digits(a.b2)
      invariant i == 4 ==> s == Dotted(a)
    {
      if i != 0 { s := s + "."; }
      var d := UintToString(octets[i]);
      s := s + d;
      i := i + 1;
    }
  }

  /** Prints into a buffer of the given length; every piece is cut at the space left. */
  method PrintIPSocketArguments(a: Arguments, length: nat) returns (buffer: string)
    requires a.device.None?
    ensures buffer == Clip(Name(a), length)
    ensures length >= MAX_NAME ==> buffer == Name(a)
  {
    hide Dotted, Digits, Clip;
    NameFits(a);
    var remote := PrintAddress(a.remote);
    var port := UintToString(a.remotePort);
    buffer := Clip(remote + ":" + port, length);
    ghost var done := remote + ":" + port;
    ClipLength(done, length);
    if a.local != ANY {
      var local := PrintAddress(a.local);
      ClipAppend(done, ";src=" + local, length);
      buffer := buffer + Clip(";src=" + local, length - |buffer|);
      done := done + (";src=" + local);
    }
    ClipLength(done, length);
    if a.localPort != 0 {
      var localPort := UintToString(a.localPort);
      ClipAppend(done, ";srcport=" + localPort, length);
      buffer := buffer + Clip(";srcport=" + localPort, length - |buffer|);
      done := done + (";srcport=" + localPort);
    }
    NameIsPieces(a, done);
    ClipLength(done, length);
  }

  lemma ClipLength(s: string, n: nat)
    ensures |Clip(s, n)| <= n && (|s| <= n ==> Clip(s, n) == s)
  {
  }

  /** Cutting each piece at the space left is cutting the whole. */
  lemma ClipAppend(x: string, y: string, n: nat)
    ensures |Clip(x, n)| <= n && Clip(x, n) + Clip(y, n - |Clip(x, n)|) == Clip(x + y, n)
  {
  }

  lemma NameIsPieces(a: Arguments, s: string)
    requires s == (Dotted(a.remote) + ":" + Digits(a.remotePort))
                  + (if a.local != ANY then ";src=" + Dotted(a.local) else "")
                  + (if a.localPort != 0 then ";srcport=" + Digits(a.localPort) else "")
    ensures s == Name(a)
  {
  }

  method ScanIPSocketArguments(a: Arguments, name: string, uninitialised: Leftovers) returns (r: Option<Arguments>)
    ensures r == ScanArguments(a, name, uninitialised)
  {
    var first := ScanIPAddress(name, uninitialised(|name|));
    if first.None? { return None; }
    var s, b := first.value.2, a.(remote := first.value.0,
                                  remotePort := if first.value.1.Some? then first.value.1.value else a.remotePort);
    while true
      invariant ScanArguments(a, name, uninitialised) == ScanPairs(b, s, uninitialised)
      decreases |s|
    {
      if s == [] { return Some(b); }
      if s[0] != ';' { return None; }
      var t := s[1..];
      if t == [] { return Some(b); }
      var keyEnd := IndexOf(t, 0, '=');
      FirstIsUnique(t, '=', keyEnd);
      if keyEnd == |t| { return None; }
      var rest := t[keyEnd + 1..];
      var valueEnd := IndexOf(rest, 0, ';');
      FirstIsUnique(rest, ';', valueEnd);
      var c := ScanArgument(b, t[..keyEnd], rest[..valueEnd], uninitialised(|s|));
      if c.None? { return None; }
      s, b := rest[valueEnd..], c.value;
    }
  }

  lemma {:induction false} FirstIsUnique(s: string, c: char, i: nat)
    requires i <= |s| && (i < |s| ==> s[i] == c) && c !in s[..i]
    ensures i == FirstOf(s, c)
  {
    var k := FirstOf(s, c);
    assert forall j :: 0 <= j < i ==> s[..i][j] != c;
    assert forall j :: 0 <= j < k ==> s[..k][j] != c;
  }
}
