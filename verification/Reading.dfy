/** What a reader makes of the texts the daemon writes: numbers, addresses and the peers of wg0.conf. */
module Reading {
  import opened Base
  import opened Ipv4
  import opened Database
  import opened Names
  import opened WireGuard

  // ----- pieces between separators

  /** `s.split(sep)`. */
  function Split(s: string, sep: char): (parts: seq<string>)
    ensures parts != []
  {
    if s == [] then [""]
    else
      var rest := Split(s[1..], sep);
      if s[0] == sep then [""] + rest else [[s[0]] + rest[0]] + rest[1..]
  }

  lemma {:induction false} SplitOne(a: string, sep: char)
    requires sep !in a
    ensures Split(a, sep) == [a]
  {
    if a != [] {
      SplitOne(a[1..], sep);
      assert [a[0]] + a[1..] == a;
    }
  }

  /** A separator splits in two, whatever stands on either side. */
  lemma {:induction false} SplitAt(a: string, b: string, sep: char)
    ensures Split(a + [sep] + b, sep) == Split(a, sep) + Split(b, sep)
  {
    var s := a + [sep] + b;
    if a == [] {
      assert s[1..] == b;
    } else {
      assert s[1..] == a[1..] + [sep] + b;
      SplitAt(a[1..], b, sep);
    }
  }

  // ----- numbers

  /** `int(s)` on digits. */
  function Value(s: string): nat
    requires IsDigits(s)
  {
    if s == [] then 0
    else
      var init, last := s[..|s| - 1], s[|s| - 1];
      assert last in s && forall c :: c in init ==> c in s;
      Value(init) * 10 + (last - '0') as nat
  }

  /** A printed number is read back. */
  lemma {:induction false} DecimalReadsBack(n: nat)
    ensures IsDigits(Decimal(n)) && Value(Decimal(n)) == n
  {
    DecimalIsDigits(n);
    var s := Decimal(n);
    if n < 10 {
      assert s[..0] == [] && s == [Digit(n)];
    } else {
      DecimalReadsBack(n / 10);
      assert s[..|s| - 1] == Decimal(n / 10);
    }
  }

  lemma NegativeReadsBack(n: int)
    requires n < 0
    ensures Decimal(n)[0] == '-' && IsDigits(Decimal(n)[1..]) && Value(Decimal(n)[1..]) == -n
  {
    DecimalReadsBack(-n);
    assert Decimal(n)[1..] == Decimal(-n);
  }

  // ----- addresses

  /** The four numbers of a dotted address. */
  function ReadDotted(s: string): (r: Option<seq<nat>>)
    ensures r.Some? ==> |r.value| == 4
  {
    var p := Split(s, '.');
    if |p| == 4 && IsDigits(p[0]) && IsDigits(p[1]) && IsDigits(p[2]) && IsDigits(p[3])
    then Some([Value(p[0]), Value(p[1]), Value(p[2]), Value(p[3])]) else None
  }

  function AddressOf(bytes: seq<nat>): nat
    requires |bytes| == 4
  {
    bytes[0] * 0x1000000 + bytes[1] * 0x10000 + bytes[2] * 0x100 + bytes[3]
  }

  lemma DecimalHasNoDot(n: nat)
    ensures '.' !in Decimal(n) && '/' !in Decimal(n) && '\n' !in Decimal(n)
  {
    DecimalIsDigits(n);
  }

  lemma SplitInFour(a: string, b: string, c: string, d: string, sep: char)
    requires sep !in a && sep !in b && sep !in c && sep !in d
    ensures Split(a + [sep] + b + [sep] + c + [sep] + d, sep) == [a, b, c, d]
  {
    SplitOne(a, sep);
    SplitOne(b, sep);
    SplitOne(c, sep);
    SplitOne(d, sep);
    SplitAt(a, b, sep);
    SplitAt(a + [sep] + b, c, sep);
    SplitAt(a + [sep] + b + [sep] + c, d, sep);
  }

  /** A printed address is four bytes, and they are the address. */
  lemma AddressReadsBack(a: Address)
    ensures var r := ReadDotted(Dotted(a));
            r.Some? && AddressOf(r.value) == a && forall b :: b in r.value ==> b < 256
  {
    var w, x, y, z := a / 0x1000000, a / 0x10000 % 0x100, a / 0x100 % 0x100, a % 0x100;
    DecimalHasNoDot(w);
    DecimalHasNoDot(x);
    DecimalHasNoDot(y);
    DecimalHasNoDot(z);
    SplitInFour(Decimal(w), Decimal(x), Decimal(y), Decimal(z), '.');
    DecimalReadsBack(w);
    DecimalReadsBack(x);
    DecimalReadsBack(y);
    DecimalReadsBack(z);
    BytesOfAddress(a);
  }

  lemma BytesOfAddress(a: Address)
    ensures a == a / 0x1000000 * 0x1000000 + a / 0x10000 % 0x100 * 0x10000 + a / 0x100 % 0x100 * 0x100 + a % 0x100
  {
    assert a == a / 0x100 * 0x100 + a % 0x100;
    assert a / 0x100 == a / 0x10000 * 0x100 + a / 0x100 % 0x100;
    assert a / 0x10000 == a / 0x1000000 * 0x100 + a / 0x10000 % 0x100;
  }

  // ----- the fixed topology in the form it is written in

  lemma SmallDecimals()
    ensures Decimal(0) == "0" && Decimal(1) == "1" && Decimal(8) == "8" && Decimal(9) == "9" && Decimal(10) == "10"
    ensures Decimal(16) == "16" && Decimal(24) == "24"
  {
    assert Decimal(1) == [Digit(1)] && Decimal(2) == [Digit(2)];
    assert Decimal(10) == Decimal(1) + [Digit(0)];
    assert Decimal(16) == Decimal(1) + [Digit(6)];
    assert Decimal(24) == Decimal(2) + [Digit(4)];
  }

  /** `str(IPv4Network)`. */
  function Written(base: Address, bits: nat): string { Dotted(base) + "/" + Decimal(bits) }

  lemma BytesOf(a: Address, w: nat, x: nat, y: nat, z: nat)
    requires a == w * 0x1000000 + x * 0x10000 + y * 0x100 + z && x < 256 && y < 256 && z < 256
    ensures a / 0x1000000 == w && a / 0x10000 % 0x100 == x && a / 0x100 % 0x100 == y && a % 0x100 == z
  {
    assert a / 0x100 == w * 0x10000 + x * 0x100 + y;
    assert a / 0x10000 == w * 0x100 + x;
  }

  lemma DottedOf(a: Address, w: nat, x: nat, y: nat, z: nat)
    requires a / 0x1000000 == w && a / 0x10000 % 0x100 == x && a / 0x100 % 0x100 == y && a % 0x100 == z
    ensures Dotted(a) == Decimal(w) + "." + Decimal(x) + "." + Decimal(y) + "." + Decimal(z)
  {}

  lemma VpnParts()
    ensures "10" + "." + "8" + "." + "0" + "." + "0" + "/" + "24" == "10.8.0.0/24"
    ensures "10" + "." + "8" + "." + "0" + "." + "1" == "10.8.0.1"
  {}

  lemma PoolParts(d: string)
    ensures "10" + "." + "9" + "." + "0" + "." + "0" + "/" + "16" == "10.9.0.0/16"
    ensures "10" + "." + "9" + "." + d + "." + "0" + "/" + "24" == "10.9." + d + ".0/24"
    ensures "10" + "." + "9" + "." + d + "." + "1" == "10.9." + d + ".1"
  {}

  lemma VpnWritten()
    ensures Written(WG_SUBNET.base, WG_SUBNET.bits) == "10.8.0.0/24" && Dotted(WG_SERVER_IP) == "10.8.0.1"
  {
    SmallDecimals();
    BytesOf(WG_SUBNET.base, 10, 8, 0, 0);
    BytesOf(WG_SERVER_IP, 10, 8, 0, 1);
    DottedOf(WG_SUBNET.base, 10, 8, 0, 0);
    DottedOf(WG_SERVER_IP, 10, 8, 0, 1);
    VpnParts();
  }

  /** The pool, and in it the subnet of octet k and its gateway. */
  lemma PoolWritten(k: int)
    requires 1 <= k <= 254
    ensures Written(DOCKER_POOL.base, DOCKER_POOL.bits) == "10.9.0.0/16"
    ensures Written(OctetBase(k), OwnerSubnet(k).value.bits) == "10.9." + Decimal(k) + ".0/24"
    ensures Dotted(OwnerGateway(k)) == "10.9." + Decimal(k) + ".1"
  {
    SmallDecimals();
    BytesOf(DOCKER_POOL.base, 10, 9, 0, 0);
    BytesOf(OctetBase(k), 10, 9, k, 0);
    BytesOf(OctetBase(k) + 1, 10, 9, k, 1);
    DottedOf(DOCKER_POOL.base, 10, 9, 0, 0);
    DottedOf(OctetBase(k), 10, 9, k, 0);
    DottedOf(OctetBase(k) + 1, 10, 9, k, 1);
    PoolParts(Decimal(k));
  }

  // ----- the peers of wg0.conf

  datatype Entry = Entry(username: string, publicKey: string, ip: nat)

  /** What stands between a prefix and a suffix. */
  function Inside(prefix: string, s: string, suffix: string): Option<string> {
    if prefix <= s && |s| >= |prefix| + |suffix| && s[|s| - |suffix|..] == suffix
    then Some(s[|prefix|..|s| - |suffix|]) else None
  }

  lemma InsideOf(prefix: string, x: string, suffix: string)
    ensures Inside(prefix, prefix + x + suffix, suffix) == Some(x)
  {
    var s := prefix + x + suffix;
    assert s[|prefix|..|s| - |suffix|] == x;
  }

  function ReadEntry(name: string, key: string, allowed: string): Option<Entry> {
    var n, k, a := Inside("# ", name, ""), Inside("PublicKey = ", key, ""), Inside("AllowedIPs = ", allowed, "/32");
    if n.Some? && k.Some? && a.Some? && ReadDotted(a.value).Some?
    then Some(Entry(n.value, k.value, AddressOf(ReadDotted(a.value).value))) else None
  }

  /** Every peer section among the lines of a file. */
  function ReadPeers(lines: seq<string>): seq<Entry> {
    if |lines| < 4 then []
    else if lines[0] != "[Peer]" || ReadEntry(lines[1], lines[2], lines[3]).None? then ReadPeers(lines[1..])
    else [ReadEntry(lines[1], lines[2], lines[3]).value] + ReadPeers(lines[4..])
  }

  function Entries(peers: seq<Peer>): (s: seq<Entry>)
    ensures |s| == |peers|
    ensures forall i :: 0 <= i < |s| ==> s[i] == Entry(peers[i].username, peers[i].publicKey, peers[i].ip)
  {
    seq(|peers|, i requires 0 <= i < |peers| => Entry(peers[i].username, peers[i].publicKey, peers[i].ip))
  }

  /** Usernames are `user_` and a number, keys base64: neither holds a line break. */
  ghost predicate OneLiners(peers: seq<Peer>) {
    forall p :: p in peers ==> '\n' !in p.username && '\n' !in p.publicKey
  }


  lemma SectionReadsBack(p: Peer)
    ensures ReadEntry(NameLine(p), KeyLine(p), IpLine(p)) == Some(Entry(p.username, p.publicKey, p.ip))
  {
    InsideOf("# ", p.username, "");
    InsideOf("PublicKey = ", p.publicKey, "");
    InsideOf("AllowedIPs = ", Dotted(p.ip), "/32");
    assert NameLine(p) + "" == NameLine(p) && KeyLine(p) + "" == KeyLine(p);
    AddressReadsBack(p.ip);
  }

  // ----- the text of a section as lines

  lemma {:induction false} LinesSplit(lines: seq<string>, rest: string)
    requires forall l :: l in lines ==> '\n' !in l
    ensures Split(JoinLines(lines) + rest, '\n') == lines + Split(rest, '\n')
  {
    if lines == [] {
      assert JoinLines(lines) + rest == rest;
    } else {
      var init, last := lines[..|lines| - 1], lines[|lines| - 1];
      LinesSplit(init, last);
      SplitOne(last, '\n');
      SplitAt(JoinLines(init) + last, rest, '\n');
      assert init + [last] == lines;
    }
  }

  lemma AddressText()
    ensures "Address = " + "10.8.0.1" + "/" + "24" == "Address = 10.8.0.1/24"
  {}

  /** The server's own section gives it its own address, in the VPN's subnet. */
  lemma AddressLine(port: nat, privateKey: string)
    ensures InterfaceLines(port, privateKey)[1] == "Address = " + Dotted(WG_SERVER_IP) + "/" + Decimal(WG_SUBNET.bits)
  {
    VpnWritten();
    SmallDecimals();
    AddressText();
  }

  lemma CommentIsOneLine()
    ensures '\n' !in "# edo: WireGuard server interface"
  {}

  lemma AddressIsOneLine()
    ensures '\n' !in "Address = 10.8.0.1/24"
  {}

  lemma InterfaceLinesAreLines(port: nat, privateKey: string)
    requires '\n' !in privateKey
    ensures forall l :: l in InterfaceLines(port, privateKey) ==> '\n' !in l
  {
    CommentIsOneLine();
    AddressIsOneLine();
    DecimalHasNoDot(port);
    assert '\n' !in "ListenPort = " && '\n' !in "PrivateKey = " && '\n' !in "SaveConfig = false";
  }

  /** The initial file is the server's section, line by line. */
  lemma InitialConfigReadsBack(port: nat, privateKey: string)
    requires '\n' !in privateKey
    ensures Split(InitialConfig(port, privateKey), '\n') == ["[Interface]"] + (InterfaceLines(port, privateKey) + [""])
  {
    InterfaceLinesAreLines(port, privateKey);
    ReadsAsLines("[Interface]", InterfaceLines(port, privateKey));
    assert "[Interface]" + "\n" == "[Interface]\n";
  }

  lemma ReadsAsLines(first: string, lines: seq<string>)
    requires '\n' !in first && forall l :: l in lines ==> '\n' !in l
    ensures Split(first + "\n" + JoinLines(lines), '\n') == [first] + (lines + [""])
  {
    SplitOne(first, '\n');
    SplitAt(first, JoinLines(lines), '\n');
    LinesSplit(lines, "");
    assert JoinLines(lines) + "" == JoinLines(lines);
  }

  lemma BlockSplits(p: Peer, rest: string)
    requires '\n' !in p.username && '\n' !in p.publicKey
    ensures Split(Block(p) + rest, '\n') == Section(p) + Split(rest, '\n')
  {
    DecimalHasNoDot(p.ip / 0x1000000);
    DecimalHasNoDot(p.ip / 0x10000 % 0x100);
    DecimalHasNoDot(p.ip / 0x100 % 0x100);
    DecimalHasNoDot(p.ip % 0x100);
    LinesSplit(Section(p), rest);
  }

  lemma SectionIsEntry(p: Peer, rest: seq<string>)
    ensures ReadPeers(Section(p) + rest) == [Entry(p.username, p.publicKey, p.ip)] + ReadPeers(rest)
  {
    var lines := Section(p) + rest;
    SectionReadsBack(p);
    assert lines[0] == "" && lines[1..] == Section(p)[1..] + rest;
    assert lines[1..][4..] == rest;
  }

  lemma {:induction false} BlocksReadBack(peers: seq<Peer>)
    requires OneLiners(peers)
    ensures ReadPeers(Split(Blocks(peers), '\n')) == Entries(peers)
  {
    if peers != [] {
      BlocksReadBack(peers[1..]);
      BlockSplits(peers[0], Blocks(peers[1..]));
      SectionIsEntry(peers[0], Split(Blocks(peers[1..]), '\n'));
      assert Entries(peers) == [Entries(peers)[0]] + Entries(peers[1..]);
    }
  }

  lemma {:induction false} FirstPieceIsPrefix(s: string, sep: char)
    ensures Split(s, sep)[0] <= s
  {
    if s != [] {
      FirstPieceIsPrefix(s[1..], sep);
    }
  }

  /** No line of a text without the mark is the mark. */
  lemma {:induction false} NoMarkNoSection(h: string)
    requires BeforeMark(h) == h
    ensures forall l :: l in Split(h, '\n') ==> l != "[Peer]"
  {
    if h != [] {
      assert h[0] == BeforeMark(h)[0] && h[1..] == BeforeMark(h)[1..];
      NoMarkNoSection(h[1..]);
      FirstPieceIsPrefix(h, '\n');
      assert !("[Peer]" <= h);
      assert forall l :: l in Split(h, '\n') ==> l == Split(h, '\n')[0] || l in Split(h[1..], '\n');
    }
  }

  lemma {:induction false} OtherLinesAreSkipped(other: seq<string>, rest: seq<string>)
    requires forall l :: l in other ==> l != "[Peer]"
    ensures ReadPeers(other + rest) == ReadPeers(rest)
  {
    if other == [] {
      assert other + rest == rest;
    } else {
      assert other[0] in other && forall l :: l in other[1..] ==> l in other;
      assert (other + rest)[1..] == other[1..] + rest && (other + rest)[0] == other[0];
      OtherLinesAreSkipped(other[1..], rest);
    }
  }

  /** Whoever reads the file that says what the database says finds the peers of the table: their names,
      keys and addresses, in order, and no other. */
  lemma ConfigReadsBack(h: string, peers: seq<Peer>)
    requires PlainHeader(h) && OneLiners(peers)
    ensures ReadPeers(Split(Rendered(h, peers), '\n')) == Entries(peers)
  {
    var init := RStrip(h);
    var head := Split(init, '\n');
    assert Rendered(h, peers) == init + ['\n'] + Blocks(peers);
    SplitAt(init, Blocks(peers), '\n');
    SplitAt(init, "", '\n');
    NoMarkNoSection(h);
    assert init + ['\n'] + "" == h;
    forall l | l in head
      ensures l != "[Peer]"
    {
      assert l in head + Split("", '\n');
    }
    OtherLinesAreSkipped(head, Split(Blocks(peers), '\n'));
    BlocksReadBack(peers);
  }
}
