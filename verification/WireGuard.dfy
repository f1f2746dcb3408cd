/** The server's wg0.conf as text, kept beside the peers table. */
module WireGuard {
  import opened Base
  import opened Ipv4
  import opened Database
  import opened Names

  const PEER_MARK := "[Peer]"

  datatype KeyPair = KeyPair(privateKey: string, publicKey: string)

  /** `str(IPv4Address)`. */
  function Dotted(a: Address): string {
    Decimal(a / 0x1000000) + "." + Decimal(a / 0x10000 % 0x100) + "." + Decimal(a / 0x100 % 0x100) + "." + Decimal(a % 0x100)
  }

  function NameLine(p: Peer): string { "# " + p.username }
  function KeyLine(p: Peer): string { "PublicKey = " + p.publicKey }
  function IpLine(p: Peer): string { "AllowedIPs = " + Dotted(p.ip) + "/32" }

  /** Each line with its line break. */
  function JoinLines(lines: seq<string>): string {
    if lines == [] then "" else JoinLines(lines[..|lines| - 1]) + lines[|lines| - 1] + "\n"
  }

  /** The section of one peer; it starts with an empty line. */
  function Section(p: Peer): seq<string> { ["", PEER_MARK, NameLine(p), KeyLine(p), IpLine(p)] }

  function Block(p: Peer): string { JoinLines(Section(p)) }

  lemma {:induction false} JoinLinesStarts(lines: seq<string>)
    requires |lines| >= 2
    ensures lines[0] + "\n" + lines[1] <= JoinLines(lines)
  {
    var n := |lines| - 1;
    if n == 1 {
      assert lines[..1] == [lines[0]] && lines[..1][..0] == [];
      assert JoinLines(lines[..1]) == "" + lines[0] + "\n" == lines[0] + "\n";
    } else {
      JoinLinesStarts(lines[..n]);
    }
  }

  lemma BlockStarts(p: Peer, rest: string)
    ensures "\n" + PEER_MARK <= Block(p) + rest
  {
    JoinLinesStarts(Section(p));
    assert "" + "\n" + PEER_MARK == "\n" + PEER_MARK;
  }

  function Blocks(peers: seq<Peer>): string {
    if peers == [] then "" else Block(peers[0]) + Blocks(peers[1..])
  }

  /** `text.split("[Peer]", 1)[0]`. */
  function BeforeMark(text: string): string {
    if text == [] || PEER_MARK <= text then [] else [text[0]] + BeforeMark(text[1..])
  }

  /** ASCII characters for which `str.isspace()` holds. */
  predicate IsSpace(c: char) { c == ' ' || '\t' <= c <= '\r' || '\U{1c}' <= c <= '\U{1f}' }

  /** `str.rstrip()`. */
  function RStrip(s: string): string {
    if s != [] && IsSpace(s[|s| - 1]) then RStrip(s[..|s| - 1]) else s
  }

  /** The header that `_rewrite_server_config` recovers from the file. */
  function Header(text: string): string { RStrip(BeforeMark(text)) + "\n" }

  /** A header that survives recovery: no peer section, one line break at its end. */
  ghost predicate PlainHeader(h: string) { BeforeMark(h) == h && RStrip(h) + "\n" == h }

  /** The file is the header, possibly followed by peer sections of any content. */
  ghost predicate HasHeader(text: string, h: string) {
    h <= text && (text == h || "\n" + PEER_MARK <= text[|h|..])
  }

  // ----- recovery of the header

  lemma {:induction false} BeforeMarkOfConcat(h: string, tail: string)
    requires BeforeMark(h) == h && "\n" + PEER_MARK <= tail
    ensures BeforeMark(h + tail) == h + "\n"
  {
    if h == [] {
      assert h + tail == tail;
      assert tail[0] == '\n' && PEER_MARK <= tail[1..];
      assert PEER_MARK[0] == '[';
      assert BeforeMark(tail) == ['\n'] + BeforeMark(tail[1..]);
    } else {
      assert h[0] == BeforeMark(h)[0] && h[1..] == BeforeMark(h)[1..];
      assert BeforeMark(h[1..]) == h[1..];
      BeforeMarkOfConcat(h[1..], tail);
      assert (h + tail)[1..] == h[1..] + tail;
      MarkDoesNotStraddle(h, tail);
    }
  }

  lemma MarkDoesNotStraddle(h: string, tail: string)
    requires !(PEER_MARK <= h) && tail != [] && tail[0] == '\n'
    ensures !(PEER_MARK <= h + tail)
  {
    if |h| < |PEER_MARK| {
      assert (h + tail)[|h|] == '\n';
      assert PEER_MARK == ['[', 'P', 'e', 'e', 'r', ']'];
    } else {
      assert (h + tail)[..|PEER_MARK|] == h[..|PEER_MARK|];
    }
  }

  /** Whatever sections follow, exactly the header comes back. */
  lemma HeaderRecovered(text: string, h: string)
    requires PlainHeader(h) && HasHeader(text, h)
    ensures Header(text) == h
  {
    if text != h {
      var tail := text[|h|..];
      assert text == h + tail;
      BeforeMarkOfConcat(h, tail);
      assert (h + "\n")[..|h|] == h;
    }
  }

  lemma {:induction false} BlocksOfConcat(a: seq<Peer>, b: seq<Peer>)
    ensures Blocks(a + b) == Blocks(a) + Blocks(b)
  {
    if a == [] {
      assert a + b == b;
    } else {
      assert (a + b)[1..] == a[1..] + b;
      BlocksOfConcat(a[1..], b);
    }
  }

  lemma BlocksOfOne(p: Peer)
    ensures Blocks([p]) == Block(p)
  {
    assert Blocks([p]) == Block(p) + Blocks([]);
  }

  /** The text a full rewrite would produce. */
  function Rendered(h: string, peers: seq<Peer>): string { h + Blocks(peers) }

  lemma RenderedHasHeader(h: string, peers: seq<Peer>)
    ensures HasHeader(Rendered(h, peers), h)
  {
    if peers != [] {
      assert Rendered(h, peers)[|h|..] == Blocks(peers);
      BlockStarts(peers[0], Blocks(peers[1..]));
    }
  }

  /** Appending a new peer's block and rewriting the whole file give the same text. */
  lemma AppendIsRewrite(h: string, peers: seq<Peer>, p: Peer)
    requires PlainHeader(h)
    ensures Rendered(h, peers) + Block(p) == Rendered(h, peers + [p])
    ensures Rendered(Header(Rendered(h, peers)), peers + [p]) == Rendered(h, peers) + Block(p)
  {
    RenderedSnoc(h, peers, p);
    RenderedHasHeader(h, peers);
    HeaderRecovered(Rendered(h, peers), h);
  }

  lemma SectionKeepsHeader(text: string, h: string, p: Peer)
    requires HasHeader(text, h)
    ensures HasHeader(text + Block(p), h)
  {
    if text == h {
      BlockStarts(p, "");
      assert (text + Block(p))[|h|..] == Block(p) == Block(p) + "";
    } else {
      assert (text + Block(p))[|h|..] == text[|h|..] + Block(p);
    }
  }

  // ----- the file and its writers

  datatype AddOutcome = PeerAdded(peer: Peer) | KeyRejected | NoAddress | NameTaken | RolledBack
  datatype RemoveOutcome = NoSuchPeer | PeerRemoved | RemoveRaised

  function PeerCandidateIps(): (s: seq<Address>)
    ensures forall a :: a in s <==> WG_SUBNET.IsHost(a) && a != WG_SERVER_IP
    ensures forall i, j :: 0 <= i < j < |s| ==> s[i] < s[j]
  {
    TopologyRanges(0);
    OrderedSubnetHosts(WG_SUBNET, {WG_SERVER_IP})
  }

  /** The loop of `_rewrite_server_config`. */
  method Render(header: string, peers: seq<Peer>, exclude: string) returns (parts: string)
    ensures parts == Rendered(header, WithoutUser(peers, exclude))
  {
    parts := header;
    assert Rendered(parts, WithoutUser(peers[..0], exclude)) == parts;
    for i := 0 to |peers|
      invariant parts == Rendered(header, WithoutUser(peers[..i], exclude))
    {
      RenderStep(header, peers, i, exclude);
      if peers[i].username == exclude {
        continue;
      }
      parts := parts + Block(peers[i]);
    }
    assert peers[..|peers|] == peers;
  }

  /** An address for a peer: of the VPN, and not the server's. */
  ghost predicate IsPeerAddress(a: Address) { WG_SUBNET.IsHost(a) && a != WG_SERVER_IP }

  ghost predicate NoAddressFree(peers: seq<Peer>) {
    forall a: Address :: IsPeerAddress(a) ==> a in UsedPeerIps(peers)
  }

  /** The lowest free one. */
  ghost predicate LowestPeerAddress(peers: seq<Peer>, a: Address) {
    && IsPeerAddress(a) && a !in UsedPeerIps(peers)
    && forall b: Address :: IsPeerAddress(b) && b < a ==> b in UsedPeerIps(peers)
  }

  lemma FirstCandidate(peers: seq<Peer>)
    ensures var free := FirstNotIn(PeerCandidateIps(), UsedPeerIps(peers));
            if free.Some? then LowestPeerAddress(peers, free.value) else NoAddressFree(peers)
  {
    FirstNotInIsFree(PeerCandidateIps(), UsedPeerIps(peers));
    FirstNotInIsLowest(PeerCandidateIps(), UsedPeerIps(peers));
  }

  /** The row `add_peer` inserts: the first free VPN address, and a private key only if it was generated. */
  ghost predicate NewPeer(p: Peer, before: seq<Peer>, owner: Owner, username: string, key: Option<string>,
                          generated: KeyPair) {
    && p.owner == owner && p.username == username
    && LowestPeerAddress(before, p.ip)
    && p.publicKey == (if key.Some? then key.value else generated.publicKey)
    && p.privateKey == (if key.Some? then None else Some(generated.privateKey))
  }

  /** An add as the daemon calls it, on table and file together: the new peer in both, or neither, or, if it
      failed late, a section of this user without a row. */
  ghost predicate JoinStep(before: PeerState, after: PeerState, ok: bool, owner: Owner, username: string, keys: KeyPair) {
    if ok then exists p :: NewPeer(p, before.peers, owner, username, None, keys) && after == before.Step(Add(p))
    else after == before || exists p: Peer :: p.username == username && after == before.Step(FailedAdd(p))
  }

  /** One row more: this user's, for this owner, with these keys, at an address of the VPN. */
  ghost predicate PeerJoined(before: seq<Peer>, after: seq<Peer>, owner: Owner, username: string, keys: KeyPair) {
    exists p :: after == before + [p] && p.owner == owner && p.username == username &&
                p.publicKey == keys.publicKey && p.privateKey == Some(keys.privateKey) &&
                LowestPeerAddress(before, p.ip)
  }

  /** `FailedAdd` is an add that failed after its block was appended. */
  datatype PeerOp = Add(peer: Peer) | FailedAdd(peer: Peer) | Remove(username: string)

  /** Table and file together. */
  datatype PeerState = PeerState(peers: seq<Peer>, text: string) {
    /** One operation: a removal that finds no row touches neither. */
    function Step(op: PeerOp): PeerState {
      match op
      case Add(p) => PeerState(peers + [p], text + Block(p))
      case FailedAdd(p) => PeerState(peers, text + Block(p))
      case Remove(u) =>
        if !HasUsername(peers, u) then this
        else
          var rest := WithoutUser(peers, u);
          PeerState(rest, Rendered(Header(text), rest))
    }
  }

  /** The file as a value, with the failures so far. */
  datatype FileView = FileView(text: string, faults: nat)

  class ServerConfig {
    var text: string
    /** Files, tools and the interface failed so often so far. */
    var faults: nat

    /** A file that `init_server` wrote, or any other with a plain header and no peers yet. */
    constructor (text: string)
      ensures this.text == text
    {
      this.text, faults := text, 0;
    }

    /** `load_server_config`. */
    method Load() returns (ok: bool)
      modifies this`faults
      ensures faults == old(faults) + if ok then 0 else 1
    {
      ok := *;
      faults := faults + if ok then 0 else 1;
    }

    ghost function View(): FileView
      reads this
    {
      FileView(text, faults)
    }

    /** The file says what the database says. */
    ghost predicate InSync(h: string, db: DatabaseManager)
      reads this, db
    {
      text == Rendered(h, db.peers)
    }

    ghost function State(db: DatabaseManager): PeerState
      reads this, db
    {
      PeerState(db.peers, text)
    }

    /** `_rewrite_server_config`. */
    method Rewrite(db: DatabaseManager, exclude: string) returns (ok: bool)
      modifies this
      ensures text == if ok then Rendered(Header(old(text)), WithoutUser(db.peers, exclude)) else old(text)
      ensures faults == old(faults) + if ok then 0 else 1
    {
      var parts := Render(Header(text), db.peers, exclude);
      ok := *;
      if ok {
        text := parts;
      } else {
        faults := faults + 1;
      }
    }

    /** The try block of `add_peer`: the block is appended, and then a later step may fail. */
    method Announce(peer: Peer, ghost h: string) returns (done: bool)
      requires HasHeader(text, h)
      modifies this
      ensures HasHeader(text, h)
      ensures text == old(text) + Block(peer) || (!done && text == old(text))
      ensures faults == old(faults) + if done then 0 else 1
    {
      var appended: bool, finished: bool := *, *;
      if appended {
        SectionKeepsHeader(text, h, peer);
        text := text + Block(peer);
      }
      done := appended && finished;
      faults := faults + if done then 0 else 1;
    }

    /** `add_peer` after its INSERT. On failure the row is deleted again, but a block already appended stays. */
    method Enrol(db: DatabaseManager, peer: Peer, ghost before: PeerState, ghost h: string) returns (done: bool)
      requires db.Valid() && HasHeader(text, h)
      requires State(db) == PeerState(before.peers + [peer], before.text) && !HasUsername(before.peers, peer.username)
      modifies this, db`peers
      ensures db.Valid() && HasHeader(text, h)
      ensures if done then State(db) == before.Step(Add(peer))
              else State(db) == before || State(db) == before.Step(FailedAdd(peer))
      ensures faults == old(faults) + if done then 0 else 1
    {
      done := Announce(peer, h);
      if !done {
        RemoveAppendedPeer(before.peers, peer);
        var _ := db.RemovePeer(peer.username);
      }
    }

    /** `add_peer`. `key` is the caller's public key, or `None` for a generated pair. */
    method AddPeer(db: DatabaseManager, owner: Owner, username: string, key: Option<string>, keyValid: bool,
                   generated: KeyPair, ghost h: string)
      returns (r: AddOutcome)
      requires db.Valid() && PlainHeader(h) && HasHeader(text, h)
      modifies this, db`peers, db`nextPeerId
      ensures db.Valid() && HasHeader(text, h)
      // what is wrong with the request, in the order looked at; otherwise only a failure stops it
      ensures r.KeyRejected? <==> key.Some? && !keyValid
      ensures r.NoAddress? <==> !r.KeyRejected? && NoAddressFree(old(db.peers))
      ensures r.NameTaken? <==> !r.KeyRejected? && !r.NoAddress? && HasUsername(old(db.peers), username)
      ensures faults == old(faults) + if r.RolledBack? then 1 else 0
      ensures r.PeerAdded? ==> State(db) == old(State(db)).Step(Add(r.peer)) &&
                               NewPeer(r.peer, old(db.peers), owner, username, key, generated)
      ensures r.PeerAdded? && old(InSync(h, db)) ==> InSync(h, db)
      ensures r.RolledBack? ==>
                State(db) == old(State(db)) ||
                exists p: Peer :: p.username == username && State(db) == old(State(db)).Step(FailedAdd(p))
      ensures !r.PeerAdded? && !r.RolledBack? ==> State(db) == old(State(db))
    {
      if key.Some? && !keyValid {
        return KeyRejected;
      }
      var publicKey := if key.Some? then key.value else generated.publicKey;
      var privateKey := if key.Some? then None else Some(generated.privateKey);
      ghost var before := State(db);
      FirstCandidate(before.peers);
      var outcome := db.AllocatePeer(owner, username, publicKey, privateKey, PeerCandidateIps());
      if outcome.AddressesExhausted? {
        return NoAddress;
      }
      if outcome.UsernameTaken? {
        return NameTaken;
      }
      AppendIsRewrite(h, before.peers, outcome.peer);
      var done := Enrol(db, outcome.peer, before, h);
      r := if done then PeerAdded(outcome.peer) else RolledBack;
    }

    /** `add_peer` as the daemon calls it, with a generated key pair. */
    method AddGeneratedPeer(db: DatabaseManager, owner: Owner, username: string, keys: KeyPair, ghost h: string)
      returns (ok: bool)
      requires db.Valid() && PlainHeader(h) && HasHeader(text, h)
      modifies this, db`peers, db`nextPeerId
      ensures db.Valid() && HasHeader(text, h)
      ensures if ok then PeerJoined(old(db.peers), db.peers, owner, username, keys) else db.peers == old(db.peers)
      ensures JoinStep(old(State(db)), State(db), ok, owner, username, keys)
      ensures !ok ==> old(faults) < faults || NoAddressFree(old(db.peers)) || HasUsername(old(db.peers), username)
      ensures old(faults) <= faults
    {
      var added := AddPeer(db, owner, username, None, true, keys, h);
      ok := added.PeerAdded?;
    }

    /** `remove_peer`. A completed removal leaves the file in step with the database, whatever stale
        sections it held before. The removal of the client's own file comes last and may fail too. */
    method RemovePeer(db: DatabaseManager, username: string, ghost h: string) returns (r: RemoveOutcome)
      requires db.Valid() && PlainHeader(h) && HasHeader(text, h)
      modifies this, db`peers
      ensures db.Valid() && HasHeader(text, h)
      ensures r.NoSuchPeer? <==> !HasUsername(old(db.peers), username)
      ensures !r.RemoveRaised? ==> State(db) == old(State(db)).Step(Remove(username))
      ensures r.PeerRemoved? ==> db.peers == WithoutUser(old(db.peers), username) && InSync(h, db)
      ensures faults == old(faults) + if r.RemoveRaised? then 1 else 0
      ensures r.RemoveRaised? ==> State(db) == old(State(db)) || State(db) == old(State(db)).Step(Remove(username))
    {
      if !HasUsername(db.peers, username) {
        return NoSuchPeer;
      }
      var toolMissing: bool := *;
      if toolMissing {
        faults := faults + 1;
        return RemoveRaised;
      }
      HeaderRecovered(text, h);
      var written := Rewrite(db, username);
      if !written {
        return RemoveRaised;
      }
      var _ := db.RemovePeer(username);
      RenderedHasHeader(h, db.peers);
      var unlinked: bool := *;
      if !unlinked {
        faults := faults + 1;
        return RemoveRaised;
      }
      r := PeerRemoved;
    }
  }

  lemma {:induction false} WithoutUserOfConcat(a: seq<Peer>, b: seq<Peer>, username: string)
    ensures WithoutUser(a + b, username) == WithoutUser(a, username) + WithoutUser(b, username)
  {
    if a == [] {
      assert a + b == b;
    } else {
      assert (a + b)[1..] == a[1..] + b;
      WithoutUserOfConcat(a[1..], b, username);
    }
  }

  lemma WithoutUserStep(peers: seq<Peer>, i: nat, username: string)
    requires i < |peers|
    ensures WithoutUser(peers[..i + 1], username) ==
            if peers[i].username == username then WithoutUser(peers[..i], username)
            else WithoutUser(peers[..i], username) + [peers[i]]
  {
    assert peers[..i + 1] == peers[..i] + [peers[i]];
    WithoutUserOfConcat(peers[..i], [peers[i]], username);
    assert [peers[i]][1..] == [];
  }

  lemma RenderedSnoc(h: string, peers: seq<Peer>, p: Peer)
    ensures Rendered(h, peers + [p]) == Rendered(h, peers) + Block(p)
  {
    BlocksOfConcat(peers, [p]);
    BlocksOfOne(p);
  }

  lemma RenderStep(h: string, peers: seq<Peer>, i: nat, exclude: string)
    requires i < |peers|
    ensures Rendered(h, WithoutUser(peers[..i + 1], exclude)) ==
            if peers[i].username == exclude then Rendered(h, WithoutUser(peers[..i], exclude))
            else Rendered(h, WithoutUser(peers[..i], exclude)) + Block(peers[i])
  {
    WithoutUserStep(peers, i, exclude);
    if peers[i].username != exclude {
      RenderedSnoc(h, WithoutUser(peers[..i], exclude), peers[i]);
    }
  }

  lemma RemoveAppendedPeer(peers: seq<Peer>, peer: Peer)
    requires !HasUsername(peers, peer.username)
    ensures WithoutUser(peers + [peer], peer.username) == peers
  {
    WithoutUserOfConcat(peers, [peer], peer.username);
  }

  // ----- whole histories

  /** What any sequence of adds and removals leaves, from an empty table and the bare header. */
  function After(h: string, ops: seq<PeerOp>): PeerState {
    if ops == [] then PeerState([], h) else After(h, ops[..|ops| - 1]).Step(ops[|ops| - 1])
  }

  /** No add has failed since the last removal that found its user. */
  ghost predicate CleanSinceRemoval(h: string, ops: seq<PeerOp>) {
    ops == [] ||
    var init := ops[..|ops| - 1];
    match ops[|ops| - 1]
    case Add(_) => CleanSinceRemoval(h, init)
    case FailedAdd(_) => false
    case Remove(u) => HasUsername(After(h, init).peers, u) || CleanSinceRemoval(h, init)
  }

  /** After any history the header is intact, and the file says exactly what the database says
      if and only if no add failed since the last removal that found its user; removing a user
      without a row, such as one whose add just failed, leaves the stale section in place. */
  lemma {:induction false} HistoryKeepsConfig(h: string, ops: seq<PeerOp>)
    requires PlainHeader(h)
    ensures var s := After(h, ops);
            && HasHeader(s.text, h)
            && (CleanSinceRemoval(h, ops) <==> s.text == Rendered(h, s.peers))
            && (!CleanSinceRemoval(h, ops) ==> |s.text| > |Rendered(h, s.peers)|)
  {
    if ops == [] {
      assert h[|h|..] == "";
    } else {
      HistoryKeepsConfig(h, ops[..|ops| - 1]);
      StepKeepsConfig(h, After(h, ops[..|ops| - 1]), ops[|ops| - 1]);
    }
  }

  lemma StepKeepsConfig(h: string, s: PeerState, op: PeerOp)
    requires PlainHeader(h) && HasHeader(s.text, h)
    requires s.text == Rendered(h, s.peers) || |s.text| > |Rendered(h, s.peers)|
    ensures var t := s.Step(op);
            && HasHeader(t.text, h)
            && (t.text == Rendered(h, t.peers) || |t.text| > |Rendered(h, t.peers)|)
            && (t.text == Rendered(h, t.peers) <==>
                match op
                case Add(_) => s.text == Rendered(h, s.peers)
                case FailedAdd(_) => false
                case Remove(u) => HasUsername(s.peers, u) || s.text == Rendered(h, s.peers))
  {
    match op {
      case Add(p) =>
        SectionKeepsHeader(s.text, h, p);
        RenderedSnoc(h, s.peers, p);
      case FailedAdd(p) =>
        SectionKeepsHeader(s.text, h, p);
        BlockStarts(p, "");
      case Remove(u) =>
        HeaderRecovered(s.text, h);
        RenderedHasHeader(h, WithoutUser(s.peers, u));
    }
  }

  /** The add of a new user that fails after its block was written, then the removal of that user. */
  lemma FailedAddSurvivesRemoval(h: string, p: Peer)
    requires PlainHeader(h)
    ensures var s := After(h, [FailedAdd(p), Remove(p.username)]); s.peers == [] && s.text == h + Block(p) != Rendered(h, [])
  {
    var ops := [FailedAdd(p), Remove(p.username)];
    assert ops[..1] == [FailedAdd(p)] && ops[..1][..0] == [];
    assert After(h, ops[..1]) == PeerState([], h + Block(p));
    BlockStarts(p, "");
    assert |Block(p)| > 0 && Rendered(h, []) == h;
  }

  // ----- init_server

  function InterfaceLines(port: nat, privateKey: string): seq<string> {
    ["# edo: WireGuard server interface", "Address = 10.8.0.1/24", "ListenPort = " + Decimal(port),
     "PrivateKey = " + privateKey, "SaveConfig = false"]
  }

  /** The file `init_server` writes. */
  function InitialConfig(port: nat, privateKey: string): string {
    "[Interface]\n" + JoinLines(InterfaceLines(port, privateKey))
  }

  lemma {:induction false} JoinHasNoBracket(lines: seq<string>)
    requires forall s :: s in lines ==> '[' !in s
    ensures '[' !in JoinLines(lines)
  {
    if lines != [] {
      JoinHasNoBracket(lines[..|lines| - 1]);
    }
  }

  lemma JoinEndsWithLast(lines: seq<string>)
    requires lines != [] && lines[|lines| - 1] != ""
    ensures var text, last := JoinLines(lines), lines[|lines| - 1];
            |text| >= 2 && text[|text| - 1] == '\n' && text[|text| - 2] == last[|last| - 1]
  {}

  lemma {:induction false} NoBracketNoMark(s: string)
    requires '[' !in s
    ensures BeforeMark(s) == s
  {
    if s != [] {
      assert s[0] in s && PEER_MARK[0] == '[';
      NoBracketNoMark(s[1..]);
    }
  }

  lemma OtherSectionIsNoMark(h: string)
    requires |h| > 1 && h[0] == '[' && h[1] != 'P' && '[' !in h[1..]
    ensures BeforeMark(h) == h
  {
    NoBracketNoMark(h[1..]);
    assert PEER_MARK[1] == 'P';
    assert h == [h[0]] + h[1..];
  }

  lemma OneSectionHasNoMark(rest: string)
    requires '[' !in rest
    ensures BeforeMark("[Interface]\n" + rest) == "[Interface]\n" + rest
  {
    var name := "Interface]\n";
    assert "[Interface]\n" == ['['] + name;
    var h := ['['] + name + rest;
    assert h[1..] == name + rest && h[1] == name[0];
    assert '[' !in name;
    OtherSectionIsNoMark(h);
  }

  lemma LastLineBreakStays(h: string)
    requires 2 <= |h| && h[|h| - 1] == '\n' && !IsSpace(h[|h| - 2])
    ensures RStrip(h) + "\n" == h
  {
    var n := |h|;
    assert h[..n - 1][n - 2] == h[n - 2];
    assert h[..n - 1] + "\n" == h;
  }

  lemma OneSectionIsPlain(rest: string)
    requires '[' !in rest && 2 <= |rest| && rest[|rest| - 1] == '\n' && !IsSpace(rest[|rest| - 2])
    ensures PlainHeader("[Interface]\n" + rest)
  {
    OneSectionHasNoMark(rest);
    LastLineBreakStays("[Interface]\n" + rest);
  }

  /** A key is base64, so the initial file is a plain header. */
  lemma InitialConfigIsPlain(port: nat, privateKey: string)
    requires '[' !in privateKey
    ensures PlainHeader(InitialConfig(port, privateKey))
  {
    DecimalIsDigits(port);
    var lines := InterfaceLines(port, privateKey);
    LinesHaveNoBracket(port, privateKey);
    JoinHasNoBracket(lines);
    JoinEndsWithLast(lines);
    OneSectionIsPlain(JoinLines(lines));
  }

  lemma LinesHaveNoBracket(port: nat, privateKey: string)
    requires '[' !in privateKey && IsDigits(Decimal(port))
    ensures forall s :: s in InterfaceLines(port, privateKey) ==> '[' !in s
  {
    FixedLinesHaveNoBracket();
    CommentHasNoBracket();
  }

  lemma FixedLinesHaveNoBracket()
    ensures '[' !in "Address = 10.8.0.1/24" && '[' !in "ListenPort = "
    ensures '[' !in "PrivateKey = " && '[' !in "SaveConfig = false"
  {}

  lemma CommentHasNoBracket()
    ensures '[' !in "# edo: WireGuard server interface"
  {}
}
