/** Address strings: `<transport>:<multiaddr>/p2p/<peer id>`, printed for the
    user and parsed again by lookup.  Peer ids and multiaddrs keep their own
    text forms; only the peer id's text is known to contain no slash. */
module AddrString {
  import opened Prelude

  /** The parts of a multiaddr that matter here, and the others by their text. */
  datatype Protocol = P2pCircuit | QuicV1 | Other(text: string)

  type Multiaddr = seq<Protocol>

  /** The text forms of the two library types. */
  datatype Syntax<!P> = Syntax(
    showPeer: P -> string,
    readPeer: string -> Option<P>,
    showMulti: Multiaddr -> string,
    readMulti: string -> Option<Multiaddr>)

  datatype Addr<P> = Addr(peer: P, multi: Option<Multiaddr>)

  const P2P := "/p2p/"

  predicate Circuit(m: Multiaddr) { P2pCircuit in m }

  /** "relay" if the address goes through a circuit, else "quic" or "tcp". */
  function Prefix(m: Multiaddr): string {
    if Circuit(m) then "relay" else if QuicV1 in m then "quic" else "tcp"
  }

  method TransportPrefix(m: Multiaddr) returns (prefix: string)
    ensures prefix == Prefix(m)
    ensures prefix == "relay" <==> P2pCircuit in m
    ensures prefix == "quic" <==> P2pCircuit !in m && QuicV1 in m
    ensures prefix == "tcp" <==> P2pCircuit !in m && QuicV1 !in m
  {
    assert "relay"[0] == 'r' && "quic"[0] == 'q' && "tcp"[0] == 't';
    var i := 0;
    while i < |m|
      invariant 0 <= i <= |m| && P2pCircuit !in m[..i]
    {
      if m[i].P2pCircuit? { return "relay"; }
      i := i + 1;
    }
    i := 0;
    while i < |m|
      invariant 0 <= i <= |m| && QuicV1 !in m[..i]
    {
      if m[i].QuicV1? { return "quic"; }
      i := i + 1;
    }
    return "tcp";
  }

  function ToAddrString<P>(x: Syntax<P>, a: Addr<P>): string {
    match a.multi
    case Some(m) => Prefix(m) + ":" + x.showMulti(m) + P2P + x.showPeer(a.peer)
    case None => "tcp:" + P2P + x.showPeer(a.peer)
  }

  predicate At(s: string, sub: string, i: nat) {
    i + |sub| <= |s| && s[i..i + |sub|] == sub
  }

  /** The last place before `n` at which `sub` occurs. */
  function LastBefore(s: string, sub: string, n: nat): (r: Option<nat>)
    ensures r.Some? ==> r.value < n && At(s, sub, r.value)
    ensures forall j | 0 <= j < n :: At(s, sub, j) ==> r.Some? && j <= r.value
  {
    if n == 0 then None else if At(s, sub, n - 1) then Some(n - 1) else LastBefore(s, sub, n - 1)
  }

  function LastAt(s: string, sub: string): (r: Option<nat>)
    ensures r.Some? ==> At(s, sub, r.value)
    ensures forall j: nat | j < |s| :: At(s, sub, j) ==> r.Some? && j <= r.value
  {
    LastBefore(s, sub, |s|)
  }

  function Strip(s: string, prefix: string): Option<string> {
    if prefix <= s then Some(s[|prefix|..]) else None
  }

  /** The input without its transport prefix, if it has one. */
  function Body(s: string): string {
    if Strip(s, "tcp:").Some? then Strip(s, "tcp:").value
    else if Strip(s, "quic:").Some? then Strip(s, "quic:").value
    else if Strip(s, "relay:").Some? then Strip(s, "relay:").value
    else s
  }

  /** What lookup does with a name: dial directly, connect through the relay, or
      refuse. */
  datatype Lookup<P> = Dial(addr: Addr<P>) | ThroughRelay(addr: Addr<P>) | Refused

  function ParseName<P>(x: Syntax<P>, s: string): Lookup<P> {
    var relay := "relay:" <= s;
    var input := Body(s);
    match LastAt(input, P2P)
    case None => Refused
    case Some(i) =>
      match x.readPeer(input[i + |P2P|..])
      case None => Refused
      case Some(peer) =>
        var front := input[..i];
        if front == "" then
          if relay then Refused else Dial(Addr(peer, None))
        else match x.readMulti(front)
          case None => Refused
          case Some(m) => if relay then ThroughRelay(Addr(peer, Some(m))) else Dial(Addr(peer, Some(m)))
  }

  /** The text forms read back what they show, and peer ids contain no slash. */
  ghost predicate Faithful<P(!new)>(x: Syntax<P>) {
    && (forall p: P :: x.readPeer(x.showPeer(p)) == Some(p) && '/' !in x.showPeer(p))
    && (forall m: Multiaddr :: x.showMulti(m) != "" ==> x.readMulti(x.showMulti(m)) == Some(m))
  }

  /** The last `/p2p/` of a name is the one before the peer id, whatever the
      multiaddr contains. */
  lemma LastSeparator(front: string, peer: string)
    requires '/' !in peer
    ensures LastAt(front + P2P + peer, P2P) == Some(|front|)
  {
    var s := front + P2P + peer;
    assert At(s, P2P, |front|);
    forall j: nat | |front| < j < |s| ensures !At(s, P2P, j) {
      NoSlashAfter(front, peer, j);
    }
  }

  lemma NoSlashAfter(front: string, peer: string, j: nat)
    requires '/' !in peer && |front| < j
    ensures !At(front + P2P + peer, P2P, j)
  {
    var s := front + P2P + peer;
    assert |s| == |front| + 5 + |peer|;
    if j + 5 <= |s| {
      assert s[j..j + 5][4] == s[j + 4] == peer[j - |front| - 1];
      assert P2P[4] == '/';
    }
  }

  lemma BodyOfPrinted(prefix: string, rest: string)
    requires prefix == "tcp" || prefix == "quic" || prefix == "relay"
    ensures Body(prefix + ":" + rest) == rest
    ensures "relay:" <= prefix + ":" + rest <==> prefix == "relay"
  {
    var s := prefix + ":" + rest;
    if prefix == "tcp" {
      assert s == "tcp:" + rest && s[0] == 't';
    } else if prefix == "quic" {
      assert s == "quic:" + rest && s[0] == 'q';
    } else {
      assert s == "relay:" + rest && s[0] == 'r';
    }
  }

  /** Looking up `<prefix>:<front>/p2p/<peer>`. */
  lemma ParsePrinted<P(!new)>(x: Syntax<P>, prefix: string, front: string, p: P)
    requires Faithful(x) && (prefix == "tcp" || prefix == "quic" || prefix == "relay")
    ensures
      ParseName(x, prefix + ":" + (front + P2P + x.showPeer(p)))
        == if front == "" then (if prefix == "relay" then Refused else Dial(Addr(p, None)))
           else match x.readMulti(front)
             case None => Refused
             case Some(m) => if prefix == "relay" then ThroughRelay(Addr(p, Some(m))) else Dial(Addr(p, Some(m)))
  {
    hide Body, LastAt;
    var rest := front + P2P + x.showPeer(p);
    LastSeparator(front, x.showPeer(p));
    BodyOfPrinted(prefix, rest);
    assert rest[..|front|] == front && rest[|front| + 5..] == x.showPeer(p);
    assert x.readPeer(x.showPeer(p)) == Some(p);
  }

  lemma PrintedShape<P>(x: Syntax<P>, a: Addr<P>)
    ensures
      var prefix := if a.multi.Some? then Prefix(a.multi.value) else "tcp";
      var front := if a.multi.Some? then x.showMulti(a.multi.value) else "";
      ToAddrString(x, a) == prefix + ":" + (front + P2P + x.showPeer(a.peer))
  {
    var prefix := if a.multi.Some? then Prefix(a.multi.value) else "tcp";
    var front := if a.multi.Some? then x.showMulti(a.multi.value) else "";
    if a.multi.None? {
      assert front + P2P == P2P && "tcp:" == "tcp" + ":";
    }
    assert prefix + ":" + front + P2P + x.showPeer(a.peer) == prefix + ":" + (front + P2P + x.showPeer(a.peer));
  }

  /** Looking up a printed address gives the address back, through the relay
      exactly when its multiaddr has a circuit part, if and only if the multiaddr
      is absent or its text is not empty. */
  lemma PrintedAddressLooksUp<P(!new)>(x: Syntax<P>, a: Addr<P>)
    requires Faithful(x)
    ensures
      ParseName(x, ToAddrString(x, a))
        == (if a.multi.Some? && Circuit(a.multi.value) then ThroughRelay(a) else Dial(a))
      <==> a.multi.None? || x.showMulti(a.multi.value) != ""
  {
    hide ParseName, ToAddrString;
    PrintedShape(x, a);
    var prefix := if a.multi.Some? then Prefix(a.multi.value) else "tcp";
    var front := if a.multi.Some? then x.showMulti(a.multi.value) else "";
    ParsePrinted(x, prefix, front, a.peer);
    assert "quic"[0] == 'q' && "tcp"[0] == 't' && "relay"[0] == 'r';
  }

  /** A name without a transport prefix is dialed directly. */
  lemma BareNameIsDialed<P(!new)>(x: Syntax<P>, front: string, peer: P)
    requires Faithful(x) && (front == "" || front[0] == '/')
    ensures
      ParseName(x, front + P2P + x.showPeer(peer))
        == if front == "" then Dial(Addr(peer, None))
           else match x.readMulti(front)
             case None => Refused
             case Some(m) => Dial(Addr(peer, Some(m)))
  {
    hide LastAt;
    var s := front + P2P + x.showPeer(peer);
    LastSeparator(front, x.showPeer(peer));
    assert s[0] == '/' && "tcp:"[0] == 't' && "quic:"[0] == 'q' && "relay:"[0] == 'r';
    assert s[..|front|] == front && s[|front| + 5..] == x.showPeer(peer);
    assert x.readPeer(x.showPeer(peer)) == Some(peer);
  }

  /** An empty multiaddr, whose text is empty, does not come back. */
  lemma EmptyMultiaddrIsLost<P(!new)>(x: Syntax<P>, peer: P)
    requires Faithful(x) && x.showMulti([]) == ""
    ensures ParseName(x, ToAddrString(x, Addr(peer, Some([])))) == Dial(Addr(peer, None)) != Dial(Addr(peer, Some([])))
  {
    hide ParseName, ToAddrString;
    var a: Addr<P> := Addr(peer, Some([]));
    PrintedShape(x, a);
    ParsePrinted(x, "tcp", "", peer);
    assert "tcp"[0] == 't' && "relay"[0] == 'r';
  }
}
