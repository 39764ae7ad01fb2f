/**
 The path socket's per-peer state: the newest-wins session slot, the probe key
 and its index, outstanding probes, learnt addresses and the direct proof.

 `Inner` and the functions on it specify each lock-protected action.
 */
module PathState {
  import opened Core

  type Time = nat  // milliseconds
  type Nonce = Bytes16
  type KeyId = Bytes8
  type Key = Bytes32
  type SessionId = nat

  const DIRECT_FRESH := 15_000
  const PROBE_TIMEOUT := 5_000
  const COUNTER_PROBE_INTERVAL := 1_000
  const PONG_INTERVAL := 1_000
  const LEARNED_TTL := 10_000

  datatype Addr = V4(ip4: Bytes, port: U16) | V6(ip6: Bytes16, port: U16)

  const MAPPED_PREFIX: Bytes := [0, 0, 0, 0, 0, 0, 0, 0, 0, 0, 255, 255]

  /** A v4-mapped IPv6 address is used as the IPv4 address it stands for. */
  function Unmapped(a: Addr): Addr {
    if a.V6? && a.ip6[..12] == MAPPED_PREFIX then V4(a.ip6[12..], a.port) else a
  }

  datatype Proven = Proven(addr: Addr, provedAt: Time)

  datatype Peer = Peer(
    candidates: seq<Addr>,
    updates: U32,  // candidate lists received
    pending: map<Nonce, (Addr, Time)>,
    lastPing: map<Addr, Time>,
    lastPong: map<Addr, Time>,
    learned: map<Addr, Time>,
    probeKey: Option<(KeyId, Key)>,
    direct: Option<Proven>
  )

  const NEW_PEER: Peer := Peer([], 0, map[], map[], map[], map[], None, None)

  /** What the UDP socket allows: nothing when there is none, else one address family. */
  datatype Udp = RelayOnly | Bound(v4: bool)

  datatype Inner = Inner(
    peers: map<NodeId, Peer>,
    sessions: map<NodeId, SessionId>,
    nextSession: SessionId,
    byDirect: map<Addr, NodeId>,
    byKeyId: map<KeyId, NodeId>
  )

  const EMPTY: Inner := Inner(map[], map[], 0, map[], map[])

  function PeerOf(s: Inner, p: NodeId): Peer {
    if p in s.peers then s.peers[p] else NEW_PEER
  }

  function WithPeer(s: Inner, p: NodeId, e: Peer): Inner {
    s.(peers := s.peers[p := e])
  }

  // ---------------------------------------------------------------------
  // Candidates and targets
  // ---------------------------------------------------------------------

  predicate CanReach(udp: Udp, a: Addr) {
    udp.Bound? && udp.v4 == a.V4?
  }

  function Usable(udp: Udp, candidates: seq<Addr>): (r: seq<Addr>)
    ensures forall a | a in r :: CanReach(udp, a)
    ensures udp.RelayOnly? ==> r == []
    ensures forall a | a in candidates && CanReach(udp, Unmapped(a)) :: Unmapped(a) in r
  {
    if candidates == [] then []
    else
      var rest := Usable(udp, candidates[..|candidates| - 1]);
      var last := Unmapped(candidates[|candidates| - 1]);
      if CanReach(udp, last) then rest + [last] else rest
  }

  function SetCandidates(udp: Udp, s: Inner, p: NodeId, candidates: seq<Addr>): Inner {
    var e := PeerOf(s, p);
    WithPeer(s, p, e.(candidates := Usable(udp, candidates), updates := (e.updates + 1) % U32_LIMIT))
  }

  /** Learnt addresses that are still worth probing. */
  function FreshLearned(learned: map<Addr, Time>, now: Time): map<Addr, Time> {
    map a | a in learned && now - learned[a] < LEARNED_TTL :: learned[a]
  }

  function PruneLearned(s: Inner, p: NodeId, now: Time): Inner {
    if p in s.peers then WithPeer(s, p, s.peers[p].(learned := FreshLearned(s.peers[p].learned, now))) else s
  }

  /** Probes whose pong is still awaited. */
  function FreshPending(pending: map<Nonce, (Addr, Time)>, now: Time): map<Nonce, (Addr, Time)> {
    map n | n in pending && now - pending[n].1 < PROBE_TIMEOUT :: pending[n]
  }

  function PrunePending(s: Inner, p: NodeId, now: Time): Inner {
    WithPeer(s, p, PeerOf(s, p).(pending := FreshPending(PeerOf(s, p).pending, now)))
  }

  // ---------------------------------------------------------------------
  // Sessions
  // ---------------------------------------------------------------------

  predicate IsLive(s: Inner, p: NodeId, session: SessionId) {
    p in s.sessions && s.sessions[p] == session
  }

  function WithoutProof(s: Inner, p: NodeId, e: Peer): Inner {
    WithPeer(s, p, e.(direct := None))
    .(byDirect := if e.direct.Some? then s.byDirect - {e.direct.value.addr} else s.byDirect)
  }

  function DropDirect(s: Inner, p: NodeId, session: SessionId): Inner {
    if IsLive(s, p, session) && p in s.peers && s.peers[p].direct.Some? then WithoutProof(s, p, s.peers[p]) else s
  }

  function BeginSession(s: Inner, p: NodeId): Inner {
    var s' := s.(sessions := s.sessions[p := s.nextSession], nextSession := s.nextSession + 1);
    if p in s.peers then
      WithoutProof(s', p, s.peers[p].(candidates := [], learned := map[], pending := map[], lastPing := map[], lastPong := map[]))
    else s'
  }

  function EndSession(s: Inner, p: NodeId, session: SessionId): Inner {
    if IsLive(s, p, session) then s.(sessions := s.sessions - {p}) else s
  }

  // ---------------------------------------------------------------------
  // Probe keys
  // ---------------------------------------------------------------------

  function RegisterKey(s: Inner, p: NodeId, id: KeyId, key: Key): Inner {
    var e := PeerOf(s, p);
    var index := if e.probeKey.Some? then s.byKeyId - {e.probeKey.value.0} else s.byKeyId;
    WithPeer(s, p, e.(probeKey := Some((id, key)))).(byKeyId := index[id := p])
  }

  predicate HasKeyId(s: Inner, p: NodeId, id: KeyId) {
    p in s.peers && s.peers[p].probeKey.Some? && s.peers[p].probeKey.value.0 == id
  }

  function UnregisterKey(s: Inner, id: KeyId): Inner {
    if id !in s.byKeyId then s
    else
      var p := s.byKeyId[id];
      var s' := s.(byKeyId := s.byKeyId - {id});
      if HasKeyId(s, p, id) then WithPeer(s', p, s.peers[p].(probeKey := None)) else s'
  }

  /** The peer and key a probe's key id names. */
  function ProbeSession(s: Inner, id: KeyId): Option<(NodeId, Key)> {
    if id !in s.byKeyId || s.byKeyId[id] !in s.peers then None
    else
      var p := s.byKeyId[id];
      match s.peers[p].probeKey
      case None => None
      case Some(k) => Some((p, k.1))
  }

  // ---------------------------------------------------------------------
  // Probes
  // ---------------------------------------------------------------------

  predicate CanPing(udp: Udp, s: Inner, p: NodeId) {
    udp.Bound? && PeerOf(s, p).probeKey.Some?
  }

  function SendPing(udp: Udp, s: Inner, p: NodeId, a: Addr, nonce: Nonce, now: Time): Inner {
    if udp.RelayOnly? then s
    else
      var e := PeerOf(s, p);
      if e.probeKey.None? then WithPeer(s, p, e)
      else WithPeer(s, p, e.(pending := e.pending[nonce := (a, now)], lastPing := e.lastPing[a := now]))
  }

  /** A ping is answered unless its address was answered within the last second. */
  predicate AnswersPing(e: Peer, from: Addr, now: Time) {
    from !in e.lastPong || now - e.lastPong[from] >= PONG_INTERVAL
  }

  /** A ping is probed back unless its address is freshly proved or was pinged within the last second. */
  predicate ProbesBack(e: Peer, from: Addr, now: Time) {
    && !(e.direct.Some? && e.direct.value.addr == from && now - e.direct.value.provedAt < DIRECT_FRESH)
    && !(from in e.lastPing && now - e.lastPing[from] < COUNTER_PROBE_INTERVAL)
  }

  function Pinged(e: Peer, from: Addr, now: Time): Peer {
    var pong := if AnswersPing(e, from, now) then e.lastPong[from := now] else e.lastPong;
    var learned := if from in e.candidates then e.learned else e.learned[from := now];
    e.(lastPong := pong, learned := learned)
  }

  function GotPing(udp: Udp, s: Inner, p: NodeId, from: Addr, now: Time): Inner {
    if udp.RelayOnly? then s else WithPeer(s, p, Pinged(PeerOf(s, p), from, now))
  }

  /** A pong is accepted when its nonce is outstanding for that peer. */
  predicate Accepts(udp: Udp, s: Inner, p: NodeId, nonce: Nonce) {
    udp.Bound? && p in s.peers && nonce in s.peers[p].pending
  }

  function GotPong(udp: Udp, s: Inner, p: NodeId, nonce: Nonce, from: Addr, now: Time): Inner {
    if !Accepts(udp, s, p, nonce) then s
    else
      var e := s.peers[p];
      WithPeer(s, p, e.(pending := e.pending - {nonce}, direct := Some(Proven(from, now)), learned := e.learned - {from}))
      .(byDirect := s.byDirect[from := p])
  }

  /** Where a datagram for `p` goes: its proved address while the proof is fresh, else the relay. */
  function Route(udp: Udp, s: Inner, p: NodeId, now: Time): Option<Addr> {
    if udp.RelayOnly? || p !in s.peers then None
    else
      match s.peers[p].direct
      case None => None
      case Some(proven) => if now - proven.provedAt < DIRECT_FRESH then Some(proven.addr) else None
  }
}
