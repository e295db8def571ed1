/** The overlay's addresses, invitations, reservations and peers, and the effect of
    every operation on them.

    An address is a number; the subnet says which numbers can be handed out.  A
    reservation is a file under the pending directory, named after its invitation. */
module OverlayTable {
  import opened Prelude

  const FIRST_PEER_INDEX := 256

  type TokenId = string
  type Username = string
  type Key = string
  type Address = int

  function Pow2(n: nat): nat {
    if n == 0 then 1 else 2 * Pow2(n - 1)
  }

  datatype Subnet = Subnet(network: int, prefix: nat) {
    /** What the settings accept: neither narrower than /30 nor wider than /8. */
    predicate Accepted() {
      8 <= prefix <= 30
    }

    function Size(): nat
      requires Accepted()
    {
      Pow2(32 - prefix)
    }

    function Hub(): Address {
      network + 1
    }

    function Broadcast(): Address
      requires Accepted()
    {
      network + Size() - 1
    }

    /** None where the index is the network address, the broadcast address or outside. */
    function AddressAt(index: int): Option<Address>
      requires Accepted()
    {
      if index < 1 || index >= Size() - 1 then None else Some(network + index)
    }

    /** An address a peer may be given. */
    predicate Usable(address: Address)
      requires Accepted()
    {
      network + FIRST_PEER_INDEX <= address < network + Size() - 1
    }
  }

  /** The lowest address from this index up that is not taken. */
  function LeastFree(subnet: Subnet, taken: set<Address>, index: int): Option<Address>
    requires subnet.Accepted()
    decreases subnet.Size() - index
  {
    if index >= subnet.Size() - 1 then None
    else if subnet.network + index !in taken then Some(subnet.network + index)
    else LeastFree(subnet, taken, index + 1)
  }

  /** None is the conflict the source raises when nothing is free. */
  function Allocated(subnet: Subnet, taken: set<Address>): Option<Address>
    requires subnet.Accepted()
  {
    LeastFree(subnet, taken, FIRST_PEER_INDEX)
  }

  // --- State ---------------------------------------------------------------

  datatype Invitation = Invitation(
    username: Username,
    address: Option<Address>,
    bootstrap: bool,
    expires: int,
    redeemed: bool,
    revoked: bool)

  datatype Reservation = Reservation(username: Username, address: Address, key: Key)

  datatype Peer = Peer(address: Address, key: Key)

  /** `redemptions` counts how often each invitation was redeemed. */
  datatype State = State(
    subnet: Subnet,
    enabled: bool,
    invitations: map<TokenId, Invitation>,
    pending: map<TokenId, Reservation>,
    enrolled: map<Username, Peer>,
    clock: int,
    redemptions: multiset<TokenId>)

  /** The invitation could still be used: this is also when its token resolves. */
  predicate Open(s: State, id: TokenId) {
    && id in s.invitations
    && !s.invitations[id].redeemed
    && !s.invitations[id].revoked
    && s.invitations[id].expires > s.clock
  }

  /** What open invitations were promised. */
  function Promised(s: State): set<Address> {
    set id | id in s.invitations && Open(s, id) && s.invitations[id].address.Some? :: s.invitations[id].address.value
  }

  function EnrolledAddresses(s: State): set<Address> {
    set u | u in s.enrolled :: s.enrolled[u].address
  }

  /** One peer block of the hub configuration. */
  datatype HubPeer =
    | ForInvitation(id: TokenId, address: Address)
    | ForProbe(username: Username, address: Address)

  /** An enrolled probe outranks a reservation on the same address. */
  function HubPeers(s: State): set<HubPeer> {
    (set id | id in s.pending && s.pending[id].address !in EnrolledAddresses(s) :: ForInvitation(id, s.pending[id].address))
    + (set u | u in s.enrolled :: ForProbe(u, s.enrolled[u].address))
  }

  function PeerAddresses(s: State): set<Address> {
    set p | p in HubPeers(s) :: p.address
  }

  // --- Operations ----------------------------------------------------------

  function Pruned(s: State): State {
    s.(pending := map id | id in s.pending && Open(s, id) :: s.pending[id])
  }

  /** Nothing but the prune happens where no address is free, or where a tunnel
      enrolment is asked for and there is no address to promise. */
  function Issued(s: State, id: TokenId, username: Username, bootstrap: bool, ttl: int, key: Key): State
    requires s.subnet.Accepted()
  {
    var p := Pruned(s);
    var address := if p.enabled then Allocated(p.subnet, PeerAddresses(p) + Promised(p)) else None;
    if (p.enabled || bootstrap) && address.None? then p
    else
      var invitation := Invitation(username, address, bootstrap, p.clock + ttl, false, false);
      p.(invitations := p.invitations[id := invitation],
         pending := if bootstrap then p.pending[id := Reservation(username, address.value, key)] else p.pending)
  }

  function Without<K, V>(m: map<K, V>, k: K): map<K, V> {
    map x | x in m && x != k :: m[x]
  }

  function Revoked(s: State, id: TokenId): State
    requires id in s.invitations
  {
    var invitation := s.invitations[id];
    s.(invitations := s.invitations[id := if invitation.redeemed then invitation else invitation.(revoked := true)],
       pending := Without(s.pending, id))
  }

  /** The callback and the enrolment it starts, as one step: `reported` is the overlay
      key the probe names, if it joined.  A probe that was handed a key and reports
      another one is refused, and its reservation stays for the next prune. */
  function Redeemed(s: State, id: TokenId, reported: Option<Key>): State
    requires Open(s, id)
  {
    var invitation := s.invitations[id];
    var spent := s.(invitations := s.invitations[id := invitation.(redeemed := true)],
                    redemptions := s.redemptions + multiset{id});
    if invitation.address.None? || reported.None? then
      if invitation.bootstrap then spent.(pending := Without(s.pending, id)) else spent
    else if id in s.pending && s.pending[id].key != reported.value then spent
    else spent.(enrolled := s.enrolled[invitation.username := Peer(invitation.address.value, reported.value)],
                pending := Without(s.pending, id))
  }

  /** The address `attach` gives a probe: its own, or the lowest no peer holds. */
  function AttachAddress(s: State, username: Username): Option<Address>
    requires s.subnet.Accepted()
  {
    if username in s.enrolled then Some(s.enrolled[username].address)
    else Allocated(s.subnet, PeerAddresses(s))
  }

  function Attached(s: State, username: Username, key: Key): State
    requires s.subnet.Accepted()
  {
    if !s.enabled then s
    else match AttachAddress(s, username)
      case None => s
      case Some(address) => s.(enrolled := s.enrolled[username := Peer(address, key)])
  }

  function DetachedFrom(s: State, username: Username): State {
    s.(enrolled := Without(s.enrolled, username))
  }
}
