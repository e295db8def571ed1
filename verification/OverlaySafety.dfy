/** What holds over every run of invitations, redemptions and attachments on one
    subnet, with a clock that never goes back. */
module OverlaySafety {
  import opened Prelude
  import opened OverlayTable
  import opened EnrollmentService

  // --- The allocator -------------------------------------------------------

  lemma {:induction false} LeastFreeExact(subnet: Subnet, taken: set<Address>, index: int)
    requires subnet.Accepted()
    ensures var got := LeastFree(subnet, taken, index);
      && (got.Some? ==>
            && subnet.network + index <= got.value < subnet.network + subnet.Size() - 1
            && got.value !in taken
            && forall a :: subnet.network + index <= a < got.value ==> a in taken)
      && (got.None? ==> forall a :: subnet.network + index <= a < subnet.network + subnet.Size() - 1 ==> a in taken)
    decreases subnet.Size() - index
  {
    if index < subnet.Size() - 1 && subnet.network + index in taken {
      LeastFreeExact(subnet, taken, index + 1);
    }
  }

  /** Allocation gives the least usable address nobody holds, never the network, hub or
      broadcast address, and refuses exactly when every usable address is taken. */
  lemma AllocationIsLeastFree(subnet: Subnet, taken: set<Address>)
    requires subnet.Accepted()
    ensures var got := Allocated(subnet, taken);
      && (got.Some? ==>
            && subnet.Usable(got.value) && got.value !in taken
            && (forall a :: subnet.Usable(a) && a !in taken ==> got.value <= a)
            && got.value != subnet.network && got.value != subnet.Hub() && got.value != subnet.Broadcast()
            && subnet.AddressAt(got.value - subnet.network) == got)
      && (got.None? <==> forall a :: subnet.Usable(a) ==> a in taken)
  {
    LeastFreeExact(subnet, taken, FIRST_PEER_INDEX);
  }

  /** What is accepted has between 4 and 2 to the 24th addresses: the network's own first,
      then the hub's, the broadcast address last, and in between what a host can have. */
  lemma SubnetLayout(subnet: Subnet, index: int)
    requires subnet.prefix <= 32
    ensures subnet.Accepted() <==> 4 <= Pow2(32 - subnet.prefix) <= 0x100_0000
    ensures subnet.Accepted() ==>
      && subnet.Hub() == subnet.network + 1 && subnet.Broadcast() == subnet.network + (subnet.Size() - 1)
      && subnet.AddressAt(1) == Some(subnet.Hub()) && subnet.AddressAt(0) == None
      && (subnet.AddressAt(index).Some? <==> subnet.network < subnet.network + index < subnet.Broadcast())
      && (subnet.AddressAt(index).Some? ==> subnet.AddressAt(index).value == subnet.network + index)
      && subnet.AddressAt(subnet.Size() - 1) == None
  {
    var bits := 32 - subnet.prefix;
    assert Pow2(1) == 2 && Pow2(2) == 4 && Pow2(8) == 256 && Pow2(16) == 0x1_0000 by {
      Pow16();
    }
    assert Pow2(20) == 0x10_0000 && Pow2(24) == 0x100_0000 && Pow2(25) == 0x200_0000;
    if bits >= 2 {
      Pow2Grows(2, bits);
    } else {
      Pow2Grows(bits, 1);
    }
    if bits <= 24 {
      Pow2Grows(bits, 24);
    } else {
      Pow2Grows(25, bits);
    }
  }

  lemma Pow2Grows(n: nat, m: nat)
    requires n <= m
    ensures Pow2(n) <= Pow2(m)
  {
    if n < m {
      Pow2Grows(n, m - 1);
    }
  }

  /** Peers begin at index 256, so the accepted prefixes from /24 on hold no peer at
      all: allocation refuses there whatever is taken, and only there. */
  lemma NarrowSubnetsHoldNoPeer(subnet: Subnet)
    requires subnet.Accepted()
    ensures subnet.prefix >= 24 <==> forall taken :: Allocated(subnet, taken).None?
  {
    assert Pow2(8) == 256 && Pow2(9) == 512;
    if subnet.prefix >= 24 {
      Pow2Grows(32 - subnet.prefix, 8);
    } else {
      Pow2Grows(9, 32 - subnet.prefix);
      AllocationIsLeastFree(subnet, {});
      assert subnet.Usable(subnet.network + FIRST_PEER_INDEX);
      assert Allocated(subnet, {}).Some?;
    }
  }

  // --- Runs ----------------------------------------------------------------

  datatype Action =
    | Issue(id: TokenId, username: Username, bootstrap: bool, ttl: int, key: Key)
    | Revoke(id: TokenId)
    | Redeem(id: TokenId, reported: Option<Key>)
    | Prune
    | Attach(username: Username, key: Key)
    | Detach(username: Username)
    | Switch(on: bool)
    | Pass(seconds: nat)

  function Init(subnet: Subnet): State {
    State(subnet, false, map[], map[], map[], 0, multiset{})
  }

  function Apply(s: State, a: Action): State
    requires s.subnet.Accepted()
    ensures Apply(s, a).subnet == s.subnet
  {
    match a
    case Issue(id, username, bootstrap, ttl, key) =>
      if id in s.invitations then s else Issued(s, id, username, bootstrap, ttl, key)
    case Revoke(id) => if id in s.invitations then Revoked(s, id) else s
    case Redeem(id, reported) => if Open(s, id) then Redeemed(s, id, reported) else s
    case Prune => Pruned(s)
    case Attach(username, key) => Attached(s, username, key)
    case Detach(username) => DetachedFrom(s, username)
    case Switch(on) => s.(enabled := on)
    case Pass(seconds) => s.(clock := s.clock + seconds)
  }

  function Reach(subnet: Subnet, actions: seq<Action>): State
    requires subnet.Accepted()
    ensures Reach(subnet, actions).subnet == subnet
  {
    if actions == [] then Init(subnet)
    else Apply(Reach(subnet, actions[..|actions| - 1]), actions[|actions| - 1])
  }

  // --- What every reachable state keeps ------------------------------------

  /** Enrolled probes hold different usable addresses. */
  ghost predicate EnrolledApart(s: State)
    requires s.subnet.Accepted()
  {
    && (forall u <- s.enrolled :: s.subnet.Usable(s.enrolled[u].address))
    && (forall u, v | u in s.enrolled && v in s.enrolled && u != v :: s.enrolled[u].address != s.enrolled[v].address)
  }

  /** Each reservation belongs to its invitation and to nobody else. */
  ghost predicate PendingApart(s: State)
    requires s.subnet.Accepted()
  {
    && (forall id <- s.pending ::
          && id in s.invitations
          && s.invitations[id].address == Some(s.pending[id].address)
          && s.subnet.Usable(s.pending[id].address))
    && (forall id, u | id in s.pending && u in s.enrolled :: s.pending[id].address != s.enrolled[u].address)
    && (forall i, j | i in s.pending && j in s.pending && i != j :: s.pending[i].address != s.pending[j].address)
  }

  /** What an open invitation was promised is nobody else's. */
  ghost predicate PromisedApart(s: State)
    requires s.subnet.Accepted()
  {
    && (forall i | Open(s, i) && s.invitations[i].address.Some? :: s.subnet.Usable(s.invitations[i].address.value))
    && (forall i, u | Open(s, i) && u in s.enrolled :: s.invitations[i].address != Some(s.enrolled[u].address))
    && (forall i, j | Open(s, i) && Open(s, j) && i != j && s.invitations[i].address.Some? ::
          s.invitations[i].address != s.invitations[j].address)
    && (forall i, j | Open(s, i) && j in s.pending && i != j :: s.invitations[i].address != Some(s.pending[j].address))
  }

  /** A tunnel invitation has an address, and its reservation while it is open. */
  ghost predicate Reserved(s: State) {
    && (forall i <- s.invitations :: s.invitations[i].bootstrap ==> s.invitations[i].address.Some?)
    && (forall i | Open(s, i) :: s.invitations[i].bootstrap ==> i in s.pending)
    && (forall i <- s.invitations :: !s.invitations[i].bootstrap ==> i !in s.pending)
  }

  ghost predicate Counted(s: State) {
    && (forall i <- s.invitations :: s.redemptions[i] == if s.invitations[i].redeemed then 1 else 0)
    && (forall i <- s.redemptions :: i in s.invitations)
    && (forall i <- s.invitations :: !(s.invitations[i].redeemed && s.invitations[i].revoked))
  }

  ghost predicate Apart(s: State) {
    s.subnet.Accepted() && EnrolledApart(s) && PendingApart(s) && PromisedApart(s)
  }

  ghost predicate Inv(s: State) {
    Apart(s) && Reserved(s) && Counted(s)
  }

  // --- The books: kept by every step ---------------------------------------

  /** Invitations may close, and only closed ones lose their reservation. */
  lemma ClosingKeepsReserved(s: State, s': State)
    requires Reserved(s)
    requires s'.invitations.Keys == s.invitations.Keys
    requires forall i <- s.invitations :: s'.invitations[i].bootstrap == s.invitations[i].bootstrap
    requires forall i <- s.invitations :: s'.invitations[i].address == s.invitations[i].address
    requires forall i | Open(s', i) :: Open(s, i) && (i in s.pending ==> i in s'.pending)
    requires s'.pending.Keys <= s.pending.Keys
    ensures Reserved(s')
  {
  }

  lemma ReservedKeeps(s: State, a: Action)
    requires s.subnet.Accepted() && Reserved(s)
    ensures Reserved(Apply(s, a))
  {
    if a.Issue? {
      IssueKeepsReserved(s, a);
    } else if a.Redeem? {
      RedeemKeepsReserved(s, a);
    } else if a.Revoke? || a.Prune? {
      ClosingKeepsReserved(s, Apply(s, a));
    } else {
      LeavesInvitations(s, a);
      ClosingKeepsReserved(s, Apply(s, a));
    }
  }

  lemma RedeemKeepsReserved(s: State, a: Action)
    requires s.subnet.Accepted() && Reserved(s) && a.Redeem?
    ensures Reserved(Apply(s, a))
  {
    if Open(s, a.id) {
      var s' := Apply(s, a);
      assert s'.pending == s.pending || s'.pending == Without(s.pending, a.id);
      assert forall i | Open(s', i) :: Open(s, i) && i != a.id;
      ClosingKeepsReserved(s, s');
    }
  }

  lemma LeavesInvitations(s: State, a: Action)
    requires s.subnet.Accepted() && (a.Attach? || a.Detach? || a.Switch? || a.Pass?)
    ensures Apply(s, a).invitations == s.invitations && Apply(s, a).pending == s.pending
    ensures Apply(s, a).redemptions == s.redemptions && Apply(s, a).clock >= s.clock
  {
  }

  lemma IssueKeepsReserved(s: State, a: Action)
    requires s.subnet.Accepted() && Reserved(s) && a.Issue?
    ensures Reserved(Apply(s, a))
  {
    var s' := Apply(s, a);
    forall i | Open(s', i) && s'.invitations[i].bootstrap ensures i in s'.pending {
      if i != a.id || a.id in s.invitations {
        assert Open(s, i);
      }
    }
  }

  lemma CountedKeeps(s: State, a: Action)
    requires s.subnet.Accepted() && Counted(s)
    ensures Counted(Apply(s, a))
  {
    if a.Redeem? {
      RedeemKeepsCounted(s, a);
    } else if a.Issue? || a.Revoke? || a.Prune? {
      assert Apply(s, a).redemptions == s.redemptions;
    } else {
      LeavesInvitations(s, a);
    }
  }

  lemma RedeemKeepsCounted(s: State, a: Action)
    requires s.subnet.Accepted() && Counted(s) && a.Redeem?
    ensures Counted(Apply(s, a))
  {
    if Open(s, a.id) {
      assert Apply(s, a).redemptions == s.redemptions + multiset{a.id};
    }
  }

  lemma BooksKeep(s: State, a: Action)
    requires s.subnet.Accepted() && Reserved(s) && Counted(s)
    ensures Reserved(Apply(s, a)) && Counted(Apply(s, a))
  {
    ReservedKeeps(s, a);
    CountedKeeps(s, a);
  }

  // --- Addresses stay apart ------------------------------------------------

  /** Nobody holds this address and no open invitation was promised it. */
  ghost predicate Unclaimed(s: State, address: Address) {
    && (forall u <- s.enrolled :: s.enrolled[u].address != address)
    && (forall id <- s.pending :: s.pending[id].address != address)
    && (forall id | Open(s, id) :: s.invitations[id].address != Some(address))
  }

  lemma FreeIsUnclaimed(s: State, taken: set<Address>)
    requires s.subnet.Accepted() && PeerAddresses(s) <= taken
    requires Allocated(s.subnet, taken).Some?
    ensures var address := Allocated(s.subnet, taken).value;
      && s.subnet.Usable(address)
      && (forall u <- s.enrolled :: s.enrolled[u].address != address)
      && (forall id <- s.pending :: s.pending[id].address != address)
      && (Promised(s) <= taken ==> Unclaimed(s, address))
  {
    AllocationIsLeastFree(s.subnet, taken);
    TakenAddresses(s);
    forall id | Open(s, id) && s.invitations[id].address.Some? ensures s.invitations[id].address.value in Promised(s) {
    }
  }

  /** Fewer invitations are open, fewer reservations are left, and fewer probes or the
      same ones are enrolled. */
  lemma FewerStayApart(s: State, s': State)
    requires Apart(s) && s'.subnet == s.subnet
    requires forall u <- s'.enrolled :: u in s.enrolled && s'.enrolled[u] == s.enrolled[u]
    requires forall i | Open(s', i) :: Open(s, i) && s'.invitations[i].address == s.invitations[i].address
    requires forall i <- s'.pending :: i in s.pending && s'.pending[i] == s.pending[i]
    requires forall i <- s.invitations :: i in s'.invitations && s'.invitations[i].address == s.invitations[i].address
    ensures Apart(s')
  {
  }

  /** A new invitation, with the reservation of its address if it is a tunnel's. */
  ghost predicate Invites(s: State, s': State, id: TokenId, invitation: Invitation, username: Username, key: Key) {
    && id !in s.invitations
    && (invitation.bootstrap ==> invitation.address.Some?)
    && s' == s.(invitations := s.invitations[id := invitation],
                pending := if invitation.bootstrap
                           then s.pending[id := Reservation(username, invitation.address.value, key)] else s.pending)
  }

  lemma InvitingKeepsPending(s: State, s': State, id: TokenId, invitation: Invitation, username: Username, key: Key)
    requires Apart(s) && Invites(s, s', id, invitation, username, key)
    requires invitation.address.Some? ==> s.subnet.Usable(invitation.address.value) && Unclaimed(s, invitation.address.value)
    ensures EnrolledApart(s') && PendingApart(s')
  {
    assert id !in s.pending;
  }

  lemma InvitingKeepsPromised(s: State, s': State, id: TokenId, invitation: Invitation, username: Username, key: Key)
    requires Apart(s) && Invites(s, s', id, invitation, username, key)
    requires invitation.address.Some? ==> s.subnet.Usable(invitation.address.value) && Unclaimed(s, invitation.address.value)
    ensures PromisedApart(s')
  {
    assert forall i :: i != id ==> (Open(s', i) <==> Open(s, i));
    assert id !in s.pending;
  }

  lemma IssueKeeps(s: State, a: Action)
    requires Apart(s) && a.Issue?
    ensures Apart(Apply(s, a))
  {
    if a.id !in s.invitations {
      var p := Pruned(s);
      assert forall id :: Open(p, id) <==> Open(s, id);
      FewerStayApart(s, p);
      var s' := Apply(s, a);
      if s' != p {
        if p.enabled {
          FreeIsUnclaimed(p, PeerAddresses(p) + Promised(p));
        }
        InvitingKeepsPending(p, s', a.id, s'.invitations[a.id], a.username, a.key);
        InvitingKeepsPromised(p, s', a.id, s'.invitations[a.id], a.username, a.key);
      }
    }
  }

  /** A probe takes an address that nobody holds and no open invitation was promised,
      giving up the one it may have had. */
  lemma EnrolKeeps(s: State, s': State, username: Username, address: Address, key: Key)
    requires Apart(s) && s.subnet.Usable(address)
    requires forall u <- s.enrolled :: u != username ==> s.enrolled[u].address != address
    requires forall id <- s.pending :: s.pending[id].address != address
    requires forall id | Open(s, id) :: s.invitations[id].address != Some(address)
    requires s' == s.(enrolled := s.enrolled[username := Peer(address, key)])
    ensures Apart(s')
  {
    assert forall i :: Open(s', i) <==> Open(s, i);
  }

  /** An open invitation is spent; its reservation may stay or go. */
  lemma SpendKeeps(s: State, spent: State, id: TokenId)
    requires Apart(s) && Open(s, id)
    requires spent == s.(invitations := s.invitations[id := s.invitations[id].(redeemed := true)],
                         redemptions := spent.redemptions, pending := spent.pending)
    requires spent.pending == s.pending || spent.pending == Without(s.pending, id)
    ensures Apart(spent)
    ensures forall i :: Open(spent, i) <==> i != id && Open(s, i)
  {
    assert forall i :: Open(spent, i) <==> i != id && Open(s, i);
    FewerStayApart(s, spent);
  }

  lemma RedeemKeeps(s: State, a: Action)
    requires Apart(s) && a.Redeem?
    ensures Apart(Apply(s, a))
  {
    if Open(s, a.id) {
      var s' := Apply(s, a);
      var spent := s'.(enrolled := s.enrolled);
      SpendKeeps(s, spent, a.id);
      if s' != spent {
        EnrolKeeps(spent, s', s.invitations[a.id].username, s.invitations[a.id].address.value, a.reported.value);
      }
    }
  }

  /** The address this attachment hands out was promised to an open invitation. */
  ghost predicate Collides(s: State, a: Action)
    requires s.subnet.Accepted()
  {
    && a.Attach?
    && s.enabled
    && a.username !in s.enrolled
    && AttachAddress(s, a.username).Some?
    && AttachAddress(s, a.username).value in Promised(s)
  }

  lemma AttachKeeps(s: State, a: Action)
    requires Apart(s) && a.Attach? && !Collides(s, a)
    ensures Apart(Apply(s, a))
  {
    if s.enabled && AttachAddress(s, a.username).Some? {
      var address := AttachAddress(s, a.username).value;
      if a.username !in s.enrolled {
        FreeIsUnclaimed(s, PeerAddresses(s));
        forall i | Open(s, i) && s.invitations[i].address.Some? ensures s.invitations[i].address.value in Promised(s) {
        }
      }
      EnrolKeeps(s, Apply(s, a), a.username, address, a.key);
    }
  }

  /** Attaching keeps addresses apart exactly when it does not hand out one that an
      open invitation was promised. */
  lemma AttachKeepsExactly(s: State, a: Action)
    requires Apart(s) && a.Attach?
    ensures Apart(Apply(s, a)) <==> !Collides(s, a)
  {
    if !Collides(s, a) {
      AttachKeeps(s, a);
    } else {
      var s' := Apply(s, a);
      var address := AttachAddress(s, a.username).value;
      var i :| i in s.invitations && Open(s, i) && s.invitations[i].address.Some? && s.invitations[i].address.value == address;
      assert Open(s', i) && s'.enrolled[a.username].address == address;
    }
  }

  lemma OtherStepKeeps(s: State, a: Action)
    requires Apart(s) && (a.Revoke? || a.Prune? || a.Detach? || a.Switch? || a.Pass?)
    ensures Apart(Apply(s, a))
  {
    var s' := Apply(s, a);
    assert forall i | Open(s', i) :: Open(s, i);
    FewerStayApart(s, s');
  }

  lemma StepKeeps(s: State, a: Action)
    requires Inv(s) && !Collides(s, a)
    ensures Inv(Apply(s, a))
  {
    BooksKeep(s, a);
    if a.Issue? {
      IssueKeeps(s, a);
    } else if a.Redeem? {
      RedeemKeeps(s, a);
    } else if a.Attach? {
      AttachKeeps(s, a);
    } else {
      OtherStepKeeps(s, a);
    }
  }

  /** Some invitation is open that promises an address and reserves no peer for it. */
  ghost predicate AddressOnlyOpen(s: State) {
    exists i :: Open(s, i) && s.invitations[i].address.Some? && !s.invitations[i].bootstrap
  }

  /** Without an open address-only invitation, every promised address is already a
      peer's, so no attachment collides. */
  lemma TunnelInvitationsNeverCollide(s: State, a: Action)
    requires Inv(s) && !AddressOnlyOpen(s)
    ensures !Collides(s, a)
  {
    if a.Attach? && a.username !in s.enrolled {
      AllocationIsLeastFree(s.subnet, PeerAddresses(s));
      TakenAddresses(s);
      forall address <- Promised(s) ensures address in PeerAddresses(s) {
        var i :| i in s.invitations && Open(s, i) && s.invitations[i].address == Some(address);
        assert s.pending[i].address == address;
      }
    }
  }

  /** No attachment of this run hands out an address promised to an open invitation. */
  ghost predicate NeverCollides(subnet: Subnet, actions: seq<Action>)
    requires subnet.Accepted()
  {
    forall k :: 0 <= k < |actions| ==> !Collides(Reach(subnet, actions[..k]), actions[k])
  }

  /** No attachment of this run happens while an address-only invitation is open. */
  ghost predicate AttachesApart(subnet: Subnet, actions: seq<Action>)
    requires subnet.Accepted()
  {
    forall k :: 0 <= k < |actions| && actions[k].Attach? ==> !AddressOnlyOpen(Reach(subnet, actions[..k]))
  }

  lemma {:induction false} ReachKeeps(subnet: Subnet, actions: seq<Action>, n: nat)
    requires subnet.Accepted() && NeverCollides(subnet, actions) && n <= |actions|
    ensures Inv(Reach(subnet, actions[..n]))
  {
    if n > 0 {
      ReachKeeps(subnet, actions, n - 1);
      StepKeeps(Reach(subnet, actions[..n - 1]), actions[n - 1]);
      ReachNext(subnet, actions, n - 1);
    }
  }

  lemma ApartStep(s: State, a: Action)
    requires Inv(s) && (a.Attach? ==> !AddressOnlyOpen(s))
    ensures !Collides(s, a) && Inv(Apply(s, a))
  {
    if a.Attach? {
      TunnelInvitationsNeverCollide(s, a);
    }
    StepKeeps(s, a);
  }

  lemma {:induction false} ApartKeeps(subnet: Subnet, actions: seq<Action>, n: nat)
    requires subnet.Accepted() && AttachesApart(subnet, actions) && n <= |actions|
    ensures Inv(Reach(subnet, actions[..n]))
  {
    if n > 0 {
      ApartKeeps(subnet, actions, n - 1);
      ApartStep(Reach(subnet, actions[..n - 1]), actions[n - 1]);
      ReachNext(subnet, actions, n - 1);
    }
  }

  lemma ApartNeverCollides(subnet: Subnet, actions: seq<Action>)
    requires subnet.Accepted() && AttachesApart(subnet, actions)
    ensures NeverCollides(subnet, actions)
  {
    forall k | 0 <= k < |actions| ensures !Collides(Reach(subnet, actions[..k]), actions[k]) {
      ApartKeeps(subnet, actions, k);
      ApartStep(Reach(subnet, actions[..k]), actions[k]);
    }
  }

  /** The hub configuration names each address once, and none of them is the network,
      hub or broadcast address. */
  ghost predicate HubSound(s: State)
    requires s.subnet.Accepted()
  {
    && (forall p, q | p in HubPeers(s) && q in HubPeers(s) && p.address == q.address :: p == q)
    && (forall p <- HubPeers(s) ::
          s.subnet.Usable(p.address) && p.address != s.subnet.network && p.address != s.subnet.Hub()
          && p.address != s.subnet.Broadcast())
  }

  lemma InvIsSound(s: State)
    requires Inv(s)
    ensures HubSound(s)
  {
  }

  /** Over every run that hands out no promised address. */
  lemma HubStaysSoundUnlessCollides(subnet: Subnet, actions: seq<Action>)
    requires subnet.Accepted() && NeverCollides(subnet, actions)
    ensures HubSound(Reach(subnet, actions))
  {
    ReachKeeps(subnet, actions, |actions|);
    assert actions[..|actions|] == actions;
    InvIsSound(Reach(subnet, actions));
  }

  /** So over every run that attaches no probe while an address-only invitation is open. */
  lemma HubStaysSound(subnet: Subnet, actions: seq<Action>)
    requires subnet.Accepted() && AttachesApart(subnet, actions)
    ensures HubSound(Reach(subnet, actions))
  {
    ApartNeverCollides(subnet, actions);
    HubStaysSoundUnlessCollides(subnet, actions);
  }

  ghost predicate ApartThroughout(subnet: Subnet, actions: seq<Action>)
    requires subnet.Accepted()
  {
    forall k :: 0 <= k <= |actions| ==> Apart(Reach(subnet, actions[..k]))
  }

  /** For a whole run: peers, reservations and promises are apart at each of its points
      if and only if no attachment hands out an address promised to an open invitation. */
  lemma RunStaysApartExactly(subnet: Subnet, actions: seq<Action>)
    requires subnet.Accepted()
    ensures ApartThroughout(subnet, actions) <==> NeverCollides(subnet, actions)
  {
    if NeverCollides(subnet, actions) {
      forall k | 0 <= k <= |actions| ensures Apart(Reach(subnet, actions[..k])) {
        ReachKeeps(subnet, actions, k);
      }
    }
    if ApartThroughout(subnet, actions) {
      forall k | 0 <= k < |actions| ensures !Collides(Reach(subnet, actions[..k]), actions[k]) {
        ReachNext(subnet, actions, k);
        if actions[k].Attach? {
          AttachKeepsExactly(Reach(subnet, actions[..k]), actions[k]);
        }
      }
    }
  }

  /** The colliding attachment and the redemption after it, as one change. */
  ghost predicate BothEnrolled(s: State, s': State, first: Username, second: Username, address: Address, keys: (Key, Key)) {
    && s'.subnet == s.subnet
    && s'.pending == s.pending
    && s'.enrolled == s.enrolled[first := Peer(address, keys.0)][second := Peer(address, keys.1)]
  }

  lemma CollidesThenRedeems(s: State, a: Action, id: TokenId, key: Key)
    requires Inv(s) && Collides(s, a)
    requires Open(s, id) && s.invitations[id].address == AttachAddress(s, a.username)
    ensures Open(Apply(s, a), id)
    ensures BothEnrolled(s, Apply(Apply(s, a), Redeem(id, Some(key))), a.username, s.invitations[id].username,
                         AttachAddress(s, a.username).value, (a.key, key))
  {
    FreeIsUnclaimed(s, PeerAddresses(s));
    assert id !in s.pending;
    var attached := Apply(s, a);
    assert attached == s.(enrolled := s.enrolled[a.username := Peer(AttachAddress(s, a.username).value, a.key)]);
    assert Without(attached.pending, id) == s.pending;
  }

  lemma OneAccountIsSound(s: State, s': State, username: Username, address: Address, keys: (Key, Key))
    requires s.subnet.Accepted() && EnrolledApart(s) && PendingApart(s) && s.subnet.Usable(address)
    requires forall u <- s.enrolled :: s.enrolled[u].address != address
    requires forall id <- s.pending :: s.pending[id].address != address
    requires BothEnrolled(s, s', username, username, address, keys)
    ensures HubSound(s')
  {
    assert s'.enrolled == s.enrolled[username := Peer(address, keys.1)];
    assert EnrolledApart(s');
  }

  /** What a collision leads to: once the invitation is redeemed as well, the hub is
      sound if and only if it was issued for the very account that was attached. */
  lemma CollisionHurtsExactly(s: State, a: Action, id: TokenId, key: Key)
    requires Inv(s) && Collides(s, a)
    requires Open(s, id) && s.invitations[id].address == AttachAddress(s, a.username)
    ensures Open(Apply(s, a), id)
    ensures HubSound(Apply(Apply(s, a), Redeem(id, Some(key)))) <==> s.invitations[id].username == a.username
  {
    hide Apply, HubSound, Allocated, EnrolledApart, PendingApart, PromisedApart, Reserved, Counted;
    CollidesThenRedeems(s, a, id, key);
    var address := AttachAddress(s, a.username).value;
    var after := Apply(Apply(s, a), Redeem(id, Some(key)));
    if s.invitations[id].username == a.username {
      CollisionIsFresh(s, a);
      OneAccountIsSound(s, after, a.username, address, (a.key, key));
    } else {
      TwoAccountsAreNot(s, after, a.username, s.invitations[id].username, address, (a.key, key));
    }
  }

  lemma CollisionIsFresh(s: State, a: Action)
    requires Inv(s) && Collides(s, a)
    ensures EnrolledApart(s) && PendingApart(s)
    ensures var address := AttachAddress(s, a.username).value;
      && s.subnet.Usable(address)
      && (forall u <- s.enrolled :: s.enrolled[u].address != address)
      && (forall id <- s.pending :: s.pending[id].address != address)
  {
    FreeIsUnclaimed(s, PeerAddresses(s));
  }

  lemma TwoAccountsAreNot(s: State, s': State, first: Username, second: Username, address: Address, keys: (Key, Key))
    requires s.subnet.Accepted() && first != second
    requires BothEnrolled(s, s', first, second, address, keys)
    ensures !HubSound(s')
  {
    EnrolledIsRendered(s', first);
    EnrolledIsRendered(s', second);
  }

  // --- The life of an invitation -------------------------------------------

  lemma {:induction false} ReachBooks(subnet: Subnet, actions: seq<Action>)
    requires subnet.Accepted()
    ensures Reserved(Reach(subnet, actions)) && Counted(Reach(subnet, actions))
  {
    if actions != [] {
      ReachBooks(subnet, actions[..|actions| - 1]);
      BooksKeep(Reach(subnet, actions[..|actions| - 1]), actions[|actions| - 1]);
    }
  }

  /** Over every run, attachments at any time included, no invitation is redeemed twice,
      and none is both redeemed and revoked. */
  lemma RedeemedAtMostOnce(subnet: Subnet, actions: seq<Action>, id: TokenId)
    requires subnet.Accepted()
    ensures var s := Reach(subnet, actions);
      && s.redemptions[id] <= 1
      && (s.redemptions[id] == 1 ==> id in s.invitations && !Open(s, id) && !s.invitations[id].revoked)
  {
    ReachBooks(subnet, actions);
  }

  lemma ReachNext(subnet: Subnet, actions: seq<Action>, n: nat)
    requires subnet.Accepted() && n < |actions|
    ensures Reach(subnet, actions[..n + 1]) == Apply(Reach(subnet, actions[..n]), actions[n])
  {
    assert actions[..n + 1][..n] == actions[..n];
  }

  /** What a step does to an invitation there already: it may close it, never reopen or
      forget it, and what it promises stays as issued. */
  lemma InvitationStep(s: State, a: Action, id: TokenId)
    requires s.subnet.Accepted() && id in s.invitations
    ensures var s' := Apply(s, a);
      && id in s'.invitations
      && s'.invitations[id].address == s.invitations[id].address
      && s'.invitations[id].bootstrap == s.invitations[id].bootstrap
      && (Open(s', id) ==> Open(s, id))
  {
    if a.Attach? || a.Detach? || a.Switch? || a.Pass? {
      LeavesInvitations(s, a);
    }
  }

  /** A reservation goes only with the step that closes its invitation, or a prune after
      that; while the invitation is open the file is not rewritten. */
  lemma ReservationStep(s: State, a: Action, id: TokenId)
    requires s.subnet.Accepted() && id in s.pending && id in s.invitations && Open(Apply(s, a), id)
    ensures id in Apply(s, a).pending && Apply(s, a).pending[id] == s.pending[id]
  {
    InvitationStep(s, a, id);
  }

  /** Redeemed, revoked or expired once, an invitation resolves at no later point. */
  lemma {:induction false} ClosedForever(subnet: Subnet, actions: seq<Action>, n: nat, m: nat, id: TokenId)
    requires subnet.Accepted() && n <= m <= |actions|
    requires var s := Reach(subnet, actions[..n]); id in s.invitations && !Open(s, id)
    ensures var s := Reach(subnet, actions[..m]); id in s.invitations && !Open(s, id)
    decreases m
  {
    hide Apply, Open, Reach;
    if n < m {
      ClosedForever(subnet, actions, n, m - 1, id);
      InvitationStep(Reach(subnet, actions[..m - 1]), actions[m - 1], id);
      ReachNext(subnet, actions, m - 1);
    }
  }

  /** While this invitation is open, this is its reservation. */
  ghost predicate Holds(s: State, id: TokenId, reservation: Reservation) {
    id in s.invitations && (Open(s, id) ==> id in s.pending && s.pending[id] == reservation)
  }

  lemma {:induction false} HoldsOn(
      subnet: Subnet, actions: seq<Action>, n: nat, m: nat, id: TokenId, reservation: Reservation)
    requires subnet.Accepted() && n <= m <= |actions|
    requires Holds(Reach(subnet, actions[..n]), id, reservation)
    ensures Holds(Reach(subnet, actions[..m]), id, reservation)
    decreases m
  {
    hide Apply, Open, Reach;
    if n < m {
      HoldsOn(subnet, actions, n, m - 1, id, reservation);
      var before := Reach(subnet, actions[..m - 1]);
      ReachNext(subnet, actions, m - 1);
      InvitationStep(before, actions[m - 1], id);
      if Open(Apply(before, actions[m - 1]), id) {
        ReservationStep(before, actions[m - 1], id);
      }
    }
  }

  /** An open tunnel invitation has its reservation, and for as long as it stays open
      that names the same account, address and key. */
  lemma ReservationStays(subnet: Subnet, actions: seq<Action>, n: nat, m: nat, id: TokenId)
    requires subnet.Accepted() && n <= m <= |actions|
    requires var s := Reach(subnet, actions[..n]); Open(s, id) && s.invitations[id].bootstrap
    ensures id in Reach(subnet, actions[..n]).pending
    ensures Holds(Reach(subnet, actions[..m]), id, Reach(subnet, actions[..n]).pending[id])
  {
    ReachBooks(subnet, actions[..n]);
    HoldsOn(subnet, actions, n, m, id, Reach(subnet, actions[..n]).pending[id]);
  }

  /** After a prune the reservations are those of the open tunnel invitations, no more
      and no fewer, whatever happened before. */
  lemma PruneLeavesOpenTunnels(subnet: Subnet, actions: seq<Action>)
    requires subnet.Accepted()
    ensures var s := Reach(subnet, actions);
      Pruned(s).pending.Keys == set id | id in s.invitations && Open(s, id) && s.invitations[id].bootstrap
  {
    ReachBooks(subnet, actions);
    var s := Reach(subnet, actions);
    forall id <- Pruned(s).pending ensures s.invitations[id].bootstrap {
      assert Open(s, id);
    }
  }

  // --- Where attach collides -----------------------------------------------

  lemma Then(subnet: Subnet, actions: seq<Action>, a: Action)
    requires subnet.Accepted()
    ensures Reach(subnet, actions + [a]) == Apply(Reach(subnet, actions), a)
  {
    assert (actions + [a])[..|actions + [a]| - 1] == actions;
  }

  const DEFAULT := Subnet(0x0A53_0000, 16)
  const FIRST := 0x0A53_0100

  lemma Pow16()
    ensures Pow2(16) == 0x1_0000
  {
    assert Pow2(4) == 16;
    assert Pow2(8) == 256;
    assert Pow2(12) == 4096;
  }

  lemma FirstIsFree(s: State, taken: set<Address>)
    requires s.subnet == DEFAULT && FIRST !in taken
    ensures Allocated(s.subnet, taken) == Some(FIRST)
  {
    Pow16();
  }

  /** An address-only invitation is promised the first peer address. */
  lemma PromisesFirst() returns (run: seq<Action>)
    ensures Reach(DEFAULT, run) == State(DEFAULT, true, map["t" := Invitation("b", Some(FIRST), false, 3600, false, false)],
                                         map[], map[], 0, multiset{})
  {
    Then(DEFAULT, [], Switch(true));
    run := [] + [Switch(true)];
    var s := Reach(DEFAULT, run);
    assert s == State(DEFAULT, true, map[], map[], map[], 0, multiset{});
    FirstIsFree(s, PeerAddresses(Pruned(s)) + Promised(Pruned(s)));
    assert Pruned(s) == s;
    Then(DEFAULT, run, Issue("t", "b", false, 3600, "k"));
    run := run + [Issue("t", "b", false, 3600, "k")];
  }

  /** While it is open, another probe is attached: the allocator does not know of the
      promise and hands out the same address. */
  lemma AttachTakesPromised() returns (run: seq<Action>)
    ensures Reach(DEFAULT, run) == State(DEFAULT, true, map["t" := Invitation("b", Some(FIRST), false, 3600, false, false)],
                                         map[], map["a" := Peer(FIRST, "ka")], 0, multiset{})
  {
    run := PromisesFirst();
    var s := Reach(DEFAULT, run);
    FirstIsFree(s, PeerAddresses(s));
    Then(DEFAULT, run, Attach("a", "ka"));
    run := run + [Attach("a", "ka")];
  }

  /** When the invitation is redeemed, two peer blocks of the hub name one address. */
  lemma AttachBreaksTheHub() returns (run: seq<Action>)
    ensures !HubSound(Reach(DEFAULT, run))
  {
    run := AttachTakesPromised();
    Then(DEFAULT, run, Redeem("t", Some("kb")));
    run := run + [Redeem("t", Some("kb"))];
    var s := Reach(DEFAULT, run);
    assert "a" != "b" by {
      assert "a"[0] != "b"[0];
    }
    assert s.enrolled == map["a" := Peer(FIRST, "ka"), "b" := Peer(FIRST, "kb")];
    EnrolledIsRendered(s, "a");
    EnrolledIsRendered(s, "b");
  }

  lemma EnrolledIsRendered(s: State, u: Username)
    requires u in s.enrolled
    ensures ForProbe(u, s.enrolled[u].address) in HubPeers(s)
  {
  }
}
