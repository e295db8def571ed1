/** The services that change invitations, reservations and peers in place, with the
    allocation and prune loops they run. */
module EnrollmentService {
  import opened Prelude
  import opened OverlayTable

  class OverlayRuntime {
    const subnet: Subnet
    var enabled: bool
    var invitations: map<TokenId, Invitation>
    var pending: map<TokenId, Reservation>
    var enrolled: map<Username, Peer>
    var clock: int
    ghost var redemptions: multiset<TokenId>

    constructor (subnet: Subnet)
      ensures Now() == State(subnet, false, map[], map[], map[], 0, multiset{})
    {
      this.subnet := subnet;
      enabled, clock := false, 0;
      invitations, pending, enrolled := map[], map[], map[];
      redemptions := multiset{};
    }

    ghost function Now(): State
      reads this
    {
      State(subnet, enabled, invitations, pending, enrolled, clock, redemptions)
    }

    predicate IsOpen(id: TokenId)
      reads this
      ensures IsOpen(id) <==> Open(Now(), id)
    {
      id in invitations && !invitations[id].redeemed && !invitations[id].revoked && invitations[id].expires > clock
    }

    /** Every peer address the hub knows: reservations first, then the inventory. */
    method Taken() returns (taken: set<Address>)
      ensures taken == PeerAddresses(Now())
    {
      var reserved := set id | id in pending :: pending[id].address;
      var held := set u | u in enrolled :: enrolled[u].address;
      taken := (reserved - held) + held;
      TakenAddresses(Now());
    }

    /** The lowest free peer address in the subnet, or None for the conflict. */
    method AllocateAddress(reserved: set<Address>) returns (address: Option<Address>)
      requires subnet.Accepted()
      ensures address == Allocated(subnet, PeerAddresses(Now()) + reserved)
    {
      var peers := Taken();
      var taken := peers + reserved;
      var index := FIRST_PEER_INDEX;
      while index < subnet.Size() - 1
        invariant LeastFree(subnet, taken, index) == Allocated(subnet, taken)
      {
        if subnet.network + index !in taken {
          return Some(subnet.network + index);
        }
        index := index + 1;
      }
      return None;
    }

    /** Drops every reservation whose invitation is no longer open. */
    method PruneReservations() returns (dropped: set<TokenId>)
      modifies this`pending
      ensures Now() == Pruned(old(Now()))
      ensures dropped == old(pending).Keys - pending.Keys
    {
      ghost var before := pending;
      dropped := {};
      var todo := pending.Keys;
      while todo != {}
        invariant todo <= before.Keys && dropped <= before.Keys
        invariant pending == map id | id in before && (id in todo || IsOpen(id)) :: before[id]
        invariant dropped == before.Keys - pending.Keys
        decreases todo
      {
        var id :| id in todo;
        todo := todo - {id};
        if !IsOpen(id) {
          pending := map x | x in pending && x != id :: pending[x];
          dropped := dropped + {id};
        }
      }
    }

    /** False where the invitation was refused. */
    method Issue(id: TokenId, username: Username, bootstrap: bool, ttl: int, key: Key) returns (issued: bool)
      requires subnet.Accepted() && id !in invitations
      modifies this
      ensures Now() == Issued(old(Now()), id, username, bootstrap, ttl, key)
      ensures issued <==> id in invitations
    {
      var _ := PruneReservations();
      var address: Option<Address> := None;
      if enabled {
        var promised := set i | i in invitations && IsOpen(i) && invitations[i].address.Some? :: invitations[i].address.value;
        assert promised == Promised(Now());
        address := AllocateAddress(promised);
        if address.None? {
          return false;
        }
      }
      if bootstrap && address.None? {
        return false;
      }
      invitations := invitations[id := Invitation(username, address, bootstrap, clock + ttl, false, false)];
      if bootstrap {
        pending := pending[id := Reservation(username, address.value, key)];
      }
      return true;
    }

    method Revoke(id: TokenId)
      requires id in invitations
      modifies this
      ensures Now() == Revoked(old(Now()), id)
    {
      if !invitations[id].revoked && !invitations[id].redeemed {
        invitations := invitations[id := invitations[id].(revoked := true)];
      }
      assert invitations == old(Revoked(Now(), id)).invitations;
      pending := map x | x in pending && x != id :: pending[x];
    }

    /** False where the token does not resolve; nothing changes then. */
    method Redeem(id: TokenId, reported: Option<Key>) returns (resolved: bool)
      modifies this
      ensures resolved <==> Open(old(Now()), id)
      ensures Now() == if resolved then Redeemed(old(Now()), id, reported) else old(Now())
    {
      if !IsOpen(id) {
        return false;
      }
      var invitation := invitations[id];
      invitations := invitations[id := invitation.(redeemed := true)];
      redemptions := redemptions + multiset{id};
      if invitation.address.None? || reported.None? {
        if invitation.bootstrap {
          pending := map x | x in pending && x != id :: pending[x];
        }
        return true;
      }
      if id in pending && pending[id].key != reported.value {
        return true;
      }
      enrolled := enrolled[invitation.username := Peer(invitation.address.value, reported.value)];
      pending := map x | x in pending && x != id :: pending[x];
      return true;
    }

    method Attach(username: Username, key: Key) returns (attached: bool)
      requires subnet.Accepted()
      modifies this`enrolled
      ensures Now() == Attached(old(Now()), username, key)
    {
      if !enabled {
        return false;
      }
      var address: Option<Address>;
      if username in enrolled {
        address := Some(enrolled[username].address);
      } else {
        address := AllocateAddress({});
        assert PeerAddresses(Now()) + {} == PeerAddresses(Now());
      }
      if address.None? {
        return false;
      }
      enrolled := enrolled[username := Peer(address.value, key)];
      return true;
    }

    method Detach(username: Username)
      modifies this`enrolled
      ensures Now() == DetachedFrom(old(Now()), username)
    {
      enrolled := map x | x in enrolled && x != username :: enrolled[x];
    }
  }

  /** Outranked reservations drop out of the list but never out of the addresses. */
  lemma TakenAddresses(s: State)
    ensures PeerAddresses(s) == EnrolledAddresses(s) + set id | id in s.pending :: s.pending[id].address
  {
    forall a | a in EnrolledAddresses(s) + (set id | id in s.pending :: s.pending[id].address)
      ensures a in PeerAddresses(s)
    {
      if a in EnrolledAddresses(s) {
        var u :| u in s.enrolled && s.enrolled[u].address == a;
        assert ForProbe(u, a) in HubPeers(s);
      } else {
        var id :| id in s.pending && s.pending[id].address == a;
        assert ForInvitation(id, a) in HubPeers(s);
      }
    }
  }
}
