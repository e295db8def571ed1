/** What an invitation is worth: issuing, redeeming and revoking one, for one step and
    from its issue to its end. */
module InvitationLaws {
  import opened Prelude
  import opened OverlayTable
  import opened EnrollmentService
  import opened OverlaySafety

  // --- Issuing -------------------------------------------------------------

  /** A free address is there for it, or it needs none. */
  ghost predicate CanInvite(s: State, bootstrap: bool)
    requires s.subnet.Accepted()
  {
    if s.enabled then exists address :: s.subnet.Usable(address) && Unclaimed(Pruned(s), address) else !bootstrap
  }

  lemma FreeExactly(s: State)
    requires s.subnet.Accepted()
    ensures Allocated(s.subnet, PeerAddresses(s) + Promised(s)).Some?
            <==> exists address :: s.subnet.Usable(address) && Unclaimed(s, address)
    ensures var got := Allocated(s.subnet, PeerAddresses(s) + Promised(s));
      got.Some? ==> s.subnet.Usable(got.value) && Unclaimed(s, got.value)
  {
    var taken := PeerAddresses(s) + Promised(s);
    AllocationIsLeastFree(s.subnet, taken);
    TakenAddresses(s);
    if Allocated(s.subnet, taken).Some? {
      FreeIsUnclaimed(s, taken);
    }
    forall address | Unclaimed(s, address) ensures address !in taken {
    }
  }

  /** An invitation comes into being exactly where an address is free for it or it needs
      none; it names the account, runs for its time from now on, and holds an address
      exactly while the overlay is on, one that nobody has and no other was promised.
      A tunnel's is reserved for that account and key.  Everything else stays, but for
      what a prune takes. */
  lemma IssueExactly(s: State, id: TokenId, username: Username, bootstrap: bool, ttl: int, key: Key)
    requires s.subnet.Accepted() && id !in s.invitations
    ensures var p, s' := Pruned(s), Apply(s, Issue(id, username, bootstrap, ttl, key));
      && (id in s'.invitations <==> CanInvite(s, bootstrap))
      && (id !in s'.invitations ==> s' == p)
      && (id in s'.invitations ==>
            var made := s'.invitations[id];
            && made.username == username && made.bootstrap == bootstrap
            && made.expires == s.clock + ttl && !made.redeemed && !made.revoked
            && (made.address.Some? <==> s.enabled)
            && (made.address.Some? ==> s.subnet.Usable(made.address.value) && Unclaimed(p, made.address.value))
            && s'.invitations == s.invitations[id := made]
            && (bootstrap ==> s'.pending == p.pending[id := Reservation(username, made.address.value, key)])
            && (!bootstrap ==> s'.pending == p.pending))
      && s'.enrolled == s.enrolled && s'.enabled == s.enabled && s'.clock == s.clock && s'.redemptions == s.redemptions
  {
    hide Allocated, Unclaimed, PeerAddresses, Promised;
    FreeExactly(Pruned(s));
  }

  // --- Redeeming and revoking ----------------------------------------------

  /** Redeeming enrols the account at the address it was promised under the key that is
      reported, if there are both; but where a key was handed out with the invitation, any
      other is refused and the reservation left as it was.  In every other case the
      reservation is gone, and in all of them the invitation is used up. */
  lemma RedeemExactly(s: State, id: TokenId, reported: Option<Key>)
    requires s.subnet.Accepted() && Reserved(s) && Open(s, id)
    ensures var s', invitation := Apply(s, Redeem(id, reported)), s.invitations[id];
      && !Open(s', id) && s'.invitations == s.invitations[id := invitation.(redeemed := true)]
      && (forall u :: u != invitation.username ==> (u in s'.enrolled <==> u in s.enrolled))
      && (forall u <- s.enrolled :: u != invitation.username ==> s'.enrolled[u] == s.enrolled[u])
      && (forall i :: i != id ==> (i in s'.pending <==> i in s.pending))
      && (forall i <- s.pending :: i != id ==> s'.pending[i] == s.pending[i])
      && (reported.Some? && invitation.address.Some? && (invitation.bootstrap ==> s.pending[id].key == reported.value) ==>
            && invitation.username in s'.enrolled && id !in s'.pending
            && s'.enrolled[invitation.username] == Peer(invitation.address.value, reported.value))
      && (reported.Some? && invitation.bootstrap && s.pending[id].key != reported.value ==>
            s'.enrolled == s.enrolled && s'.pending == s.pending)
      && (reported.None? || invitation.address.None? ==> s'.enrolled == s.enrolled && id !in s'.pending)
  {
  }

  /** A revoked invitation is not open any more and has no reservation; one that was
      redeemed stays redeemed; nothing else changes. */
  lemma RevokeExactly(s: State, id: TokenId)
    requires s.subnet.Accepted() && id in s.invitations
    ensures var s' := Apply(s, Revoke(id));
      && !Open(s', id) && id !in s'.pending
      && s'.invitations.Keys == s.invitations.Keys
      && (forall i <- s.invitations :: i != id ==> s'.invitations[i] == s.invitations[i])
      && s'.invitations[id].redeemed == s.invitations[id].redeemed
      && (s'.invitations[id].revoked <==> s.invitations[id].revoked || !s.invitations[id].redeemed)
      && s'.invitations[id].address == s.invitations[id].address
      && (forall i :: i != id ==> (i in s'.pending <==> i in s.pending))
      && (forall i <- s.pending :: i != id ==> s'.pending[i] == s.pending[i])
      && s'.enrolled == s.enrolled && s'.enabled == s.enabled && s'.clock == s.clock && s'.redemptions == s.redemptions
  {
  }

  /** Attaching puts the account at the address it has, or at the lowest one no peer has,
      under the key that is given; it is refused exactly where the overlay is off or the
      account is new and no address is left. */
  lemma AttachExactly(s: State, username: Username, key: Key)
    requires s.subnet.Accepted()
    ensures var s' := Apply(s, Attach(username, key));
      && s' == s.(enrolled := s'.enrolled)
      && (forall u :: u != username ==> (u in s'.enrolled <==> u in s.enrolled))
      && (forall u <- s.enrolled :: u != username ==> s'.enrolled[u] == s.enrolled[u])
      && (s.enabled && username in s.enrolled ==>
            username in s'.enrolled && s'.enrolled[username] == Peer(s.enrolled[username].address, key))
      && (!s.enabled ==> s' == s)
      && (s.enabled && username !in s.enrolled ==>
            && (username in s'.enrolled <==> exists address :: s.subnet.Usable(address) && Unheld(s, address))
            && (username in s'.enrolled ==>
                  && s'.enrolled[username].key == key
                  && s.subnet.Usable(s'.enrolled[username].address) && Unheld(s, s'.enrolled[username].address)
                  && forall address :: s.subnet.Usable(address) && Unheld(s, address) ==>
                       s'.enrolled[username].address <= address))
  {
    AllocationIsLeastFree(s.subnet, PeerAddresses(s));
    TakenAddresses(s);
    forall address ensures Unheld(s, address) <==> address !in PeerAddresses(s) {
    }
    hide Allocated, PeerAddresses, Unheld;
  }

  /** No enrolled probe has this address, and none is reserved it. */
  ghost predicate Unheld(s: State, address: Address) {
    && (forall u <- s.enrolled :: s.enrolled[u].address != address)
    && (forall id <- s.pending :: s.pending[id].address != address)
  }

  /** That probe is no peer any more, and nothing else changes. */
  lemma DetachExactly(s: State, username: Username)
    requires s.subnet.Accepted()
    ensures var s' := Apply(s, Detach(username));
      && s' == s.(enrolled := s'.enrolled) && username !in s'.enrolled
      && (forall u :: u != username ==> (u in s'.enrolled <==> u in s.enrolled))
      && (forall u <- s.enrolled :: u != username ==> s'.enrolled[u] == s.enrolled[u])
  {
  }

  /** Time passes by waiting alone, and switching the overlay changes nothing else. */
  lemma ClockAndSwitch(s: State, a: Action)
    requires s.subnet.Accepted()
    ensures Apply(s, a).clock == s.clock + if a.Pass? then a.seconds else 0
    ensures Apply(s, a).enabled == if a.Switch? then a.on else s.enabled
    ensures a.Pass? || a.Switch? ==>
      Apply(s, a) == s.(clock := Apply(s, a).clock, enabled := Apply(s, a).enabled)
  {
  }

  /** The hub's peers are the enrolled probes, and the reservations whose address no enrolled
      probe has. */
  lemma HubPeersExactly(s: State, id: TokenId, username: Username, address: Address)
    ensures ForProbe(username, address) in HubPeers(s) <==> username in s.enrolled && s.enrolled[username].address == address
    ensures ForInvitation(id, address) in HubPeers(s)
            <==> id in s.pending && s.pending[id].address == address
                 && forall u <- s.enrolled :: s.enrolled[u].address != address
  {
  }

  // --- From its issue on ---------------------------------------------------

  /** The n-th action issued this invitation. */
  ghost predicate IssuedAt(subnet: Subnet, actions: seq<Action>, n: nat, id: TokenId)
    requires subnet.Accepted()
  {
    && n < |actions| && actions[n].Issue? && actions[n].id == id
    && id !in Reach(subnet, actions[..n]).invitations && id in Reach(subnet, actions[..n + 1]).invitations
  }

  /** Neither redeemed nor revoked. */
  predicate Unspent(s: State, id: TokenId) {
    id in s.invitations && !s.invitations[id].redeemed && !s.invitations[id].revoked
  }

  lemma UnspentStep(s: State, a: Action, id: TokenId)
    requires s.subnet.Accepted() && id in s.invitations
    ensures id in Apply(s, a).invitations
    ensures var was, now := s.invitations[id], Apply(s, a).invitations[id];
      && now.expires == was.expires && now.username == was.username
      && now.address == was.address && now.bootstrap == was.bootstrap
    ensures Unspent(s, id) && a != Revoke(id) && !(a.Redeem? && a.id == id) ==> Unspent(Apply(s, a), id)
  {
    if a.Attach? || a.Detach? || a.Switch? || a.Pass? {
      LeavesInvitations(s, a);
    }
  }

  /** What an invitation says stays what its issue made it say. */
  lemma {:induction false} SaysTheSame(subnet: Subnet, actions: seq<Action>, n: nat, m: nat, id: TokenId)
    requires subnet.Accepted() && IssuedAt(subnet, actions, n, id) && n < m <= |actions|
    ensures id in Reach(subnet, actions[..m]).invitations
    ensures var made, now := Reach(subnet, actions[..n + 1]).invitations[id], Reach(subnet, actions[..m]).invitations[id];
      now.expires == made.expires && now.username == made.username && now.address == made.address && now.bootstrap == made.bootstrap
    decreases m
  {
    hide Apply, Reach;
    if n + 1 < m {
      SaysTheSame(subnet, actions, n, m - 1, id);
      UnspentStep(Reach(subnet, actions[..m - 1]), actions[m - 1], id);
      ReachNext(subnet, actions, m - 1);
    }
  }

  ghost predicate LeftAlone(actions: seq<Action>, n: nat, m: nat, id: TokenId)
    requires m <= |actions|
  {
    forall k :: n < k < m ==> actions[k] != Revoke(id) && !(actions[k].Redeem? && actions[k].id == id)
  }

  lemma {:induction false} StaysUnspent(subnet: Subnet, actions: seq<Action>, n: nat, m: nat, id: TokenId)
    requires subnet.Accepted() && IssuedAt(subnet, actions, n, id) && n < m <= |actions| && LeftAlone(actions, n, m, id)
    ensures Unspent(Reach(subnet, actions[..m]), id)
    decreases m
  {
    hide Apply, Reach;
    if n + 1 < m {
      StaysUnspent(subnet, actions, n, m - 1, id);
      UnspentStep(Reach(subnet, actions[..m - 1]), actions[m - 1], id);
      ReachNext(subnet, actions, m - 1);
    } else {
      var a := actions[n];
      ReachNext(subnet, actions, n);
      IssueExactly(Reach(subnet, actions[..n]), id, a.username, a.bootstrap, a.ttl, a.key);
    }
  }

  /** Left alone, an invitation is open for exactly the time it was issued for. */
  lemma OpenForItsTime(subnet: Subnet, actions: seq<Action>, n: nat, m: nat, id: TokenId)
    requires subnet.Accepted() && IssuedAt(subnet, actions, n, id) && n < m <= |actions| && LeftAlone(actions, n, m, id)
    ensures Open(Reach(subnet, actions[..m]), id)
            <==> Reach(subnet, actions[..m]).clock < Reach(subnet, actions[..n]).clock + actions[n].ttl
  {
    hide Apply, Reach;
    var a := actions[n];
    StaysUnspent(subnet, actions, n, m, id);
    SaysTheSame(subnet, actions, n, m, id);
    ReachNext(subnet, actions, n);
    IssueExactly(Reach(subnet, actions[..n]), id, a.username, a.bootstrap, a.ttl, a.key);
  }

  /** A tunnel invitation enrols its account, at the address it was issued with, exactly
      under the key it was issued with: that one is taken and uses up the reservation; any
      other changes neither the peers nor the reservations. */
  lemma OnlyTheIssuedKey(subnet: Subnet, actions: seq<Action>, n: nat, m: nat, id: TokenId, key: Key)
    requires subnet.Accepted() && IssuedAt(subnet, actions, n, id) && actions[n].bootstrap && n < m <= |actions|
    requires Open(Reach(subnet, actions[..m]), id)
    ensures Reach(subnet, actions[..n + 1]).invitations[id].address.Some?
    ensures var s := Reach(subnet, actions[..m]);
      var s' := Apply(s, Redeem(id, Some(key)));
      var username, address := actions[n].username, Reach(subnet, actions[..n + 1]).invitations[id].address.value;
      if key == actions[n].key then
        && id !in s'.pending && username in s'.enrolled && s'.enrolled[username] == Peer(address, key)
        && forall u <- s.enrolled :: u != username ==> u in s'.enrolled && s'.enrolled[u] == s.enrolled[u]
      else s'.enrolled == s.enrolled && s'.pending == s.pending && id in s'.pending
  {
    hide Apply, Reach, Open;
    var a, before, made := actions[n], Reach(subnet, actions[..n]), Reach(subnet, actions[..n + 1]);
    ReachNext(subnet, actions, n);
    IssueExactly(before, id, a.username, a.bootstrap, a.ttl, a.key);
    ReachBooks(subnet, actions[..n + 1]);
    HoldsOn(subnet, actions, n + 1, m, id, made.pending[id]);
    SaysTheSame(subnet, actions, n, m, id);
    ReachBooks(subnet, actions[..m]);
    RedeemExactly(Reach(subnet, actions[..m]), id, Some(key));
  }
}
