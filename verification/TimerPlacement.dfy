/** How single changes to the queue, the heaps and the delegates keep the parts of the invariant. */
module TimerPlacement {
  import opened Wrappers
  import opened Ranking
  import opened TimerService
  import opened TimerInvariant

  // ----- Placement -----

  /** A message that names no delegate of kind k may join the queue. */
  lemma PlacedAppend(k: Kind, ds: map<nat, Delegate>, q: seq<Msg>, bag: multiset<Rankable>, cur: Option<nat>, m: Msg)
    requires Placed(k, ds, q, bag, cur) && (m.kind != k || m.MsgExpire?)
    ensures Placed(k, ds, q + [m], bag, cur)
  {
  }

  /** So may it leave the head of the queue. */
  lemma PlacedSkip(k: Kind, ds: map<nat, Delegate>, q: seq<Msg>, bag: multiset<Rankable>, cur: Option<nat>)
    requires q != [] && Placed(k, ds, q, bag, cur) && (q[0].kind != k || q[0].MsgExpire?)
    ensures Placed(k, ds, q[1..], bag, cur)
  {
  }

  /** Changes to delegates of the other kind do not matter. */
  lemma PlacedOther(k: Kind, ds: map<nat, Delegate>, q: seq<Msg>, bag: multiset<Rankable>, cur: Option<nat>, d: nat, x: Delegate)
    requires Placed(k, ds, q, bag, cur) && x.kind != k && (d in ds ==> ds[d].kind != k)
    ensures Placed(k, ds[d := x], q, bag, cur)
  {
    forall i | 0 <= i < |q| && q[i].kind == k ensures MsgPlaced(q, i, ds[d := x], bag, cur) {
      assert MsgPlaced(q, i, ds, bag, cur);
    }
  }

  lemma PlacedStart(k: Kind, ds: map<nat, Delegate>, q: seq<Msg>, bag: multiset<Rankable>, cur: Option<nat>, d: nat, x: Delegate)
    requires Placed(k, ds, q, bag, cur) && d !in ds && x.kind == k && x.client.Some? && !x.freed
    ensures Placed(k, ds[d := x], q + [MsgPush(k, d)], bag, cur)
  {
  }

  lemma PlacedStop(k: Kind, ds: map<nat, Delegate>, q: seq<Msg>, bag: multiset<Rankable>, cur: Option<nat>, d: nat, x: Delegate)
    requires Placed(k, ds, q, bag, cur) && Owns(ds, k, d) && ds[d].client.Some?
    requires x.kind == k && x.client.None? && !x.freed && x.due == ds[d].due
    ensures Placed(k, ds[d := x], q + [MsgRemove(k, d)], bag, cur)
  {
    var ds', q' := ds[d := x], q + [MsgRemove(k, d)];
    forall i | 0 <= i < |q'| && q'[i].kind == k ensures MsgPlaced(q', i, ds', bag, cur) {
      if i < |q| { assert MsgPlaced(q, i, ds, bag, cur); }
    }
  }

  lemma PlacedPush(k: Kind, ds: map<nat, Delegate>, q: seq<Msg>, bag: multiset<Rankable>, d: nat)
    requires q != [] && Placed(k, ds, q, bag, None) && q[0] == MsgPush(k, d)
    ensures Owns(ds, k, d)
    ensures Placed(k, ds, q[1..], bag + multiset{Rankable(d, ds[d].due)}, None)
  {
  }

  lemma PlacedRemove(k: Kind, ds: map<nat, Delegate>, q: seq<Msg>, bag: multiset<Rankable>, d: nat)
    requires q != [] && Placed(k, ds, q, bag, None) && q[0] == MsgRemove(k, d)
    ensures Owns(ds, k, d) && ds[d].client.None?
    ensures Placed(k, ds[d := ds[d].(freed := true)], q[1..], bag - multiset{Rankable(d, ds[d].due)}, None)
  {
  }

  lemma PlacedPop(k: Kind, ds: map<nat, Delegate>, q: seq<Msg>, bag: multiset<Rankable>, x: Rankable)
    requires Placed(k, ds, q, bag, None) && x in bag
    ensures Placed(k, ds, q, bag - multiset{x}, Some(x.addr))
  {
  }

  lemma PlacedExpired(k: Kind, ds: map<nat, Delegate>, q: seq<Msg>, bag: multiset<Rankable>, d: nat)
    requires Placed(k, ds, q, bag, Some(d)) && ds[d].client.None?
    ensures Placed(k, ds, q, bag, None)
  {
  }

  // ----- Links -----

  lemma LinksNew(clients: map<nat, Client>, ds: map<nat, Delegate>, c: nat)
    requires Links(clients, ds) && c !in clients
    ensures Links(clients[c := Client(Alive, None)], ds)
  {
  }

  lemma LinksStart(clients: map<nat, Client>, ds: map<nat, Delegate>, c: nat, d: nat, x: Delegate)
    requires Links(clients, ds) && c in clients && clients[c] == Client(Alive, None) && d !in ds
    requires x.client == Some(c) && x.lock == c && x.container == Some(x.kind) && !x.freed && Normal(x.due)
    requires x.ended == Outcomes(0, 0, 0)
    ensures Links(clients[c := Client(Alive, Some(d))], ds[d := x])
  {
  }

  lemma LinksStop(clients: map<nat, Client>, ds: map<nat, Delegate>, c: nat, d: nat, x: Delegate)
    requires Links(clients, ds) && c in clients && clients[c].timer == Some(d)
    ensures d in ds && ds[d].client == Some(c) && !ds[d].freed && ds[d].lock == c && ds[d].container == Some(ds[d].kind)
    ensures x.client.None? && x.container.None? && x.lock == c && x.due == ds[d].due
         && x.ended.stops + x.ended.cancels + x.ended.fires == 1
      ==> Links(clients[c := clients[c].(timer := None)], ds[d := x])
  {
  }

  lemma LinksPhase(clients: map<nat, Client>, ds: map<nat, Delegate>, c: nat, p: Phase)
    requires Links(clients, ds) && c in clients && clients[c].timer.None?
    ensures Links(clients[c := clients[c].(phase := p)], ds)
  {
  }

  lemma LinksDelete(clients: map<nat, Client>, ds: map<nat, Delegate>, d: nat)
    requires Links(clients, ds) && d in ds && ds[d].client.None?
    ensures Links(clients, ds[d := ds[d].(freed := true)])
  {
  }

  // ----- Lock counts -----

  lemma CountedNew(clients: map<nat, Client>, locks: map<nat, Lock>, ds: map<nat, Delegate>, c: nat)
    requires Counted(clients, locks, ds) && Links(clients, ds) && c !in clients
    ensures Counted(clients[c := Client(Alive, None)], locks[c := Lock(1, false)], ds)
  {
  }

  lemma CountedStart(clients: map<nat, Client>, locks: map<nat, Lock>, ds: map<nat, Delegate>, c: nat, t: Option<nat>, d: nat, x: Delegate)
    requires Counted(clients, locks, ds) && c in clients && clients[c].phase.Alive?
    requires d !in ds && x.lock == c && !x.freed
    ensures Counted(clients[c := clients[c].(timer := t)], locks[c := locks[c].(ref := locks[c].ref + 1)], ds[d := x])
  {
    var ds' := ds[d := x];
    assert Holders(ds', c) == Holders(ds, c) + {d};
    assert forall e :: e != c ==> Holders(ds', e) == Holders(ds, e);
  }

  /** Changing a delegate's other fields, or a client's mTimer, or its phase short of deletion, leaves the counts. */
  lemma CountedUpdate(clients: map<nat, Client>, locks: map<nat, Lock>, ds: map<nat, Delegate>, c: nat, y: Client, d: nat, x: Delegate)
    requires Counted(clients, locks, ds) && c in clients && (y.phase.Dead? <==> clients[c].phase.Dead?)
    requires d in ds && x.lock == ds[d].lock && x.freed == ds[d].freed
    ensures Counted(clients[c := y], locks, ds[d := x])
  {
    assert forall e :: Holders(ds[d := x], e) == Holders(ds, e);
  }

  lemma CountedPhase(clients: map<nat, Client>, locks: map<nat, Lock>, ds: map<nat, Delegate>, c: nat, y: Client)
    requires Counted(clients, locks, ds) && c in clients && (y.phase.Dead? <==> clients[c].phase.Dead?)
    ensures Counted(clients[c := y], locks, ds)
  {
  }

  lemma CountedDrop(clients: map<nat, Client>, locks: map<nat, Lock>, ds: map<nat, Delegate>, c: nat)
    requires Counted(clients, locks, ds) && c in clients && clients[c].phase.Closing?
    ensures !locks[c].freed
    ensures Counted(clients[c := clients[c].(phase := Dead)], locks[c := Lock(locks[c].ref - 1, locks[c].ref == 1)], ds)
  {
  }

  lemma CountedDelete(clients: map<nat, Client>, locks: map<nat, Lock>, ds: map<nat, Delegate>, d: nat)
    requires Counted(clients, locks, ds) && d in ds && !ds[d].freed && ds[d].lock in clients
    ensures !locks[ds[d].lock].freed
    ensures var c := ds[d].lock;
      Counted(clients, locks[c := Lock(locks[c].ref - 1, locks[c].ref == 1)], ds[d := ds[d].(freed := true)])
  {
    var ds' := ds[d := ds[d].(freed := true)];
    var c := ds[d].lock;
    assert d in Holders(ds, c);
    assert Holders(ds', c) == Holders(ds, c) - {d};
    assert forall e :: e != c ==> Holders(ds', e) == Holders(ds, e);
  }
}
