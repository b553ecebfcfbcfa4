/** The transcript that a client and a server agree on, up to TLS 1.2 (RFC 5246, section 7.3),
    as a list of numbered places, each holding at most one item. */
module HandshakeScript {
  import opened Wrappers
  import opened Handshake

  /** What decides which items are exchanged: what the ServerHello says, whether a
      ServerKeyExchange and a CertificateRequest are sent, whether the client has a certificate,
      and whether the ticket comes out empty. */
  datatype Script = Script(p: Params, keyExchange: bool, certRequest: bool, hasCertificate: bool, emptyTicket: bool)

  predicate Good(g: Script) {
    && (g.p.status ==> g.p.certAuth && !g.p.resumed)
    && (g.certRequest ==> g.p.certAuth && !g.p.resumed)
    && (g.p.ecdhe ==> g.keyExchange)
  }

  const END: nat := 20

  /** Places 10 to 12 are the server's last flight on resumption, 17 to 19 in a full handshake. */
  predicate ByClient(k: nat) {
    k == 0 || 7 <= k <= 9 || 13 <= k <= 16
  }

  function Maybe(present: bool, item: Item): seq<Item> {
    if present then [item] else []
  }

  /** The item at a place. */
  function Slot(g: Script, k: nat): (items: seq<Item>)
    ensures |items| <= 1
  {
    if k == 0 then [Hs(ClientHello)]
    else if k == 1 then [Hs(ServerHello(g.p))]
    else if k == 2 then Maybe(!g.p.resumed && g.p.certAuth, Hs(Certificate(false)))
    else if k == 3 then Maybe(g.p.status, Hs(CertificateStatus))
    else if k == 4 then Maybe(!g.p.resumed && g.keyExchange, Hs(ServerKeyExchange))
    else if k == 5 then Maybe(g.certRequest, Hs(CertificateRequest))
    else if k == 6 then Maybe(!g.p.resumed, Hs(ServerHelloDone))
    else if k == 7 then Maybe(g.certRequest, Hs(Certificate(!g.hasCertificate)))
    else if k == 8 then Maybe(!g.p.resumed, Hs(ClientKeyExchange))
    else if k == 9 then Maybe(g.certRequest && g.hasCertificate, Hs(CertificateVerify))
    else if k == 10 then Maybe(g.p.resumed && g.p.ticket, Hs(NewSessionTicket(g.emptyTicket)))
    else if k == 11 then Maybe(g.p.resumed, Ccs)
    else if k == 12 then Maybe(g.p.resumed, Hs(Finished))
    else if k == 13 then [Ccs]
    else if k == 14 then Maybe(g.p.nextProto, Hs(NextProto))
    else if k == 15 then Maybe(g.p.channelId, Hs(ChannelId))
    else if k == 16 then [Hs(Finished)]
    else if k == 17 then Maybe(!g.p.resumed && g.p.ticket, Hs(NewSessionTicket(g.emptyTicket)))
    else if k == 18 then Maybe(!g.p.resumed, Ccs)
    else if k == 19 then Maybe(!g.p.resumed, Hs(Finished))
    else []
  }

  /** The items from place `lo` up to `hi`. */
  function Items(g: Script, lo: nat, hi: nat): seq<Item>
    decreases hi - lo
  {
    if lo >= hi then [] else Slot(g, lo) + Items(g, lo + 1, hi)
  }

  /** The first place from `lo` on that holds something, or END. */
  function Next(g: Script, lo: nat): (k: nat)
    ensures lo <= k || (k == END && lo > END)
    ensures k < END ==> Slot(g, k) != []
    decreases END - lo
  {
    if lo >= END then END else if Slot(g, lo) != [] then lo else Next(g, lo + 1)
  }

  lemma {:induction false} NextIsNext(g: Script, lo: nat, k: nat)
    requires lo <= k < END && Slot(g, k) != []
    ensures Next(g, lo) <= k
    decreases k - lo
  {
    hide Slot;
    if lo < k && Slot(g, lo) == [] {
      NextIsNext(g, lo + 1, k);
    }
  }

  ghost predicate NoneOf(g: Script, lo: nat, hi: nat, client: bool) {
    forall k :: lo <= k < hi && Slot(g, k) != [] ==> ByClient(k) != client
  }

  lemma {:induction false} ItemsSplit(g: Script, lo: nat, mid: nat, hi: nat)
    requires lo <= mid <= hi
    ensures Items(g, lo, hi) == Items(g, lo, mid) + Items(g, mid, hi)
    decreases mid - lo
  {
    hide Slot;
    if lo < mid {
      ItemsSplit(g, lo + 1, mid, hi);
      assert Items(g, lo, hi) == Slot(g, lo) + (Items(g, lo + 1, mid) + Items(g, mid, hi));
    }
  }

  lemma {:induction false} ItemsLength(g: Script, lo: nat, hi: nat)
    requires lo <= hi
    ensures |Items(g, lo, hi)| <= hi - lo
    decreases hi - lo
  {
    hide Slot;
    if lo < hi {
      ItemsLength(g, lo + 1, hi);
    }
  }

  lemma {:induction false} NothingWithin(g: Script, lo: nat, hi: nat, k: nat)
    requires lo <= k < hi && Items(g, lo, hi) == []
    ensures Slot(g, k) == []
    decreases k - lo
  {
    hide Slot;
    if lo < k {
      NothingWithin(g, lo + 1, hi, k);
    }
  }

  /** What is first among the items is what stands at the next place. */
  lemma {:induction false} ItemsHead(g: Script, lo: nat, hi: nat)
    requires Items(g, lo, hi) != [] && hi <= END
    ensures lo <= Next(g, lo) < hi && Slot(g, Next(g, lo)) == [Items(g, lo, hi)[0]]
    decreases hi - lo
  {
    hide Slot;
    if Slot(g, lo) == [] {
      ItemsHead(g, lo + 1, hi);
    }
  }

  /** One machine has come from place `i` to place `j`, sending what is there if that is its own,
      or taking the one item there if that is the other's. */
  ghost predicate Moved(g: Script, client: bool, i: nat, j: nat, sent: seq<Item>, taken: seq<Item>) {
    && i <= j <= END
    && ((taken == [] && Items(g, i, j) == sent && NoneOf(g, i, j, !client))
        || (taken != [] && sent == [] && Items(g, i, j) == taken && NoneOf(g, i, j, client)))
  }

  lemma {:induction false} EmptyStretch(g: Script, i: nat, j: nat)
    requires i <= j && forall k :: i <= k < j ==> Slot(g, k) == []
    ensures Items(g, i, j) == []
    decreases j - i
  {
    hide Slot;
    if i < j {
      EmptyStretch(g, i + 1, j);
    }
  }

  /** Between `i` and `j` only place `k` may hold something. */
  ghost predicate OnlyAt(g: Script, i: nat, j: nat, k: nat) {
    i <= k < j <= END && forall x :: i <= x < j && x != k ==> Slot(g, x) == []
  }

  lemma {:induction false} OnlyItem(g: Script, i: nat, j: nat, k: nat)
    requires OnlyAt(g, i, j, k)
    ensures Items(g, i, j) == Slot(g, k)
    decreases k - i
  {
    hide Slot;
    if i < k {
      OnlyItem(g, i + 1, j, k);
    } else {
      EmptyStretch(g, k + 1, j);
    }
  }

  /** Passing a place: what is there is sent by its owner. */
  lemma {:induction false} PassOwn(g: Script, client: bool, i: nat, j: nat, k: nat)
    requires OnlyAt(g, i, j, k) && (ByClient(k) == client || Slot(g, k) == [])
    ensures Moved(g, client, i, j, Slot(g, k), [])
  {
    hide Slot, Items;
    OnlyItem(g, i, j, k);
  }

  /** Passing a place: what is there is taken by the other side. */
  lemma {:induction false} PassTaken(g: Script, client: bool, i: nat, j: nat, k: nat)
    requires OnlyAt(g, i, j, k) && ByClient(k) != client && Slot(g, k) != []
    ensures Moved(g, client, i, j, [], Slot(g, k))
  {
    hide Slot, Items;
    OnlyItem(g, i, j, k);
  }

  lemma {:induction false} PassNothing(g: Script, client: bool, i: nat, j: nat)
    requires i <= j <= END && forall k :: i <= k < j ==> Slot(g, k) == []
    ensures Moved(g, client, i, j, [], [])
  {
    hide Slot, Items;
    EmptyStretch(g, i, j);
  }

  /** The client's last flight. */
  lemma {:induction false} PassClientFinish(g: Script)
    ensures Moved(g, true, 13, 17, Slot(g, 13) + Slot(g, 14) + Slot(g, 15) + Slot(g, 16), [])
  {
    hide Slot, Items;
    OnlyItem(g, 13, 14, 13);
    OnlyItem(g, 14, 15, 14);
    OnlyItem(g, 15, 16, 15);
    OnlyItem(g, 16, 17, 16);
    ItemsSplit(g, 13, 14, 17);
    ItemsSplit(g, 14, 15, 17);
    ItemsSplit(g, 15, 16, 17);
    assert Slot(g, 13) + (Slot(g, 14) + (Slot(g, 15) + Slot(g, 16))) ==
      Slot(g, 13) + Slot(g, 14) + Slot(g, 15) + Slot(g, 16);
  }

  lemma {:induction false} PassTwo(g: Script, client: bool, n: nat)
    requires n + 2 <= END && ByClient(n) == client && ByClient(n + 1) == client
    ensures Moved(g, client, n, n + 2, Slot(g, n) + Slot(g, n + 1), [])
  {
    hide Slot, Items;
    OnlyItem(g, n, n + 1, n);
    OnlyItem(g, n + 1, n + 2, n + 1);
    ItemsSplit(g, n, n + 1, n + 2);
  }

  /** The server's last flight, which begins at 10 on resumption and at 17 otherwise. */
  lemma {:induction false} PassServerFinish(g: Script, n: nat)
    requires n == 10 || n == 17
    ensures Moved(g, false, n, n + 3, Slot(g, n) + Slot(g, n + 1) + Slot(g, n + 2), [])
  {
    hide Slot, Items;
    OnlyItem(g, n, n + 1, n);
    OnlyItem(g, n + 1, n + 2, n + 1);
    OnlyItem(g, n + 2, n + 3, n + 2);
    ItemsSplit(g, n, n + 1, n + 3);
    ItemsSplit(g, n + 1, n + 2, n + 3);
    assert Slot(g, n) + (Slot(g, n + 1) + Slot(g, n + 2)) == Slot(g, n) + Slot(g, n + 1) + Slot(g, n + 2);
  }

  /** The next item is the other side's to send. */
  predicate AwaitsPeer(g: Script, client: bool, i: nat) {
    Next(g, i) < END && ByClient(Next(g, i)) != client
  }

  predicate AwaitsMessage(g: Script, client: bool, i: nat) {
    AwaitsPeer(g, client, i) && Slot(g, Next(g, i)) != [Ccs]
  }

  predicate AwaitsCcs(g: Script, client: bool, i: nat) {
    i < END && ByClient(i) != client && Slot(g, i) == [Ccs]
  }

  /** The message that may be there is the next item. */
  predicate IsNext(g: Script, client: bool, i: nat, msg: Option<Msg>) {
    msg.Some? ==> AwaitsPeer(g, client, i) && Slot(g, Next(g, i)) == [Hs(msg.value)]
  }

  lemma {:induction false} NextHere(g: Script, i: nat)
    requires i < END
    ensures Next(g, i) == if Slot(g, i) != [] then i else Next(g, i + 1)
  {
    hide Slot;
  }

  /** What is there at a place of the other side's is what is awaited and next; if nothing is
      there, that is settled by the place after it. */
  lemma {:induction false} PeerPlace(g: Script, client: bool, i: nat, msg: Option<Msg>)
    requires i < END && ByClient(i) != client
    ensures AwaitsMessage(g, client, i) == if Slot(g, i) != [] then Slot(g, i) != [Ccs]
            else AwaitsMessage(g, client, i + 1)
    ensures IsNext(g, client, i, msg) ==
            if Slot(g, i) != [] then msg.Some? ==> Slot(g, i) == [Hs(msg.value)] else IsNext(g, client, i + 1, msg)
  {
    hide Slot;
    NextHere(g, i);
  }

  /** At a place of the other side's a machine may stay, take what is there, or find nothing there. */
  lemma {:induction false} PassPeerPlace(g: Script, client: bool, i: nat)
    requires i < END && ByClient(i) != client
    ensures Moved(g, client, i, i, [], [])
    ensures if Slot(g, i) != [] then Moved(g, client, i, i + 1, [], Slot(g, i)) else Moved(g, client, i, i + 1, [], [])
  {
    hide Slot, Items, NoneOf;
    PassNothing(g, client, i, i);
    if Slot(g, i) != [] {
      PassTaken(g, client, i, i + 1, i);
    } else {
      PassNothing(g, client, i, i + 1);
    }
  }

  function TakenItem(msg: Option<Msg>, taken: bool): seq<Item> {
    if taken && msg.Some? then [Hs(msg.value)] else []
  }

  /** The environment lets every step succeed, though a callback may take its time. */
  predicate Succeeds(env: Env) {
    env.checks && env.signature && env.finished && !env.verify.No? && !env.callback.No?
  }

  predicate Prompt(env: Env) {
    Succeeds(env) && env.verify.Yes? && env.callback.Yes?
  }
}
