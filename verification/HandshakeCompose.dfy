/** A client and a server joined by reliable, ordered channels (RFC 5246, section 7.3). */
module HandshakeCompose {
  import opened Wrappers
  import opened Handshake
  import opened HandshakeScript
  import opened HandshakeTransport
  import Cl = HandshakeClient
  import Sv = HandshakeServer
  import Cs = HandshakeClientScript
  import Ss = HandshakeServerScript

  datatype System = System(c: Cl.Client, cp: Port, s: Sv.Server, sp: Port)

  ghost predicate Sound(p: Port) {
    && p.held <= |p.inbox| && AllMessages(p.inbox[..p.held])
    && !p.wait.Error?
    && (p.wait.ReadCcs? ==> p.held == 0)
  }

  /** get_message: the next message, if it has been read. */
  function Message(p: Port): Option<Msg> {
    if 0 < p.held <= |p.inbox| && p.inbox[0].Hs? then Some(p.inbox[0].msg) else None
  }

  /** What a step does to its port. */
  function AfterStep(p: Port, wait: Wait, sent: seq<Item>, taken: bool): Port {
    if taken && p.inbox != [] && p.held > 0 then Port(wait, p.out + sent, p.inbox[1..], p.held - 1)
    else p.(wait := wait, out := p.out + sent)
  }

  function ClientTurn(y: System, k: nat, env: Env): System {
    if !y.cp.wait.Ok? then
      y.(cp := Resolve(y.cp, k), sp := y.sp.(inbox := y.sp.inbox + Flushed(y.cp, k)))
    else if y.c.state.Done? then y
    else
      var o := Cl.Step(y.c, Message(y.cp), env);
      y.(c := o.m, cp := AfterStep(y.cp, o.wait, o.sent, o.taken))
  }

  function ServerTurn(y: System, k: nat, env: Env, choice: Sv.Choice): System {
    if !y.sp.wait.Ok? then
      y.(sp := Resolve(y.sp, k), cp := y.cp.(inbox := y.cp.inbox + Flushed(y.sp, k)))
    else if y.s.state.Done? then y
    else
      var o := Sv.Step(y.s, Message(y.sp), env, choice);
      y.(s := o.m, sp := AfterStep(y.sp, o.wait, o.sent, o.taken))
  }

  // ---------------------------------------------------------------- the channels

  /** What is under way between a side at place `i` and its peer at place `j`: the items between
      the two places, all of them from whoever is ahead. */
  ghost predicate Between(g: Script, client: bool, i: nat, j: nat, own: seq<Item>, other: seq<Item>) {
    && i <= END && j <= END
    && ((i >= j && own == Items(g, j, i) && NoneOf(g, j, i, !client) && other == [])
        || (j >= i && other == Items(g, i, j) && NoneOf(g, i, j, client) && own == []))
  }

  lemma BetweenTurns(g: Script, client: bool, i: nat, j: nat, own: seq<Item>, other: seq<Item>)
    ensures Between(g, client, i, j, own, other) == Between(g, !client, j, i, other, own)
  {
  }

  lemma {:induction false} NothingThere(g: Script, lo: nat, hi: nat, client: bool)
    requires lo <= hi && NoneOf(g, lo, hi, client) && NoneOf(g, lo, hi, !client)
    ensures Items(g, lo, hi) == []
  {
    hide Slot, Items;
    EmptyStretch(g, lo, hi);
  }

  /** Sending extends what is under way. */
  lemma {:induction false} BetweenSent(g: Script, client: bool, i: nat, i': nat, j: nat,
                                       own: seq<Item>, other: seq<Item>, sent: seq<Item>)
    requires Between(g, client, i, j, own, other) && Moved(g, client, i, i', sent, [])
    ensures Between(g, client, i', j, own + sent, other)
  {
    hide Slot, Items;
    if i >= j {
      ItemsSplit(g, j, i, i');
      EmptyStretchAt(g, i);
    } else if i' <= j {
      NothingThere(g, i, i', client);
      ItemsSplit(g, i, i', j);
    } else {
      NothingThere(g, i, j, client);
      ItemsSplit(g, i, j, i');
    }
  }

  /** Taking the next item shortens what is under way. */
  lemma {:induction false} BetweenTaken(g: Script, client: bool, i: nat, i': nat, j: nat,
                                        own: seq<Item>, other: seq<Item>, x: Item)
    requires Between(g, client, i, j, own, other) && Moved(g, client, i, i', [], [x]) && other != []
    ensures Between(g, client, i', j, own, other[1..])
  {
    hide Slot, Items;
    EmptyStretchAt(g, i);
    if i' <= j {
      ItemsSplit(g, i, i', j);
    } else {
      ItemsSplit(g, i, j, i');
      assert |Items(g, i, j)| + |Items(g, j, i')| == 1;
      AllEmpty(g, j, i');
    }
  }

  lemma EmptyStretchAt(g: Script, i: nat)
    ensures Items(g, i, i) == []
  {
  }

  lemma {:induction false} AllEmpty(g: Script, lo: nat, hi: nat)
    requires Items(g, lo, hi) == []
    ensures forall k :: lo <= k < hi ==> Slot(g, k) == []
  {
    hide Slot, Items;
    forall k | lo <= k < hi
      ensures Slot(g, k) == []
    {
      NothingWithin(g, lo, hi, k);
    }
  }

  /** What has arrived is the next item, and the peer's. */
  lemma {:induction false} Arrived(g: Script, client: bool, i: nat, j: nat, own: seq<Item>, other: seq<Item>)
    requires Between(g, client, i, j, own, other) && other != []
    ensures AwaitsPeer(g, client, i) && Slot(g, Next(g, i)) == [other[0]]
  {
    hide Slot, Items, Next;
    EmptyStretchAt(g, i);
    ItemsHead(g, i, j);
  }

  /** If nothing is under way the two sides cannot both be waiting for each other. */
  lemma {:induction false} NotBothWaiting(g: Script, i: nat, j: nat)
    requires Between(g, true, i, j, [], [])
    ensures !(AwaitsPeer(g, true, i) && AwaitsPeer(g, false, j))
    ensures AwaitsPeer(g, true, i) ==> j < END
    ensures AwaitsPeer(g, false, j) ==> i < END
  {
    hide Slot, Items;
    if i >= j {
      NextSkips(g, j, i);
    } else {
      NextSkips(g, i, j);
    }
  }

  lemma {:induction false} NothingAtEnd(g: Script, client: bool, i: nat, j: nat, own: seq<Item>, other: seq<Item>)
    requires Between(g, client, i, j, own, other) && i == END
    ensures other == []
  {
    hide Slot, Items;
    if other != [] {
      Arrived(g, client, i, j, own, other);
    }
  }

  lemma {:induction false} NextSkips(g: Script, lo: nat, hi: nat)
    requires lo <= hi <= END && Items(g, lo, hi) == []
    ensures Next(g, lo) == Next(g, hi)
    decreases hi - lo
  {
    hide Slot;
    if lo < hi {
      NextSkips(g, lo + 1, hi);
    }
  }

  // ---------------------------------------------------------------- ports

  /** A side at place `i` waits only for what is to come, and leaves nothing unflushed when it
      waits for its peer. */
  ghost predicate PortOk(g: Script, client: bool, p: Port, i: nat, unflushed: bool) {
    && Sound(p)
    && (p.wait.ReadCcs? ==> AwaitsCcs(g, client, i))
    && (p.wait.ReadMessage? ==> AwaitsMessage(g, client, i))
    && (p.out != [] ==> p.wait.Flush? || (unflushed && (p.wait.Ok? || p.wait.Retry?)))
  }

  function Delivered(q: Port, items: seq<Item>): Port {
    q.(inbox := q.inbox + items)
  }

  function Weight(p: Port): nat {
    match p.wait
    case Ok => if p.held > 0 then 1 else 3
    case Retry => if p.held > 0 then 1 else 3
    case ReadMessage => 2
    case Error => 0
    case _ => 4
  }

  /** Settling a callback that was late takes a turn, but gets nowhere. */
  function Pause(p: Port): nat {
    if p.wait.Retry? then 1 else 0
  }

  predicate Waits(p: Port) {
    (p.wait.ReadMessage? || p.wait.ReadCcs?) && p.inbox == []
  }

  /** Between the sides whose ports are `p`, at place `i`, and `q`, at place `j`. */
  ghost predicate Joined(g: Script, client: bool, i: nat, j: nat, p: Port, q: Port) {
    Between(g, client, i, j, q.inbox + p.out, p.inbox + q.out)
  }

  /** Settling what was waited for keeps a port in order, comes nearer to the end, and moves to
      place `i'`; only if nothing has arrived does nothing happen, and only a late callback is asked
      again without coming nearer. */
  ghost predicate Resolves(g: Script, client: bool, i: nat, i': nat, j: nat, p: Port, q: Port, p': Port, q': Port,
                           unflushed: bool) {
    && PortOk(g, client, p', i', unflushed) && Joined(g, client, i', j, p', q')
    && i' == (if p.wait.ReadCcs? && p'.wait.Ok? then i + 1 else i)
    && (p'.wait.Ok? || p'.wait == p.wait)
    && ((p' == p && q' == q && Waits(p))
        || (p.wait.Retry? && p' == p.(wait := Ok) && q' == q)
        || (!p.wait.Retry? && |p'.out| + Weight(p') < |p.out| + Weight(p)))
  }

  lemma {:induction false} FlushResolves(g: Script, client: bool, i: nat, j: nat, p: Port, q: Port, k: nat,
                                         unflushed: bool)
    requires PortOk(g, client, p, i, unflushed) && Joined(g, client, i, j, p, q) && p.wait.Flush?
    ensures Resolves(g, client, i, i, j, p, q, Resolve(p, k), Delivered(q, Flushed(p, k)), unflushed)
  {
    hide Between, AwaitsMessage, AwaitsCcs, AllMessages;
    var n := Portion(k, |p.out|);
    assert p.out == p.out[..n] + p.out[n..];
    assert q.inbox + p.out == (q.inbox + p.out[..n]) + p.out[n..];
  }

  lemma {:induction false} ReadResolves(g: Script, client: bool, i: nat, j: nat, p: Port, q: Port, k: nat,
                                        unflushed: bool)
    requires PortOk(g, client, p, i, unflushed) && Joined(g, client, i, j, p, q) && p.wait.ReadMessage?
    ensures Resolves(g, client, i, i, j, p, q, Resolve(p, k), Delivered(q, Flushed(p, k)), unflushed)
  {
    hide Between, Next, Slot;
    assert q.inbox + [] == q.inbox;
    if p.inbox != [] {
      Arrived(g, client, i, j, q.inbox + p.out, p.inbox + q.out);
    }
  }

  lemma {:induction false} CcsResolves(g: Script, client: bool, i: nat, j: nat, p: Port, q: Port, k: nat,
                                       unflushed: bool)
    requires PortOk(g, client, p, i, unflushed) && Joined(g, client, i, j, p, q) && p.wait.ReadCcs?
    ensures Resolves(g, client, i, if p.inbox == [] then i else i + 1, j, p, q,
                     Resolve(p, k), Delivered(q, Flushed(p, k)), unflushed)
  {
    hide Between, Next, Slot, Moved;
    assert q.inbox + [] == q.inbox;
    if p.inbox != [] {
      var other := p.inbox + q.out;
      Arrived(g, client, i, j, q.inbox + p.out, other);
      NextHere(g, i);
      PassPeerPlace(g, client, i);
      BetweenTaken(g, client, i, i + 1, j, q.inbox + p.out, other, Ccs);
      assert other[1..] == p.inbox[1..] + q.out;
    }
  }

  lemma {:induction false} PauseResolves(g: Script, client: bool, i: nat, j: nat, p: Port, q: Port, k: nat,
                                         unflushed: bool)
    requires PortOk(g, client, p, i, unflushed) && Joined(g, client, i, j, p, q)
             && (p.wait.Retry? || p.wait.EarlyReturn?)
    ensures Resolves(g, client, i, i, j, p, q, Resolve(p, k), Delivered(q, Flushed(p, k)), unflushed)
  {
    hide Between, AwaitsMessage, AwaitsCcs, AllMessages;
    assert q.inbox + [] == q.inbox;
  }

  function ResolvedPlace(p: Port, i: nat): nat {
    if p.wait.ReadCcs? && p.inbox != [] then i + 1 else i
  }

  lemma {:induction false} PortResolves(g: Script, client: bool, i: nat, j: nat, p: Port, q: Port, k: nat,
                                        unflushed: bool)
    requires PortOk(g, client, p, i, unflushed) && Joined(g, client, i, j, p, q) && !p.wait.Ok?
    ensures Resolves(g, client, i, ResolvedPlace(p, i), j, p, q, Resolve(p, k), Delivered(q, Flushed(p, k)), unflushed)
  {
    hide Resolves, Joined, Resolve, Flushed;
    match p.wait
    case Flush => FlushResolves(g, client, i, j, p, q, k, unflushed);
    case ReadMessage => ReadResolves(g, client, i, j, p, q, k, unflushed);
    case ReadCcs => CcsResolves(g, client, i, j, p, q, k, unflushed);
    case _ => PauseResolves(g, client, i, j, p, q, k, unflushed);
  }

  /** What the peer sends disturbs nothing. */
  lemma {:induction false} StillOk(g: Script, client: bool, q: Port, j: nat, unflushed: bool, items: seq<Item>)
    requires PortOk(g, client, q, j, unflushed)
    ensures PortOk(g, client, Delivered(q, items), j, unflushed)
  {
    hide AwaitsMessage, AwaitsCcs;
    assert (q.inbox + items)[..q.held] == q.inbox[..q.held];
  }

  /** The message that has been read is the next item. */
  lemma {:induction false} MessageIsNext(g: Script, client: bool, i: nat, j: nat, p: Port, q: Port)
    requires Sound(p) && Joined(g, client, i, j, p, q)
    ensures IsNext(g, client, i, Message(p))
    ensures Message(p) == None ==> p.held == 0
  {
    hide Between, Slot, Next, AwaitsPeer;
    if p.held > 0 {
      assert p.inbox[..p.held][0].Hs?;
      Arrived(g, client, i, j, q.inbox + p.out, p.inbox + q.out);
    }
  }

  /** How a step leaves its port. */
  predicate Leaves(g: Script, client: bool, i': nat, wait: Wait, sent: seq<Item>, unflushed: bool, unflushed': bool) {
    && !wait.Error?
    && (wait.ReadCcs? ==> AwaitsCcs(g, client, i'))
    && (wait.ReadMessage? ==> AwaitsMessage(g, client, i'))
    && (unflushed || sent != [] ==> wait.Flush? || (unflushed' && (wait.Ok? || wait.Retry?)))
  }

  lemma {:induction false} PortSends(g: Script, client: bool, i: nat, i': nat, j: nat, p: Port, q: Port,
                                     wait: Wait, sent: seq<Item>)
    requires Sound(p) && Joined(g, client, i, j, p, q) && p.wait.Ok? && !wait.Error?
    requires Moved(g, client, i, i', sent, []) && (wait.ReadCcs? ==> AwaitsCcs(g, client, i'))
    ensures Sound(AfterStep(p, wait, sent, false)) && Joined(g, client, i', j, AfterStep(p, wait, sent, false), q)
  {
    hide Between, Moved, Slot, Next;
    var p' := AfterStep(p, wait, sent, false);
    BetweenSent(g, client, i, i', j, q.inbox + p.out, p.inbox + q.out, sent);
    assert (q.inbox + p.out) + sent == q.inbox + p'.out;
    NothingHeld(g, client, i', j, p', q);
  }

  lemma {:induction false} PortTakes(g: Script, client: bool, i: nat, i': nat, j: nat, p: Port, q: Port, wait: Wait)
    requires Sound(p) && Joined(g, client, i, j, p, q) && p.wait.Ok? && !wait.Error? && Message(p).Some?
    requires Moved(g, client, i, i', [], [Hs(Message(p).value)]) && (wait.ReadCcs? ==> AwaitsCcs(g, client, i'))
    ensures Sound(AfterStep(p, wait, [], true)) && Joined(g, client, i', j, AfterStep(p, wait, [], true), q)
  {
    hide Between, Moved, Slot, Next;
    var p' := AfterStep(p, wait, [], true);
    var other := p.inbox + q.out;
    BetweenTaken(g, client, i, i', j, q.inbox + p.out, other, Hs(Message(p).value));
    assert other[1..] == p'.inbox + q.out && p'.out == p.out;
    assert p'.inbox[..p'.held] == p.inbox[..p.held][1..];
    NothingHeld(g, client, i', j, p', q);
  }

  /** Before a ChangeCipherSpec no message can have been read. */
  lemma {:induction false} NothingHeld(g: Script, client: bool, i: nat, j: nat, p: Port, q: Port)
    requires p.held <= |p.inbox| && AllMessages(p.inbox[..p.held]) && Joined(g, client, i, j, p, q)
    ensures AwaitsCcs(g, client, i) ==> p.held == 0
  {
    hide Between, Slot, Next;
    if AwaitsCcs(g, client, i) && p.held > 0 {
      assert p.inbox[..p.held][0].Hs?;
      NextHere(g, i);
      Arrived(g, client, i, j, q.inbox + p.out, p.inbox + q.out);
    }
  }

  lemma {:induction false} PortSteps(g: Script, client: bool, i: nat, i': nat, j: nat, p: Port, q: Port,
                                     wait: Wait, sent: seq<Item>, taken: bool, unflushed: bool, unflushed': bool)
    requires PortOk(g, client, p, i, unflushed) && Joined(g, client, i, j, p, q) && p.wait.Ok?
    requires Moved(g, client, i, i', sent, TakenItem(Message(p), taken)) && (taken ==> Message(p).Some?)
    requires Leaves(g, client, i', wait, sent, unflushed, unflushed')
    ensures PortOk(g, client, AfterStep(p, wait, sent, taken), i', unflushed')
    ensures Joined(g, client, i', j, AfterStep(p, wait, sent, taken), q)
    ensures |AfterStep(p, wait, sent, taken).out| <= |p.out| + END
  {
    hide Joined, AwaitsMessage, AwaitsCcs, AllMessages, Items, Slot;
    if taken {
      PortTakes(g, client, i, i', j, p, q, wait);
    } else {
      PortSends(g, client, i, i', j, p, q, wait, sent);
      ItemsLength(g, i, i');
    }
  }

  // ---------------------------------------------------------------- the system

  function CPlace(y: System): nat {
    Cs.Place(y.c, y.cp.wait)
  }

  function SPlace(y: System): nat {
    Ss.Place(y.s, y.sp.wait)
  }

  ghost predicate ClientOk(y: System, g: Script) {
    && Cl.Shape(y.c) && Cs.Agrees(y.c, g) && (y.cp.wait.ReadCcs? ==> y.c.state.ProcessChangeCipherSpec?)
    && PortOk(g, true, y.cp, CPlace(y), Cs.Unflushed(y.c.state))
  }

  ghost predicate ServerOk(y: System, g: Script, choice: Sv.Choice) {
    && Sv.Shape(y.s) && Ss.Agrees(y.s, g, choice) && (y.sp.wait.ReadCcs? ==> y.s.state.ProcessChangeCipherSpec?)
    && PortOk(g, false, y.sp, SPlace(y), Ss.Unflushed(y.s.state))
  }

  ghost predicate Inv(y: System, g: Script, choice: Sv.Choice) {
    Good(g) && ClientOk(y, g) && ServerOk(y, g, choice) && Joined(g, true, CPlace(y), SPlace(y), y.cp, y.sp)
  }

  lemma JoinedTurns(g: Script, i: nat, j: nat, p: Port, q: Port)
    ensures Joined(g, true, i, j, p, q) == Joined(g, false, j, i, q, p)
  {
    BetweenTurns(g, true, i, j, q.inbox + p.out, p.inbox + q.out);
  }

  /** How far the system is from the end. Late callbacks make no difference to it. */
  function Distance(y: System): int {
    64 * (38 - Cl.At(y.c) - Sv.At(y.s)) + |y.cp.out| + |y.sp.out| + Weight(y.cp) + Weight(y.sp)
  }

  /** The same, with the callbacks that are to be asked again. */
  function Measure(y: System): int {
    Distance(y) + Pause(y.cp) + Pause(y.sp)
  }

  predicate Nearer(y': System, y: System) {
    Distance(y') < Distance(y) && Measure(y') < Measure(y)
  }

  function WaitOf(y: System, client: bool): Wait {
    if client then y.cp.wait else y.sp.wait
  }

  function Waiting(y: System, client: bool, wait: Wait): System {
    if client then y.(cp := y.cp.(wait := wait)) else y.(sp := y.sp.(wait := wait))
  }

  /** A late callback is noticed, or asked again: only what is waited for changes. */
  predicate Dallies(y: System, y': System, client: bool, prompt: bool) {
    || (WaitOf(y, client).Retry? && y' == Waiting(y, client, Ok))
    || (!prompt && WaitOf(y, client).Ok? && y' == Waiting(y, client, Retry))
  }

  predicate ClientDone(y: System) {
    y.c.state.Done? && y.cp.wait.Ok?
  }

  predicate ServerDone(y: System) {
    y.s.state.Done? && y.sp.wait.Ok?
  }

  lemma {:induction false} ClientResolves(y: System, k: nat, env: Env, g: Script, choice: Sv.Choice)
    requires Inv(y, g, choice) && !y.cp.wait.Ok?
    ensures var y' := ClientTurn(y, k, env);
            Inv(y', g, choice) && ((y' == y && Waits(y.cp)) || Nearer(y', y) || Dallies(y, y', true, true))
  {
    hide PortOk, Joined, Resolve, Flushed, Cs.Agrees, Ss.Agrees, Cl.Shape, Sv.Shape, Cs.Place, Ss.Place;
    var y' := ClientTurn(y, k, env);
    PortResolves(g, true, CPlace(y), SPlace(y), y.cp, y.sp, k, Cs.Unflushed(y.c.state));
    StillOk(g, false, y.sp, SPlace(y), Ss.Unflushed(y.s.state), Flushed(y.cp, k));
    ClientPlaces(y.c, y.cp.wait, y'.cp.wait);
  }

  /** A place depends on what is waited for only when that is the ChangeCipherSpec. */
  lemma ClientPlaces(c: Cl.Client, w: Wait, w': Wait)
    ensures (w.ReadCcs? <==> w'.ReadCcs?) ==> Cs.Place(c, w) == Cs.Place(c, w')
    ensures w.ReadCcs? && !w'.ReadCcs? && c.state.ProcessChangeCipherSpec? ==> Cs.Place(c, w') == Cs.Place(c, w) + 1
  {
  }

  lemma ServerPlaces(s: Sv.Server, w: Wait, w': Wait)
    ensures (w.ReadCcs? <==> w'.ReadCcs?) ==> Ss.Place(s, w) == Ss.Place(s, w')
    ensures w.ReadCcs? && !w'.ReadCcs? && s.state.ProcessChangeCipherSpec? ==> Ss.Place(s, w') == Ss.Place(s, w) + 1
  {
  }

  lemma {:induction false} ServerResolves(y: System, k: nat, env: Env, g: Script, choice: Sv.Choice)
    requires Inv(y, g, choice) && !y.sp.wait.Ok?
    ensures var y' := ServerTurn(y, k, env, choice);
            Inv(y', g, choice) && ((y' == y && Waits(y.sp)) || Nearer(y', y) || Dallies(y, y', false, true))
  {
    hide PortOk, Joined, Resolve, Flushed, Cs.Agrees, Ss.Agrees, Cl.Shape, Sv.Shape, Cs.Place, Ss.Place;
    var y' := ServerTurn(y, k, env, choice);
    JoinedTurns(g, CPlace(y), SPlace(y), y.cp, y.sp);
    PortResolves(g, false, SPlace(y), CPlace(y), y.sp, y.cp, k, Ss.Unflushed(y.s.state));
    StillOk(g, true, y.cp, CPlace(y), Cs.Unflushed(y.c.state), Flushed(y.sp, k));
    ServerPlaces(y.s, y.sp.wait, y'.sp.wait);
    JoinedTurns(g, CPlace(y'), SPlace(y'), y'.cp, y'.sp);
  }

  /** Only a callback that takes its time lets a step pass without bringing the end nearer. */
  lemma {:induction false} ClientSteps(y: System, k: nat, env: Env, g: Script, choice: Sv.Choice)
    requires Inv(y, g, choice) && y.cp.wait.Ok? && !y.c.state.Done? && Succeeds(env)
    ensures var y' := ClientTurn(y, k, env);
            Inv(y', g, choice) && (Nearer(y', y) || Dallies(y, y', true, Prompt(env)))
  {
    hide PortOk, Joined, Cs.Agrees, Ss.Agrees, Cl.Shape, Sv.Shape, Cs.Place, Ss.Place, Cl.Step, Cl.At, Sv.At, Moved,
      IsNext, AwaitsMessage, AwaitsCcs, Good, Succeeds, Prompt;
    var i, j := CPlace(y), SPlace(y);
    var o := Cl.Step(y.c, Message(y.cp), env);
    ClientPlaces(y.c, y.cp.wait, Ok);
    SoundPort(g, true, y.cp, i, Cs.Unflushed(y.c.state));
    MessageIsNext(g, true, i, j, y.cp, y.sp);
    Cs.StepFollows(y.c, g, Message(y.cp), env);
    Cl.StepClimbs(y.c, Message(y.cp), env);
    if o.m == y.c && o.wait.Retry? {
      ClientPlaces(y.c, Ok, Retry);
      StaysPut(g, true, i, o.sent, TakenItem(Message(y.cp), o.taken));
    }
    PortSteps(g, true, i, Cs.Place(o.m, o.wait), j, y.cp, y.sp, o.wait, o.sent, o.taken,
              Cs.Unflushed(y.c.state), Cs.Unflushed(o.m.state));
  }

  /** Without leaving its place a machine sends and takes nothing. */
  lemma {:induction false} StaysPut(g: Script, client: bool, i: nat, sent: seq<Item>, taken: seq<Item>)
    requires Moved(g, client, i, i, sent, taken)
    ensures sent == [] && taken == []
  {
    hide Slot;
    EmptyStretchAt(g, i);
  }

  lemma SoundPort(g: Script, client: bool, p: Port, i: nat, unflushed: bool)
    requires PortOk(g, client, p, i, unflushed)
    ensures Sound(p)
  {
  }

  lemma {:induction false} ServerSteps(y: System, k: nat, env: Env, g: Script, choice: Sv.Choice)
    requires Inv(y, g, choice) && y.sp.wait.Ok? && !y.s.state.Done? && Succeeds(env)
    ensures var y' := ServerTurn(y, k, env, choice);
            Inv(y', g, choice) && (Nearer(y', y) || Dallies(y, y', false, Prompt(env)))
  {
    hide PortOk, Joined, Cs.Agrees, Ss.Agrees, Cl.Shape, Sv.Shape, Cs.Place, Ss.Place, Sv.Step, Cl.At, Sv.At, Moved,
      IsNext, AwaitsMessage, AwaitsCcs, Good, Succeeds, Prompt;
    var i, j := SPlace(y), CPlace(y);
    var o := Sv.Step(y.s, Message(y.sp), env, choice);
    ServerPlaces(y.s, y.sp.wait, Ok);
    SoundPort(g, false, y.sp, i, Ss.Unflushed(y.s.state));
    JoinedTurns(g, j, i, y.cp, y.sp);
    MessageIsNext(g, false, i, j, y.sp, y.cp);
    Ss.StepFollows(y.s, g, Message(y.sp), env, choice);
    Sv.StepClimbs(y.s, Message(y.sp), env, choice);
    if o.m == y.s && o.wait.Retry? {
      ServerPlaces(y.s, Ok, Retry);
      StaysPut(g, false, i, o.sent, TakenItem(Message(y.sp), o.taken));
    }
    var i' := Ss.Place(o.m, o.wait);
    PortSteps(g, false, i, i', j, y.sp, y.cp, o.wait, o.sent, o.taken,
              Ss.Unflushed(y.s.state), Ss.Unflushed(o.m.state));
    JoinedTurns(g, j, i', y.cp, AfterStep(y.sp, o.wait, o.sent, o.taken));
  }

  /** A turn: which side runs, how much it flushes or reads, and how its environment answers. */
  datatype Turn = Turn(client: bool, k: nat, env: Env)

  function Run(y: System, t: Turn, choice: Sv.Choice): System {
    if t.client then ClientTurn(y, t.k, t.env) else ServerTurn(y, t.k, t.env, choice)
  }

  predicate Idle(y: System, client: bool) {
    if client then Waits(y.cp) || ClientDone(y) else Waits(y.sp) || ServerDone(y)
  }

  /** Every turn keeps the invariant, so neither side ever fails. A turn brings the end nearer
      unless its side is done or waits for an empty channel, or a callback is late or asked again. */
  lemma {:induction false} TurnKeepsInv(y: System, t: Turn, g: Script, choice: Sv.Choice)
    requires Inv(y, g, choice) && Succeeds(t.env)
    ensures var y' := Run(y, t, choice);
            && Inv(y', g, choice)
            && (Nearer(y', y) || (y' == y && Idle(y, t.client)) || Dallies(y, y', t.client, Prompt(t.env)))
  {
    hide Inv, Distance, Measure, Succeeds, Prompt, Nearer;
    if t.client {
      if !y.cp.wait.Ok? {
        ClientResolves(y, t.k, t.env, g, choice);
      } else if !y.c.state.Done? {
        ClientSteps(y, t.k, t.env, g, choice);
      }
    } else {
      if !y.sp.wait.Ok? {
        ServerResolves(y, t.k, t.env, g, choice);
      } else if !y.s.state.Done? {
        ServerSteps(y, t.k, t.env, g, choice);
      }
    }
  }

  /** No deadlock: unless both are done, one of the two is neither done nor waiting. */
  lemma {:induction false} NoDeadlock(y: System, g: Script, choice: Sv.Choice)
    requires Inv(y, g, choice)
    ensures (ClientDone(y) && ServerDone(y)) || !Idle(y, true) || !Idle(y, false)
  {
    hide Cs.Agrees, Ss.Agrees, Cl.Shape, Sv.Shape, Good, Next, Slot, Between;
    if Idle(y, true) && Idle(y, false) && !(ClientDone(y) && ServerDone(y)) {
      assert y.cp.out == [] && y.sp.out == [];
      assert y.sp.inbox + [] == y.sp.inbox && y.cp.inbox + [] == y.cp.inbox;
      JoinedTurns(g, CPlace(y), SPlace(y), y.cp, y.sp);
      if ClientDone(y) {
        NothingAtEnd(g, true, CPlace(y), SPlace(y), y.sp.inbox, y.cp.inbox);
      }
      if ServerDone(y) {
        NothingAtEnd(g, false, SPlace(y), CPlace(y), y.cp.inbox, y.sp.inbox);
      }
      if Waits(y.cp) {
        AwaitsIsPeers(g, true, CPlace(y));
      }
      if Waits(y.sp) {
        AwaitsIsPeers(g, false, SPlace(y));
      }
      NotBothWaiting(g, CPlace(y), SPlace(y));
    }
  }

  lemma AwaitsIsPeers(g: Script, client: bool, i: nat)
    ensures AwaitsMessage(g, client, i) || AwaitsCcs(g, client, i) ==> AwaitsPeer(g, client, i)
  {
  }

  // ---------------------------------------------------------------- runs

  /** The two sides before the handshake. */
  function Begin(isDtls: bool, hasCertificate: bool, falseStart: bool, needCertificate: bool, hint: bool,
                 emptyTicket: bool): System {
    System(Cl.Start(isDtls, hasCertificate, falseStart), Port(Ok, [], [], 0),
           Sv.Start(needCertificate, hint, emptyTicket), Port(Ok, [], [], 0))
  }

  /** The script that the server's choice leads to, given the client's certificate. */
  function ScriptOf(hasCertificate: bool, hint: bool, emptyTicket: bool, choice: Sv.Choice): Script {
    var p := choice.params;
    Script(p.(channelId := p.channelId && p.ecdhe && (p.resumed ==> choice.hashes),
              status := p.status && p.certAuth && !p.resumed),
           p.ecdhe || (!p.certAuth && hint), choice.certRequest && p.certAuth && !p.resumed,
           hasCertificate, emptyTicket)
  }

  lemma ClientBegins(isDtls: bool, hasCertificate: bool, falseStart: bool, g: Script)
    requires g.hasCertificate == hasCertificate
    ensures var c := Cl.Start(isDtls, hasCertificate, falseStart);
            Cl.Shape(c) && Cs.Agrees(c, g) && Cs.Place(c, Ok) == 0
  {
  }

  lemma ServerBegins(needCertificate: bool, hasCertificate: bool, hint: bool, emptyTicket: bool, choice: Sv.Choice)
    ensures var s := Sv.Start(needCertificate, hint, emptyTicket);
            var g := ScriptOf(hasCertificate, hint, emptyTicket, choice);
            && Sv.Shape(s) && Ss.Place(s, Ok) == 0 && Good(g)
            && ((needCertificate && g.certRequest ==> hasCertificate) ==> Ss.Agrees(s, g, choice))
  {
  }

  lemma {:induction false} PortBegins(g: Script, client: bool)
    ensures var p := Port(Ok, [], [], 0); PortOk(g, client, p, 0, false) && Joined(g, client, 0, 0, p, p)
    ensures PortOk(g, client, Port(Ok, [], [], 0), 0, true)
  {
    hide Slot, AwaitsMessage, AwaitsCcs, Items;
    EmptyStretchAt(g, 0);
  }

  lemma ScriptHasCertificate(hasCertificate: bool, hint: bool, emptyTicket: bool, choice: Sv.Choice)
    ensures ScriptOf(hasCertificate, hint, emptyTicket, choice).hasCertificate == hasCertificate
  {
  }

  /** The invariant holds at the start, for a client that has a certificate if one is demanded. */
  lemma {:induction false} BeginsWell(isDtls: bool, hasCertificate: bool, falseStart: bool, needCertificate: bool,
                                      hint: bool, emptyTicket: bool, choice: Sv.Choice)
    requires needCertificate && ScriptOf(hasCertificate, hint, emptyTicket, choice).certRequest ==> hasCertificate
    ensures Inv(Begin(isDtls, hasCertificate, falseStart, needCertificate, hint, emptyTicket),
                ScriptOf(hasCertificate, hint, emptyTicket, choice), choice)
  {
    hide Cl.Shape, Sv.Shape, Cs.Agrees, Ss.Agrees, Cs.Place, Ss.Place, Good, PortOk, Joined, ScriptOf;
    var g := ScriptOf(hasCertificate, hint, emptyTicket, choice);
    PortBegins(g, true);
    PortBegins(g, false);
    assert g.hasCertificate == hasCertificate by {
      ScriptHasCertificate(hasCertificate, hint, emptyTicket, choice);
    }
    ClientBegins(isDtls, hasCertificate, falseStart, g);
    ServerBegins(needCertificate, hasCertificate, hint, emptyTicket, choice);
  }

  lemma {:induction false} MeasureIsNat(y: System)
    ensures 0 <= Measure(y)
  {
  }

  function RunAll(y: System, turns: seq<Turn>, choice: Sv.Choice): System
    decreases |turns|
  {
    if turns == [] then y else RunAll(Run(y, turns[0], choice), turns[1..], choice)
  }

  predicate AllSucceed(turns: seq<Turn>) {
    forall t :: t in turns ==> Succeeds(t.env)
  }

  /** Safety over whole runs: under any schedule, with every check passing and callbacks however
      slow, neither side ever meets an unexpected message or fails. */
  lemma {:induction false} RunKeepsInv(y: System, turns: seq<Turn>, g: Script, choice: Sv.Choice)
    requires Inv(y, g, choice) && AllSucceed(turns)
    ensures Inv(RunAll(y, turns, choice), g, choice)
    decreases |turns|
  {
    hide Inv, Run, Succeeds;
    if turns != [] {
      TurnKeepsInv(y, turns[0], g, choice);
      RunKeepsInv(Run(y, turns[0], choice), turns[1..], g, choice);
    }
  }

  /** What is needed of the configuration: a certificate that will be demanded is there. */
  predicate HasWhatIsDemanded(hasCertificate: bool, needCertificate: bool, choice: Sv.Choice) {
    needCertificate && choice.certRequest && choice.params.certAuth && !choice.params.resumed ==> hasCertificate
  }

  /** Neither side fails, whatever the configuration, the server's choice and the schedule. */
  lemma {:induction false} NeverFails(isDtls: bool, hasCertificate: bool, falseStart: bool, needCertificate: bool,
                                      hint: bool, emptyTicket: bool, choice: Sv.Choice, turns: seq<Turn>)
    requires HasWhatIsDemanded(hasCertificate, needCertificate, choice)
    requires AllSucceed(turns)
    ensures var begin := Begin(isDtls, hasCertificate, falseStart, needCertificate, hint, emptyTicket);
            var y := RunAll(begin, turns, choice);
            !y.cp.wait.Error? && !y.sp.wait.Error?
  {
    hide AllSucceed, RunAll, Joined, Good, Cl.Shape, Sv.Shape, Cs.Agrees, Ss.Agrees;
    var y := Begin(isDtls, hasCertificate, falseStart, needCertificate, hint, emptyTicket);
    BeginsWell(isDtls, hasCertificate, falseStart, needCertificate, hint, emptyTicket, choice);
    RunKeepsInv(y, turns, ScriptOf(hasCertificate, hint, emptyTicket, choice), choice);
  }

  predicate AllPrompt(turns: seq<Turn>) {
    forall t :: t in turns ==> Prompt(t.env)
  }

  lemma DallyingPauses(y: System, y': System, client: bool)
    ensures Dallies(y, y', client, true) ==> Distance(y') == Distance(y) && Measure(y') < Measure(y)
  {
  }

  /** Prompt turns bring the end nearer, or change nothing because each one's side is idle. */
  lemma {:induction false} RunProgresses(y: System, turns: seq<Turn>, g: Script, choice: Sv.Choice)
    requires Inv(y, g, choice) && AllPrompt(turns)
    ensures var y' := RunAll(y, turns, choice);
            && Inv(y', g, choice)
            && (Measure(y') < Measure(y) || (y' == y && forall t :: t in turns ==> Idle(y, t.client)))
    decreases |turns|
  {
    hide Inv, Run, Distance, Weight, Idle;
    if turns != [] {
      TurnKeepsInv(y, turns[0], g, choice);
      DallyingPauses(y, Run(y, turns[0], choice), turns[0].client);
      RunProgresses(Run(y, turns[0], choice), turns[1..], g, choice);
    }
  }

  /** A round in which each side has a turn, answered promptly. */
  predicate Fair(round: seq<Turn>) {
    AllPrompt(round) && (exists t :: t in round && t.client) && (exists t :: t in round && !t.client)
  }

  predicate BothDone(y: System) {
    ClientDone(y) && ServerDone(y)
  }

  lemma {:induction false} RoundProgresses(y: System, round: seq<Turn>, g: Script, choice: Sv.Choice)
    requires Inv(y, g, choice) && Fair(round)
    ensures var y' := RunAll(y, round, choice);
            Inv(y', g, choice) && (Measure(y') < Measure(y) || (BothDone(y) && y' == y))
  {
    hide Inv, RunAll, Measure, Idle, AllPrompt, ClientDone, ServerDone;
    RunProgresses(y, round, g, choice);
    NoDeadlock(y, g, choice);
  }

  function RunRounds(y: System, rounds: seq<seq<Turn>>, choice: Sv.Choice): System
    decreases |rounds|
  {
    if rounds == [] then y else RunRounds(RunAll(y, rounds[0], choice), rounds[1..], choice)
  }

  predicate AllFair(rounds: seq<seq<Turn>>) {
    forall r :: r in rounds ==> Fair(r)
  }

  lemma {:induction false} RoundsComplete(y: System, rounds: seq<seq<Turn>>, g: Script, choice: Sv.Choice)
    requires Inv(y, g, choice) && AllFair(rounds) && |rounds| > Measure(y)
    ensures Inv(RunRounds(y, rounds, choice), g, choice) && BothDone(RunRounds(y, rounds, choice))
    decreases |rounds|
  {
    hide Inv, RunAll, Measure, BothDone, Fair;
    MeasureIsNat(y);
    var y' := RunAll(y, rounds[0], choice);
    RoundProgresses(y, rounds[0], g, choice);
    if y' == y && BothDone(y) {
      RoundsStayDone(y, rounds, choice);
    } else {
      RoundsComplete(y', rounds[1..], g, choice);
    }
  }

  lemma {:induction false} DoneStays(y: System, turns: seq<Turn>, choice: Sv.Choice)
    requires BothDone(y)
    ensures RunAll(y, turns, choice) == y
    decreases |turns|
  {
    if turns != [] {
      DoneStays(y, turns[1..], choice);
    }
  }

  lemma {:induction false} RoundsStayDone(y: System, rounds: seq<seq<Turn>>, choice: Sv.Choice)
    requires BothDone(y)
    ensures RunRounds(y, rounds, choice) == y
    decreases |rounds|
  {
    hide Run, BothDone;
    if rounds != [] {
      DoneStays(y, rounds[0], choice);
      RoundsStayDone(y, rounds[1..], choice);
    }
  }

  lemma ClientKnows(c: Cl.Client, g: Script)
    requires Cs.Agrees(c, g) && c.state.Done?
    ensures Cs.Knows(c.p, g.p) && Cs.Place(c, Ok) == END
  {
  }

  lemma ServerKnows(s: Sv.Server, g: Script, choice: Sv.Choice)
    requires Ss.Agrees(s, g, choice) && s.state.Done?
    ensures Ss.Same(s.p, g.p) && Ss.Place(s, Ok) == END
  {
  }

  /** When both are done they have agreed, and nothing is left under way. */
  lemma {:induction false} DoneAgrees(y: System, g: Script, choice: Sv.Choice)
    requires Inv(y, g, choice) && BothDone(y)
    ensures Cs.Knows(y.c.p, y.s.p) && y.c.p.resumed == g.p.resumed && Upstream(y) == [] && Downstream(y) == []
  {
    hide Cl.Shape, Sv.Shape, Good, Cs.Agrees, Ss.Agrees, Cs.Place, Ss.Place, PortOk, Items;
    ClientKnows(y.c, g);
    ServerKnows(y.s, g, choice);
    EmptyStretchAt(g, END);
  }

  function Upstream(y: System): seq<Item> {
    y.sp.inbox + y.cp.out
  }

  function Downstream(y: System): seq<Item> {
    y.cp.inbox + y.sp.out
  }

  // ---------------------------------------------------------------- completion with late callbacks

  /** The same with no callback to be asked again. */
  function Awake(y: System): System {
    y.(cp := if y.cp.wait.Retry? then y.cp.(wait := Ok) else y.cp,
       sp := if y.sp.wait.Retry? then y.sp.(wait := Ok) else y.sp)
  }

  lemma SameDistance(y: System)
    ensures Distance(Awake(y)) == Distance(y)
  {
  }

  lemma DallyingWakes(y: System, y': System, client: bool, prompt: bool)
    requires Dallies(y, y', client, prompt)
    ensures Awake(y') == Awake(y)
    ensures WaitOf(y, client).Retry? ==> WaitOf(y', client).Ok?
    ensures !WaitOf(y, client).Retry? ==> !prompt
  {
  }

  lemma {:induction false} AwakeKeepsInv(y: System, env: Env, g: Script, choice: Sv.Choice)
    requires Inv(y, g, choice) && Succeeds(env)
    ensures Inv(Awake(y), g, choice)
  {
    hide Inv, Distance, Weight, Succeeds;
    var y1 := if y.cp.wait.Retry? then Run(y, Turn(true, 0, env), choice) else y;
    if y.cp.wait.Retry? {
      TurnKeepsInv(y, Turn(true, 0, env), g, choice);
      assert y.sp.inbox + [] == y.sp.inbox;
    }
    if y1.sp.wait.Retry? {
      TurnKeepsInv(y1, Turn(false, 0, env), g, choice);
      assert y1.cp.inbox + [] == y1.cp.inbox;
    }
  }

  /** Two turns in a row of one side's own are answered promptly; `ready` says that the turn it had
      before these was. What the other side does in between does not matter. It takes two because
      settling a late callback, which the code does before a call returns, is a turn of its own. */
  predicate TwicePrompt(turns: seq<Turn>, client: bool, ready: bool)
    decreases |turns|
  {
    && turns != []
    && if turns[0].client != client then TwicePrompt(turns[1..], client, ready)
       else (ready && Prompt(turns[0].env)) || TwicePrompt(turns[1..], client, Prompt(turns[0].env))
  }

  /** A turn brings the end nearer or leaves all but late callbacks as it is. A prompt turn of a side
      that is not idle and has no callback to ask again brings it nearer. */
  lemma {:induction false} TurnWakes(y: System, t: Turn, g: Script, choice: Sv.Choice)
    requires Inv(y, g, choice) && Succeeds(t.env)
    ensures var y' := Run(y, t, choice);
            && Inv(y', g, choice) && Distance(y') <= Distance(y)
            && (Distance(y') < Distance(y) || Awake(y') == Awake(y))
            && WaitOf(y', !t.client) == WaitOf(y, !t.client)
            && (WaitOf(y, t.client).Retry? ==> !WaitOf(y', t.client).Retry?)
    ensures !Idle(Awake(y), t.client) && !WaitOf(y, t.client).Retry? && Prompt(t.env) ==>
              Distance(Run(y, t, choice)) < Distance(y)
  {
    hide Inv, Distance, Measure, Succeeds, Prompt, Dallies;
    var y' := Run(y, t, choice);
    TurnKeepsInv(y, t, g, choice);
    SameDistance(y);
    SameDistance(y');
    if Dallies(y, y', t.client, Prompt(t.env)) {
      DallyingWakes(y, y', t.client, Prompt(t.env));
    }
    OthersWait(y, t, choice);
    IdleAwake(y, t.client);
  }

  lemma OthersWait(y: System, t: Turn, choice: Sv.Choice)
    ensures WaitOf(Run(y, t, choice), !t.client) == WaitOf(y, !t.client)
    ensures WaitOf(y, t.client).Retry? ==> WaitOf(Run(y, t, choice), t.client).Ok?
  {
  }

  lemma IdleAwake(y: System, client: bool)
    ensures Idle(y, client) ==> Idle(Awake(y), client)
  {
  }

  lemma {:induction false} RunWakes(y: System, turns: seq<Turn>, g: Script, choice: Sv.Choice)
    requires Inv(y, g, choice) && AllSucceed(turns)
    ensures var y' := RunAll(y, turns, choice);
            Inv(y', g, choice) && Distance(y') <= Distance(y) && (Distance(y') < Distance(y) || Awake(y') == Awake(y))
    decreases |turns|
  {
    hide Inv, Run, Distance, Succeeds, Awake, Idle, WaitOf;
    if turns != [] {
      TurnWakes(y, turns[0], g, choice);
      RunWakes(Run(y, turns[0], choice), turns[1..], g, choice);
    }
  }

  /** A side that is not idle brings the end nearer if two of its turns in a row are prompt: the
      first may have to ask a callback again, the second then steps. */
  lemma {:induction false} TwicePromptProgresses(y: System, turns: seq<Turn>, client: bool, ready: bool, g: Script,
                                                 choice: Sv.Choice)
    requires Inv(y, g, choice) && AllSucceed(turns) && TwicePrompt(turns, client, ready)
    requires !Idle(Awake(y), client) && (ready ==> !WaitOf(y, client).Retry?)
    ensures Distance(RunAll(y, turns, choice)) < Distance(y)
    decreases |turns|
  {
    hide Inv, Run, Distance, Succeeds, Prompt, Awake, Idle, WaitOf;
    var t := turns[0];
    var y' := Run(y, t, choice);
    TurnWakes(y, t, g, choice);
    if Distance(y') < Distance(y) {
      RunWakes(y', turns[1..], g, choice);
    } else if t.client != client {
      assert !t.client == client;
      TwicePromptProgresses(y', turns[1..], client, ready, g, choice);
    } else {
      TwicePromptProgresses(y', turns[1..], client, Prompt(t.env), g, choice);
    }
  }

  /** Every check passes, callbacks may be late, and each side has two prompt turns in a row. */
  predicate Steady(round: seq<Turn>) {
    AllSucceed(round) && TwicePrompt(round, true, false) && TwicePrompt(round, false, false)
  }

  predicate SideDone(y: System, client: bool) {
    if client then ClientDone(y) else ServerDone(y)
  }

  /** When both machines are done, whatever was to be asked again is settled by one more turn. */
  lemma {:induction false} DoneSettles(y: System, turns: seq<Turn>, client: bool, ready: bool, choice: Sv.Choice)
    requires BothDone(Awake(y)) && (SideDone(y, client) || TwicePrompt(turns, client, ready))
    ensures Awake(RunAll(y, turns, choice)) == Awake(y) && SideDone(RunAll(y, turns, choice), client)
    decreases |turns|
  {
    hide Cl.Step, Sv.Step;
    if turns != [] {
      DoneTurn(y, turns[0], choice);
      DoneSettles(Run(y, turns[0], choice), turns[1..], client, ready, choice);
    }
  }

  lemma {:induction false} DoneTurn(y: System, t: Turn, choice: Sv.Choice)
    requires BothDone(Awake(y))
    ensures var y' := Run(y, t, choice);
            Awake(y') == Awake(y) && SideDone(y', t.client) && (SideDone(y, !t.client) ==> SideDone(y', !t.client))
  {
    hide Cl.Step, Sv.Step;
    assert y.sp.inbox + [] == y.sp.inbox && y.cp.inbox + [] == y.cp.inbox;
  }

  lemma {:induction false} SteadyProgresses(y: System, round: seq<Turn>, g: Script, choice: Sv.Choice)
    requires Inv(y, g, choice) && Steady(round)
    ensures var y' := RunAll(y, round, choice);
            Inv(y', g, choice) && (Distance(y') < Distance(y) || BothDone(y'))
  {
    assert round != [] && round[0] in round;
    var env := round[0].env;
    hide Inv, RunAll, Distance, Idle, ClientDone, ServerDone, TwicePrompt, Awake, Succeeds, WaitOf;
    RunWakes(y, round, g, choice);
    AwakeKeepsInv(y, env, g, choice);
    NoDeadlock(Awake(y), g, choice);
    if !Idle(Awake(y), true) {
      TwicePromptProgresses(y, round, true, false, g, choice);
    } else if !Idle(Awake(y), false) {
      TwicePromptProgresses(y, round, false, false, g, choice);
    } else {
      DoneSettles(y, round, true, false, choice);
      DoneSettles(y, round, false, false, choice);
    }
  }

  predicate AllSteady(rounds: seq<seq<Turn>>) {
    forall r :: r in rounds ==> Steady(r)
  }

  lemma {:induction false} SteadyComplete(y: System, rounds: seq<seq<Turn>>, g: Script, choice: Sv.Choice)
    requires Inv(y, g, choice) && AllSteady(rounds) && |rounds| > Distance(y)
    ensures Inv(RunRounds(y, rounds, choice), g, choice) && BothDone(RunRounds(y, rounds, choice))
    decreases |rounds|
  {
    hide Inv, RunAll, Distance, BothDone, Steady;
    DistanceIsNat(y);
    var y' := RunAll(y, rounds[0], choice);
    SteadyProgresses(y, rounds[0], g, choice);
    if BothDone(y') {
      RoundsStayDone(y', rounds[1..], choice);
    } else {
      SteadyComplete(y', rounds[1..], g, choice);
    }
  }

  lemma {:induction false} DistanceIsNat(y: System)
    ensures 0 <= Distance(y)
  {
  }

  const ROUNDS: nat := 2439

  /** Both sides are done, agree with each other and the server's choice, and nothing is under way. */
  ghost predicate Completed(y: System, choice: Sv.Choice) {
    && BothDone(y) && Cs.Knows(y.c.p, y.s.p) && y.c.p.resumed == choice.params.resumed
    && Upstream(y) == [] && Downstream(y) == []
  }

  /** The handshake completes: whatever the configuration and the server's choice, full or resumed,
      whatever the schedule, and however often callbacks are late. It takes no more than ROUNDS
      rounds in which each side has, at some time, two prompt turns in a row; what happens besides
      is free. */
  lemma {:induction false} HandshakeCompletes(isDtls: bool, hasCertificate: bool, falseStart: bool,
                                              needCertificate: bool,
                                              hint: bool, emptyTicket: bool, choice: Sv.Choice, rounds: seq<seq<Turn>>)
    requires HasWhatIsDemanded(hasCertificate, needCertificate, choice)
    requires AllSteady(rounds) && |rounds| >= ROUNDS
    ensures var y := Begin(isDtls, hasCertificate, falseStart, needCertificate, hint, emptyTicket);
            Completed(RunRounds(y, rounds, choice), choice)
  {
    hide AllSteady, RunRounds, BothDone, Upstream, Downstream, Inv, Cs.Knows;
    var y := Begin(isDtls, hasCertificate, falseStart, needCertificate, hint, emptyTicket);
    var g := ScriptOf(hasCertificate, hint, emptyTicket, choice);
    BeginsWell(isDtls, hasCertificate, falseStart, needCertificate, hint, emptyTicket, choice);
    SteadyComplete(y, rounds, g, choice);
    DoneAgrees(RunRounds(y, rounds, choice), g, choice);
  }

  const LATE_ROUNDS: nat := 2461

  /** If after any run, with callbacks late as often as they like, every turn is prompt, one turn a
      round is enough. */
  lemma {:induction false} CompletesOncePrompt(isDtls: bool, hasCertificate: bool, falseStart: bool,
                                               needCertificate: bool,
                                               hint: bool, emptyTicket: bool, choice: Sv.Choice,
                                               before: seq<Turn>, rounds: seq<seq<Turn>>)
    requires HasWhatIsDemanded(hasCertificate, needCertificate, choice)
    requires AllSucceed(before) && AllFair(rounds) && |rounds| >= if before == [] then ROUNDS else LATE_ROUNDS
    ensures var begin := Begin(isDtls, hasCertificate, falseStart, needCertificate, hint, emptyTicket);
            var y := RunAll(begin, before, choice);
            Completed(RunRounds(y, rounds, choice), choice)
  {
    hide AllFair, RunRounds, BothDone, Upstream, Downstream, Inv, Cs.Knows, AllSucceed;
    var y := Begin(isDtls, hasCertificate, falseStart, needCertificate, hint, emptyTicket);
    var g := ScriptOf(hasCertificate, hint, emptyTicket, choice);
    BeginsWell(isDtls, hasCertificate, falseStart, needCertificate, hint, emptyTicket, choice);
    RunKeepsInv(y, before, g, choice);
    var y' := RunAll(y, before, choice);
    MeasureAtMost(y', g, choice);
    RoundsComplete(y', rounds, g, choice);
    DoneAgrees(RunRounds(y', rounds, choice), g, choice);
  }

  lemma {:induction false} MeasureAtMost(y: System, g: Script, choice: Sv.Choice)
    requires Inv(y, g, choice)
    ensures Measure(y) < LATE_ROUNDS
  {
    hide Slot, Items, PortOk, Cl.Shape, Sv.Shape, Cs.Agrees, Ss.Agrees, Cs.Place, Ss.Place, Good, Cl.At, Sv.At;
    var i, j := CPlace(y), SPlace(y);
    if i >= j {
      ItemsLength(g, j, i);
    } else {
      ItemsLength(g, i, j);
    }
    RanksAreNat(y);
  }

  lemma RanksAreNat(y: System)
    ensures Cl.At(y.c) >= 0 && Sv.At(y.s) >= 0
  {
  }

  // ---------------------------------------------------------------- one prompt turn is not enough

  /** The ClientHello has been read, and the callback for it is to be asked. */
  predicate Asking(y: System) {
    && y.s.state.ReadClientHello? && y.sp.wait.Ok? && Message(y.sp) == Some(ClientHello) && Waits(y.cp)
  }

  const PROMPT: Env := Env(true, true, true, Yes, Yes)
  const LATE: Env := Env(true, true, true, Yes, Later)

  /** A turn of the client's, then one of the server's with the callback late, and one prompt. */
  const LATE_ROUND: seq<Turn> := [Turn(true, 0, PROMPT), Turn(false, 0, LATE), Turn(false, 0, PROMPT)]

  /** A schedule under which each side has a prompt turn in every round, and nothing ever happens:
      the server's prompt turns all go into asking again. */
  lemma {:induction false} OnePromptTurnIsNotEnough(y: System, rounds: seq<seq<Turn>>, choice: Sv.Choice)
    requires Asking(y) && forall k :: 0 <= k < |rounds| ==> rounds[k] == LATE_ROUND
    ensures RunRounds(y, rounds, choice) == y
    decreases |rounds|
  {
    hide Asking, RunAll;
    if rounds != [] {
      LateRoundStalls(y, choice);
      OnePromptTurnIsNotEnough(y, rounds[1..], choice);
    }
  }

  /** Four turns of the client's and three of the server's bring it about. */
  lemma {:induction false} AskingIsReached(isDtls: bool, hasCertificate: bool, falseStart: bool, needCertificate: bool,
                                           hint: bool, emptyTicket: bool, choice: Sv.Choice)
    ensures var y := Begin(isDtls, hasCertificate, falseStart, needCertificate, hint, emptyTicket);
            var client, server := Turn(true, 0, PROMPT), Turn(false, 0, PROMPT);
            Asking(RunAll(y, [client, client, client, client] + [server, server, server], choice))
  {
    hide RunAll;
    var y := Begin(isDtls, hasCertificate, falseStart, needCertificate, hint, emptyTicket);
    var client, server := Turn(true, 0, PROMPT), Turn(false, 0, PROMPT);
    var y1 := ClientSpeaks(y, choice);
    var y2 := ServerListens(y1, choice);
    RunAllConcat(y, [client, client, client, client], [server, server, server], choice);
  }

  lemma {:induction false} RunAllConcat(y: System, a: seq<Turn>, b: seq<Turn>, choice: Sv.Choice)
    ensures RunAll(y, a + b, choice) == RunAll(RunAll(y, a, choice), b, choice)
    decreases |a|
  {
    hide Run;
    if a == [] {
      assert a + b == b;
    } else {
      assert (a + b)[1..] == a[1..] + b;
      RunAllConcat(Run(y, a[0], choice), a[1..], b, choice);
    }
  }

  /** The client sends its ClientHello and waits. */
  lemma {:induction false} ClientSpeaks(y: System, choice: Sv.Choice) returns (y': System)
    requires y.c.state.StartConnect? && y.cp == Port(Ok, [], [], 0) == y.sp && y.s.state.StartAccept?
    ensures y' == RunAll(y, [Turn(true, 0, PROMPT), Turn(true, 0, PROMPT), Turn(true, 0, PROMPT),
              Turn(true, 0, PROMPT)], choice)
    ensures Waits(y'.cp) && y'.s == y.s && y'.sp == Port(Ok, [], [Hs(ClientHello)], 0)
  {
    var t := Turn(true, 0, PROMPT);
    var y1 := Run(y, t, choice);
    assert y1.cp == Port(Flush, [Hs(ClientHello)], [], 0) && y1.c.state.EnterEarlyData?;
    var y2 := Run(y1, t, choice);
    assert y2.cp == Port(Ok, [], [], 0) && y2.sp.inbox == [Hs(ClientHello)] && y2.c == y1.c;
    var y3 := Run(y2, t, choice);
    y' := Run(y3, t, choice);
    RunThree(y, [t, t, t], choice);
    RunAllConcat(y, [t, t, t], [t], choice);
    assert [t, t, t] + [t] == [t, t, t, t];
    assert RunAll(y3, [t], choice) == RunAll(y', [], choice);
  }

  lemma {:induction false} ServerListens(y: System, choice: Sv.Choice) returns (y': System)
    requires y.s.state.StartAccept? && y.sp == Port(Ok, [], [Hs(ClientHello)], 0) && Waits(y.cp)
    ensures y' == RunAll(y, [Turn(false, 0, PROMPT), Turn(false, 0, PROMPT), Turn(false, 0, PROMPT)], choice)
            && Asking(y')
  {
    var t := Turn(false, 0, PROMPT);
    var y1 := Run(y, t, choice);
    var y2 := Run(y1, t, choice);
    assert y2.sp.wait.ReadMessage? && y2.cp == y.cp;
    y' := Run(y2, t, choice);
    assert y.cp.inbox + [] == y.cp.inbox;
    RunThree(y, [t, t, t], choice);
  }

  lemma LateRoundStalls(y: System, choice: Sv.Choice)
    requires Asking(y)
    ensures RunAll(y, LATE_ROUND, choice) == y
    ensures AllSucceed(LATE_ROUND) && Prompt(LATE_ROUND[0].env) && Prompt(LATE_ROUND[2].env)
  {
    var y1 := Run(y, LATE_ROUND[0], choice);
    assert y.sp.inbox + [] == y.sp.inbox && y.cp.inbox + [] == y.cp.inbox;
    assert y1 == y;
    var y2 := Run(y1, LATE_ROUND[1], choice);
    assert y2 == y.(sp := y.sp.(wait := Retry));
    var y3 := Run(y2, LATE_ROUND[2], choice);
    assert y3 == y;
    RunThree(y, LATE_ROUND, choice);
  }

  lemma RunThree(y: System, ts: seq<Turn>, choice: Sv.Choice)
    requires |ts| == 3
    ensures RunAll(y, ts, choice) == Run(Run(Run(y, ts[0], choice), ts[1], choice), ts[2], choice)
  {
    var one, two := ts[1..], ts[2..];
    assert one[1..] == two && two[1..] == [];
    var y1 := Run(y, ts[0], choice);
    var y2 := Run(y1, one[0], choice);
    assert RunAll(y, ts, choice) == RunAll(y1, one, choice) == RunAll(y2, two, choice);
    assert RunAll(y2, two, choice) == RunAll(Run(y2, two[0], choice), [], choice);
  }
}
