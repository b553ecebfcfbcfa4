/** The server's handshake machine, for TLS and DTLS up to version 1.2. */
module HandshakeServer {
  import opened Wrappers
  import opened Handshake

  datatype State =
    | StartAccept | ReadClientHello | SelectCertificate | SelectParameters | SendServerHello
    | SendServerCertificate | SendServerKeyExchange | SendServerHelloDone
    | ReadClientCertificate | VerifyClientCertificate | ReadClientKeyExchange | ReadClientCertificateVerify
    | ReadChangeCipherSpec | ProcessChangeCipherSpec | ReadNextProto | ReadChannelId | ReadClientFinished
    | SendServerFinished | FinishServerHandshake | Done

  /** What the server settles on from the ClientHello and its own configuration. `hashes` says
      that a resumed session has the handshake hashes a Channel ID needs. */
  datatype Choice = Choice(params: Params, certRequest: bool, hashes: bool)

  /** The server's part of SSL_HANDSHAKE: the configuration (whether a client must have a
      certificate, whether there is a PSK identity hint, whether the ticket comes out empty), what
      was settled, and whether the client sent a certificate and so a key. */
  datatype Server = Server(
    state: State, needCertificate: bool, hint: bool, emptyTicket: bool,
    p: Params, certRequest: bool, hashes: bool, peerKey: bool)

  /** The outcome of a step: what is to be waited for, what joins the flight, whether the current
      message was taken, and what happened. */
  datatype Outcome = Outcome(m: Server, wait: Wait, sent: seq<Item>, taken: bool, news: News)

  function Start(needCertificate: bool, hint: bool, emptyTicket: bool): Server {
    Server(StartAccept, needCertificate, hint, emptyTicket,
           Params(false, false, false, false, false, false, false), false, false, false)
  }

  function Fail(c: Server): Outcome {
    Outcome(c, Error, [], false, Quiet)
  }

  function Await(c: Server): Outcome {
    Outcome(c, ReadMessage, [], false, Quiet)
  }

  function AskAgain(c: Server): Outcome {
    Outcome(c, Retry, [], false, Quiet)
  }

  function Go(c: Server, next: State): Outcome {
    Outcome(c.(state := next), Ok, [], false, Quiet)
  }

  function Send(c: Server, next: State, sent: seq<Item>, wait: Wait): Outcome {
    Outcome(c.(state := next), wait, sent, false, Quiet)
  }

  /** Takes the current message, which is noted. */
  function Take(c: Server, next: State, msg: Msg): Outcome {
    Outcome(c.(state := next), Ok, [], true, One(Received(msg)))
  }

  function TakeProof(c: Server, next: State, msg: Msg, proved: Event): Outcome {
    Outcome(c.(state := next), Ok, [], true, Two(Received(msg), proved))
  }

  // ---------------------------------------------------------------- the do_ functions

  /** The ClientHello is looked at here and in the two steps that follow, and taken last. */
  function DoReadClientHello(c: Server, msg: Option<Msg>, env: Env): Outcome {
    match msg
    case None => Await(c)
    case Some(ClientHello) =>
      if env.callback.Later? then AskAgain(c)
      else if !env.checks || env.callback.No? then Fail(c)
      else Go(c, SelectCertificate)
    case _ => Fail(c)
  }

  function DoSelectCertificate(c: Server, msg: Option<Msg>, env: Env): Outcome {
    if msg == None then Await(c)
    else if env.callback.Later? then AskAgain(c)
    else if !env.checks || env.callback.No? then Fail(c)
    else Go(c, SelectParameters)
  }

  /** A client certificate is asked for only in a full handshake with a certificate cipher. */
  function DoSelectParameters(c: Server, msg: Option<Msg>, env: Env, choice: Choice): Outcome {
    match msg
    case None => Await(c)
    case Some(m) =>
      if env.callback.Later? then AskAgain(c)
      else if !env.checks || env.callback.No? then Fail(c)
      else
        var p := choice.params;
        Take(c.(p := p, certRequest := choice.certRequest && p.certAuth && !p.resumed, hashes := choice.hashes),
          SendServerHello, m)
  }

  /** What the ServerHello says: Channel ID only with an ephemeral key exchange and, on
      resumption, recorded hashes; stapling only in a full handshake with a certificate. */
  function HelloParams(c: Server): Params {
    c.p.(channelId := c.p.channelId && c.p.ecdhe && (c.p.resumed ==> c.hashes),
         status := c.p.status && c.p.certAuth && !c.p.resumed)
  }

  function DoSendServerHello(c: Server, env: Env): Outcome {
    if !env.checks then Fail(c)
    else
      var p := HelloParams(c);
      Send(c.(p := p), if p.resumed then SendServerFinished else SendServerCertificate, [Hs(ServerHello(p))], Ok)
  }

  function DoSendServerCertificate(c: Server, env: Env): Outcome {
    if !env.checks then Fail(c)
    else
      Send(c, SendServerKeyExchange,
           if !c.p.certAuth then []
           else [Hs(Certificate(false))] + if c.p.status then [Hs(CertificateStatus)] else [], Ok)
  }

  /** There are parameters to send with an ephemeral cipher, or for a PSK identity hint. */
  predicate SendsKeyExchange(c: Server) {
    c.p.ecdhe || (!c.p.certAuth && c.hint)
  }

  function DoSendServerKeyExchange(c: Server, env: Env): Outcome {
    if !SendsKeyExchange(c) then Go(c, SendServerHelloDone)
    else if c.p.certAuth && env.callback.Later? then AskAgain(c)
    else if !env.checks || (c.p.certAuth && env.callback.No?) then Fail(c)
    else Send(c, SendServerHelloDone, [Hs(ServerKeyExchange)], Ok)
  }

  function DoSendServerHelloDone(c: Server, env: Env): Outcome {
    if !env.checks then Fail(c)
    else
      Send(c, ReadClientCertificate,
           (if c.certRequest then [Hs(CertificateRequest)] else []) + [Hs(ServerHelloDone)], Flush)
  }

  function DoReadClientCertificate(c: Server, msg: Option<Msg>, env: Env): Outcome {
    if !c.certRequest then Go(c, VerifyClientCertificate)
    else
      match msg
      case None => Await(c)
      case Some(Certificate(empty)) =>
        if !env.checks || (empty && c.needCertificate) then Fail(c)
        else Take(c.(peerKey := !empty), VerifyClientCertificate, msg.value)
      case _ => Fail(c)
  }

  function DoVerifyClientCertificate(c: Server, env: Env): Outcome {
    if !c.peerKey then Go(c, ReadClientKeyExchange)
    else
      match env.verify
      case Yes => Go(c, ReadClientKeyExchange).(news := One(CertificateVerified))
      case No => Fail(c)
      case Later => AskAgain(c)
  }

  function DoReadClientKeyExchange(c: Server, msg: Option<Msg>, env: Env): Outcome {
    match msg
    case None => Await(c)
    case Some(ClientKeyExchange) =>
      if env.callback.Later? then AskAgain(c)
      else if !env.checks || env.callback.No? then Fail(c)
      else Take(c, ReadClientCertificateVerify, msg.value)
    case _ => Fail(c)
  }

  /** A client that has sent a certificate must prove that it holds the key. */
  function DoReadClientCertificateVerify(c: Server, msg: Option<Msg>, env: Env): Outcome {
    if !c.peerKey then Go(c, ReadChangeCipherSpec)
    else
      match msg
      case None => Await(c)
      case Some(CertificateVerify) =>
        if !env.checks || !env.signature then Fail(c)
        else TakeProof(c, ReadChangeCipherSpec, msg.value, CertificateVerifyChecked)
      case _ => Fail(c)
  }

  function DoReadNextProto(c: Server, msg: Option<Msg>, env: Env): Outcome {
    if !c.p.nextProto then Go(c, ReadChannelId)
    else
      match msg
      case None => Await(c)
      case Some(NextProto) => if !env.checks then Fail(c) else Take(c, ReadChannelId, msg.value)
      case _ => Fail(c)
  }

  function DoReadChannelId(c: Server, msg: Option<Msg>, env: Env): Outcome {
    if !c.p.channelId then Go(c, ReadClientFinished)
    else
      match msg
      case None => Await(c)
      case Some(ChannelId) => if !env.checks || !env.signature then Fail(c) else Take(c, ReadClientFinished, msg.value)
      case _ => Fail(c)
  }

  function DoReadClientFinished(c: Server, msg: Option<Msg>, env: Env): Outcome {
    match msg
    case None => Await(c)
    case Some(Finished) =>
      if !env.checks || !env.finished then Fail(c)
      else TakeProof(c, if c.p.resumed then FinishServerHandshake else SendServerFinished, msg.value, PeerFinished)
    case _ => Fail(c)
  }

  function LastFlight(c: Server): seq<Item> {
    (if c.p.ticket then [Hs(NewSessionTicket(c.emptyTicket))] else []) + [Ccs, Hs(Finished)]
  }

  function DoSendServerFinished(c: Server, env: Env): Outcome {
    if !env.checks then Fail(c)
    else Send(c, if c.p.resumed then ReadChangeCipherSpec else FinishServerHandshake, LastFlight(c), Flush)
  }

  /** One round of the loop in ssl_server_handshake. */
  function Step(c: Server, msg: Option<Msg>, env: Env, choice: Choice): Outcome {
    match c.state
    case StartAccept => Go(c, ReadClientHello)
    case ReadClientHello => DoReadClientHello(c, msg, env)
    case SelectCertificate => DoSelectCertificate(c, msg, env)
    case SelectParameters => DoSelectParameters(c, msg, env, choice)
    case SendServerHello => DoSendServerHello(c, env)
    case SendServerCertificate => DoSendServerCertificate(c, env)
    case SendServerKeyExchange => DoSendServerKeyExchange(c, env)
    case SendServerHelloDone => DoSendServerHelloDone(c, env)
    case ReadClientCertificate => DoReadClientCertificate(c, msg, env)
    case VerifyClientCertificate => DoVerifyClientCertificate(c, env)
    case ReadClientKeyExchange => DoReadClientKeyExchange(c, msg, env)
    case ReadClientCertificateVerify => DoReadClientCertificateVerify(c, msg, env)
    case ReadChangeCipherSpec => Send(c, ProcessChangeCipherSpec, [], ReadCcs)
    case ProcessChangeCipherSpec =>
      if !env.checks then Fail(c) else Go(c, ReadNextProto).(news := One(ReadCipherOn))
    case ReadNextProto => DoReadNextProto(c, msg, env)
    case ReadChannelId => DoReadChannelId(c, msg, env)
    case ReadClientFinished => DoReadClientFinished(c, msg, env)
    case SendServerFinished => DoSendServerFinished(c, env)
    case FinishServerHandshake => if !env.checks then Fail(c) else Go(c, Done)
    case Done => Outcome(c, Ok, [], false, Quiet)
  }

  // ---------------------------------------------------------------- ranks

  /** How far along a state is; on resumption the server finishes first. */
  function Rank(s: State, resumed: bool): nat {
    match s
    case StartAccept => 0
    case ReadClientHello => 1
    case SelectCertificate => 2
    case SelectParameters => 3
    case SendServerHello => 4
    case SendServerCertificate => 5
    case SendServerKeyExchange => 6
    case SendServerHelloDone => 7
    case ReadClientCertificate => 8
    case VerifyClientCertificate => 9
    case ReadClientKeyExchange => 10
    case ReadClientCertificateVerify => 11
    case ReadChangeCipherSpec => 12
    case ProcessChangeCipherSpec => 13
    case ReadNextProto => 14
    case ReadChannelId => 15
    case ReadClientFinished => 16
    case SendServerFinished => if resumed then 5 else 17
    case FinishServerHandshake => 18
    case Done => 19
  }

  function At(c: Server): nat {
    Rank(c.state, c.p.resumed)
  }

  /** Which states belong to a resumption, and when a client certificate is held. */
  predicate Shape(c: Server) {
    && (At(c) <= 3 ==> !c.p.resumed)
    && (c.p.resumed ==> c.state.SendServerHello? || c.state.SendServerFinished? || At(c) >= 12)
    && (At(c) <= 8 || c.p.resumed ==> !c.peerKey)
    && (c.certRequest && c.needCertificate && At(c) >= 9 ==> c.peerKey)
    && (c.certRequest ==> !c.p.resumed)
  }

  /** What is true of a machine that has come past certain states. */
  predicate Inv(c: Server, f: Facts) {
    && Shape(c)
    && (At(c) >= 14 ==> f.cipherOn)
    && (At(c) >= 17 ==> f.finished)
    && (c.peerKey && At(c) >= 10 ==> f.verified)
    && (c.peerKey && At(c) >= 12 ==> f.checked)
  }

  predicate To(c: Server, c': Server, next: State) {
    c'.state == next && c' == c.(state := c'.state)
  }

  /** The moves there are, and what each establishes. */
  predicate Proper(c: Server, f: Facts, c': Server, f': Facts) {
    match c.state
    case StartAccept => To(c, c', ReadClientHello) && f' == f
    case ReadClientHello => To(c, c', SelectCertificate) && f' == f
    case SelectCertificate => To(c, c', SelectParameters) && f' == f
    case SelectParameters =>
      && c' == c.(state := SendServerHello, p := c'.p, certRequest := c'.certRequest, hashes := c'.hashes)
      && (c'.certRequest ==> !c'.p.resumed) && (f' == f || f' == f.(keyExchange := true))
    case SendServerHello =>
      c' == c.(state := if c.p.resumed then SendServerFinished else SendServerCertificate, p := HelloParams(c))
        && f' == f
    case SendServerCertificate => To(c, c', SendServerKeyExchange) && f' == f
    case SendServerKeyExchange => To(c, c', SendServerHelloDone) && f' == f
    case SendServerHelloDone => To(c, c', ReadClientCertificate) && f' == f
    case ReadClientCertificate =>
      if c.certRequest then
        c' == c.(state := VerifyClientCertificate, peerKey := c'.peerKey) && (c.needCertificate ==> c'.peerKey)
          && f' == f
      else To(c, c', VerifyClientCertificate) && f' == f
    case VerifyClientCertificate => To(c, c', ReadClientKeyExchange) && f' == f.(verified := f.verified || c.peerKey)
    case ReadClientKeyExchange => To(c, c', ReadClientCertificateVerify) && f' == f
    case ReadClientCertificateVerify => To(c, c', ReadChangeCipherSpec) && f' == f.(checked := f.checked || c.peerKey)
    case ReadChangeCipherSpec => To(c, c', ProcessChangeCipherSpec) && f' == f
    case ProcessChangeCipherSpec => To(c, c', ReadNextProto) && f' == f.(cipherOn := true)
    case ReadNextProto => To(c, c', ReadChannelId) && f' == f
    case ReadChannelId => To(c, c', ReadClientFinished) && f' == f
    case ReadClientFinished =>
      To(c, c', if c.p.resumed then FinishServerHandshake else SendServerFinished)
      && f' == f.(finished := f.finished || f.cipherOn)
    case SendServerFinished => To(c, c', if c.p.resumed then ReadChangeCipherSpec else FinishServerHandshake) && f' == f
    case FinishServerHandshake => To(c, c', Done) && f' == f
    case Done => false
  }

  lemma HelloMoves(c: Server, f: Facts, c': Server, f': Facts)
    requires Inv(c, f) && Proper(c, f, c', f') && At(c) <= 4
    ensures At(c') > At(c) && Inv(c', f')
  {
  }

  lemma ResumedMoves(c: Server, f: Facts, c': Server, f': Facts)
    requires Inv(c, f) && Proper(c, f, c', f') && At(c) > 4 && c.p.resumed
    ensures At(c') > At(c) && Inv(c', f')
  {
  }

  lemma CertificateMoves(c: Server, f: Facts, c': Server, f': Facts)
    requires Inv(c, f) && Proper(c, f, c', f') && 4 < At(c) <= 9 && !c.p.resumed
    ensures At(c') > At(c) && Inv(c', f')
  {
  }

  lemma KeyExchangeMoves(c: Server, f: Facts, c': Server, f': Facts)
    requires Inv(c, f) && Proper(c, f, c', f') && 9 < At(c) <= 13 && !c.p.resumed
    ensures At(c') > At(c) && Inv(c', f')
  {
  }

  lemma FinishMoves(c: Server, f: Facts, c': Server, f': Facts)
    requires Inv(c, f) && Proper(c, f, c', f') && At(c) > 13 && !c.p.resumed
    ensures At(c') > At(c) && Inv(c', f')
  {
  }

  /** A proper move climbs, keeps what was established and establishes its own part. */
  lemma {:induction false} MoveGood(c: Server, f: Facts, c': Server, f': Facts)
    requires Inv(c, f) && Proper(c, f, c', f')
    ensures At(c') > At(c) && Inv(c', f')
  {
    hide Inv, Proper, Rank;
    if At(c) <= 4 {
      HelloMoves(c, f, c', f');
    } else if c.p.resumed {
      ResumedMoves(c, f, c', f');
    } else if At(c) <= 9 {
      CertificateMoves(c, f, c', f');
    } else if At(c) <= 13 {
      KeyExchangeMoves(c, f, c', f');
    } else {
      FinishMoves(c, f, c', f');
    }
  }

  /** A step either stays, to wait or to fail, or makes a proper move. */
  predicate StaysOrMoves(c: Server, f: Facts, o: Outcome) {
    || (o.m == c && o.news == Quiet && o.sent == [] && !o.taken && !o.wait.Flush? && !(o.wait.Ok? && !c.state.Done?))
    || (Proper(c, f, o.m, NoteAll(f, o.news)) && !o.wait.Error?)
  }

  lemma ReadClientHelloMoves(c: Server, f: Facts, msg: Option<Msg>, env: Env)
    requires c.state.ReadClientHello?
    ensures StaysOrMoves(c, f, DoReadClientHello(c, msg, env))
  {
  }

  lemma SelectCertificateMoves(c: Server, f: Facts, msg: Option<Msg>, env: Env)
    requires c.state.SelectCertificate?
    ensures StaysOrMoves(c, f, DoSelectCertificate(c, msg, env))
  {
  }

  lemma SelectParametersMoves(c: Server, f: Facts, msg: Option<Msg>, env: Env, choice: Choice)
    requires c.state.SelectParameters?
    ensures StaysOrMoves(c, f, DoSelectParameters(c, msg, env, choice))
  {
  }

  lemma SendServerHelloMoves(c: Server, f: Facts, env: Env)
    requires c.state.SendServerHello?
    ensures StaysOrMoves(c, f, DoSendServerHello(c, env))
  {
  }

  lemma SendServerCertificateMoves(c: Server, f: Facts, env: Env)
    requires c.state.SendServerCertificate?
    ensures StaysOrMoves(c, f, DoSendServerCertificate(c, env))
  {
  }

  lemma SendServerKeyExchangeMoves(c: Server, f: Facts, env: Env)
    requires c.state.SendServerKeyExchange?
    ensures StaysOrMoves(c, f, DoSendServerKeyExchange(c, env))
  {
  }

  lemma SendServerHelloDoneMoves(c: Server, f: Facts, env: Env)
    requires c.state.SendServerHelloDone?
    ensures StaysOrMoves(c, f, DoSendServerHelloDone(c, env))
  {
  }

  lemma ReadClientCertificateMoves(c: Server, f: Facts, msg: Option<Msg>, env: Env)
    requires c.state.ReadClientCertificate?
    ensures StaysOrMoves(c, f, DoReadClientCertificate(c, msg, env))
  {
  }

  lemma VerifyClientCertificateMoves(c: Server, f: Facts, env: Env)
    requires c.state.VerifyClientCertificate?
    ensures StaysOrMoves(c, f, DoVerifyClientCertificate(c, env))
  {
  }

  lemma ReadClientKeyExchangeMoves(c: Server, f: Facts, msg: Option<Msg>, env: Env)
    requires c.state.ReadClientKeyExchange?
    ensures StaysOrMoves(c, f, DoReadClientKeyExchange(c, msg, env))
  {
  }

  lemma ReadClientCertificateVerifyMoves(c: Server, f: Facts, msg: Option<Msg>, env: Env)
    requires c.state.ReadClientCertificateVerify?
    ensures StaysOrMoves(c, f, DoReadClientCertificateVerify(c, msg, env))
  {
  }

  lemma ReadNextProtoMoves(c: Server, f: Facts, msg: Option<Msg>, env: Env)
    requires c.state.ReadNextProto?
    ensures StaysOrMoves(c, f, DoReadNextProto(c, msg, env))
  {
    var o := DoReadNextProto(c, msg, env);
    if o.m != c {
      assert o.m == c.(state := ReadChannelId);
    }
  }

  lemma ReadChannelIdMoves(c: Server, f: Facts, msg: Option<Msg>, env: Env)
    requires c.state.ReadChannelId?
    ensures StaysOrMoves(c, f, DoReadChannelId(c, msg, env))
  {
  }

  lemma ReadClientFinishedMoves(c: Server, f: Facts, msg: Option<Msg>, env: Env)
    requires c.state.ReadClientFinished?
    ensures StaysOrMoves(c, f, DoReadClientFinished(c, msg, env))
  {
  }

  lemma SendServerFinishedMoves(c: Server, f: Facts, env: Env)
    requires c.state.SendServerFinished?
    ensures StaysOrMoves(c, f, DoSendServerFinished(c, env))
  {
  }

  lemma {:induction false} StepMoves(c: Server, f: Facts, msg: Option<Msg>, env: Env, choice: Choice)
    ensures StaysOrMoves(c, f, Step(c, msg, env, choice))
  {
    hide StaysOrMoves, DoReadClientHello, DoSelectCertificate, DoSelectParameters, DoSendServerHello,
      DoSendServerCertificate, DoSendServerKeyExchange, DoSendServerHelloDone, DoReadClientCertificate,
      DoVerifyClientCertificate, DoReadClientKeyExchange, DoReadClientCertificateVerify, DoReadNextProto,
      DoReadChannelId, DoReadClientFinished, DoSendServerFinished;
    match c.state
    case ReadClientHello => ReadClientHelloMoves(c, f, msg, env);
    case SelectCertificate => SelectCertificateMoves(c, f, msg, env);
    case SelectParameters => SelectParametersMoves(c, f, msg, env, choice);
    case SendServerHello => SendServerHelloMoves(c, f, env);
    case SendServerCertificate => SendServerCertificateMoves(c, f, env);
    case SendServerKeyExchange => SendServerKeyExchangeMoves(c, f, env);
    case SendServerHelloDone => SendServerHelloDoneMoves(c, f, env);
    case ReadClientCertificate => ReadClientCertificateMoves(c, f, msg, env);
    case VerifyClientCertificate => VerifyClientCertificateMoves(c, f, env);
    case ReadClientKeyExchange => ReadClientKeyExchangeMoves(c, f, msg, env);
    case ReadClientCertificateVerify => ReadClientCertificateVerifyMoves(c, f, msg, env);
    case ReadNextProto => ReadNextProtoMoves(c, f, msg, env);
    case ReadChannelId => ReadChannelIdMoves(c, f, msg, env);
    case ReadClientFinished => ReadClientFinishedMoves(c, f, msg, env);
    case SendServerFinished => SendServerFinishedMoves(c, f, env);
    case _ => PlainMoves(c, f, msg, env, choice);
  }

  lemma PlainMoves(c: Server, f: Facts, msg: Option<Msg>, env: Env, choice: Choice)
    requires || c.state.StartAccept? || c.state.ReadChangeCipherSpec? || c.state.ProcessChangeCipherSpec?
             || c.state.FinishServerHandshake? || c.state.Done?
    ensures StaysOrMoves(c, f, Step(c, msg, env, choice))
  {
  }

  /** Every step keeps what was established and never goes back; it climbs unless it asks to wait
      or fails, so the loop in ssl_server_handshake terminates and no state is entered twice. */
  lemma {:induction false} StepKeepsInv(c: Server, f: Facts, msg: Option<Msg>, env: Env, choice: Choice)
    requires Inv(c, f)
    ensures var o := Step(c, msg, env, choice);
            && Inv(o.m, NoteAll(f, o.news))
            && (o.m == c || At(o.m) > At(c))
            && (o.wait.Error? ==> o.m == c)
            && (o.wait.Flush? || (o.wait.Ok? && c.state != Done) ==> At(o.m) > At(c))
  {
    hide Inv, Proper, Step, At;
    StepMoves(c, f, msg, env, choice);
    var o := Step(c, msg, env, choice);
    if o.m != c || o.news != Quiet || o.wait.Flush? || (o.wait.Ok? && c.state != Done) {
      MoveGood(c, f, o.m, NoteAll(f, o.news));
    }
  }

  lemma {:induction false} StepClimbs(c: Server, msg: Option<Msg>, env: Env, choice: Choice)
    requires Shape(c)
    ensures var o := Step(c, msg, env, choice); Shape(o.m) && (o.m == c || At(o.m) > At(c))
  {
    hide Step, Proper, At, Shape;
    StepKeepsInv(c, Facts(true, true, true, true, true, true), msg, env, choice);
  }

  /** A run: at each step some message may be there, and the environment answers somehow. */
  function RunFrom(c: Server, inputs: seq<(Option<Msg>, Env, Choice)>): (Server, seq<Event>) {
    if inputs == [] then (c, [])
    else
      var n := |inputs| - 1;
      var (c', log) := RunFrom(c, inputs[..n]);
      var o := Step(c', inputs[n].0, inputs[n].1, inputs[n].2);
      (o.m, log + o.news.Listed())
  }

  lemma RunOneMore(c: Server, inputs: seq<(Option<Msg>, Env, Choice)>, input: (Option<Msg>, Env, Choice))
    ensures var (c', log) := RunFrom(c, inputs);
            var o := Step(c', input.0, input.1, input.2);
            RunFrom(c, inputs + [input]) == (o.m, log + o.news.Listed())
  {
    assert (inputs + [input])[..|inputs|] == inputs;
  }

  lemma InvAtStart(needCertificate: bool, hint: bool, emptyTicket: bool)
    ensures Inv(Start(needCertificate, hint, emptyTicket), FactsOf([]))
  {
  }

  lemma {:induction false} RunKeepsInv(needCertificate: bool, hint: bool, emptyTicket: bool,
                                       inputs: seq<(Option<Msg>, Env, Choice)>)
    ensures var (c, log) := RunFrom(Start(needCertificate, hint, emptyTicket), inputs);
            Inv(c, FactsOf(log))
  {
    hide Step, Inv;
    InvAtStart(needCertificate, hint, emptyTicket);
    if inputs != [] {
      var n := |inputs| - 1;
      RunKeepsInv(needCertificate, hint, emptyTicket, inputs[..n]);
      var (c, log) := RunFrom(Start(needCertificate, hint, emptyTicket), inputs[..n]);
      StepKeepsInv(c, FactsOf(log), inputs[n].0, inputs[n].1, inputs[n].2);
      FactsGrow(log, Step(c, inputs[n].0, inputs[n].1, inputs[n].2).news);
    }
  }

  /** What a server may rely on when it is done: after the read cipher was switched on the
      client's Finished matched. If the client presented a certificate, that was verified and the
      client proved that it holds the key; if one was asked for and required, it did present one. */
  ghost predicate Safe(c: Server, log: seq<Event>) {
    && FinishedUnderNewCipher(log)
    && (c.peerKey ==> CertificateVerified in log && CertificateVerifyChecked in log)
    && (c.certRequest && c.needCertificate ==> c.peerKey)
  }

  lemma {:induction false} InvIsSafe(c: Server, log: seq<Event>)
    requires Inv(c, FactsOf(log)) && c.state == Done
    ensures Safe(c, log)
  {
    FactsMean(log);
  }

  /** Safety: whatever is received and however the environment answers, a server that is done is safe. */
  lemma {:induction false} DoneIsSafe(needCertificate: bool, hint: bool, emptyTicket: bool,
                                      inputs: seq<(Option<Msg>, Env, Choice)>)
    ensures var (c, log) := RunFrom(Start(needCertificate, hint, emptyTicket), inputs);
            c.state == Done ==> Safe(c, log)
  {
    hide RunFrom, Inv, Safe;
    RunKeepsInv(needCertificate, hint, emptyTicket, inputs);
    var (c, log) := RunFrom(Start(needCertificate, hint, emptyTicket), inputs);
    if c.state == Done {
      InvIsSafe(c, log);
    }
  }
}
