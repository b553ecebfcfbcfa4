/** The client's handshake machine, for TLS and DTLS up to version 1.2. */
module HandshakeClient {
  import opened Wrappers
  import opened Handshake

  datatype State =
    | StartConnect | EnterEarlyData | ReadHelloVerifyRequest | ReadServerHello
    | ReadServerCertificate | ReadCertificateStatus | VerifyServerCertificate
    | ReadServerKeyExchange | ReadCertificateRequest | ReadServerHelloDone
    | SendClientCertificate | SendClientKeyExchange | SendClientCertificateVerify
    | SendClientFinished | FinishFlight | ReadSessionTicket | ProcessChangeCipherSpec
    | ReadServerFinished | FinishClientHandshake | Done

  /** The client's part of SSL_HANDSHAKE: the configuration (isDtls, hasCertificate, falseStart),
      what the ServerHello set, and the flags that follow. */
  datatype Client = Client(
    state: State, isDtls: bool, hasCertificate: bool, falseStart: bool,
    p: Params, certRequest: bool)

  /** The outcome of a step: what is to be waited for, what joins the flight, whether the current
      message was taken, and what happened. */
  datatype Outcome = Outcome(m: Client, wait: Wait, sent: seq<Item>, taken: bool, news: News)

  function Start(isDtls: bool, hasCertificate: bool, falseStart: bool): Client {
    Client(StartConnect, isDtls, hasCertificate, falseStart,
           Params(false, false, false, false, false, false, false), false)
  }

  function Fail(c: Client): Outcome {
    Outcome(c, Error, [], false, Quiet)
  }

  function Await(c: Client): Outcome {
    Outcome(c, ReadMessage, [], false, Quiet)
  }

  function Go(c: Client, next: State): Outcome {
    Outcome(c.(state := next), Ok, [], false, Quiet)
  }

  function Send(c: Client, next: State, sent: seq<Item>, wait: Wait): Outcome {
    Outcome(c.(state := next), wait, sent, false, Quiet)
  }

  /** Takes the current message, which is noted. */
  function Take(c: Client, next: State, msg: Msg, wait: Wait): Outcome {
    Outcome(c.(state := next), wait, [], true, One(Received(msg)))
  }

  /** Takes a message that proved something. */
  function TakeProof(c: Client, next: State, msg: Msg, proved: Event): Outcome {
    Outcome(c.(state := next), Ok, [], true, Two(Received(msg), proved))
  }

  // ---------------------------------------------------------------- the do_ functions

  function DoReadServerHello(c: Client, msg: Option<Msg>, env: Env): Outcome {
    match msg
    case None => Await(c)
    case Some(ServerHello(p)) =>
      if !env.checks then Fail(c)
      else Take(c.(p := p), if p.resumed then ReadSessionTicket else ReadServerCertificate, msg.value, Ok)
    case _ => Fail(c)
  }

  function DoReadServerCertificate(c: Client, msg: Option<Msg>, env: Env): Outcome {
    if !c.p.certAuth then Go(c, ReadCertificateStatus)
    else
      match msg
      case None => Await(c)
      case Some(Certificate(empty)) =>
        if !env.checks || empty then Fail(c) else Take(c, ReadCertificateStatus, msg.value, Ok)
      case _ => Fail(c)
  }

  function DoReadCertificateStatus(c: Client, msg: Option<Msg>, env: Env): Outcome {
    if !c.p.status then Go(c, VerifyServerCertificate)
    else
      match msg
      case None => Await(c)
      case Some(CertificateStatus) => if !env.checks then Fail(c) else Take(c, VerifyServerCertificate, msg.value, Ok)
      case _ => Go(c, VerifyServerCertificate)
  }

  function DoVerifyServerCertificate(c: Client, env: Env): Outcome {
    if !c.p.certAuth then Go(c, ReadServerKeyExchange)
    else
      match env.verify
      case Yes => Go(c, ReadServerKeyExchange).(news := One(CertificateVerified))
      case No => Fail(c)
      case Later => Outcome(c, Retry, [], false, Quiet)
  }

  function DoReadServerKeyExchange(c: Client, msg: Option<Msg>, env: Env): Outcome {
    match msg
    case None => Await(c)
    case Some(ServerKeyExchange) =>
      if !env.checks || (c.p.certAuth && !env.signature) then Fail(c)
      else if c.p.certAuth then TakeProof(c, ReadCertificateRequest, msg.value, KeyExchangeSigned)
      else Take(c, ReadCertificateRequest, msg.value, Ok)
    case Some(_) => if c.p.ecdhe then Fail(c) else Go(c, ReadCertificateRequest)
  }

  function DoReadCertificateRequest(c: Client, msg: Option<Msg>, env: Env): Outcome {
    if !c.p.certAuth then Go(c, ReadServerHelloDone)
    else
      match msg
      case None => Await(c)
      case Some(ServerHelloDone) => Go(c, ReadServerHelloDone)
      case Some(CertificateRequest) =>
        if !env.checks then Fail(c) else Take(c.(certRequest := true), ReadServerHelloDone, msg.value, Ok)
      case _ => Fail(c)
  }

  function DoReadServerHelloDone(c: Client, msg: Option<Msg>, env: Env): Outcome {
    match msg
    case None => Await(c)
    case Some(ServerHelloDone) => if !env.checks then Fail(c) else Take(c, SendClientCertificate, msg.value, Ok)
    case _ => Fail(c)
  }

  function DoSendClientCertificate(c: Client, env: Env): Outcome {
    if !c.certRequest then Go(c, SendClientKeyExchange)
    else if env.callback.No? then Fail(c)
    else if env.callback.Later? then Outcome(c, Retry, [], false, Quiet)
    else if !env.checks then Fail(c)
    else Send(c, SendClientKeyExchange, [Hs(Certificate(!c.hasCertificate))], Ok)
  }

  function DoSendClientCertificateVerify(c: Client, env: Env): Outcome {
    if !c.certRequest || !c.hasCertificate then Go(c, SendClientFinished)
    else if !env.checks || env.callback.No? then Fail(c)
    else if env.callback.Later? then Outcome(c, Retry, [], false, Quiet)
    else Send(c, SendClientFinished, [Hs(CertificateVerify)], Ok)
  }

  function LastFlight(c: Client): seq<Item> {
    [Ccs] + (if c.p.nextProto then [Hs(NextProto)] else []) +
    (if c.p.channelId then [Hs(ChannelId)] else []) + [Hs(Finished)]
  }

  function DoSendClientFinished(c: Client, env: Env): Outcome {
    if c.p.channelId && env.callback.No? then Fail(c)
    else if c.p.channelId && env.callback.Later? then Outcome(c, Retry, [], false, Quiet)
    else if !env.checks then Fail(c)
    else Send(c, FinishFlight, LastFlight(c), Flush)
  }

  /** False Start hands the connection to the application before the server's Finished. */
  function DoFinishFlight(c: Client, env: Env): Outcome {
    if c.p.resumed then Go(c, FinishClientHandshake)
    else if !env.checks then Fail(c)
    else Send(c, ReadSessionTicket, [], if c.falseStart && !c.isDtls && c.p.ecdhe then EarlyReturn else Ok)
  }

  function DoReadSessionTicket(c: Client, msg: Option<Msg>, env: Env): Outcome {
    if !c.p.ticket then Send(c, ProcessChangeCipherSpec, [], ReadCcs)
    else
      match msg
      case None => Await(c)
      case Some(NewSessionTicket(empty)) =>
        if !env.checks then Fail(c)
        else
          var c' := if empty then c.(p := c.p.(ticket := false)) else c;
          Take(c', ProcessChangeCipherSpec, msg.value, ReadCcs)
      case _ => Fail(c)
  }

  function DoReadServerFinished(c: Client, msg: Option<Msg>, env: Env): Outcome {
    match msg
    case None => Await(c)
    case Some(Finished) =>
      if !env.checks || !env.finished then Fail(c)
      else TakeProof(c, if c.p.resumed then SendClientFinished else FinishClientHandshake, msg.value, PeerFinished)
    case _ => Fail(c)
  }

  /** One round of the loop in ssl_client_handshake. `msg` is the handshake message that is
      complete and next, if there is one. */
  function Step(c: Client, msg: Option<Msg>, env: Env): Outcome {
    match c.state
    case StartConnect => if !env.checks then Fail(c) else Send(c, EnterEarlyData, [Hs(ClientHello)], Flush)
    case EnterEarlyData => Go(c, if c.isDtls then ReadHelloVerifyRequest else ReadServerHello)
    case ReadHelloVerifyRequest =>
      (match msg
       case None => Await(c)
       case Some(HelloVerifyRequest) =>
         if !env.checks then Fail(c)
         else Outcome(c.(state := ReadServerHello), Flush, [Hs(ClientHello)], true, One(Received(HelloVerifyRequest)))
       case _ => Go(c, ReadServerHello))
    case ReadServerHello => DoReadServerHello(c, msg, env)
    case ReadServerCertificate => DoReadServerCertificate(c, msg, env)
    case ReadCertificateStatus => DoReadCertificateStatus(c, msg, env)
    case VerifyServerCertificate => DoVerifyServerCertificate(c, env)
    case ReadServerKeyExchange => DoReadServerKeyExchange(c, msg, env)
    case ReadCertificateRequest => DoReadCertificateRequest(c, msg, env)
    case ReadServerHelloDone => DoReadServerHelloDone(c, msg, env)
    case SendClientCertificate => DoSendClientCertificate(c, env)
    case SendClientKeyExchange =>
      if !env.checks then Fail(c) else Send(c, SendClientCertificateVerify, [Hs(ClientKeyExchange)], Ok)
    case SendClientCertificateVerify => DoSendClientCertificateVerify(c, env)
    case SendClientFinished => DoSendClientFinished(c, env)
    case FinishFlight => DoFinishFlight(c, env)
    case ReadSessionTicket => DoReadSessionTicket(c, msg, env)
    case ProcessChangeCipherSpec =>
      if !env.checks then Fail(c) else Go(c, ReadServerFinished).(news := One(ReadCipherOn))
    case ReadServerFinished => DoReadServerFinished(c, msg, env)
    case FinishClientHandshake => if !env.checks then Fail(c) else Go(c, Done)
    case Done => Outcome(c, Ok, [], false, Quiet)
  }

  // ---------------------------------------------------------------- ranks

  /** How far along a state is; on resumption the server finishes first. */
  function Rank(s: State, resumed: bool): nat {
    match s
    case StartConnect => 0
    case EnterEarlyData => 1
    case ReadHelloVerifyRequest => 2
    case ReadServerHello => 3
    case ReadServerCertificate => 4
    case ReadCertificateStatus => 5
    case VerifyServerCertificate => 6
    case ReadServerKeyExchange => 7
    case ReadCertificateRequest => 8
    case ReadServerHelloDone => 9
    case SendClientCertificate => 10
    case SendClientKeyExchange => 11
    case SendClientCertificateVerify => 12
    case SendClientFinished => if resumed then 16 else 13
    case FinishFlight => if resumed then 17 else 14
    case ReadSessionTicket => if resumed then 4 else 15
    case ProcessChangeCipherSpec => if resumed then 5 else 16
    case ReadServerFinished => if resumed then 6 else 17
    case FinishClientHandshake => 18
    case Done => 19
  }

  function At(c: Client): nat {
    Rank(c.state, c.p.resumed)
  }

  /** Which states belong to a resumption. */
  predicate Shape(c: Client) {
    && (At(c) <= 3 ==> !c.p.resumed)
    && (c.p.resumed ==>
          || c.state.ReadSessionTicket? || c.state.ProcessChangeCipherSpec? || c.state.ReadServerFinished?
          || c.state.SendClientFinished? || c.state.FinishFlight? || c.state.FinishClientHandshake? || c.state.Done?)
  }

  /** What is true of a machine that has come past certain states. */
  predicate Inv(c: Client, f: Facts) {
    && Shape(c)
    && (At(c) > Rank(ProcessChangeCipherSpec, c.p.resumed) ==> f.cipherOn)
    && (At(c) > Rank(ReadServerFinished, c.p.resumed) ==> f.finished)
    && (!c.p.resumed && c.p.certAuth && At(c) > 6 ==> f.verified)
    && (!c.p.resumed && c.p.ecdhe && At(c) > 7 ==> f.keyExchange)
    && (f.keyExchange ==> !c.p.resumed && At(c) > 7)
    && (f.keyExchange && c.p.certAuth ==> f.signed)
  }

  predicate To(c: Client, c': Client, next: State) {
    c'.state == next && c' == c.(state := c'.state)
  }

  predicate SameCipher(c: Client, c': Client) {
    c'.p.resumed == c.p.resumed && c'.p.certAuth == c.p.certAuth && c'.p.ecdhe == c.p.ecdhe
  }

  /** The moves there are, and what each establishes. */
  predicate Proper(c: Client, f: Facts, c': Client, f': Facts) {
    match c.state
    case StartConnect => To(c, c', EnterEarlyData) && f' == f
    case EnterEarlyData => (To(c, c', ReadHelloVerifyRequest) || To(c, c', ReadServerHello)) && f' == f
    case ReadHelloVerifyRequest => To(c, c', ReadServerHello) && f' == f
    case ReadServerHello => c'.state == (if c'.p.resumed then ReadSessionTicket else ReadServerCertificate) && f' == f
    case ReadServerCertificate => To(c, c', ReadCertificateStatus) && f' == f
    case ReadCertificateStatus => To(c, c', VerifyServerCertificate) && f' == f
    case VerifyServerCertificate =>
      To(c, c', ReadServerKeyExchange) && f' == f.(verified := f.verified || c.p.certAuth)
    case ReadServerKeyExchange =>
      To(c, c', ReadCertificateRequest) &&
      ((f' == f && !c.p.ecdhe) || f' == f.(keyExchange := true, signed := f.signed || c.p.certAuth))
    case ReadCertificateRequest => c'.state == ReadServerHelloDone && c'.p == c.p && f' == f
    case ReadServerHelloDone => To(c, c', SendClientCertificate) && f' == f
    case SendClientCertificate => To(c, c', SendClientKeyExchange) && f' == f
    case SendClientKeyExchange => To(c, c', SendClientCertificateVerify) && f' == f
    case SendClientCertificateVerify => To(c, c', SendClientFinished) && f' == f
    case SendClientFinished => To(c, c', FinishFlight) && f' == f
    case FinishFlight => To(c, c', if c.p.resumed then FinishClientHandshake else ReadSessionTicket) && f' == f
    case ReadSessionTicket => c'.state == ProcessChangeCipherSpec && SameCipher(c, c') && f' == f
    case ProcessChangeCipherSpec => To(c, c', ReadServerFinished) && f' == f.(cipherOn := true)
    case ReadServerFinished =>
      To(c, c', if c.p.resumed then SendClientFinished else FinishClientHandshake)
      && f' == f.(finished := f.finished || f.cipherOn)
    case FinishClientHandshake => To(c, c', Done) && f' == f
    case Done => false
  }

  lemma HelloMoves(c: Client, f: Facts, c': Client, f': Facts)
    requires Inv(c, f) && Proper(c, f, c', f') && At(c) < 4
    ensures At(c') > At(c) && Inv(c', f')
  {
  }

  lemma ResumedMoves(c: Client, f: Facts, c': Client, f': Facts)
    requires Inv(c, f) && Proper(c, f, c', f') && At(c) >= 4 && c.p.resumed
    ensures At(c') > At(c) && Inv(c', f')
  {
  }

  lemma CertificateMoves(c: Client, f: Facts, c': Client, f': Facts)
    requires Inv(c, f) && Proper(c, f, c', f') && 4 <= At(c) <= 7 && !c.p.resumed
    ensures At(c') > At(c) && Inv(c', f')
  {
  }

  lemma ReplyMoves(c: Client, f: Facts, c': Client, f': Facts)
    requires Inv(c, f) && Proper(c, f, c', f') && 7 < At(c) <= 12 && !c.p.resumed
    ensures At(c') > At(c) && Inv(c', f')
  {
  }

  lemma FinishMoves(c: Client, f: Facts, c': Client, f': Facts)
    requires Inv(c, f) && Proper(c, f, c', f') && At(c) > 12 && !c.p.resumed
    ensures At(c') > At(c) && Inv(c', f')
  {
  }

  /** A proper move climbs, keeps what was established and establishes its own part. */
  lemma {:induction false} MoveGood(c: Client, f: Facts, c': Client, f': Facts)
    requires Inv(c, f) && Proper(c, f, c', f')
    ensures At(c') > At(c) && Inv(c', f')
  {
    hide Inv, Proper, Rank;
    if At(c) < 4 {
      HelloMoves(c, f, c', f');
    } else if c.p.resumed {
      ResumedMoves(c, f, c', f');
    } else if At(c) <= 7 {
      CertificateMoves(c, f, c', f');
    } else if At(c) <= 12 {
      ReplyMoves(c, f, c', f');
    } else {
      FinishMoves(c, f, c', f');
    }
  }

  /** A step either stays, to wait or to fail, or makes a proper move. */
  predicate StaysOrMoves(c: Client, f: Facts, o: Outcome) {
    || (o.m == c && o.news == Quiet && o.sent == [] && !o.taken && !o.wait.Flush? && !(o.wait.Ok? && !c.state.Done?))
    || (Proper(c, f, o.m, NoteAll(f, o.news)) && !o.wait.Error?)
  }

  lemma ReadServerHelloMoves(c: Client, f: Facts, msg: Option<Msg>, env: Env)
    requires c.state.ReadServerHello?
    ensures StaysOrMoves(c, f, DoReadServerHello(c, msg, env))
  {
  }

  lemma ReadServerCertificateMoves(c: Client, f: Facts, msg: Option<Msg>, env: Env)
    requires c.state.ReadServerCertificate?
    ensures StaysOrMoves(c, f, DoReadServerCertificate(c, msg, env))
  {
  }

  lemma ReadCertificateStatusMoves(c: Client, f: Facts, msg: Option<Msg>, env: Env)
    requires c.state.ReadCertificateStatus?
    ensures StaysOrMoves(c, f, DoReadCertificateStatus(c, msg, env))
  {
  }

  lemma NotesVerified(f: Facts, news: News, verified: bool)
    requires news == if verified then One(CertificateVerified) else Quiet
    ensures NoteAll(f, news) == f.(verified := f.verified || verified)
  {
  }

  lemma VerifyServerCertificateMoves(c: Client, f: Facts, env: Env)
    requires c.state.VerifyServerCertificate?
    ensures StaysOrMoves(c, f, DoVerifyServerCertificate(c, env))
  {
    var o := DoVerifyServerCertificate(c, env);
    if o.m != c {
      assert o.m == c.(state := ReadServerKeyExchange) && To(c, o.m, ReadServerKeyExchange);
      NotesVerified(f, o.news, c.p.certAuth);
    }
  }

  lemma ReadServerKeyExchangeMoves(c: Client, f: Facts, msg: Option<Msg>, env: Env)
    requires c.state.ReadServerKeyExchange?
    ensures StaysOrMoves(c, f, DoReadServerKeyExchange(c, msg, env))
  {
  }

  lemma ReadCertificateRequestMoves(c: Client, f: Facts, msg: Option<Msg>, env: Env)
    requires c.state.ReadCertificateRequest?
    ensures StaysOrMoves(c, f, DoReadCertificateRequest(c, msg, env))
  {
  }

  lemma ReadServerHelloDoneMoves(c: Client, f: Facts, msg: Option<Msg>, env: Env)
    requires c.state.ReadServerHelloDone?
    ensures StaysOrMoves(c, f, DoReadServerHelloDone(c, msg, env))
  {
  }

  lemma SendClientCertificateMoves(c: Client, f: Facts, env: Env)
    requires c.state.SendClientCertificate?
    ensures StaysOrMoves(c, f, DoSendClientCertificate(c, env))
  {
  }

  lemma SendClientCertificateVerifyMoves(c: Client, f: Facts, env: Env)
    requires c.state.SendClientCertificateVerify?
    ensures StaysOrMoves(c, f, DoSendClientCertificateVerify(c, env))
  {
  }

  lemma SendClientFinishedMoves(c: Client, f: Facts, env: Env)
    requires c.state.SendClientFinished?
    ensures StaysOrMoves(c, f, DoSendClientFinished(c, env))
  {
  }

  lemma FinishFlightMoves(c: Client, f: Facts, env: Env)
    requires c.state.FinishFlight?
    ensures StaysOrMoves(c, f, DoFinishFlight(c, env))
  {
  }

  lemma ReadSessionTicketMoves(c: Client, f: Facts, msg: Option<Msg>, env: Env)
    requires c.state.ReadSessionTicket?
    ensures StaysOrMoves(c, f, DoReadSessionTicket(c, msg, env))
  {
    var o := DoReadSessionTicket(c, msg, env);
    if o.m != c {
      assert o.m.state.ProcessChangeCipherSpec? && SameCipher(c, o.m);
    }
  }

  lemma ReadServerFinishedMoves(c: Client, f: Facts, msg: Option<Msg>, env: Env)
    requires c.state.ReadServerFinished?
    ensures StaysOrMoves(c, f, DoReadServerFinished(c, msg, env))
  {
  }

  lemma {:induction false} StepMoves(c: Client, f: Facts, msg: Option<Msg>, env: Env)
    ensures StaysOrMoves(c, f, Step(c, msg, env))
  {
    hide StaysOrMoves, DoReadServerHello, DoReadServerCertificate, DoReadCertificateStatus, DoVerifyServerCertificate,
      DoReadServerKeyExchange, DoReadCertificateRequest, DoReadServerHelloDone, DoSendClientCertificate,
      DoSendClientCertificateVerify, DoSendClientFinished, DoFinishFlight, DoReadSessionTicket, DoReadServerFinished;
    match c.state
    case ReadServerHello => ReadServerHelloMoves(c, f, msg, env);
    case ReadServerCertificate => ReadServerCertificateMoves(c, f, msg, env);
    case ReadCertificateStatus => ReadCertificateStatusMoves(c, f, msg, env);
    case VerifyServerCertificate => VerifyServerCertificateMoves(c, f, env);
    case ReadServerKeyExchange => ReadServerKeyExchangeMoves(c, f, msg, env);
    case ReadCertificateRequest => ReadCertificateRequestMoves(c, f, msg, env);
    case ReadServerHelloDone => ReadServerHelloDoneMoves(c, f, msg, env);
    case SendClientCertificate => SendClientCertificateMoves(c, f, env);
    case SendClientCertificateVerify => SendClientCertificateVerifyMoves(c, f, env);
    case SendClientFinished => SendClientFinishedMoves(c, f, env);
    case FinishFlight => FinishFlightMoves(c, f, env);
    case ReadSessionTicket => ReadSessionTicketMoves(c, f, msg, env);
    case ReadServerFinished => ReadServerFinishedMoves(c, f, msg, env);
    case StartConnect => HelloStateMoves(c, f, msg, env);
    case EnterEarlyData => HelloStateMoves(c, f, msg, env);
    case ReadHelloVerifyRequest => HelloStateMoves(c, f, msg, env);
    case _ => PlainMoves(c, f, msg, env);
  }

  lemma HelloStateMoves(c: Client, f: Facts, msg: Option<Msg>, env: Env)
    requires c.state.StartConnect? || c.state.EnterEarlyData? || c.state.ReadHelloVerifyRequest?
    ensures StaysOrMoves(c, f, Step(c, msg, env))
  {
  }

  lemma PlainMoves(c: Client, f: Facts, msg: Option<Msg>, env: Env)
    requires || c.state.SendClientKeyExchange? || c.state.ProcessChangeCipherSpec?
             || c.state.FinishClientHandshake? || c.state.Done?
    ensures StaysOrMoves(c, f, Step(c, msg, env))
  {
  }

  /** Every step keeps what was established and never goes back; it climbs unless it asks to wait
      or fails, so the loop in ssl_client_handshake terminates and no state is entered twice. */
  lemma {:induction false} StepKeepsInv(c: Client, f: Facts, msg: Option<Msg>, env: Env)
    requires Inv(c, f)
    ensures var o := Step(c, msg, env);
            && Inv(o.m, NoteAll(f, o.news))
            && (o.m == c || At(o.m) > At(c))
            && (o.wait.Error? ==> o.m == c)
            && (o.wait.Flush? || (o.wait.Ok? && c.state != Done) ==> At(o.m) > At(c))
  {
    hide Inv, Proper, Step, At;
    StepMoves(c, f, msg, env);
    var o := Step(c, msg, env);
    if o.m != c || o.news != Quiet || o.wait.Flush? || (o.wait.Ok? && c.state != Done) {
      MoveGood(c, f, o.m, NoteAll(f, o.news));
    }
  }

  lemma {:induction false} StepClimbs(c: Client, msg: Option<Msg>, env: Env)
    requires Shape(c)
    ensures var o := Step(c, msg, env); Shape(o.m) && (o.m == c || At(o.m) > At(c))
  {
    hide Step, Proper, At, Shape;
    StepKeepsInv(c, Facts(true, true, true, !c.p.resumed && At(c) > 7, true, true), msg, env);
  }

  /** A run: at each step some message may be there, and the environment answers somehow. */
  function RunFrom(c: Client, inputs: seq<(Option<Msg>, Env)>): (Client, seq<Event>) {
    if inputs == [] then (c, [])
    else
      var n := |inputs| - 1;
      var (c', log) := RunFrom(c, inputs[..n]);
      var o := Step(c', inputs[n].0, inputs[n].1);
      (o.m, log + o.news.Listed())
  }

  lemma RunOneMore(c: Client, inputs: seq<(Option<Msg>, Env)>, input: (Option<Msg>, Env))
    ensures var (c', log) := RunFrom(c, inputs);
            var o := Step(c', input.0, input.1);
            RunFrom(c, inputs + [input]) == (o.m, log + o.news.Listed())
  {
    assert (inputs + [input])[..|inputs|] == inputs;
  }

  lemma InvAtStart(isDtls: bool, hasCertificate: bool, falseStart: bool)
    ensures Inv(Start(isDtls, hasCertificate, falseStart), FactsOf([]))
  {
  }

  lemma {:induction false} RunKeepsInv(isDtls: bool, hasCertificate: bool, falseStart: bool,
                                       inputs: seq<(Option<Msg>, Env)>)
    ensures var (c, log) := RunFrom(Start(isDtls, hasCertificate, falseStart), inputs);
            Inv(c, FactsOf(log))
  {
    hide Step, Inv;
    InvAtStart(isDtls, hasCertificate, falseStart);
    if inputs != [] {
      var n := |inputs| - 1;
      RunKeepsInv(isDtls, hasCertificate, falseStart, inputs[..n]);
      var (c, log) := RunFrom(Start(isDtls, hasCertificate, falseStart), inputs[..n]);
      StepKeepsInv(c, FactsOf(log), inputs[n].0, inputs[n].1);
      FactsGrow(log, Step(c, inputs[n].0, inputs[n].1).news);
    }
  }

  /** What a client may rely on when it is done: after the read cipher was switched on the
      server's Finished matched; in a full handshake with a certificate cipher the certificate was
      verified, and the ServerKeyExchange, if there was one, was signed; and with an ephemeral
      cipher there was one. */
  ghost predicate Safe(c: Client, log: seq<Event>) {
    && FinishedUnderNewCipher(log)
    && (!c.p.resumed && c.p.certAuth ==>
          && CertificateVerified in log
          && (Received(ServerKeyExchange) in log ==> KeyExchangeSigned in log)
          && (c.p.ecdhe ==> Received(ServerKeyExchange) in log))
  }

  lemma {:induction false} InvIsSafe(c: Client, log: seq<Event>)
    requires Inv(c, FactsOf(log)) && c.state == Done
    ensures Safe(c, log)
  {
    FactsMean(log);
  }

  /** Safety: whatever is received and however the environment answers, a client that is done is safe. */
  lemma {:induction false} DoneIsSafe(isDtls: bool, hasCertificate: bool, falseStart: bool,
                                      inputs: seq<(Option<Msg>, Env)>)
    ensures var (c, log) := RunFrom(Start(isDtls, hasCertificate, falseStart), inputs);
            c.state == Done ==> Safe(c, log)
  {
    hide RunFrom, Inv, Safe;
    RunKeepsInv(isDtls, hasCertificate, falseStart, inputs);
    var (c, log) := RunFrom(Start(isDtls, hasCertificate, falseStart), inputs);
    if c.state == Done {
      InvIsSafe(c, log);
    }
  }
}
