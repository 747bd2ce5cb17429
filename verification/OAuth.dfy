/** The rendezvous between POST /access_tokens and the OAuth callback: the authorization-code
    exchange of sections 4.1.2, 4.1.2.1 and 4.1.3 of RFC 6749, over one unbuffered channel per
    create, found through a shared map keyed by the state parameter. */
module OAuth {
  import opened Options

  datatype Token = Token(access: string, refresh: string)

  /** OAuthCallback: a token, or an error. */
  datatype Message = Granted(token: Token) | Refused(error: string)

  /** The redirect's query parameters. */
  datatype Form = Form(state: string, error: string, code: string)

  datatype ExchangeAnswer = Exchanged(token: Token) | ExchangeError(error: string)

  datatype RevokeAnswer = NoRequest | NoResponse | RevokeStatus(code: nat)

  /** ExchangeAuthCodeForToken: only a token that carries a refresh token is passed on. */
  function ExchangeAuthCode(x: ExchangeAnswer, revoke: RevokeAnswer): (m: Message)
    ensures m.Granted? <==> x.Exchanged? && x.token.refresh != ""
    ensures m.Granted? ==> m.token == x.token
  {
    match x
    case ExchangeError(error) => Refused("token exchange error: " + error)
    case Exchanged(token) =>
      if token.refresh == "" then
        match revoke
        case NoRequest => Refused("error constructing token revocation request")
        case NoResponse => Refused("error sending token revocation request")
        case RevokeStatus(code) =>
          if code != 200 then Refused("existing access token was not revoked")
          else Refused("existing token revoked - please try authenticating again")
      else Granted(token)
  }

  /** A failed exchange is reported with its own error. */
  lemma ExchangeErrorIsReported(error: string, revoke: RevokeAnswer)
    ensures var m := ExchangeAuthCode(ExchangeError(error), revoke);
            m.Refused? && |m.error| >= |error| && m.error[|m.error| - |error|..] == error
  {
  }

  /** Without a refresh token the user is asked to try again exactly if the token was revoked. */
  lemma RevocationIsReported(token: Token, revoke: RevokeAnswer)
    requires token.refresh == ""
    ensures revoke == RevokeStatus(200) <==>
            ExchangeAuthCode(Exchanged(token), revoke) ==
            Refused("existing token revoked - please try authenticating again")
  {
    var asked := |"existing token revoked - please try authenticating again"|;
    assert |"existing access token was not revoked"| < asked;
    assert |"error constructing token revocation request"| < asked;
    assert |"error sending token revocation request"| < asked;
  }

  /** A create request; `sender` is the callback whose message it received, if any. */
  datatype Create =
    | Arrived(state: string)
    | Waiting(state: string, channel: nat)
    | Woken(state: string, channel: nat, result: Message, sender: Option<nat>)
    | Answered(state: string, code: nat, result: Message, sender: Option<nat>)

  /** Registered, and not yet unregistered. */
  predicate Outstanding(p: Create) {
    p.Waiting? || p.Woken?
  }

  /** Past its wait, with a result. */
  predicate HasResult(p: Create) {
    p.Woken? || p.Answered?
  }

  /** A callback request; `receiver` is the create that took its message. */
  datatype Callback =
    | Redirected(form: Form)
    | Exchanging(form: Form, channel: nat)
    | Sending(form: Form, channel: nat, message: Message)
    | Ignored(form: Form)
    | Sent(form: Form, message: Message, receiver: nat)

  datatype State = State(
    callbacks: map<string, nat>,
    nextChannel: nat,
    creates: map<nat, Create>,
    answers: map<nat, Callback>,
    // History, read by no step:
    madeFor: map<nat, string>,      // the state each channel was made for
    exchanged: map<nat, Token>      // the token each callback's exchange returned
  )

  datatype Action =
    | CreateArrives(t: nat, state: string)
    | Register(t: nat)
    | TimeOut(t: nat)
    | Unregister(t: nat)
    | CallbackArrives(c: nat, form: Form)
    | Lookup(c: nat)
    | Exchange(c: nat, x: ExchangeAnswer, revoke: RevokeAnswer)
    | Deliver(c: nat, t: nat)

  ghost predicate Next(s: State, a: Action, s': State) {
    match a
    case CreateArrives(t, state) => t !in s.creates && s' == s.(creates := s.creates[t := Arrived(state)])
    case Register(t) =>
      && t in s.creates && s.creates[t].Arrived?
      && var state, ch := s.creates[t].state, s.nextChannel;
         s' == s.(callbacks := s.callbacks[state := ch], nextChannel := ch + 1,
                  creates := s.creates[t := Waiting(state, ch)], madeFor := s.madeFor[ch := state])
    case TimeOut(t) =>
      && t in s.creates && s.creates[t].Waiting?
      && s' == s.(creates := s.creates[t := Woken(s.creates[t].state, s.creates[t].channel,
                                                  Refused("Callback timed out"), None)])
    case Unregister(t) =>  // deletes whatever is registered under this state
      && t in s.creates && s.creates[t].Woken?
      && var w := s.creates[t];
         s' == s.(callbacks := s.callbacks - {w.state},
                  creates := s.creates[t := Answered(w.state, if w.result.Granted? then 201 else 400,
                                                     w.result, w.sender)])
    case CallbackArrives(c, form) => c !in s.answers && s' == s.(answers := s.answers[c := Redirected(form)])
    case Lookup(c) =>
      && c in s.answers && s.answers[c].Redirected?
      && s' == s.(answers := s.answers[c := LookedUp(s.callbacks, s.answers[c].form)])
    case Exchange(c, x, revoke) =>
      && c in s.answers && s.answers[c].Exchanging?
      && s' == s.(answers := s.answers[c := Sending(s.answers[c].form, s.answers[c].channel,
                                                    ExchangeAuthCode(x, revoke))],
                  exchanged := if x.Exchanged? then s.exchanged[c := x.token] else s.exchanged)
    case Deliver(c, t) =>  // a send on an unbuffered channel meets its receive
      && c in s.answers && s.answers[c].Sending? && t in s.creates && s.creates[t].Waiting?
      && s.answers[c].channel == s.creates[t].channel
      && var p, w := s.answers[c], s.creates[t];
         s' == s.(answers := s.answers[c := Sent(p.form, p.message, t)],
                  creates := s.creates[t := Woken(w.state, w.channel, p.message, Some(c))])
  }

  /** Callback from the map lookup up to its exchange or its send. */
  function LookedUp(callbacks: map<string, nat>, form: Form): Callback {
    if form.state !in callbacks then Ignored(form)
    else if form.error != "" then Sending(form, callbacks[form.state], Refused(form.error))
    else if form.code == "" then Sending(form, callbacks[form.state], Refused("OAuth callback response code is empty"))
    else Exchanging(form, callbacks[form.state])
  }

  ghost predicate Init(s: State) {
    s == State(map[], s.nextChannel, map[], map[], map[], map[])
  }

  ghost predicate StepAt(ss: seq<State>, acts: seq<Action>, k: nat)
    requires |ss| == |acts| + 1 && k < |acts|
  {
    Next(ss[k], acts[k], ss[k + 1])
  }

  ghost predicate Run(ss: seq<State>, acts: seq<Action>) {
    && |ss| == |acts| + 1 && Init(ss[0])
    && (forall k :: 0 <= k < |acts| ==> StepAt(ss, acts, k))
  }

  // ---------- The invariant ----------

  ghost predicate MadeFor(s: State, channel: nat, state: string) {
    channel in s.madeFor && s.madeFor[channel] == state
  }

  /** Channels are fresh, and every use of one is for the state it was made for. */
  ghost predicate ChannelsSound(s: State) {
    MapSound(s) && UsesSound(s)
  }

  ghost predicate MapSound(s: State) {
    && (forall ch :: ch in s.madeFor ==> ch < s.nextChannel)
    && (forall st :: st in s.callbacks ==> MadeFor(s, s.callbacks[st], st))
  }

  ghost predicate UsesSound(s: State) {
    && (forall t :: t in s.creates && Outstanding(s.creates[t]) ==>
          MadeFor(s, s.creates[t].channel, s.creates[t].state))
    && (forall c :: c in s.answers && (s.answers[c].Exchanging? || s.answers[c].Sending?) ==>
          MadeFor(s, s.answers[c].channel, s.answers[c].form.state))
  }

  ghost predicate OwnChannels(s: State) {
    forall t, u ::
      && t in s.creates && Outstanding(s.creates[t])
      && u in s.creates && Outstanding(s.creates[u])
      && s.creates[t].channel == s.creates[u].channel
      ==> t == u
  }

  /** The redirect carries a code and no error. */
  predicate Authorised(form: Form) {
    form.error == "" && form.code != ""
  }

  /** A message to be sent, or sent, with a token is the token this callback's exchange returned. */
  ghost predicate TokensExchanged(s: State) {
    && (forall c :: c in s.answers && s.answers[c].Exchanging? ==> Authorised(s.answers[c].form))
    && (forall c :: c in s.answers && (s.answers[c].Sending? || s.answers[c].Sent?) && s.answers[c].message.Granted? ==>
          && Authorised(s.answers[c].form)
          && c in s.exchanged && s.exchanged[c] == s.answers[c].message.token && s.exchanged[c].refresh != "")
  }

  /** Create `t` has what callback `c` sent it. */
  ghost predicate Paired(s: State, t: nat, c: nat) {
    && t in s.creates && HasResult(s.creates[t]) && s.creates[t].sender == Some(c)
    && c in s.answers && s.answers[c].Sent? && s.answers[c].receiver == t
    && s.creates[t].state == s.answers[c].form.state && s.creates[t].result == s.answers[c].message
  }

  ghost predicate DeliveriesPaired(s: State) {
    && (forall t :: t in s.creates && HasResult(s.creates[t]) && s.creates[t].sender.Some? ==>
          Paired(s, t, s.creates[t].sender.value))
    && (forall c :: c in s.answers && s.answers[c].Sent? ==> Paired(s, s.answers[c].receiver, c))
  }

  /** A create without a sender timed out; the status follows the result. */
  ghost predicate AnswersFollow(s: State) {
    forall t :: t in s.creates && HasResult(s.creates[t]) ==>
      && (s.creates[t].sender.None? ==> s.creates[t].result.Refused?)
      && (s.creates[t].Answered? ==> s.creates[t].code == if s.creates[t].result.Granted? then 201 else 400)
  }

  ghost predicate Inv(s: State) {
    ChannelsSound(s) && OwnChannels(s) && TokensExchanged(s) && DeliveriesPaired(s) && AnswersFollow(s)
  }

  lemma StepKeepsChannels(s: State, a: Action, s': State)
    requires ChannelsSound(s) && Next(s, a, s')
    ensures ChannelsSound(s')
  {
    StepKeepsMap(s, a, s');
    StepKeepsUses(s, a, s');
  }

  lemma StepKeepsMap(s: State, a: Action, s': State)
    requires MapSound(s) && Next(s, a, s')
    ensures MapSound(s')
    ensures forall ch, st :: MadeFor(s, ch, st) ==> MadeFor(s', ch, st)
  {
  }

  lemma StepKeepsUses(s: State, a: Action, s': State)
    requires ChannelsSound(s) && Next(s, a, s')
    ensures UsesSound(s')
  {
    StepKeepsMap(s, a, s');
  }

  lemma StepKeepsOwnChannels(s: State, a: Action, s': State)
    requires ChannelsSound(s) && OwnChannels(s) && Next(s, a, s')
    ensures OwnChannels(s')
  {
    forall t | t in s'.creates && Outstanding(s'.creates[t]) && !(a.Register? && a.t == t)
      ensures t in s.creates && Outstanding(s.creates[t])
      ensures s.creates[t].channel == s'.creates[t].channel < s.nextChannel
    {
      assert MadeFor(s, s.creates[t].channel, s.creates[t].state);
    }
  }

  lemma StepKeepsDeliveries(s: State, a: Action, s': State)
    requires Inv(s) && Next(s, a, s')
    ensures DeliveriesPaired(s')
  {
    forall t | t in s'.creates && HasResult(s'.creates[t]) && s'.creates[t].sender.Some?
      ensures Paired(s', t, s'.creates[t].sender.value)
    {
      if !(a.Deliver? && a.t == t) {
        assert Paired(s, t, s'.creates[t].sender.value);
      }
    }
    forall c | c in s'.answers && s'.answers[c].Sent? ensures Paired(s', s'.answers[c].receiver, c) {
      if !(a.Deliver? && a.c == c) {
        assert Paired(s, s'.answers[c].receiver, c);
      }
    }
  }

  lemma StepKeepsTokens(s: State, a: Action, s': State)
    requires TokensExchanged(s) && Next(s, a, s')
    ensures TokensExchanged(s')
  {
  }

  lemma StepKeepsAnswers(s: State, a: Action, s': State)
    requires AnswersFollow(s) && Next(s, a, s')
    ensures AnswersFollow(s')
  {
  }

  lemma {:induction false} RunKeepsInv(ss: seq<State>, acts: seq<Action>, k: nat)
    requires Run(ss, acts) && k < |ss|
    ensures Inv(ss[k])
  {
    if k == 0 {
    } else {
      RunKeepsInv(ss, acts, k - 1);
      assert StepAt(ss, acts, k - 1);
      StepKeepsChannels(ss[k - 1], acts[k - 1], ss[k]);
      StepKeepsOwnChannels(ss[k - 1], acts[k - 1], ss[k]);
      StepKeepsDeliveries(ss[k - 1], acts[k - 1], ss[k]);
      StepKeepsTokens(ss[k - 1], acts[k - 1], ss[k]);
      StepKeepsAnswers(ss[k - 1], acts[k - 1], ss[k]);
    }
  }

  // ---------- Theorems ----------

  /** Callback `c`, redirected with a code and no error, obtained `token` by exchange, under `state`,
      and create `t` received it. */
  ghost predicate Supplied(s: State, c: nat, t: nat, state: string, token: Token) {
    && c in s.answers && s.answers[c].Sent? && s.answers[c].receiver == t
    && s.answers[c].form.state == state && Authorised(s.answers[c].form) && s.answers[c].message == Granted(token)
    && c in s.exchanged && s.exchanged[c] == token
  }

  ghost predicate SentTo(s: State, c: nat, t: nat) {
    c in s.answers && s.answers[c].Sent? && s.answers[c].receiver == t
  }

  /** A create that answers 201 returns a token with a refresh token, and exactly one callback, of
      the same state, exchanged and delivered it; even when states repeat. */
  lemma CreatedTokenHasOneSource(ss: seq<State>, acts: seq<Action>, k: nat, t: nat)
    requires Run(ss, acts) && k < |ss|
    requires t in ss[k].creates && ss[k].creates[t].Answered? && ss[k].creates[t].code == 201
    ensures ss[k].creates[t].result.Granted? && ss[k].creates[t].result.token.refresh != ""
    ensures exists c :: Supplied(ss[k], c, t, ss[k].creates[t].state, ss[k].creates[t].result.token)
    ensures forall c, d :: SentTo(ss[k], c, t) && SentTo(ss[k], d, t) ==> c == d
  {
    RunKeepsInv(ss, acts, k);
    var s := ss[k];
    var c := s.creates[t].sender.value;
    assert Paired(s, t, c);
    assert Supplied(s, c, t, s.creates[t].state, s.creates[t].result.token);
    forall d | SentTo(s, d, t) ensures d == c {
      assert Paired(s, t, d);
    }
  }

  /** A callback that reports success has handed its token to exactly one create, which has it. */
  lemma ReportedSuccessWasReceived(ss: seq<State>, acts: seq<Action>, k: nat, c: nat)
    requires Run(ss, acts) && k < |ss|
    requires c in ss[k].answers && ss[k].answers[c].Sent?
    ensures var s, t := ss[k], ss[k].answers[c].receiver;
            && t in s.creates && HasResult(s.creates[t])
            && s.creates[t].result == s.answers[c].message && s.creates[t].state == s.answers[c].form.state
            && (forall u :: u in s.creates && HasResult(s.creates[u]) && s.creates[u].sender == Some(c) ==> u == t)
  {
    RunKeepsInv(ss, acts, k);
    var s, t := ss[k], ss[k].answers[c].receiver;
    assert Paired(s, t, c);
    forall u | u in s.creates && HasResult(s.creates[u]) && s.creates[u].sender == Some(c)
      ensures u == t
    {
      assert Paired(s, u, c);
    }
  }

  /** What a redirect that carries no usable code is refused with. */
  function Refusal(form: Form): Message
    requires !Authorised(form)
  {
    Refused(if form.error != "" then form.error else "OAuth callback response code is empty")
  }

  /** Callback `c` looked its state up at step `l`. */
  ghost predicate LookedUpAt(ss: seq<State>, acts: seq<Action>, c: nat, l: nat)
    requires |ss| == |acts| + 1
  {
    l < |acts| && acts[l] == Lookup(c) && c in ss[l].answers && ss[l].answers[c].Redirected?
  }

  /** Callback `c` exchanged its code between steps `l` and `k`, was answered, and so holds `message`. */
  ghost predicate ExchangedFor(acts: seq<Action>, c: nat, l: nat, k: nat, message: Message) {
    exists f :: l < f < k <= |acts| && ExchangeYields(acts[f], c, message)
  }

  ghost predicate ExchangeYields(a: Action, c: nat, message: Message) {
    && a.Exchange? && a.c == c
    && if a.x.Exchanged? && a.x.token.refresh != "" then message == Granted(a.x.token) else message.Refused?
  }

  /** Where a callback stands that found `channel` registered for its state. */
  ghost predicate Handled(acts: seq<Action>, form: Form, channel: nat, c: nat, l: nat, k: nat, p: Callback) {
    && !p.Redirected? && !p.Ignored? && p.form == form
    && (p.Exchanging? || p.Sending? ==> p.channel == channel)
    && (p.Exchanging? ==> Authorised(form))
    && (p.Sending? || p.Sent? ==>
          if Authorised(form) then ExchangedFor(acts, c, l, k, p.message) else p.message == Refusal(form))
  }

  /** A callback is ignored exactly if its state was not registered when it looked. Otherwise it keeps the
      channel it found; with a code and no error it goes on to exchange the code, and sends the token it
      is answered if that has a refresh token, and an error if not; and any other redirect it refuses,
      with the redirect's own error if there is one. */
  lemma {:induction false} CallbackIsHandled(ss: seq<State>, acts: seq<Action>, c: nat, l: nat, k: nat)
    requires Run(ss, acts) && l < k < |ss| && LookedUpAt(ss, acts, c, l)
    ensures c in ss[k].answers
    ensures var form, p := ss[l].answers[c].form, ss[k].answers[c];
            if form.state in ss[l].callbacks
            then Handled(acts, form, ss[l].callbacks[form.state], c, l, k, p)
            else p == Ignored(form)
  {
    assert StepAt(ss, acts, k - 1);
    if k == l + 1 {
    } else {
      CallbackIsHandled(ss, acts, c, l, k - 1);
      var form := ss[l].answers[c].form;
      if form.state in ss[l].callbacks {
        HandledStep(ss, acts, form, ss[l].callbacks[form.state], c, l, k - 1);
      }
    }
  }

  lemma HandledStep(ss: seq<State>, acts: seq<Action>, form: Form, channel: nat, c: nat, l: nat, k: nat)
    requires Run(ss, acts) && l < k < |acts| && c in ss[k].answers
    requires Handled(acts, form, channel, c, l, k, ss[k].answers[c])
    ensures c in ss[k + 1].answers && Handled(acts, form, channel, c, l, k + 1, ss[k + 1].answers[c])
  {
    assert StepAt(ss, acts, k);
    var a, p, p' := acts[k], ss[k].answers[c], ss[k + 1].answers[c];
    if a.Exchange? && a.c == c {
      assert ExchangeYields(a, c, p'.message);
    } else if p.Sending? || p.Sent? {
      assert p'.message == p.message;
    }
  }

  /** A message is an error if and only if the redirect carried an error or no code, or the exchange
      of its code failed or returned no refresh token. */
  lemma RefusedIff(ss: seq<State>, acts: seq<Action>, c: nat, l: nat, k: nat)
    requires Run(ss, acts) && l < k < |ss| && LookedUpAt(ss, acts, c, l)
    requires c in ss[k].answers && (ss[k].answers[c].Sending? || ss[k].answers[c].Sent?)
    ensures var form := ss[l].answers[c].form;
            ss[k].answers[c].message.Refused? <==> !Authorised(form) || !RefreshTokenGot(acts, c, l, k)
  {
    CallbackIsHandled(ss, acts, c, l, k);
    var form, p := ss[l].answers[c].form, ss[k].answers[c];
    if Authorised(form) {
      var f :| l < f < k && ExchangeYields(acts[f], c, p.message);
      forall g | l < g < k && acts[g].Exchange? && acts[g].c == c ensures g == f {
        ExchangesOnce(ss, acts, c, g, f);
        ExchangesOnce(ss, acts, c, f, g);
      }
    }
  }

  ghost predicate RefreshTokenGot(acts: seq<Action>, c: nat, l: nat, k: nat) {
    exists f :: l < f < k <= |acts| && GotRefreshToken(acts[f], c)
  }

  ghost predicate GotRefreshToken(a: Action, c: nat) {
    a.Exchange? && a.c == c && a.x.Exchanged? && a.x.token.refresh != ""
  }

  /** A code is exchanged at most once. */
  lemma ExchangesOnce(ss: seq<State>, acts: seq<Action>, c: nat, f: nat, g: nat)
    requires Run(ss, acts) && f < |acts| && g < |acts|
    requires acts[f].Exchange? && acts[f].c == c && acts[g].Exchange? && acts[g].c == c
    ensures f >= g
  {
    if f < g {
      assert StepAt(ss, acts, f) && StepAt(ss, acts, g);
      PastExchange(ss, acts, c, f + 1, g);
    }
  }

  lemma {:induction false} PastExchange(ss: seq<State>, acts: seq<Action>, c: nat, j: nat, k: nat)
    requires Run(ss, acts) && j <= k < |ss|
    requires c in ss[j].answers && (ss[j].answers[c].Sending? || ss[j].answers[c].Sent?)
    ensures c in ss[k].answers && (ss[k].answers[c].Sending? || ss[k].answers[c].Sent?)
  {
    if j == k {
    } else {
      PastExchange(ss, acts, c, j, k - 1);
      assert StepAt(ss, acts, k - 1);
    }
  }

  /** An authorised redirect whose exchange returns a refresh token can always complete: from a create
      waiting on the channel registered for its state, four steps end with 201 and that token. */
  lemma AuthorisedCompletes(s0: State, t: nat, c: nat, token: Token, revoke: RevokeAnswer)
    returns (s1: State, s2: State, s3: State, s4: State)
    requires t in s0.creates && s0.creates[t].Waiting?
    requires var w := s0.creates[t]; w.state in s0.callbacks && s0.callbacks[w.state] == w.channel
    requires c in s0.answers && s0.answers[c].Redirected?
    requires var form := s0.answers[c].form;
             form.state == s0.creates[t].state && form.error == "" && form.code != ""
    requires token.refresh != ""
    ensures Next(s0, Lookup(c), s1) && Next(s1, Exchange(c, Exchanged(token), revoke), s2)
    ensures Next(s2, Deliver(c, t), s3) && Next(s3, Unregister(t), s4)
    ensures t in s4.creates && s4.creates[t] == Answered(s0.creates[t].state, 201, Granted(token), Some(c))
    ensures c in s4.answers && s4.answers[c] == Sent(s0.answers[c].form, Granted(token), t)
  {
    var w, form := s0.creates[t], s0.answers[c].form;
    s1 := s0.(answers := s0.answers[c := LookedUp(s0.callbacks, form)]);
    s2 := s1.(answers := s1.answers[c := Sending(form, w.channel, Granted(token))],
              exchanged := s1.exchanged[c := token]);
    s3 := s2.(answers := s2.answers[c := Sent(form, Granted(token), t)],
              creates := s2.creates[t := Woken(w.state, w.channel, Granted(token), Some(c))]);
    s4 := s3.(callbacks := s3.callbacks - {w.state},
              creates := s3.creates[t := Answered(w.state, 201, Granted(token), Some(c))]);
  }

  /** And so a login can always be completed from scratch, in any state: the create arrives and
      registers, the user comes back with a code, and the token arrives. */
  lemma LoginCompletes(s0: State, t: nat, c: nat, form: Form, token: Token, revoke: RevokeAnswer)
    returns (s1: State, s2: State, s3: State, s7: State)
    requires t !in s0.creates && c !in s0.answers && form.error == "" && form.code != "" && token.refresh != ""
    ensures Next(s0, CreateArrives(t, form.state), s1) && Next(s1, Register(t), s2)
    ensures Next(s2, CallbackArrives(c, form), s3)
    ensures exists s4, s5, s6 ::
              && Next(s3, Lookup(c), s4) && Next(s4, Exchange(c, Exchanged(token), revoke), s5)
              && Next(s5, Deliver(c, t), s6) && Next(s6, Unregister(t), s7)
    ensures t in s7.creates && s7.creates[t] == Answered(form.state, 201, Granted(token), Some(c))
  {
    s1 := s0.(creates := s0.creates[t := Arrived(form.state)]);
    var ch := s1.nextChannel;
    s2 := s1.(callbacks := s1.callbacks[form.state := ch], nextChannel := ch + 1,
              creates := s1.creates[t := Waiting(form.state, ch)], madeFor := s1.madeFor[ch := form.state]);
    s3 := s2.(answers := s2.answers[c := Redirected(form)]);
    var s4, s5, s6;
    s4, s5, s6, s7 := AuthorisedCompletes(s3, t, c, token, revoke);
  }

  /** A waiting create may always time out, and then answers 400. */
  lemma WaitEnds(s: State, t: nat) returns (s1: State, s2: State)
    requires t in s.creates && s.creates[t].Waiting?
    ensures Next(s, TimeOut(t), s1) && Next(s1, Unregister(t), s2)
    ensures t in s2.creates && s2.creates[t] == Answered(s.creates[t].state, 400, Refused("Callback timed out"), None)
  {
    var w, m := s.creates[t], Refused("Callback timed out");
    s1 := s.(creates := s.creates[t := Woken(w.state, w.channel, m, None)]);
    s2 := s1.(callbacks := s1.callbacks - {w.state}, creates := s1.creates[t := Answered(w.state, 400, m, None)]);
  }

  /** Nobody waits on channel `ch`, and nobody ever will: it is not fresh. */
  ghost predicate Deserted(s: State, ch: nat) {
    && ch < s.nextChannel
    && (forall t :: t in s.creates && s.creates[t].Waiting? ==> s.creates[t].channel != ch)
  }

  /** Only the create has a timeout: a callback sending to a create that has left blocks for ever. */
  lemma {:induction false} LateSenderBlocksForever(ss: seq<State>, acts: seq<Action>, j: nat, k: nat, c: nat)
    requires Run(ss, acts) && j <= k < |ss|
    requires c in ss[j].answers && ss[j].answers[c].Sending? && Deserted(ss[j], ss[j].answers[c].channel)
    ensures c in ss[k].answers && ss[k].answers[c] == ss[j].answers[c]
    ensures Deserted(ss[k], ss[j].answers[c].channel)
  {
    if j == k {
    } else {
      LateSenderBlocksForever(ss, acts, j, k - 1, c);
      assert StepAt(ss, acts, k - 1);
    }
  }

  // ---------- The Callbacks map ----------

  ghost predicate DistinctStates(s: State) {
    forall t, u ::
      && t in s.creates && Outstanding(s.creates[t])
      && u in s.creates && Outstanding(s.creates[u])
      && s.creates[t].state == s.creates[u].state
      ==> t == u
  }

  ghost predicate CreatesMapped(s: State) {
    forall t :: t in s.creates && Outstanding(s.creates[t]) ==>
      s.creates[t].state in s.callbacks && s.callbacks[s.creates[t].state] == s.creates[t].channel
  }

  ghost predicate Owns(s: State, t: nat, state: string) {
    && t in s.creates && Outstanding(s.creates[t]) && s.creates[t].state == state
    && state in s.callbacks && s.callbacks[state] == s.creates[t].channel
  }

  ghost predicate EntriesOwned(s: State) {
    forall st :: st in s.callbacks ==> exists t :: Owns(s, t, st)
  }

  /** The map is exactly the outstanding creates' states with their own channels. */
  ghost predicate MapExact(s: State) {
    CreatesMapped(s) && EntriesOwned(s)
  }

  lemma StepKeepsEntriesOwned(s: State, a: Action, s': State)
    requires EntriesOwned(s) && Next(s, a, s')
    ensures EntriesOwned(s')
  {
    forall st | st in s'.callbacks ensures exists t :: Owns(s', t, st) {
      if a.Register? && st == s.creates[a.t].state {
        assert Owns(s', a.t, st);
      } else {
        var t :| Owns(s, t, st);
        assert Owns(s', t, st);
      }
    }
  }

  lemma StepKeepsCreatesMapped(s: State, a: Action, s': State)
    requires CreatesMapped(s) && Next(s, a, s') && DistinctStates(s) && DistinctStates(s')
    ensures CreatesMapped(s')
  {
    forall t | t in s'.creates && Outstanding(s'.creates[t])
      ensures s'.creates[t].state in s'.callbacks && s'.callbacks[s'.creates[t].state] == s'.creates[t].channel
    {
      if !(a.Register? && a.t == t) {
        assert t in s.creates && Outstanding(s.creates[t]) && s.creates[t].state == s'.creates[t].state;
        if a.Register? {
          assert Outstanding(s'.creates[a.t]);
        }
        if a.Unregister? {
          assert a.t != t && Outstanding(s.creates[a.t]);
        }
      }
    }
  }

  /** Whatever states repeat, every entry belongs to an outstanding create of that state, and is its own channel. */
  lemma {:induction false} MapEntriesAreOwned(ss: seq<State>, acts: seq<Action>, k: nat)
    requires Run(ss, acts) && k < |ss|
    ensures EntriesOwned(ss[k])
  {
    if k == 0 {
    } else {
      MapEntriesAreOwned(ss, acts, k - 1);
      assert StepAt(ss, acts, k - 1);
      StepKeepsEntriesOwned(ss[k - 1], acts[k - 1], ss[k]);
    }
  }

  /** While outstanding creates have distinct states, the map is exactly the bijection to their channels. */
  lemma {:induction false} MapIsBijection(ss: seq<State>, acts: seq<Action>, k: nat)
    requires Run(ss, acts) && k < |ss|
    requires forall j :: 0 <= j < |ss| ==> DistinctStates(ss[j])
    ensures MapExact(ss[k])
  {
    MapEntriesAreOwned(ss, acts, k);
    if k == 0 {
    } else {
      MapIsBijection(ss, acts, k - 1);
      assert StepAt(ss, acts, k - 1);
      StepKeepsCreatesMapped(ss[k - 1], acts[k - 1], ss[k]);
    }
  }

  /** Throughout a run the map is that bijection if and only if outstanding states never repeat. */
  lemma MapExactIffStatesDistinct(ss: seq<State>, acts: seq<Action>)
    requires Run(ss, acts)
    ensures (forall k :: 0 <= k < |ss| ==> MapExact(ss[k])) <==> (forall k :: 0 <= k < |ss| ==> DistinctStates(ss[k]))
  {
    if forall k :: 0 <= k < |ss| ==> DistinctStates(ss[k]) {
      forall k | 0 <= k < |ss| ensures MapExact(ss[k]) {
        MapIsBijection(ss, acts, k);
      }
    }
    if forall k :: 0 <= k < |ss| ==> MapExact(ss[k]) {
      forall k | 0 <= k < |ss| ensures DistinctStates(ss[k]) {
        assert MapExact(ss[k]);
        RunKeepsInv(ss, acts, k);
      }
    }
  }

  /** Without that hypothesis the other half fails: two creates of one state, the first leaving, strand the second. */
  lemma RepeatedStateCanStrand() returns (ss: seq<State>, acts: seq<Action>)
    ensures Run(ss, acts)
    ensures var s := ss[|ss| - 1]; 2 in s.creates && s.creates[2].Waiting? && s.creates[2].state !in s.callbacks
  {
    var s0 := State(map[], 0, map[], map[], map[], map[]);
    var s1 := s0.(creates := map[1 := Arrived("x")]);
    var s2 := s1.(creates := map[1 := Arrived("x"), 2 := Arrived("x")]);
    var s3 := s2.(callbacks := map["x" := 0], nextChannel := 1, madeFor := map[0 := "x"],
                  creates := map[1 := Waiting("x", 0), 2 := Arrived("x")]);
    var s4 := s3.(callbacks := map["x" := 1], nextChannel := 2, madeFor := map[0 := "x", 1 := "x"],
                  creates := map[1 := Waiting("x", 0), 2 := Waiting("x", 1)]);
    var timedOut := Refused("Callback timed out");
    var s5 := s4.(creates := map[1 := Woken("x", 0, timedOut, None), 2 := Waiting("x", 1)]);
    var s6 := s5.(callbacks := map[], creates := map[1 := Answered("x", 400, timedOut, None), 2 := Waiting("x", 1)]);
    assert s5.callbacks - {"x"} == map[];
    ss := [s0, s1, s2, s3, s4, s5, s6];
    acts := [CreateArrives(1, "x"), CreateArrives(2, "x"), Register(1), Register(2), TimeOut(1), Unregister(1)];
    forall k | 0 <= k < |acts| ensures StepAt(ss, acts, k) {
      assert k == 0 || k == 1 || k == 2 || k == 3 || k == 4 || k == 5;
    }
  }
}
