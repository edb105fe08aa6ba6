/** The four-phase pairing protocol, as a server that many clients talk to at once. */
module Pairing {
  import opened Wrappers
  import opened DeviceStore

  type Data = string // bytes: std::string and std::vector<uint8_t> alike

  const OTP_EXPIRE: int := 180

  /** The cryptography, uninterpreted. */
  datatype Crypto = Crypto(
    hash: Data -> Data,
    hex: Data -> string,
    fromHex: string -> Data,
    genKey: (Data, Data) -> Data,             // salt, pin
    encrypt: (Data, Data) -> Data,            // key, plaintext
    decrypt: (Data, Data) -> Data,            // key, ciphertext
    signature: Data -> Option<Data>,          // of a certificate; None when it cannot be parsed
    verify: (Data, Data, Data) -> bool,       // certificate, data, signature
    signAsServer: Data -> Data,
    serverCert: Data,
    serverSignature: Data)

  /** What AES in ECB mode without padding, and SHA-256, are known to do. */
  ghost predicate Sound(c: Crypto) {
    && (forall k, m :: |m| % 16 == 0 ==> c.decrypt(k, c.encrypt(k, m)) == m)
    && (forall m :: |c.hash(m)| == 32)
  }

  datatype Phase = NoPhase | GetServerCert | ClientChallenge | ServerChallengeResp

  datatype Session = Session(
    name: string,
    cert: Data,
    salt: string,
    key: Option<Data>,
    clientHash: Data,
    serverSecret: Data,
    serverChallenge: Data,
    lastPhase: Phase,
    waiting: bool) // holds a response to be written when the PIN comes

  datatype Otp = Otp(pin: string, passphrase: string, deviceName: string, created: int)

  datatype State = State(sessions: map<string, Session>, otp: Otp, devices: seq<Device>, freshState: bool, readable: bool)

  /** What happens to the server. Random values and the time are part of the event that draws them. */
  datatype Event =
    | Open(id: string, deviceName: string, cert: Data, salt: Option<string>, otpAuth: Option<string>, now: int, randomPin: string)
    | Challenge(id: string, challenge: Data, newSecret: Data, newChallenge: Data)
    | Answer(id: string, response: Data)
    | Secret(id: string, secret: Data, uuid: string)
    | Pin(pin: string, name: string, chosen: string) // chosen is the session std::begin happens to yield
    | RequestOtp(passphrase: string, otpDevice: string, newPin: string, now: int)
    | Unpair(uuid: string)

  datatype Reply =
    | Silent
    | Waiting
    | Threw
    | Failed
    | PlainCert(cert: Data)
    | ChallengeResponse(data: Data)
    | PairingSecret(data: Data)
    | Paired(ok: bool)
    | PinTaken(written: bool, reply: Reply)

  // ----- The four phases, on one session; None ends it -----

  function DerivedKey(c: Crypto, salt: string, pin: string): Data
    requires |salt| >= 32
  {
    c.genKey(c.fromHex(salt[..32]), pin)
  }

  function Keyed(c: Crypto, s: Session, pin: string): Option<Session> {
    if s.lastPhase != NoPhase || |s.salt| < 32 then None
    else Some(s.(lastPhase := GetServerCert, key := Some(DerivedKey(c, s.salt, pin))))
  }

  function Challenged(s: Session, newSecret: Data, newChallenge: Data): Option<Session> {
    if s.lastPhase != GetServerCert || s.key.None? then None
    else Some(s.(lastPhase := ClientChallenge, serverSecret := newSecret, serverChallenge := newChallenge))
  }

  function ChallengeReply(c: Crypto, key: Data, challenge: Data, newSecret: Data, newChallenge: Data): Data {
    c.encrypt(key, c.hash(c.decrypt(key, challenge) + c.serverSignature + newSecret) + newChallenge)
  }

  function Answered(c: Crypto, s: Session, response: Data): Option<Session> {
    if s.lastPhase != ClientChallenge || s.key.None? || s.serverSecret == [] then None
    else Some(s.(lastPhase := ServerChallengeResp, clientHash := c.decrypt(s.key.value, response)))
  }

  /** The fourth phase may look at the proof. */
  predicate Judges(c: Crypto, s: Session, secret: Data) {
    s.lastPhase == ServerChallengeResp && |secret| > 16 && c.signature(s.cert).Some?
  }

  /** The hash the client committed to and its signature both match. */
  predicate Proves(c: Crypto, s: Session, secret: Data)
    requires Judges(c, s, secret)
  {
    && c.hash(s.serverChallenge + c.signature(s.cert).value + secret[..16]) == s.clientHash
    && c.verify(s.cert, secret[..16], secret[16..])
  }

  function Bracketed(name: string): (r: string)
    ensures |r| == |name|
    ensures forall i :: 0 <= i < |name| ==> r[i] == if name[i] == '(' then '[' else if name[i] == ')' then ']' else name[i]
  {
    seq(|name|, i requires 0 <= i < |name| => if name[i] == '(' then '[' else if name[i] == ')' then ']' else name[i])
  }

  /** The device a successful session becomes; the first one of all gets every permission. */
  function NewDevice(s: Session, uuid: string, first: bool): Device {
    Device(Bracketed(s.name), s.cert, uuid, "", if first then PERM_ALL else PERM_DEFAULT, true, true, false, [], [])
  }

  // ----- The server -----

  function Update(st: State, id: string, s: Option<Session>): State {
    st.(sessions := if s.Some? then st.sessions[id := s.value] else st.sessions - {id})
  }

  function ReplyTo(s: Option<Session>, reply: Reply): Reply {
    if s.None? then Failed else reply
  }

  function Opened(st: State, ev: Event): Session
    requires ev.Open?
  {
    if ev.id in st.sessions then st.sessions[ev.id]
    else Session(if ev.deviceName == "roth" then "Legacy Moonlight Client" else ev.deviceName, ev.cert, "", None, [], [], [], NoPhase, false)
  }

  predicate OtpReady(otp: Otp, now: int) {
    otp.pin != "" && now - otp.created <= OTP_EXPIRE
  }

  predicate OtpMatches(c: Crypto, otp: Otp, ev: Event) {
    && ev.Open? && ev.salt.Some? && ev.otpAuth.Some?
    && OtpReady(otp, ev.now) && c.hex(c.hash(otp.pin + ev.salt.value + otp.passphrase)) == ev.otpAuth.value
  }

  function NoOtp(otp: Otp): Otp {
    Otp("", "", "", otp.created)
  }

  /** "getservercert": an id that is already pairing keeps its session, but takes the new salt. */
  function OpenStep(c: Crypto, st: State, ev: Event): (State, Reply)
    requires ev.Open?
  {
    var s := Opened(st, ev);
    if ev.salt.None? then (Update(st, ev.id, Some(s)), Threw)
    else
      var s := s.(salt := ev.salt.value);
      if ev.otpAuth.None? then (Update(st, ev.id, Some(s.(waiting := true))), Waiting)
      else if OtpMatches(c, st.otp, ev) then
        var k := Keyed(c, if st.otp.deviceName != "" then s.(name := st.otp.deviceName) else s, st.otp.pin);
        (Update(st.(otp := NoOtp(st.otp)), ev.id, k), ReplyTo(k, PlainCert(c.serverCert)))
      else
        var k := Keyed(c, s, ev.randomPin);
        (Update(if OtpReady(st.otp, ev.now) then st else st.(otp := NoOtp(st.otp)), ev.id, k), ReplyTo(k, PlainCert(c.serverCert)))
  }

  predicate FourDigits(pin: string) {
    |pin| == 4 && forall i :: 0 <= i < 4 ==> '0' <= pin[i] <= '9'
  }

  function PinStep(c: Crypto, st: State, ev: Event): (State, Reply)
    requires ev.Pin?
  {
    if ev.chosen !in st.sessions || !FourDigits(ev.pin) then (st, PinTaken(false, Silent))
    else
      var s := st.sessions[ev.chosen];
      var k := Keyed(c, s, ev.pin);
      var named := if k.None? then None else Some(k.value.(name := if ev.name != "" then ev.name else s.name, waiting := false));
      (Update(st, ev.chosen, named), PinTaken(s.waiting, ReplyTo(k, PlainCert(c.serverCert))))
  }

  function SecretStep(c: Crypto, st: State, ev: Event): (State, Reply)
    requires ev.Secret?
  {
    if ev.id !in st.sessions then (st, Failed)
    else
      var s := st.sessions[ev.id];
      if !Judges(c, s, ev.secret) then (Update(st, ev.id, None), Failed)
      else if !Proves(c, s, ev.secret) then (Update(st, ev.id, None), Paired(false))
      else
        var d := NewDevice(s, ev.uuid, st.devices == []);
        (Update(st, ev.id, None).(devices := Added(st.devices, d, !st.freshState && st.readable)), Paired(true))
  }

  function Step(c: Crypto, st: State, ev: Event): (State, Reply) {
    match ev
    case Open(_, _, _, _, _, _, _) => OpenStep(c, st, ev)
    case Challenge(id, challenge, newSecret, newChallenge) =>
      if id !in st.sessions then (st, Failed)
      else
        var s := Challenged(st.sessions[id], newSecret, newChallenge);
        (Update(st, id, s), if s.None? then Failed
                            else ChallengeResponse(ChallengeReply(c, s.value.key.value, challenge, newSecret, newChallenge)))
    case Answer(id, response) =>
      if id !in st.sessions then (st, Failed)
      else
        var s := Answered(c, st.sessions[id], response);
        (Update(st, id, s), if s.None? then Failed
                            else PairingSecret(s.value.serverSecret + c.signAsServer(s.value.serverSecret)))
    case Secret(_, _, _) => SecretStep(c, st, ev)
    case Pin(_, _, _) => PinStep(c, st, ev)
    case RequestOtp(passphrase, otpDevice, newPin, now) =>
      (if |passphrase| < 4 then st else st.(otp := Otp(newPin, passphrase, otpDevice, now)), Silent)
    case Unpair(uuid) => (st.(devices := Removed(st.devices, uuid, st.readable)), Silent)
  }

  // ----- Runs -----

  ghost predicate IsRun(c: Crypto, sts: seq<State>, evs: seq<Event>) {
    && |sts| == |evs| + 1
    && sts[0].sessions == map[]
    && forall i {:trigger evs[i]} :: 0 <= i < |evs| ==> sts[i + 1] == Step(c, sts[i], evs[i]).0
  }

  /** When a session was opened and when it went through each phase; a phase still to come is put at the present. */
  datatype Times = Times(begun: nat, keyed: nat, challenged: nat, answered: nat)

  function PhaseAt(t: Times, i: nat): Phase {
    if i <= t.keyed then NoPhase else if i <= t.challenged then GetServerCert else if i <= t.answered then ClientChallenge else ServerChallengeResp
  }

  /** The PIN an event puts in. */
  function PinOf(c: Crypto, st: State, ev: Event): string
    requires ev.Pin? || ev.Open?
  {
    if ev.Pin? then ev.pin else if UsesOtp(c, st, ev) then st.otp.pin else ev.randomPin
  }

  /** An opening that proves it knows the one-time PIN and its passphrase, at most three minutes after they were made. */
  predicate UsesOtp(c: Crypto, st: State, ev: Event) {
    && ev.Open? && ev.salt.Some? && ev.otpAuth.Some?
    && st.otp.pin != "" && ev.now - st.otp.created <= 180
    && c.hex(c.hash(st.otp.pin + ev.salt.value + st.otp.passphrase)) == ev.otpAuth.value
  }

  predicate Keys(ev: Event, id: string) {
    || (ev.Pin? && ev.chosen == id && |ev.pin| == 4 && forall i :: 0 <= i < 4 ==> ev.pin[i] in "0123456789")
    || (ev.Open? && ev.id == id && ev.otpAuth.Some?)
  }

  predicate InOrder(t: Times, n: nat) {
    && t.begun < n && t.begun <= t.keyed <= t.challenged <= t.answered <= n
    && (t.keyed < n ==> t.keyed < t.challenged) && (t.challenged < n ==> t.challenged < t.answered)
  }

  /** From its opening on, the session has been there in the phase these times say, with the same certificate. */
  ghost predicate Steady(sts: seq<State>, n: nat, id: string, cert: Data, t: Times) {
    && n < |sts|
    && forall i :: t.begun < i <= n ==>
         id in sts[i].sessions && sts[i].sessions[id].lastPhase == PhaseAt(t, i) && sts[i].sessions[id].cert == cert
  }

  /** Event k put in the PIN, and the key comes from it and the salt of that moment. */
  ghost predicate KeyFrom(c: Crypto, sts: seq<State>, evs: seq<Event>, k: nat, id: string, key: Option<Data>)
    requires |sts| == |evs| + 1
  {
    && k < |evs| && Keys(evs[k], id) && id in sts[k + 1].sessions && |sts[k + 1].sessions[id].salt| >= 32
    && key == Some(c.genKey(c.fromHex(sts[k + 1].sessions[id].salt[..32]), PinOf(c, sts[k], evs[k])))
  }

  ghost predicate ChallengeFrom(evs: seq<Event>, k: nat, id: string, s: Session) {
    && k < |evs| && evs[k].Challenge? && evs[k].id == id
    && s.serverSecret == evs[k].newSecret && s.serverChallenge == evs[k].newChallenge
  }

  ghost predicate AnswerFrom(c: Crypto, evs: seq<Event>, k: nat, id: string, s: Session) {
    k < |evs| && evs[k].Answer? && evs[k].id == id && s.key.Some? && s.clientHash == c.decrypt(s.key.value, evs[k].response)
  }

  /** Everything session `id` owes its present contents to, at state n. */
  ghost predicate Story(c: Crypto, sts: seq<State>, evs: seq<Event>, n: nat, id: string, t: Times) {
    && |sts| == |evs| + 1 && n < |sts| && id in sts[n].sessions && InOrder(t, n)
    && id !in sts[t.begun].sessions && evs[t.begun].Open? && evs[t.begun].id == id
    && Steady(sts, n, id, evs[t.begun].cert, t)
    && (t.keyed < n ==> KeyFrom(c, sts, evs, t.keyed, id, sts[n].sessions[id].key))
    && (t.challenged < n ==> ChallengeFrom(evs, t.challenged, id, sts[n].sessions[id]))
    && (t.answered < n ==> AnswerFrom(c, evs, t.answered, id, sts[n].sessions[id]))
  }

  ghost predicate SameCore(s: Session, s': Session) {
    s' == s.(name := s'.name, salt := s'.salt, waiting := s'.waiting)
  }

  /** s' is s after its first phase, with the PIN this event puts in and the salt the session then had. */
  ghost predicate FirstPhase(c: Crypto, st: State, ev: Event, id: string, s: Session, s': Session) {
    && Keys(ev, id) && s.lastPhase == NoPhase && |s'.salt| >= 32
    && SameCore(s.(lastPhase := GetServerCert, key := Some(DerivedKey(c, s'.salt, PinOf(c, st, ev)))), s')
  }

  /** What one event may do to a session that is there before and after it. */
  ghost predicate Moved(c: Crypto, st: State, ev: Event, id: string, s: Session, s': Session) {
    || SameCore(s, s')
    || FirstPhase(c, st, ev, id, s, s')
    || (ev.Challenge? && ev.id == id && Challenged(s, ev.newSecret, ev.newChallenge) == Some(s'))
    || (ev.Answer? && ev.id == id && Answered(c, s, ev.response) == Some(s'))
  }

  /** One event leaves a session alone, apart from name and salt, or takes it exactly one phase further. */
  lemma SessionStep(c: Crypto, st: State, ev: Event, id: string)
    requires id in st.sessions && id in Step(c, st, ev).0.sessions
    ensures Moved(c, st, ev, id, st.sessions[id], Step(c, st, ev).0.sessions[id])
  {
    hide DerivedKey, OtpMatches, OtpReady, FourDigits, Added, Removed, NewDevice, Proves, Judges;
    match ev
    case Open(_, _, _, _, _, _, _) =>
      if id == ev.id { OpenMoves(c, st, ev); } else { OpenOthers(c, st, ev, id); }
    case Pin(_, _, _) => PinMoves(c, st, ev, id);
    case Challenge(_, _, _, _) =>
    case Answer(_, _) =>
    case Secret(_, _, _) =>
    case RequestOtp(_, _, _, _) =>
    case Unpair(_) =>
  }

  lemma UpdateAt(st: State, id: string, s: Option<Session>)
    ensures forall i :: i in Update(st, id, s).sessions <==> (i in st.sessions && i != id) || (i == id && s.Some?)
    ensures s.Some? ==> Update(st, id, s).sessions[id] == s.value
    ensures forall i :: i in st.sessions && i != id ==> Update(st, id, s).sessions[i] == st.sessions[i]
  {
  }

  lemma OpenMoves(c: Crypto, st: State, ev: Event)
    requires ev.Open? && ev.id in OpenStep(c, st, ev).0.sessions
    ensures var s, s' := Opened(st, ev), OpenStep(c, st, ev).0.sessions[ev.id];
            SameCore(s, s') || FirstPhase(c, st, ev, ev.id, s, s')
  {
    MatchesUses(c, st, ev);
    hide DerivedKey, OtpMatches, UsesOtp, OtpReady, Challenged, Answered, Update, ReplyTo, NoOtp;
    var id, s := ev.id, Opened(st, ev);
    var st' := if OtpMatches(c, st.otp, ev) || !OtpReady(st.otp, ev.now) then st.(otp := NoOtp(st.otp)) else st;
    UpdateAt(st, id, Some(s));
    if ev.salt.Some? {
      var s' := s.(salt := ev.salt.value);
      UpdateAt(st, id, Some(s'.(waiting := true)));
      UpdateAt(st', id, Keyed(c, if st.otp.deviceName != "" then s'.(name := st.otp.deviceName) else s', st.otp.pin));
      UpdateAt(st', id, Keyed(c, s', ev.randomPin));
    }
  }

  lemma OpenOthers(c: Crypto, st: State, ev: Event, id: string)
    requires ev.Open? && id != ev.id
    ensures var st' := OpenStep(c, st, ev).0;
      (id in st'.sessions <==> id in st.sessions) && (id in st.sessions ==> st'.sessions[id] == st.sessions[id])
  {
    hide OtpMatches, OtpReady, Keyed, Update, ReplyTo;
    UpdatesOne(st, ev.id, id);
  }

  lemma PinMoves(c: Crypto, st: State, ev: Event, id: string)
    requires ev.Pin? && id in st.sessions && id in PinStep(c, st, ev).0.sessions
    ensures Moved(c, st, ev, id, st.sessions[id], PinStep(c, st, ev).0.sessions[id])
  {
    DigitsAre(ev.pin);
    hide DerivedKey, FourDigits, Challenged, Answered;
  }

  lemma MatchesUses(c: Crypto, st: State, ev: Event)
    ensures OtpMatches(c, st.otp, ev) <==> UsesOtp(c, st, ev)
  {
  }

  lemma DigitsAre(pin: string)
    ensures FourDigits(pin) <==> |pin| == 4 && forall i :: 0 <= i < 4 ==> pin[i] in "0123456789"
  {
    assert forall d: char :: '0' <= d <= '9' <==> d in "0123456789";
  }

  /** Only an opening request makes a session. */
  lemma SessionBorn(c: Crypto, st: State, ev: Event, id: string)
    requires id !in st.sessions && id in Step(c, st, ev).0.sessions
    ensures ev.Open? && ev.id == id
    ensures var s, s' := Opened(st, ev), Step(c, st, ev).0.sessions[id];
            s'.cert == ev.cert && s.lastPhase == NoPhase && (SameCore(s, s') || FirstPhase(c, st, ev, id, s, s'))
  {
    hide DerivedKey, OtpMatches, OtpReady, FourDigits, Added, Removed, NewDevice, Proves, Judges, Challenged, Answered, Keyed, OpenStep, ReplyTo;
    if ev.Open? && ev.id == id {
      OpenMoves(c, st, ev);
    } else if ev.Open? {
      OpenOthers(c, st, ev, id);
    }
  }

  /** The times of a session's story one event later. */
  function Later(t: Times, n: nat, s: Session, s': Session): Times {
    if s.lastPhase == s'.lastPhase then Times(t.begun, if t.keyed == n then n + 1 else t.keyed,
                                              if t.challenged == n then n + 1 else t.challenged, if t.answered == n then n + 1 else t.answered)
    else match s'.lastPhase
      case ServerChallengeResp => Times(t.begun, t.keyed, t.challenged, n)
      case ClientChallenge => Times(t.begun, t.keyed, n, n + 1)
      case _ => Times(t.begun, n, n + 1, n + 1)
  }

  lemma StaysSteady(sts: seq<State>, n: nat, id: string, cert: Data, t: Times, t': Times)
    requires InOrder(t, n) && Steady(sts, n, id, cert, t) && n + 1 < |sts| && id in sts[n + 1].sessions
    requires var s, s' := sts[n].sessions[id], sts[n + 1].sessions[id];
             s.cert == s'.cert && t' == Later(t, n, s, s')
             && match s'.lastPhase
                case NoPhase => s.lastPhase == NoPhase
                case GetServerCert => s.lastPhase == NoPhase || s.lastPhase == GetServerCert
                case ClientChallenge => s.lastPhase == GetServerCert || s.lastPhase == ClientChallenge
                case ServerChallengeResp => s.lastPhase == ClientChallenge || s.lastPhase == ServerChallengeResp
    ensures InOrder(t', n + 1) && Steady(sts, n + 1, id, cert, t') && t'.begun == t.begun
  {
    assert sts[n].sessions[id].lastPhase == PhaseAt(t, n);
    assert PhaseAt(t', n + 1) == sts[n + 1].sessions[id].lastPhase;
    forall i | t.begun < i <= n
      ensures PhaseAt(t', i) == PhaseAt(t, i)
    {
    }
  }

  /** The story of a session one event later. */
  lemma StoryStep(c: Crypto, sts: seq<State>, evs: seq<Event>, n: nat, id: string, t: Times) returns (t': Times)
    requires IsRun(c, sts, evs) && n < |evs| && Story(c, sts, evs, n, id, t) && id in sts[n + 1].sessions
    ensures Story(c, sts, evs, n + 1, id, t')
  {
    hide Step, PinOf, Keys;
    var s, s' := sts[n].sessions[id], sts[n + 1].sessions[id];
    SessionStep(c, sts[n], evs[n], id);
    t' := Later(t, n, s, s');
    assert s.lastPhase == PhaseAt(t, n);
    StaysSteady(sts, n, id, evs[t.begun].cert, t, t');
    hide Steady;
    assert t'.keyed < n + 1 ==> KeyFrom(c, sts, evs, t'.keyed, id, s'.key);
    assert t'.challenged < n + 1 ==> ChallengeFrom(evs, t'.challenged, id, s');
    assert t'.answered < n + 1 ==> AnswerFrom(c, evs, t'.answered, id, s');
  }

  /** Every session there is has such a story. */
  lemma {:induction false} EverySessionHasAStory(c: Crypto, sts: seq<State>, evs: seq<Event>, n: nat, id: string) returns (t: Times)
    requires IsRun(c, sts, evs) && n <= |evs| && id in sts[n].sessions
    ensures Story(c, sts, evs, n, id, t)
  {
    hide Step, Story;
    if id in sts[n - 1].sessions {
      var t0 := EverySessionHasAStory(c, sts, evs, n - 1, id);
      t := StoryStep(c, sts, evs, n - 1, id, t0);
    } else {
      t := StoryBegins(c, sts, evs, n - 1, id);
    }
  }

  lemma StoryBegins(c: Crypto, sts: seq<State>, evs: seq<Event>, n: nat, id: string) returns (t: Times)
    requires IsRun(c, sts, evs) && n < |evs| && id !in sts[n].sessions && id in sts[n + 1].sessions
    ensures Story(c, sts, evs, n + 1, id, t)
  {
    hide Step;
    SessionBorn(c, sts[n], evs[n], id);
    t := if SameCore(Opened(sts[n], evs[n]), sts[n + 1].sessions[id]) then Times(n, n + 1, n + 1, n + 1) else Times(n, n, n + 1, n + 1);
  }

  // ----- Safety -----

  /** Event n let session `id` in: all four phases happened, once each and in order, under the one key derived from the salt
      and PIN of the first, and the hash and the signature match. */
  ghost predicate ProperlyPaired(c: Crypto, sts: seq<State>, evs: seq<Event>, n: nat, id: string, t: Times) {
    && n < |evs| && evs[n].Secret? && evs[n].id == id
    && Story(c, sts, evs, n, id, t) && t.begun <= t.keyed < t.challenged < t.answered < n
    && var s, secret := sts[n].sessions[id], evs[n].secret;
    && KeyFrom(c, sts, evs, t.keyed, id, s.key)
    && |secret| > 16 && c.signature(evs[t.begun].cert).Some?
    && c.hash(evs[t.challenged].newChallenge + c.signature(evs[t.begun].cert).value + secret[..16])
       == c.decrypt(s.key.value, evs[t.answered].response)
    && c.verify(evs[t.begun].cert, secret[..16], secret[16..])
  }

  /** A certificate joins the devices in no other way, whatever the interleaving of requests and PINs. */
  lemma AddedOnlyByPairing(c: Crypto, sts: seq<State>, evs: seq<Event>, n: nat, cert: Data) returns (id: string, t: Times)
    requires IsRun(c, sts, evs) && n < |evs|
    requires cert in Certs(sts[n + 1].devices) && cert !in Certs(sts[n].devices)
    ensures ProperlyPaired(c, sts, evs, n, id, t) && evs[t.begun].cert == cert
    ensures id !in sts[n + 1].sessions
  {
    GrantStep(c, sts[n], evs[n], cert);
    id := evs[n].id;
    t := EverySessionHasAStory(c, sts, evs, n, id);
    hide Step;
    var s := sts[n].sessions[id];
    assert Steady(sts, n, id, evs[t.begun].cert, t) && s.lastPhase == PhaseAt(t, n);
  }

  /** What a single event must be to add a certificate. */
  lemma GrantStep(c: Crypto, st: State, ev: Event, cert: Data)
    requires cert in Certs(Step(c, st, ev).0.devices) && cert !in Certs(st.devices)
    ensures ev.Secret? && ev.id in st.sessions && ev.id !in Step(c, st, ev).0.sessions
    ensures var s := st.sessions[ev.id]; s.cert == cert && Judges(c, s, ev.secret) && Proves(c, s, ev.secret)
  {
    hide DerivedKey, OtpMatches, OtpReady, FourDigits, Challenged, Answered, Keyed, Certs;
  }

  /** What the device added by event n may do and is called: the first of all gets every permission, later ones may view and
      list; its name is the session's with square brackets for round ones, numbered among the devices of that name if state is
      kept. The other devices stay as they are, or as saving and loading leaves them. */
  lemma AddedWith(c: Crypto, sts: seq<State>, evs: seq<Event>, n: nat, cert: Data) returns (shown: string)
    requires IsRun(c, sts, evs) && n < |evs|
    requires cert in Certs(sts[n + 1].devices) && cert !in Certs(sts[n].devices)
    ensures evs[n].Secret? && evs[n].id in sts[n].sessions
    ensures var name := sts[n].sessions[evs[n].id].name;
      && |shown| == |name|
      && forall i :: 0 <= i < |name| ==> shown[i] == match name[i] case '(' => '[' case ')' => ']' case other => other
    ensures var before, after := sts[n].devices, sts[n + 1].devices; var last := |after| - 1;
      && last >= 0 && after[..last] == (if sts[n].freshState || !sts[n].readable then before else Normalized(before))
      && cert !in Certs(after[..last]) && after[last].cert == cert
      && after[last].perm == (if before == [] then 0x071F_1F00 else 0x0300_0000)
      && after[last].uuid == evs[n].uuid && after[last].displayMode == ""
      && after[last].enableLegacyOrdering && after[last].allowClientCommands && !after[last].alwaysUseVirtualDisplay
      && after[last].doCmds == [] && after[last].undoCmds == []
      && if sts[n].freshState || !sts[n].readable then after[last].name == shown
         else Numbered(after[last].name, shown, |SharingBase(after[..last], shown)|)
  {
    var st, ev := sts[n], evs[n];
    GrantStep(c, st, ev, cert);
    var s := st.sessions[ev.id];
    shown := Bracketed(s.name);
    GrantedIs(c, st, ev);
    assert sts[n + 1] == Step(c, st, ev).0;
    hide *;
    NewIsLast(st.devices, s, ev.uuid, !st.freshState && st.readable);
    ShownSquare(s.name);
  }

  lemma ShownSquare(name: string)
    ensures |Bracketed(name)| == |name|
    ensures forall i :: 0 <= i < |name| ==> Bracketed(name)[i] == match name[i] case '(' => '[' case ')' => ']' case other => other
  {
  }

  lemma NewIsLast(ds: seq<Device>, s: Session, uuid: string, kept: bool)
    requires s.cert !in Certs(ds)
    ensures var after := Added(ds, NewDevice(s, uuid, ds == []), kept); var last := |after| - 1;
      && last >= 0 && after[..last] == (if kept then Normalized(ds) else ds)
      && s.cert !in Certs(after[..last]) && after[last].cert == s.cert
      && after[last].perm == (if ds == [] then 0x071F_1F00 else 0x0300_0000)
      && after[last].uuid == uuid && after[last].displayMode == ""
      && after[last].enableLegacyOrdering && after[last].allowClientCommands && !after[last].alwaysUseVirtualDisplay
      && after[last].doCmds == [] && after[last].undoCmds == []
      && if !kept then after[last].name == Bracketed(s.name)
         else Numbered(after[last].name, Bracketed(s.name), |SharingBase(after[..last], Bracketed(s.name))|)
  {
    hide Certs, Normalized, Numbered, SharingBase, Bracketed, BaseName;
    var d := NewDevice(s, uuid, ds == []);
    NoRoundBracket(s.name);
    NormalizedIsNormal(ds);
    assert (ds + [d])[..|ds|] == ds;
    if kept {
      NormalizedAppend(ds, d);
    }
  }

  lemma GrantedIs(c: Crypto, st: State, ev: Event)
    requires ev.Secret? && ev.id in st.sessions && Judges(c, st.sessions[ev.id], ev.secret) && Proves(c, st.sessions[ev.id], ev.secret)
    ensures Step(c, st, ev).0.devices
            == Added(st.devices, NewDevice(st.sessions[ev.id], ev.uuid, st.devices == []), !st.freshState && st.readable)
  {
    hide Judges, Proves, Added;
  }

  lemma NoRoundBracket(name: string)
    ensures BaseName(Bracketed(name)) == Bracketed(name)
  {
    var shown := Bracketed(name);
    BaseNameExactly(shown);
    SecondOfTail(shown, |BaseName(shown)|);
  }

  lemma SecondOfTail(name: string, i: nat)
    requires i <= |name|
    ensures " (" <= name[i..] ==> '(' in name
  {
    if " (" <= name[i..] {
      assert name[i..][1] == '(';
    }
  }

  /** Over a whole run: a certificate that was not there at the start was added by some event, and properly. */
  lemma {:induction false} EveryDevicePaired(c: Crypto, sts: seq<State>, evs: seq<Event>, n: nat, cert: Data)
    returns (k: nat, id: string, t: Times)
    requires IsRun(c, sts, evs) && n <= |evs|
    requires cert in Certs(sts[n].devices) && cert !in Certs(sts[0].devices)
    ensures k < n && ProperlyPaired(c, sts, evs, k, id, t) && evs[t.begun].cert == cert
  {
    hide Step, ProperlyPaired;
    if cert in Certs(sts[n - 1].devices) {
      k, id, t := EveryDevicePaired(c, sts, evs, n - 1, cert);
    } else {
      k := n - 1;
      id, t := AddedOnlyByPairing(c, sts, evs, k, cert);
    }
  }

  /** No use of an ended session: two pairings under one id have nothing in common, not even the opening request. */
  lemma NothingReused(c: Crypto, sts: seq<State>, evs: seq<Event>, n: nat, t: Times, n': nat, t': Times, id: string)
    requires IsRun(c, sts, evs) && n < n'
    requires ProperlyPaired(c, sts, evs, n, id, t) && ProperlyPaired(c, sts, evs, n', id, t')
    ensures n < t'.begun
  {
    SecretEnds(c, sts[n], evs[n]);
    hide Step;
    assert Steady(sts, n', id, evs[t'.begun].cert, t');
  }

  /** The fourth phase ends the session whatever its outcome. */
  lemma SecretEnds(c: Crypto, st: State, ev: Event)
    requires ev.Secret?
    ensures ev.id !in Step(c, st, ev).0.sessions
    ensures Step(c, st, ev).1 == Failed || Step(c, st, ev).1.Paired?
  {
    hide Judges, Proves, Added;
  }

  /** So does every phase asked for out of turn. */
  lemma OutOfTurnEnds(c: Crypto, st: State, ev: Event, id: string)
    requires id in st.sessions
    requires var phase := st.sessions[id].lastPhase;
             || (ev.Open? && ev.id == id && ev.salt.Some? && ev.otpAuth.Some? && phase != NoPhase)
             || (ev.Pin? && ev.chosen == id && FourDigits(ev.pin) && phase != NoPhase)
             || (ev.Challenge? && ev.id == id && phase != GetServerCert)
             || (ev.Answer? && ev.id == id && phase != ClientChallenge)
             || (ev.Secret? && ev.id == id && phase != ServerChallengeResp)
    ensures id !in Step(c, st, ev).0.sessions && Step(c, st, ev).0.devices == st.devices
    ensures Step(c, st, ev).1 == if ev.Pin? then PinTaken(st.sessions[id].waiting, Failed) else Failed
  {
    hide DerivedKey, FourDigits, Proves, Added, Removed;
  }

  // ----- The one-time PIN and the name -----

  predicate RequestsOtp(ev: Event) {
    ev.RequestOtp? && |ev.passphrase| >= 4
  }

  /** An opening finds the one-time PIN too old. */
  predicate FindsExpired(st: State, ev: Event) {
    ev.Open? && ev.salt.Some? && ev.otpAuth.Some? && ev.now - st.otp.created > 180
  }

  /** Only a request makes a one-time PIN, and only its use, or an opening that finds it too old, clears it. */
  lemma OtpStep(c: Crypto, st: State, ev: Event)
    ensures var otp' := Step(c, st, ev).0.otp;
      if RequestsOtp(ev) then otp' == Otp(ev.newPin, ev.passphrase, ev.otpDevice, ev.now)
      else if UsesOtp(c, st, ev) || FindsExpired(st, ev) then otp'.pin == ""
      else otp' == st.otp || (st.otp.pin == "" && otp'.pin == "")
  {
    hide Keyed, Challenged, Answered, Judges, Proves, Added, Removed, FourDigits, NewDevice, ReplyTo, ChallengeReply;
  }

  /** A one-time PIN comes from the last request, and was neither used nor found too old since. */
  lemma {:induction false} OtpFromRequest(c: Crypto, sts: seq<State>, evs: seq<Event>, n: nat) returns (k: nat)
    requires IsRun(c, sts, evs) && n <= |evs| && sts[0].otp.pin == "" && sts[n].otp.pin != ""
    ensures k < n && RequestsOtp(evs[k])
    ensures sts[n].otp == Otp(evs[k].newPin, evs[k].passphrase, evs[k].otpDevice, evs[k].now)
    ensures forall j :: k < j < n ==> !RequestsOtp(evs[j]) && !UsesOtp(c, sts[j], evs[j]) && !FindsExpired(sts[j], evs[j])
  {
    hide Step, UsesOtp, FindsExpired, RequestsOtp;
    OtpStep(c, sts[n - 1], evs[n - 1]);
    if RequestsOtp(evs[n - 1]) {
      k := n - 1;
      IsRequest(evs[k]);
    } else {
      k := OtpFromRequest(c, sts, evs, n - 1);
    }
  }

  lemma IsRequest(ev: Event)
    requires RequestsOtp(ev)
    ensures ev.RequestOtp?
  {
  }

  /** A one-time PIN opens once, within three minutes of its request: between two openings that use one there is a new request. */
  lemma OtpOpensOnce(c: Crypto, sts: seq<State>, evs: seq<Event>, m: nat, n: nat) returns (k: nat)
    requires IsRun(c, sts, evs) && m < n < |evs| && sts[0].otp.pin == ""
    requires UsesOtp(c, sts[m], evs[m]) && UsesOtp(c, sts[n], evs[n])
    ensures m < k < n && RequestsOtp(evs[k]) && evs[n].now - evs[k].now <= 180
    ensures c.hex(c.hash(evs[k].newPin + evs[n].salt.value + evs[k].passphrase)) == evs[n].otpAuth.value
  {
    hide Step;
    k := OtpFromRequest(c, sts, evs, n);
  }

  /** The name an event gives session `id`. */
  function NameGiven(c: Crypto, st: State, ev: Event, id: string): Option<string> {
    if ev.Pin? && Keys(ev, id) && ev.name != "" then Some(ev.name)
    else if ev.Open? && ev.id == id && UsesOtp(c, st, ev) && st.otp.deviceName != "" then Some(st.otp.deviceName)
    else if ev.Open? && ev.id == id && id !in st.sessions then
      Some(if ev.deviceName == "roth" then "Legacy Moonlight Client" else ev.deviceName)
    else None
  }

  lemma NameStep(c: Crypto, st: State, ev: Event, id: string)
    requires id in Step(c, st, ev).0.sessions
    ensures var name := Step(c, st, ev).0.sessions[id].name;
      match NameGiven(c, st, ev, id)
      case Some(given) => name == given
      case None => id in st.sessions && name == st.sessions[id].name
  {
    hide DerivedKey, Added, Removed, NewDevice, Proves, Judges, ReplyTo, ChallengeReply,
      OtpMatches, UsesOtp, OtpReady, FourDigits, Keyed, Keys, OpenStep, PinStep;
    match ev
    case Open(_, _, _, _, _, _, _) => OpenNames(c, st, ev, id);
    case Pin(_, _, _) => PinNames(c, st, ev, id);
    case Challenge(_, _, _, _) =>
    case Answer(_, _) =>
    case Secret(_, _, _) =>
    case RequestOtp(_, _, _, _) =>
    case Unpair(_) =>
  }

  lemma OpenNames(c: Crypto, st: State, ev: Event, id: string)
    requires ev.Open? && id in OpenStep(c, st, ev).0.sessions
    ensures var name := OpenStep(c, st, ev).0.sessions[id].name;
      match NameGiven(c, st, ev, id)
      case Some(given) => name == given
      case None => id in st.sessions && name == st.sessions[id].name
  {
    hide DerivedKey, OtpMatches, UsesOtp, OtpReady, ReplyTo;
    MatchesUses(c, st, ev);
    if id != ev.id {
      OpenOthers(c, st, ev, id);
    } else {
      UsesSalted(c, st, ev);
    }
  }

  lemma UsesSalted(c: Crypto, st: State, ev: Event)
    ensures UsesOtp(c, st, ev) ==> ev.Open? && ev.salt.Some? && ev.otpAuth.Some?
  {
  }

  lemma PinNames(c: Crypto, st: State, ev: Event, id: string)
    requires ev.Pin? && id in PinStep(c, st, ev).0.sessions
    ensures var name := PinStep(c, st, ev).0.sessions[id].name;
      match NameGiven(c, st, ev, id)
      case Some(given) => name == given
      case None => id in st.sessions && name == st.sessions[id].name
  {
    hide DerivedKey, FourDigits, ReplyTo;
    DigitsAre(ev.pin);
  }

  /** A session bears the name last given to it since it was opened. */
  lemma {:induction false} NamedBy(c: Crypto, sts: seq<State>, evs: seq<Event>, n: nat, id: string) returns (k: nat)
    requires IsRun(c, sts, evs) && n <= |evs| && id in sts[n].sessions
    ensures k < n && NameGiven(c, sts[k], evs[k], id) == Some(sts[n].sessions[id].name)
    ensures forall j :: k < j < n ==> id in sts[j].sessions && NameGiven(c, sts[j], evs[j], id) == None
  {
    hide Step, NameGiven;
    NameStep(c, sts[n - 1], evs[n - 1], id);
    if NameGiven(c, sts[n - 1], evs[n - 1], id).Some? {
      k := n - 1;
    } else {
      k := NamedBy(c, sts, evs, n - 1, id);
    }
  }

  /** A PIN that is not four digits, one for no session, and requests for no session change nothing. */
  lemma Unheeded(c: Crypto, st: State, ev: Event)
    requires || (ev.Pin? && (ev.chosen !in st.sessions || |ev.pin| != 4 || exists i :: 0 <= i < 4 && ev.pin[i] !in "0123456789"))
             || ((ev.Challenge? || ev.Answer? || ev.Secret?) && ev.id !in st.sessions)
    ensures Step(c, st, ev) == (st, if ev.Pin? then PinTaken(false, Silent) else Failed)
  {
    hide Keyed, Challenged, Answered, Judges, Proves, Added;
  }

  // ----- Completion -----

  predicate Concerns(ev: Event, id: string) {
    match ev
    case Open(i, _, _, _, _, _, _) => i == id
    case Challenge(i, _, _, _) => i == id
    case Answer(i, _) => i == id
    case Secret(i, _, _) => i == id
    case Pin(_, _, chosen) => chosen == id
    case _ => false
  }

  lemma OthersLeaveAlone(c: Crypto, st: State, ev: Event, id: string)
    requires !Concerns(ev, id)
    ensures id in Step(c, st, ev).0.sessions <==> id in st.sessions
    ensures id in st.sessions ==> Step(c, st, ev).0.sessions[id] == st.sessions[id]
  {
    hide Update, OtpMatches, OtpReady, FourDigits, Challenged, Answered, Keyed, Judges, Proves, Added, Removed, ReplyTo, NewDevice, PinStep, OpenStep;
    match ev
    case Pin(_, _, chosen) => PinLeavesAlone(c, st, ev, id);
    case Open(_, _, _, _, _, _, _) => OpenOthers(c, st, ev, id);
    case Unpair(_) =>
    case RequestOtp(_, _, _, _) =>
    case _ => UpdatesOne(st, ev.id, id);
  }

  lemma PinLeavesAlone(c: Crypto, st: State, ev: Event, id: string)
    requires ev.Pin? && ev.chosen != id
    ensures var st' := PinStep(c, st, ev).0;
      (id in st'.sessions <==> id in st.sessions) && (id in st.sessions ==> st'.sessions[id] == st.sessions[id])
  {
    hide Update, FourDigits, Keyed, ReplyTo;
    UpdatesOne(st, ev.chosen, id);
  }

  lemma UpdatesOne(st: State, one: string, id: string)
    requires one != id
    ensures forall st0: State, s {:trigger Update(st0, one, s)} :: st0.sessions == st.sessions ==>
      && (id in Update(st0, one, s).sessions <==> id in st.sessions)
      && (id in st.sessions ==> Update(st0, one, s).sessions[id] == st.sessions[id])
  {
  }

  ghost predicate Undisturbed(evs: seq<Event>, i: nat, j: nat, id: string) {
    forall k :: i < k < j && k < |evs| ==> !Concerns(evs[k], id)
  }

  lemma {:induction false} Kept(c: Crypto, sts: seq<State>, evs: seq<Event>, i: nat, j: nat, id: string)
    requires IsRun(c, sts, evs) && i < j <= |evs| && Undisturbed(evs, i, j, id) && id in sts[i + 1].sessions
    ensures id in sts[j].sessions && sts[j].sessions[id] == sts[i + 1].sessions[id]
  {
    hide Step;
    if i + 1 < j {
      Kept(c, sts, evs, i, j - 1, id);
      OthersLeaveAlone(c, sts[j - 1], evs[j - 1], id);
    }
  }

  lemma {:induction false} StaysAbsent(c: Crypto, sts: seq<State>, evs: seq<Event>, i: nat, j: nat, id: string)
    requires IsRun(c, sts, evs) && i < j <= |evs| && Undisturbed(evs, i, j, id) && id !in sts[i + 1].sessions
    ensures id !in sts[j].sessions
  {
    hide Step;
    if i + 1 < j {
      StaysAbsent(c, sts, evs, i, j - 1, id);
      OthersLeaveAlone(c, sts[j - 1], evs[j - 1], id);
    }
  }

  /** A client that follows the protocol, with the keys it uses. */
  datatype Client = Client(id: string, cert: Data, salt: string, pin: string, challenge: Data, secret: Data, sign: Data -> Data)

  ghost predicate HonestClient(c: Crypto, cl: Client) {
    && |cl.salt| >= 32 && |cl.challenge| == 16 && |cl.secret| == 16
    && c.signature(cl.cert).Some?
    && forall m :: |cl.sign(m)| > 0 && c.verify(cl.cert, m, cl.sign(m))
  }

  function ClientKey(c: Crypto, cl: Client): Data
    requires |cl.salt| >= 32
  {
    c.genKey(c.fromHex(cl.salt[..32]), cl.pin)
  }

  /** What the client answers to a challenge response: a hash over the second part of what it decrypts. */
  function ClientAnswer(c: Crypto, cl: Client, reply: Reply): Data
    requires |cl.salt| >= 32 && c.signature(cl.cert).Some?
  {
    var plain := if reply.ChallengeResponse? then c.decrypt(ClientKey(c, cl), reply.data) else [];
    var challenge := if |plain| > 32 then plain[32..] else [];
    c.encrypt(ClientKey(c, cl), c.hash(challenge + c.signature(cl.cert).value + cl.secret))
  }

  /** Behind event b, requests d, e and f are this client's phases 2, 3 and 4; whatever comes between them is about other
      sessions. */
  ghost predicate HonestPhases(c: Crypto, sts: seq<State>, evs: seq<Event>, cl: Client, b: nat, d: nat, e: nat, f: nat) {
    && IsRun(c, sts, evs) && b < d < e < f < |evs| && HonestClient(c, cl)
    && Undisturbed(evs, b, d, cl.id)
    && evs[d].Challenge? && evs[d].id == cl.id && evs[d].challenge == c.encrypt(ClientKey(c, cl), cl.challenge)
    && |evs[d].newSecret| == 16 && |evs[d].newChallenge| == 16
    && Undisturbed(evs, d, e, cl.id)
    && evs[e].Answer? && evs[e].id == cl.id && evs[e].response == ClientAnswer(c, cl, Step(c, sts[d], evs[d]).1)
    && Undisturbed(evs, e, f, cl.id)
    && evs[f].Secret? && evs[f].id == cl.id && evs[f].secret == cl.secret + cl.sign(cl.secret)
  }

  /** Request a opens, and the user types the PIN for it at b. */
  ghost predicate HonestRun(c: Crypto, sts: seq<State>, evs: seq<Event>, cl: Client, a: nat, b: nat, d: nat, e: nat, f: nat) {
    && HonestPhases(c, sts, evs, cl, b, d, e, f) && a < b
    && evs[a].Open? && evs[a].id == cl.id && evs[a].cert == cl.cert && evs[a].salt == Some(cl.salt) && evs[a].otpAuth.None?
    && Undisturbed(evs, a, b, cl.id)
    && evs[b].Pin? && evs[b].chosen == cl.id && evs[b].pin == cl.pin && FourDigits(cl.pin)
  }

  /** Request b opens with the one-time PIN. */
  ghost predicate HonestOtpRun(c: Crypto, sts: seq<State>, evs: seq<Event>, cl: Client, b: nat, d: nat, e: nat, f: nat) {
    && HonestPhases(c, sts, evs, cl, b, d, e, f)
    && evs[b].Open? && evs[b].id == cl.id && evs[b].cert == cl.cert && evs[b].salt == Some(cl.salt)
    && UsesOtp(c, sts[b], evs[b]) && sts[b].otp.pin == cl.pin
  }

  /** No session is left over under the client's id, but perhaps one with its certificate that never got a PIN. */
  predicate WayClear(st: State, cl: Client) {
    cl.id in st.sessions ==> st.sessions[cl.id].lastPhase == NoPhase && st.sessions[cl.id].cert == cl.cert
  }

  /** The client is paired, and its own checks of the server succeed as well: the challenge response holds the hash the client can
      recompute, and the pairing secret the server's signature. */
  ghost predicate LetIn(c: Crypto, sts: seq<State>, evs: seq<Event>, cl: Client, d: nat, e: nat, f: nat)
    requires IsRun(c, sts, evs) && d < e < f < |evs| && |cl.salt| >= 32 && evs[d].Challenge?
  {
    var serverSecret, reply := evs[d].newSecret, Step(c, sts[d], evs[d]).1;
    && Step(c, sts[f], evs[f]).1 == Paired(true) && cl.cert in Certs(sts[f + 1].devices)
    && Step(c, sts[e], evs[e]).1 == PairingSecret(serverSecret + c.signAsServer(serverSecret))
    && reply.ChallengeResponse?
    && var plain := c.decrypt(ClientKey(c, cl), reply.data);
       |plain| == 48 && plain[..32] == c.hash(cl.challenge + c.serverSignature + serverSecret)
  }

  /** All that the client asks for is refused, and nobody is added. */
  ghost predicate Refused(c: Crypto, sts: seq<State>, evs: seq<Event>, d: nat, e: nat, f: nat)
    requires IsRun(c, sts, evs) && d < e < f < |evs|
  {
    && Step(c, sts[d], evs[d]).1 == Failed && Step(c, sts[e], evs[e]).1 == Failed && Step(c, sts[f], evs[f]).1 == Failed
    && sts[f + 1].devices == sts[f].devices
  }

  /** An honest client with the PIN the user types is let in if the way was clear when it opened, whatever others do meanwhile. If
      a session past its first phase was left over under its id, it is refused; if one with another certificate, its own is not
      added. So, for a client not paired yet or whose id is bound to its certificate, the way being clear is the exact condition. */
  lemma HonestClientCompletes(c: Crypto, sts: seq<State>, evs: seq<Event>, cl: Client, a: nat, b: nat, d: nat, e: nat, f: nat)
    requires Sound(c) && HonestRun(c, sts, evs, cl, a, b, d, e, f)
    ensures WayClear(sts[a], cl) ==> LetIn(c, sts, evs, cl, d, e, f) && Step(c, sts[b], evs[b]).1 == PinTaken(true, PlainCert(c.serverCert))
    ensures cl.id in sts[a].sessions && sts[a].sessions[cl.id].lastPhase != NoPhase ==>
      Refused(c, sts, evs, d, e, f) && Step(c, sts[b], evs[b]).1 == PinTaken(true, Failed)
    ensures !WayClear(sts[a], cl) && cl.cert !in Certs(sts[f].devices) ==> cl.cert !in Certs(sts[f + 1].devices)
    ensures cl.cert !in Certs(sts[f].devices) || (cl.id in sts[a].sessions ==> sts[a].sessions[cl.id].cert == cl.cert) ==>
      (LetIn(c, sts, evs, cl, d, e, f) <==> WayClear(sts[a], cl))
  {
    assert |cl.salt| >= 32;
    hide Sound, Step, OtpMatches, FourDigits, DerivedKey, HonestClient, Certs;
    var id := cl.id;
    if WayClear(sts[a], cl) {
      OpensSession(c, sts[a], evs[a]);
      Kept(c, sts, evs, a, b, id);
      TakesPin(c, sts[b], evs[b]);
      PhasesComplete(c, sts, evs, cl, b, d, e, f);
    } else {
      if sts[a].sessions[id].lastPhase != NoPhase {
        LateOpening(c, sts[a], evs[a]);
        Kept(c, sts, evs, a, b, id);
        LatePin(c, sts[b], evs[b]);
        PhasesRefused(c, sts, evs, cl, b, d, e, f);
      }
      NotBound(c, sts, evs, cl, a, f);
    }
  }

  /** The same for a client that opens with the one-time PIN; the way must be clear at that moment. */
  lemma HonestOtpClientCompletes(c: Crypto, sts: seq<State>, evs: seq<Event>, cl: Client, b: nat, d: nat, e: nat, f: nat)
    requires Sound(c) && HonestOtpRun(c, sts, evs, cl, b, d, e, f)
    ensures WayClear(sts[b], cl) ==> LetIn(c, sts, evs, cl, d, e, f) && Step(c, sts[b], evs[b]).1 == PlainCert(c.serverCert)
    ensures cl.id in sts[b].sessions && sts[b].sessions[cl.id].lastPhase != NoPhase ==>
      Refused(c, sts, evs, d, e, f) && Step(c, sts[b], evs[b]).1 == Failed
    ensures !WayClear(sts[b], cl) && cl.cert !in Certs(sts[f].devices) ==> cl.cert !in Certs(sts[f + 1].devices)
    ensures cl.cert !in Certs(sts[f].devices) || (cl.id in sts[b].sessions ==> sts[b].sessions[cl.id].cert == cl.cert) ==>
      (LetIn(c, sts, evs, cl, d, e, f) <==> WayClear(sts[b], cl))
    // and the one-time PIN is used up
    ensures sts[b + 1].otp.pin == ""
  {
    assert |cl.salt| >= 32;
    hide Sound, Step, OtpMatches, FourDigits, DerivedKey, HonestClient, Certs;
    OtpOpens(c, sts[b], evs[b]);
    if WayClear(sts[b], cl) {
      PhasesComplete(c, sts, evs, cl, b, d, e, f);
    } else {
      if sts[b].sessions[cl.id].lastPhase != NoPhase {
        PhasesRefused(c, sts, evs, cl, b, d, e, f);
      }
      NotBound(c, sts, evs, cl, b, f);
    }
  }

  lemma PhasesComplete(c: Crypto, sts: seq<State>, evs: seq<Event>, cl: Client, b: nat, d: nat, e: nat, f: nat)
    requires Sound(c) && HonestPhases(c, sts, evs, cl, b, d, e, f) && cl.id in sts[b + 1].sessions
    requires var s := sts[b + 1].sessions[cl.id]; s.cert == cl.cert && s.lastPhase == GetServerCert && s.key == Some(ClientKey(c, cl))
    ensures LetIn(c, sts, evs, cl, d, e, f)
  {
    hide Sound, Step, Certs, DerivedKey;
    var id := cl.id;
    Kept(c, sts, evs, b, d, id);
    TakesChallenge(c, sts[d], evs[d], cl);
    Kept(c, sts, evs, d, e, id);
    TakesAnswer(c, sts[e], evs[e], cl, evs[d].newChallenge);
    Kept(c, sts, evs, e, f, id);
    TakesSecret(c, sts[f], evs[f], cl);
  }

  lemma PhasesRefused(c: Crypto, sts: seq<State>, evs: seq<Event>, cl: Client, b: nat, d: nat, e: nat, f: nat)
    requires HonestPhases(c, sts, evs, cl, b, d, e, f) && cl.id !in sts[b + 1].sessions
    ensures Refused(c, sts, evs, d, e, f)
  {
    hide Step, HonestClient, ClientAnswer;
    StaysAbsent(c, sts, evs, b, d, cl.id);
    Unheeded(c, sts[d], evs[d]);
    StaysAbsent(c, sts, evs, d, e, cl.id);
    Unheeded(c, sts[e], evs[e]);
    StaysAbsent(c, sts, evs, e, f, cl.id);
    Unheeded(c, sts[f], evs[f]);
  }

  /** While a session lasts it keeps its certificate. */
  lemma {:induction false} CertStays(c: Crypto, sts: seq<State>, evs: seq<Event>, i: nat, j: nat, id: string)
    requires IsRun(c, sts, evs) && i <= j <= |evs| && id in sts[i].sessions
    requires forall k :: i < k < j ==> !(evs[k].Open? && evs[k].id == id)
    ensures id in sts[j].sessions ==> sts[j].sessions[id].cert == sts[i].sessions[id].cert
  {
    hide Step;
    if i < j {
      CertStays(c, sts, evs, i, j - 1, id);
      if id in sts[j].sessions {
        if id in sts[j - 1].sessions {
          SessionStep(c, sts[j - 1], evs[j - 1], id);
        } else {
          SessionBorn(c, sts[j - 1], evs[j - 1], id);
        }
      }
    }
  }

  /** If the way is not clear, event f adds no certificate, or not the client's. */
  lemma NotBound(c: Crypto, sts: seq<State>, evs: seq<Event>, cl: Client, a: nat, f: nat)
    requires IsRun(c, sts, evs) && a < f < |evs| && evs[f].Secret? && evs[f].id == cl.id && cl.id in sts[a].sessions
    requires sts[a].sessions[cl.id].cert != cl.cert || sts[f + 1].devices == sts[f].devices
    requires forall k :: a < k < f ==> !(evs[k].Open? && evs[k].id == cl.id)
    ensures cl.cert !in Certs(sts[f].devices) ==> cl.cert !in Certs(sts[f + 1].devices)
  {
    hide Step, Certs;
    CertStays(c, sts, evs, a, f, cl.id);
    if cl.cert !in Certs(sts[f].devices) && cl.cert in Certs(sts[f + 1].devices) {
      GrantStep(c, sts[f], evs[f], cl.cert);
    }
  }

  /** An opening without a one-time PIN leaves a session behind that waits for the user's, even if it brought no salt. */
  lemma OpenWaits(c: Crypto, st: State, ev: Event)
    requires ev.Open? && (ev.salt.None? || ev.otpAuth.None?)
    ensures ev.id in Step(c, st, ev).0.sessions
    ensures Step(c, st, ev).0.devices == st.devices && Step(c, st, ev).0.otp == st.otp
    ensures Step(c, st, ev).1 == if ev.salt.None? then Threw else Waiting
    ensures var s := Step(c, st, ev).0.sessions[ev.id];
      && (ev.salt.Some? ==> s.salt == ev.salt.value && s.waiting)
      && (ev.id !in st.sessions ==> s.cert == ev.cert && s.lastPhase == NoPhase && s.key.None?)
      && (ev.id in st.sessions ==> SameCore(st.sessions[ev.id], s) && s.name == st.sessions[ev.id].name)
  {
  }

  lemma OpensSession(c: Crypto, st: State, ev: Event)
    requires ev.Open? && ev.salt.Some? && ev.otpAuth.None?
    requires ev.id in st.sessions ==> st.sessions[ev.id].lastPhase == NoPhase && st.sessions[ev.id].cert == ev.cert
    ensures ev.id in Step(c, st, ev).0.sessions
    ensures var s := Step(c, st, ev).0.sessions[ev.id];
            s.cert == ev.cert && s.salt == ev.salt.value && s.lastPhase == NoPhase && s.waiting
  {
  }

  /** A session left over past its first phase stays there when it is opened again, */
  lemma LateOpening(c: Crypto, st: State, ev: Event)
    requires ev.Open? && ev.salt.Some? && ev.otpAuth.None? && ev.id in st.sessions
    ensures ev.id in Step(c, st, ev).0.sessions
    ensures Step(c, st, ev).0.sessions[ev.id] == st.sessions[ev.id].(salt := ev.salt.value, waiting := true)
  {
  }

  /** and the PIN then ends it. */
  lemma LatePin(c: Crypto, st: State, ev: Event)
    requires ev.Pin? && FourDigits(ev.pin) && ev.chosen in st.sessions && st.sessions[ev.chosen].lastPhase != NoPhase
    ensures ev.chosen !in Step(c, st, ev).0.sessions
    ensures Step(c, st, ev).1 == PinTaken(st.sessions[ev.chosen].waiting, Failed)
  {
    hide FourDigits, DerivedKey;
  }

  lemma OtpOpens(c: Crypto, st: State, ev: Event)
    requires OtpMatches(c, st.otp, ev) && |ev.salt.value| >= 32
    ensures Step(c, st, ev).0.otp.pin == ""
    ensures ev.id in st.sessions && st.sessions[ev.id].lastPhase != NoPhase ==>
      ev.id !in Step(c, st, ev).0.sessions && Step(c, st, ev).1 == Failed
    ensures (ev.id in st.sessions ==> st.sessions[ev.id].lastPhase == NoPhase && st.sessions[ev.id].cert == ev.cert) ==>
      && Step(c, st, ev).1 == PlainCert(c.serverCert) && ev.id in Step(c, st, ev).0.sessions
      && var s := Step(c, st, ev).0.sessions[ev.id];
         s.cert == ev.cert && s.lastPhase == GetServerCert && s.key == Some(DerivedKey(c, ev.salt.value, st.otp.pin))
  {
    hide DerivedKey;
  }

  /** A run in which an honest client is refused: it pairs anew after an attempt it broke off behind the PIN. */
  lemma RetryRefused(c: Crypto, cl: Client) returns (sts: seq<State>, evs: seq<Event>)
    requires Sound(c) && HonestClient(c, cl) && FourDigits(cl.pin)
    ensures |evs| == 7 && HonestRun(c, sts, evs, cl, 2, 3, 4, 5, 6)
    ensures cl.id in sts[2].sessions && sts[2].sessions[cl.id].cert == cl.cert && sts[2].sessions[cl.id].lastPhase == GetServerCert
    ensures Refused(c, sts, evs, 4, 5, 6) && sts[7].devices == []
  {
    assert |cl.salt| >= 32 && c.signature(cl.cert).Some?;
    hide Sound, Step, FourDigits, DerivedKey, ClientKey, ClientAnswer;
    var open, pin := Open(cl.id, "", cl.cert, Some(cl.salt), None, 0, ""), Pin(cl.pin, "", cl.id);
    var random := seq(16, _ => 'x');
    var challenge := Challenge(cl.id, c.encrypt(ClientKey(c, cl), cl.challenge), random, random);
    var answer, secret := Answer(cl.id, ClientAnswer(c, cl, Failed)), Secret(cl.id, cl.secret + cl.sign(cl.secret), "");
    evs := [open, pin, open, pin, challenge, answer, secret];
    var s0, s1, s2, s3, s4 := BrokenOff(c, cl, open, pin);
    Unheeded(c, s4, challenge);
    Unheeded(c, s4, answer);
    Unheeded(c, s4, secret);
    sts := [s0, s1, s2, s3, s4, s4, s4, s4];
    SevenSteps(c, sts, evs);
    hide IsRun;
  }

  lemma SevenSteps(c: Crypto, sts: seq<State>, evs: seq<Event>)
    requires |evs| == 7 && |sts| == 8 && sts[0].sessions == map[]
    requires sts[1] == Step(c, sts[0], evs[0]).0 && sts[2] == Step(c, sts[1], evs[1]).0 && sts[3] == Step(c, sts[2], evs[2]).0
    requires sts[4] == Step(c, sts[3], evs[3]).0 && sts[5] == Step(c, sts[4], evs[4]).0 && sts[6] == Step(c, sts[5], evs[5]).0
    requires sts[7] == Step(c, sts[6], evs[6]).0
    ensures IsRun(c, sts, evs)
  {
    hide Step;
  }

  /** An opening and a PIN, and the same again. */
  lemma BrokenOff(c: Crypto, cl: Client, open: Event, pin: Event) returns (s0: State, s1: State, s2: State, s3: State, s4: State)
    requires |cl.salt| >= 32 && FourDigits(cl.pin)
    requires open == Open(cl.id, "", cl.cert, Some(cl.salt), None, 0, "") && pin == Pin(cl.pin, "", cl.id)
    ensures s0.sessions == map[] && s1 == Step(c, s0, open).0 && s2 == Step(c, s1, pin).0
    ensures s3 == Step(c, s2, open).0 && s4 == Step(c, s3, pin).0
    ensures cl.id in s2.sessions && s2.sessions[cl.id].cert == cl.cert && s2.sessions[cl.id].lastPhase == GetServerCert
    ensures cl.id !in s4.sessions && s4.devices == []
  {
    hide Step, FourDigits, DerivedKey;
    s0 := State(map[], Otp("", "", "", 0), [], true, true);
    s1 := Step(c, s0, open).0;
    OpensSession(c, s0, open);
    NobodyAdded(c, s0, open);
    s2 := Step(c, s1, pin).0;
    TakesPin(c, s1, pin);
    NobodyAdded(c, s1, pin);
    s3 := Step(c, s2, open).0;
    LateOpening(c, s2, open);
    NobodyAdded(c, s2, open);
    s4 := Step(c, s3, pin).0;
    LatePin(c, s3, pin);
    NobodyAdded(c, s3, pin);
  }

  lemma NobodyAdded(c: Crypto, st: State, ev: Event)
    requires ev.Open? || ev.Pin?
    ensures Step(c, st, ev).0.devices == st.devices
  {
  }

  lemma TakesPin(c: Crypto, st: State, ev: Event)
    requires ev.Pin? && FourDigits(ev.pin) && ev.chosen in st.sessions
    requires var s := st.sessions[ev.chosen]; |s.salt| >= 32 && s.lastPhase == NoPhase && s.waiting
    ensures Step(c, st, ev).1 == PinTaken(true, PlainCert(c.serverCert))
    ensures ev.chosen in Step(c, st, ev).0.sessions
    ensures var s, s' := st.sessions[ev.chosen], Step(c, st, ev).0.sessions[ev.chosen];
            s'.cert == s.cert && s'.lastPhase == GetServerCert && s'.key == Some(DerivedKey(c, s.salt, ev.pin))
  {
    hide DerivedKey, FourDigits;
  }

  lemma TakesChallenge(c: Crypto, st: State, ev: Event, cl: Client)
    requires Sound(c) && HonestClient(c, cl)
    requires ev.Challenge? && ev.id in st.sessions && ev.challenge == c.encrypt(ClientKey(c, cl), cl.challenge)
    requires |ev.newSecret| == 16 && |ev.newChallenge| == 16
    requires var s := st.sessions[ev.id]; s.lastPhase == GetServerCert && s.key == Some(ClientKey(c, cl))
    ensures ev.id in Step(c, st, ev).0.sessions
    ensures var s, s' := st.sessions[ev.id], Step(c, st, ev).0.sessions[ev.id];
            && s' == s.(lastPhase := ClientChallenge, serverSecret := ev.newSecret, serverChallenge := ev.newChallenge)
    ensures var reply := Step(c, st, ev).1;
      && reply.ChallengeResponse?
      && var plain := c.decrypt(ClientKey(c, cl), reply.data);
      && plain == c.hash(cl.challenge + c.serverSignature + ev.newSecret) + ev.newChallenge && |plain| == 48
  {
    hide DerivedKey, FourDigits;
    var key := ClientKey(c, cl);
    hide ClientKey;
    var h := c.hash(c.decrypt(key, ev.challenge) + c.serverSignature + ev.newSecret);
    assert |h + ev.newChallenge| == 48;
  }

  lemma TakesAnswer(c: Crypto, st: State, ev: Event, cl: Client, challenge: Data)
    requires Sound(c) && HonestClient(c, cl)
    requires ev.Answer? && ev.id in st.sessions
    requires ev.response == c.encrypt(ClientKey(c, cl), c.hash(challenge + c.signature(cl.cert).value + cl.secret))
    requires var s := st.sessions[ev.id]; s.lastPhase == ClientChallenge && s.key == Some(ClientKey(c, cl)) && s.serverSecret != []
    ensures ev.id in Step(c, st, ev).0.sessions
    ensures var s, s' := st.sessions[ev.id], Step(c, st, ev).0.sessions[ev.id];
            && s' == s.(lastPhase := ServerChallengeResp, clientHash := c.hash(challenge + c.signature(cl.cert).value + cl.secret))
            && Step(c, st, ev).1 == PairingSecret(s.serverSecret + c.signAsServer(s.serverSecret))
  {
    hide DerivedKey, FourDigits, ClientKey;
  }

  lemma TakesSecret(c: Crypto, st: State, ev: Event, cl: Client)
    requires HonestClient(c, cl)
    requires ev.Secret? && ev.id in st.sessions && ev.secret == cl.secret + cl.sign(cl.secret)
    requires var s := st.sessions[ev.id];
             && s.lastPhase == ServerChallengeResp && s.cert == cl.cert
             && s.clientHash == c.hash(s.serverChallenge + c.signature(cl.cert).value + cl.secret)
    ensures Step(c, st, ev).1 == Paired(true) && cl.cert in Certs(Step(c, st, ev).0.devices)
  {
    hide FourDigits, Certs;
    assert ev.secret[..16] == cl.secret && ev.secret[16..] == cl.sign(cl.secret);
  }

  // ----- The server's own form -----

  lemma Overwritten(m: map<string, Session>, id: string)
    ensures forall s {:trigger m[id := s]} :: m[id := s] - {id} == m - {id}
    ensures forall s, s' {:trigger m[id := s][id := s']} :: m[id := s][id := s'] == m[id := s']
  {
  }

  class PairingServer {
    const c: Crypto
    const freshState: bool
    const store: Store
    var sessions: map<string, Session>
    var otp: Otp

    constructor (c: Crypto, freshState: bool, store: Store)
      ensures this.c == c && this.freshState == freshState && this.store == store && sessions == map[]
    {
      this.c, this.freshState, this.store := c, freshState, store;
      sessions, otp := map[], Otp("", "", "", 0);
    }

    function Now(): State
      reads this, store
    {
      State(sessions, otp, store.clientRoot, freshState, !store.file.Unreadable?)
    }

    method RemoveSession(id: string)
      modifies this`sessions
      ensures sessions == old(sessions) - {id}
    {
      sessions := sessions - {id};
    }

    method FailPair(id: string) returns (reply: Reply)
      modifies this`sessions
      ensures sessions == old(sessions) - {id} && reply == Failed
    {
      RemoveSession(id);
      reply := Failed;
    }

    /** Phase 1. */
    method RunGetServerCert(id: string, pin: string) returns (reply: Reply)
      requires id in sessions
      modifies this`sessions
      ensures var k := Keyed(c, old(sessions[id]), pin);
              && sessions == (if k.Some? then old(sessions)[id := k.value] else old(sessions) - {id})
              && reply == ReplyTo(k, PlainCert(c.serverCert))
    {
      var sess := sessions[id];
      if sess.lastPhase != NoPhase {
        reply := FailPair(id);
        return;
      }
      sess := sess.(lastPhase := GetServerCert);
      if |sess.salt| < 32 {
        reply := FailPair(id);
        return;
      }
      var salt := c.fromHex(sess.salt[..32]);
      sess := sess.(key := Some(c.genKey(salt, pin)));
      sessions := sessions[id := sess];
      reply := PlainCert(c.serverCert);
    }

    /** Phase 2. */
    method RunClientChallenge(ev: Event) returns (reply: Reply)
      requires ev.Challenge?
      modifies this`sessions
      ensures (Now(), reply) == Step(c, old(Now()), ev)
    {
      if ev.id !in sessions {
        return Failed;
      }
      var sess := sessions[ev.id];
      if sess.lastPhase != GetServerCert {
        reply := FailPair(ev.id);
        return;
      }
      sess := sess.(lastPhase := ClientChallenge);
      if sess.key.None? {
        reply := FailPair(ev.id);
        return;
      }
      var decrypted := c.decrypt(sess.key.value, ev.challenge);
      decrypted := decrypted + c.serverSignature;
      decrypted := decrypted + ev.newSecret;
      var encrypted := c.encrypt(sess.key.value, c.hash(decrypted) + ev.newChallenge);
      sess := sess.(serverSecret := ev.newSecret);
      sess := sess.(serverChallenge := ev.newChallenge);
      sessions := sessions[ev.id := sess];
      reply := ChallengeResponse(encrypted);
    }

    /** Phase 3. */
    method RunServerChallengeResp(ev: Event) returns (reply: Reply)
      requires ev.Answer?
      modifies this`sessions
      ensures (Now(), reply) == Step(c, old(Now()), ev)
    {
      if ev.id !in sessions {
        return Failed;
      }
      var sess := sessions[ev.id];
      if sess.lastPhase != ClientChallenge {
        reply := FailPair(ev.id);
        return;
      }
      sess := sess.(lastPhase := ServerChallengeResp);
      if sess.key.None? || sess.serverSecret == [] {
        reply := FailPair(ev.id);
        return;
      }
      sess := sess.(clientHash := c.decrypt(sess.key.value, ev.response));
      sessions := sessions[ev.id := sess];
      reply := PairingSecret(sess.serverSecret + c.signAsServer(sess.serverSecret));
    }

    /** Phase 4. */
    method RunClientPairingSecret(ev: Event) returns (reply: Reply)
      requires ev.Secret?
      modifies this`sessions, store
      ensures (Now(), reply) == Step(c, old(Now()), ev)
    {
      hide Added, Certs, Normalized;
      if ev.id !in sessions {
        return Failed;
      }
      var sess := sessions[ev.id];
      if sess.lastPhase != ServerChallengeResp || |ev.secret| <= 16 || c.signature(sess.cert).None? {
        reply := FailPair(ev.id);
        return;
      }
      var secret, sign := ev.secret[..16], ev.secret[16..];
      var data := sess.serverChallenge + c.signature(sess.cert).value + secret;
      var sameHash := c.hash(data) == sess.clientHash;
      var verified := c.verify(sess.cert, secret, sign);
      reply := Paired(sameHash && verified);
      if sameHash && verified {
        var d := NewDevice(sess, ev.uuid, store.clientRoot == []);
        store.AddAuthorizedClient(d, freshState, Written, _ => "");
      }
      RemoveSession(ev.id);
    }

    /** The opening request: with a one-time PIN it runs phase 1 at once, otherwise it waits for the user's PIN. */
    method Open(ev: Event) returns (reply: Reply)
      requires ev.Open?
      modifies this
      ensures (Now(), reply) == Step(c, old(Now()), ev)
    {
      hide DerivedKey, Keyed;
      var id := ev.id;
      ghost var before := sessions;
      Overwritten(before, id);
      ghost var s := Opened(Now(), ev);
      assert id in before ==> before[id := s] == before;
      if id !in sessions {
        var name := if ev.deviceName == "roth" then "Legacy Moonlight Client" else ev.deviceName;
        sessions := sessions[id := Session(name, ev.cert, "", None, [], [], [], NoPhase, false)];
      }
      if ev.salt.None? {
        return Threw;
      }
      sessions := sessions[id := sessions[id].(salt := ev.salt.value)];
      if ev.otpAuth.Some? {
        if otp.pin == "" || ev.now - otp.created > OTP_EXPIRE {
          otp := NoOtp(otp);
        } else if c.hex(c.hash(otp.pin + sessions[id].salt + otp.passphrase)) == ev.otpAuth.value {
          if otp.deviceName != "" {
            sessions := sessions[id := sessions[id].(name := otp.deviceName)];
          }
          reply := RunGetServerCert(id, otp.pin);
          otp := NoOtp(otp);
          return;
        }
        reply := RunGetServerCert(id, ev.randomPin);
        return;
      }
      sessions := sessions[id := sessions[id].(waiting := true)];
      reply := Waiting;
    }

    /** The PIN the user typed; it goes to whichever session the table yields first. */
    method EnterPin(ev: Event) returns (reply: Reply)
      requires ev.Pin? && (sessions == map[] || ev.chosen in sessions)
      modifies this`sessions
      ensures (Now(), reply) == Step(c, old(Now()), ev)
    {
      hide DerivedKey;
      if |sessions| == 0 || |ev.pin| != 4 || !FourDigits(ev.pin) {
        return PinTaken(false, Silent);
      }
      Overwritten(sessions, ev.chosen);
      var waiting, name := sessions[ev.chosen].waiting, sessions[ev.chosen].name;
      var answer := RunGetServerCert(ev.chosen, ev.pin);
      if ev.chosen in sessions {
        sessions := sessions[ev.chosen := sessions[ev.chosen].(name := if ev.name != "" then ev.name else name, waiting := false)];
      }
      reply := PinTaken(waiting, answer);
    }
  }
}
