/**
 The client side of SIP digest authentication (RFC 3261, section 22.4; RFC 7616; RFC 8760): one stored
 response for each realm, whose nonce count and hash are renewed with each request.

 The hash functions are one arbitrary function of algorithm and text; random client nonces come with the challenges.
 */
module DigestAuth {

  import opened Wrappers

  datatype Algorithm = Md5 | Sha256 | Sha512Trunc256

  type Hash = (Algorithm, string) -> string

  datatype Qop = Auth | AuthInt | OtherQop

  /** The algorithm is None if it is not supported; isDigest is false for other schemes. */
  datatype Challenge = Challenge(isDigest: bool, realm: string, nonce: string, algorithm: Option<Algorithm>, isSession: bool,
                                 qop: seq<Qop>, userhash: bool, cnonce: string)

  datatype User = User(name: string, password: string)

  datatype Request = Request(verb: string, uri: string, body: string)

  datatype QopResponse = QopResponse(qop: Qop, cnonce: string, nc: nat)

  datatype Header = Header(username: string, realm: string, nonce: string, uri: string, response: string,
                           algorithm: Algorithm, qopResponse: Option<QopResponse>)

  datatype QopEntry = QopEntry(realm: string, ha1: string, ha2: string, algorithm: Algorithm)

  datatype Entry = Entry(realm: string, header: Header, useCount: nat, isProxy: bool)

  datatype Credentials = Credentials(default: Option<User>, users: map<string, User>) {
    function For(realm: string): (r: Option<User>) {
      if realm in users then Some(users[realm]) else default
    }
  }

  datatype Settings = Settings(credentials: Credentials, enforceQop: bool, rejectMd5: bool)

  datatype State = State(qops: seq<QopEntry>, responses: seq<Entry>)

  // ---------- hashes ----------

  function HexDigit(n: nat): (r: char)
    requires n < 16
  {
    "0123456789ABCDEF"[n]
  }

  /** At least width upper-case hexadecimal digits. */
  function Hex(n: nat, width: nat): (r: string)
    decreases n, width
  {
    if n < 16 && width <= 1 then [HexDigit(n)]
    else if n == 0 then Hex(0, width - 1) + "0"
    else Hex(n / 16, if width == 0 then 0 else width - 1) + [HexDigit(n % 16)]
  }

  function Ha1(h: Hash, alg: Algorithm, user: User, c: Challenge): (r: string) {
    var ha1 := h(alg, user.name + ":" + c.realm + ":" + user.password);
    if c.isSession then ha1 + ":" + c.nonce + ":" + c.cnonce else ha1
  }

  function QopName(q: Qop): (r: string) {
    if q.AuthInt? then "auth-int" else "auth"
  }

  function Ha2Text(h: Hash, alg: Algorithm, r: Request, q: Qop): (result: string) {
    if q.AuthInt? then r.verb + ":" + r.uri + ":" + h(alg, r.body) else r.verb + ":" + r.uri
  }

  function Ha2(h: Hash, alg: Algorithm, r: Request, q: Qop): (result: string) {
    h(alg, Ha2Text(h, alg, r, q))
  }

  function ProofText(e: QopEntry, nonce: string, nc: nat, cnonce: string, name: string): (r: string) {
    e.ha1 + ":" + nonce + ":" + Hex(nc, 8) + ":" + cnonce + ":" + name + ":" + e.ha2
  }

  /** The hash that proves the password, with a nonce count. */
  function Proof(h: Hash, e: QopEntry, nonce: string, nc: nat, cnonce: string, name: string): (r: string) {
    h(e.algorithm, ProofText(e, nonce, nc, cnonce, name))
  }

  /** What is hashed without any quality of protection. */
  function PlainText(ha1: string, nonce: string, ha2: string): (r: string) {
    ha1 + ":" + nonce + ":" + ha2
  }

  // ---------- answering one challenge ----------

  /** A header, and what it takes to renew it if it has a nonce count. */
  datatype Answer = Answer(header: Header, saved: Option<QopEntry>)

  /** Integrity protection is preferred; None if neither it nor plain authentication is offered. */
  function ChooseQop(qop: seq<Qop>): (r: Option<Qop>) {
    if AuthInt in qop then Some(AuthInt) else if Auth in qop then Some(Auth) else None
  }

  /** None for an unsupported algorithm or quality of protection, or without credentials. */
  function Respond(h: Hash, cfg: Settings, r: Request, c: Challenge): (result: Option<Answer>) {
    if c.algorithm.None? || (c.algorithm.value.Md5? && cfg.rejectMd5) || cfg.credentials.For(c.realm).None? then None
    else
      var alg, user := c.algorithm.value, cfg.credentials.For(c.realm).value;
      var ha1 := Ha1(h, alg, user, c);
      var name := if c.userhash then h(alg, user.name + ":" + c.realm) else user.name;
      var qop := if c.qop == [] && cfg.enforceQop then [Auth] else c.qop;
      if qop == [] then
        var proof := h(alg, PlainText(ha1, c.nonce, Ha2(h, alg, r, Auth)));
        Some(Answer(Header(name, c.realm, c.nonce, r.uri, proof, alg, None), None))
      else
        var q := ChooseQop(qop);
        if q.None? then None
        else
          var e := QopEntry(c.realm, ha1, Ha2(h, alg, r, q.value), alg);
          var proof := Proof(h, e, c.nonce, 1, c.cnonce, QopName(q.value));
          Some(Answer(Header(name, c.realm, c.nonce, r.uri, proof, alg, Some(QopResponse(q.value, c.cnonce, 1))), Some(e)))
  }

  function FindEntry(rs: seq<Entry>, realm: string, i: nat): (k: nat)
    requires i <= |rs|
    ensures i <= k <= |rs| && (k < |rs| ==> rs[k].realm == realm) && forall j :: i <= j < k ==> rs[j].realm != realm
    decreases |rs| - i
  {
    if i == |rs| || rs[i].realm == realm then i else FindEntry(rs, realm, i + 1)
  }

  function FindQop(qs: seq<QopEntry>, realm: string, i: nat): (k: nat)
    requires i <= |qs|
    ensures i <= k <= |qs| && (k < |qs| ==> qs[k].realm == realm) && forall j :: i <= j < k ==> qs[j].realm != realm
    decreases |qs| - i
  {
    if i == |qs| || qs[i].realm == realm then i else FindQop(qs, realm, i + 1)
  }

  /** A nonce that was answered before has failed. */
  function HandleChallenge(h: Hash, cfg: Settings, s: State, r: Request, c: Challenge): (result: Option<Answer>) {
    var k := FindEntry(s.responses, c.realm, 0);
    if k < |s.responses| && s.responses[k].header.nonce == c.nonce then None else Respond(h, cfg, r, c)
  }

  function SaveQop(qs: seq<QopEntry>, e: QopEntry): (r: seq<QopEntry>) {
    var k := FindQop(qs, e.realm, 0);
    if k < |qs| then qs[k := e] else qs + [e]
  }

  function Without(rs: seq<Entry>, k: nat): (r: seq<Entry>)
    requires k <= |rs|
  {
    if k < |rs| then rs[..k] + rs[k + 1..] else rs
  }

  /** The answer replaces the one stored for the realm. */
  function Store(s: State, a: Answer, isProxy: bool): (r: State) {
    var qops := if a.saved.Some? then SaveQop(s.qops, a.saved.value) else s.qops;
    var rs := Without(s.responses, FindEntry(s.responses, a.header.realm, 0));
    State(qops, rs + [Entry(a.header.realm, a.header, 0, isProxy)])
  }

  // ---------- a rejection ----------

  /** The challenges for one realm, each from a proxy or not. */
  datatype Realm = Realm(realm: string, challenges: seq<(bool, Challenge)>)

  function FindRealm(gs: seq<Realm>, realm: string, i: nat): (k: nat)
    requires i <= |gs|
    ensures i <= k <= |gs| && (k < |gs| ==> gs[k].realm == realm) && forall j :: i <= j < k ==> gs[j].realm != realm
    decreases |gs| - i
  {
    if i == |gs| || gs[i].realm == realm then i else FindRealm(gs, realm, i + 1)
  }

  function AddChallenge(gs: seq<Realm>, isProxy: bool, c: Challenge): (r: seq<Realm>) {
    var k := FindRealm(gs, c.realm, 0);
    if !c.isDigest then gs
    else if k < |gs| then gs[k := gs[k].(challenges := gs[k].challenges + [(isProxy, c)])]
    else gs + [Realm(c.realm, [(isProxy, c)])]
  }

  function Grouped(gs: seq<Realm>, isProxy: bool, cs: seq<Challenge>, n: nat): (r: seq<Realm>)
    requires n <= |cs|
  {
    if n == 0 then gs else AddChallenge(Grouped(gs, isProxy, cs, n - 1), isProxy, cs[n - 1])
  }

  /** The first challenge, from index i on, that can be answered is; the others are passed over. */
  function HandleRealm(h: Hash, cfg: Settings, s: State, r: Request, g: Realm, i: nat): (result: (State, bool))
    requires i <= |g.challenges|
    decreases |g.challenges| - i
  {
    if i == |g.challenges| then (s, false)
    else
      var a := HandleChallenge(h, cfg, s, r, g.challenges[i].1);
      if a.Some? then (Store(s, a.value, g.challenges[i].0), true) else HandleRealm(h, cfg, s, r, g, i + 1)
  }

  /** The state, and the realms that failed, after the first n realms. */
  function HandleRealms(h: Hash, cfg: Settings, s: State, r: Request, gs: seq<Realm>, n: nat): (result: (State, seq<string>))
    requires n <= |gs|
  {
    if n == 0 then (s, [])
    else
      var (t, failed) := HandleRealms(h, cfg, s, r, gs, n - 1);
      var (u, ok) := HandleRealm(h, cfg, t, r, gs[n - 1], 0);
      (u, if ok then failed else failed + [gs[n - 1].realm])
  }

  /** A header is None if it does not parse: then nothing is done. */
  datatype Rejection = Rejection(request: Request, www: Option<seq<Challenge>>, proxy: Option<seq<Challenge>>)

  datatype Verdict = Accepted | HeaderError | FailedToAuthenticate(realms: seq<string>)

  function RealmsOf(j: Rejection): (r: seq<Realm>) {
    if j.www.None? || j.proxy.None? then []
    else Grouped(Grouped([], false, j.www.value, |j.www.value|), true, j.proxy.value, |j.proxy.value|)
  }

  function HandleRejection(h: Hash, cfg: Settings, s: State, j: Rejection): (r: (State, Verdict)) {
    if j.www.None? || j.proxy.None? then (s, HeaderError)
    else
      var (t, failed) := HandleRealms(h, cfg, s, j.request, RealmsOf(j), |RealmsOf(j)|);
      (t, if failed == [] then Accepted else FailedToAuthenticate(failed))
  }

  // ---------- authorizing a request ----------

  /** A header with a nonce count, used before, counts up and is hashed anew, always for plain authentication. */
  function Renewed(h: Hash, qs: seq<QopEntry>, e: Entry): (r: Entry)
    requires e.useCount > 0 && e.header.qopResponse.Some? ==> FindQop(qs, e.header.realm, 0) < |qs|
  {
    if e.useCount == 0 || e.header.qopResponse.None? then e.(useCount := e.useCount + 1)
    else
      var q := e.header.qopResponse.value;
      var entry := qs[FindQop(qs, e.header.realm, 0)];
      var proof := Proof(h, entry, e.header.nonce, q.nc + 1, q.cnonce, "auth");
      e.(useCount := e.useCount + 1, header := e.header.(qopResponse := Some(q.(nc := q.nc + 1)), response := proof))
  }

  ghost predicate Renewable(s: State) {
    forall i :: 0 <= i < |s.responses| && s.responses[i].header.qopResponse.Some? ==>
      FindQop(s.qops, s.responses[i].header.realm, 0) < |s.qops|
  }

  /** Every stored header goes into the request, as it is after its renewal. */
  function Authorized(h: Hash, s: State): (t: State)
    requires Renewable(s)
    ensures t.qops == s.qops && |t.responses| == |s.responses|
    ensures forall i :: 0 <= i < |s.responses| ==> t.responses[i] == Renewed(h, s.qops, s.responses[i])
  {
    s.(responses := seq(|s.responses|, i requires 0 <= i < |s.responses| => Renewed(h, s.qops, s.responses[i])))
  }

  // ---------- the invariant ----------

  /** What the header proves: the count is that of its uses, and the hash is that of the stored entry. */
  ghost predicate Proves(h: Hash, qs: seq<QopEntry>, e: Entry) {
    && e.realm == e.header.realm
    && (e.header.qopResponse.Some? ==>
          var q, k := e.header.qopResponse.value, FindQop(qs, e.realm, 0);
          && !q.qop.OtherQop? && q.nc == (if e.useCount == 0 then 1 else e.useCount)
          && k < |qs|
          && e.header.response == Proof(h, qs[k], e.header.nonce, q.nc, q.cnonce, if q.nc == 1 then QopName(q.qop) else "auth"))
  }

  ghost predicate OnePerRealm(rs: seq<Entry>) {
    forall i, j :: 0 <= i < j < |rs| ==> rs[i].realm != rs[j].realm
  }

  ghost predicate Valid(h: Hash, s: State) {
    OnePerRealm(s.responses) && forall i :: 0 <= i < |s.responses| ==> Proves(h, s.qops, s.responses[i])
  }

  lemma ValidIsRenewable(h: Hash, s: State)
    requires Valid(h, s)
    ensures Renewable(s)
  {
    forall i | 0 <= i < |s.responses| && s.responses[i].header.qopResponse.Some?
      ensures FindQop(s.qops, s.responses[i].header.realm, 0) < |s.qops|
    {
      assert Proves(h, s.qops, s.responses[i]);
    }
  }

  lemma AuthorizedKeeps(h: Hash, s: State)
    requires Valid(h, s) && Renewable(s)
    ensures Valid(h, Authorized(h, s))
  {
    hide Proof;
    forall i | 0 <= i < |s.responses|
      ensures Proves(h, s.qops, Authorized(h, s).responses[i])
    {
      assert Proves(h, s.qops, s.responses[i]);
    }
  }

  /** Saving an entry gives its realm that entry, and leaves all others. */
  lemma SavedIsFound(qs: seq<QopEntry>, e: QopEntry, realm: string)
    ensures var (ps, k) := (SaveQop(qs, e), FindQop(SaveQop(qs, e), realm, 0));
            if realm == e.realm then k < |ps| && ps[k] == e
            else k < |ps| <==> FindQop(qs, realm, 0) < |qs|
    ensures var (ps, k) := (SaveQop(qs, e), FindQop(SaveQop(qs, e), realm, 0));
            realm != e.realm && k < |ps| ==> ps[k] == qs[FindQop(qs, realm, 0)]
  {
    var (ps, m) := (SaveQop(qs, e), FindQop(qs, e.realm, 0));
    var (k, l) := (FindQop(ps, realm, 0), FindQop(qs, realm, 0));
    assert forall i :: 0 <= i < |qs| && i != m ==> ps[i] == qs[i];
    assert m < |ps| && ps[m] == e;
    if realm != e.realm {
      assert l < |qs| ==> ps[l].realm == realm;
      assert k < |ps| ==> k != m && k < |qs| && qs[k].realm == realm;
    }
  }

  lemma AnswerProves(h: Hash, cfg: Settings, r: Request, c: Challenge, isProxy: bool, qs: seq<QopEntry>)
    requires Respond(h, cfg, r, c).Some?
    ensures var a := Respond(h, cfg, r, c).value;
            && a.header.realm == c.realm && (a.saved.Some? ==> a.saved.value.realm == c.realm)
            && Proves(h, if a.saved.Some? then SaveQop(qs, a.saved.value) else qs, Entry(c.realm, a.header, 0, isProxy))
  {
    hide Proof, Ha1, Ha2;
    var a := Respond(h, cfg, r, c).value;
    if a.saved.Some? {
      SavedIsFound(qs, a.saved.value, c.realm);
    }
  }

  lemma StoreKeeps(h: Hash, cfg: Settings, s: State, r: Request, c: Challenge, isProxy: bool)
    requires Valid(h, s) && Respond(h, cfg, r, c).Some?
    ensures Valid(h, Store(s, Respond(h, cfg, r, c).value, isProxy))
  {
    hide Respond, Proves;
    var a := Respond(h, cfg, r, c).value;
    var t := Store(s, a, isProxy);
    AnswerProves(h, cfg, r, c, isProxy, s.qops);
    var k := FindEntry(s.responses, c.realm, 0);
    var n := |t.responses| - 1;
    forall i | 0 <= i < n
      ensures t.responses[i].realm != c.realm && Proves(h, t.qops, t.responses[i])
    {
      var j := if i < k then i else i + 1;
      assert t.responses[i] == s.responses[j];
      assert OnePerRealm(s.responses) && j != k;
      StaysProved(h, s.qops, a.saved, s.responses[j], c.realm);
    }
  }

  lemma StaysProved(h: Hash, qs: seq<QopEntry>, saved: Option<QopEntry>, e: Entry, realm: string)
    requires Proves(h, qs, e) && e.realm != realm && (saved.Some? ==> saved.value.realm == realm)
    ensures Proves(h, if saved.Some? then SaveQop(qs, saved.value) else qs, e)
  {
    hide Proof;
    if saved.Some? {
      SavedIsFound(qs, saved.value, e.realm);
    }
  }

  lemma {:induction false} RealmKeeps(h: Hash, cfg: Settings, s: State, r: Request, g: Realm, i: nat)
    requires Valid(h, s) && i <= |g.challenges|
    ensures Valid(h, HandleRealm(h, cfg, s, r, g, i).0)
    decreases |g.challenges| - i
  {
    hide Valid, Respond, Store;
    if i < |g.challenges| {
      var c := g.challenges[i];
      if HandleChallenge(h, cfg, s, r, c.1).Some? {
        StoreKeeps(h, cfg, s, r, c.1, c.0);
      } else {
        RealmKeeps(h, cfg, s, r, g, i + 1);
      }
    }
  }

  lemma {:induction false} RealmsKeep(h: Hash, cfg: Settings, s: State, r: Request, gs: seq<Realm>, n: nat)
    requires Valid(h, s) && n <= |gs|
    ensures Valid(h, HandleRealms(h, cfg, s, r, gs, n).0)
  {
    hide Valid, HandleRealm;
    if n > 0 {
      RealmsKeep(h, cfg, s, r, gs, n - 1);
      RealmKeeps(h, cfg, HandleRealms(h, cfg, s, r, gs, n - 1).0, r, gs[n - 1], 0);
    }
  }

  lemma RejectionKeeps(h: Hash, cfg: Settings, s: State, j: Rejection)
    requires Valid(h, s)
    ensures Valid(h, HandleRejection(h, cfg, s, j).0)
  {
    hide Valid, HandleRealms, RealmsOf;
    RealmsKeep(h, cfg, s, j.request, RealmsOf(j), |RealmsOf(j)|);
  }

  // ---------- which realms a rejection renews ----------

  /** How often the response for a realm has been used; None if there is none. */
  function UseOf(rs: seq<Entry>, realm: string): (r: Option<nat>) {
    var k := FindEntry(rs, realm, 0);
    if k < |rs| then Some(rs[k].useCount) else None
  }

  /** Groups with different realms, each with challenges of its own realm only. */
  ghost predicate WellGrouped(gs: seq<Realm>) {
    && (forall i, j :: 0 <= i < j < |gs| ==> gs[i].realm != gs[j].realm)
    && (forall i :: 0 <= i < |gs| ==> OfRealm(gs[i]))
  }

  ghost predicate OfRealm(g: Realm) {
    forall i :: 0 <= i < |g.challenges| ==> g.challenges[i].1.realm == g.realm
  }

  lemma AddKeepsGroups(gs: seq<Realm>, isProxy: bool, c: Challenge)
    requires WellGrouped(gs)
    ensures WellGrouped(AddChallenge(gs, isProxy, c))
  {
    var (k, hs) := (FindRealm(gs, c.realm, 0), AddChallenge(gs, isProxy, c));
    forall i | 0 <= i < |hs|
      ensures OfRealm(hs[i])
    {
      assert i < |gs| ==> OfRealm(gs[i]);
    }
  }

  lemma {:induction false} GroupsKept(gs: seq<Realm>, isProxy: bool, cs: seq<Challenge>, n: nat)
    requires WellGrouped(gs) && n <= |cs|
    ensures WellGrouped(Grouped(gs, isProxy, cs, n))
  {
    hide WellGrouped;
    if n > 0 {
      GroupsKept(gs, isProxy, cs, n - 1);
      AddKeepsGroups(Grouped(gs, isProxy, cs, n - 1), isProxy, cs[n - 1]);
    }
  }

  lemma RealmsAreGrouped(j: Rejection)
    ensures WellGrouped(RealmsOf(j))
  {
    if j.www.Some? && j.proxy.Some? {
      GroupsKept([], false, j.www.value, |j.www.value|);
      GroupsKept(Grouped([], false, j.www.value, |j.www.value|), true, j.proxy.value, |j.proxy.value|);
    }
  }

  ghost predicate NoneFor(rs: seq<Entry>, realm: string) {
    forall i :: 0 <= i < |rs| ==> rs[i].realm != realm
  }

  lemma WithoutOne(rs: seq<Entry>, gone: string)
    requires OnePerRealm(rs)
    ensures var ws := Without(rs, FindEntry(rs, gone, 0)); NoneFor(ws, gone) && OnePerRealm(ws)
  {
    var k := FindEntry(rs, gone, 0);
    var ws := Without(rs, k);
    assert forall i :: 0 <= i < k < |rs| ==> ws[i] == rs[i];
    assert forall i :: k <= i < |ws| && k < |rs| ==> ws[i] == rs[i + 1];
  }

  lemma WithoutUses(rs: seq<Entry>, gone: string, realm: string)
    requires OnePerRealm(rs)
    ensures realm != gone ==> UseOf(Without(rs, FindEntry(rs, gone, 0)), realm) == UseOf(rs, realm)
  {
    hide OnePerRealm, NoneFor;
    var (k, l) := (FindEntry(rs, gone, 0), FindEntry(rs, realm, 0));
    var ws := Without(rs, k);
    WithoutOne(rs, gone);
    if realm != gone {
      if l < |rs| {
        var at := if l < k then l else l - 1;
        assert ws[at] == rs[l];
        FoundAt(ws, at);
      } else {
        StillNone(rs, k, realm);
      }
    }
  }

  lemma StillNone(rs: seq<Entry>, k: nat, realm: string)
    requires k <= |rs| && FindEntry(rs, realm, 0) == |rs|
    ensures FindEntry(Without(rs, k), realm, 0) == |Without(rs, k)|
  {
    var ws := Without(rs, k);
    assert forall i :: 0 <= i < |ws| ==> ws[i] == rs[if i < k then i else i + 1];
  }

  lemma AppendUses(ws: seq<Entry>, e: Entry, realm: string)
    requires NoneFor(ws, e.realm)
    ensures UseOf(ws + [e], realm) == if realm == e.realm then Some(e.useCount) else UseOf(ws, realm)
  {
    var ts := ws + [e];
    var (k, m) := (FindEntry(ws, realm, 0), FindEntry(ts, realm, 0));
    assert ts[|ws|] == e && forall i :: 0 <= i < |ws| ==> ts[i] == ws[i];
    if realm != e.realm {
      assert k < |ws| ==> m == k;
    }
  }

  lemma StoreUses(s: State, a: Answer, isProxy: bool, realm: string)
    requires OnePerRealm(s.responses)
    ensures UseOf(Store(s, a, isProxy).responses, realm) == if realm == a.header.realm then Some(0) else UseOf(s.responses, realm)
  {
    hide UseOf, OnePerRealm, NoneFor, Without;
    var gone := a.header.realm;
    var ws := Without(s.responses, FindEntry(s.responses, gone, 0));
    WithoutOne(s.responses, gone);
    WithoutUses(s.responses, gone, realm);
    AppendUses(ws, Entry(gone, a.header, 0, isProxy), realm);
  }

  lemma {:induction false} RealmUses(h: Hash, cfg: Settings, s: State, r: Request, g: Realm, i: nat, realm: string)
    requires OnePerRealm(s.responses) && OfRealm(g) && i <= |g.challenges|
    ensures var (t, ok) := HandleRealm(h, cfg, s, r, g, i);
            UseOf(t.responses, realm) == if ok && realm == g.realm then Some(0) else UseOf(s.responses, realm)
    decreases |g.challenges| - i
  {
    hide UseOf, OnePerRealm, Respond, Store, OfRealm;
    if i < |g.challenges| {
      var c := g.challenges[i];
      var a := HandleChallenge(h, cfg, s, r, c.1);
      if a.Some? {
        RespondsForRealm(h, cfg, r, c.1, g, i);
        StoreUses(s, a.value, c.0, realm);
      } else {
        RealmUses(h, cfg, s, r, g, i + 1, realm);
      }
    }
  }

  lemma RespondsForRealm(h: Hash, cfg: Settings, r: Request, c: Challenge, g: Realm, i: nat)
    requires OfRealm(g) && i < |g.challenges| && c == g.challenges[i].1 && Respond(h, cfg, r, c).Some?
    ensures Respond(h, cfg, r, c).value.header.realm == g.realm
  {
  }

  /** The realms of the first n groups. */
  predicate Among(gs: seq<Realm>, n: nat, realm: string)
    requires n <= |gs|
  {
    exists i :: 0 <= i < n && gs[i].realm == realm
  }

  lemma {:induction false} RealmsUse(h: Hash, cfg: Settings, s: State, r: Request, gs: seq<Realm>, n: nat, realm: string)
    requires Valid(h, s) && WellGrouped(gs) && n <= |gs|
    ensures var (t, failed) := HandleRealms(h, cfg, s, r, gs, n);
            && UseOf(t.responses, realm) == (if Among(gs, n, realm) && realm !in failed then Some(0) else UseOf(s.responses, realm))
            && (realm in failed ==> Among(gs, n, realm))
  {
    hide UseOf, HandleRealm, OfRealm, Proves;
    if n > 0 {
      RealmsUse(h, cfg, s, r, gs, n - 1, realm);
      RealmsKeep(h, cfg, s, r, gs, n - 1);
      var (t, failed) := HandleRealms(h, cfg, s, r, gs, n - 1);
      assert OfRealm(gs[n - 1]);
      RealmUses(h, cfg, t, r, gs[n - 1], 0, realm);
      AmongOneMore(gs, n, realm);
    }
  }

  lemma AmongOneMore(gs: seq<Realm>, n: nat, realm: string)
    requires WellGrouped(gs) && 0 < n <= |gs|
    ensures Among(gs, n, realm) <==> Among(gs, n - 1, realm) || gs[n - 1].realm == realm
    ensures gs[n - 1].realm == realm ==> !Among(gs, n - 1, realm)
  {
  }

  /** The caller can tell: the rejection had a challenge for the realm, and does not name it as failed. */
  predicate Renews(h: Hash, cfg: Settings, s: State, j: Rejection, realm: string) {
    var verdict := HandleRejection(h, cfg, s, j).1;
    && !verdict.HeaderError? && Among(RealmsOf(j), |RealmsOf(j)|, realm)
    && (verdict.FailedToAuthenticate? ==> realm !in verdict.realms)
  }

  /** Exactly the renewed realms have a new response, which is not used yet. */
  lemma RejectionUses(h: Hash, cfg: Settings, s: State, j: Rejection, realm: string)
    requires Valid(h, s)
    ensures UseOf(HandleRejection(h, cfg, s, j).0.responses, realm) ==
              if Renews(h, cfg, s, j, realm) then Some(0) else UseOf(s.responses, realm)
  {
    hide UseOf, HandleRealms, RealmsOf, Among, Valid;
    if j.www.Some? && j.proxy.Some? {
      RealmsAreGrouped(j);
      RealmsUse(h, cfg, s, j.request, RealmsOf(j), |RealmsOf(j)|, realm);
    }
  }

  // ---------- runs ----------

  datatype Op = Authorize(request: Request) | Reject(rejection: Rejection)

  function Run(h: Hash, cfg: Settings, ops: seq<Op>, n: nat): (s: State)
    requires n <= |ops|
    ensures Valid(h, s)
  {
    if n == 0 then State([], [])
    else
      var s := Run(h, cfg, ops, n - 1);
      match ops[n - 1]
      case Authorize(_) => ValidIsRenewable(h, s); AuthorizedKeeps(h, s); Authorized(h, s)
      case Reject(j) => RejectionKeeps(h, cfg, s, j); HandleRejection(h, cfg, s, j).0
  }

  /** How many requests were authorized since a rejection last renewed the realm; None if none ever did. */
  function Since(h: Hash, cfg: Settings, ops: seq<Op>, n: nat, realm: string): (r: Option<nat>)
    requires n <= |ops|
  {
    if n == 0 then None
    else
      var c := Since(h, cfg, ops, n - 1, realm);
      match ops[n - 1]
      case Authorize(_) => if c.Some? then Some(c.value + 1) else None
      case Reject(j) => if Renews(h, cfg, Run(h, cfg, ops, n - 1), j, realm) then Some(0) else c
  }

  lemma AuthorizedUses(h: Hash, s: State, realm: string)
    requires Renewable(s)
    ensures var c := UseOf(s.responses, realm);
            UseOf(Authorized(h, s).responses, realm) == if c.Some? then Some(c.value + 1) else None
  {
    hide Proof;
    var t := Authorized(h, s);
    var (k, l) := (FindEntry(s.responses, realm, 0), FindEntry(t.responses, realm, 0));
    assert forall i :: 0 <= i < |s.responses| ==> t.responses[i].realm == s.responses[i].realm;
    assert k == l;
  }

  /** Over every run the stored response of a realm has been used once by each request since its last renewal. */
  lemma {:induction false} UsesAreCounted(h: Hash, cfg: Settings, ops: seq<Op>, n: nat, realm: string)
    requires n <= |ops|
    ensures UseOf(Run(h, cfg, ops, n).responses, realm) == Since(h, cfg, ops, n, realm)
  {
    hide UseOf, Valid, Renews, HandleRejection;
    if n == 0 {
      NoUses(realm);
    } else {
      UsesAreCounted(h, cfg, ops, n - 1, realm);
      var s := Run(h, cfg, ops, n - 1);
      match ops[n - 1] {
        case Authorize(_) =>
          ValidIsRenewable(h, s);
          AuthorizedUses(h, s, realm);
        case Reject(j) => RejectionUses(h, cfg, s, j, realm);
      }
    }
  }

  lemma NoUses(realm: string)
    ensures UseOf([], realm) == None
  {
  }

  /**
   Over every run, each request carries at most one header for a realm; its nonce count is the number of the
   request since the realm was renewed, 1, 2, 3 and so on; and its hash is made of the stored parts.
   */
  lemma NonceCountsAreConsecutive(h: Hash, cfg: Settings, ops: seq<Op>, n: nat, i: nat)
    requires n < |ops| && ops[n].Authorize? && i < |Run(h, cfg, ops, n + 1).responses|
    ensures var (t, header) := (Run(h, cfg, ops, n + 1), Run(h, cfg, ops, n + 1).responses[i].header);
            && Since(h, cfg, ops, n, header.realm).Some? && FindEntry(t.responses, header.realm, 0) == i
            && (header.qopResponse.Some? ==>
                  var (q, k) := (header.qopResponse.value, FindQop(t.qops, header.realm, 0));
                  && q.nc == Since(h, cfg, ops, n, header.realm).value + 1 && k < |t.qops|
                  && header.response == Proof(h, t.qops[k], header.nonce, q.nc, q.cnonce, if q.nc == 1 then QopName(q.qop) else "auth"))
  {
    hide Proof, Authorized, Renews, HandleRejection;
    var t := Run(h, cfg, ops, n + 1);
    var realm := t.responses[i].realm;
    assert Proves(h, t.qops, t.responses[i]);
    UsesAreCounted(h, cfg, ops, n + 1, realm);
    FoundAt(t.responses, i);
    assert Since(h, cfg, ops, n + 1, realm) == UseOf(t.responses, realm);
  }

  lemma FoundAt(rs: seq<Entry>, i: nat)
    requires OnePerRealm(rs) && i < |rs|
    ensures FindEntry(rs, rs[i].realm, 0) == i
  {
  }

  /** Two different texts with the same hash. */
  ghost predicate Collide(h: Hash, alg: Algorithm, a: string, b: string) {
    a != b && h(alg, a) == h(alg, b)
  }

  /**
   What is sent is what the quality of protection asks for exactly if that is plain authentication or the
   header is sent for the first time: later ones are always hashed as plain authentication, and are then right
   only if these two texts collide.
   */
  lemma HashIsRightExactly(h: Hash, qs: seq<QopEntry>, e: Entry)
    requires Proves(h, qs, e) && e.header.qopResponse.Some?
    ensures var (q, entry) := (e.header.qopResponse.value, qs[FindQop(qs, e.realm, 0)]);
            var (plain, integrity) := (ProofText(entry, e.header.nonce, q.nc, q.cnonce, "auth"),
                                       ProofText(entry, e.header.nonce, q.nc, q.cnonce, "auth-int"));
            && plain != integrity
            && (e.header.response == Proof(h, entry, e.header.nonce, q.nc, q.cnonce, QopName(q.qop)) <==>
                  q.qop.Auth? || q.nc == 1 || Collide(h, entry.algorithm, plain, integrity))
  {
    var (q, entry) := (e.header.qopResponse.value, qs[FindQop(qs, e.realm, 0)]);
    NamesDiffer(entry.ha1 + ":" + e.header.nonce + ":" + Hex(q.nc, 8) + ":" + q.cnonce + ":", entry.ha2);
  }

  lemma NamesDiffer(start: string, end: string)
    ensures start + "auth" + ":" + end != start + "auth-int" + ":" + end
  {
    assert (start + "auth" + ":" + end)[|start| + 4] == ':';
    assert (start + "auth-int" + ":" + end)[|start| + 4] == '-';
  }

  // ---------- the request that a header was made for ----------

  /** The header is the answer to this challenge for this request. */
  ghost predicate AnswersFor(h: Hash, cfg: Settings, header: Header, r: Request, c: Challenge) {
    Respond(h, cfg, r, c).Some? && Respond(h, cfg, r, c).value.header == header
  }

  /**
   The header has the address of this request; the stored hash is that of its method and address, or, without a
   quality of protection, the header is its answer to some challenge.
   */
  ghost predicate StemsFrom(h: Hash, cfg: Settings, qs: seq<QopEntry>, header: Header, r: Request) {
    && header.uri == r.uri
    && (header.qopResponse.Some? ==>
          var k := FindQop(qs, header.realm, 0);
          k < |qs| && qs[k].ha2 == Ha2(h, qs[k].algorithm, r, header.qopResponse.value.qop))
    && (header.qopResponse.None? ==> exists c :: AnswersFor(h, cfg, header, r, c))
  }

  /** Whatever is stored for the realm was made for the origin. */
  ghost predicate AllStem(h: Hash, cfg: Settings, s: State, realm: string, origin: Option<Request>) {
    forall i :: 0 <= i < |s.responses| && s.responses[i].realm == realm ==>
      origin.Some? && s.responses[i].header.realm == realm && StemsFrom(h, cfg, s.qops, s.responses[i].header, origin.value)
  }

  lemma AuthorizedStems(h: Hash, cfg: Settings, s: State, realm: string, origin: Option<Request>)
    requires Renewable(s) && AllStem(h, cfg, s, realm, origin)
    ensures AllStem(h, cfg, Authorized(h, s), realm, origin)
  {
    hide Proof, Ha2;
  }

  lemma AnswerStems(h: Hash, cfg: Settings, r: Request, c: Challenge, qs: seq<QopEntry>)
    requires Respond(h, cfg, r, c).Some?
    ensures var a := Respond(h, cfg, r, c).value;
            && a.header.realm == c.realm && (a.saved.Some? ==> a.saved.value.realm == c.realm)
            && StemsFrom(h, cfg, if a.saved.Some? then SaveQop(qs, a.saved.value) else qs, a.header, r)
  {
    hide Proof, Ha1, Ha2;
    var a := Respond(h, cfg, r, c).value;
    assert AnswersFor(h, cfg, a.header, r, c);
    if a.saved.Some? {
      SavedIsFound(qs, a.saved.value, c.realm);
    }
  }

  lemma StillStems(h: Hash, cfg: Settings, qs: seq<QopEntry>, saved: Option<QopEntry>, header: Header, r: Request, realm: string)
    requires StemsFrom(h, cfg, qs, header, r) && header.realm != realm && (saved.Some? ==> saved.value.realm == realm)
    ensures StemsFrom(h, cfg, if saved.Some? then SaveQop(qs, saved.value) else qs, header, r)
  {
    hide Ha2;
    if saved.Some? {
      SavedIsFound(qs, saved.value, header.realm);
    }
  }

  lemma StoreStems(h: Hash, cfg: Settings, s: State, r: Request, c: Challenge, isProxy: bool, realm: string, origin: Option<Request>)
    requires OnePerRealm(s.responses) && AllStem(h, cfg, s, realm, origin) && Respond(h, cfg, r, c).Some?
    ensures AllStem(h, cfg, Store(s, Respond(h, cfg, r, c).value, isProxy), realm, if realm == c.realm then Some(r) else origin)
  {
    hide Respond, StemsFrom, SaveQop;
    var a := Respond(h, cfg, r, c).value;
    var t := Store(s, a, isProxy);
    AnswerStems(h, cfg, r, c, s.qops);
    WithoutOne(s.responses, c.realm);
    var k := FindEntry(s.responses, c.realm, 0);
    var ws := Without(s.responses, k);
    forall i | 0 <= i < |t.responses| && t.responses[i].realm == realm
      ensures t.responses[i].header.realm == realm
      ensures if realm == c.realm then StemsFrom(h, cfg, t.qops, t.responses[i].header, r)
              else origin.Some? && StemsFrom(h, cfg, t.qops, t.responses[i].header, origin.value)
    {
      if i < |ws| {
        assert ws[i].realm != c.realm;
        assert ws[i] == s.responses[if i < k then i else i + 1];
        StillStems(h, cfg, s.qops, a.saved, ws[i].header, origin.value, c.realm);
      }
    }
  }

  lemma {:induction false} RealmStems(h: Hash, cfg: Settings, s: State, r: Request, g: Realm, i: nat, realm: string, origin: Option<Request>)
    requires OnePerRealm(s.responses) && AllStem(h, cfg, s, realm, origin) && OfRealm(g) && i <= |g.challenges|
    ensures var (t, ok) := HandleRealm(h, cfg, s, r, g, i);
            AllStem(h, cfg, t, realm, if ok && realm == g.realm then Some(r) else origin)
    decreases |g.challenges| - i
  {
    hide OnePerRealm, AllStem, Respond, Store, OfRealm;
    if i < |g.challenges| {
      var c := g.challenges[i];
      if HandleChallenge(h, cfg, s, r, c.1).Some? {
        assert c.1.realm == g.realm by {
          ChallengeOfRealm(g, i);
        }
        StoreStems(h, cfg, s, r, c.1, c.0, realm, origin);
      } else {
        RealmStems(h, cfg, s, r, g, i + 1, realm, origin);
      }
    }
  }

  lemma ChallengeOfRealm(g: Realm, i: nat)
    requires OfRealm(g) && i < |g.challenges|
    ensures g.challenges[i].1.realm == g.realm
  {
  }

  lemma {:induction false} RealmsStem(h: Hash, cfg: Settings, s: State, r: Request, gs: seq<Realm>, n: nat, realm: string,
                                      origin: Option<Request>)
    requires Valid(h, s) && AllStem(h, cfg, s, realm, origin) && WellGrouped(gs) && n <= |gs|
    ensures var (t, failed) := HandleRealms(h, cfg, s, r, gs, n);
            AllStem(h, cfg, t, realm, if Among(gs, n, realm) && realm !in failed then Some(r) else origin)
  {
    hide AllStem, HandleRealm, OfRealm, Proves;
    if n > 0 {
      RealmsStem(h, cfg, s, r, gs, n - 1, realm, origin);
      RealmsKeep(h, cfg, s, r, gs, n - 1);
      RealmsUse(h, cfg, s, r, gs, n - 1, realm);
      var (t, failed) := HandleRealms(h, cfg, s, r, gs, n - 1);
      assert OfRealm(gs[n - 1]);
      RealmStems(h, cfg, t, r, gs[n - 1], 0, realm, if Among(gs, n - 1, realm) && realm !in failed then Some(r) else origin);
      AmongOneMore(gs, n, realm);
    }
  }

  lemma RejectionStems(h: Hash, cfg: Settings, s: State, j: Rejection, realm: string, origin: Option<Request>)
    requires Valid(h, s) && AllStem(h, cfg, s, realm, origin)
    ensures AllStem(h, cfg, HandleRejection(h, cfg, s, j).0, realm, if Renews(h, cfg, s, j, realm) then Some(j.request) else origin)
  {
    hide AllStem, HandleRealms, RealmsOf, Among, Valid;
    if j.www.Some? && j.proxy.Some? {
      RealmsAreGrouped(j);
      RealmsStem(h, cfg, s, j.request, RealmsOf(j), |RealmsOf(j)|, realm, origin);
    }
  }

  /** The rejected request for which the realm was last renewed. */
  function Origin(h: Hash, cfg: Settings, ops: seq<Op>, n: nat, realm: string): (r: Option<Request>)
    requires n <= |ops|
  {
    if n == 0 then None
    else if ops[n - 1].Reject? && Renews(h, cfg, Run(h, cfg, ops, n - 1), ops[n - 1].rejection, realm)
    then Some(ops[n - 1].rejection.request)
    else Origin(h, cfg, ops, n - 1, realm)
  }

  lemma {:induction false} HeadersStem(h: Hash, cfg: Settings, ops: seq<Op>, n: nat, realm: string)
    requires n <= |ops|
    ensures AllStem(h, cfg, Run(h, cfg, ops, n), realm, Origin(h, cfg, ops, n, realm))
  {
    hide StemsFrom, Valid, Renews, HandleRejection, Authorized;
    if n > 0 {
      HeadersStem(h, cfg, ops, n - 1, realm);
      var (s, origin) := (Run(h, cfg, ops, n - 1), Origin(h, cfg, ops, n - 1, realm));
      match ops[n - 1] {
        case Authorize(_) =>
          ValidIsRenewable(h, s);
          AuthorizedStems(h, cfg, s, realm, origin);
        case Reject(j) => RejectionStems(h, cfg, s, j, realm, origin);
      }
    }
  }

  /** The header is what plain authentication asks for on this request. */
  ghost predicate Fits(h: Hash, e: QopEntry, header: Header, r: Request)
    requires header.qopResponse.Some?
  {
    && header.uri == r.uri
    && header.response == RightProof(h, e, header, r)
  }

  ghost function RightProof(h: Hash, e: QopEntry, header: Header, r: Request): (result: string)
    requires header.qopResponse.Some?
  {
    var q := header.qopResponse.value;
    Proof(h, e.(ha2 := Ha2(h, e.algorithm, r, Auth)), header.nonce, q.nc, q.cnonce, "auth")
  }

  /** Two requests for which plain authentication hashes different texts to the same end. */
  ghost predicate Indistinct(h: Hash, e: QopEntry, header: Header, r: Request, o: Request)
    requires header.qopResponse.Some?
  {
    var q := header.qopResponse.value;
    || Collide(h, e.algorithm, Ha2Text(h, e.algorithm, r, Auth), Ha2Text(h, e.algorithm, o, Auth))
    || Collide(h, e.algorithm, ProofText(e.(ha2 := Ha2(h, e.algorithm, r, Auth)), header.nonce, q.nc, q.cnonce, "auth"),
               ProofText(e.(ha2 := Ha2(h, e.algorithm, o, Auth)), header.nonce, q.nc, q.cnonce, "auth"))
  }

  lemma SameEnd(a: string, b: string, end: string)
    requires a + end == b + end
    ensures a == b
  {
    assert |a| == |b| && (a + end)[..|a|] == a && (b + end)[..|b|] == b;
  }

  lemma SameStart(start: string, a: string, b: string)
    requires start + a == start + b
    ensures a == b
  {
    assert (start + a)[|start|..] == a && (start + b)[|start|..] == b;
  }

  /** Two requests with the same address have the same proof exactly if they have the same method, or texts collide. */
  lemma ProofsAgreeExactly(h: Hash, e: QopEntry, header: Header, r: Request, o: Request)
    requires header.qopResponse.Some? && r.uri == o.uri
    ensures RightProof(h, e, header, r) == RightProof(h, e, header, o) <==> r.verb == o.verb || Indistinct(h, e, header, r, o)
  {
    var (q, alg) := (header.qopResponse.value, e.algorithm);
    var start := e.ha1 + ":" + header.nonce + ":" + Hex(q.nc, 8) + ":" + q.cnonce + ":" + "auth" + ":";
    if start + Ha2(h, alg, r, Auth) == start + Ha2(h, alg, o, Auth) {
      SameStart(start, Ha2(h, alg, r, Auth), Ha2(h, alg, o, Auth));
      if r.verb + ":" + r.uri == o.verb + ":" + o.uri {
        SameEnd(r.verb + ":", o.verb + ":", r.uri);
        SameEnd(r.verb, o.verb, ":");
      }
    }
  }

  /**
   A header for plain authentication fits the request it is sent with exactly if that has the address and the
   method of the rejected request for which the realm was last renewed, or if texts collide.
   */
  lemma HeaderFitsExactly(h: Hash, cfg: Settings, ops: seq<Op>, n: nat, i: nat)
    requires n < |ops| && ops[n].Authorize? && i < |Run(h, cfg, ops, n + 1).responses|
    requires var header := Run(h, cfg, ops, n + 1).responses[i].header;
             header.qopResponse.Some? && header.qopResponse.value.qop.Auth?
    ensures var (t, r) := (Run(h, cfg, ops, n + 1), ops[n].request);
            var header := t.responses[i].header;
            var (k, origin) := (FindQop(t.qops, header.realm, 0), Origin(h, cfg, ops, n, header.realm));
            && k < |t.qops| && origin.Some?
            && (Fits(h, t.qops[k], header, r) <==>
                  r.uri == origin.value.uri && (r.verb == origin.value.verb || Indistinct(h, t.qops[k], header, r, origin.value)))
  {
    hide Proof, Authorized, Renews, HandleRejection, RightProof, Indistinct, Ha2;
    var t := Run(h, cfg, ops, n + 1);
    var header := t.responses[i].header;
    assert Proves(h, t.qops, t.responses[i]);
    HeadersStem(h, cfg, ops, n + 1, header.realm);
    var (k, origin) := (FindQop(t.qops, header.realm, 0), Origin(h, cfg, ops, n, header.realm));
    assert StemsFrom(h, cfg, t.qops, header, origin.value);
    OwnProof(h, cfg, t.qops, t.responses[i], origin.value);
    if header.uri == ops[n].request.uri {
      ProofsAgreeExactly(h, t.qops[k], header, ops[n].request, origin.value);
    }
  }

  /** What is sent for plain authentication is the proof for its origin. */
  lemma OwnProof(h: Hash, cfg: Settings, qs: seq<QopEntry>, e: Entry, r: Request)
    requires Proves(h, qs, e) && StemsFrom(h, cfg, qs, e.header, r) && e.header.qopResponse.Some? && e.header.qopResponse.value.qop.Auth?
    ensures e.header.response == RightProof(h, qs[FindQop(qs, e.realm, 0)], e.header, r)
  {
    hide Proof, Ha2;
    var entry := qs[FindQop(qs, e.realm, 0)];
    assert entry.(ha2 := entry.ha2) == entry;
  }

  // ---------- a header without a quality of protection ----------

  /** Two requests for which different texts are hashed to the same end. */
  ghost predicate PlainIndistinct(h: Hash, cfg: Settings, c: Challenge, r: Request, o: Request)
    requires c.algorithm.Some? && cfg.credentials.For(c.realm).Some?
  {
    var alg := c.algorithm.value;
    var ha1 := Ha1(h, alg, cfg.credentials.For(c.realm).value, c);
    || Collide(h, alg, Ha2Text(h, alg, r, Auth), Ha2Text(h, alg, o, Auth))
    || Collide(h, alg, PlainText(ha1, c.nonce, Ha2(h, alg, r, Auth)), PlainText(ha1, c.nonce, Ha2(h, alg, o, Auth)))
  }

  /** A challenge that is answered without a quality of protection has the same answer for two requests exactly if they agree. */
  lemma PlainAnswersAgreeExactly(h: Hash, cfg: Settings, header: Header, r: Request, o: Request, c: Challenge)
    requires AnswersFor(h, cfg, header, o, c) && header.qopResponse.None?
    ensures c.algorithm.Some? && cfg.credentials.For(c.realm).Some?
    ensures AnswersFor(h, cfg, header, r, c) <==> r.uri == o.uri && (r.verb == o.verb || PlainIndistinct(h, cfg, c, r, o))
  {
    hide Ha1, Ha2, Proof;
    var alg := c.algorithm.value;
    if r.uri == o.uri {
      PlainHashesAgreeExactly(h, alg, Ha1(h, alg, cfg.credentials.For(c.realm).value, c), c.nonce, r, o);
    }
  }

  lemma PlainHashesAgreeExactly(h: Hash, alg: Algorithm, ha1: string, nonce: string, r: Request, o: Request)
    requires r.uri == o.uri
    ensures var (a, b) := (Ha2(h, alg, r, Auth), Ha2(h, alg, o, Auth));
            h(alg, PlainText(ha1, nonce, a)) == h(alg, PlainText(ha1, nonce, b)) <==>
              || r.verb == o.verb
              || Collide(h, alg, Ha2Text(h, alg, r, Auth), Ha2Text(h, alg, o, Auth))
              || Collide(h, alg, PlainText(ha1, nonce, a), PlainText(ha1, nonce, b))
  {
    var (a, b) := (Ha2(h, alg, r, Auth), Ha2(h, alg, o, Auth));
    if PlainText(ha1, nonce, a) == PlainText(ha1, nonce, b) {
      SameStart(ha1 + ":" + nonce + ":", a, b);
      if r.verb + ":" + r.uri == o.verb + ":" + o.uri {
        SameEnd(r.verb + ":", o.verb + ":", r.uri);
        SameEnd(r.verb, o.verb, ":");
      }
    }
  }

  /** It is the answer to a challenge for the origin, and for this request too exactly if that agrees with the origin. */
  ghost predicate FitsLike(h: Hash, cfg: Settings, header: Header, r: Request, o: Request, c: Challenge) {
    && AnswersFor(h, cfg, header, o, c) && c.algorithm.Some? && cfg.credentials.For(c.realm).Some?
    && (AnswersFor(h, cfg, header, r, c) <==> r.uri == o.uri && (r.verb == o.verb || PlainIndistinct(h, cfg, c, r, o)))
  }

  /**
   A header without a quality of protection answers a challenge for the rejected request for which the realm was last
   renewed; it fits the request it is sent with exactly if that has the same address and method, or texts collide.
   */
  lemma PlainHeaderFitsExactly(h: Hash, cfg: Settings, ops: seq<Op>, n: nat, i: nat)
    requires n < |ops| && ops[n].Authorize? && i < |Run(h, cfg, ops, n + 1).responses|
    requires Run(h, cfg, ops, n + 1).responses[i].header.qopResponse.None?
    ensures var header := Run(h, cfg, ops, n + 1).responses[i].header;
            var origin := Origin(h, cfg, ops, n, header.realm);
            origin.Some? && exists c :: FitsLike(h, cfg, header, ops[n].request, origin.value, c)
  {
    hide Authorized, Renews, HandleRejection, AnswersFor, PlainIndistinct;
    var t := Run(h, cfg, ops, n + 1);
    var header := t.responses[i].header;
    assert Proves(h, t.qops, t.responses[i]);
    HeadersStem(h, cfg, ops, n + 1, header.realm);
    var origin := Origin(h, cfg, ops, n, header.realm);
    assert StemsFrom(h, cfg, t.qops, header, origin.value);
    var c :| AnswersFor(h, cfg, header, origin.value, c);
    PlainAnswersAgreeExactly(h, cfg, header, ops[n].request, origin.value, c);
    assert FitsLike(h, cfg, header, ops[n].request, origin.value, c);
  }

  // ---------- two uses of one response ----------

  const ALICE := Settings(Credentials(Some(User("alice", "secret")), map[]), false, false)

  function OneChallenge(q: Qop): (r: Challenge) {
    Challenge(true, "realm", "nonce", Some(Md5), false, [q], false, "cnonce")
  }

  /** A request is rejected and sent again, and then another one is sent. */
  function TwoUses(q: Qop, r: Request, other: Request): (ops: seq<Op>) {
    [Reject(Rejection(r, Some([OneChallenge(q)]), Some([]))), Authorize(r), Authorize(other)]
  }

  function EntryFor(h: Hash, q: Qop, r: Request): (e: QopEntry) {
    QopEntry("realm", Ha1(h, Md5, User("alice", "secret"), OneChallenge(q)), Ha2(h, Md5, r, q), Md5)
  }

  /** The header of the n-th use. */
  function HeaderOfUse(h: Hash, q: Qop, r: Request, n: nat): (result: Header) {
    var proof := Proof(h, EntryFor(h, q, r), "nonce", n, "cnonce", if n == 1 then QopName(q) else "auth");
    Header("alice", "realm", "nonce", r.uri, proof, Md5, Some(QopResponse(q, "cnonce", n)))
  }

  lemma OneRealm(q: Qop, r: Request)
    ensures RealmsOf(Rejection(r, Some([OneChallenge(q)]), Some([]))) == [Realm("realm", [(false, OneChallenge(q))])]
  {
    var c := OneChallenge(q);
    assert Grouped([], false, [c], 0) == [];
    assert Grouped([], false, [c], 1) == AddChallenge([], false, c) == [Realm("realm", [(false, c)])];
  }

  lemma StoredFirst(h: Hash, q: Qop, r: Request)
    requires q.Auth? || q.AuthInt?
    ensures HandleRejection(h, ALICE, State([], []), Rejection(r, Some([OneChallenge(q)]), Some([]))).0
            == State([EntryFor(h, q, r)], [Entry("realm", HeaderOfUse(h, q, r, 1), 0, false)])
  {
    hide Proof, Ha1, Ha2;
    var (s, c) := (State([], []), OneChallenge(q));
    OneRealm(q, r);
    var gs := [Realm("realm", [(false, c)])];
    assert ChooseQop(c.qop) == Some(q);
    var a := Answer(HeaderOfUse(h, q, r, 1), Some(EntryFor(h, q, r)));
    assert Respond(h, ALICE, r, c) == Some(a);
    assert HandleRealm(h, ALICE, s, r, gs[0], 0) == (Store(s, a, false), true);
    assert HandleRealms(h, ALICE, s, r, gs, 0) == (s, []);
    assert HandleRealms(h, ALICE, s, r, gs, 1).0 == Store(s, a, false);
  }

  /** The second request carries the header of the first one, counted up, and hashed for plain authentication. */
  lemma SecondUse(h: Hash, q: Qop, r: Request, other: Request)
    requires q.Auth? || q.AuthInt?
    ensures Run(h, ALICE, TwoUses(q, r, other), 3)
            == State([EntryFor(h, q, r)], [Entry("realm", HeaderOfUse(h, q, r, 2), 2, false)])
  {
    hide Proof, Ha1, Ha2, HandleRejection;
    var ops := TwoUses(q, r, other);
    StoredFirst(h, q, r);
    assert Run(h, ALICE, ops, 0) == State([], []);
    var s := Run(h, ALICE, ops, 1);
    assert FindQop(s.qops, "realm", 0) == 0;
    var u := Run(h, ALICE, ops, 2);
    assert u == State(s.qops, [Entry("realm", HeaderOfUse(h, q, r, 1), 1, false)]);
    assert Run(h, ALICE, ops, 3) == State(s.qops, [Entry("realm", HeaderOfUse(h, q, r, 2), 2, false)]);
  }

  /** With integrity protection the second header says so, and is right only if the two hashes collide. */
  lemma IntegrityIsLost(h: Hash, r: Request, other: Request)
    ensures var t := Run(h, ALICE, TwoUses(AuthInt, r, other), 3);
            var (e, plain) := (EntryFor(h, AuthInt, r), ProofText(EntryFor(h, AuthInt, r), "nonce", 2, "cnonce", "auth"));
            && |t.responses| == 1 && t.responses[0].header.qopResponse == Some(QopResponse(AuthInt, "cnonce", 2))
            && t.responses[0].header.uri == r.uri && t.responses[0].header.response == h(Md5, plain)
            && (t.responses[0].header.response == Proof(h, e, "nonce", 2, "cnonce", "auth-int")
                <==> Collide(h, Md5, plain, ProofText(e, "nonce", 2, "cnonce", "auth-int")))
  {
    hide Run;
    SecondUse(h, AuthInt, r, other);
    var t := Run(h, ALICE, TwoUses(AuthInt, r, other), 3);
    assert FindQop(t.qops, "realm", 0) == 0;
    assert Proves(h, t.qops, t.responses[0]);
    HashIsRightExactly(h, t.qops, t.responses[0]);
  }

  /** A request to another address carries the address of the first one. */
  lemma OtherAddressDoesNotFit(h: Hash, r: Request, other: Request)
    requires r.uri != other.uri
    ensures var t := Run(h, ALICE, TwoUses(Auth, r, other), 3);
            && |t.responses| == 1 && t.responses[0].header.uri == r.uri && t.responses[0].header.qopResponse.Some?
            && !Fits(h, EntryFor(h, Auth, r), t.responses[0].header, other)
  {
    hide Run;
    SecondUse(h, Auth, r, other);
  }

  // ---------- the authenticator ----------

  class DigestAuthenticator {
    const hash: Hash
    const settings: Settings
    var qops: seq<QopEntry>
    var responses: seq<Entry>

    function Contents(): (r: State)
      reads this
    {
      State(qops, responses)
    }

    constructor (hash: Hash, settings: Settings)
      ensures this.hash == hash && this.settings == settings && Contents() == State([], []) && Valid(hash, Contents())
    {
      this.hash, this.settings, qops, responses := hash, settings, [], [];
    }

    /** Adds all stored headers to a request, after renewing them. */
    method AuthorizeRequest() returns (sent: seq<(bool, Header)>)
      requires Valid(hash, Contents())
      modifies this`responses
      ensures Renewable(old(Contents())) && Contents() == Authorized(hash, old(Contents())) && Valid(hash, Contents())
      ensures |sent| == |responses| && forall i :: 0 <= i < |sent| ==> sent[i] == (responses[i].isProxy, responses[i].header)
    {
      hide Proof;
      ValidIsRenewable(hash, Contents());
      AuthorizedKeeps(hash, Contents());
      sent := [];
      for i := 0 to |responses|
        invariant |responses| == |old(responses)| && |sent| == i
        invariant forall j :: 0 <= j < i ==> responses[j] == Authorized(hash, old(Contents())).responses[j]
        invariant forall j :: i <= j < |responses| ==> responses[j] == old(responses)[j]
        invariant forall j :: 0 <= j < i ==> sent[j] == (responses[j].isProxy, responses[j].header)
      {
        var e := Renewal(i);
        responses := responses[i := e];
        sent := sent + [(e.isProxy, e.header)];
      }
      assert responses == Authorized(hash, old(Contents())).responses;
    }

    method Renewal(i: nat) returns (e: Entry)
      requires i < |responses| && (responses[i].header.qopResponse.Some? ==> FindQop(qops, responses[i].header.realm, 0) < |qops|)
      ensures e == Renewed(hash, qops, responses[i])
    {
      e := responses[i];
      if e.useCount > 0 && e.header.qopResponse.Some? {
        var q := e.header.qopResponse.value;
        var entry := qops[FindQop(qops, e.header.realm, 0)];
        q := q.(nc := q.nc + 1);
        var text := entry.ha1 + ":" + e.header.nonce + ":" + Hex(q.nc, 8) + ":" + q.cnonce + ":auth:" + entry.ha2;
        assert ":auth:" == ":" + "auth" + ":";
        assert text == entry.ha1 + ":" + e.header.nonce + ":" + Hex(q.nc, 8) + ":" + q.cnonce + ":" + "auth" + ":" + entry.ha2;
        e := e.(header := e.header.(qopResponse := Some(q), response := hash(entry.algorithm, text)));
      }
      e := e.(useCount := e.useCount + 1);
    }

    /** Groups the challenges of one header by realm. */
    method ReadChallenges(isProxy: bool, cs: seq<Challenge>, gs: seq<Realm>) returns (hs: seq<Realm>)
      ensures hs == Grouped(gs, isProxy, cs, |cs|)
    {
      hs := gs;
      for i := 0 to |cs|
        invariant hs == Grouped(gs, isProxy, cs, i)
      {
        var c := cs[i];
        if c.isDigest {
          var k := FindRealm(hs, c.realm, 0);
          if k < |hs| {
            hs := hs[k := hs[k].(challenges := hs[k].challenges + [(isProxy, c)])];
          } else {
            hs := hs + [Realm(c.realm, [(isProxy, c)])];
          }
        }
      }
    }

    method SaveQopResponse(e: QopEntry)
      modifies this`qops
      ensures qops == SaveQop(old(qops), e)
    {
      var k := FindQop(qops, e.realm, 0);
      if k < |qops| {
        qops := qops[k := e];
      } else {
        qops := qops + [e];
      }
    }

    /** Removes the old response for the realm and appends the new one. */
    method StoreAnswer(a: Answer, isProxy: bool)
      modifies this
      ensures Contents() == Store(old(Contents()), a, isProxy)
    {
      if a.saved.Some? {
        SaveQopResponse(a.saved.value);
      }
      var k := FindEntry(responses, a.header.realm, 0);
      if k < |responses| {
        responses := responses[..k] + responses[k + 1..];
      }
      responses := responses + [Entry(a.header.realm, a.header, 0, isProxy)];
    }

    /** Answers the first challenge of the realm that it can. */
    method AnswerRealm(r: Request, g: Realm) returns (ok: bool)
      modifies this
      ensures (Contents(), ok) == HandleRealm(hash, settings, old(Contents()), r, g, 0)
    {
      hide Respond;
      for i := 0 to |g.challenges|
        invariant Contents() == old(Contents())
        invariant HandleRealm(hash, settings, Contents(), r, g, i) == HandleRealm(hash, settings, Contents(), r, g, 0)
      {
        var (isProxy, c) := g.challenges[i];
        var a := HandleChallenge(hash, settings, Contents(), r, c);
        if a.Some? {
          StoreAnswer(a.value, isProxy);
          return true;
        }
      }
      ok := false;
    }

    method Handle(j: Rejection) returns (verdict: Verdict)
      requires Valid(hash, Contents())
      modifies this
      ensures (Contents(), verdict) == HandleRejection(hash, settings, old(Contents()), j) && Valid(hash, Contents())
    {
      hide Valid, HandleRealm, Grouped;
      RejectionKeeps(hash, settings, Contents(), j);
      if j.www.None? || j.proxy.None? {
        return HeaderError;
      }
      var gs := ReadChallenges(false, j.www.value, []);
      gs := ReadChallenges(true, j.proxy.value, gs);
      var failed: seq<string> := [];
      for n := 0 to |gs|
        invariant (Contents(), failed) == HandleRealms(hash, settings, old(Contents()), j.request, gs, n)
      {
        var ok := AnswerRealm(j.request, gs[n]);
        if !ok {
          failed := failed + [gs[n].realm];
        }
      }
      verdict := if failed == [] then Accepted else FailedToAuthenticate(failed);
    }
  }
}
