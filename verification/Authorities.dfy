/** Managed certificate authorities, client certificates and deployment credentials, with transactions
    that overlap: a transaction locks the rows it depends on when it begins and writes when it commits.
    Models internal/storage/mysqlstore/authority.go, certificate_mutation.go, deployment_credential.go
    and the validity clamping of internal/clientcert/issuer.go. */
module Authorities {
  import opened Ordering

  /** Nanoseconds. Certificates store whole seconds. */
  type Time = int

  const SECOND: int := 1_000_000_000
  const MINUTE: int := 60 * SECOND
  const DAY: int := 24 * 60 * MINUTE
  const MAX_ACTIVE: nat := 32

  function WholeSeconds(t: Time): Time {
    t - t % SECOND
  }

  // ----- Validity of generated certificates -----

  datatype Validity = Validity(notBefore: Time, notAfter: Time)

  /** GenerateAuthority. */
  function AuthorityValidity(days: int, now: Time): Option<Validity> {
    var lifetime := if days == 0 then 5 * 365 else days;
    if lifetime < 1 || lifetime > 10 * 365 then None
    else Some(Validity(WholeSeconds(now - 5 * MINUTE), WholeSeconds(now + lifetime * DAY)))
  }

  function Min(a: Time, b: Time): Time {
    if a < b then a else b
  }

  function Max(a: Time, b: Time): Time {
    if a < b then b else a
  }

  /** GenerateClientUntil. */
  function ClientValidity(authority: Validity, notAfter: Time, now: Time): Option<Validity> {
    if now >= notAfter || notAfter > now + 365 * DAY || now < authority.notBefore || now >= authority.notAfter then None
    else Some(Validity(WholeSeconds(Max(now - 5 * MINUTE, authority.notBefore)),
                       WholeSeconds(Min(notAfter, authority.notAfter))))
  }

  predicate Whole(v: Validity) {
    v.notBefore % SECOND == 0 && v.notAfter % SECOND == 0
  }

  lemma WholeSecondsMeaning(t: Time, u: Time)
    ensures WholeSeconds(t) <= t < WholeSeconds(t) + SECOND && WholeSeconds(t) % SECOND == 0
    ensures t % SECOND == 0 ==> WholeSeconds(t) == t
    ensures t <= u ==> WholeSeconds(t) <= WholeSeconds(u)
  {
    var a, b := t / SECOND, u / SECOND;
    assert t == SECOND * a + t % SECOND && u == SECOND * b + u % SECOND;
    if t <= u {
      assert a <= b;
    }
  }

  /** A client certificate is valid inside its authority's validity and inside the requested deadline. Its
      validity is not empty exactly when the deadline falls in a later second than the authority's
      beginning; a request made a second or more after that always qualifies. */
  lemma ClientInsideAuthority(authority: Validity, notAfter: Time, now: Time)
    requires Whole(authority) && ClientValidity(authority, notAfter, now).Some?
    ensures var v := ClientValidity(authority, notAfter, now).value;
            && authority.notBefore <= v.notBefore <= v.notAfter <= authority.notAfter
            && v.notAfter <= notAfter && v.notAfter <= now + 365 * DAY && Whole(v)
            && now - 5 * MINUTE - SECOND < v.notBefore <= now
            && (v.notBefore < v.notAfter <==> authority.notBefore + SECOND <= notAfter)
  {
    var from, to := Max(now - 5 * MINUTE, authority.notBefore), Min(notAfter, authority.notAfter);
    WholeSecondsMeaning(from, to);
    WholeSecondsMeaning(to, to);
    WholeSecondsMeaning(authority.notBefore, from);
    WholeSecondsMeaning(to, authority.notAfter);
    WholeSecondsMeaning(now - 5 * MINUTE, now);
    LaterSecond(authority, notAfter, now);
  }

  /** An authority begins five minutes back and lasts between a day and ten years. */
  lemma AuthorityBounds(days: int, now: Time)
    ensures AuthorityValidity(days, now).Some? <==> 0 <= days <= 3650
    ensures AuthorityValidity(days, now).Some? ==>
              var v := AuthorityValidity(days, now).value;
              && Whole(v) && now - 5 * MINUTE - SECOND < v.notBefore <= now - 5 * MINUTE
              && now + DAY - SECOND < v.notAfter <= now + 3650 * DAY
  {
    hide WholeSeconds;
    var lifetime := if days == 0 then 5 * 365 else days;
    WholeSecondsMeaning(now - 5 * MINUTE, now);
    WholeSecondsMeaning(now + lifetime * DAY, now + 3650 * DAY);
  }

  lemma LaterSecond(authority: Validity, notAfter: Time, now: Time)
    requires Whole(authority) && ClientValidity(authority, notAfter, now).Some?
    ensures var v := ClientValidity(authority, notAfter, now).value;
            v.notBefore < v.notAfter <==> authority.notBefore + SECOND <= notAfter
  {
    var from, to := Max(now - 5 * MINUTE, authority.notBefore), Min(notAfter, authority.notAfter);
    WholeSecondsMeaning(from, to);
    WholeSecondsMeaning(to, to);
    WholeSecondsMeaning(authority.notBefore, authority.notBefore);
    WholeGap(authority.notBefore, authority.notAfter);
    WholeGap(authority.notBefore, WholeSeconds(to));
  }

  /** Whole seconds differ by at least one second or not at all. */
  lemma WholeGap(a: Time, b: Time)
    requires a % SECOND == 0 && b % SECOND == 0
    ensures a < b ==> a + SECOND <= b
  {
    var i, j := a / SECOND, b / SECOND;
    assert a == SECOND * i && b == SECOND * j;
  }

  // ----- Tables and transactions -----

  datatype Authority = Authority(validity: Validity, revoked: bool)

  /** A client certificate by fingerprint; `issued` tells generated ones from imported ones. */
  datatype Certificate = Certificate(name: string, validity: Validity, authority: Option<string>, issued: bool,
                                     revoked: bool)

  /** An API token; a deployment token has the writer that made it as parent, and a certificate. */
  datatype Token = Token(writer: bool, expires: Option<Time>, parent: Option<string>, certificate: Option<string>,
                         revoked: bool)

  /** A transaction that has taken its locks and made its checks. */
  datatype Work =
    | Creating(counted: nat)                                  // the exclusive sentinel lock
    | Issuing(authority: string, writer: Option<string>)      // the authority's row; the writer's row shared
    | Registering(fingerprint: string, issuer: Option<string>) // the issuer's row
    | RevokingAuthority(authority: string)                    // the authority's row
    | RevokingToken(token: string)                            // the token's row

  datatype State = State(now: Time, authorities: map<string, Authority>, certificates: map<string, Certificate>,
                         tokens: map<string, Token>, work: map<nat, Work>)

  /** The authority row a transaction has locked. */
  function LockedAuthority(w: Work): Option<string> {
    match w
    case Issuing(a, _) => Some(a)
    case Registering(_, issuer) => issuer
    case RevokingAuthority(a) => Some(a)
    case _ => None
  }

  predicate AuthorityFree(s: State, a: string) {
    forall t | t in s.work :: LockedAuthority(s.work[t]) != Some(a)
  }

  predicate CreationFree(s: State) {
    forall t | t in s.work :: !s.work[t].Creating?
  }

  /** The token can be locked shared: nobody is revoking it. */
  predicate TokenShareable(s: State, p: string) {
    forall t | t in s.work :: s.work[t] != RevokingToken(p)
  }

  predicate TokenFree(s: State, p: string) {
    forall t | t in s.work :: s.work[t] != RevokingToken(p) && !(s.work[t].Issuing? && s.work[t].writer == Some(p))
  }

  /** The authorities that count towards the limit. */
  function ActiveAuthorities(s: State): set<string> {
    set a | a in s.authorities && !s.authorities[a].revoked && s.authorities[a].validity.notAfter > s.now
  }

  /** managedCertificateIssuer: of all authorities whose signature fits, the last by identifier. */
  ghost predicate IsIssuer(s: State, signers: set<string>, issuer: Option<string>) {
    match issuer
    case None => forall a | a in s.authorities :: a !in signers
    case Some(i) => i in s.authorities && i in signers && forall a | a in s.authorities && a in signers ::
           a == i
           || Less(a, i)
  }

  method ManagedCertificateIssuer(authorities: seq<string>, signers: set<string>) returns (matched: Option<string>)
    requires Ascending(authorities)
    ensures match matched
            case None => forall a | a in authorities :: a !in signers
            case Some(i) => i in authorities && i in signers && forall a | a in authorities && a in signers ::
                   a == i
                   || Less(a, i)
  {
    matched := None;
    for n := 0 to |authorities|
      invariant match matched
                case None => forall a | a in authorities[..n] :: a !in signers
                case Some(i) =>
                  i in authorities[..n] && i in signers && forall a | a in authorities[..n] && a in signers ::
                    a == i
                    || Less(a, i)
    {
      assert authorities[..n + 1] == authorities[..n] + [authorities[n]];
      if authorities[n] in signers {
        matched := Some(authorities[n]);
      }
    }
    assert authorities[..|authorities|] == authorities;
  }

  datatype Step =
    | Tick(now: Time)
    | BeginCreate(t: nat)
    | CommitCreate(t: nat, id: string, days: int)
    | BeginIssue(t: nat, authority: string, writer: Option<string>)
    | CommitIssue(t: nat, fingerprint: string, name: string, notAfter: Time, token: string)
    | BeginRegister(t: nat, fingerprint: string, signers: set<string>, issuer: Option<string>)
    | CommitRegister(t: nat, name: string, validity: Validity)
    | BeginRevokeAuthority(t: nat, authority: string)
    | CommitRevokeAuthority(t: nat)
    | RevokeCertificate(fingerprint: string)
    | CreateToken(id: string, mayWrite: bool, expires: Option<Time>)
    | BeginRevokeToken(t: nat, token: string)
    | CommitRevokeToken(t: nat)
    | Abort(t: nat)

  /** authorizeScopedWrite: a live, unexpired writer. */
  predicate MayIssue(s: State, p: string) {
    p in s.tokens && s.tokens[p].writer && !s.tokens[p].revoked && s.tokens[p].expires.Some?
        && s.now < s.tokens[p].expires.value
  }

  ghost predicate Enabled(s: State, step: Step) {
    match step
    case Tick(now) => s.now <= now
    case BeginCreate(t) => t !in s.work && CreationFree(s)
    case CommitCreate(t, id, days) =>
      && t in s.work && s.work[t].Creating? && s.work[t].counted < MAX_ACTIVE
      && id !in s.authorities && AuthorityValidity(days, s.now).Some?
    case BeginIssue(t, a, writer) =>
      && t !in s.work && AuthorityFree(s, a) && a in s.authorities && !s.authorities[a].revoked
      && (writer.Some? ==> TokenShareable(s, writer.value) && MayIssue(s, writer.value))
    case CommitIssue(t, fingerprint, name, notAfter, token) =>
      && t in s.work && s.work[t].Issuing? && s.work[t].authority in s.authorities && fingerprint !in s.certificates
      && ClientValidity(s.authorities[s.work[t].authority].validity, notAfter, s.now).Some?
      && (s.work[t].writer.Some? ==>
            token !in s.tokens && s.work[t].writer.value in s.tokens && s.tokens[s.work[t].writer.value].expires.Some?
            && notAfter <= s.tokens[s.work[t].writer.value].expires.value)
    case BeginRegister(t, fingerprint, signers, issuer) =>
      && t !in s.work && IsIssuer(s, signers, issuer)
      && (issuer.Some? ==> AuthorityFree(s, issuer.value) && !s.authorities[issuer.value].revoked)
    case CommitRegister(t, name, validity) =>
      && t in s.work && s.work[t].Registering?
      && (s.work[t].fingerprint in s.certificates ==> !s.certificates[s.work[t].fingerprint].revoked)
    case BeginRevokeAuthority(t, a) => t !in s.work && AuthorityFree(s, a) && a in s.authorities
    case CommitRevokeAuthority(t) => t in s.work && s.work[t].RevokingAuthority? && s.work[t].authority in s.authorities
    case RevokeCertificate(fingerprint) => fingerprint in s.certificates
    case CreateToken(id, _, _) => id !in s.tokens
    case BeginRevokeToken(t, p) => t !in s.work && TokenFree(s, p) && p in s.tokens
    case CommitRevokeToken(t) => t in s.work && s.work[t].RevokingToken?
    case Abort(t) => t in s.work
  }

  function End(s: State, t: nat): State {
    s.(work := s.work - {t})
  }

  /** The second UPDATE of RevokeCertificateAuthority. */
  function RevokeCertificatesOf(certificates: map<string, Certificate>, a: string): map<string, Certificate> {
    map f | f in certificates :: if certificates[f].authority == Some(a) then certificates[f].(revoked := true)
        else certificates[f]
  }

  predicate TokenOrChild(tokens: map<string, Token>, q: string, p: string) {
    q in tokens && (q == p || tokens[q].parent == Some(p))
  }

  /** revokeTokenAndDeployments. */
  function RevokeTokens(tokens: map<string, Token>, p: string): map<string, Token> {
    map q | q in tokens :: if TokenOrChild(tokens, q, p) then tokens[q].(revoked := true) else tokens[q]
  }

  function RevokeDeployed(certificates: map<string, Certificate>, tokens: map<string, Token>,
                          p: string): map<string, Certificate> {
    map f | f in certificates ::
      if exists q :: q in tokens && TokenOrChild(tokens, q, p) && tokens[q].certificate == Some(f)
      then certificates[f].(revoked := true) else certificates[f]
  }

  function Apply(s: State, step: Step): State
    requires Enabled(s, step)
  {
    match step
    case Tick(now) => s.(now := now)
    case BeginCreate(t) => s.(work := s.work[t := Creating(|ActiveAuthorities(s)|)])
    case CommitCreate(t, id, days) =>
      End(s, t).(authorities := s.authorities[id := Authority(AuthorityValidity(days, s.now).value, false)])
    case BeginIssue(t, a, writer) => s.(work := s.work[t := Issuing(a, writer)])
    case CommitIssue(t, fingerprint, name, notAfter, token) =>
      var w := s.work[t];
      var validity := ClientValidity(s.authorities[w.authority].validity, notAfter, s.now).value;
      var certificate := Certificate(name, validity, Some(w.authority), true, false);
      var issued := End(s, t).(certificates := s.certificates[fingerprint := certificate]);
      if w.writer.None? then issued
      else issued.(tokens := s.tokens[token := Token(false, Some(Min(notAfter, validity.notAfter)), w.writer,
                                                     Some(fingerprint), false)])
    case BeginRegister(t, fingerprint, _, issuer) => s.(work := s.work[t := Registering(fingerprint, issuer)])
    case CommitRegister(t, name, validity) =>
      var w := s.work[t];
      End(s, t).(certificates := s.certificates[w.fingerprint :=
        if w.fingerprint in s.certificates then s.certificates[w.fingerprint].(name := name)
        else Certificate(name, validity, w.issuer, false, false)])
    case BeginRevokeAuthority(t, a) => s.(work := s.work[t := RevokingAuthority(a)])
    case CommitRevokeAuthority(t) =>
      var a := s.work[t].authority;
      End(s, t).(authorities := s.authorities[a := s.authorities[a].(revoked := true)],
                 certificates := RevokeCertificatesOf(s.certificates, a))
    case RevokeCertificate(fingerprint) =>
      s.(certificates := s.certificates[fingerprint := s.certificates[fingerprint].(revoked := true)])
    case CreateToken(id, mayWrite, expires) => s.(tokens := s.tokens[id := Token(mayWrite, expires, None, None, false)])
    case BeginRevokeToken(t, p) => s.(work := s.work[t := RevokingToken(p)])
    case CommitRevokeToken(t) =>
      var p := s.work[t].token;
      End(s, t).(tokens := RevokeTokens(s.tokens, p), certificates := RevokeDeployed(s.certificates, s.tokens, p))
    case Abort(t) => End(s, t)
  }

  // ----- The invariant -----

  /** No unrevoked client certificate belongs to a revoked authority, and generated ones are valid, for
      some time, inside their authority's validity. */
  predicate CertificateWell(s: State, c: Certificate) {
    && (c.authority.Some? ==>
         c.authority.value in s.authorities
         && (s.authorities[c.authority.value].revoked ==> c.revoked))
    && (c.issued ==>
          && c.authority.Some?
          && s.authorities[c.authority.value].validity.notBefore <= c.validity.notBefore
          && c.validity.notBefore < c.validity.notAfter <= s.authorities[c.authority.value].validity.notAfter)
  }

  ghost predicate CertificatesWell(s: State) {
    forall f | f in s.certificates :: CertificateWell(s, s.certificates[f])
  }

  /** A deployment token outlives neither its writer nor its certificate, and falls with its writer. */
  predicate TokenWell(s: State, k: Token) {
    k.parent.Some? ==>
      && !k.writer && k.parent.value in s.tokens && k.certificate.Some? && k.certificate.value in s.certificates
      && k.expires.Some? && s.tokens[k.parent.value].expires.Some?
      && k.expires.value <= s.tokens[k.parent.value].expires.value
      && k.expires.value <= s.certificates[k.certificate.value].validity.notAfter
      && s.tokens[k.parent.value].writer
      && (s.tokens[k.parent.value].revoked ==> k.revoked)
      && (k.revoked ==> s.certificates[k.certificate.value].revoked)
  }

  ghost predicate TokensWell(s: State) {
    forall p | p in s.tokens :: TokenWell(s, s.tokens[p])
  }

  /** Every authority began at least five minutes ago. */
  ghost predicate AuthoritiesWell(s: State) {
    forall a | a in s.authorities :: Whole(s.authorities[a].validity)
        && s.authorities[a].validity.notBefore + 5 * MINUTE <= s.now
  }

  /** At most 32 active authorities, and no more than a creator counted while it holds its lock. */
  ghost predicate LimitKept(s: State) {
    && |ActiveAuthorities(s)| <= MAX_ACTIVE
    && (forall t | t in s.work && s.work[t].Creating? :: |ActiveAuthorities(s)| <= s.work[t].counted)
    && (forall t, u | t in s.work && u in s.work && s.work[t].Creating? && s.work[u].Creating? :: t == u)
  }

  /** What a transaction checked when it locked still holds, and its locks exclude the others. */
  predicate WorkWell(s: State, w: Work) {
    match w
    case Issuing(a, writer) =>
      && a in s.authorities && !s.authorities[a].revoked
      && (writer.Some? ==> writer.value in s.tokens && s.tokens[writer.value].writer && !s.tokens[writer.value].revoked)
    case Registering(_, issuer) => issuer.Some? ==>
        issuer.value in s.authorities && !s.authorities[issuer.value].revoked
    case _ => true
  }

  ghost predicate LocksExclude(s: State) {
    && (forall t, u | t in s.work && u in s.work && LockedAuthority(s.work[t]).Some?
                      && LockedAuthority(s.work[t]) == LockedAuthority(s.work[u]) :: t == u)
    && (forall t, u | t in s.work && u in s.work && s.work[t].Issuing? && s.work[u].RevokingToken? ::
          s.work[t].writer != Some(s.work[u].token))
    && (forall t | t in s.work :: WorkWell(s, s.work[t]))
  }

  ghost predicate Invariant(s: State) {
    CertificatesWell(s) && TokensWell(s) && AuthoritiesWell(s) && LimitKept(s) && LocksExclude(s)
  }

  // ----- Every step keeps it -----

  lemma SmallerSet<T>(a: set<T>, b: set<T>)
    requires a <= b
    ensures |a| <= |b|
  {
    assert b == a + (b - a);
  }

  /** Steps that change neither authorities nor what counts as active for the worse. */
  lemma LimitStep(s: State, now: State)
    requires LimitKept(s) && ActiveAuthorities(now) <= ActiveAuthorities(s)
    requires forall t | t in now.work && now.work[t].Creating? :: t in s.work && now.work[t] == s.work[t]
    ensures LimitKept(now)
  {
    hide ActiveAuthorities;
    SmallerSet(ActiveAuthorities(now), ActiveAuthorities(s));
  }

  /** Work in progress stays as it is until it ends, and new work holds new locks. */
  lemma WorkStep(s: State, step: Step, t: nat)
    requires Enabled(s, step) && t in Apply(s, step).work
    ensures t in s.work ==> Apply(s, step).work[t] == s.work[t]
    ensures t in s.work && step.CommitRevokeAuthority? ==> t != step.t
    ensures t in s.work && step.CommitRevokeToken? ==> t != step.t
    ensures var w := Apply(s, step).work[t];
            t !in s.work ==>
              && (w.Creating? ==> step.BeginCreate?)
              && (LockedAuthority(w).Some? ==> AuthorityFree(s, LockedAuthority(w).value))
              && (w.Issuing? && w.writer.Some? ==> TokenShareable(s, w.writer.value))
              && (w.RevokingToken? ==> TokenFree(s, w.token))
    ensures forall u | u in Apply(s, step).work && u !in s.work :: t in s.work || u == t
  {
    hide ClientValidity, AuthorityValidity, ActiveAuthorities, RevokeDeployed, RevokeCertificatesOf, RevokeTokens,
         TokenShareable, TokenFree, CreationFree, MayIssue, IsIssuer, AuthorityFree, TokenOrChild;
  }

  lemma AuthorityRevokedBy(s: State, step: Step, a: string)
    requires Enabled(s, step) && a in s.authorities && !s.authorities[a].revoked
    ensures a in Apply(s, step).authorities
    ensures Apply(s, step).authorities[a].revoked ==>
              step.CommitRevokeAuthority? && step.t in s.work && s.work[step.t] == RevokingAuthority(a)
  {
    hide ClientValidity, AuthorityValidity, ActiveAuthorities, RevokeDeployed, RevokeCertificatesOf, RevokeTokens,
         TokenShareable, TokenFree, CreationFree, MayIssue, IsIssuer, AuthorityFree, TokenOrChild;
  }

  lemma TokenRevokedBy(s: State, step: Step, p: string)
    requires Enabled(s, step) && p in s.tokens && !s.tokens[p].revoked
    ensures p in Apply(s, step).tokens && Apply(s, step).tokens[p].writer == s.tokens[p].writer
    ensures Apply(s, step).tokens[p].revoked ==>
              && step.CommitRevokeToken? && step.t in s.work && s.work[step.t].RevokingToken?
              && TokenOrChild(s.tokens, p, s.work[step.t].token)
  {
    hide ClientValidity, AuthorityValidity, ActiveAuthorities, RevokeDeployed, RevokeCertificatesOf,
         TokenShareable, TokenFree, CreationFree, MayIssue, IsIssuer, AuthorityFree, TokenOrChild;
  }

  lemma WriterIsNoChild(s: State, p: string)
    requires TokensWell(s) && p in s.tokens && s.tokens[p].writer
    ensures forall q :: TokenOrChild(s.tokens, p, q) ==> q == p
  {
    assert TokenWell(s, s.tokens[p]);
  }

  lemma KeepsLimit(s: State, step: Step)
    requires LimitKept(s) && Enabled(s, step)
    ensures LimitKept(Apply(s, step))
  {
    hide Enabled, Apply, ActiveAuthorities, LimitKept, AuthorityFree, TokenShareable, TokenFree;
    var now := Apply(s, step);
    ActiveStep(s, step);
    if step.CommitCreate? {
      SmallerSet(ActiveAuthorities(now), ActiveAuthorities(s) + {step.id});
      CreationEnds(s, step);
    } else if !step.BeginCreate? {
      forall t | t in now.work && now.work[t].Creating? ensures t in s.work && now.work[t] == s.work[t] {
        WorkStep(s, step, t);
      }
      LimitStep(s, now);
    } else {
      CreationBegins(s, step);
    }
  }

  lemma CreationBegins(s: State, step: Step)
    requires LimitKept(s) && Enabled(s, step) && step.BeginCreate?
    requires ActiveAuthorities(Apply(s, step)) == ActiveAuthorities(s)
    ensures LimitKept(Apply(s, step))
  {
    hide ActiveAuthorities;
  }

  lemma CreationEnds(s: State, step: Step)
    requires LimitKept(s) && Enabled(s, step) && step.CommitCreate?
    requires |ActiveAuthorities(Apply(s, step))| <= |ActiveAuthorities(s)| + 1
    ensures LimitKept(Apply(s, step))
  {
    hide ActiveAuthorities;
  }

  /** Creating an authority adds one active authority at most; nothing else adds any. */
  lemma ActiveStep(s: State, step: Step)
    requires Enabled(s, step)
    ensures ActiveAuthorities(Apply(s, step)) <= ActiveAuthorities(s) + if step.CommitCreate? then {step.id} else {}
    ensures step.BeginCreate? ==> ActiveAuthorities(Apply(s, step)) == ActiveAuthorities(s)
  {
    hide ClientValidity, RevokeCertificatesOf, RevokeTokens, RevokeDeployed, IsIssuer, AuthorityFree, TokenShareable,
         TokenFree, MayIssue, AuthorityValidity;
  }

  lemma KeepsAuthorities(s: State, step: Step)
    requires AuthoritiesWell(s) && Enabled(s, step)
    ensures AuthoritiesWell(Apply(s, step))
  {
    hide ClientValidity, RevokeCertificatesOf, RevokeTokens, RevokeDeployed, ActiveAuthorities, WholeSeconds;
    if step.CommitCreate? {
      var lifetime := if step.days == 0 then 5 * 365 else step.days;
      WholeSecondsMeaning(s.now - 5 * MINUTE, s.now);
      WholeSecondsMeaning(s.now + lifetime * DAY, s.now + lifetime * DAY);
    }
  }

  /** Authorities and certificates only ever become revoked; validities stay. */
  ghost predicate CertificateRowsStay(s: State, now: State) {
    && (forall a | a in s.authorities ::
         a in now.authorities
         && now.authorities[a].validity == s.authorities[a].validity
         && (s.authorities[a].revoked ==> now.authorities[a].revoked))
    && CertificatesStay(s.certificates, now.certificates)
  }

  ghost predicate CertificatesStay(was: map<string, Certificate>, now: map<string, Certificate>) {
    forall f | f in was ::
      f in now && now[f].(name := "", revoked := false) == was[f].(name := "", revoked := false)
      && (was[f].revoked ==> now[f].revoked)
  }

  lemma RevokedStay(certificates: map<string, Certificate>, tokens: map<string, Token>, key: string)
    ensures CertificatesStay(certificates, RevokeCertificatesOf(certificates, key))
    ensures CertificatesStay(certificates, RevokeDeployed(certificates, tokens, key))
  {
    hide TokenOrChild;
  }

  ghost predicate TokenRowsStay(s: State, now: State) {
    forall p | p in s.tokens ::
      p in now.tokens && now.tokens[p].(revoked := false) == s.tokens[p].(revoked := false)
          && (s.tokens[p].revoked ==> now.tokens[p].revoked)
  }

  lemma StepKeepsAuthorities(s: State, step: Step)
    requires Enabled(s, step)
    ensures forall a | a in s.authorities ::
              a in Apply(s, step).authorities
              && Apply(s, step).authorities[a].validity == s.authorities[a].validity
              && (s.authorities[a].revoked ==> Apply(s, step).authorities[a].revoked)
  {
    hide ClientValidity, ActiveAuthorities, IsIssuer, AuthorityFree, TokenOrChild, TokenShareable, TokenFree, MayIssue,
         RevokeCertificatesOf, RevokeTokens, RevokeDeployed;
  }

  lemma StepKeepsTokens(s: State, step: Step)
    requires Enabled(s, step)
    ensures TokenRowsStay(s, Apply(s, step))
  {
    hide ClientValidity, ActiveAuthorities, IsIssuer, AuthorityFree, TokenOrChild, TokenShareable, TokenFree, MayIssue,
         RevokeCertificatesOf, RevokeDeployed;
  }

  /** No row disappears and no revocation is undone. */
  lemma StepKeepsRows(s: State, step: Step)
    requires Enabled(s, step)
    ensures CertificateRowsStay(s, Apply(s, step)) && TokenRowsStay(s, Apply(s, step))
  {
    hide ClientValidity, ActiveAuthorities, IsIssuer, AuthorityFree, TokenOrChild, TokenShareable, TokenFree, MayIssue,
         TokenRowsStay, RevokeTokens, RevokeDeployed, RevokeCertificatesOf;
    forall a ensures CertificatesStay(s.certificates, RevokeCertificatesOf(s.certificates, a)) {
      RevokedStay(s.certificates, s.tokens, a);
    }
    forall p ensures CertificatesStay(s.certificates, RevokeDeployed(s.certificates, s.tokens, p)) {
      RevokedStay(s.certificates, s.tokens, p);
    }
    StepKeepsAuthorities(s, step);
    StepKeepsTokens(s, step);
  }

  lemma CertificateKept(s: State, step: Step, f: string)
    requires CertificatesWell(s) && Enabled(s, step) && f in s.certificates
    ensures f in Apply(s, step).certificates && CertificateWell(Apply(s, step), Apply(s, step).certificates[f])
  {
    hide ClientValidity, ActiveAuthorities, RevokeTokens, IsIssuer, AuthorityFree, TokenFree, TokenShareable,
         TokenOrChild, AuthorityValidity, MayIssue, CreationFree;
    assert CertificateWell(s, s.certificates[f]);
  }

  lemma CertificateRegistered(s: State, step: Step)
    requires LocksExclude(s) && Enabled(s, step) && step.CommitRegister?
    requires s.work[step.t].fingerprint !in s.certificates
    ensures CertificateWell(Apply(s, step), Apply(s, step).certificates[s.work[step.t].fingerprint])
  {
    assert WorkWell(s, s.work[step.t]);
  }

  /** A certificate that was not there before has just been issued or registered. */
  lemma NewCertificate(s: State, step: Step, f: string)
    requires Enabled(s, step) && f in Apply(s, step).certificates && f !in s.certificates
    ensures (step.CommitIssue? && f == step.fingerprint)
         || (step.CommitRegister? && f == s.work[step.t].fingerprint)
  {
    hide ClientValidity, ActiveAuthorities, RevokeTokens, IsIssuer, AuthorityFree, TokenFree, TokenShareable,
         TokenOrChild, AuthorityValidity, MayIssue, CreationFree;
  }

  lemma KeepsCertificates(s: State, step: Step)
    requires Invariant(s) && Enabled(s, step)
    ensures CertificatesWell(Apply(s, step))
  {
    hide Enabled, Apply, CertificateWell, WorkWell, TokensWell, LimitKept, AuthoritiesWell;
    var now := Apply(s, step);
    forall f | f in now.certificates ensures CertificateWell(now, now.certificates[f]) {
      if f in s.certificates {
        CertificateKept(s, step, f);
      } else {
        NewCertificate(s, step, f);
        if step.CommitIssue? {
          IssuedWell(s, step);
        } else {
          CertificateRegistered(s, step);
        }
      }
    }
  }

  lemma IssuedWell(s: State, step: Step)
    requires AuthoritiesWell(s) && LocksExclude(s) && Enabled(s, step) && step.CommitIssue?
    ensures var now := Apply(s, step);
            step.fingerprint in now.certificates && CertificateWell(now, now.certificates[step.fingerprint])
            && now.certificates[step.fingerprint].validity.notAfter <= step.notAfter
  {
    hide ClientValidity, ActiveAuthorities, IsIssuer, AuthorityFree, TokenFree, TokenShareable;
    assert WorkWell(s, s.work[step.t]);
    var authority := s.authorities[s.work[step.t].authority].validity;
    ClientInsideAuthority(authority, step.notAfter, s.now);
    Requested(authority, step.notAfter, s.now);
  }

  lemma Requested(authority: Validity, notAfter: Time, now: Time)
    requires ClientValidity(authority, notAfter, now).Some? && authority.notBefore + 5 * MINUTE <= now
    ensures authority.notBefore + SECOND <= notAfter
  {
  }

  /** Token steps, one token at a time. */
  lemma KeepsTokens(s: State, step: Step)
    requires Invariant(s) && Enabled(s, step)
    ensures TokensWell(Apply(s, step))
  {
    hide Enabled, Apply, CertificatesWell, AuthoritiesWell, LimitKept, LocksExclude, TokenWell, CertificateRowsStay,
         TokenRowsStay;
    var now := Apply(s, step);
    StepKeepsRows(s, step);
    forall p | p in now.tokens ensures TokenWell(now, now.tokens[p]) {
      if p in s.tokens {
        OldTokenKept(s, step, p);
      } else {
        NewTokenWell(s, step, p);
      }
    }
  }

  lemma NewTokenWell(s: State, step: Step, p: string)
    requires Invariant(s) && Enabled(s, step) && p !in s.tokens && p in Apply(s, step).tokens
    ensures TokenWell(Apply(s, step), Apply(s, step).tokens[p])
  {
    hide ClientValidity, ActiveAuthorities, IsIssuer, AuthorityFree, TokenFree, TokenShareable, CertificatesWell,
         TokensWell, LimitKept,
         AuthorityValidity, RevokeCertificatesOf, RevokeDeployed;
    if step.CommitIssue? {
      assert WorkWell(s, s.work[step.t]);
      IssuedWell(s, step);
    }
  }

  lemma OldTokenKept(s: State, step: Step, p: string)
    requires Invariant(s) && Enabled(s, step) && p in s.tokens && p in Apply(s, step).tokens
    requires CertificateRowsStay(s, Apply(s, step)) && TokenRowsStay(s, Apply(s, step))
    ensures TokenWell(Apply(s, step), Apply(s, step).tokens[p])
  {
    hide CertificatesWell, AuthoritiesWell, LimitKept, LocksExclude;
    assert TokenWell(s, s.tokens[p]);
    if step.CommitRevokeToken? {
      RevokedTokenKept(s, step, p);
    } else {
      TokensUnrevoked(s, step, p);
    }
  }

  /** Only a token revocation changes a token that is there. */
  lemma TokensUnrevoked(s: State, step: Step, p: string)
    requires Enabled(s, step) && !step.CommitRevokeToken? && p in s.tokens
    ensures p in Apply(s, step).tokens && Apply(s, step).tokens[p] == s.tokens[p]
    ensures s.tokens[p].parent.Some? && s.tokens[p].parent.value in s.tokens ==>
              Apply(s, step).tokens[s.tokens[p].parent.value] == s.tokens[s.tokens[p].parent.value]
  {
    hide ClientValidity, ActiveAuthorities, IsIssuer, AuthorityFree, TokenFree, TokenShareable, AuthorityValidity,
         RevokeCertificatesOf;
  }

  lemma RevokedTokenKept(s: State, step: Step, p: string)
    requires Enabled(s, step) && step.CommitRevokeToken? && p in s.tokens && TokensWell(s)
    requires CertificateRowsStay(s, Apply(s, step))
    ensures TokenWell(Apply(s, step), Apply(s, step).tokens[p])
  {
    var k, r := s.tokens[p], s.work[step.t].token;
    assert TokenWell(s, k);
    assert k.parent.Some? && k.parent.value in s.tokens ==> TokenWell(s, s.tokens[k.parent.value]);
    if k.parent.Some? && TokenOrChild(s.tokens, p, r) {
      assert k.certificate == Some(k.certificate.value);
    }
  }

  lemma KeepsLocks(s: State, step: Step)
    requires Invariant(s) && Enabled(s, step)
    ensures LocksExclude(Apply(s, step))
  {
    hide Enabled, Apply, CertificatesWell, AuthoritiesWell, LimitKept, WorkWell;
    KeepsExclusion(s, step);
    var now := Apply(s, step);
    forall t | t in now.work ensures WorkWell(now, now.work[t]) {
      KeepsWork(s, step, t);
    }
  }

  lemma KeepsExclusion(s: State, step: Step)
    requires LocksExclude(s) && Enabled(s, step)
    ensures var w := Apply(s, step).work;
            && (forall t, u | t in w && u in w && LockedAuthority(w[t]).Some?
                && LockedAuthority(w[t]) == LockedAuthority(w[u]) :: t == u)
            && (forall t, u | t in w && u in w && w[t].Issuing? && w[u].RevokingToken? ::
                w[t].writer != Some(w[u].token))
  {
    hide WorkWell, Enabled, Apply;
    var w := Apply(s, step).work;
    forall t | t in w ensures t in s.work ==> w[t] == s.work[t] {
      WorkStep(s, step, t);
    }
    forall t, u | t in w && u in w && LockedAuthority(w[t]).Some? && LockedAuthority(w[t]) == LockedAuthority(w[u])
      ensures t == u
    {
      WorkStep(s, step, t);
      WorkStep(s, step, u);
    }
    forall t, u | t in w && u in w && w[t].Issuing? && w[u].RevokingToken? ensures w[t].writer != Some(w[u].token) {
      WorkStep(s, step, t);
      WorkStep(s, step, u);
    }
  }

  lemma NewWork(s: State, step: Step, t: nat)
    requires Enabled(s, step) && t in Apply(s, step).work && t !in s.work
    ensures WorkWell(Apply(s, step), Apply(s, step).work[t])
  {
    hide ClientValidity, AuthorityValidity, ActiveAuthorities, RevokeDeployed, RevokeCertificatesOf, RevokeTokens,
         TokenShareable, TokenFree, CreationFree;
  }

  /** What work in progress relies on: its authority is not revoked by others, its writer is no child. */
  lemma OldWork(s: State, step: Step, t: nat)
    requires TokensWell(s) && LocksExclude(s) && Enabled(s, step) && t in Apply(s, step).work && t in s.work
    ensures WorkWell(Apply(s, step), Apply(s, step).work[t])
  {
    hide Enabled, Apply, TokensWell;
    WorkStep(s, step, t);
    assert WorkWell(s, s.work[t]);
    match s.work[t]
    case Issuing(a, writer) =>
      AuthorityRevokedBy(s, step, a);
      if writer.Some? {
        TokenRevokedBy(s, step, writer.value);
        WriterIsNoChild(s, writer.value);
      }
    case Registering(_, issuer) =>
      if issuer.Some? {
        AuthorityRevokedBy(s, step, issuer.value);
      }
    case _ =>
  }

  lemma KeepsWork(s: State, step: Step, t: nat)
    requires TokensWell(s) && LocksExclude(s) && Enabled(s, step) && t in Apply(s, step).work
    ensures WorkWell(Apply(s, step), Apply(s, step).work[t])
  {
    hide ClientValidity, AuthorityValidity, ActiveAuthorities, RevokeDeployed, RevokeCertificatesOf, RevokeTokens,
         TokenOrChild, LocksExclude, TokenWell, WorkWell;
    if t in s.work {
      OldWork(s, step, t);
    } else {
      NewWork(s, step, t);
    }
  }

  lemma StepKeeps(s: State, step: Step)
    requires Invariant(s) && Enabled(s, step)
    ensures Invariant(Apply(s, step)) && CertificateRowsStay(s, Apply(s, step)) && TokenRowsStay(s, Apply(s, step))
  {
    hide Enabled, Apply, CertificatesWell, TokensWell, AuthoritiesWell, LimitKept, LocksExclude, CertificateRowsStay,
         TokenRowsStay;
    KeepsCertificates(s, step);
    KeepsTokens(s, step);
    KeepsAuthorities(s, step);
    KeepsLimit(s, step);
    KeepsLocks(s, step);
    StepKeepsRows(s, step);
  }

  // ----- Runs -----

  predicate Fresh(s: State) {
    s.authorities == map[] && s.certificates == map[] && s.tokens == map[] && s.work == map[]
  }

  lemma FreshInvariant(s: State)
    requires Fresh(s)
    ensures Invariant(s)
  {
    assert ActiveAuthorities(s) == {};
  }

  ghost predicate IsRun(states: seq<State>, steps: seq<Step>) {
    && |states| == |steps| + 1 && Fresh(states[0])
    && forall i | 0 <= i < |steps| :: Enabled(states[i], steps[i]) && states[i + 1] == Apply(states[i], steps[i])
  }

  /** In every interleaving: no unrevoked certificate under a revoked authority, certificates inside their
      authority, deployment tokens inside their writer and certificate, and at most 32 active authorities. */
  lemma {:induction false} RunKeeps(states: seq<State>, steps: seq<Step>, i: nat)
    requires IsRun(states, steps) && i < |states|
    ensures Invariant(states[i])
  {
    hide Invariant, Enabled, Apply, Fresh;
    if i == 0 {
      FreshInvariant(states[0]);
    } else {
      RunKeeps(states, steps, i - 1);
      StepKeeps(states[i - 1], steps[i - 1]);
    }
  }

  /** Revocations are never undone, and no row is ever lost. */
  lemma {:induction false} RevocationsAreFinal(states: seq<State>, steps: seq<Step>, i: nat, j: nat)
    requires IsRun(states, steps) && i <= j < |states|
    ensures CertificateRowsStay(states[i], states[j]) && TokenRowsStay(states[i], states[j])
    decreases j - i
  {
    hide Enabled, Apply, Fresh;
    if i < j {
      RevocationsAreFinal(states, steps, i, j - 1);
      StepKeepsRows(states[j - 1], steps[j - 1]);
    }
  }
}
