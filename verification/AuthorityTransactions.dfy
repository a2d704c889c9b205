/** The certificate and token transactions as the source runs them, when their locks are granted at once:
    each is the step that locks followed by the step that commits, or changes nothing. */
module AuthorityTransactions {
  import opened Ordering
  import opened Authorities
  import opened Revocations

  datatype Outcome = Done | Unchanged | Refused

  class Tables {
    var state: State

    constructor (state: State)
      ensures this.state == state
    {
      this.state := state;
    }

    /** RevokeCertificateAuthority: one UPDATE on the authority, one on its certificates. It revokes the authority
        and exactly its certificates. */
    method RevokeCertificateAuthority(t: nat, a: string) returns (outcome: Outcome)
      requires t !in state.work && AuthorityFree(state, a)
      modifies this
      ensures outcome == if a !in old(state).authorities then Refused
                         else if old(state).authorities[a].revoked then Unchanged else Done
      ensures outcome != Done ==> state == old(state)
      ensures outcome == Done ==> AuthorityRevoked(old(state), state, a) && state.work == old(state).work
      ensures outcome == Done ==>
                && Enabled(old(state), BeginRevokeAuthority(t, a))
                && Enabled(Apply(old(state), BeginRevokeAuthority(t, a)), CommitRevokeAuthority(t))
                && state == Apply(Apply(old(state), BeginRevokeAuthority(t, a)), CommitRevokeAuthority(t))
    {
      if a !in state.authorities {
        return Refused;
      }
      if state.authorities[a].revoked {
        return Unchanged;
      }
      AuthorityMeans(state, t, a);
      var authorities := state.authorities[a := state.authorities[a].(revoked := true)];
      var certificates := UpdateCertificates(state.certificates, a);
      assert state.work[t := RevokingAuthority(a)] - {t} == state.work;
      state := state.(authorities := authorities, certificates := certificates);
      outcome := Done;
    }

    /** UPDATE client_certificates ... WHERE authority_id = ? AND revoked_at IS NULL, row by row. */
    method UpdateCertificates(rows: map<string, Certificate>, a: string) returns (now: map<string, Certificate>)
      ensures now == RevokeCertificatesOf(rows, a)
    {
      now := rows;
      var left := rows.Keys;
      while left != {}
        invariant left <= rows.Keys && now.Keys == rows.Keys
        invariant forall f | f in rows ::
                    now[f] == if f in left then rows[f] else RevokeCertificatesOf(rows, a)[f]
        decreases |left|
      {
        var f :| f in left;
        if now[f].authority == Some(a) && !now[f].revoked {
          now := now[f := now[f].(revoked := true)];
        }
        left := left - {f};
      }
      assert now == RevokeCertificatesOf(rows, a);
    }

    /** issueClientCertificateRecord inside IssueClientCertificate. */
    method IssueClientCertificate(t: nat, a: string, fingerprint: string, name: string, notAfter: Time)
      returns (outcome: Outcome)
      requires t !in state.work && AuthorityFree(state, a) && fingerprint !in state.certificates
      modifies this
      ensures outcome == if && a in old(state).authorities && !old(state).authorities[a].revoked
                            && ClientValidity(old(state).authorities[a].validity, notAfter, old(state).now).Some? then
                                Done else Refused
      ensures outcome == Refused ==> state == old(state)
      ensures outcome == Done ==>
                var validity := ClientValidity(old(state).authorities[a].validity, notAfter, old(state).now).value;
                state == old(state).(certificates := old(state).certificates[fingerprint :=
                                       Certificate(name, validity, Some(a), true, false)])
      ensures outcome == Done ==>
                && Enabled(old(state), BeginIssue(t, a, None))
                && Enabled(Apply(old(state), BeginIssue(t, a, None)), CommitIssue(t, fingerprint, name, notAfter, ""))
                && state == Apply(Apply(old(state), BeginIssue(t, a, None)),
                                  CommitIssue(t, fingerprint, name, notAfter, ""))
    {
      hide ClientValidity;
      if a !in state.authorities || state.authorities[a].revoked {
        return Refused;
      }
      var validity := ClientValidity(state.authorities[a].validity, notAfter, state.now);
      if validity.None? {
        return Refused;
      }
      assert state.work[t := Issuing(a, None)] - {t} == state.work;
      var certificate := Certificate(name, validity.value, Some(a), true, false);
      state := state.(certificates := state.certificates[fingerprint := certificate]);
      outcome := Done;
    }

    /** issueDeploymentCredential: a certificate and a token that share the earlier deadline. */
    method IssueDeploymentCredential(t: nat, writer: string, a: string, fingerprint: string, name: string,
                                     expiresAt: Time, token: string)
      returns (outcome: Outcome)
      requires t !in state.work && AuthorityFree(state, a) && TokenShareable(state, writer)
      requires fingerprint !in state.certificates && token !in state.tokens
      modifies this
      ensures outcome == if && writer in old(state).tokens && old(state).tokens[writer].writer
                            && !old(state).tokens[writer].revoked && old(state).tokens[writer].expires.Some?
                            && old(state).now < expiresAt <= old(state).tokens[writer].expires.value
                            && a in old(state).authorities && !old(state).authorities[a].revoked
                            && ClientValidity(old(state).authorities[a].validity, expiresAt,
                                              old(state).now).Some? then Done else Refused
      ensures outcome == Refused ==> state == old(state)
      ensures outcome == Done ==>
                var validity := ClientValidity(old(state).authorities[a].validity, expiresAt, old(state).now).value;
                var ends := if validity.notAfter < expiresAt then validity.notAfter else expiresAt;
                state == old(state).(
                  certificates := old(state).certificates[fingerprint :=
                    Certificate(name, validity, Some(a), true, false)],
                  tokens := old(state).tokens[token :=
                    Token(false, Some(ends), Some(writer), Some(fingerprint), false)])
      ensures outcome == Done ==>
                && Enabled(old(state), BeginIssue(t, a, Some(writer)))
                && Enabled(Apply(old(state), BeginIssue(t, a, Some(writer))),
                           CommitIssue(t, fingerprint, name, expiresAt, token))
                && state == Apply(Apply(old(state), BeginIssue(t, a, Some(writer))),
                                  CommitIssue(t, fingerprint, name, expiresAt, token))
    {
      hide ClientValidity;
      if !MayIssue(state, writer) {
        return Refused;
      }
      if !(state.now < expiresAt) || expiresAt > state.tokens[writer].expires.value {
        return Refused;
      }
      if a !in state.authorities || state.authorities[a].revoked {
        return Refused;
      }
      var validity := ClientValidity(state.authorities[a].validity, expiresAt, state.now);
      if validity.None? {
        return Refused;
      }
      var expires := expiresAt;
      if validity.value.notAfter < expires {
        expires := validity.value.notAfter;
      }
      assert state.work[t := Issuing(a, Some(writer))] - {t} == state.work;
      var certificate := Certificate(name, validity.value, Some(a), true, false);
      state := state.(certificates := state.certificates[fingerprint := certificate]);
      state := state.(tokens := state.tokens[token := Token(false, Some(expires), Some(writer), Some(fingerprint),
                                                            false)]);
      outcome := Done;
    }

    /** RegisterVerifiedClientCertificate; `rows` is the authorities' query result, ordered by identifier. */
    method RegisterVerifiedClientCertificate(t: nat, fingerprint: string, name: string, validity: Validity,
                                             signers: set<string>,
                                             rows: seq<string>)
      returns (outcome: Outcome, ghost issuer: Option<string>)
      requires t !in state.work && Ascending(rows) && Elements(rows) == state.authorities.Keys
      requires forall a | IsIssuer(state, signers, Some(a)) :: AuthorityFree(state, a)
      modifies this
      ensures IsIssuer(old(state), signers, issuer)
      ensures outcome == if issuer.Some? && old(state).authorities[issuer.value].revoked then Refused
                         else if fingerprint !in old(state).certificates then Done
                         else if old(state).certificates[fingerprint].revoked then Refused
                         else if old(state).certificates[fingerprint].name == name then Unchanged else Done
      ensures outcome != Done ==> state == old(state)
      ensures outcome == Done ==>
                state == old(state).(certificates := old(state).certificates[fingerprint :=
                                       if fingerprint in old(state).certificates
                                       then old(state).certificates[fingerprint].(name := name)
                                       else Certificate(name, validity, issuer, false, false)])
      ensures outcome == Done ==>
                && Enabled(old(state), BeginRegister(t, fingerprint, signers, issuer))
                && Enabled(Apply(old(state), BeginRegister(t, fingerprint, signers, issuer)),
                           CommitRegister(t, name, validity))
                && state == Apply(Apply(old(state), BeginRegister(t, fingerprint, signers, issuer)),
                                  CommitRegister(t, name, validity))
    {
      var matched := ManagedCertificateIssuer(rows, signers);
      issuer := matched;
      MatchedIsIssuer(state, rows, signers, matched);
      if matched.Some? && state.authorities[matched.value].revoked {
        return Refused, issuer;
      }
      assert state.work[t := Registering(fingerprint, issuer)] - {t} == state.work;
      if fingerprint in state.certificates {
        var existing := state.certificates[fingerprint];
        if existing.revoked {
          return Refused, issuer;
        }
        if existing.name == name {
          return Unchanged, issuer;
        }
        state := state.(certificates := state.certificates[fingerprint := existing.(name := name)]);
      } else {
        var certificate := Certificate(name, validity, matched, false, false);
        state := state.(certificates := state.certificates[fingerprint := certificate]);
      }
      outcome := Done;
    }

    /** RevokeToken and RevokeDeploymentCredential around revokeTokenAndDeployments. They revoke exactly the token,
        the tokens it has made and the certificates of these. */
    method RevokeToken(t: nat, p: string) returns (outcome: Outcome)
      requires t !in state.work && TokenFree(state, p)
      modifies this
      ensures outcome == if p !in old(state).tokens then Refused else if old(state).tokens[p].revoked then Unchanged
              else Done
      ensures outcome != Done ==> state == old(state)
      ensures outcome == Done ==> FamilyRevoked(old(state), state, p) && state.work == old(state).work
      ensures outcome == Done ==>
                && Enabled(old(state), BeginRevokeToken(t, p))
                && Enabled(Apply(old(state), BeginRevokeToken(t, p)), CommitRevokeToken(t))
                && state == Apply(Apply(old(state), BeginRevokeToken(t, p)), CommitRevokeToken(t))
    {
      hide TokenOrChild, FamilyRevoked;
      if p !in state.tokens {
        return Refused;
      }
      if state.tokens[p].revoked {
        return Unchanged;
      }
      RevocationMeans(state, t, p);
      var certificates := RevokeDeployedCertificates(state.certificates, state.tokens, p);
      var tokens := RevokeFamily(state.tokens, p);
      assert state.work[t := RevokingToken(p)] - {t} == state.work;
      state := state.(certificates := certificates, tokens := tokens);
      outcome := Done;
    }

    /** The UPDATE that joins certificates with the token and its children, token by token. */
    method RevokeDeployedCertificates(rows: map<string, Certificate>, tokens: map<string, Token>, p: string)
      returns (now: map<string, Certificate>)
      ensures now == RevokeDeployed(rows, tokens, p) && now.Keys == rows.Keys
      ensures forall f | f in rows ::
                now[f] == if HeldInFamily(tokens, p, f) then rows[f].(revoked := true) else rows[f]
    {
      hide TokenOrChild, JoinedBy, RevokeDeployed, HeldInFamily;
      now := rows;
      var left := tokens.Keys;
      NothingJoined(tokens, p);
      while left != {}
        invariant left <= tokens.Keys && now.Keys == rows.Keys
        invariant forall f | f in rows :: now[f] == if JoinedBy(tokens, tokens.Keys - left, p, f) then
                  rows[f].(revoked := true) else rows[f]
        decreases |left|
      {
        var q :| q in left;
        JoinedStep(tokens, tokens.Keys - left, p, q);
        assert tokens.Keys - (left - {q}) == tokens.Keys - left + {q};
        if TokenOrChild(tokens, q, p) && tokens[q].certificate.Some? && tokens[q].certificate.value in now {
          var f := tokens[q].certificate.value;
          now := now[f := now[f].(revoked := true)];
        }
        left := left - {q};
      }
      assert tokens.Keys - left == tokens.Keys;
      AllJoined(rows, tokens, p, now);
      DeployedMeans(rows, tokens, p);
    }

    method RevokeFamily(rows: map<string, Token>, p: string) returns (now: map<string, Token>)
      ensures now == RevokeTokens(rows, p) && now.Keys == rows.Keys
      ensures forall q | q in rows ::
                now[q] == if q == p || rows[q].parent == Some(p) then rows[q].(revoked := true) else rows[q]
    {
      hide TokenOrChild;
      FamilyMeans(rows, p);
      now := rows;
      var left := rows.Keys;
      while left != {}
        invariant left <= rows.Keys && now.Keys == rows.Keys
        invariant forall q | q in rows :: now[q] == if q in left then rows[q] else RevokeTokens(rows, p)[q]
        decreases |left|
      {
        var q :| q in left;
        if TokenOrChild(rows, q, p) {
          now := now[q := now[q].(revoked := true)];
        }
        left := left - {q};
      }
      assert now == RevokeTokens(rows, p);
    }
  }

  /** The certificate belongs to one of these tokens, and the token is p or a child of p. */
  ghost predicate JoinedBy(tokens: map<string, Token>, some: set<string>, p: string, f: string) {
    exists q :: q in some && q in tokens && TokenOrChild(tokens, q, p) && tokens[q].certificate == Some(f)
  }

  lemma NothingJoined(tokens: map<string, Token>, p: string)
    ensures tokens.Keys - tokens.Keys == {} && forall f :: !JoinedBy(tokens, {}, p, f)
  {
  }

  lemma AllJoined(rows: map<string, Certificate>, tokens: map<string, Token>, p: string, now: map<string, Certificate>)
    requires now.Keys == rows.Keys
    requires forall f | f in rows :: now[f] == if JoinedBy(tokens, tokens.Keys, p, f) then rows[f].(revoked := true)
             else rows[f]
    ensures now == RevokeDeployed(rows, tokens, p)
  {
    hide TokenOrChild;
    forall f | f in rows ensures now[f] == RevokeDeployed(rows, tokens, p)[f] {
      assert JoinedBy(tokens, tokens.Keys, p, f) <==>
             exists q :: q in tokens && TokenOrChild(tokens, q, p) && tokens[q].certificate == Some(f);
    }
  }

  lemma JoinedStep(tokens: map<string, Token>, some: set<string>, p: string, q: string)
    requires q in tokens
    ensures forall f :: JoinedBy(tokens, some + {q}, p, f) <==>
                        JoinedBy(tokens, some, p, f) || (TokenOrChild(tokens, q, p) && tokens[q].certificate == Some(f))
  {
    hide TokenOrChild;
    forall f ensures JoinedBy(tokens, some + {q}, p, f) <==>
                     JoinedBy(tokens, some, p, f) || (TokenOrChild(tokens, q, p) && tokens[q].certificate == Some(f))
    {
      if JoinedBy(tokens, some, p, f) {
        var r :| r in some && r in tokens && TokenOrChild(tokens, r, p) && tokens[r].certificate == Some(f);
        assert r in some + {q};
      }
      if TokenOrChild(tokens, q, p) && tokens[q].certificate == Some(f) {
        assert q in some + {q};
      }
    }
  }

  lemma MatchedIsIssuer(s: State, rows: seq<string>, signers: set<string>, matched: Option<string>)
    requires Elements(rows) == s.authorities.Keys
    requires match matched
             case None => forall a | a in rows :: a !in signers
             case Some(i) => i in rows && i in signers && forall a | a in rows && a in signers :: a == i || Less(a, i)
    ensures IsIssuer(s, signers, matched)
  {
    assert forall a :: a in rows <==> a in Elements(rows);
  }

  /** Locking and committing at once revokes the family. */
  lemma RevocationMeans(s: State, t: nat, p: string)
    requires t !in s.work && TokenFree(s, p) && p in s.tokens
    ensures Enabled(s, BeginRevokeToken(t, p))
    ensures var locked := Apply(s, BeginRevokeToken(t, p));
            Enabled(locked, CommitRevokeToken(t)) && FamilyRevoked(s, Apply(locked, CommitRevokeToken(t)), p)
  {
    hide TokenFree, RevokeTokens, RevokeDeployed;
    var locked := Apply(s, BeginRevokeToken(t, p));
    TokenStepMeans(locked, t);
  }

  lemma AuthorityMeans(s: State, t: nat, a: string)
    requires t !in s.work && AuthorityFree(s, a) && a in s.authorities
    ensures Enabled(s, BeginRevokeAuthority(t, a))
    ensures var locked := Apply(s, BeginRevokeAuthority(t, a));
            && Enabled(locked, CommitRevokeAuthority(t))
            && AuthorityRevoked(s, Apply(locked, CommitRevokeAuthority(t)), a)
  {
    hide AuthorityFree, RevokeCertificatesOf;
    AuthorityStepMeans(Apply(s, BeginRevokeAuthority(t, a)), t);
  }
}
