/** What a revocation reaches, row by row, and that nobody comes back from it: of a token, the tokens it has
    made and their certificates; of an authority, its certificates. Exact validities of what is generated. */
module Revocations {
  import opened Ordering
  import opened Authorities

  // ----- Validities -----

  /** The deadline lies ahead, within a year, and the authority is valid now; the certificate begins five minutes
      back and ends with its deadline, both inside the authority's validity and cut to whole seconds. */
  lemma ClientExactly(authority: Validity, notAfter: Time, now: Time)
    requires Whole(authority)
    ensures ClientValidity(authority, notAfter, now).Some? <==>
            now < notAfter <= now + 365 * DAY && authority.notBefore <= now < authority.notAfter
    ensures ClientValidity(authority, notAfter, now).Some? ==>
              var v := ClientValidity(authority, notAfter, now).value;
              && Whole(v)
              && (v.notBefore == authority.notBefore || now - 5 * MINUTE - SECOND < v.notBefore <= now - 5 * MINUTE)
              && (v.notBefore == authority.notBefore <==> now - 5 * MINUTE < authority.notBefore + SECOND)
              && (v.notAfter == authority.notAfter || notAfter - SECOND < v.notAfter <= notAfter)
              && v.notAfter <= authority.notAfter && v.notAfter <= notAfter
  {
    var from, to := Max(now - 5 * MINUTE, authority.notBefore), Min(notAfter, authority.notAfter);
    WholeSecondsMeaning(from, to);
    WholeSecondsMeaning(to, to);
    WholeSecondsMeaning(authority.notBefore, from);
    WholeSecondsMeaning(authority.notAfter, authority.notAfter);
    WholeGap(authority.notBefore, WholeSeconds(from));
  }

  /** An authority begins five minutes back and lasts as many days as asked for, or five years, to the second. */
  lemma AuthorityExactly(days: int, now: Time)
    requires AuthorityValidity(days, now).Some?
    ensures var v, asked := AuthorityValidity(days, now).value, if days == 0 then 1825 else days;
            && now - 5 * MINUTE - SECOND < v.notBefore <= now - 5 * MINUTE
            && now + asked * DAY - SECOND < v.notAfter <= now + asked * DAY
  {
    hide WholeSeconds;
    var asked := if days == 0 then 1825 else days;
    WholeSecondsMeaning(now - 5 * MINUTE, now);
    WholeSecondsMeaning(now + asked * DAY, now + asked * DAY);
  }

  // ----- A token with all it has made -----

  /** Exactly the token, the tokens it has made and the certificates of these are revoked; everything else is as
      it was. */
  ghost predicate FamilyRevoked(was: State, now: State, p: string) {
    && now.now == was.now && now.authorities == was.authorities
    && now.tokens.Keys == was.tokens.Keys && now.certificates.Keys == was.certificates.Keys
    && (forall q | q in was.tokens ::
          now.tokens[q] == if q == p || was.tokens[q].parent == Some(p) then was.tokens[q].(revoked := true)
                           else was.tokens[q])
    && (forall f | f in was.certificates ::
          now.certificates[f] == if HeldInFamily(was.tokens, p, f) then was.certificates[f].(revoked := true)
                                 else was.certificates[f])
  }

  /** The certificate belongs to the token or to one that it has made. */
  ghost predicate HeldInFamily(tokens: map<string, Token>, p: string, f: string) {
    exists q :: q in tokens && (q == p || tokens[q].parent == Some(p)) && tokens[q].certificate == Some(f)
  }

  lemma FamilyMeans(rows: map<string, Token>, p: string)
    ensures RevokeTokens(rows, p).Keys == rows.Keys
    ensures forall q | q in rows ::
              RevokeTokens(rows, p)[q] == if q == p || rows[q].parent == Some(p) then rows[q].(revoked := true)
                                          else rows[q]
  {
  }

  lemma DeployedMeans(rows: map<string, Certificate>, tokens: map<string, Token>, p: string)
    ensures RevokeDeployed(rows, tokens, p).Keys == rows.Keys
    ensures forall f | f in rows ::
              RevokeDeployed(rows, tokens, p)[f] == if HeldInFamily(tokens, p, f) then rows[f].(revoked := true)
                                                    else rows[f]
  {
    assert forall q | q in tokens :: TokenOrChild(tokens, q, p) <==> q == p || tokens[q].parent == Some(p);
  }

  lemma TokenStepMeans(s: State, t: nat)
    requires Enabled(s, CommitRevokeToken(t))
    ensures FamilyRevoked(s, Apply(s, CommitRevokeToken(t)), s.work[t].token)
  {
    hide RevokeTokens, RevokeDeployed;
    FamilyMeans(s.tokens, s.work[t].token);
    DeployedMeans(s.certificates, s.tokens, s.work[t].token);
  }

  /** Once a token has been revoked, no later state lets it issue, neither it nor a token it had made is live, and
      the certificates of these stay revoked. */
  lemma RevokedForGood(states: seq<State>, steps: seq<Step>, i: nat, j: nat, q: string)
    requires IsRun(states, steps) && i < j < |states| && steps[i].CommitRevokeToken?
    requires q in states[i].tokens
    requires var p := states[i].work[steps[i].t].token; q == p || states[i].tokens[q].parent == Some(p)
    ensures q in states[j].tokens && states[j].tokens[q].revoked
    ensures !MayIssue(states[j], q) && forall t, a :: !Enabled(states[j], BeginIssue(t, a, Some(q)))
    ensures var f := states[i].tokens[q].certificate;
            f.Some? && f.value in states[i].certificates ==>
              f.value in states[j].certificates && states[j].certificates[f.value].revoked
  {
    hide Apply, Invariant;
    assert Enabled(states[i], steps[i]) && states[i + 1] == Apply(states[i], steps[i]);
    TokenStepMeans(states[i], steps[i].t);
    RevocationsAreFinal(states, steps, i + 1, j);
    var f := states[i].tokens[q].certificate;
    assert f.Some? ==> HeldInFamily(states[i].tokens, states[i].work[steps[i].t].token, f.value);
  }

  // ----- An authority with all it has certified -----

  /** The authority and exactly its certificates are revoked; everything else is as it was. */
  ghost predicate AuthorityRevoked(was: State, now: State, a: string) {
    && now.now == was.now && now.tokens == was.tokens
    && now.authorities.Keys == was.authorities.Keys && now.certificates.Keys == was.certificates.Keys
    && (forall b | b in was.authorities ::
          now.authorities[b] == if b == a then was.authorities[b].(revoked := true) else was.authorities[b])
    && (forall f | f in was.certificates ::
          now.certificates[f] == if was.certificates[f].authority == Some(a) then was.certificates[f].(revoked := true)
                                 else was.certificates[f])
  }

  lemma AuthorityStepMeans(s: State, t: nat)
    requires Enabled(s, CommitRevokeAuthority(t))
    ensures AuthorityRevoked(s, Apply(s, CommitRevokeAuthority(t)), s.work[t].authority)
  {
  }

  /** Once an authority has been revoked, it and the certificates it had stay revoked, and nothing is issued under
      it again. */
  lemma AuthorityRevokedForGood(states: seq<State>, steps: seq<Step>, i: nat, j: nat, f: string)
    requires IsRun(states, steps) && i < j < |states| && steps[i].CommitRevokeAuthority?
    ensures var a := states[i].work[steps[i].t].authority;
            && a in states[j].authorities && states[j].authorities[a].revoked
            && (forall t, writer :: !Enabled(states[j], BeginIssue(t, a, writer)))
            && (f in states[j].certificates && states[j].certificates[f].authority == Some(a) ==>
                  states[j].certificates[f].revoked)
  {
    hide Apply;
    assert Enabled(states[i], steps[i]) && states[i + 1] == Apply(states[i], steps[i]);
    AuthorityStepMeans(states[i], steps[i].t);
    RevocationsAreFinal(states, steps, i + 1, j);
    RunKeeps(states, steps, j);
    if f in states[j].certificates {
      CertificateOf(states[j], f);
    }
  }

  lemma CertificateOf(s: State, f: string)
    requires Invariant(s) && f in s.certificates
    ensures CertificateWell(s, s.certificates[f])
  {
    hide TokensWell, AuthoritiesWell, LimitKept, LocksExclude, CertificateWell;
  }
}
