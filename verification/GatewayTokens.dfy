/** Tokens of gateways: which ones a lookup by prefix finds, and that revoked ones are never found again. */
module GatewayTokens {
  import opened Common
  import opened Tables
  import opened Transactions
  import opened DeploymentRuns

  /** The tokens that the lookup by prefix selects from. */
  function ActiveWith(db: Db, prefix: string): set<Id> {
    set t | t in db.tokens && db.tokens[t].active && db.tokens[t].prefix == prefix
  }

  /** The lookup has at most one answer. */
  lemma LookupIsUnique(db: Db, prefix: string)
    requires Consistent(db)
    ensures |ActiveWith(db, prefix)| <= 1
  {
    var found := ActiveWith(db, prefix);
    if t :| t in found {
      assert found == {t};
    }
  }

  /**
   * An active token is created iff its id is new, its gateway exists, it is not revoked and
   * its prefix is not in use. The lookup then finds it, and for other prefixes what it found before.
   */
  lemma CreateTokenContract(db: Db, t: Id, row: Token)
    requires row.active
    ensures var o := CreateToken(db, t, row);
            && (o.Committed? <==> t !in db.tokens && row.gateway in db.gateways && row.revokedAt.None?
                                  && ActiveWith(db, row.prefix) == {})
            && (o.Committed? ==>
                  forall p :: ActiveWith(o.db, p) == if p == row.prefix then {t} else ActiveWith(db, p))
  {
    assert ActivePrefixTaken(db, row.prefix) <==> ActiveWith(db, row.prefix) != {} by {
      if ActivePrefixTaken(db, row.prefix) {
        var u :| u in db.tokens && db.tokens[u].active && db.tokens[u].prefix == row.prefix;
        assert u in ActiveWith(db, row.prefix);
      }
    }
  }

  /** Revoking takes the token out of the lookup for its prefix and changes no other answer. */
  lemma RevokeTokenContract(db: Db, t: Id, now: int)
    ensures var o := RevokeToken(db, t, now);
            && (o.Committed? <==> t in db.tokens)
            && (o.Committed? ==> forall p :: ActiveWith(o.db, p) == ActiveWith(db, p) - {t})
  {
  }

  predicate WritesTokens(s: Step) {
    s.StepCreateToken? || s.StepRevokeToken? || s.StepDeleteGateway?
  }

  lemma TokensLeft(db: Db, s: Step)
    requires !WritesTokens(s)
    ensures After(db, Apply(db, s)).tokens == db.tokens
  {
  }

  /** A token present after a call was created by it, or was there before with the same gateway and prefix, not less revoked. */
  lemma TokensOnlyRevoked(db: Db, s: Step, t: Id)
    requires t in After(db, Apply(db, s)).tokens
    ensures var after := After(db, Apply(db, s)).tokens[t];
            || (s.StepCreateToken? && s.t == t && Apply(db, s).Committed?)
            || (t in db.tokens && after.gateway == db.tokens[t].gateway && after.prefix == db.tokens[t].prefix
                && (after.active ==> db.tokens[t].active))
  {
    if !WritesTokens(s) {
      TokensLeft(db, s);
    }
  }

  /** In a run a token keeps its gateway and prefix, and once revoked it stays revoked. */
  lemma {:induction false} RevokedForever(states: seq<Db>, steps: seq<Step>, i: nat, j: nat, t: Id)
    requires IsRun(states, steps) && i <= j < |states|
    requires t in states[i].tokens && t in states[j].tokens
    ensures var a, b := states[i].tokens[t], states[j].tokens[t];
            b.gateway == a.gateway && b.prefix == a.prefix && (!a.active ==> !b.active)
    ensures forall m | i <= m <= j :: t in states[m].tokens
    decreases j - i
  {
    if i < j {
      assert StepOfRun(states, steps, j - 1);
      assert states[..j][i] == states[i];
      TokensOnlyRevoked(states[j - 1], steps[j - 1], t);
      RevokedForever(states, steps, i, j - 1, t);
    }
  }

  /** Whatever happens after a committed revocation, no lookup finds the token again. */
  lemma RevokedIsNeverFound(states: seq<Db>, steps: seq<Step>, i: nat, j: nat, prefix: string)
    requires IsRun(states, steps) && i < |steps| && i < j < |states|
    requires steps[i].StepRevokeToken? && Apply(states[i], steps[i]).Committed?
    ensures steps[i].t !in ActiveWith(states[j], prefix)
  {
    var t := steps[i].t;
    assert StepOfRun(states, steps, i);
    if t in states[j].tokens {
      RevokedForever(states, steps, i + 1, j, t);
    }
  }
}
