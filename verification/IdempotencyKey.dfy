/** The printed idempotency key names one (limit, period, kind, target) only. */
module IdempotencyKey {
  import opened Enforcement
  import Decimal

  function KindName(kind: Kind): string {
    match kind
    case RemoveUserRoles => "remove_user_roles"
    case DisableAutoTriage => "disable_auto_triage"
    case DisablePrRemediation => "disable_pr_remediation"
  }

  function Print(key: Key): string {
    Decimal.Show(key.limitId) + ['|'] + (key.period + ['|'] + (KindName(key.target.kind) + ['|'] + key.target.id))
  }

  /** The row found under a printed key is the row of exactly that limit, period, kind and target. */
  lemma PrintIsInjective(a: Key, b: Key)
    requires '|' !in a.period && '|' !in b.period
    ensures Print(a) == Print(b) <==> a == b
  {
    if Print(a) == Print(b) {
      var sa, sb := KindName(a.target.kind) + ['|'] + a.target.id, KindName(b.target.kind) + ['|'] + b.target.id;
      assert '|' !in Decimal.Show(a.limitId) && '|' !in Decimal.Show(b.limitId);
      Decimal.SplitAtSeparator(
        Decimal.Show(a.limitId), a.period + ['|'] + sa, Decimal.Show(b.limitId), b.period + ['|'] + sb, '|');
      Decimal.SplitAtSeparator(a.period, sa, b.period, sb, '|');
      Decimal.SplitAtSeparator(KindName(a.target.kind), a.target.id, KindName(b.target.kind), b.target.id, '|');
      Decimal.ShowInjective(a.limitId, b.limitId);
      KindNamesDiffer(a.target.kind, b.target.kind);
    }
  }

  lemma KindNamesDiffer(a: Kind, b: Kind)
    ensures KindName(a) == KindName(b) <==> a == b
  {
    assert KindName(RemoveUserRoles)[0] == 'r' && KindName(DisableAutoTriage)[8] == 'a'
      && KindName(DisablePrRemediation)[8] == 'p';
  }
}
