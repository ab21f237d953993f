/** From a decision to the rows its query returns: `decide` and `scopePredicate` end to end. */
module AdminQuery {
  import opened Options
  import A = AdminAuthz
  import L = AdminAuthzLaws
  import F = ScopeFilter
  import G = ScopeFilterLaws

  function RawText(s: Option<string>): F.RawText {
    if s.None? then F.NullText else F.GivenText(s.value)
  }

  function RawKeys(keys: Option<seq<string>>): F.RawKeys {
    if keys.None? then F.NullKeys
    else F.KeyArray(seq(|keys.value|, i requires 0 <= i < |keys.value| => Some(keys.value[i])))
  }

  function RawCell(c: A.Cell): F.RawCell {
    F.RawCell(RawText(c.workspace), RawKeys(c.keyIds))
  }

  /** The query range a decision reports, as `scopePredicate` receives it. */
  function RawRange(r: A.Range): F.RawRange {
    match r
    case All => F.AllTrue
    case Cells(cells) => F.AllFalse(Some(seq(|cells|, i requires 0 <= i < |cells| => RawCell(cells[i]))), None)
  }

  /** No cell is for the workspace named by the empty string. */
  predicate Named(r: A.Range) {
    r.Cells? ==> forall i :: 0 <= i < |r.cells| ==> r.cells[i].workspace != Some("")
  }

  lemma RawCellMeaning(c: A.Cell, workspace: Option<string>, keyId: Option<string>)
    requires c.workspace != Some("")
    ensures F.ValidCell(RawCell(c))
    ensures F.InCell(workspace, keyId, F.ToCell(RawCell(c))) <==> L.InCell(L.Row(workspace, keyId), c)
  {
    if c.keyIds.Some? {
      assert F.ToCell(RawCell(c)).keyIds.value == c.keyIds.value;
    }
  }

  lemma RawRangeMeaning(r: A.Range, workspace: Option<string>, keyId: Option<string>)
    requires Named(r)
    ensures F.InScope(workspace, keyId, RawRange(r)) <==> L.InRange(L.Row(workspace, keyId), r)
  {
    if r.Cells? {
      hide F.ValidCell, F.ToCell, F.InCell, L.InCell, RawCell;
      var raw := F.RawCells(RawRange(r)).value;
      forall i | 0 <= i < |r.cells|
        ensures raw[i] == RawCell(r.cells[i]) && F.ValidCell(raw[i])
        ensures F.InCell(workspace, keyId, F.ToCell(raw[i])) <==> L.InCell(L.Row(workspace, keyId), r.cells[i])
      {
        RawCellMeaning(r.cells[i], workspace, keyId);
      }
      var row := L.Row(workspace, keyId);
      if L.InRange(row, r) {
        var c :| c in r.cells && L.InCell(row, c);
        var i :| 0 <= i < |r.cells| && r.cells[i] == c;
        assert F.CellList(RawRange(r)).value[i] == F.ToCell(raw[i]);
      }
      if F.InScope(workspace, keyId, RawRange(r)) {
        var cells := F.CellList(RawRange(r)).value;
        var i :| 0 <= i < |cells| && F.InCell(workspace, keyId, cells[i]);
        assert cells[i] == F.ToCell(raw[i]);
      }
    }
  }

  /** The cells of a decided scope are for the target, which is not the empty string. */
  lemma DecidedScopeNamed(policy: A.Policy, principal: Option<A.Principal>, cap: A.Capability,
                          workspace: Option<A.Workspace>, group: Option<string>, keyScoped: bool, mode: A.Mode,
                          scope: A.Range)
    requires A.NonEmpty(group).None?
    requires L.AllowsScope(A.Decide(policy, principal, cap, workspace, group, keyScoped), mode, scope)
    ensures Named(scope)
  {
    hide A.Decide, A.GrantsOf, A.RangeFor, A.TargetCheck;
    L.DecideUnfold(policy, principal, cap, workspace, group, keyScoped, mode, scope);
  }

  /**
   * The compiled condition of an allowed decision, with any values bound before and after it, returns exactly
   * the rows that a binding granting the capability in the reported mode covers at the target, within the API
   * key's workspace list and the scope rows; and none at all when a list applies and the capability is held
   * globally but not in the reported mode.
   */
  lemma QueryReturnsExactlyJustified(
      policy: A.Policy, principal: Option<A.Principal>, cap: A.Capability, workspace: Option<A.Workspace>,
      group: Option<string>, keyScoped: bool, mode: A.Mode, scope: A.Range,
      before: seq<F.Value>, column: string, after: seq<F.Value>, row: F.Row, db: F.Database)
    requires A.NonEmpty(group).None?
    requires L.AllowsScope(A.Decide(policy, principal, cap, workspace, group, keyScoped), mode, scope)
    requires F.Compile(|before|, Some(column), RawRange(scope)).Ok?
    ensures principal.Some? && cap in policy.capabilities && cap !in principal.value.deny
    ensures principal.value.kind == A.ApiKey ==> cap in policy.fromPermissions(principal.value.permissions)
    ensures var (cond, added) := F.Compile(|before|, Some(column), RawRange(scope)).value;
            var p, target := principal.value, A.NonEmpty(workspace);
            var r := L.Row(row(column), row(F.KeyColumn(column)));
            F.Eval(cond, before + added + after, row, db) == F.Yes <==>
              && (scope.All? || L.AtTarget(r, target))
              && L.Justified(policy, p, cap, mode, target, r)
              && L.ListsAllow(p, cap, r.workspace)
              && (!L.Unlisted(p) && L.GlobalBinding(policy, p, cap, None) ==>
                  L.GlobalBinding(policy, p, cap, Some(mode)))
  {
    hide *;
    var r := L.Row(row(column), row(F.KeyColumn(column)));
    L.ScopeIsExactlyJustified(policy, principal, cap, workspace, group, keyScoped, mode, scope, r);
    DecidedScopeNamed(policy, principal, cap, workspace, group, keyScoped, mode, scope);
    RawRangeMeaning(scope, r.workspace, r.keyId);
    G.ScopeMeaning(before, column, RawRange(scope), after, row, db);
  }
}
