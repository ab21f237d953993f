/** The whole decision table, told from the bindings and lists of the principal: what is refused, where and why. */
module AdminDecision {
  import opened Options
  import opened AdminAuthz
  import opened AdminAuthzLaws

  /** Some binding grants the capability and, for an API key, its permissions include it. */
  ghost predicate Granted(policy: Policy, p: Principal, cap: Capability) {
    && (p.kind == ApiKey ==> cap in policy.fromPermissions(p.permissions))
    && exists b, m :: b in p.bindings && BindingGrants(policy, cap, b, m)
  }

  /** The target lies inside what the bindings grant and the lists admit. */
  ghost predicate Inside(policy: Policy, p: Principal, cap: Capability, target: Option<Workspace>, keyScoped: bool) {
    if target.Some? then GrantedAt(policy, p, cap, target) && ListsAllow(p, cap, target)
    else Unlisted(p) && (GlobalBinding(policy, p, cap, None) || (keyScoped && GrantedAt(policy, p, cap, None)))
  }

  lemma GrantsEmptyIff(policy: Policy, p: Principal, cap: Capability)
    ensures GrantsOf(policy, p, cap) == [] <==> !Granted(policy, p, cap)
    ensures Granted(policy, p, cap) ==> GrantsOf(policy, p, cap) == Grants(policy, cap, p.bindings)
  {
    hide GrantOf, BindingGrants;
    var grants := Grants(policy, cap, p.bindings);
    if grants != [] {
      var b := GrantHasBinding(policy, p, cap, grants[0]);
    }
    if b, m :| b in p.bindings && BindingGrants(policy, cap, b, m) {
      BindingHasGrant(policy, cap, b, m);
      assert GrantOf(policy, cap, b).value in grants;
    }
  }

  /** Every decision off the group path, in the order of the checks. */
  lemma DecisionTable(policy: Policy, principal: Option<Principal>, cap: Capability, workspace: Option<Workspace>,
                      group: Option<string>, keyScoped: bool)
    requires group.None? || group.value == ""
    ensures var d := Decide(policy, principal, cap, workspace, group, keyScoped);
            var target := if workspace == Some("") then None else workspace;
            if principal.None? || principal.value.id == "" then d == Denied(PrincipalStep, InvalidPrincipal)
            else if cap == policy.authenticated then d == Allowed(None, None, None)
            else if cap !in policy.capabilities then d == Denied(CapabilityStep, UnknownCapability)
            else if !Granted(policy, principal.value, cap) then d == Denied(CapabilityStep, NotGranted)
            else if cap in principal.value.deny then d == Denied(DenyStep, ExplicitlyDenied)
            else if Inside(policy, principal.value, cap, target, keyScoped) then d.Allowed?
            else d == Denied(WorkspaceStep, if target.None? then GlobalTargetRequiresUnrestrictedRange
                                            else WorkspaceOutOfRange)
  {
    hide RangeFor, ListsAllow, Unlisted, Grants, GrantsOf, ModeAndScope, GrantedAt, GlobalBinding, Granted;
    if principal.Some? {
      var p, target := principal.value, NonEmpty(workspace);
      var grants := Grants(policy, cap, p.bindings);
      GrantsEmptyIff(policy, p, cap);
      TargetReason(RangeFor(p, cap, grants), target, keyScoped);
      hide TargetCheck;
      TargetCheckMeaning(p, cap, grants, target, keyScoped);
      GrantedAtMeaning(policy, p, cap, target);
      GrantedAtMeaning(policy, p, cap, None);
      GlobalBindingMeaning(policy, p, cap, None, target);
    }
  }

  lemma TargetReason(range: Range, target: Option<Workspace>, keyScoped: bool)
    ensures var reason := TargetCheck(range, target, keyScoped);
            reason.Some? ==> reason.value == if target.None? then GlobalTargetRequiresUnrestrictedRange
                                             else WorkspaceOutOfRange
  {
  }

  /** An API key is never allowed a capability its permissions do not include, whatever its bindings say. */
  lemma KeyWithinPermissions(policy: Policy, p: Principal, cap: Capability, workspace: Option<Workspace>,
                             group: Option<string>, keyScoped: bool)
    requires p.kind == ApiKey && cap !in policy.fromPermissions(p.permissions) && cap != policy.authenticated
    ensures Decide(policy, Some(p), cap, workspace, group, keyScoped).Denied?
    ensures p.id != "" && cap in policy.capabilities ==>
              Decide(policy, Some(p), cap, workspace, group, keyScoped) == Denied(CapabilityStep, NotGranted)
  {
  }

  /* ---------- The group path ---------- */

  /** `b` grants the capability for the group asked for; `*` asks for any. */
  predicate GroupBinding(policy: Policy, p: Principal, cap: Capability, group: string, b: Binding, m: Mode) {
    && b in p.bindings && BindingGrants(policy, cap, b, m)
    && b.groupId.Some? && (group == "*" || b.groupId.value == group)
  }

  ghost predicate HoldsGroup(policy: Policy, p: Principal, cap: Capability, group: string) {
    exists b, m :: GroupBinding(policy, p, cap, group, b, m)
  }

  function Matching(grants: seq<Grant>, group: string): (r: seq<Grant>)
    ensures forall g :: g in r <==> g in grants && g.groupId.Some? && (group == "*" || g.groupId.value == group)
  {
    Filter((g: Grant) => g.groupId.Some? && (group == "*" || g.groupId.value == group), grants)
  }

  lemma GroupBindingMatches(policy: Policy, p: Principal, cap: Capability, group: string, b: Binding, m: Mode,
                            row: Row) returns (g: Grant)
    requires GroupBinding(policy, p, cap, group, b, m)
    ensures g in Matching(Grants(policy, cap, p.bindings), group)
    ensures g.mode == m && g.groupId == b.groupId && (InCell(row, CellOf(g)) <==> BindingCovers(b, row))
  {
    hide Grants, BindingCovers;
    BindingHasGrant(policy, cap, b, m);
    GrantOfBinding(policy, cap, b, row);
    g := GrantOf(policy, cap, b).value;
  }

  lemma MatchHasBinding(policy: Policy, p: Principal, cap: Capability, group: string, g: Grant, row: Row)
    returns (b: Binding)
    requires g in Matching(Grants(policy, cap, p.bindings), group)
    ensures GroupBinding(policy, p, cap, group, b, g.mode) && g.groupId == b.groupId
    ensures InCell(row, CellOf(g)) <==> BindingCovers(b, row)
  {
    hide Grants, BindingCovers;
    b :| b in p.bindings && GrantOf(policy, cap, b) == Some(g);
    GrantOfBinding(policy, cap, b, row);
  }

  /** A group is decided by the bindings for it, unless a global binding without any list makes the range everything. */
  lemma GroupTable(policy: Policy, p: Principal, cap: Capability, workspace: Option<Workspace>, group: string,
                   keyScoped: bool)
    requires group != "" && p.id != "" && cap != policy.authenticated && cap in policy.capabilities
    ensures var d := Decide(policy, Some(p), cap, workspace, Some(group), keyScoped);
            if !Granted(policy, p, cap) then d == Denied(CapabilityStep, NotGranted)
            else if cap in p.deny then d == Denied(DenyStep, ExplicitlyDenied)
            else if Unlisted(p) && GlobalBinding(policy, p, cap, None) then
              d.Allowed? && d.range == Some(All) && d.scope == Some(Scope(All, []))
            else if HoldsGroup(policy, p, cap, group) then
              d.Allowed? && d.scope.Some? && d.scope.value.range.Cells?
            else d == Denied(GroupStep, GroupOutOfRange)
  {
    hide RangeFor, ListsAllow, Unlisted, Grants, GrantsOf, GlobalBinding, Granted, WidestMode;
    var grants := Grants(policy, cap, p.bindings);
    GrantsEmptyIff(policy, p, cap);
    RangeIsAll(policy, p, cap);
    MatchingIsHeld(policy, p, cap, group);
    hide HoldsGroup;
  }

  lemma RangeIsAll(policy: Policy, p: Principal, cap: Capability)
    ensures RangeFor(p, cap, Grants(policy, cap, p.bindings)).All?
            <==> Unlisted(p) && GlobalBinding(policy, p, cap, None)
  {
    hide RangeFor, ListsAllow, Unlisted, Grants, GlobalBinding;
    RangeMeaning(p, cap, Grants(policy, cap, p.bindings), Cell(None, None));
    GlobalBindingMeaning(policy, p, cap, None, None);
  }

  lemma MatchingIsHeld(policy: Policy, p: Principal, cap: Capability, group: string)
    ensures Matching(Grants(policy, cap, p.bindings), group) != [] <==> HoldsGroup(policy, p, cap, group)
  {
    hide Grants, GroupBinding;
    var r := Matching(Grants(policy, cap, p.bindings), group);
    hide Matching;
    if r != [] {
      var b := MatchHasBinding(policy, p, cap, group, r[0], Row(None, None));
    }
    if b, m :| GroupBinding(policy, p, cap, group, b, m) {
      var g := GroupBindingMatches(policy, p, cap, group, b, m, Row(None, None));
    }
  }

  /**
   * An allowed group decision of a principal with bindings for the group: it lists exactly their groups, admits
   * exactly the rows they cover, and reports the widest of their modes.
   */
  lemma GroupScope(policy: Policy, p: Principal, cap: Capability, workspace: Option<Workspace>, group: string,
                   keyScoped: bool, id: string, row: Row)
    requires group != "" && p.id != "" && cap != policy.authenticated && cap in policy.capabilities
    requires Granted(policy, p, cap) && cap !in p.deny && HoldsGroup(policy, p, cap, group)
    requires !(Unlisted(p) && GlobalBinding(policy, p, cap, None))
    ensures var d := Decide(policy, Some(p), cap, workspace, Some(group), keyScoped);
            && d.Allowed? && d.scope.Some? && d.mode.Some?
            && (forall i, j :: 0 <= i < j < |d.scope.value.groups| ==>
                d.scope.value.groups[i] != d.scope.value.groups[j])
            && (id in d.scope.value.groups
                <==> exists b, m :: GroupBinding(policy, p, cap, group, b, m) && b.groupId == Some(id))
            && (InRange(row, d.scope.value.range)
                <==> exists b, m :: GroupBinding(policy, p, cap, group, b, m) && BindingCovers(b, row))
            && (exists b :: GroupBinding(policy, p, cap, group, b, d.mode.value))
            && (forall b, m :: GroupBinding(policy, p, cap, group, b, m) ==>
                  IndexIn(policy.modeOrder, d.mode.value) <= IndexIn(policy.modeOrder, m))
  {
    hide *;
    var r := Matching(Grants(policy, cap, p.bindings), group);
    GroupDecided(policy, p, cap, workspace, group, keyScoped);
    MatchedGroups(policy, p, cap, group, id);
    MatchedCells(policy, p, cap, group, row);
    MatchedModes(policy, p, cap, group);
  }

  lemma GroupDecided(policy: Policy, p: Principal, cap: Capability, workspace: Option<Workspace>, group: string,
                     keyScoped: bool)
    requires group != "" && p.id != "" && cap != policy.authenticated && cap in policy.capabilities
    requires Granted(policy, p, cap) && cap !in p.deny && HoldsGroup(policy, p, cap, group)
    requires !(Unlisted(p) && GlobalBinding(policy, p, cap, None))
    ensures var r := Matching(Grants(policy, cap, p.bindings), group);
            var d := Decide(policy, Some(p), cap, workspace, Some(group), keyScoped);
            && d.Allowed? && d.mode == WidestMode(policy.modeOrder, r)
            && d.scope == Some(Scope(Cells(Map(CellOf, r)), Dedupe(Strings(Map((g: Grant) => g.groupId, r)))))
  {
    hide RangeFor, Unlisted, Grants, GrantsOf, GlobalBinding, Granted, WidestMode, Map, Dedupe, Strings;
    GrantsEmptyIff(policy, p, cap);
    RangeIsAll(policy, p, cap);
    MatchingIsHeld(policy, p, cap, group);
    hide HoldsGroup;
  }

  lemma MatchedGroups(policy: Policy, p: Principal, cap: Capability, group: string, id: string)
    ensures var r := Matching(Grants(policy, cap, p.bindings), group);
            id in Dedupe(Strings(Map((g: Grant) => g.groupId, r)))
            <==> exists b, m :: GroupBinding(policy, p, cap, group, b, m) && b.groupId == Some(id)
  {
    hide Grants, GroupBinding, Matching;
    var r := Matching(Grants(policy, cap, p.bindings), group);
    var ids := Map((g: Grant) => g.groupId, r);
    hide Map, Dedupe, Strings;
    if Some(id) in ids {
      var i :| 0 <= i < |ids| && ids[i] == Some(id);
      var b := MatchHasBinding(policy, p, cap, group, r[i], Row(None, None));
    }
    if b, m :| GroupBinding(policy, p, cap, group, b, m) && b.groupId == Some(id) {
      var g := GroupBindingMatches(policy, p, cap, group, b, m, Row(None, None));
      var i :| 0 <= i < |r| && r[i] == g;
      assert ids[i] == Some(id);
    }
  }

  lemma MatchedCells(policy: Policy, p: Principal, cap: Capability, group: string, row: Row)
    ensures InRange(row, Cells(Map(CellOf, Matching(Grants(policy, cap, p.bindings), group))))
            <==> exists b, m :: GroupBinding(policy, p, cap, group, b, m) && BindingCovers(b, row)
  {
    hide Grants, GroupBinding, Matching, InCell, BindingCovers;
    var r := Matching(Grants(policy, cap, p.bindings), group);
    var cells := Map(CellOf, r);
    if InRange(row, Cells(cells)) {
      var c :| c in cells && InCell(row, c);
      var i :| 0 <= i < |cells| && cells[i] == c;
      var b := MatchHasBinding(policy, p, cap, group, r[i], row);
    }
    if b, m :| GroupBinding(policy, p, cap, group, b, m) && BindingCovers(b, row) {
      var g := GroupBindingMatches(policy, p, cap, group, b, m, row);
      var i :| 0 <= i < |r| && r[i] == g;
      assert cells[i] in cells && InCell(row, cells[i]);
    }
  }

  lemma MatchedModes(policy: Policy, p: Principal, cap: Capability, group: string)
    requires HoldsGroup(policy, p, cap, group)
    ensures var mode := WidestMode(policy.modeOrder, Matching(Grants(policy, cap, p.bindings), group));
            && mode.Some? && (exists b :: GroupBinding(policy, p, cap, group, b, mode.value))
            && forall b, m :: GroupBinding(policy, p, cap, group, b, m) ==>
                 IndexIn(policy.modeOrder, mode.value) <= IndexIn(policy.modeOrder, m)
  {
    MatchingIsHeld(policy, p, cap, group);
    hide Grants, GroupBinding, Matching, HoldsGroup;
    var r := Matching(Grants(policy, cap, p.bindings), group);
    var mode := WidestMode(policy.modeOrder, r);
    hide WidestMode, IndexIn;
    var g :| g in r && g.mode == mode.value;
    var b := MatchHasBinding(policy, p, cap, group, g, Row(None, None));
    forall b, m | GroupBinding(policy, p, cap, group, b, m)
      ensures IndexIn(policy.modeOrder, mode.value) <= IndexIn(policy.modeOrder, m)
    {
      var g := GroupBindingMatches(policy, p, cap, group, b, m, Row(None, None));
    }
  }

  /* ---------- The reported range ---------- */

  ghost predicate BaseHolds(grants: seq<Grant>, row: Row) {
    exists c :: c in RangeCells(BaseRange(grants)) && InCell(row, c)
  }

  lemma BaseHoldsIff(grants: seq<Grant>, row: Row)
    requires forall g :: g in grants ==> WellFormed(g)
    ensures BaseHolds(grants, row) <==> exists g :: g in grants && InCell(row, CellOf(g))
  {
    var cells := RangeCells(BaseRange(grants));
    if HasGlobal(grants) {
      var g :| g in grants && IsGlobal(g);
      assert CellOf(g) == Cell(None, None) && InCell(row, CellOf(g));
      assert cells == [CellOf(g)] && cells[0] in cells;
    } else {
      assert cells == Map(CellOf, grants);
      if BaseHolds(grants, row) {
        var c :| c in cells && InCell(row, c);
        var i :| 0 <= i < |cells| && cells[i] == c;
        assert grants[i] in grants && CellOf(grants[i]) == c;
      }
      if g :| g in grants && InCell(row, CellOf(g)) {
        var i :| 0 <= i < |grants| && grants[i] == g;
        assert cells[i] in cells && InCell(row, cells[i]);
      }
    }
  }

  lemma RangeHoldsIff(p: Principal, cap: Capability, grants: seq<Grant>, row: Row)
    ensures InRange(row, RangeFor(p, cap, grants))
            <==> ListsAllow(p, cap, row.workspace) && BaseHolds(grants, row)
  {
    hide RangeFor, BaseRange, ListsAllow, Unlisted;
    var range := RangeFor(p, cap, grants);
    RangeMeaning(p, cap, grants, Cell(None, None));
    if Unlisted(p) {
      UnlistedAllows(p, cap, row.workspace);
      UnlistedHolds(BaseRange(grants), row);
    } else {
      if InRange(row, range) {
        var c :| c in range.cells && InCell(row, c);
        RangeMeaning(p, cap, grants, c);
        var c0 :| c0 in RangeCells(BaseRange(grants)) && From(c0, c);
        assert InCell(row, c0);
      }
      if ListsAllow(p, cap, row.workspace) && BaseHolds(grants, row) {
        var c0 :| c0 in RangeCells(BaseRange(grants)) && InCell(row, c0);
        ListedIsSome(p, cap, row.workspace);
        var c := Cell(row.workspace, c0.keyIds);
        RangeMeaning(p, cap, grants, c);
        assert From(c0, c) && InCell(row, c);
      }
    }
  }

  lemma UnlistedHolds(r: Range, row: Row)
    ensures InRange(row, r) <==> exists c :: c in RangeCells(r) && InCell(row, c)
  {
    if r.All? {
      assert InCell(row, RangeCells(r)[0]);
    }
  }

  lemma ListedIsSome(p: Principal, cap: Capability, ws: Option<Workspace>)
    requires !Unlisted(p) && ListsAllow(p, cap, ws)
    ensures ws.Some?
  {
  }

  /** The range an allowed decision reports holds exactly the rows that some binding covers and every list admits. */
  lemma RangeHoldsExactlyCovered(policy: Policy, p: Principal, cap: Capability, workspace: Option<Workspace>,
                                 group: Option<string>, keyScoped: bool, row: Row)
    requires cap != policy.authenticated && Decide(policy, Some(p), cap, workspace, group, keyScoped).Allowed?
    ensures var range := Decide(policy, Some(p), cap, workspace, group, keyScoped).range;
            && range.Some?
            && (InRange(row, range.value) <==>
                && ListsAllow(p, cap, row.workspace)
                && exists b, m :: b in p.bindings && BindingGrants(policy, cap, b, m) && BindingCovers(b, row))
  {
    hide *;
    var grants := Grants(policy, cap, p.bindings);
    ReportedRange(policy, p, cap, workspace, group, keyScoped);
    RangeHoldsIff(p, cap, grants, row);
    GlobalBindingMeaning(policy, p, cap, None, None);
    BaseHoldsIff(grants, row);
    CoveredByGrant(policy, p, cap, row);
  }

  lemma ReportedRange(policy: Policy, p: Principal, cap: Capability, workspace: Option<Workspace>,
                      group: Option<string>, keyScoped: bool)
    requires cap != policy.authenticated && Decide(policy, Some(p), cap, workspace, group, keyScoped).Allowed?
    ensures Decide(policy, Some(p), cap, workspace, group, keyScoped).range
            == Some(RangeFor(p, cap, Grants(policy, cap, p.bindings)))
  {
    hide RangeFor, Grants, TargetCheck, GroupCheck, ModeAndScope;
  }

  lemma CoveredByGrant(policy: Policy, p: Principal, cap: Capability, row: Row)
    ensures (exists g :: g in Grants(policy, cap, p.bindings) && InCell(row, CellOf(g)))
            <==> exists b, m :: b in p.bindings && BindingGrants(policy, cap, b, m) && BindingCovers(b, row)
  {
    hide GrantOf, BindingGrants, BindingCovers, InCell;
    var grants := Grants(policy, cap, p.bindings);
    if g :| g in grants && InCell(row, CellOf(g)) {
      var b :| b in p.bindings && GrantOf(policy, cap, b) == Some(g);
      GrantOfBinding(policy, cap, b, row);
    }
    if b, m :| b in p.bindings && BindingGrants(policy, cap, b, m) && BindingCovers(b, row) {
      BindingHasGrant(policy, cap, b, m);
      GrantOfBinding(policy, cap, b, row);
      assert GrantOf(policy, cap, b).value in grants;
    }
  }
}
