/** The allowed decisions that admit no row: a narrower global grant hides behind the reported, wider mode. */
module AdminShadow {
  import opened Options
  import opened AdminAuthz
  import opened AdminAuthzLaws

  /** Every mode of the presets has a place in the order, as those of `capabilities.js` have. */
  ghost predicate ModesListed(policy: Policy) {
    forall role, cap :: role in policy.presets && cap in policy.presets[role] ==>
        policy.presets[role][cap] in policy.modeOrder
  }

  /** `m` comes before the mode of every binding that grants `cap` globally. */
  ghost predicate WiderThanGlobal(policy: Policy, p: Principal, cap: Capability, m: Mode) {
    forall b, g :: b in p.bindings && BindingGrants(policy, cap, b, g) && b.groupId.None? ==>
      IndexIn(policy.modeOrder, m) < IndexIn(policy.modeOrder, g)
  }

  ghost predicate WiderAtTarget(policy: Policy, p: Principal, cap: Capability, target: Option<Workspace>) {
    exists b, m :: b in p.bindings && BindingGrants(policy, cap, b, m) && (b.workspace.None? || b.workspace == target)
                   && WiderThanGlobal(policy, p, cap, m)
  }

  /** A list applies, the capability is held globally, and a binding at the target grants it in a wider mode. */
  ghost predicate Shadowed(policy: Policy, p: Principal, cap: Capability, target: Option<Workspace>) {
    !Unlisted(p) && GlobalBinding(policy, p, cap, None) && WiderAtTarget(policy, p, cap, target)
  }

  /** The reported mode is granted by a binding at the target. */
  lemma ModeAtTarget(policy: Policy, principal: Option<Principal>, cap: Capability, workspace: Option<Workspace>,
                     group: Option<string>, keyScoped: bool, mode: Mode, scope: Range) returns (b: Binding)
    requires NonEmpty(group).None?
    requires AllowsScope(Decide(policy, principal, cap, workspace, group, keyScoped), mode, scope)
    ensures principal.Some? && b in principal.value.bindings && BindingGrants(policy, cap, b, mode)
    ensures b.workspace.None? || b.workspace == NonEmpty(workspace)
  {
    hide Decide, Grants, RangeFor, TargetCheck, WidestMode;
    DecideUnfold(policy, principal, cap, workspace, group, keyScoped, mode, scope);
    var grants, target := Grants(policy, cap, principal.value.bindings), NonEmpty(workspace);
    var covering := Filter((g: Grant) => Covering(g, target), grants);
    assert WidestMode(policy.modeOrder, covering) == Some(mode);
    var g :| g in covering && g.mode == mode;
    b :| b in principal.value.bindings && GrantOf(policy, cap, b) == Some(g);
    GrantOfBinding(policy, cap, b, Row(None, None));
  }

  /** The reported mode is held globally unless the principal is shadowed, which its bindings alone tell. */
  lemma ShadowedIff(policy: Policy, principal: Option<Principal>, cap: Capability, workspace: Option<Workspace>,
                    group: Option<string>, keyScoped: bool, mode: Mode, scope: Range)
    requires NonEmpty(group).None? && ModesListed(policy)
    requires AllowsScope(Decide(policy, principal, cap, workspace, group, keyScoped), mode, scope)
    ensures principal.Some?
    ensures var p := principal.value;
            Shadowed(policy, p, cap, NonEmpty(workspace)) <==>
              !Unlisted(p) && GlobalBinding(policy, p, cap, None) && !GlobalBinding(policy, p, cap, Some(mode))
  {
    hide Decide, Unlisted, AllowsScope, IndexIn;
    var c := ModeAtTarget(policy, principal, cap, workspace, group, keyScoped, mode, scope);
    var p, target, order := principal.value, NonEmpty(workspace), policy.modeOrder;
    forall b, m | b in p.bindings && BindingGrants(policy, cap, b, m) && (b.workspace.None? || b.workspace == target)
      ensures IndexIn(order, mode) <= IndexIn(order, m)
    {
      ModeIsWidest(policy, principal, cap, workspace, group, keyScoped, mode, scope, b, m);
    }
    if GlobalBinding(policy, p, cap, None) && !GlobalBinding(policy, p, cap, Some(mode)) {
      forall b, g | b in p.bindings && BindingGrants(policy, cap, b, g) && b.groupId.None?
        ensures IndexIn(order, mode) < IndexIn(order, g)
      {
        assert g != mode && mode in order && g in order;
        OwnPlace(order, mode, g);
      }
      assert WiderThanGlobal(policy, p, cap, mode);
    }
  }

  lemma OwnPlace(order: seq<Mode>, a: Mode, b: Mode)
    requires a in order && b in order && a != b
    ensures IndexIn(order, a) != IndexIn(order, b)
  {
  }

  /**
    * An allowed decision admits exactly the rows at the target that a binding granting the capability in the reported
    * mode covers and that the lists admit, unless the principal is shadowed; then it admits none.
    */
  lemma ScopeUnlessShadowed(policy: Policy, principal: Option<Principal>, cap: Capability, workspace: Option<Workspace>,
                            group: Option<string>, keyScoped: bool, mode: Mode, scope: Range, row: Row)
    requires NonEmpty(group).None? && ModesListed(policy)
    requires AllowsScope(Decide(policy, principal, cap, workspace, group, keyScoped), mode, scope)
    ensures principal.Some?
    ensures var p, target := principal.value, NonEmpty(workspace);
            InRange(row, scope) <==>
              && !Shadowed(policy, p, cap, target) && (scope.All? || AtTarget(row, target))
              && Justified(policy, p, cap, mode, target, row) && ListsAllow(p, cap, row.workspace)
  {
    hide *;
    ShadowedIff(policy, principal, cap, workspace, group, keyScoped, mode, scope);
    ScopeIsExactlyJustified(policy, principal, cap, workspace, group, keyScoped, mode, scope, row);
  }

  /** An auditor everywhere and reviewer of one group, limited to a workspace by a scope row. */
  const Auditor: Binding := Binding(Some("auditor"), None, None, None)
  const Reviewer: Binding := Binding(Some("reviewer"), None, Some("g"), Some([Some("k")]))
  const Both: Principal :=
    Principal(AdminSession, "u", [Auditor, Reviewer], [], [], None, [ScopeRow(Some("mem.read"), Some("w"))])

  const TwoRoles: Policy :=
    Policy(map["auditor" := map["mem.read" := "M"], "reviewer" := map["mem.read" := "W"]], ["O", "W", "S", "M"],
           {"mem.read"}, "authenticated", (permissions: seq<string>) => {})

  lemma TwoBindings(b: Binding, m: Mode)
    requires b in Both.bindings
    ensures BindingGrants(TwoRoles, "mem.read", b, m) <==> m == if b == Auditor then "M" else "W"
  {
    assert "auditor" != "reviewer" by {
      assert "auditor"[0] != "reviewer"[0];
    }
  }

  lemma TwoPlaces()
    ensures IndexIn(TwoRoles.modeOrder, "W") < IndexIn(TwoRoles.modeOrder, "M")
  {
    assert "W" != "O" && "M" != "O" && "M" != "W" by {
      assert "W"[0] != "O"[0] && "M"[0] != "O"[0] && "M"[0] != "W"[0];
    }
    assert TwoRoles.modeOrder[1] == "W" && TwoRoles.modeOrder[0] == "O";
  }

  lemma OneWorkspace()
    ensures !Unlisted(Both) && ListsAllow(Both, "mem.read", Some("w"))
  {
    var row := Both.scopeRows[0];
    var kept := Filter((r: ScopeRow) => r.cap == Some("mem.read"), Both.scopeRows);
    assert row in kept;
    var i :| 0 <= i < |kept| && kept[i] == row;
    assert RowsFor(Both, "mem.read")[i] == Some("w");
  }

  lemma BothShadowed()
    ensures ModesListed(TwoRoles) && Shadowed(TwoRoles, Both, "mem.read", Some("w"))
    ensures GrantedAt(TwoRoles, Both, "mem.read", Some("w"))
  {
    hide BindingGrants, IndexIn, Unlisted, ListsAllow;
    OneWorkspace();
    TwoPlaces();
    assert Both.bindings[0] == Auditor && Both.bindings[1] == Reviewer;
    TwoBindings(Auditor, "M");
    TwoBindings(Reviewer, "W");
    forall b, g | b in Both.bindings && BindingGrants(TwoRoles, "mem.read", b, g) && b.groupId.None?
      ensures g == "M"
    {
      TwoBindings(b, g);
    }
    assert WiderThanGlobal(TwoRoles, Both, "mem.read", "W");
  }

  /** They may read in their workspace, and see nothing there: not even the row their reviewer binding justifies. */
  lemma ShadowedAdmitsNothing() returns (mode: Mode, scope: Range)
    ensures AllowsScope(Decide(TwoRoles, Some(Both), "mem.read", Some("w"), None, true), mode, scope)
    ensures forall row :: !InRange(row, scope)
    ensures var row := Row(Some("w"), Some("k"));
            && Justified(TwoRoles, Both, "mem.read", mode, Some("w"), row)
            && ListsAllow(Both, "mem.read", row.workspace)
  {
    hide *;
    BothShadowed();
    OneWorkspace();
    BothAllowed();
    mode, scope :| AllowsScope(Decide(TwoRoles, Some(Both), "mem.read", Some("w"), None, true), mode, scope);
    ReportsW(mode, scope);
    forall row
      ensures !InRange(row, scope)
    {
      GivenText();
      ScopeUnlessShadowed(TwoRoles, Some(Both), "mem.read", Some("w"), None, true, mode, scope, row);
    }
    ReviewerJustifies();
  }

  lemma GivenText()
    ensures NonEmpty(None).None? && NonEmpty(Some("w")) == Some("w")
  {
  }

  lemma BothAllowed()
    ensures exists mode, scope ::
            AllowsScope(Decide(TwoRoles, Some(Both), "mem.read", Some("w"), None, true), mode, scope)
  {
    hide Decide, GrantedAt, ListsAllow, GlobalBinding, Unlisted, Shadowed;
    BothShadowed();
    OneWorkspace();
    assert "mem.read" != "authenticated";
    AllowedIff(TwoRoles, Both, "mem.read", Some("w"), None, true);
    AllowedHasScope(TwoRoles, Some(Both), "mem.read", Some("w"), None, true);
  }

  lemma ReportsW(mode: Mode, scope: Range)
    requires AllowsScope(Decide(TwoRoles, Some(Both), "mem.read", Some("w"), None, true), mode, scope)
    ensures mode == "W"
  {
    hide Decide, IndexIn, BindingGrants, AllowsScope;
    GivenText();
    TwoPlaces();
    TwoBindings(Reviewer, "W");
    assert Both.bindings[1] == Reviewer;
    var b := ModeAtTarget(TwoRoles, Some(Both), "mem.read", Some("w"), None, true, mode, scope);
    TwoBindings(b, mode);
    ModeIsWidest(TwoRoles, Some(Both), "mem.read", Some("w"), None, true, mode, scope, Reviewer, "W");
  }

  lemma ReviewerJustifies()
    ensures Justified(TwoRoles, Both, "mem.read", "W", Some("w"), Row(Some("w"), Some("k")))
  {
    hide BindingGrants;
    TwoBindings(Reviewer, "W");
    assert Both.bindings[1] == Reviewer;
    assert Reviewer.keyIds.value[0] == Some("k");
  }
}
