/** Every row an allowed decision admits is justified by a role binding, and which justified rows it admits. */
module AdminAuthzLaws {
  import opened Options
  import opened AdminAuthz

  /** The two columns of a stored fragment the scope looks at; `None` is SQL's NULL. */
  datatype Row = Row(workspace: Option<Workspace>, keyId: Option<KeyId>)

  /** The row lies in the cell. */
  predicate InCell(row: Row, c: Cell) {
    && (c.workspace.Some? ==> row.workspace == c.workspace)
    && (c.keyIds.Some? ==> row.keyId.Some? && row.keyId.value in c.keyIds.value)
  }

  predicate InRange(row: Row, r: Range) {
    r.All? || exists c :: c in r.cells && InCell(row, c)
  }

  /* ---------- What justifies a row, in terms of the bindings alone ---------- */

  /** `b` grants `cap` in `mode`: its role's preset says so, and a workspace binding also names a group. */
  predicate BindingGrants(policy: Policy, cap: Capability, b: Binding, mode: Mode) {
    && b.role.Some? && b.role.value in policy.presets
    && cap in policy.presets[b.role.value] && policy.presets[b.role.value][cap] == mode
    && (b.workspace.Some? ==> b.groupId.Some?)
  }

  /** A binding without a group covers every row; a group binding the rows of its keys in its workspace. */
  predicate BindingCovers(b: Binding, row: Row) {
    b.groupId.Some? ==>
      && row.keyId.Some? && b.keyIds.Some? && row.keyId in b.keyIds.value
      && (b.workspace.Some? ==> row.workspace == b.workspace)
  }

  predicate ListAllows(list: Option<seq<Option<Workspace>>>, ws: Option<Workspace>) {
    list.Some? ==> ws.Some? && ws in list.value
  }

  /** The API key's workspace list, as far as it applies. */
  function KeyList(p: Principal): Option<seq<Option<Workspace>>> {
    if p.kind == ApiKey then p.keyWorkspaces else None
  }

  /** The scope rows of `cap`, as far as they apply. */
  function RowList(p: Principal, cap: Capability): Option<seq<Option<Workspace>>> {
    if p.scopeRows == [] then None else Some(RowsFor(p, cap))
  }

  /** Neither list restricts the principal for `cap`. */
  predicate Unlisted(p: Principal) {
    (p.kind == ApiKey ==> p.keyWorkspaces.None?) && p.scopeRows == []
  }

  /** An API key's workspace list and the principal's scope rows, where it has any, list the workspace for `cap`. */
  predicate ListsAllow(p: Principal, cap: Capability, ws: Option<Workspace>) {
    && (p.kind == ApiKey && p.keyWorkspaces.Some? ==> ws.Some? && ws in p.keyWorkspaces.value)
    && (p.scopeRows != [] ==> ws.Some? && ScopeRow(Some(cap), ws) in p.scopeRows)
  }

  lemma ListsAllowMeaning(p: Principal, cap: Capability, ws: Option<Workspace>)
    ensures ListsAllow(p, cap, ws) <==> ListAllows(KeyList(p), ws) && ListAllows(RowList(p, cap), ws)
  {
    var kept := Filter((r: ScopeRow) => r.cap == Some(cap), p.scopeRows);
    if ws in RowsFor(p, cap) {
      var i :| 0 <= i < |kept| && kept[i].workspace == ws;
      assert kept[i] in kept && kept[i] == ScopeRow(Some(cap), ws);
    }
    if ScopeRow(Some(cap), ws) in p.scopeRows {
      assert ScopeRow(Some(cap), ws) in kept;
      var i :| 0 <= i < |kept| && kept[i] == ScopeRow(Some(cap), ws);
      assert RowsFor(p, cap)[i] == ws;
    }
  }

  /* ---------- Ranges ---------- */

  lemma {:induction false} RestrictAllMeaning(cells: seq<Cell>, allowed: seq<Workspace>, c: Cell)
    ensures c in RestrictAll(cells, allowed) <==>
            c.workspace.Some? && c.workspace.value in allowed
            && exists c0 :: c0 in cells && c0.keyIds == c.keyIds && (c0.workspace.None? || c0.workspace == c.workspace)
  {
    if cells != [] {
      RestrictAllMeaning(cells[1..], allowed, c);
      assert cells == [cells[0]] + cells[1..];
      var first := Restrict(cells[0], allowed);
      if c.workspace.Some? && c.workspace.value in allowed && cells[0] == Cell(None, c.keyIds) {
        var i :| 0 <= i < |allowed| && allowed[i] == c.workspace.value;
        assert first[i] == c;
      }
    }
  }

  /** A cell of the base range that `c` may come from. */
  predicate From(c0: Cell, c: Cell) {
    c0.keyIds == c.keyIds && (c0.workspace.None? || c0.workspace == c.workspace)
  }

  lemma IntersectMeaning(r: Range, list: Option<seq<Option<Workspace>>>, c: Cell)
    requires list.Some?
    ensures IntersectRange(r, list).Cells?
    ensures c in IntersectRange(r, list).cells <==>
            c.workspace.Some? && c.workspace in list.value && exists c0 :: c0 in RangeCells(r) && From(c0, c)
  {
    RestrictAllMeaning(RangeCells(r), Dedupe(Strings(list.value)), c);
    assert c.workspace.Some? ==> (c.workspace.value in Strings(list.value) <==> Some(c.workspace.value) in list.value);
    if exists c0 :: c0 in RangeCells(r) && From(c0, c) {
      var c0 :| c0 in RangeCells(r) && From(c0, c);
      assert c0.keyIds == c.keyIds && (c0.workspace.None? || c0.workspace == c.workspace);
    }
  }

  function BaseRange(grants: seq<Grant>): Range {
    if exists g :: g in grants && IsGlobal(g) then All else Cells(Map(CellOf, grants))
  }

  lemma RangeForShape(p: Principal, cap: Capability, grants: seq<Grant>)
    ensures RangeFor(p, cap, grants) ==
            IntersectRange(IntersectRange(BaseRange(grants), KeyList(p)), RowList(p, cap))
  {
  }

  /** With no list the range is the base range; with one, its cells are the base cells at listed workspaces. */
  lemma RangeMeaning(p: Principal, cap: Capability, grants: seq<Grant>, c: Cell)
    ensures var r := RangeFor(p, cap, grants);
            if Unlisted(p) then r == BaseRange(grants)
            else r.Cells? && (c in r.cells <==>
                   c.workspace.Some? && ListsAllow(p, cap, c.workspace)
                   && exists c0 :: c0 in RangeCells(BaseRange(grants)) && From(c0, c))
  {
    hide RangeFor, BaseRange, ListsAllow, ListAllows;
    RangeInLists(p, cap, grants, c);
    ListsAllowMeaning(p, cap, c.workspace);
  }

  lemma RangeInLists(p: Principal, cap: Capability, grants: seq<Grant>, c: Cell)
    ensures var r := RangeFor(p, cap, grants);
            if KeyList(p).None? && RowList(p, cap).None? then r == BaseRange(grants)
            else r.Cells? && (c in r.cells <==>
                   c.workspace.Some? && ListAllows(KeyList(p), c.workspace) && ListAllows(RowList(p, cap), c.workspace)
                   && exists c0 :: c0 in RangeCells(BaseRange(grants)) && From(c0, c))
  {
    hide RangeFor, BaseRange, RowList, KeyList;
    RangeForShape(p, cap, grants);
    var base, one := BaseRange(grants), IntersectRange(BaseRange(grants), KeyList(p));
    if KeyList(p).Some? {
      IntersectMeaning(base, KeyList(p), c);
    }
    if RowList(p, cap).Some? {
      IntersectMeaning(one, RowList(p, cap), c);
      if KeyList(p).Some? {
        forall c1 | c1 in one.cells
          ensures c1.workspace.Some? && exists c0 :: c0 in RangeCells(base) && From(c0, c1)
        {
          IntersectMeaning(base, KeyList(p), c1);
        }
        if c in one.cells {
          assert From(c, c);
        }
      }
    }
  }

  /* ---------- Scopes ---------- */

  predicate AtTarget(row: Row, target: Option<Workspace>) {
    target.Some? ==> row.workspace == target
  }

  /** A grant without a group restricts nothing; only a group grant carries keys or a workspace. */
  predicate WellFormed(g: Grant) {
    && (g.keyIds.None? <==> g.groupId.None?)
    && (g.workspace.Some? ==> g.groupId.Some?)
  }

  /** `g` is one of the grants whose mode the decision reports. */
  predicate GivesMode(g: Grant, grants: seq<Grant>, mode: Option<Mode>, target: Option<Workspace>) {
    g in grants && Covering(g, target) && Some(g.mode) == mode
  }

  /** Some grant that gives the reported mode covers the row. */
  ghost predicate GrantCovers(grants: seq<Grant>, mode: Option<Mode>, target: Option<Workspace>, row: Row) {
    exists g :: GivesMode(g, grants, mode, target) && InCell(row, CellOf(g))
  }

  ghost predicate HasGlobal(grants: seq<Grant>) {
    exists g :: g in grants && IsGlobal(g)
  }

  ghost predicate ModeIsGlobal(grants: seq<Grant>, mode: Option<Mode>, target: Option<Workspace>) {
    exists g :: GivesMode(g, grants, mode, target) && IsGlobal(g)
  }

  /** The grants `ModeAndScope` narrows the query to. */
  function ModeGrants(grants: seq<Grant>, mode: Option<Mode>, target: Option<Workspace>): (r: seq<Grant>)
    ensures forall g :: g in r <==> GivesMode(g, grants, mode, target)
  {
    Filter((g: Grant) => Some(g.mode) == mode, Filter((g: Grant) => Covering(g, target), grants))
  }

  /** `Cell(target, keyIds)` of the source cells at the target. */
  function Retarget(source: seq<Cell>, target: Option<Workspace>): (r: Range)
    ensures r.Cells?
  {
    Cells(Map((c: Cell) => Cell(target, c.keyIds),
              Filter((c: Cell) => c.workspace.None? || c.workspace == target, source)))
  }

  lemma RetargetMeaning(source: seq<Cell>, target: Option<Workspace>, row: Row)
    ensures InRange(row, Retarget(source, target)) <==>
            AtTarget(row, target)
            && exists c ::
                 c in source && (c.workspace.None? || c.workspace == target) && InCell(row, Cell(None, c.keyIds))
  {
    var kept := Filter((c: Cell) => c.workspace.None? || c.workspace == target, source);
    var out := Retarget(source, target).cells;
    if InRange(row, Retarget(source, target)) {
      var c :| c in out && InCell(row, c);
      var i :| 0 <= i < |out| && out[i] == c;
      assert kept[i] in kept && InCell(row, Cell(None, kept[i].keyIds));
    }
    if AtTarget(row, target)
       && exists c ::
            c in source && (c.workspace.None? || c.workspace == target) && InCell(row, Cell(None, c.keyIds)) {
      var c :| c in source && (c.workspace.None? || c.workspace == target) && InCell(row, Cell(None, c.keyIds));
      assert c in kept;
      var i :| 0 <= i < |kept| && kept[i] == c;
      assert out[i] in out && InCell(row, out[i]);
    }
  }

  function SourceCells(grants: seq<Grant>, range: Range, mode: Option<Mode>, target: Option<Workspace>): seq<Cell> {
    var modeGrants := ModeGrants(grants, mode, target);
    if range.All? then Map(CellOf, modeGrants)
    else Filter((c: Cell) => exists g :: g in modeGrants && g.keyIds == c.keyIds, range.cells)
  }

  lemma SourceMeaning(grants: seq<Grant>, range: Range, mode: Option<Mode>, target: Option<Workspace>, c: Cell)
    ensures c in SourceCells(grants, range, mode, target) <==>
            exists g :: GivesMode(g, grants, mode, target)
                        && (if range.All? then c == CellOf(g) else c in range.cells && c.keyIds == g.keyIds)
  {
    var modeGrants := ModeGrants(grants, mode, target);
    if range.All? {
      var cells := Map(CellOf, modeGrants);
      forall g | GivesMode(g, grants, mode, target)
        ensures CellOf(g) in cells
      {
        var i :| 0 <= i < |modeGrants| && modeGrants[i] == g;
        assert cells[i] == CellOf(g);
      }
      if c in cells {
        var i :| 0 <= i < |cells| && cells[i] == c;
        assert modeGrants[i] in modeGrants;
      }
    }
  }

  lemma ModeAndScopeShape(order: seq<Mode>, grants: seq<Grant>, range: Range, target: Option<Workspace>)
    ensures var (mode, scope) := ModeAndScope(order, grants, range, target);
            scope == if range.All? && ModeIsGlobal(grants, mode, target) then All
                     else Retarget(SourceCells(grants, range, mode, target), target)
  {
  }

  /** What a narrowed scope admits: the rows at the target in a source cell of a grant giving the mode. */
  lemma NarrowedMeaning(grants: seq<Grant>, range: Range, mode: Option<Mode>, target: Option<Workspace>, row: Row)
    ensures InRange(row, Retarget(SourceCells(grants, range, mode, target), target)) <==>
            AtTarget(row, target)
            && exists g, c :: GivesMode(g, grants, mode, target)
                 && (if range.All? then c == CellOf(g) else c in range.cells && c.keyIds == g.keyIds)
                 && (c.workspace.None? || c.workspace == target) && InCell(row, Cell(None, c.keyIds))
  {
    hide SourceCells, Retarget, InCell, GivesMode, CellOf;
    var source := SourceCells(grants, range, mode, target);
    RetargetMeaning(source, target, row);
    forall c
      ensures c in source <==>
              exists g :: GivesMode(g, grants, mode, target)
                          && (if range.All? then c == CellOf(g) else c in range.cells && c.keyIds == g.keyIds)
    {
      SourceMeaning(grants, range, mode, target, c);
    }
  }

  /** Without lists, the scope admits exactly the rows at the target that a grant giving the mode covers. */
  lemma UnlistedScope(grants: seq<Grant>, mode: Option<Mode>, target: Option<Workspace>, row: Row)
    requires forall g :: g in grants ==> WellFormed(g)
    ensures var range := BaseRange(grants);
            InRange(row, Retarget(SourceCells(grants, range, mode, target), target))
            <==> AtTarget(row, target) && GrantCovers(grants, mode, target, row)
  {
    hide SourceCells, Retarget;
    var range := BaseRange(grants);
    NarrowedMeaning(grants, range, mode, target, row);
    if AtTarget(row, target) && GrantCovers(grants, mode, target, row) {
      var g :| GivesMode(g, grants, mode, target) && InCell(row, CellOf(g));
      var c := CellOf(g);
      if range.Cells? {
        var i :| 0 <= i < |grants| && grants[i] == g;
        assert range.cells[i] == c;
      }
      assert InCell(row, Cell(None, c.keyIds));
    }
    if InRange(row, Retarget(SourceCells(grants, range, mode, target), target)) {
      var g, c :| GivesMode(g, grants, mode, target)
                  && (if range.All? then c == CellOf(g) else c in range.cells && c.keyIds == g.keyIds)
                  && (c.workspace.None? || c.workspace == target) && InCell(row, Cell(None, c.keyIds));
      assert InCell(row, CellOf(g));
    }
  }

  /**
   * With a list, the scope admits the listed rows at the target that a grant giving the mode covers, unless
   * a global grant widened the range and none of the grants giving the mode is global.
   */
  lemma ListedScope(p: Principal, cap: Capability, grants: seq<Grant>, mode: Option<Mode>, target: Option<Workspace>,
                    row: Row)
    requires !Unlisted(p) && target.Some? && forall g :: g in grants ==> WellFormed(g)
    ensures var range := RangeFor(p, cap, grants);
            && range.Cells?
            && (InRange(row, Retarget(SourceCells(grants, range, mode, target), target)) <==>
                  && AtTarget(row, target) && GrantCovers(grants, mode, target, row)
                     && ListsAllow(p, cap, row.workspace)
                  && (HasGlobal(grants) ==> ModeIsGlobal(grants, mode, target)))
  {
    hide SourceCells, Retarget, RangeFor, ListsAllow, Unlisted;
    var range := RangeFor(p, cap, grants);
    RangeMeaning(p, cap, grants, Cell(target, None));
    NarrowedMeaning(grants, range, mode, target, row);
    if InRange(row, Retarget(SourceCells(grants, range, mode, target), target)) {
      var g, c :| GivesMode(g, grants, mode, target) && c in range.cells && c.keyIds == g.keyIds
                  && (c.workspace.None? || c.workspace == target) && InCell(row, Cell(None, c.keyIds));
      RangeMeaning(p, cap, grants, c);
      var c0 :| c0 in RangeCells(BaseRange(grants)) && From(c0, c);
      assert HasGlobal(grants) ==> c0 == Cell(None, None) && IsGlobal(g);
    }
    if AtTarget(row, target) && GrantCovers(grants, mode, target, row) && ListsAllow(p, cap, row.workspace)
       && (HasGlobal(grants) ==> ModeIsGlobal(grants, mode, target)) {
      var g := CoveringBase(grants, mode, target, row);
      var c := Cell(target, g.keyIds);
      RangeMeaning(p, cap, grants, c);
      assert From(CellOf(g), c);
      assert InCell(row, Cell(None, c.keyIds));
    }
  }

  /** A grant giving the mode and covering the row whose cell is one of the base range. */
  lemma CoveringBase(grants: seq<Grant>, mode: Option<Mode>, target: Option<Workspace>, row: Row) returns (g: Grant)
    requires GrantCovers(grants, mode, target, row) && forall g :: g in grants ==> WellFormed(g)
    requires HasGlobal(grants) ==> ModeIsGlobal(grants, mode, target)
    ensures GivesMode(g, grants, mode, target) && InCell(row, CellOf(g))
    ensures CellOf(g) in RangeCells(BaseRange(grants))
  {
    if HasGlobal(grants) {
      g :| GivesMode(g, grants, mode, target) && IsGlobal(g);
    } else {
      g :| GivesMode(g, grants, mode, target) && InCell(row, CellOf(g));
      var i :| 0 <= i < |grants| && grants[i] == g;
      assert BaseRange(grants).cells[i] == CellOf(g);
    }
  }

  /* ---------- Decisions ---------- */

  lemma GrantOfBinding(policy: Policy, cap: Capability, b: Binding, row: Row)
    requires GrantOf(policy, cap, b).Some?
    ensures var g := GrantOf(policy, cap, b).value;
            && WellFormed(g) && BindingGrants(policy, cap, b, g.mode)
            && g.workspace == b.workspace && g.groupId == b.groupId
            && (IsGlobal(g) <==> b.groupId.None?)
            && (InCell(row, CellOf(g)) <==> BindingCovers(b, row))
  {
  }

  lemma BindingHasGrant(policy: Policy, cap: Capability, b: Binding, mode: Mode)
    requires BindingGrants(policy, cap, b, mode)
    ensures GrantOf(policy, cap, b).Some? && GrantOf(policy, cap, b).value.mode == mode
  {
  }

  /** A binding of `p` grants `cap` in the reported mode at the target and covers the row. */
  ghost predicate Justified(policy: Policy, p: Principal, cap: Capability, mode: Mode, target: Option<Workspace>,
                            row: Row) {
    exists b :: b in p.bindings && BindingGrants(policy, cap, b, mode) && BindingCovers(b, row)
                && (b.workspace.None? || b.workspace == target)
  }

  /** A binding without a group grants `cap`, in the reported mode if one is given. */
  ghost predicate GlobalBinding(policy: Policy, p: Principal, cap: Capability, mode: Option<Mode>) {
    exists b, m :: b in p.bindings && BindingGrants(policy, cap, b, m) && b.groupId.None?
        && (mode.Some? ==> m == mode.value)
  }

  lemma JustifiedIsCovered(policy: Policy, p: Principal, cap: Capability, mode: Mode, target: Option<Workspace>,
                           row: Row)
    ensures Justified(policy, p, cap, mode, target, row) <==>
            GrantCovers(Grants(policy, cap, p.bindings), Some(mode), target, row)
  {
    var grants := Grants(policy, cap, p.bindings);
    if Justified(policy, p, cap, mode, target, row) {
      var b :| b in p.bindings && BindingGrants(policy, cap, b, mode) && BindingCovers(b, row)
          && (b.workspace.None? || b.workspace == target);
      BindingHasGrant(policy, cap, b, mode);
      GrantOfBinding(policy, cap, b, row);
      assert GivesMode(GrantOf(policy, cap, b).value, grants, Some(mode), target);
    }
    if GrantCovers(grants, Some(mode), target, row) {
      var g :| GivesMode(g, grants, Some(mode), target) && InCell(row, CellOf(g));
      var b :| b in p.bindings && GrantOf(policy, cap, b) == Some(g);
      GrantOfBinding(policy, cap, b, row);
    }
  }

  lemma GlobalBindingMeaning(policy: Policy, p: Principal, cap: Capability, mode: Option<Mode>,
                             target: Option<Workspace>)
    ensures var grants := Grants(policy, cap, p.bindings);
            && (GlobalBinding(policy, p, cap, None) <==> HasGlobal(grants))
            && (mode.Some? ==> (GlobalBinding(policy, p, cap, mode) <==> ModeIsGlobal(grants, mode, target)))
            && forall g :: g in grants ==> WellFormed(g)
  {
    hide Grants, GrantOf, BindingGrants;
    var grants := Grants(policy, cap, p.bindings);
    forall g | g in grants
      ensures WellFormed(g)
    {
      var b := GrantHasBinding(policy, p, cap, g);
    }
    if HasGlobal(grants) {
      var g :| g in grants && IsGlobal(g);
      var b := GrantHasBinding(policy, p, cap, g);
    }
    if GlobalBinding(policy, p, cap, None) {
      var b, m :| b in p.bindings && BindingGrants(policy, cap, b, m) && b.groupId.None?;
      var g := BindingGivesGlobal(policy, p, cap, b, m);
    }
    if mode.Some? && ModeIsGlobal(grants, mode, target) {
      var g :| GivesMode(g, grants, mode, target) && IsGlobal(g);
      var b := GrantHasBinding(policy, p, cap, g);
    }
    if mode.Some? && GlobalBinding(policy, p, cap, mode) {
      var b :| b in p.bindings && BindingGrants(policy, cap, b, mode.value) && b.groupId.None?;
      var g := BindingGivesGlobal(policy, p, cap, b, mode.value);
      assert GivesMode(g, grants, mode, target);
    }
  }

  lemma GrantHasBinding(policy: Policy, p: Principal, cap: Capability, g: Grant) returns (b: Binding)
    requires g in Grants(policy, cap, p.bindings)
    ensures b in p.bindings && BindingGrants(policy, cap, b, g.mode)
    ensures WellFormed(g) && (IsGlobal(g) <==> b.groupId.None?)
  {
    b :| b in p.bindings && GrantOf(policy, cap, b) == Some(g);
    GrantOfBinding(policy, cap, b, Row(None, None));
  }

  lemma BindingGivesGlobal(policy: Policy, p: Principal, cap: Capability, b: Binding, mode: Mode) returns (g: Grant)
    requires b in p.bindings && BindingGrants(policy, cap, b, mode) && b.groupId.None?
    ensures g in Grants(policy, cap, p.bindings) && g.mode == mode && IsGlobal(g)
  {
    BindingHasGrant(policy, cap, b, mode);
    GrantOfBinding(policy, cap, b, Row(None, None));
    g := GrantOf(policy, cap, b).value;
  }

  /** The decision allows, on the non-group path, with this mode and query range. */
  predicate AllowsScope(d: Decision, mode: Mode, scope: Range) {
    d.Allowed? && d.mode == Some(mode) && d.scope == Some(Scope(scope, []))
  }

  lemma DecideUnfold(policy: Policy, principal: Option<Principal>, cap: Capability, workspace: Option<Workspace>,
                     group: Option<string>, keyScoped: bool, mode: Mode, scope: Range)
    requires NonEmpty(group).None?
    requires AllowsScope(Decide(policy, principal, cap, workspace, group, keyScoped), mode, scope)
    ensures principal.Some? && cap in policy.capabilities && cap !in principal.value.deny
    ensures principal.value.kind == ApiKey ==> cap in policy.fromPermissions(principal.value.permissions)
    ensures var p, target := principal.value, NonEmpty(workspace);
            var grants := Grants(policy, cap, p.bindings); var range := RangeFor(p, cap, grants);
            ModeAndScope(policy.modeOrder, grants, range, target) == (Some(mode), scope)
                && TargetCheck(range, target, keyScoped).None?
  {
  }

  /** A decision for no workspace is only allowed when no list restricts the principal. */
  lemma GlobalTargetUnlisted(p: Principal, cap: Capability, grants: seq<Grant>, keyScoped: bool)
    requires TargetCheck(RangeFor(p, cap, grants), None, keyScoped).None?
    ensures Unlisted(p)
  {
    hide RangeFor, Unlisted, ListsAllow;
    if !Unlisted(p) {
      var range := RangeFor(p, cap, grants);
      RangeMeaning(p, cap, grants, Cell(None, None));
      var c :| c in range.cells && c.workspace.None?;
      RangeMeaning(p, cap, grants, c);
      assert false;
    }
  }

  /**
   * What an allowed decision admits. Its scope holds a row exactly when the row is at the target (any row,
   * if the scope is everything), a binding granting the capability in the reported mode covers it, the API
   * key's workspace list and the scope rows admit it, and, where a list applies to a principal that also
   * holds the capability globally, it holds it globally in the reported mode.
   */
  lemma ScopeIsExactlyJustified(policy: Policy, principal: Option<Principal>, cap: Capability,
                                workspace: Option<Workspace>, group: Option<string>, keyScoped: bool, mode: Mode,
                                scope: Range, row: Row)
    requires NonEmpty(group).None?
    requires AllowsScope(Decide(policy, principal, cap, workspace, group, keyScoped), mode, scope)
    ensures principal.Some? && cap in policy.capabilities && cap !in principal.value.deny
    ensures principal.value.kind == ApiKey ==> cap in policy.fromPermissions(principal.value.permissions)
    ensures var p, target := principal.value, NonEmpty(workspace);
            InRange(row, scope) <==>
              && (scope.All? || AtTarget(row, target))
              && Justified(policy, p, cap, mode, target, row)
              && ListsAllow(p, cap, row.workspace)
              && (!Unlisted(p) && GlobalBinding(policy, p, cap, None) ==>
                  GlobalBinding(policy, p, cap, Some(mode)))
  {
    hide Decide, RangeFor, ModeAndScope, TargetCheck, Retarget, SourceCells, GrantCovers, Justified, GlobalBinding,
        ListsAllow;
    hide HasGlobal, ModeIsGlobal, WellFormed, Grants;
    DecideUnfold(policy, principal, cap, workspace, group, keyScoped, mode, scope);
    var p, target := principal.value, NonEmpty(workspace);
    var grants := Grants(policy, cap, p.bindings);
    var range := RangeFor(p, cap, grants);
    JustifiedIsCovered(policy, p, cap, mode, target, row);
    GlobalBindingMeaning(policy, p, cap, Some(mode), target);
    ModeAndScopeShape(policy.modeOrder, grants, range, target);
    if target.None? {
      GlobalTargetUnlisted(p, cap, grants, keyScoped);
    }
    RangeMeaning(p, cap, grants, Cell(target, None));
    if Unlisted(p) {
      UnlistedAllows(p, cap, row.workspace);
      if scope.All? {
        GlobalCovers(grants, Some(mode), target, row);
      } else {
        UnlistedScope(grants, Some(mode), target, row);
      }
    } else {
      ListedScope(p, cap, grants, Some(mode), target, row);
    }
  }

  lemma UnlistedAllows(p: Principal, cap: Capability, ws: Option<Workspace>)
    requires Unlisted(p)
    ensures ListsAllow(p, cap, ws)
  {
  }

  lemma GlobalCovers(grants: seq<Grant>, mode: Option<Mode>, target: Option<Workspace>, row: Row)
    requires ModeIsGlobal(grants, mode, target) && forall g :: g in grants ==> WellFormed(g)
    ensures GrantCovers(grants, mode, target, row)
  {
  }

  /* ---------- When a decision allows ---------- */

  /** A binding of `p` grants `cap`, in some mode, at the target. */
  ghost predicate GrantedAt(policy: Policy, p: Principal, cap: Capability, target: Option<Workspace>) {
    exists b, m :: b in p.bindings && BindingGrants(policy, cap, b, m) && (b.workspace.None? || b.workspace == target)
  }

  ghost predicate GrantAt(grants: seq<Grant>, target: Option<Workspace>) {
    exists g :: g in grants && (g.workspace.None? || g.workspace == target)
  }

  lemma GrantedAtMeaning(policy: Policy, p: Principal, cap: Capability, target: Option<Workspace>)
    ensures GrantedAt(policy, p, cap, target) <==> GrantAt(Grants(policy, cap, p.bindings), target)
  {
    hide Grants, BindingGrants, GrantOf;
    var grants := Grants(policy, cap, p.bindings);
    if GrantedAt(policy, p, cap, target) {
      var b, m :| b in p.bindings && BindingGrants(policy, cap, b, m) && (b.workspace.None? || b.workspace == target);
      BindingHasGrant(policy, cap, b, m);
      GrantOfBinding(policy, cap, b, Row(None, None));
    }
    if GrantAt(grants, target) {
      var g :| g in grants && (g.workspace.None? || g.workspace == target);
      var b :| b in p.bindings && GrantOf(policy, cap, b) == Some(g);
      GrantOfBinding(policy, cap, b, Row(None, None));
    }
  }

  lemma BaseHasCellAt(grants: seq<Grant>, target: Option<Workspace>)
    ensures GrantAt(grants, target) <==>
            exists c :: c in RangeCells(BaseRange(grants)) && (c.workspace.None? || c.workspace == target)
  {
    var base := BaseRange(grants);
    if base.Cells? {
      if GrantAt(grants, target) {
        var g :| g in grants && (g.workspace.None? || g.workspace == target);
        var i :| 0 <= i < |grants| && grants[i] == g;
        assert base.cells[i] in base.cells;
      }
      if exists c :: c in base.cells && (c.workspace.None? || c.workspace == target) {
        var c :| c in base.cells && (c.workspace.None? || c.workspace == target);
        var i :| 0 <= i < |base.cells| && base.cells[i] == c;
        assert grants[i] in grants;
      }
    } else {
      assert Cell(None, None) in RangeCells(base);
    }
  }

  lemma TargetCheckMeaning(p: Principal, cap: Capability, grants: seq<Grant>, target: Option<Workspace>,
                           keyScoped: bool)
    ensures TargetCheck(RangeFor(p, cap, grants), target, keyScoped).None? <==>
            if target.Some? then GrantAt(grants, target) && ListsAllow(p, cap, target)
            else Unlisted(p) && (HasGlobal(grants) || (keyScoped && GrantAt(grants, None)))
  {
    hide RangeFor, ListsAllow, Unlisted, GrantAt;
    var range := RangeFor(p, cap, grants);
    RangeMeaning(p, cap, grants, Cell(target, None));
    BaseHasCellAt(grants, target);
    if Unlisted(p) {
      UnlistedAllows(p, cap, target);
    } else if target.None? {
      forall c | c in range.cells
        ensures c.workspace.Some?
      {
        RangeMeaning(p, cap, grants, c);
      }
    } else {
      ListedCellAt(p, cap, grants, target);
    }
  }

  lemma ListedCellAt(p: Principal, cap: Capability, grants: seq<Grant>, target: Option<Workspace>)
    requires !Unlisted(p) && target.Some?
    ensures var range := RangeFor(p, cap, grants);
            && range.Cells? && (forall c :: c in range.cells ==> c.workspace.Some?)
            && ((exists c :: c in range.cells && c.workspace == target) <==>
                ListsAllow(p, cap, target)
                && exists c :: c in RangeCells(BaseRange(grants)) && (c.workspace.None? || c.workspace == target))
  {
    hide RangeFor, ListsAllow, Unlisted, BaseRange;
    var range := RangeFor(p, cap, grants);
    RangeMeaning(p, cap, grants, Cell(target, None));
    forall c | c in range.cells
      ensures c.workspace.Some? && ListsAllow(p, cap, c.workspace)
              && exists c0 :: c0 in RangeCells(BaseRange(grants)) && From(c0, c)
    {
      RangeMeaning(p, cap, grants, c);
    }
    if ListsAllow(p, cap, target)
       && exists c :: c in RangeCells(BaseRange(grants)) && (c.workspace.None? || c.workspace == target) {
      var c0 :| c0 in RangeCells(BaseRange(grants)) && (c0.workspace.None? || c0.workspace == target);
      RangeMeaning(p, cap, grants, Cell(target, c0.keyIds));
      assert From(c0, Cell(target, c0.keyIds));
    }
  }

  /**
   * A known capability is allowed for a workspace exactly when it is not denied, some binding (and, for an
   * API key, its permissions) grants it there, and the lists admit the workspace; for no workspace, when no
   * list applies and it is granted globally or, on a memory route, for a whole group.
   */
  lemma AllowedIff(policy: Policy, p: Principal, cap: Capability, workspace: Option<Workspace>, group: Option<string>,
                   keyScoped: bool)
    requires NonEmpty(group).None? && p.id != "" && cap in policy.capabilities && cap != policy.authenticated
    ensures var target := NonEmpty(workspace);
            Decide(policy, Some(p), cap, workspace, group, keyScoped).Allowed? <==>
              && (p.kind == ApiKey ==> cap in policy.fromPermissions(p.permissions)) && cap !in p.deny
              && (if target.Some? then GrantedAt(policy, p, cap, target) && ListsAllow(p, cap, target)
                  else Unlisted(p) && (GlobalBinding(policy, p, cap, None)
                                            || (keyScoped && GrantedAt(policy, p, cap, None))))
  {
    hide RangeFor, ListsAllow, Unlisted, Grants, TargetCheck, ModeAndScope, GrantedAt, GlobalBinding;
    var target, grants := NonEmpty(workspace), Grants(policy, cap, p.bindings);
    TargetCheckMeaning(p, cap, grants, target, keyScoped);
    GrantedAtMeaning(policy, p, cap, target);
    GrantedAtMeaning(policy, p, cap, None);
    GlobalBindingMeaning(policy, p, cap, None, target);
  }

  /** The reported mode is the widest of those the bindings grant at the target. */
  lemma ModeIsWidest(policy: Policy, principal: Option<Principal>, cap: Capability, workspace: Option<Workspace>,
                     group: Option<string>, keyScoped: bool, mode: Mode, scope: Range, b: Binding, m: Mode)
    requires NonEmpty(group).None?
    requires AllowsScope(Decide(policy, principal, cap, workspace, group, keyScoped), mode, scope)
    requires principal.Some? && b in principal.value.bindings && BindingGrants(policy, cap, b, m)
    requires b.workspace.None? || b.workspace == NonEmpty(workspace)
    ensures IndexIn(policy.modeOrder, mode) <= IndexIn(policy.modeOrder, m)
  {
    hide Decide, Grants, RangeFor, TargetCheck, WidestMode;
    DecideUnfold(policy, principal, cap, workspace, group, keyScoped, mode, scope);
    BindingHasGrant(policy, cap, b, m);
    GrantOfBinding(policy, cap, b, Row(None, None));
    var grants, target := Grants(policy, cap, principal.value.bindings), NonEmpty(workspace);
    assert GrantOf(policy, cap, b).value in Filter((g: Grant) => Covering(g, target), grants);
  }

  lemma AllowedCovered(policy: Policy, principal: Option<Principal>, cap: Capability, workspace: Option<Workspace>,
                       group: Option<string>, keyScoped: bool)
    requires NonEmpty(group).None? && cap != policy.authenticated
    requires Decide(policy, principal, cap, workspace, group, keyScoped).Allowed?
    ensures principal.Some?
    ensures var p, target := principal.value, NonEmpty(workspace);
            var grants := Grants(policy, cap, p.bindings);
            var range := RangeFor(p, cap, grants);
            var (mode, scope) := ModeAndScope(policy.modeOrder, grants, range, target);
            && TargetCheck(range, target, keyScoped).None?
            && Decide(policy, principal, cap, workspace, group, keyScoped)
               == Allowed(mode, Some(range), Some(Scope(scope, [])))
  {
    hide RangeFor, Grants, TargetCheck, GroupCheck, ModeAndScope;
  }

  lemma CoveringHasMode(order: seq<Mode>, grants: seq<Grant>, range: Range, target: Option<Workspace>)
    requires GrantAt(grants, target) || (target.None? && HasGlobal(grants))
    ensures ModeAndScope(order, grants, range, target).0.Some?
  {
    var g :| g in grants && (g.workspace.None? || g.workspace == target);
    assert g in Filter((g: Grant) => Covering(g, target), grants);
  }

  /** Except for the capability every login has, an allowed decision off the group path reports a mode and a scope. */
  lemma AllowedHasScope(policy: Policy, principal: Option<Principal>, cap: Capability, workspace: Option<Workspace>,
                        group: Option<string>, keyScoped: bool)
    requires NonEmpty(group).None? && cap != policy.authenticated
    requires Decide(policy, principal, cap, workspace, group, keyScoped).Allowed?
    ensures exists mode, scope :: AllowsScope(Decide(policy, principal, cap, workspace, group, keyScoped), mode, scope)
  {
    hide Decide, Grants, RangeFor, TargetCheck, ModeAndScope, ListsAllow, Unlisted, GrantAt, HasGlobal;
    AllowedCovered(policy, principal, cap, workspace, group, keyScoped);
    var p, target := principal.value, NonEmpty(workspace);
    var grants := Grants(policy, cap, p.bindings);
    TargetCheckMeaning(p, cap, grants, target, keyScoped);
    CoveringHasMode(policy.modeOrder, grants, RangeFor(p, cap, grants), target);
    var d := Decide(policy, principal, cap, workspace, group, keyScoped);
    assert AllowsScope(d, d.mode.value, d.scope.value.range);
  }
}
