/**
 * `decide` of `lib/admin/AdminAuthz.js`: role bindings become grants, grants a range of cells, and the
 * range a mode and the scope of the query.
 */
module AdminAuthz {
  import opened Options

  type Capability = string
  type Mode = string
  type Workspace = string
  type KeyId = string

  datatype PrincipalKind = Master | AdminSession | ApiKey

  /** A field is `None` where the source finds no string, or no array. */
  datatype Binding = Binding(role: Option<string>, workspace: Option<Workspace>, groupId: Option<string>,
                             keyIds: Option<seq<Option<KeyId>>>)

  datatype ScopeRow = ScopeRow(cap: Option<Capability>, workspace: Option<Workspace>)

  datatype Principal = Principal(kind: PrincipalKind, id: string, bindings: seq<Binding>, deny: seq<Capability>,
                                 permissions: seq<string>, keyWorkspaces: Option<seq<Option<Workspace>>>,
                                 scopeRows: seq<ScopeRow>)

  /** What `capabilities.js` provides: the role presets, the order of the modes and the capability names. */
  datatype Policy = Policy(presets: map<string, map<Capability, Mode>>, modeOrder: seq<Mode>,
                           capabilities: set<Capability>, authenticated: Capability,
                           fromPermissions: seq<string> -> set<Capability>)

  datatype Grant = Grant(role: string, workspace: Option<Workspace>, groupId: Option<string>,
                         keyIds: Option<seq<KeyId>>, mode: Mode)

  /** `None` leaves the workspace, or the key, unrestricted. */
  datatype Cell = Cell(workspace: Option<Workspace>, keyIds: Option<seq<KeyId>>)

  datatype Range = All | Cells(cells: seq<Cell>)

  /** `groups` is only set by the group branch. */
  datatype Scope = Scope(range: Range, groups: seq<string>)

  datatype Step = PrincipalStep | CapabilityStep | DenyStep | GroupStep | WorkspaceStep

  datatype Reason = InvalidPrincipal | UnknownCapability | NotGranted | ExplicitlyDenied | GroupOutOfRange
                  | GlobalTargetRequiresUnrestrictedRange | WorkspaceOutOfRange

  datatype Decision =
    | Allowed(mode: Option<Mode>, range: Option<Range>, scope: Option<Scope>)
    | Denied(deniedAt: Step, reason: Reason)

  /** The elements of `xs` that are strings. */
  function Strings(xs: seq<Option<string>>): (r: seq<string>)
    ensures forall x :: x in r <==> Some(x) in xs
  {
    if xs == [] then []
    else
      assert xs == [xs[0]] + xs[1..];
      (if xs[0].Some? then [xs[0].value] else []) + Strings(xs[1..])
  }

  /** `[...new Set(xs)]`: first occurrences, in order. */
  function Dedupe<T(==,!new)>(xs: seq<T>): (r: seq<T>)
    ensures forall x :: x in r <==> x in xs
    ensures forall i, j :: 0 <= i < j < |r| ==> r[i] != r[j]
  {
    if xs == [] then []
    else
      var n := |xs| - 1;
      var front := Dedupe(xs[..n]);
      assert xs == xs[..n] + [xs[n]];
      if xs[n] in front then front else front + [xs[n]]
  }

  /** The grant a binding gives for `cap`, if it gives one. */
  function GrantOf(policy: Policy, cap: Capability, b: Binding): Option<Grant> {
    if b.role.None? || b.role.value !in policy.presets || cap !in policy.presets[b.role.value] then None
    else if b.workspace.Some? && b.groupId.None? then None
    else
      var keyIds := if b.groupId.None? then None else Some(if b.keyIds.Some? then Strings(b.keyIds.value) else []);
      Some(Grant(b.role.value, b.workspace, b.groupId, keyIds, policy.presets[b.role.value][cap]))
  }

  function Grants(policy: Policy, cap: Capability, bindings: seq<Binding>): (r: seq<Grant>)
    ensures forall g :: g in r <==> exists b :: b in bindings && GrantOf(policy, cap, b) == Some(g)
  {
    if bindings == [] then []
    else
      var n := |bindings| - 1;
      assert bindings == bindings[..n] + [bindings[n]];
      var last := GrantOf(policy, cap, bindings[n]);
      Grants(policy, cap, bindings[..n]) + if last.Some? then [last.value] else []
  }

  predicate Legacy(policy: Policy, p: Principal, cap: Capability) {
    p.kind == ApiKey ==> cap in policy.fromPermissions(p.permissions)
  }

  function GrantsOf(policy: Policy, p: Principal, cap: Capability): seq<Grant> {
    if Legacy(policy, p, cap) then Grants(policy, cap, p.bindings) else []
  }

  /** `grantsFor`. */
  method GrantsFor(policy: Policy, p: Principal, cap: Capability) returns (grants: seq<Grant>)
    ensures grants == GrantsOf(policy, p, cap)
    ensures forall g :: g in grants <==>
              && (p.kind == ApiKey ==> cap in policy.fromPermissions(p.permissions))
              && exists b :: b in p.bindings && GrantOf(policy, cap, b) == Some(g)
  {
    if p.kind == ApiKey && cap !in policy.fromPermissions(p.permissions) {
      return [];
    }
    grants := [];
    for i := 0 to |p.bindings|
      invariant grants == Grants(policy, cap, p.bindings[..i])
    {
      var binding := p.bindings[i];
      assert p.bindings[..i + 1][..i] == p.bindings[..i];
      if binding.role.None? || binding.role.value !in policy.presets || cap !in policy.presets[binding.role.value] {
        continue;
      }
      if binding.workspace.Some? && binding.groupId.None? {
        continue;
      }
      var keyIds := None;
      if binding.groupId.Some? {
        keyIds := Some(if binding.keyIds.Some? then Strings(binding.keyIds.value) else []);
      }
      grants := grants + [Grant(binding.role.value, binding.workspace, binding.groupId, keyIds,
                                policy.presets[binding.role.value][cap])];
    }
    assert p.bindings[..|p.bindings|] == p.bindings;
  }

  /** The cells one cell contributes under the allowed workspaces. */
  function Restrict(c: Cell, allowed: seq<Workspace>): seq<Cell> {
    if c.workspace.None? then seq(|allowed|, i requires 0 <= i < |allowed| => Cell(Some(allowed[i]), c.keyIds))
    else if c.workspace.value in allowed then [c] else []
  }

  function RestrictAll(cells: seq<Cell>, allowed: seq<Workspace>): seq<Cell> {
    if cells == [] then [] else Restrict(cells[0], allowed) + RestrictAll(cells[1..], allowed)
  }

  function RangeCells(r: Range): seq<Cell> {
    match r
    case All => [Cell(None, None)]
    case Cells(cells) => cells
  }

  function IntersectRange(r: Range, list: Option<seq<Option<Workspace>>>): Range {
    match list
    case None => r
    case Some(ws) => Cells(RestrictAll(RangeCells(r), Dedupe(Strings(ws))))
  }

  predicate IsGlobal(g: Grant) {
    g.workspace.None? && g.groupId.None?
  }

  function CellOf(g: Grant): Cell {
    Cell(g.workspace, g.keyIds)
  }

  function Map<A, B>(f: A -> B, xs: seq<A>): (r: seq<B>)
    ensures |r| == |xs| && forall i :: 0 <= i < |r| ==> r[i] == f(xs[i])
  {
    seq(|xs|, i requires 0 <= i < |xs| => f(xs[i]))
  }

  function Filter<A(!new)>(f: A -> bool, xs: seq<A>): (r: seq<A>)
    ensures forall x :: x in r <==> x in xs && f(x)
  {
    if xs == [] then []
    else
      assert xs == [xs[0]] + xs[1..];
      (if f(xs[0]) then [xs[0]] else []) + Filter(f, xs[1..])
  }

  function RowsFor(p: Principal, cap: Capability): seq<Option<Workspace>> {
    Map((r: ScopeRow) => r.workspace, Filter((r: ScopeRow) => r.cap == Some(cap), p.scopeRows))
  }

  /** `rangeFor`. */
  function RangeFor(p: Principal, cap: Capability, grants: seq<Grant>): Range {
    var base := if exists g :: g in grants && IsGlobal(g) then All else Cells(Map(CellOf, grants));
    var byKey := if p.kind == ApiKey then IntersectRange(base, p.keyWorkspaces) else base;
    if p.scopeRows != [] then IntersectRange(byKey, Some(RowsFor(p, cap))) else byKey
  }

  function IndexIn(xs: seq<Mode>, x: Mode): (i: int)
    ensures -1 <= i < |xs|
    ensures i >= 0 ==> xs[i] == x && x !in xs[..i]
    ensures i == -1 <==> x !in xs
  {
    if xs == [] then -1
    else if xs[0] == x then 0
    else
      var i := IndexIn(xs[1..], x);
      assert xs == [xs[0]] + xs[1..];
      assert i >= 0 ==> xs[..i + 1] == [xs[0]] + xs[1..][..i];
      if i == -1 then -1 else i + 1
  }

  /** `widestMode`: the first mode in the stable order of `CAP_MODE_ORDER`; `None` for no grants. */
  function WidestMode(order: seq<Mode>, grants: seq<Grant>): (m: Option<Mode>)
    ensures m.None? <==> grants == []
    ensures m.Some? ==> exists g :: g in grants && g.mode == m.value
    ensures m.Some? ==> forall g :: g in grants ==> IndexIn(order, m.value) <= IndexIn(order, g.mode)
    ensures m.Some? ==> exists i :: 0 <= i < |grants| && IsFirstWidest(order, grants, i, m.value)
  {
    if grants == [] then None
    else
      assert grants == [grants[0]] + grants[1..];
      var rest := WidestMode(order, grants[1..]);
      if rest.None? || IndexIn(order, grants[0].mode) <= IndexIn(order, rest.value) then
        assert grants[0] in grants && IsFirstWidest(order, grants, 0, grants[0].mode);
        Some(grants[0].mode)
      else
        assert forall i :: IsFirstWidest(order, grants[1..], i, rest.value) ==>
          IsFirstWidest(order, grants, i + 1, rest.value);
        rest
  }

  /** The grant at `i` has the mode, and every one before it a later mode. */
  predicate IsFirstWidest(order: seq<Mode>, grants: seq<Grant>, i: int, m: Mode) {
    && 0 <= i < |grants| && grants[i].mode == m
    && forall j :: 0 <= j < i ==> IndexIn(order, m) < IndexIn(order, grants[j].mode)
  }

  /** `targetCheck`: the reason for refusing, if any. */
  function TargetCheck(range: Range, target: Option<Workspace>, keyScoped: bool): Option<Reason> {
    match range
    case All => None
    case Cells(cells) =>
      if target.None? then
        if keyScoped && exists c :: c in cells && c.workspace.None? then None
        else Some(GlobalTargetRequiresUnrestrictedRange)
      else if exists c :: c in cells && (c.workspace.None? || c.workspace == target) then None
      else Some(WorkspaceOutOfRange)
  }

  predicate Covering(g: Grant, target: Option<Workspace>) {
    g.workspace.None? || (target.Some? && g.workspace == target)
  }

  /** `modeAndScope`. */
  function ModeAndScope(order: seq<Mode>, grants: seq<Grant>, range: Range, target: Option<Workspace>)
    : (Option<Mode>, Range)
  {
    var covering := Filter((g: Grant) => Covering(g, target), grants);
    var mode := WidestMode(order, covering);
    var modeGrants := Filter((g: Grant) => Some(g.mode) == mode, covering);
    if range.All? && exists g :: g in modeGrants && IsGlobal(g) then (mode, All)
    else
      var source := if range.All? then Map(CellOf, modeGrants)
                    else Filter((c: Cell) => exists g :: g in modeGrants && g.keyIds == c.keyIds, range.cells);
      var inTarget := Filter((c: Cell) => c.workspace.None? || c.workspace == target, source);
      (mode, Cells(Map((c: Cell) => Cell(target, c.keyIds), inTarget)))
  }

  /** `groupCheck`: the mode and scope, if allowed. */
  function GroupCheck(order: seq<Mode>, grants: seq<Grant>, range: Range, group: string)
    : Option<(Option<Mode>, Scope)>
  {
    if range.All? then Some((WidestMode(order, grants), Scope(All, [])))
    else
      var matching := Filter((g: Grant) => g.groupId.Some? && (group == "*" || g.groupId.value == group), grants);
      if matching == [] then None
      else
        var groups := Dedupe(Strings(Map((g: Grant) => g.groupId, matching)));
        Some((WidestMode(order, matching), Scope(Cells(Map(CellOf, matching)), groups)))
  }

  function NonEmpty(s: Option<string>): (r: Option<string>)
    ensures r.Some? ==> r == s && r.value != ""
    ensures r.None? ==> s.None? || s.value == ""
  {
    if s == Some("") then None else s
  }

  /** `decide`. A principal the source finds malformed is `None`. */
  function Decide(policy: Policy, principal: Option<Principal>, cap: Capability, workspace: Option<Workspace>,
                  group: Option<string>, keyScoped: bool): Decision
  {
    var target := NonEmpty(workspace);
    if principal.None? || principal.value.id == "" then Denied(PrincipalStep, InvalidPrincipal)
    else
      var p := principal.value;
      if cap == policy.authenticated then Allowed(None, None, None)
      else if cap !in policy.capabilities then Denied(CapabilityStep, UnknownCapability)
      else
        var grants := GrantsOf(policy, p, cap);
        if grants == [] then Denied(CapabilityStep, NotGranted)
        else if cap in p.deny then Denied(DenyStep, ExplicitlyDenied)
        else
          var range := RangeFor(p, cap, grants);
          if NonEmpty(group).Some? then
            match GroupCheck(policy.modeOrder, grants, range, group.value)
            case None => Denied(GroupStep, GroupOutOfRange)
            case Some((mode, scope)) => Allowed(mode, Some(range), Some(scope))
          else
            match TargetCheck(range, target, keyScoped)
            case Some(reason) => Denied(WorkspaceStep, reason)
            case None =>
              var (mode, scope) := ModeAndScope(policy.modeOrder, grants, range, target);
              Allowed(mode, Some(range), Some(Scope(scope, [])))
  }
}
