/**
 * `lib/admin/ScopeFilter.js`: a query range compiled to an SQL condition and the values bound to its
 * placeholders. The condition is a tree; its meaning is SQL's three-valued logic.
 */
module ScopeFilter {
  import opened Options

  /** Bound values: text or a text array. */
  datatype Value = Text(text: string) | TextArray(texts: seq<string>)

  /** `$n` counts from 1. */
  datatype Cond =
    | Const(value: bool)
    | Equals(column: string, n: nat)
    | EqualsAny(column: string, n: nat)
    | And(conds: seq<Cond>)
    | Or(conds: seq<Cond>)
    | BothEnds(alias: string, fromEnd: Cond, toEnd: Cond)

  /* ---------- Meaning of a condition ---------- */

  datatype Truth = Yes | No | Unknown

  function Both(a: Truth, b: Truth): Truth {
    if a == No || b == No then No else if a == Yes && b == Yes then Yes else Unknown
  }

  function Either(a: Truth, b: Truth): Truth {
    if a == Yes || b == Yes then Yes else if a == No && b == No then No else Unknown
  }

  function Known(b: bool): Truth {
    if b then Yes else No
  }

  /** A row gives each column a text or NULL. */
  type Row = string -> Option<string>

  /** The fragments by id, and the two ends of the link row under test. */
  datatype Database = Database(fragments: map<string, string -> Option<string>>, fromId: string, toId: string)

  /** The row as the columns of `alias`. */
  function Aliased(alias: string, row: Row): Row {
    (column: string) => if alias + "." <= column then row(column[|alias| + 1..]) else None
  }

  function Eval(c: Cond, values: seq<Value>, row: Row, db: Database): Truth {
    match c
    case Const(b) => Known(b)
    case Equals(column, n) =>
      if !(1 <= n <= |values|) || values[n - 1].TextArray? || row(column).None? then Unknown
      else Known(row(column).value == values[n - 1].text)
    case EqualsAny(column, n) =>
      if !(1 <= n <= |values|) || values[n - 1].Text? || row(column).None? then Unknown
      else Known(row(column).value in values[n - 1].texts)
    case And(conds) => EvalAll(conds, values, row, db)
    case Or(conds) => EvalAny(conds, values, row, db)
    case BothEnds(_, a, b) =>
      if db.fromId in db.fragments && db.toId in db.fragments then
        Both(Eval(a, values, Aliased("sa", db.fragments[db.fromId]), db),
             Eval(b, values, Aliased("sb", db.fragments[db.toId]), db))
      else No
  }

  function EvalAll(cs: seq<Cond>, values: seq<Value>, row: Row, db: Database): Truth {
    if cs == [] then Yes else Both(Eval(cs[0], values, row, db), EvalAll(cs[1..], values, row, db))
  }

  function EvalAny(cs: seq<Cond>, values: seq<Value>, row: Row, db: Database): Truth {
    if cs == [] then No else Either(Eval(cs[0], values, row, db), EvalAny(cs[1..], values, row, db))
  }

  /** The placeholders in the order they are written. */
  function Placeholders(c: Cond): seq<nat> {
    match c
    case Const(_) => []
    case Equals(_, n) => [n]
    case EqualsAny(_, n) => [n]
    case And(conds) => AllPlaceholders(conds)
    case Or(conds) => AllPlaceholders(conds)
    case BothEnds(_, a, b) => Placeholders(a) + Placeholders(b)
  }

  function AllPlaceholders(cs: seq<Cond>): seq<nat> {
    if cs == [] then [] else Placeholders(cs[0]) + AllPlaceholders(cs[1..])
  }

  /* ---------- Ranges as they arrive ---------- */

  datatype RawText = NullText | GivenText(text: string) | NotText

  datatype RawKeys = NullKeys | KeyArray(keys: seq<Option<string>>) | NotKeys

  datatype RawCell = NoCell | RawCell(workspace: RawText, keyIds: RawKeys)

  /** A range whose `all` is true, is false, or is anything else or missing. */
  datatype RawRange =
    | AllTrue
    | AllFalse(cells: Option<seq<RawCell>>, workspaces: Option<seq<RawText>>)
    | NoRange

  datatype Cell = Cell(workspace: Option<string>, keyIds: Option<seq<string>>)

  predicate ValidCell(c: RawCell) {
    && c.RawCell?
    && (c.workspace.NullText? || (c.workspace.GivenText? && c.workspace.text != ""))
    && (c.keyIds.NullKeys? || (c.keyIds.KeyArray? && forall i :: 0 <= i < |c.keyIds.keys| ==> c.keyIds.keys[i].Some?))
  }

  function ToCell(c: RawCell): Cell
    requires ValidCell(c)
  {
    Cell(if c.workspace.NullText? then None else Some(c.workspace.text),
         if c.keyIds.NullKeys? then None
         else Some(seq(|c.keyIds.keys|, i requires 0 <= i < |c.keyIds.keys| => c.keyIds.keys[i].value)))
  }

  function RawCells(r: RawRange): Option<seq<RawCell>> {
    if !r.AllFalse? then None
    else if r.cells.Some? then r.cells
    else if r.workspaces.None? then None
    else
      var ws := r.workspaces.value;
      Some(seq(|ws|, i requires 0 <= i < |ws| => RawCell(ws[i], NullKeys)))
  }

  /** `cellList`: the cells of a well-formed, non-empty list. */
  function CellList(r: RawRange): Option<seq<Cell>> {
    var raw := RawCells(r);
    if raw.None? || raw.value == [] || exists i :: 0 <= i < |raw.value| && !ValidCell(raw.value[i]) then None
    else Some(seq(|raw.value|, i requires 0 <= i < |raw.value| => ToCell(raw.value[i])))
  }

  /** The row lies in the cell: its workspace and its key are not NULL where the cell names any. */
  ghost predicate InCell(workspace: Option<string>, keyId: Option<string>, c: Cell) {
    && (c.workspace.Some? ==> workspace == c.workspace)
    && (c.keyIds.Some? ==> keyId.Some? && keyId.value in c.keyIds.value)
  }

  /** What the range means for a row: everything, the union of its cells, or, if malformed, nothing. */
  ghost predicate InScope(workspace: Option<string>, keyId: Option<string>, r: RawRange) {
    || r.AllTrue?
    || (CellList(r).Some? && exists i :: 0 <= i < |CellList(r).value| && InCell(workspace, keyId, CellList(r).value[i]))
  }

  /* ---------- Column names ---------- */

  predicate IsIdentifier(s: string) {
    && s != "" && ('a' <= s[0] <= 'z' || s[0] == '_')
    && forall i :: 0 <= i < |s| ==> 'a' <= s[i] <= 'z' || '0' <= s[i] <= '9' || s[i] == '_'
  }

  /** `COLUMN_PATTERN`: an identifier, or an alias and an identifier. */
  predicate IsColumn(s: string) {
    IsIdentifier(s) || exists k :: 0 <= k < |s| && s[k] == '.' && IsIdentifier(s[..k]) && IsIdentifier(s[k + 1..])
  }

  predicate EndsWith(s: string, t: string) {
    |t| <= |s| && s[|s| - |t|..] == t
  }

  /** `/(^|\.)workspace$/`. */
  predicate IsWorkspaceColumn(s: string) {
    s == "workspace" || EndsWith(s, ".workspace")
  }

  function KeyColumn(column: string): string {
    if EndsWith(column, "workspace") then column[..|column| - |"workspace"|] + "key_id" else column
  }

  /* ---------- Compilation ---------- */

  /** The values `cellPredicate` binds for a cell. */
  function CellValues(c: Cell): seq<Value> {
    if c.keyIds == Some([]) then []
    else
      (if c.workspace.Some? then [Text(c.workspace.value)] else []) +
      (if c.keyIds.Some? then [TextArray(c.keyIds.value)] else [])
  }

  /** The condition of a cell when `n` values are bound already. */
  function CellCond(n: nat, column: string, c: Cell): Cond {
    if c.keyIds == Some([]) then Const(false)
    else
      var parts := (if c.workspace.Some? then [Equals(column, n + 1)] else []) +
                   (if c.keyIds.Some? then [EqualsAny(KeyColumn(column), n + |CellValues(c)|)] else []);
      if parts == [] then Const(true) else And(parts)
  }

  function CellsValues(cs: seq<Cell>): seq<Value> {
    if cs == [] then [] else CellValues(cs[0]) + CellsValues(cs[1..])
  }

  function CellsConds(n: nat, column: string, cs: seq<Cell>): seq<Cond>
    decreases |cs|
  {
    if cs == [] then [] else [CellCond(n, column, cs[0])] + CellsConds(n + |CellValues(cs[0])|, column, cs[1..])
  }

  datatype ScopeFilterError = BadColumn | NotAWorkspaceColumn | BadAlias

  /** The caller's array of bound values, which the compiler only pushes to. */
  class Params {
    var values: seq<Value>

    constructor (values: seq<Value>)
      ensures this.values == values
    {
      this.values := values;
    }

    method Push(v: Value)
      modifies this
      ensures values == old(values) + [v]
    {
      values := values + [v];
    }
  }

  method CellPredicate(params: Params, column: string, cell: Cell) returns (cond: Cond)
    modifies params
    ensures params.values == old(params.values) + CellValues(cell)
    ensures cond == CellCond(|old(params.values)|, column, cell)
  {
    if cell.keyIds.Some? && |cell.keyIds.value| == 0 {
      return Const(false);
    }
    var parts := [];
    if cell.workspace.Some? {
      params.Push(Text(cell.workspace.value));
      parts := parts + [Equals(column, |params.values|)];
    }
    if cell.keyIds.Some? {
      params.Push(TextArray(cell.keyIds.value));
      parts := parts + [EqualsAny(KeyColumn(column), |params.values|)];
    }
    cond := if |parts| == 0 then Const(true) else And(parts);
  }

  /** The outcome of `scopePredicate` with `n` values bound: the condition and the values added. */
  function Compile(n: nat, column: Option<string>, r: RawRange): Result<(Cond, seq<Value>), ScopeFilterError> {
    if column.Some? && !IsColumn(column.value) then Err(BadColumn)
    else if r.AllTrue? then Ok((Const(true), []))
    else if column.None? || CellList(r).None? then Ok((Const(false), []))
    else if !IsWorkspaceColumn(column.value) then Err(NotAWorkspaceColumn)
    else Ok((Or(CellsConds(n, column.value, CellList(r).value)), CellsValues(CellList(r).value)))
  }

  /** `scopePredicate`. */
  method ScopePredicate(params: Params, column: Option<string>, r: RawRange)
      returns (result: Result<Cond, ScopeFilterError>)
    modifies params
    ensures match Compile(|old(params.values)|, column, r)
            case Err(e) => result == Err(e) && params.values == old(params.values)
            case Ok((cond, added)) => result == Ok(cond) && params.values == old(params.values) + added
  {
    if column.Some? && !IsColumn(column.value) {
      return Err(BadColumn);
    }
    if r.AllTrue? {
      return Ok(Const(true));
    }
    var cells := CellList(r);
    if column.None? || cells.None? {
      return Ok(Const(false));
    }
    if !IsWorkspaceColumn(column.value) {
      return Err(NotAWorkspaceColumn);
    }
    var conds := CellPredicates(params, column.value, cells.value);
    result := Ok(Or(conds));
  }

  /** `cells.map((cell) => cellPredicate(params, column, cell))`. */
  method CellPredicates(params: Params, column: string, cells: seq<Cell>) returns (conds: seq<Cond>)
    modifies params
    ensures params.values == old(params.values) + CellsValues(cells)
    ensures conds == CellsConds(|old(params.values)|, column, cells)
  {
    hide CellValues, CellCond;
    conds := [];
    ghost var before := params.values;
    for i := 0 to |cells|
      invariant params.values == before + CellsValues(cells[..i])
      invariant conds == CellsConds(|before|, column, cells[..i])
    {
      CellsStep(|before|, column, cells[..i], cells[i]);
      assert cells[..i] + [cells[i]] == cells[..i + 1];
      var cond := CellPredicate(params, column, cells[i]);
      conds := conds + [cond];
    }
    assert cells[..|cells|] == cells;
  }

  lemma {:induction false} CellsStep(n: nat, column: string, cs: seq<Cell>, c: Cell)
    ensures CellsValues(cs + [c]) == CellsValues(cs) + CellValues(c)
    ensures CellsConds(n, column, cs + [c]) == CellsConds(n, column, cs) + [CellCond(n + |CellsValues(cs)|, column, c)]
    decreases |cs|
  {
    hide CellValues, CellCond;
    if cs == [] {
      assert cs + [c] == [c];
    } else {
      assert (cs + [c])[1..] == cs[1..] + [c];
      CellsStep(n + |CellValues(cs[0])|, column, cs[1..], c);
    }
  }

  /** `linkScopePredicate`. */
  function CompileLink(n: nat, alias: string, r: RawRange): Result<(Cond, seq<Value>), ScopeFilterError> {
    if !IsIdentifier(alias) then Err(BadAlias)
    else if r.AllTrue? then Ok((Const(true), []))
    else if CellList(r).None? then Ok((Const(false), []))
    else
      var values := CellsValues(CellList(r).value);
      Ok((BothEnds(alias, Or(CellsConds(n, "sa.workspace", CellList(r).value)),
                   Or(CellsConds(n + |values|, "sb.workspace", CellList(r).value))), values + values))
  }

  lemma SuffixOf(a: string, b: string)
    ensures EndsWith(a + b, b) && (a + b)[..|a + b| - |b|] == a
  {
  }

  /** A column of an alias. */
  lemma AliasColumn(alias: string, column: string)
    requires IsIdentifier(alias) && column == alias + ".workspace"
    ensures IsColumn(column) && IsWorkspaceColumn(column) && KeyColumn(column) == alias + ".key_id"
  {
    hide EndsWith;
    SuffixOf(alias, ".workspace");
    assert column == (alias + ".") + "workspace";
    SuffixOf(alias + ".", "workspace");
    DottedColumn(alias, column);
  }

  lemma DottedColumn(alias: string, column: string)
    requires IsIdentifier(alias) && column == alias + ".workspace"
    ensures IsColumn(column)
  {
    var n := |alias|;
    assert column[n] == '.' && column[..n] == alias && column[n + 1..] == "workspace";
    assert IsIdentifier("workspace");
  }

  lemma EndColumns()
    ensures IsColumn("sa.workspace") && IsWorkspaceColumn("sa.workspace")
    ensures IsColumn("sb.workspace") && IsWorkspaceColumn("sb.workspace")
    ensures KeyColumn("sa.workspace") == "sa.key_id" && KeyColumn("sb.workspace") == "sb.key_id"
  {
    hide IsColumn, IsWorkspaceColumn, KeyColumn;
    AliasColumn("sa", "sa.workspace");
    AliasColumn("sb", "sb.workspace");
  }

  lemma CompileEnds(n: nat, alias: string, r: RawRange) returns (a: Cond, b: Cond, added: seq<Value>)
    requires IsIdentifier(alias) && !r.AllTrue? && CellList(r).Some?
    ensures Compile(n, Some("sa.workspace"), r) == Ok((a, added))
    ensures Compile(n + |added|, Some("sb.workspace"), r) == Ok((b, added))
    ensures CompileLink(n, alias, r) == Ok((BothEnds(alias, a, b), added + added))
  {
    hide IsColumn, IsWorkspaceColumn, IsIdentifier, CellsConds, CellsValues, CellList;
    EndColumns();
    added := CellsValues(CellList(r).value);
    a, b := Compile(n, Some("sa.workspace"), r).value.0, Compile(n + |added|, Some("sb.workspace"), r).value.0;
  }

  method LinkScopePredicate(params: Params, alias: string, r: RawRange) returns (result: Result<Cond, ScopeFilterError>)
    modifies params
    ensures match CompileLink(|old(params.values)|, alias, r)
            case Err(e) => result == Err(e) && params.values == old(params.values)
            case Ok((cond, added)) => result == Ok(cond) && params.values == old(params.values) + added
  {
    if !IsIdentifier(alias) {
      return Err(BadAlias);
    }
    if r.AllTrue? {
      return Ok(Const(true));
    }
    if CellList(r).None? {
      return Ok(Const(false));
    }
    result := BothEndsPredicate(params, alias, r);
  }

  /** The two calls of `scopePredicate`, one for each end of the link. */
  method BothEndsPredicate(params: Params, alias: string, r: RawRange) returns (result: Result<Cond, ScopeFilterError>)
    requires IsIdentifier(alias) && !r.AllTrue? && CellList(r).Some?
    modifies params
    ensures var compiled := CompileLink(|old(params.values)|, alias, r);
            compiled.Ok? && result == Ok(compiled.value.0) && params.values == old(params.values) + compiled.value.1
  {
    hide *;
    ghost var a', b', added := CompileEnds(|params.values|, alias, r);
    var a := ScopePredicate(params, Some("sa.workspace"), r);
    var b := ScopePredicate(params, Some("sb.workspace"), r);
    result := Ok(BothEnds(alias, a.value, b.value));
  }
}
