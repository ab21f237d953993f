/**
 * The compiled condition holds of a row exactly when the row is in the range, whatever was bound before
 * and is bound after, and uses each value it binds once.
 */
module ScopeFilterLaws {
  import opened Options
  import opened ScopeFilter

  lemma AndOne(a: Cond, values: seq<Value>, row: Row, db: Database)
    ensures Eval(And([a]), values, row, db) == Both(Eval(a, values, row, db), Yes)
    ensures Placeholders(And([a])) == Placeholders(a)
  {
    assert [a][1..] == [];
    assert EvalAll([a], values, row, db) == Both(Eval(a, values, row, db), EvalAll([a][1..], values, row, db));
    assert AllPlaceholders([a]) == Placeholders(a) + AllPlaceholders([a][1..]);
  }

  lemma AndTwo(a: Cond, b: Cond, values: seq<Value>, row: Row, db: Database)
    ensures Eval(And([a, b]), values, row, db) == Both(Eval(a, values, row, db), Both(Eval(b, values, row, db), Yes))
    ensures Placeholders(And([a, b])) == Placeholders(a) + Placeholders(b)
  {
    AndOne(b, values, row, db);
    assert [a, b][1..] == [b];
    assert EvalAll([a, b], values, row, db) == Both(Eval(a, values, row, db), EvalAll([a, b][1..], values, row, db));
    assert AllPlaceholders([a, b]) == Placeholders(a) + AllPlaceholders([a, b][1..]);
  }

  /** The shapes a cell's condition takes. */
  lemma CellShape(n: nat, column: string, c: Cell)
    requires c.keyIds != Some([])
    ensures CellCond(n, column, c) ==
            if c.workspace.None? && c.keyIds.None? then Const(true)
            else if c.keyIds.None? then And([Equals(column, n + 1)])
            else if c.workspace.None? then And([EqualsAny(KeyColumn(column), n + 1)])
            else And([Equals(column, n + 1), EqualsAny(KeyColumn(column), n + 2)])
  {
    hide KeyColumn;
  }

  lemma CellMeaning(pre: seq<Value>, column: string, c: Cell, more: seq<Value>, row: Row, db: Database)
    ensures var values := pre + CellValues(c) + more;
            Eval(CellCond(|pre|, column, c), values, row, db) == Yes <==> InCell(row(column), row(KeyColumn(column)), c)
  {
    var n, key := |pre|, KeyColumn(column);
    var values := pre + CellValues(c) + more;
    if c.keyIds != Some([]) {
      CellShape(n, column, c);
      hide KeyColumn, CellCond;
      assert forall i :: 0 <= i < |CellValues(c)| ==> values[n + i] == CellValues(c)[i];
      AndOne(Equals(column, n + 1), values, row, db);
      AndOne(EqualsAny(key, n + 1), values, row, db);
      AndTwo(Equals(column, n + 1), EqualsAny(key, n + 2), values, row, db);
    }
  }

  lemma {:induction false} CellsMeaning(pre: seq<Value>, column: string, cs: seq<Cell>, more: seq<Value>, row: Row,
                                        db: Database)
    ensures EvalAny(CellsConds(|pre|, column, cs), pre + CellsValues(cs) + more, row, db) == Yes <==>
            exists i :: 0 <= i < |cs| && InCell(row(column), row(KeyColumn(column)), cs[i])
    decreases |cs|
  {
    hide CellCond, CellValues, InCell, KeyColumn;
    if cs != [] {
      var c, rest := cs[0], cs[1..];
      var values := pre + CellsValues(cs) + more;
      CellMeaning(pre, column, c, CellsValues(rest) + more, row, db);
      CellsMeaning(pre + CellValues(c), column, rest, more, row, db);
      assert values == pre + CellValues(c) + (CellsValues(rest) + more);
      assert values == (pre + CellValues(c)) + CellsValues(rest) + more;
      assert CellsConds(|pre|, column, cs)[1..] == CellsConds(|pre + CellValues(c)|, column, rest);
      if exists i :: 0 <= i < |cs| && InCell(row(column), row(KeyColumn(column)), cs[i]) {
        var i :| 0 <= i < |cs| && InCell(row(column), row(KeyColumn(column)), cs[i]);
        assert i > 0 ==> rest[i - 1] == cs[i];
      }
      if exists i :: 0 <= i < |rest| && InCell(row(column), row(KeyColumn(column)), rest[i]) {
        var i :| 0 <= i < |rest| && InCell(row(column), row(KeyColumn(column)), rest[i]);
        assert cs[i + 1] == rest[i];
      }
    }
  }

  /** SQL's connectives: a conjunction is as true as its least true part, a disjunction as its most true one. */
  lemma TruthTables(a: Truth, b: Truth)
    ensures var rank := (t: Truth) => match t case No => 0 case Unknown => 1 case Yes => 2;
            && rank(Both(a, b)) == (if rank(a) <= rank(b) then rank(a) else rank(b))
            && rank(Either(a, b)) == (if rank(a) >= rank(b) then rank(a) else rank(b))
  {
  }

  /** The condition on a workspace column holds of a row exactly when the range holds its workspace and key. */
  lemma ScopeMeaning(pre: seq<Value>, column: string, r: RawRange, more: seq<Value>, row: Row, db: Database)
    requires Compile(|pre|, Some(column), r).Ok?
    ensures var (cond, added) := Compile(|pre|, Some(column), r).value;
            Eval(cond, pre + added + more, row, db) == Yes <==> InScope(row(column), row(KeyColumn(column)), r)
  {
    hide IsColumn, IsWorkspaceColumn, KeyColumn, InCell, CellList;
    if !r.AllTrue? && CellList(r).Some? {
      CellsMeaning(pre, column, CellList(r).value, more, row, db);
    }
  }

  /** A table without a workspace column is readable only under the whole range. */
  lemma NoColumnMeaning(pre: seq<Value>, r: RawRange, more: seq<Value>, row: Row, db: Database)
    ensures Compile(|pre|, None, r).Ok?
    ensures var (cond, added) := Compile(|pre|, None, r).value;
            added == [] && (Eval(cond, pre + more, row, db) == Yes <==> r.AllTrue?)
  {
  }

  /** The value added at position `i` is bound by the placeholder written at position `i`, and by no other. */
  function Numbered(n: nat, k: nat): seq<nat> {
    seq(k, i => n + 1 + i)
  }

  lemma CellPlaceholders(n: nat, column: string, c: Cell)
    ensures Placeholders(CellCond(n, column, c)) == Numbered(n, |CellValues(c)|)
  {
    if c.keyIds != Some([]) {
      var row, db, key := (_: string) => None, Database(map[], "", ""), KeyColumn(column);
      CellShape(n, column, c);
      hide KeyColumn, CellCond;
      AndOne(Equals(column, n + 1), [], row, db);
      AndOne(EqualsAny(key, n + 1), [], row, db);
      AndTwo(Equals(column, n + 1), EqualsAny(key, n + 2), [], row, db);
    }
  }

  lemma {:induction false} CellsPlaceholders(n: nat, column: string, cs: seq<Cell>)
    ensures AllPlaceholders(CellsConds(n, column, cs)) == Numbered(n, |CellsValues(cs)|)
    decreases |cs|
  {
    hide CellCond, CellValues;
    if cs != [] {
      var k := |CellValues(cs[0])|;
      CellPlaceholders(n, column, cs[0]);
      CellsPlaceholders(n + k, column, cs[1..]);
      assert CellsConds(n, column, cs)[1..] == CellsConds(n + k, column, cs[1..]);
    }
  }

  /** Each added value is used by exactly one placeholder, and nothing bound before is used. */
  lemma EachValueUsedOnce(n: nat, column: Option<string>, r: RawRange)
    requires Compile(n, column, r).Ok?
    ensures var (cond, added) := Compile(n, column, r).value; Placeholders(cond) == Numbered(n, |added|)
  {
    hide IsColumn, IsWorkspaceColumn, CellList;
    if !r.AllTrue? && column.Some? && CellList(r).Some? {
      CellsPlaceholders(n, column.value, CellList(r).value);
    }
  }

  lemma LinkValuesUsedOnce(n: nat, alias: string, r: RawRange)
    requires CompileLink(n, alias, r).Ok?
    ensures var (cond, added) := CompileLink(n, alias, r).value; Placeholders(cond) == Numbered(n, |added|)
  {
    hide IsIdentifier, CellList, CellsConds, CellsValues;
    if !r.AllTrue? && CellList(r).Some? {
      var cs := CellList(r).value;
      CellsPlaceholders(n, "sa.workspace", cs);
      CellsPlaceholders(n + |CellsValues(cs)|, "sb.workspace", cs);
    }
  }

  lemma AliasedColumn(alias: string, row: Row, column: string, full: string)
    requires full == alias + "." + column
    ensures Aliased(alias, row)(full) == row(column)
  {
    assert full[|alias| + 1..] == column;
    assert alias + "." <= full;
  }

  /** Both ends of the link are stored fragments inside the range. */
  ghost predicate EndsInScope(db: Database, r: RawRange) {
    && db.fromId in db.fragments && db.toId in db.fragments
    && InScope(db.fragments[db.fromId]("workspace"), db.fragments[db.fromId]("key_id"), r)
    && InScope(db.fragments[db.toId]("workspace"), db.fragments[db.toId]("key_id"), r)
  }

  lemma EndMeaning(alias: string, column: string, pre: seq<Value>, cs: seq<Cell>, more: seq<Value>, end: Row,
                   db: Database)
    requires column == alias + ".workspace" && KeyColumn(column) == alias + ".key_id"
    ensures Eval(Or(CellsConds(|pre|, column, cs)), pre + CellsValues(cs) + more, Aliased(alias, end), db) == Yes
            <==> exists i :: 0 <= i < |cs| && InCell(end("workspace"), end("key_id"), cs[i])
  {
    hide InCell, KeyColumn, Aliased, CellsConds, CellsValues;
    CellsMeaning(pre, column, cs, more, Aliased(alias, end), db);
    AliasedColumn(alias, end, "workspace", column);
    AliasedColumn(alias, end, "key_id", KeyColumn(column));
  }

  lemma EndsMeaning(pre: seq<Value>, cs: seq<Cell>, more: seq<Value>, end: Row, db: Database)
    ensures var v := CellsValues(cs); var values := pre + (v + v) + more;
            var inside := exists i :: 0 <= i < |cs| && InCell(end("workspace"), end("key_id"), cs[i]);
            && (Eval(Or(CellsConds(|pre|, "sa.workspace", cs)), values, Aliased("sa", end), db) == Yes <==> inside)
            && (Eval(Or(CellsConds(|pre| + |v|, "sb.workspace", cs)), values, Aliased("sb", end), db) == Yes <==>
                inside)
  {
    hide *;
    var v := CellsValues(cs);
    EndColumns();
    EndMeaning("sa", "sa.workspace", pre, cs, v + more, end, db);
    EndMeaning("sb", "sb.workspace", pre + v, cs, more, end, db);
    assert pre + (v + v) + more == pre + v + (v + more) == (pre + v) + v + more;
  }

  /** The condition on a link holds exactly when the range is everything or both its ends are inside. */
  lemma LinkMeaning(pre: seq<Value>, alias: string, r: RawRange, more: seq<Value>, row: Row, db: Database)
    requires CompileLink(|pre|, alias, r).Ok?
    ensures var (cond, added) := CompileLink(|pre|, alias, r).value;
            Eval(cond, pre + added + more, row, db) == Yes <==> r.AllTrue? || EndsInScope(db, r)
  {
    hide IsIdentifier, InCell, CellList, CellsConds, CellsValues, Aliased;
    if !r.AllTrue? && CellList(r).Some? && db.fromId in db.fragments && db.toId in db.fragments {
      var cs := CellList(r).value;
      EndsMeaning(pre, cs, more, db.fragments[db.fromId], db);
      EndsMeaning(pre, cs, more, db.fragments[db.toId], db);
    }
  }
}
