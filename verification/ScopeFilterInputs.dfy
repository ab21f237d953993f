/** Which calls of the scope filter are errors, and what ranges and columns as they arrive stand for. */
module ScopeFilterInputs {
  import opened Options
  import opened ScopeFilter

  /* ---------- Names ---------- */

  /** A lower-case letter or an underscore, and further ones or digits. */
  predicate IsName(s: string) {
    |s| > 0 && IsNameStart(s[0]) && forall i :: 0 <= i < |s| ==> IsNamePart(s[i])
  }

  predicate IsNameStart(c: char) {
    97 <= c as int < 123 || c as int == 95
  }

  predicate IsNamePart(c: char) {
    IsNameStart(c) || 48 <= c as int < 58
  }

  ghost predicate IsDotted(s: string, alias: string, name: string) {
    s == alias + "." + name && IsName(alias) && IsName(name)
  }

  lemma NameMeaning(s: string)
    ensures IsIdentifier(s) <==> IsName(s)
  {
  }

  /** A column is a name, or an alias, a dot and a name. */
  lemma ColumnMeaning(s: string)
    ensures IsColumn(s) <==> IsName(s) || exists alias, name :: IsDotted(s, alias, name)
  {
    NameMeaning(s);
    hide IsName, IsIdentifier;
    forall k: nat | k < |s|
      ensures s[k] == '.' && IsIdentifier(s[..k]) && IsIdentifier(s[k + 1..]) ==> IsDotted(s, s[..k], s[k + 1..])
    {
      NameMeaning(s[..k]);
      NameMeaning(s[k + 1..]);
      assert s[k] == '.' ==> s == s[..k] + "." + s[k + 1..];
    }
    if alias, name :| IsDotted(s, alias, name) {
      NameMeaning(alias);
      NameMeaning(name);
      assert s[|alias|] == '.' && s[..|alias|] == alias && s[|alias| + 1..] == name;
    }
  }

  ghost predicate IsOf(s: string, alias: string) {
    s == alias + ".workspace"
  }

  /** A workspace column is `workspace`, or that of an alias. */
  lemma WorkspaceColumnMeaning(s: string)
    ensures IsWorkspaceColumn(s) <==> s == "workspace" || exists alias :: IsOf(s, alias)
  {
    var n := |".workspace"|;
    if |s| >= n {
      assert s == s[..|s| - n] + s[|s| - n..];
      assert s[|s| - n..] == ".workspace" ==> IsOf(s, s[..|s| - n]);
    }
    if alias :| IsOf(s, alias) {
      assert s[|s| - n..] == ".workspace";
    }
  }

  /** The key column stands beside the workspace column, under the same alias. */
  lemma KeyColumnMeaning(prefix: string)
    ensures KeyColumn(prefix + "workspace") == prefix + "key_id"
  {
    var s := prefix + "workspace";
    assert s[|s| - |"workspace"|..] == "workspace" && s[..|s| - |"workspace"|] == prefix;
  }

  /* ---------- Ranges ---------- */

  /** A workspace that is null, or not empty. */
  predicate TextFits(t: RawText) {
    match t
    case NullText => true
    case GivenText(text) => |text| > 0
    case NotText => false
  }

  predicate KeysFit(k: RawKeys) {
    match k
    case NullKeys => true
    case KeyArray(keys) => None !in keys
    case NotKeys => false
  }

  predicate CellFits(c: RawCell) {
    match c
    case NoCell => false
    case RawCell(workspace, keyIds) => TextFits(workspace) && KeysFit(keyIds)
  }

  /** The cells of the range are well-formed, and there are some; a list of workspaces stands in for absent cells. */
  ghost predicate RangeFits(r: RawRange) {
    match r
    case AllFalse(Some(cells), _) => cells != [] && forall c :: c in cells ==> CellFits(c)
    case AllFalse(None, Some(workspaces)) => workspaces != [] && forall t :: t in workspaces ==> TextFits(t)
    case _ => false
  }

  predicate TextAdmits(t: RawText, workspace: Option<string>) {
    t == NullText || (t.GivenText? && workspace == Some(t.text))
  }

  predicate CellAdmits(c: RawCell, workspace: Option<string>, keyId: Option<string>) {
    && c.RawCell? && TextAdmits(c.workspace, workspace)
    && (c.keyIds == NullKeys || (c.keyIds.KeyArray? && keyId != None && keyId in c.keyIds.keys))
  }

  /** What the range admits: everything, what one of its well-formed cells or workspaces admits, or nothing. */
  ghost predicate Admits(r: RawRange, workspace: Option<string>, keyId: Option<string>) {
    match r
    case AllTrue => true
    case NoRange => false
    case AllFalse(Some(cells), _) => RangeFits(r) && exists c :: c in cells && CellAdmits(c, workspace, keyId)
    case AllFalse(None, Some(workspaces)) => RangeFits(r) && exists t :: t in workspaces && TextAdmits(t, workspace)
    case AllFalse(None, None) => false
  }

  lemma CellMeaning(c: RawCell, workspace: Option<string>, keyId: Option<string>)
    ensures ValidCell(c) <==> CellFits(c)
    ensures ValidCell(c) ==> (InCell(workspace, keyId, ToCell(c)) <==> CellAdmits(c, workspace, keyId))
  {
    if c.RawCell? && c.keyIds.KeyArray? {
      KeysMeaning(c.keyIds.keys);
      if ValidCell(c) {
        var keys := ToCell(c).keyIds.value;
        forall key
          ensures key in keys <==> Some(key) in c.keyIds.keys
        {
          if Some(key) in c.keyIds.keys {
            var i :| 0 <= i < |c.keyIds.keys| && c.keyIds.keys[i] == Some(key);
            assert keys[i] == key;
          }
        }
      }
    }
  }

  lemma KeysMeaning(keys: seq<Option<string>>)
    ensures None !in keys <==> forall i :: 0 <= i < |keys| ==> keys[i].Some?
  {
  }

  lemma ListMeaning(r: RawRange, raw: seq<RawCell>, workspace: Option<string>, keyId: Option<string>)
    requires RawCells(r) == Some(raw)
    ensures CellList(r).Some? <==> raw != [] && forall c :: c in raw ==> CellFits(c)
    ensures CellList(r).Some? ==>
              ((exists i :: 0 <= i < |CellList(r).value| && InCell(workspace, keyId, CellList(r).value[i]))
               <==> exists c :: c in raw && CellAdmits(c, workspace, keyId))
  {
    forall i | 0 <= i < |raw|
      ensures ValidCell(raw[i]) <==> CellFits(raw[i])
      ensures ValidCell(raw[i]) ==> (InCell(workspace, keyId, ToCell(raw[i])) <==> CellAdmits(raw[i], workspace, keyId))
    {
      CellMeaning(raw[i], workspace, keyId);
    }
    hide ValidCell, CellFits, InCell, CellAdmits, ToCell;
    if CellList(r).Some? {
      var cells := CellList(r).value;
      assert forall i :: 0 <= i < |raw| ==> cells[i] == ToCell(raw[i]);
      if c :| c in raw && CellAdmits(c, workspace, keyId) {
        var i :| 0 <= i < |raw| && raw[i] == c;
        assert InCell(workspace, keyId, cells[i]);
      }
    }
  }

  /** The meaning of a range for a row, told from the range as it arrives. */
  lemma RangeMeaning(r: RawRange, workspace: Option<string>, keyId: Option<string>)
    ensures CellList(r).Some? <==> RangeFits(r)
    ensures InScope(workspace, keyId, r) <==> Admits(r, workspace, keyId)
  {
    hide CellList;
    if RawCells(r).Some? {
      var raw := RawCells(r).value;
      ListMeaning(r, raw, workspace, keyId);
      if r.cells == None {
        WorkspacesMeaning(r.workspaces.value, raw, workspace, keyId);
      }
      hide CellAdmits, CellFits, TextAdmits, TextFits;
    } else {
      assert CellList(r).None? by {
        NoCells(r);
      }
    }
  }

  lemma NoCells(r: RawRange)
    requires RawCells(r).None?
    ensures CellList(r).None?
  {
  }

  lemma WorkspacesMeaning(ws: seq<RawText>, raw: seq<RawCell>, workspace: Option<string>, keyId: Option<string>)
    requires |raw| == |ws| && forall i :: 0 <= i < |ws| ==> raw[i] == RawCell(ws[i], NullKeys)
    ensures (forall c :: c in raw ==> CellFits(c)) <==> forall t :: t in ws ==> TextFits(t)
    ensures (exists c :: c in raw && CellAdmits(c, workspace, keyId)) <==>
            exists t :: t in ws && TextAdmits(t, workspace)
  {
    if t :| t in ws && TextAdmits(t, workspace) {
      var i :| 0 <= i < |ws| && ws[i] == t;
      assert raw[i] in raw && CellAdmits(raw[i], workspace, keyId);
    }
    if c :| c in raw && CellAdmits(c, workspace, keyId) {
      var i :| 0 <= i < |raw| && raw[i] == c;
      assert ws[i] in ws;
    }
    if forall c :: c in raw ==> CellFits(c) {
      forall t | t in ws
        ensures TextFits(t)
      {
        var i :| 0 <= i < |ws| && ws[i] == t;
        assert raw[i] in raw;
      }
    }
  }

  /* ---------- Errors ---------- */

  /**
    * A call is an error exactly for a malformed column, or for one that is no workspace column where cells are to be
    * compared; a malformed or empty range is none, and admits nothing.
    */
  lemma CompileIff(n: nat, column: Option<string>, r: RawRange)
    ensures var malformed := column != None && !(IsName(column.value)
                                                 || exists alias, name :: IsDotted(column.value, alias, name));
            var elsewhere := column != None
                && !(column.value == "workspace" || exists alias :: IsOf(column.value, alias));
            var result := Compile(n, column, r);
            && (result == Err(BadColumn) <==> malformed)
            && (result == Err(NotAWorkspaceColumn) <==> !malformed && elsewhere && RangeFits(r))
            && (result.Ok? && (column == None || !RangeFits(r)) ==> result.value == (Const(r == AllTrue), []))
  {
    hide IsColumn, IsWorkspaceColumn, CellList, RangeFits, IsName, IsDotted, IsOf;
    RangeMeaning(r, None, None);
    if column.Some? {
      ColumnMeaning(column.value);
      WorkspaceColumnMeaning(column.value);
    }
    assert r == AllTrue ==> !RangeFits(r) by {
      AllIsNoList(r);
    }
  }

  lemma AllIsNoList(r: RawRange)
    ensures r == AllTrue ==> !RangeFits(r)
  {
  }

  /** A link's alias must be a name. */
  lemma LinkErrorIff(n: nat, alias: string, r: RawRange)
    ensures CompileLink(n, alias, r).Err? <==> !IsName(alias)
  {
    NameMeaning(alias);
    hide IsName, IsIdentifier;
  }
}
