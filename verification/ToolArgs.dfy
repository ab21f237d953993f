/** The argument checker of `lib/jsonrpc.js`: a call's arguments against the tool's input schema. */
module ToolArgs {
  import opened Options

  datatype Json =
    | Undefined
    | Null
    | Bool(flag: bool)
    | Num(number: real)
    | Str(text: string)
    | Arr(elements: seq<Json>)
    | Obj(entries: seq<Entry>)

  /** One own property, in enumeration order. */
  datatype Entry = Entry(key: string, value: Json)

  datatype Schema = Schema(
    types: Option<seq<string>>,
    oneOf: Forms,
    allowed: Option<seq<Json>>,
    minimum: Option<real>,
    maximum: Option<real>,
    maxLength: Option<int>,
    pattern: Option<string>,
    maxItems: Option<int>,
    elements: Option<Schema>,
    properties: Fields)

  datatype Forms = AnyForm | Forms(list: seq<Schema>)

  datatype Fields = AnyFields | Fields(list: seq<Property>)

  datatype Property = Property(name: string, schema: Schema)

  /** Whether a text matches a pattern. */
  type Matcher = (string, string) -> bool

  datatype Step = Field(name: string) | Index(i: nat)

  type Path = seq<Step>

  /** What an error message says. */
  datatype Problem =
    | WrongType(path: Path, expected: seq<string>, got: string)
    | NoForm(path: Path, got: string, detail: seq<Problem>)
    | NotAllowed(path: Path)
    | BelowMinimum(path: Path, minimum: real)
    | AboveMaximum(path: Path, maximum: real)
    | TooLong(path: Path, length: int, maxLength: int)
    | NoMatch(path: Path)
    | TooMany(path: Path, count: int, maxItems: int)
    | UnknownField(path: Path)
    | Missing(path: Path)

  const ONE_OF_DETAIL_MAX := 3

  function TypeOf(v: Json): string {
    match v
    case Undefined => "undefined"
    case Null => "object"
    case Bool(_) => "boolean"
    case Num(_) => "number"
    case Str(_) => "string"
    case Arr(_) => "object"
    case Obj(_) => "object"
  }

  /** `_jsonType`. */
  function JsonType(v: Json): string {
    if v.Null? then "null" else if v.Arr? then "array" else TypeOf(v)
  }

  predicate HasType(t: string, v: Json) {
    if t == "array" then v.Arr?
    else if t == "object" then v.Obj?
    else if t == "integer" then v.Num? && v.number == v.number.Floor as real
    else if t == "null" then v.Null?
    else TypeOf(v) == t
  }

  /** `_typeOk`. */
  predicate TypeOk(types: seq<string>, v: Json) {
    exists t :: t in types && HasType(t, v)
  }

  /** `values.includes(v)`: an array or object of the call is never the same object as one of the schema's. */
  predicate Includes(values: seq<Json>, v: Json) {
    !v.Arr? && !v.Obj? && v in values
  }

  /** The place of `name` among the properties, or their number when it is not there. */
  function PropertyAt(properties: seq<Property>, name: string): (i: nat)
    ensures i <= |properties| && (i < |properties| ==> properties[i].name == name)
    ensures forall j :: 0 <= j < i ==> properties[j].name != name
  {
    if properties == [] || properties[0].name == name then 0 else 1 + PropertyAt(properties[1..], name)
  }

  function Take<T>(s: seq<T>, n: nat): seq<T> {
    if |s| > n then s[..n] else s
  }

  /* ---------- What the checker reports ---------- */

  function ValueProblems(test: Matcher, path: Path, s: Schema, v: Json): seq<Problem>
    decreases s, 2, 0
  {
    if v.Undefined? then []
    else if s.types.Some? && !TypeOk(s.types.value, v) then [WrongType(path, s.types.value, JsonType(v))]
    else
      FormProblems(test, path, s, v) + OwnProblems(test, path, s, v)
      + (if v.Arr? && s.elements.Some? then ElementProblems(test, path, s, v.elements, |v.elements|) else [])
      + (if v.Obj? && s.properties.Fields? then PropertyProblems(test, path, s, v.entries, |v.entries|) else [])
  }

  function FormProblems(test: Matcher, path: Path, s: Schema, v: Json): seq<Problem>
    decreases s, 1, 0
  {
    if s.oneOf.AnyForm? || exists i :: 0 <= i < |s.oneOf.list| && ValueProblems(test, path, s.oneOf.list[i], v) == []
        then []
    else [NoForm(path, JsonType(v), Take(TypedProblems(test, path, s, v, |s.oneOf.list|), ONE_OF_DETAIL_MAX))]
  }

  /** The problems of the first `n` alternatives that declare a type the value has. */
  function TypedProblems(test: Matcher, path: Path, s: Schema, v: Json, n: nat): seq<Problem>
    requires s.oneOf.Forms? && n <= |s.oneOf.list|
    decreases s, 0, n
  {
    if n == 0 then []
    else
      var alt := s.oneOf.list[n - 1];
      TypedProblems(test, path, s, v, n - 1)
      + if alt.types.Some? && TypeOk(alt.types.value, v) then ValueProblems(test, path, alt, v) else []
  }

  function OwnProblems(test: Matcher, path: Path, s: Schema, v: Json): seq<Problem> {
    RangeProblems(path, s, v) + SizeProblems(test, path, s, v)
  }

  function RangeProblems(path: Path, s: Schema, v: Json): seq<Problem> {
    (if s.allowed.Some? && !Includes(s.allowed.value, v) then [NotAllowed(path)] else [])
    + (if v.Num? && s.minimum.Some? && v.number < s.minimum.value then [BelowMinimum(path, s.minimum.value)] else [])
    + (if v.Num? && s.maximum.Some? && v.number > s.maximum.value then [AboveMaximum(path, s.maximum.value)] else [])
  }

  function SizeProblems(test: Matcher, path: Path, s: Schema, v: Json): seq<Problem> {
    (if v.Str? && s.maxLength.Some? && |v.text| > s.maxLength.value then [TooLong(path, |v.text|, s.maxLength.value)]
     else [])
    + (if v.Str? && s.pattern.Some? && !test(s.pattern.value, v.text) then [NoMatch(path)] else [])
    + (if v.Arr? && s.maxItems.Some? && |v.elements| > s.maxItems.value
       then [TooMany(path, |v.elements|, s.maxItems.value)] else [])
  }

  function ElementProblems(test: Matcher, path: Path, s: Schema, elements: seq<Json>, n: nat): seq<Problem>
    requires s.elements.Some? && n <= |elements|
    decreases s, 0, n
  {
    if n == 0 then []
    else ElementProblems(test, path, s, elements, n - 1)
         + ValueProblems(test, path + [Index(n - 1)], s.elements.value, elements[n - 1])
  }

  function PropertyProblems(test: Matcher, path: Path, s: Schema, entries: seq<Entry>, n: nat): seq<Problem>
    requires s.properties.Fields? && n <= |entries|
    decreases s, 0, n
  {
    if n == 0 then []
    else
      var entry := entries[n - 1];
      var i := PropertyAt(s.properties.list, entry.key);
      PropertyProblems(test, path, s, entries, n - 1)
      + if i < |s.properties.list|
        then ValueProblems(test, path + [Field(entry.key)], s.properties.list[i].schema, entry.value) else []
  }

  /* ---------- The checker ---------- */

  /** An error list the checker is handed and appends to. */
  class Problems {
    var list: seq<Problem>

    constructor ()
      ensures list == []
    {
      list := [];
    }

    method Push(p: Problem)
      modifies this
      ensures list == old(list) + [p]
    {
      list := list + [p];
    }
  }

  /** `_checkValue`, for a property that has a schema. */
  method CheckValue(test: Matcher, path: Path, prop: Schema, value: Json, errors: Problems)
    modifies errors
    ensures errors.list == old(errors.list) + ValueProblems(test, path, prop, value)
    decreases prop, 2, 0
  {
    hide FormProblems, RangeProblems, SizeProblems, ElementProblems, PropertyProblems, TypeOk, JsonType;
    if value.Undefined? {
      return;
    }
    if prop.types.Some? && !TypeOk(prop.types.value, value) {
      errors.Push(WrongType(path, prop.types.value, JsonType(value)));
      return;
    }
    CheckOneOf(test, path, prop, value, errors);
    CheckRange(path, prop, value, errors);
    CheckSize(test, path, prop, value, errors);
    if value.Arr? && prop.elements.Some? {
      CheckElements(test, path, prop, value.elements, errors);
    }
    if value.Obj? && prop.properties.Fields? {
      CheckProperties(test, path, prop, value.entries, errors);
    }
  }

  /** `_checkOneOf`; does nothing where the schema has no alternatives. */
  method CheckOneOf(test: Matcher, path: Path, prop: Schema, value: Json, errors: Problems)
    modifies errors
    ensures errors.list == old(errors.list) + FormProblems(test, path, prop, value)
    decreases prop, 1, 0
  {
    hide ValueProblems, TypeOk, JsonType, Take;
    if prop.oneOf.AnyForm? {
      return;
    }
    var alternatives := prop.oneOf.list;
    var typedErrors := [];
    for i := 0 to |alternatives|
      invariant errors.list == old(errors.list)
      invariant forall j :: 0 <= j < i ==> ValueProblems(test, path, alternatives[j], value) != []
      invariant typedErrors == TypedProblems(test, path, prop, value, i)
    {
      var alt := alternatives[i];
      var altErrors := new Problems();
      CheckValue(test, path, alt, value, altErrors);
      if |altErrors.list| > 0 && alt.types.Some? && TypeOk(alt.types.value, value) {
        typedErrors := typedErrors + altErrors.list;
      }
      if |altErrors.list| == 0 {
        return;
      }
    }
    var detail := Take(typedErrors, ONE_OF_DETAIL_MAX);
    errors.Push(NoForm(path, JsonType(value), detail));
  }

  /** The limits on the value itself: which values, and numbers of which range, are allowed. */
  method CheckRange(path: Path, prop: Schema, value: Json, errors: Problems)
    modifies errors
    ensures errors.list == old(errors.list) + RangeProblems(path, prop, value)
  {
    hide Includes;
    if prop.allowed.Some? && !Includes(prop.allowed.value, value) {
      errors.Push(NotAllowed(path));
    }
    if value.Num? && prop.minimum.Some? && value.number < prop.minimum.value {
      errors.Push(BelowMinimum(path, prop.minimum.value));
    }
    if value.Num? && prop.maximum.Some? && value.number > prop.maximum.value {
      errors.Push(AboveMaximum(path, prop.maximum.value));
    }
  }

  /** The limits on texts and on the number of elements. */
  method CheckSize(test: Matcher, path: Path, prop: Schema, value: Json, errors: Problems)
    modifies errors
    ensures errors.list == old(errors.list) + SizeProblems(test, path, prop, value)
  {
    if value.Str? && prop.maxLength.Some? && |value.text| > prop.maxLength.value {
      errors.Push(TooLong(path, |value.text|, prop.maxLength.value));
    }
    if value.Str? && prop.pattern.Some? && !test(prop.pattern.value, value.text) {
      errors.Push(NoMatch(path));
    }
    if value.Arr? && prop.maxItems.Some? && |value.elements| > prop.maxItems.value {
      errors.Push(TooMany(path, |value.elements|, prop.maxItems.value));
    }
  }

  method CheckElements(test: Matcher, path: Path, prop: Schema, elements: seq<Json>, errors: Problems)
    requires prop.elements.Some?
    modifies errors
    ensures errors.list == old(errors.list) + ElementProblems(test, path, prop, elements, |elements|)
    decreases prop, 1, 0
  {
    hide ValueProblems;
    for i := 0 to |elements|
      invariant errors.list == old(errors.list) + ElementProblems(test, path, prop, elements, i)
    {
      CheckValue(test, path + [Index(i)], prop.elements.value, elements[i], errors);
    }
  }

  method CheckProperties(test: Matcher, path: Path, prop: Schema, entries: seq<Entry>, errors: Problems)
    requires prop.properties.Fields?
    modifies errors
    ensures errors.list == old(errors.list) + PropertyProblems(test, path, prop, entries, |entries|)
    decreases prop, 1, 0
  {
    hide ValueProblems;
    for i := 0 to |entries|
      invariant errors.list == old(errors.list) + PropertyProblems(test, path, prop, entries, i)
    {
      var k := PropertyAt(prop.properties.list, entries[i].key);
      if k < |prop.properties.list| {
        CheckValue(test, path + [Field(entries[i].key)], prop.properties.list[k].schema, entries[i].value, errors);
      }
    }
  }

  /* ---------- A whole call ---------- */

  datatype ToolSchema = ToolSchema(properties: Fields, required: seq<string>)

  datatype Mode = Off | Warn | Enforce

  datatype Outcome = Accepted | Warned(problems: seq<Problem>) | Rejected(problems: seq<Problem>)

  /** The environment of a check: names every object inherits, the unknown-field switch, the pattern test. */
  datatype Setting = Setting(inherited: set<string>, allowUnknown: bool, test: Matcher)

  /** `args[name]`. */
  function Get(args: seq<Entry>, name: string): Option<Json> {
    if args == [] then None
    else if args[0].key == name then Some(args[0].value)
    else Get(args[1..], name)
  }

  predicate IsMissing(g: Setting, args: seq<Entry>, name: string) {
    match Get(args, name)
    case Some(value) => value.Undefined?
    case None => name !in g.inherited
  }

  function FieldProblems(g: Setting, properties: seq<Property>, e: Entry): seq<Problem> {
    var i := PropertyAt(properties, e.key);
    if e.key != "" && e.key[0] == '_' then []
    else if i < |properties| then ValueProblems(g.test, [Field(e.key)], properties[i].schema, e.value)
    else if e.key in g.inherited || g.allowUnknown then []
    else [UnknownField([Field(e.key)])]
  }

  function AllFieldProblems(g: Setting, properties: seq<Property>, args: seq<Entry>): seq<Problem> {
    if args == [] then []
    else AllFieldProblems(g, properties, args[..|args| - 1]) + FieldProblems(g, properties, args[|args| - 1])
  }

  function MissingProblems(g: Setting, required: seq<string>, args: seq<Entry>): seq<Problem> {
    if required == [] then []
    else
      var name := required[|required| - 1];
      MissingProblems(g, required[..|required| - 1], args) + if IsMissing(g, args, name) then [Missing([Field(name)])]
          else []
  }

  function Verdict(g: Setting, schema: Option<ToolSchema>, args: seq<Entry>, mode: Mode): Outcome {
    if schema.None? || schema.value.properties.AnyFields? then Accepted
    else
      var problems := AllFieldProblems(g, schema.value.properties.list, args)
          + MissingProblems(g, schema.value.required, args);
      if problems == [] || mode.Off? then Accepted
      else if mode.Warn? then Warned(problems) else Rejected(problems)
  }

  /** `validateToolArgs`. */
  method ValidateToolArgs(g: Setting, schema: Option<ToolSchema>, args: seq<Entry>, mode: Mode)
      returns (outcome: Outcome)
    ensures outcome == Verdict(g, schema, args, mode)
  {
    hide ValueProblems, IsMissing;
    if schema.None? || schema.value.properties.AnyFields? {
      return Accepted;
    }
    var properties := schema.value.properties.list;
    var errors := new Problems();
    for i := 0 to |args|
      invariant fresh(errors) && errors.list == AllFieldProblems(g, properties, args[..i])
    {
      var key, value := args[i].key, args[i].value;
      assert args[..i + 1][..i] == args[..i];
      if key != "" && key[0] == '_' {
        continue;
      }
      var k := PropertyAt(properties, key);
      if k < |properties| {
        CheckValue(g.test, [Field(key)], properties[k].schema, value, errors);
      } else if key !in g.inherited {
        if !g.allowUnknown {
          errors.Push(UnknownField([Field(key)]));
        }
      }
    }
    assert args[..|args|] == args;
    var required := schema.value.required;
    ghost var found := errors.list;
    for i := 0 to |required|
      invariant fresh(errors) && errors.list == found + MissingProblems(g, required[..i], args)
    {
      assert required[..i + 1][..i] == required[..i];
      if IsMissing(g, args, required[i]) {
        errors.Push(Missing([Field(required[i])]));
      }
    }
    assert required[..|required|] == required;
    if |errors.list| == 0 || mode.Off? {
      return Accepted;
    }
    if mode.Warn? {
      return Warned(errors.list);
    }
    return Rejected(errors.list);
  }
}
