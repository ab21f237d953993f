/**
  * The argument checker reports nothing exactly for conforming values, and enforcement rejects exactly the faulty
  * calls.
  */
module ToolArgsLaws {
  import opened Options
  import opened ToolArgs

  function Whole(k: int): real {
    k as real
  }

  /** A value is of the types its kind has; a number is an integer besides if it is a whole one. */
  ghost predicate IsOfType(t: string, v: Json) {
    match v
    case Undefined => t == "undefined"
    case Null => t == "null"
    case Bool(_) => t == "boolean"
    case Num(x) => t == "number" || (t == "integer" && exists k :: Whole(k) == x)
    case Str(_) => t == "string"
    case Arr(_) => t == "array"
    case Obj(_) => t == "object"
  }

  ghost predicate OfSomeType(types: seq<string>, v: Json) {
    exists t :: t in types && IsOfType(t, v)
  }

  lemma TypeMeaning(t: string, v: Json)
    ensures HasType(t, v) <==> IsOfType(t, v)
  {
    assert v.Num? && v.number == v.number.Floor as real ==> Whole(v.number.Floor) == v.number;
  }

  /** The type test passes exactly for a value of one of the types. */
  lemma TypesMeaning(types: seq<string>, v: Json)
    ensures TypeOk(types, v) <==> OfSomeType(types, v)
  {
    hide HasType, IsOfType;
    forall t | t in types
      ensures HasType(t, v) <==> IsOfType(t, v)
    {
      TypeMeaning(t, v);
    }
  }

  /** What a schema asks of a value. */
  ghost predicate Conforms(test: Matcher, s: Schema, v: Json)
    decreases s
  {
    v.Undefined? ||
    (&& (s.types.Some? ==> OfSomeType(s.types.value, v))
     && (s.oneOf.Forms? ==> exists i :: 0 <= i < |s.oneOf.list| && Conforms(test, s.oneOf.list[i], v))
     && WithinLimits(test, s, v)
     && (v.Arr? && s.elements.Some? ==> forall i :: 0 <= i < |v.elements| ==>
         Conforms(test, s.elements.value, v.elements[i]))
     && (v.Obj? && s.properties.Fields? ==>
           forall i, k :: 0 <= i < |v.entries| && 0 <= k < |s.properties.list|
                          && k == PropertyAt(s.properties.list, v.entries[i].key) ==>
             Conforms(test, s.properties.list[k].schema, v.entries[i].value)))
  }

  ghost predicate WithinLimits(test: Matcher, s: Schema, v: Json) {
    && (s.allowed.Some? ==> v in s.allowed.value && !v.Arr? && !v.Obj?)
    && (v.Num? && s.minimum.Some? ==> s.minimum.value <= v.number)
    && (v.Num? && s.maximum.Some? ==> v.number <= s.maximum.value)
    && (v.Str? && s.maxLength.Some? ==> |v.text| <= s.maxLength.value)
    && (v.Str? && s.pattern.Some? ==> test(s.pattern.value, v.text))
    && (v.Arr? && s.maxItems.Some? ==> |v.elements| <= s.maxItems.value)
  }

  /** The checker reports nothing exactly when the value conforms, wherever in the arguments it stands. */
  lemma {:induction false} SilentIffConforms(test: Matcher, path: Path, s: Schema, v: Json)
    ensures ValueProblems(test, path, s, v) == [] <==> Conforms(test, s, v)
    decreases s, 1
  {
    hide TypeOk, OfSomeType, FormProblems, ElementProblems, PropertyProblems, OwnProblems, WithinLimits;
    if s.types.Some? {
      TypesMeaning(s.types.value, v);
    }
    if !v.Undefined? && (s.types.Some? ==> TypeOk(s.types.value, v)) {
      LimitsIff(test, path, s, v);
      FormsIff(test, path, s, v);
      if v.Arr? && s.elements.Some? {
        ElementsIff(test, path, s, v.elements, |v.elements|);
      }
      if v.Obj? && s.properties.Fields? {
        PropertiesIff(test, path, s, v.entries, |v.entries|);
      }
    }
  }

  lemma LimitsIff(test: Matcher, path: Path, s: Schema, v: Json)
    ensures OwnProblems(test, path, s, v) == [] <==> WithinLimits(test, s, v)
  {
  }

  lemma {:induction false} FormsIff(test: Matcher, path: Path, s: Schema, v: Json)
    ensures FormProblems(test, path, s, v) == [] <==>
            (s.oneOf.Forms? ==> exists i :: 0 <= i < |s.oneOf.list| && Conforms(test, s.oneOf.list[i], v))
    decreases s, 0
  {
    hide ValueProblems, Conforms;
    if s.oneOf.Forms? {
      forall i | 0 <= i < |s.oneOf.list|
        ensures ValueProblems(test, path, s.oneOf.list[i], v) == [] <==> Conforms(test, s.oneOf.list[i], v)
      {
        SilentIffConforms(test, path, s.oneOf.list[i], v);
      }
    }
  }

  lemma {:induction false} ElementsIff(test: Matcher, path: Path, s: Schema, elements: seq<Json>, n: nat)
    requires s.elements.Some? && n <= |elements|
    ensures ElementProblems(test, path, s, elements, n) == [] <==>
            forall i :: 0 <= i < n ==> Conforms(test, s.elements.value, elements[i])
    decreases s, 0, n
  {
    hide ValueProblems, Conforms;
    if n > 0 {
      ElementsIff(test, path, s, elements, n - 1);
      SilentIffConforms(test, path + [Index(n - 1)], s.elements.value, elements[n - 1]);
    }
  }

  lemma {:induction false} PropertiesIff(test: Matcher, path: Path, s: Schema, entries: seq<Entry>, n: nat)
    requires s.properties.Fields? && n <= |entries|
    ensures PropertyProblems(test, path, s, entries, n) == [] <==>
            forall i, k :: 0 <= i < n && 0 <= k < |s.properties.list|
                           && k == PropertyAt(s.properties.list, entries[i].key) ==>
              Conforms(test, s.properties.list[k].schema, entries[i].value)
    decreases s, 0, n
  {
    hide ValueProblems, Conforms, PropertyAt;
    if n > 0 {
      PropertiesIff(test, path, s, entries, n - 1);
      var entry := entries[n - 1];
      var k := PropertyAt(s.properties.list, entry.key);
      if k < |s.properties.list| {
        SilentIffConforms(test, path + [Field(entry.key)], s.properties.list[k].schema, entry.value);
      }
    }
  }

  /* ---------- What the problems say ---------- */

  ghost function Concat<T>(lists: seq<seq<T>>): seq<T> {
    if lists == [] then [] else Concat(lists[..|lists| - 1]) + lists[|lists| - 1]
  }

  /** For each of the first `n` alternatives its problems, if it declares types and the value is of one. */
  ghost function Fitting(test: Matcher, path: Path, s: Schema, v: Json, n: nat): (r: seq<seq<Problem>>)
    requires s.oneOf.Forms? && n <= |s.oneOf.list|
    ensures |r| == n
  {
    seq(n, i requires 0 <= i < n =>
      var alt := s.oneOf.list[i];
      if alt.types.Some? && OfSomeType(alt.types.value, v) then ValueProblems(test, path, alt, v) else [])
  }

  /** The details of a failed choice are the first three problems of alternatives whose declared type the value has. */
  lemma FormDetail(test: Matcher, path: Path, s: Schema, v: Json, p: Problem)
    requires p in FormProblems(test, path, s, v) && p.NoForm?
    ensures s.oneOf.Forms?
    ensures var all := Concat(Fitting(test, path, s, v, |s.oneOf.list|));
            p.detail <= all && |p.detail| == if |all| < 3 then |all| else 3
  {
    hide ValueProblems, Concat, Fitting;
    TypedFromFitting(test, path, s, v, |s.oneOf.list|);
  }

  lemma {:induction false} TypedFromFitting(test: Matcher, path: Path, s: Schema, v: Json, n: nat)
    requires s.oneOf.Forms? && n <= |s.oneOf.list|
    ensures TypedProblems(test, path, s, v, n) == Concat(Fitting(test, path, s, v, n))
  {
    hide ValueProblems, TypeOk, OfSomeType;
    if n > 0 {
      if s.oneOf.list[n - 1].types.Some? {
        TypesMeaning(s.oneOf.list[n - 1].types.value, v);
      }
      TypedFromFitting(test, path, s, v, n - 1);
      assert Fitting(test, path, s, v, n)[..n - 1] == Fitting(test, path, s, v, n - 1);
    }
  }

  /** What a problem calls the value it was found with. */
  function KindOf(v: Json): string {
    match v
    case Undefined => "undefined"
    case Null => "null"
    case Bool(_) => "boolean"
    case Num(_) => "number"
    case Str(_) => "string"
    case Arr(_) => "array"
    case Obj(_) => "object"
  }

  /** What the problem says is so of the value and the schema for it. */
  ghost predicate Says(test: Matcher, p: Problem, s: Schema, v: Json) {
    match p
    case WrongType(_, expected, got) => s.types == Some(expected) && !OfSomeType(expected, v) && got == KindOf(v)
    case NoForm(path, got, detail) =>
      && s.oneOf.Forms? && got == KindOf(v)
      && (forall i :: 0 <= i < |s.oneOf.list| ==> !Conforms(test, s.oneOf.list[i], v))
      && var all := Concat(Fitting(test, path, s, v, |s.oneOf.list|));
         detail <= all && |detail| == if |all| < 3 then |all| else 3
    case NotAllowed(_) => s.allowed.Some? && (v !in s.allowed.value || v.Arr? || v.Obj?)
    case BelowMinimum(_, minimum) => v.Num? && s.minimum == Some(minimum) && v.number < minimum
    case AboveMaximum(_, maximum) => v.Num? && s.maximum == Some(maximum) && v.number > maximum
    case TooLong(_, length, maxLength) =>
      v.Str? && s.maxLength == Some(maxLength) && length == |v.text| && length > maxLength
    case NoMatch(_) => v.Str? && s.pattern.Some? && !test(s.pattern.value, v.text)
    case TooMany(_, count, maxItems) =>
      v.Arr? && s.maxItems == Some(maxItems) && count == |v.elements| && count > maxItems
    case UnknownField(_) => false
    case Missing(_) => false
  }

  ghost predicate TypesFit(s: Schema, v: Json) {
    s.types.Some? ==> OfSomeType(s.types.value, v)
  }

  /**
    * The way `rest` leads into the value, along values of fitting types, to a place of which the problem is true, and a
    * wrong type is the only thing said there.
    */
  ghost predicate TrueAt(test: Matcher, p: Problem, rest: Path, s: Schema, v: Json)
    decreases rest
  {
    if rest == [] then !v.Undefined? && Says(test, p, s, v) && (p.WrongType? || TypesFit(s, v))
    else if !TypesFit(s, v) then false
    else match rest[0]
    case Index(i) =>
      v.Arr? && s.elements.Some? && i < |v.elements| && TrueAt(test, p, rest[1..], s.elements.value, v.elements[i])
    case Field(name) =>
      v.Obj? && s.properties.Fields? && exists j, k ::
        0 <= j < |v.entries| && v.entries[j].key == name && IsField(s.properties.list, k, name)
        && TrueAt(test, p, rest[1..], s.properties.list[k].schema, v.entries[j].value)
  }

  ghost predicate TrueUnder(test: Matcher, path: Path, p: Problem, s: Schema, v: Json) {
    path <= p.path && TrueAt(test, p, p.path[|path|..], s, v)
  }

  lemma ElementTrue(test: Matcher, path: Path, p: Problem, s: Schema, v: Json, i: nat)
    requires v.Arr? && s.elements.Some? && i < |v.elements|
    requires TrueUnder(test, path + [Index(i)], p, s.elements.value, v.elements[i])
    requires TypesFit(s, v)
    ensures TrueUnder(test, path, p, s, v)
  {
    hide Says, TypesFit;
    var rest := p.path[|path|..];
    assert path == (path + [Index(i)])[..|path|] == p.path[..|path|];
    assert p.path[|path|] == Index(i) && rest[1..] == p.path[|path| + 1..];
  }

  lemma PropertyTrue(test: Matcher, path: Path, p: Problem, s: Schema, v: Json, j: nat, k: nat)
    requires v.Obj? && s.properties.Fields? && j < |v.entries| && IsField(s.properties.list, k, v.entries[j].key)
    requires TrueUnder(test, path + [Field(v.entries[j].key)], p, s.properties.list[k].schema, v.entries[j].value)
    requires TypesFit(s, v)
    ensures TrueUnder(test, path, p, s, v)
  {
    hide Says, IsField, TypesFit;
    var rest := p.path[|path|..];
    assert path == (path + [Field(v.entries[j].key)])[..|path|] == p.path[..|path|];
    assert p.path[|path|] == Field(v.entries[j].key) && rest[1..] == p.path[|path| + 1..];
  }

  /** What is reported is exactly what is true of the value checked, or of a place inside it. */
  lemma ReportedIffTrue(test: Matcher, path: Path, s: Schema, v: Json, p: Problem)
    ensures p in ValueProblems(test, path, s, v) <==> TrueUnder(test, path, p, s, v)
  {
    hide *;
    if p in ValueProblems(test, path, s, v) {
      ReportedIsTrue(test, path, s, v, p);
    }
    if TrueUnder(test, path, p, s, v) {
      TrueIsReported(test, path, s, v, p);
    }
  }

  lemma {:induction false} ReportedIsTrue(test: Matcher, path: Path, s: Schema, v: Json, p: Problem)
    requires p in ValueProblems(test, path, s, v)
    ensures TrueUnder(test, path, p, s, v)
    decreases s, 1
  {
    hide TypeOk, OfSomeType, ElementProblems, PropertyProblems, FormProblems, OwnProblems, TrueAt;
    if s.types.Some? {
      TypesMeaning(s.types.value, v);
    }
    if s.types.Some? && !TypeOk(s.types.value, v) {
      WrongTypeIsTrue(test, path, s, v);
    } else if p in FormProblems(test, path, s, v) {
      FormIsTrue(test, path, s, v, p);
    } else if p in OwnProblems(test, path, s, v) {
      LimitIsTrue(test, path, s, v, p);
    } else if v.Arr? {
      ElementProblemTrue(test, path, s, v, |v.elements|, p);
    } else {
      PropertyProblemTrue(test, path, s, v, |v.entries|, p);
    }
  }

  lemma WrongTypeIsTrue(test: Matcher, path: Path, s: Schema, v: Json)
    requires s.types.Some? && !TypeOk(s.types.value, v) && !v.Undefined?
    ensures TrueUnder(test, path, WrongType(path, s.types.value, JsonType(v)), s, v)
  {
    TypesMeaning(s.types.value, v);
  }

  /** Where no alternative accepts the value, and only there, that is reported, with its details. */
  lemma FormIffTrue(test: Matcher, path: Path, s: Schema, v: Json, p: Problem)
    ensures p in FormProblems(test, path, s, v) <==> p.NoForm? && p.path == path && Says(test, p, s, v)
  {
    FormsIff(test, path, s, v);
    if FormProblems(test, path, s, v) != [] {
      FormShape(test, path, s, v);
      hide ValueProblems, Conforms, FormProblems, Fitting, Concat, Take;
      if p.NoForm? && p.path == path {
        TakeMeaning(Concat(Fitting(test, path, s, v, |s.oneOf.list|)), p.detail);
      }
    }
  }

  lemma FormShape(test: Matcher, path: Path, s: Schema, v: Json)
    requires FormProblems(test, path, s, v) != []
    ensures s.oneOf.Forms?
    ensures FormProblems(test, path, s, v)
            == [NoForm(path, KindOf(v), Take(Concat(Fitting(test, path, s, v, |s.oneOf.list|)), ONE_OF_DETAIL_MAX))]
  {
    TypedFromFitting(test, path, s, v, |s.oneOf.list|);
    hide ValueProblems, TypedProblems, Fitting, Concat, Take;
  }

  lemma TakeMeaning<T>(all: seq<T>, detail: seq<T>)
    ensures detail == Take(all, ONE_OF_DETAIL_MAX)
            <==> detail <= all && |detail| == if |all| < 3 then |all| else 3
  {
  }

  lemma FormIsTrue(test: Matcher, path: Path, s: Schema, v: Json, p: Problem)
    requires p in FormProblems(test, path, s, v) && !v.Undefined? && TypesFit(s, v)
    ensures TrueUnder(test, path, p, s, v)
  {
    hide FormProblems, Says, TypesFit;
    FormIffTrue(test, path, s, v, p);
  }

  /** A limit that is exceeded, and only such a one, is reported. */
  lemma LimitIffTrue(test: Matcher, path: Path, s: Schema, v: Json, p: Problem)
    ensures p in OwnProblems(test, path, s, v)
            <==> !p.WrongType? && !p.NoForm? && p.path == path && Says(test, p, s, v)
  {
    hide RangeProblems, SizeProblems, Says;
    RangeIffTrue(test, path, s, v, p);
    SizeIffTrue(test, path, s, v, p);
  }

  lemma RangeIffTrue(test: Matcher, path: Path, s: Schema, v: Json, p: Problem)
    ensures p in RangeProblems(path, s, v)
            <==> (p.NotAllowed? || p.BelowMinimum? || p.AboveMaximum?) && p.path == path && Says(test, p, s, v)
  {
  }

  lemma SizeIffTrue(test: Matcher, path: Path, s: Schema, v: Json, p: Problem)
    ensures p in SizeProblems(test, path, s, v)
            <==> !p.WrongType? && !p.NoForm? && !p.NotAllowed? && !p.BelowMinimum? && !p.AboveMaximum?
                 && p.path == path && Says(test, p, s, v)
  {
  }

  lemma LimitIsTrue(test: Matcher, path: Path, s: Schema, v: Json, p: Problem)
    requires p in OwnProblems(test, path, s, v) && !v.Undefined? && TypesFit(s, v)
    ensures TrueUnder(test, path, p, s, v)
  {
    hide TypesFit, OwnProblems, Says;
    LimitIffTrue(test, path, s, v, p);
  }

  lemma {:induction false} ElementProblemTrue(test: Matcher, path: Path, s: Schema, v: Json, n: nat, p: Problem)
    requires v.Arr? && s.elements.Some? && n <= |v.elements| && TypesFit(s, v)
    requires p in ElementProblems(test, path, s, v.elements, n)
    ensures TrueUnder(test, path, p, s, v)
    decreases s, 0, n
  {
    hide ValueProblems, TrueUnder, TypesFit;
    if p in ElementProblems(test, path, s, v.elements, n - 1) {
      ElementProblemTrue(test, path, s, v, n - 1, p);
    } else {
      ReportedIsTrue(test, path + [Index(n - 1)], s.elements.value, v.elements[n - 1], p);
      ElementTrue(test, path, p, s, v, n - 1);
    }
  }

  lemma {:induction false} PropertyProblemTrue(test: Matcher, path: Path, s: Schema, v: Json, n: nat, p: Problem)
    requires v.Obj? && s.properties.Fields? && n <= |v.entries| && TypesFit(s, v)
    requires p in PropertyProblems(test, path, s, v.entries, n)
    ensures TrueUnder(test, path, p, s, v)
    decreases s, 0, n
  {
    hide ValueProblems, TrueUnder, TypesFit;
    if p in PropertyProblems(test, path, s, v.entries, n - 1) {
      PropertyProblemTrue(test, path, s, v, n - 1, p);
    } else {
      var entry := v.entries[n - 1];
      var k := PropertyAt(s.properties.list, entry.key);
      ReportedIsTrue(test, path + [Field(entry.key)], s.properties.list[k].schema, entry.value, p);
      PropertyTrue(test, path, p, s, v, n - 1, k);
    }
  }

  lemma {:induction false} TrueIsReported(test: Matcher, path: Path, s: Schema, v: Json, p: Problem)
    requires TrueUnder(test, path, p, s, v)
    ensures p in ValueProblems(test, path, s, v)
    decreases s
  {
    hide TypeOk, OfSomeType, ElementProblems, PropertyProblems, FormProblems, OwnProblems, Says;
    var rest := p.path[|path|..];
    assert p.path == path + rest;
    if s.types.Some? {
      TypesMeaning(s.types.value, v);
    }
    if rest == [] {
      HereIsReported(test, path, s, v, p);
    } else {
      var inner := path + [rest[0]];
      assert inner <= p.path && p.path[|inner|..] == rest[1..];
      match rest[0]
      case Index(i) =>
        TrueIsReported(test, inner, s.elements.value, v.elements[i], p);
        ElementIsReported(test, path, s, v.elements, i, |v.elements|, p);
      case Field(name) =>
        var j, k :| 0 <= j < |v.entries| && v.entries[j].key == name && IsField(s.properties.list, k, name)
          && TrueAt(test, p, rest[1..], s.properties.list[k].schema, v.entries[j].value);
        TrueIsReported(test, inner, s.properties.list[k].schema, v.entries[j].value, p);
        PropertyIsReported(test, path, s, v.entries, j, k, |v.entries|, p);
    }
  }

  lemma HereIsReported(test: Matcher, path: Path, s: Schema, v: Json, p: Problem)
    requires p.path == path && !v.Undefined? && Says(test, p, s, v) && (p.WrongType? || TypesFit(s, v))
    ensures p in ValueProblems(test, path, s, v)
  {
    hide OfSomeType, TypeOk, ElementProblems, PropertyProblems, FormProblems, OwnProblems;
    if s.types.Some? {
      TypesMeaning(s.types.value, v);
    }
    if !p.WrongType? {
      hide Says;
      LimitIffTrue(test, path, s, v, p);
      FormIffTrue(test, path, s, v, p);
    }
  }

  lemma {:induction false} ElementIsReported(test: Matcher, path: Path, s: Schema, elements: seq<Json>, i: nat, n: nat,
                                             p: Problem)
    requires s.elements.Some? && i < n <= |elements|
    requires p in ValueProblems(test, path + [Index(i)], s.elements.value, elements[i])
    ensures p in ElementProblems(test, path, s, elements, n)
  {
    hide ValueProblems;
    if i < n - 1 {
      ElementIsReported(test, path, s, elements, i, n - 1, p);
    }
  }

  lemma {:induction false} PropertyIsReported(test: Matcher, path: Path, s: Schema, entries: seq<Entry>, j: nat, k: nat,
                                              n: nat, p: Problem)
    requires s.properties.Fields? && j < n <= |entries| && IsField(s.properties.list, k, entries[j].key)
    requires p in ValueProblems(test, path + [Field(entries[j].key)], s.properties.list[k].schema, entries[j].value)
    ensures p in PropertyProblems(test, path, s, entries, n)
  {
    hide ValueProblems;
    if j < n - 1 {
      PropertyIsReported(test, path, s, entries, j, k, n - 1, p);
    } else {
      assert PropertyAt(s.properties.list, entries[j].key) == k;
    }
  }

  /* ---------- A whole call ---------- */

  /** An object's keys are distinct. */
  ghost predicate DistinctKeys(args: seq<Entry>) {
    forall i, j :: 0 <= i < j < |args| ==> args[i].key != args[j].key
  }

  predicate Injected(e: Entry) {
    e.key != "" && e.key[0] == '_'
  }

  /** The schema of the field called `name`, where there is one. */
  ghost predicate IsField(properties: seq<Property>, k: int, name: string) {
    0 <= k < |properties| && properties[k].name == name && forall j :: 0 <= j < k ==> properties[j].name != name
  }

  /** A field of the call is faulty: its value does not conform, or it is unknown where that is not allowed. */
  ghost predicate FaultyField(g: Setting, properties: seq<Property>, e: Entry) {
    && !Injected(e)
    && if exists p :: p in properties && p.name == e.key
       then exists k :: IsField(properties, k, e.key) && !Conforms(g.test, properties[k].schema, e.value)
       else !g.allowUnknown && e.key !in g.inherited
  }

  /** A required name has no value among the arguments and none that every object inherits. */
  ghost predicate Lacks(g: Setting, args: seq<Entry>, name: string) {
    && (forall e :: e in args && e.key == name ==> e.value.Undefined?)
    && (name in g.inherited ==> exists e :: e in args && e.key == name)
  }

  ghost predicate Faulty(g: Setting, properties: seq<Property>, required: seq<string>, args: seq<Entry>) {
    (exists e :: e in args && FaultyField(g, properties, e))
        || (exists name :: name in required && Lacks(g, args, name))
  }

  /** Enforcement rejects a call exactly when one of its fields is faulty or it lacks a required one. */
  lemma RejectedIffFaulty(g: Setting, schema: Option<ToolSchema>, args: seq<Entry>, mode: Mode)
    requires DistinctKeys(args)
    ensures Verdict(g, schema, args, mode).Rejected? <==>
            && mode.Enforce? && schema.Some? && schema.value.properties.Fields?
            && Faulty(g, schema.value.properties.list, schema.value.required, args)
    ensures Verdict(g, schema, args, mode).Warned? <==>
            mode.Warn? && Verdict(g, schema, args, Enforce).Rejected?
  {
    hide AllFieldProblems, MissingProblems, FaultyField, Lacks;
    if schema.Some? && schema.value.properties.Fields? {
      AllFieldsIff(g, schema.value.properties.list, args);
      MissingIff(g, schema.value.required, args);
    }
  }

  lemma {:induction false} AllFieldsIff(g: Setting, properties: seq<Property>, args: seq<Entry>)
    ensures AllFieldProblems(g, properties, args) == [] <==> forall e :: e in args ==> !FaultyField(g, properties, e)
  {
    hide FieldProblems, FaultyField;
    if args != [] {
      var n := |args| - 1;
      assert args == args[..n] + [args[n]];
      AllFieldsIff(g, properties, args[..n]);
      FieldIff(g, properties, args[n]);
    }
  }

  lemma FieldIff(g: Setting, properties: seq<Property>, e: Entry)
    ensures FieldProblems(g, properties, e) == [] <==> !FaultyField(g, properties, e)
  {
    hide ValueProblems, Conforms;
    var i := PropertyAt(properties, e.key);
    if i < |properties| {
      assert properties[i] in properties && IsField(properties, i, e.key);
      SilentIffConforms(g.test, [Field(e.key)], properties[i].schema, e.value);
    }
  }

  lemma {:induction false} GetIff(args: seq<Entry>, name: string)
    requires DistinctKeys(args)
    ensures Get(args, name).None? ==> forall e :: e in args ==> e.key != name
    ensures Get(args, name).Some? ==>
              Entry(name, Get(args, name).value) in args
              && forall e :: e in args && e.key == name ==> e.value == Get(args, name).value
  {
    if args != [] {
      assert args == [args[0]] + args[1..];
      GetIff(args[1..], name);
      if args[0].key == name {
        assert args[0] == Entry(name, args[0].value);
      }
    }
  }

  lemma {:induction false} MissingIff(g: Setting, required: seq<string>, args: seq<Entry>)
    requires DistinctKeys(args)
    ensures MissingProblems(g, required, args) == [] <==> forall name :: name in required ==> !Lacks(g, args, name)
  {
    hide IsMissing, Lacks, DistinctKeys;
    if required != [] {
      var n := |required| - 1;
      assert required == required[..n] + [required[n]];
      MissingIff(g, required[..n], args);
      MissingIffLacks(g, args, required[n]);
    }
  }

  lemma MissingIffLacks(g: Setting, args: seq<Entry>, name: string)
    requires DistinctKeys(args)
    ensures IsMissing(g, args, name) <==> Lacks(g, args, name)
  {
    hide Get, DistinctKeys;
    GetIff(args, name);
  }

  /** What is said of a field of the call: what is true of its value, or that it is unknown. */
  ghost predicate SaidOfField(g: Setting, properties: seq<Property>, e: Entry, p: Problem) {
    && !Injected(e)
    && if exists k :: IsField(properties, k, e.key)
       then exists k :: IsField(properties, k, e.key)
                        && TrueUnder(g.test, [Field(e.key)], p, properties[k].schema, e.value)
       else !g.allowUnknown && e.key !in g.inherited && p == UnknownField([Field(e.key)])
  }

  ghost predicate SaidOfMissing(g: Setting, required: seq<string>, args: seq<Entry>, p: Problem) {
    exists name :: name in required && Lacks(g, args, name) && p == Missing([Field(name)])
  }

  lemma FieldSays(g: Setting, properties: seq<Property>, e: Entry, p: Problem)
    ensures p in FieldProblems(g, properties, e) <==> SaidOfField(g, properties, e, p)
  {
    hide ValueProblems, TrueUnder;
    var i := PropertyAt(properties, e.key);
    if i < |properties| {
      assert IsField(properties, i, e.key);
      ReportedIffTrue(g.test, [Field(e.key)], properties[i].schema, e.value, p);
    }
  }

  lemma {:induction false} AllFieldsSay(g: Setting, properties: seq<Property>, args: seq<Entry>, p: Problem)
    ensures p in AllFieldProblems(g, properties, args) <==> exists e :: e in args && SaidOfField(g, properties, e, p)
  {
    hide FieldProblems, SaidOfField;
    if args != [] {
      var n := |args| - 1;
      assert args == args[..n] + [args[n]];
      AllFieldsSay(g, properties, args[..n], p);
      FieldSays(g, properties, args[n], p);
    }
  }

  lemma {:induction false} MissingSays(g: Setting, required: seq<string>, args: seq<Entry>, p: Problem)
    requires DistinctKeys(args)
    ensures p in MissingProblems(g, required, args) <==> SaidOfMissing(g, required, args, p)
  {
    hide IsMissing, Lacks, DistinctKeys;
    if required != [] {
      var n := |required| - 1;
      assert required == required[..n] + [required[n]];
      MissingSays(g, required[..n], args, p);
      MissingIffLacks(g, args, required[n]);
    }
  }

  /** A call that is rejected, or warned of, is told exactly what is wrong with its fields and what it lacks. */
  lemma VerdictSays(g: Setting, schema: Option<ToolSchema>, args: seq<Entry>, mode: Mode, p: Problem)
    requires DistinctKeys(args) && !Verdict(g, schema, args, mode).Accepted?
    ensures schema.Some? && schema.value.properties.Fields?
    ensures p in Verdict(g, schema, args, mode).problems <==>
            || (exists e :: e in args && SaidOfField(g, schema.value.properties.list, e, p))
            || SaidOfMissing(g, schema.value.required, args, p)
  {
    hide AllFieldProblems, MissingProblems, SaidOfField, SaidOfMissing;
    AllFieldsSay(g, schema.value.properties.list, args, p);
    MissingSays(g, schema.value.required, args, p);
  }

  /* ---------- Names every object inherits ---------- */

  /** The setting in which no name is inherited, as own properties alone would give. */
  function OwnNames(g: Setting): Setting {
    g.(inherited := {})
  }

  /** The call's only faults are unknown fields and absent required ones whose names every object inherits. */
  ghost predicate OnlyInheritedFaults(g: Setting, properties: seq<Property>, required: seq<string>, args: seq<Entry>) {
    && (forall e :: e in args && FaultyField(OwnNames(g), properties, e) ==>
          e.key in g.inherited && forall p :: p in properties ==> p.name != e.key)
    && (forall name :: name in required && Lacks(OwnNames(g), args, name) ==>
          name in g.inherited && forall e :: e in args ==> e.key != name)
  }

  /** A faulty call passes for the names every object inherits exactly when it has no other faults. */
  lemma PassesForInheritedIff(g: Setting, schema: Option<ToolSchema>, args: seq<Entry>)
    requires DistinctKeys(args)
    ensures Verdict(OwnNames(g), schema, args, Enforce).Rejected? && Verdict(g, schema, args, Enforce).Accepted?
       <==> && Verdict(OwnNames(g), schema, args, Enforce).Rejected?
            && OnlyInheritedFaults(g, schema.value.properties.list, schema.value.required, args)
  {
    hide AllFieldProblems, MissingProblems, FaultyField, Lacks, DistinctKeys, OnlyInheritedFaults;
    RejectedIffFaulty(g, schema, args, Enforce);
    RejectedIffFaulty(OwnNames(g), schema, args, Enforce);
    if schema.Some? && schema.value.properties.Fields? {
      InheritedFaultsIff(g, schema.value.properties.list, schema.value.required, args);
    }
  }

  lemma InheritedFaultsIff(g: Setting, properties: seq<Property>, required: seq<string>, args: seq<Entry>)
    ensures OnlyInheritedFaults(g, properties, required, args) <==> !Faulty(g, properties, required, args)
  {
    hide Injected, IsField, Conforms;
    forall e | e in args
      ensures FaultyField(g, properties, e) <==>
                FaultyField(OwnNames(g), properties, e)
                    && !(e.key in g.inherited && forall p :: p in properties ==> p.name != e.key)
    {
    }
    forall name | name in required
      ensures Lacks(g, args, name) <==>
                Lacks(OwnNames(g), args, name) && !(name in g.inherited && forall e :: e in args ==> e.key != name)
    {
    }
    hide FaultyField, Lacks;
  }

  /** An unknown field of an inherited name is accepted, and so is a call without a required one. */
  lemma InheritedNamesPass(test: Matcher, value: Json)
    ensures var g := Setting({"toString"}, false, test);
            var none, one := Some(ToolSchema(Fields([]), [])), Some(ToolSchema(Fields([]), ["toString"]));
            && Verdict(OwnNames(g), none, [Entry("toString", value)], Enforce).Rejected?
            && Verdict(g, none, [Entry("toString", value)], Enforce).Accepted?
            && Verdict(OwnNames(g), one, [], Enforce).Rejected?
            && Verdict(g, one, [], Enforce).Accepted?
  {
    var g := Setting({"toString"}, false, test);
    var args := [Entry("toString", value)];
    assert args[..1] == args && args[..0] == [];
    assert FieldProblems(g, [], args[0]) == [] && FieldProblems(OwnNames(g), [], args[0]) != [];
    assert AllFieldProblems(OwnNames(g), [], args) != [];
    assert AllFieldProblems(g, [], args) == [];
    OneRequired(g, "toString");
    OneRequired(OwnNames(g), "toString");
  }

  lemma OneRequired(g: Setting, name: string)
    ensures MissingProblems(g, [name], []) == [] <==> name in g.inherited
  {
    assert [name][..0] == [];
  }
}
