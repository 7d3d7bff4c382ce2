/** The JSON Schema subset the SDK validates tool arguments with. */
module Schema {
  import opened Wrappers
  import opened JsonValues
  import opened Text

  // One level down from a value: into a property or an array element.
  datatype Step = Key(key: string) | Index(index: nat)

  type Path = seq<Step>

  // ------------------------------------------------------------ what the keywords demand

  predicate MatchesType(value: Json, name: string) {
    if name == "object" then value.Obj?
    else if name == "array" then value.Arr?
    else if name == "string" then value.Str?
    else if name == "number" then value.Int? || value.Float?
    else if name == "integer" then value.Int?
    else if name == "boolean" then value.Bool?
    else if name == "null" then value.Null?
    else true
  }

  /** The type names a value goes by. */
  function TypeNames(value: Json): seq<string> {
    match value
    case Null => ["null"]
    case Bool(_) => ["boolean"]
    case Int(_) => ["integer", "number"]
    case Float(_) => ["number"]
    case Str(_) => ["string"]
    case Arr(_) => ["array"]
    case Obj(_) => ["object"]
  }

  const TYPE_NAMES := ["null", "boolean", "integer", "number", "string", "array", "object"]

  /** A value matches exactly the names it goes by, and every name that is none of the seven. */
  lemma MatchesItsNames(value: Json, name: string)
    ensures MatchesType(value, name) <==> name in TypeNames(value) || name !in TYPE_NAMES
  {
  }

  ghost predicate TypeOk(value: Json, schema: map<string, Json>) {
    "type" in schema ==>
      match schema["type"]
      case Str(name) => MatchesType(value, name)
      case Arr(names) => exists i :: 0 <= i < |names| && names[i].Str? && MatchesType(value, names[i].s)
      case _ => true
  }

  ghost predicate EnumOk(value: Json, schema: map<string, Json>) {
    "enum" in schema && schema["enum"].Arr? ==>
      exists i :: 0 <= i < |schema["enum"].items| && SameValue(schema["enum"].items[i], value)
  }

  ghost predicate RequiredOk(fields: map<string, Json>, schema: map<string, Json>) {
    "required" in schema && schema["required"].Arr? ==>
      forall i :: 0 <= i < |schema["required"].items| && schema["required"].items[i].Str? ==>
        schema["required"].items[i].s in fields
  }

  function Properties(schema: map<string, Json>): map<string, Json> {
    if "properties" in schema && schema["properties"].Obj? then schema["properties"].fields else map[]
  }

  predicate IsClosed(schema: map<string, Json>) {
    "additionalProperties" in schema && schema["additionalProperties"] == Bool(false)
  }

  ghost predicate NoExtras(fields: map<string, Json>, schema: map<string, Json>) {
    IsClosed(schema) ==> fields.Keys <= Properties(schema).Keys
  }

  /** The keywords of one schema object that look at one value and not inside it. */
  ghost predicate LocallyOk(value: Json, schema: Json) {
    schema.Obj? ==>
      && TypeOk(value, schema.fields)
      && EnumOk(value, schema.fields)
      && (value.Obj? ==> RequiredOk(value.fields, schema.fields) && NoExtras(value.fields, schema.fields))
  }

  predicate HasItems(schema: map<string, Json>) {
    "items" in schema && schema["items"].Obj?
  }

  /** A value satisfies a schema: its own keywords hold, and every property and element satisfies the
      schema that applies to it. No order of checking is involved. */
  ghost predicate Satisfies(value: Json, schema: Json)
    decreases value
  {
    && LocallyOk(value, schema)
    && (schema.Obj? && value.Obj? ==>
          forall k :: k in value.fields && k in Properties(schema.fields) ==>
            Satisfies(value.fields[k], Properties(schema.fields)[k]))
    && (schema.Obj? && value.Arr? && HasItems(schema.fields) ==>
          forall i :: 0 <= i < |value.items| ==> Satisfies(value.items[i], schema.fields["items"]))
  }

  // ------------------------------------------------------------ the validator

  method CheckType(value: Json, schema: map<string, Json>) returns (ok: bool)
    ensures ok == TypeOk(value, schema)
  {
    if "type" !in schema {
      return true;
    }
    match schema["type"]
    case Str(name) => return MatchesType(value, name);
    case Arr(names) =>
      ok := false;
      for i := 0 to |names|
        invariant !exists j :: 0 <= j < i && names[j].Str? && MatchesType(value, names[j].s)
      {
        if names[i].Str? && MatchesType(value, names[i].s) {
          return true;
        }
      }
    case _ => return true;
  }

  method CheckEnum(value: Json, schema: map<string, Json>) returns (ok: bool)
    ensures ok == EnumOk(value, schema)
  {
    if "enum" !in schema || !schema["enum"].Arr? {
      return true;
    }
    var candidates := schema["enum"].items;
    for i := 0 to |candidates|
      invariant !exists j :: 0 <= j < i && SameValue(candidates[j], value)
    {
      var same := CompareValues(candidates[i], value);
      if same {
        return true;
      }
    }
    ok := false;
  }

  /** The library's comparison, walking both values. */
  method CompareValues(a: Json, b: Json) returns (same: bool)
    ensures same == SameValue(a, b)
    decreases a
  {
    if a.Arr? && b.Arr? {
      if |a.items| != |b.items| {
        return false;
      }
      for i := 0 to |a.items|
        invariant forall j :: 0 <= j < i ==> SameValue(a.items[j], b.items[j])
      {
        var one := CompareValues(a.items[i], b.items[i]);
        if !one {
          return false;
        }
      }
      return true;
    }
    if a.Obj? && b.Obj? {
      if a.fields.Keys != b.fields.Keys {
        return false;
      }
      var todo := a.fields.Keys;
      while todo != {}
        invariant todo <= a.fields.Keys
        invariant forall k :: k in a.fields && k !in todo ==> SameValue(a.fields[k], b.fields[k])
        decreases todo
      {
        var k :| k in todo;
        var one := CompareValues(a.fields[k], b.fields[k]);
        if !one {
          return false;
        }
        todo := todo - {k};
      }
      return true;
    }
    same := match (a, b)
      case (Null, Null) => true
      case (Bool(x), Bool(y)) => x == y
      case (Str(x), Str(y)) => x == y
      case _ => SameNumber(a, b);
  }

  method CheckRequired(fields: map<string, Json>, schema: map<string, Json>) returns (ok: bool)
    ensures ok == RequiredOk(fields, schema)
  {
    if "required" !in schema || !schema["required"].Arr? {
      return true;
    }
    var names := schema["required"].items;
    for i := 0 to |names|
      invariant forall j :: 0 <= j < i && names[j].Str? ==> names[j].s in fields
    {
      if names[i].Str? && names[i].s !in fields {
        return false;
      }
    }
    ok := true;
  }

  /** None when the value is valid; otherwise the path of the value that was found wrong. */
  method ValidateAt(value: Json, schema: Json, path: Path) returns (error: Option<Path>)
    ensures error.None? <==> Satisfies(value, schema)
    ensures error.Some? ==> path <= error.value && Offends(value, schema, error.value[|path|..])
    decreases value, 1
  {
    if !schema.Obj? {
      return None;
    }
    var typeOk := CheckType(value, schema.fields);
    if !typeOk {
      OffendsHere(value, schema, path);
      return Some(path);
    }
    var enumOk := CheckEnum(value, schema.fields);
    if !enumOk {
      OffendsHere(value, schema, path);
      return Some(path);
    }
    if value.Obj? {
      var requiredOk := CheckRequired(value.fields, schema.fields);
      if !requiredOk {
        OffendsHere(value, schema, path);
        return Some(path);
      }
      error := ValidateProperties(value, schema, path);
      if error.Some? {
        return;
      }
      if IsClosed(schema.fields) {
        var todo := value.fields.Keys;
        while todo != {}
          invariant todo <= value.fields.Keys
          invariant forall k :: k in value.fields && k !in todo ==> k in Properties(schema.fields)
          decreases todo
        {
          var k :| k in todo;
          if k !in Properties(schema.fields) {
            OffendsHere(value, schema, path);
            return Some(path);
          }
          todo := todo - {k};
        }
      }
    }
    if value.Arr? && HasItems(schema.fields) {
      for index := 0 to |value.items|
        invariant forall i :: 0 <= i < index ==> Satisfies(value.items[i], schema.fields["items"])
      {
        error := ValidateAt(value.items[index], schema.fields["items"], path + [Index(index)]);
        if error.Some? {
          OffendsBelow(value, schema, path, Index(index), error.value);
          return;
        }
      }
    }
    error := None;
  }

  /** The loop over the declared properties that the value has. */
  method ValidateProperties(value: Json, schema: Json, path: Path) returns (error: Option<Path>)
    requires value.Obj? && schema.Obj?
    ensures error.None? <==>
            forall k :: k in value.fields && k in Properties(schema.fields) ==>
              Satisfies(value.fields[k], Properties(schema.fields)[k])
    ensures error.Some? ==> path <= error.value && Offends(value, schema, error.value[|path|..])
    decreases value, 0
  {
    var properties := Properties(schema.fields);
    var todo := properties.Keys;
    while todo != {}
      invariant todo <= properties.Keys
      invariant forall k :: k in value.fields && k in properties && k !in todo ==> Satisfies(value.fields[k], properties[k])
      decreases todo
    {
      var k :| k in todo;
      if k in value.fields {
        error := ValidateAt(value.fields[k], properties[k], path + [Key(k)]);
        if error.Some? {
          OffendsBelow(value, schema, path, Key(k), error.value);
          return;
        }
      }
      todo := todo - {k};
    }
    error := None;
  }

  method ValidateSchema(value: Json, schema: Json) returns (error: Option<Path>)
    ensures error.None? <==> Satisfies(value, schema)
    ensures error.Some? ==> Offends(value, schema, error.value)
  {
    error := ValidateAt(value, schema, []);
    if error.Some? {
      assert error.value[0..] == error.value;
    }
  }

  // ------------------------------------------------------------ additional properties

  /** Only `additionalProperties: false` forbids properties that are not declared; any other value of the
      keyword changes nothing. */
  lemma {:induction false} OnlyFalseForbidsExtras(fields: map<string, Json>, schema: map<string, Json>)
    requires "additionalProperties" in schema
    ensures schema["additionalProperties"] == Bool(false) && Satisfies(Obj(fields), Obj(schema)) ==>
              forall k :: k in fields ==> "properties" in schema && schema["properties"].Obj? && k in schema["properties"].fields
    ensures schema["additionalProperties"] != Bool(false) ==>
              (Satisfies(Obj(fields), Obj(schema)) <==> Satisfies(Obj(fields), Obj(schema - {"additionalProperties"})))
  {
    var without := schema - {"additionalProperties"};
    assert Properties(schema) == Properties(without);
    assert RequiredOk(fields, schema) <==> RequiredOk(fields, without);
    assert TypeOk(Obj(fields), schema) <==> TypeOk(Obj(fields), without);
    assert EnumOk(Obj(fields), schema) <==> EnumOk(Obj(fields), without);
  }

  /** `items` and `properties` constrain elements and properties when they are objects, and mean
      nothing otherwise. */
  lemma {:induction false} ItemsApply(items: seq<Json>, schema: map<string, Json>)
    requires "items" in schema
    ensures !schema["items"].Obj? ==>
              (Satisfies(Arr(items), Obj(schema)) <==> Satisfies(Arr(items), Obj(schema - {"items"})))
    ensures schema["items"].Obj? ==>
              (Satisfies(Arr(items), Obj(schema)) <==>
                 Satisfies(Arr(items), Obj(schema - {"items"})) && forall i :: 0 <= i < |items| ==> Satisfies(items[i], schema["items"]))
  {
    var value, without := Arr(items), schema - {"items"};
    assert TypeOk(value, schema) <==> TypeOk(value, without);
    assert EnumOk(value, schema) <==> EnumOk(value, without);
  }

  lemma {:induction false} PropertiesApply(fields: map<string, Json>, schema: map<string, Json>)
    requires "properties" in schema && "additionalProperties" !in schema
    ensures !schema["properties"].Obj? ==>
              (Satisfies(Obj(fields), Obj(schema)) <==> Satisfies(Obj(fields), Obj(schema - {"properties"})))
    ensures schema["properties"].Obj? ==>
              (Satisfies(Obj(fields), Obj(schema)) <==>
                 && Satisfies(Obj(fields), Obj(schema - {"properties"}))
                 && forall k :: k in fields && k in schema["properties"].fields ==> Satisfies(fields[k], schema["properties"].fields[k]))
  {
    var value, without := Obj(fields), schema - {"properties"};
    assert TypeOk(value, schema) <==> TypeOk(value, without);
    assert EnumOk(value, schema) <==> EnumOk(value, without);
    assert RequiredOk(fields, schema) <==> RequiredOk(fields, without);
  }

  // ------------------------------------------------------------ which integers an enumeration allows

  /** The candidate is a number of this value, or the integer 2^64 away from it. */
  predicate Allows(candidate: Json, n: int) {
    || NumberOf(candidate) == Some(n as real)
    || (candidate.Int? && (candidate.n == n + TWO_TO_64 || n == candidate.n + TWO_TO_64))
  }

  /** An integer satisfies an enumeration exactly when a candidate has its value, or is its twin 2^64
      above or below; of two twins one is negative. */
  lemma IntegerAllowedIff(n: int, candidates: seq<Json>)
    requires IsMachineInteger(n)
    requires forall i :: 0 <= i < |candidates| && candidates[i].Int? ==> IsMachineInteger(candidates[i].n)
    ensures Satisfies(Int(n), Obj(map["enum" := Arr(candidates)])) <==> exists i :: 0 <= i < |candidates| && Allows(candidates[i], n)
  {
    var schema := map["enum" := Arr(candidates)];
    forall i | 0 <= i < |candidates|
      ensures SameValue(candidates[i], Int(n)) <==> Allows(candidates[i], n)
    {
      if candidates[i].Int? {
        IntegersCompared(candidates[i].n, n);
      }
    }
    assert Satisfies(Int(n), Obj(schema)) <==> EnumOk(Int(n), schema);
  }

  /** The schema that allows only -1 accepts 18446744073709551615. */
  lemma MinusOneAllowsItsTwin()
    ensures Satisfies(Int(0xFFFF_FFFF_FFFF_FFFF), Obj(map["enum" := Arr([Int(-1)])]))
  {
    assert Allows([Int(-1)][0], 0xFFFF_FFFF_FFFF_FFFF);
    IntegerAllowedIff(0xFFFF_FFFF_FFFF_FFFF, [Int(-1)]);
  }

  // ------------------------------------------------------------ where a violation lies

  /** The value one step down and the schema that applies to it, if any does. */
  function Below(value: Json, schema: Json, step: Step): Option<(Json, Json)> {
    if !schema.Obj? then None
    else
      match step
      case Key(k) =>
        if value.Obj? && k in value.fields && k in Properties(schema.fields)
        then Some((value.fields[k], Properties(schema.fields)[k])) else None
      case Index(i) =>
        if value.Arr? && i < |value.items| && HasItems(schema.fields)
        then Some((value.items[i], schema.fields["items"])) else None
  }

  function Reached(value: Json, schema: Json, path: Path): Option<(Json, Json)>
    decreases |path|
  {
    if path == [] then Some((value, schema))
    else
      match Below(value, schema, path[0])
      case None => None
      case Some((value', schema')) => Reached(value', schema', path[1..])
  }

  /** The path leads to a value that breaks a keyword of the schema that applies there. */
  ghost predicate Offends(value: Json, schema: Json, path: Path) {
    var reached := Reached(value, schema, path);
    reached.Some? && !LocallyOk(reached.value.0, reached.value.1)
  }

  lemma OffendsHere(value: Json, schema: Json, path: Path)
    requires !LocallyOk(value, schema)
    ensures Offends(value, schema, path[|path|..])
  {
  }

  lemma OffendsBelow(value: Json, schema: Json, path: Path, step: Step, error: Path)
    requires Below(value, schema, step).Some? && path + [step] <= error
    requires var (value', schema') := Below(value, schema, step).value; Offends(value', schema', error[|path| + 1..])
    ensures path <= error && Offends(value, schema, error[|path|..])
  {
    var rest := error[|path|..];
    assert error[..|path| + 1] == path + [step];
    assert rest[0] == error[..|path| + 1][|path|] == step;
    assert rest[1..] == error[|path| + 1..];
    assert path == error[..|path|];
  }

  lemma {:induction false} SatisfiedHasNoOffender(value: Json, schema: Json, path: Path)
    requires Satisfies(value, schema)
    ensures !Offends(value, schema, path)
    decreases |path|
  {
    if path != [] {
      var below := Below(value, schema, path[0]);
      if below.Some? {
        SatisfiedHasNoOffender(below.value.0, below.value.1, path[1..]);
      }
    }
  }

  lemma OffenderBelow(value: Json, schema: Json, step: Step, path: Path)
    requires Below(value, schema, step).Some?
    requires var (value', schema') := Below(value, schema, step).value; Offends(value', schema', path)
    ensures Offends(value, schema, [step] + path)
  {
    assert ([step] + path)[1..] == path;
  }

  lemma {:induction false} UnsatisfiedHasOffender(value: Json, schema: Json) returns (path: Path)
    requires !Satisfies(value, schema)
    ensures Offends(value, schema, path)
    decreases value
  {
    if !LocallyOk(value, schema) {
      path := [];
    } else if value.Obj? {
      var k :| k in value.fields && k in Properties(schema.fields)
        && !Satisfies(value.fields[k], Properties(schema.fields)[k]);
      var rest := UnsatisfiedHasOffender(value.fields[k], Properties(schema.fields)[k]);
      OffenderBelow(value, schema, Key(k), rest);
      path := [Key(k)] + rest;
    } else {
      var i :| 0 <= i < |value.items| && !Satisfies(value.items[i], schema.fields["items"]);
      var rest := UnsatisfiedHasOffender(value.items[i], schema.fields["items"]);
      OffenderBelow(value, schema, Index(i), rest);
      path := [Index(i)] + rest;
    }
  }

  /** A value satisfies a schema exactly when no path leads to a value that breaks a keyword there. */
  lemma SatisfiesIffNoOffender(value: Json, schema: Json)
    ensures Satisfies(value, schema) <==> forall path :: !Offends(value, schema, path)
  {
    if Satisfies(value, schema) {
      forall path
        ensures !Offends(value, schema, path)
      {
        SatisfiedHasNoOffender(value, schema, path);
      }
    } else {
      var path := UnsatisfiedHasOffender(value, schema);
    }
  }
}
