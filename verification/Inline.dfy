/**
 A JSON schema made one MongoDB takes, every reference inlined: packages/mongo/src/definition/json-schema.ts.
 */
module Inline {
  // A record is its fields in order, each name once; the stack is the names being inlined.

  import opened Wrappers

  type Name = string

  datatype Json =
    | Null
    | Number(n: int)
    | Text(s: string)
    | List(items: seq<Json>)
    | Record(fields: seq<Field>)

  datatype Field = Field(key: Name, value: Json)

  type Defs = map<Name, Json>

  /** The keywords of `$jsonSchema` that MongoDB accepts. */
  predicate IsKeyword(key: Name) {
    key in {"additionalItems", "additionalProperties", "allOf", "anyOf", "bsonType", "dependencies", "description",
            "enum", "exclusiveMaximum", "exclusiveMinimum", "items", "maxItems", "maxLength", "maxProperties",
            "maximum", "minItems", "minLength", "minProperties", "minimum", "multipleOf", "not", "oneOf", "pattern",
            "patternProperties", "properties", "required", "title", "type", "uniqueItems"}
  }

  /** Under these, any name may stand, with a schema of its own. */
  predicate IsSchemaMap(key: Name) {
    key in {"properties", "patternProperties", "dependencies"}
  }

  datatype Refusal = Recursive(name: Name) | Unresolved(name: Name)

  // ----- a record's fields

  function Get(fields: seq<Field>, key: Name): Option<Json> {
    if fields == [] then None
    else if fields[|fields| - 1].key == key then Some(fields[|fields| - 1].value)
    else Get(fields[..|fields| - 1], key)
  }

  function Delete(fields: seq<Field>, key: Name): seq<Field> {
    if fields == [] then []
    else Delete(fields[..|fields| - 1], key) + if fields[|fields| - 1].key == key then [] else [fields[|fields| - 1]]
  }

  function Replaced(fields: seq<Field>, key: Name, value: Json): seq<Field> {
    if fields == [] then []
    else if fields[|fields| - 1].key == key then fields[..|fields| - 1] + [Field(key, value)]
    else Replaced(fields[..|fields| - 1], key, value) + [fields[|fields| - 1]]
  }

  /** A field written: in place of the one there, or after the others. */
  function Put(fields: seq<Field>, key: Name, value: Json): seq<Field> {
    if Get(fields, key).Some? then Replaced(fields, key, value) else fields + [Field(key, value)]
  }

  /** `{ ...a, ...b }`. */
  function Merged(a: seq<Field>, b: seq<Field>): seq<Field> {
    if b == [] then a else Put(Merged(a, b[..|b| - 1]), b[|b| - 1].key, b[|b| - 1].value)
  }

  // ----- inline

  function WithoutInteger(items: seq<Json>): seq<Json> {
    if items == [] then []
    else WithoutInteger(items[..|items| - 1]) + if items[|items| - 1] == Text("integer") then []
      else [items[|items| - 1]]
  }

  function IntegerTypes(): seq<Json> {
    [Text("int"), Text("long"), Text("double")]
  }

  predicate HasInteger(typed: Json) {
    typed == Text("integer") || (typed.List? && Text("integer") in typed.items)
  }

  /** `convertIntegerType`. */
  function Converted(node: seq<Field>): seq<Field> {
    var typed := Get(node, "type");
    if typed.None? || !HasInteger(typed.value) then node
    else
      var others := if typed.value.List? then WithoutInteger(typed.value.items) else [];
      var typed := Put(Delete(node, "type"), "bsonType", List(others + IntegerTypes()));
      if Get(typed, "multipleOf").None? || Get(typed, "multipleOf") == Some(Null)
      then Put(typed, "multipleOf", Number(1)) else typed
  }

  /** `refName`: what a reference points at, without the place the definitions are kept in. */
  function RefName(ref: string): (n: Name)
    ensures ref in {"#/definitions/" + n, "#/$defs/" + n, n}
    ensures ref == n ==> !("#/definitions/" <= ref) && !("#/$defs/" <= ref)
  {
    if "#/definitions/" <= ref then
      assert ref == "#/definitions/" + ref[|"#/definitions/"|..];
      ref[|"#/definitions/"|..]
    else if "#/$defs/" <= ref then
      assert ref == "#/$defs/" + ref[|"#/$defs/"|..];
      ref[|"#/$defs/"|..]
    else ref
  }

  /** The definition a record refers to, when it has a `$ref` that is a string. */
  function RefOf(v: Json): Option<Name> {
    if v.Record? && Get(v.fields, "$ref").Some? && Get(v.fields, "$ref").value.Text?
      then Some(RefName(Get(v.fields, "$ref").value.s)) else None
  }

  /**
   `inline`. It ends: each definition followed leaves one fewer to
   follow, and everything else is a part of the value.
   */
  function Inlined(v: Json, defs: Defs, stack: set<Name>): Result<Json, Refusal>
    decreases defs.Keys - stack, v, 1
  {
    match v
    case List(_) => (match InlinedItems(v, |v.items|, defs, stack)
                     case Err(e) => Err(e)
                     case Ok(items) => Ok(List(items)))
    case Record(_) =>
      (match RefOf(v)
       case None => (match InlinedFields(v, |v.fields|, defs, stack)
                     case Err(e) => Err(e)
                     case Ok(fields) => Ok(Record(Converted(fields))))
       case Some(name) =>
         if name in stack then Err(Recursive(name))
         else if name !in defs || !defs[name].Record? then Err(Unresolved(name))
         else match Inlined(defs[name], defs, stack + {name})
           case Err(e) => Err(e)
           case Ok(target) =>
             match InlinedFields(v, |v.fields|, defs, stack)
             case Err(e) => Err(e)
             case Ok(siblings) => Ok(Record(Merged(if target.Record? then target.fields else [], Converted(siblings)))))
    case _ => Ok(v)
  }

  function InlinedItems(v: Json, n: nat, defs: Defs, stack: set<Name>): Result<seq<Json>, Refusal>
    requires v.List? && n <= |v.items|
    decreases defs.Keys - stack, v, 0, n
  {
    if n == 0 then Ok([])
    else match InlinedItems(v, n - 1, defs, stack)
      case Err(e) => Err(e)
      case Ok(before) =>
        match Inlined(v.items[n - 1], defs, stack)
        case Err(e) => Err(e)
        case Ok(item) => Ok(before + [item])
  }

  /** The first fields of a record, in schema position: what is no keyword is dropped, a `$ref` among them. */
  function InlinedFields(v: Json, n: nat, defs: Defs, stack: set<Name>): Result<seq<Field>, Refusal>
    requires v.Record? && n <= |v.fields|
    decreases defs.Keys - stack, v, 0, n
  {
    if n == 0 then Ok([])
    else match InlinedFields(v, n - 1, defs, stack)
      case Err(e) => Err(e)
      case Ok(before) =>
        var f := v.fields[n - 1];
        if !IsKeyword(f.key) then Ok(before)
        else match (if IsSchemaMap(f.key) && f.value.Record? then InlinedMap(f.value, defs, stack)
          else Inlined(f.value, defs, stack))
          case Err(e) => Err(e)
          case Ok(value) => Ok(before + [Field(f.key, value)])
  }

  function InlinedMap(v: Json, defs: Defs, stack: set<Name>): Result<Json, Refusal>
    requires v.Record?
    decreases defs.Keys - stack, v, 1
  {
    match InlinedNames(v, |v.fields|, defs, stack)
    case Err(e) => Err(e)
    case Ok(fields) => Ok(Record(fields))
  }

  /** So many entries of such a record: each name stays, and its schema is inlined. */
  function InlinedNames(v: Json, n: nat, defs: Defs, stack: set<Name>): Result<seq<Field>, Refusal>
    requires v.Record? && n <= |v.fields|
    decreases defs.Keys - stack, v, 0, n
  {
    if n == 0 then Ok([])
    else match InlinedNames(v, n - 1, defs, stack)
      case Err(e) => Err(e)
      case Ok(before) =>
        match Inlined(v.fields[n - 1].value, defs, stack)
        case Err(e) => Err(e)
        case Ok(value) => Ok(before + [Field(v.fields[n - 1].key, value)])
  }

  /** `inline` as it runs: one local record filled field after field. */
  method Inline(v: Json, defs: Defs, stack: set<Name>) returns (r: Result<Json, Refusal>)
    ensures r == Inlined(v, defs, stack)
    decreases defs.Keys - stack, v
  {
    match v {
      case List(items) =>
        var out := [];
        for i := 0 to |items|
          invariant InlinedItems(v, i, defs, stack) == Ok(out)
        {
          var one := Inline(items[i], defs, stack);
          if one.Err? { FirstRefusal(v, i + 1, defs, stack); return Err(one.error); }
          out := out + [one.value];
        }
        r := Ok(List(out));
      case Record(fields) =>
        var target: seq<Field> := [];
        var ref := RefOf(v);
        if ref.Some? {
          if ref.value in stack { return Err(Recursive(ref.value)); }
          if ref.value !in defs || !defs[ref.value].Record? { return Err(Unresolved(ref.value)); }
          var inlined := Inline(defs[ref.value], defs, stack + {ref.value});
          if inlined.Err? { return Err(inlined.error); }
          target := if inlined.value.Record? then inlined.value.fields else [];
        }
        var out := [];
        for i := 0 to |fields|
          invariant InlinedFields(v, i, defs, stack) == Ok(out)
        {
          if !IsKeyword(fields[i].key) { continue; }
          var value;
          if IsSchemaMap(fields[i].key) && fields[i].value.Record? {
            value := InlineMap(fields[i].value, defs, stack);
          } else {
            value := Inline(fields[i].value, defs, stack);
          }
          if value.Err? { FirstRefusal(v, i + 1, defs, stack); return Err(value.error); }
          out := out + [Field(fields[i].key, value.value)];
        }
        r := Ok(Record(if ref.Some? then Merged(target, Converted(out)) else Converted(out)));
      case _ => r := Ok(v);
    }
  }

  method InlineMap(v: Json, defs: Defs, stack: set<Name>) returns (r: Result<Json, Refusal>)
    requires v.Record?
    ensures r == InlinedMap(v, defs, stack)
    decreases defs.Keys - stack, v
  {
    var mapped := [];
    for i := 0 to |v.fields|
      invariant InlinedNames(v, i, defs, stack) == Ok(mapped)
    {
      var schema := Inline(v.fields[i].value, defs, stack);
      if schema.Err? { FirstRefusal(v, i + 1, defs, stack); return Err(schema.error); }
      mapped := mapped + [Field(v.fields[i].key, schema.value)];
    }
    r := Ok(Record(mapped));
  }

  /** What refuses a part refuses the whole. */
  lemma {:induction false} FirstRefusal(v: Json, n: nat, defs: Defs, stack: set<Name>)
    requires v.List? ==> n <= |v.items|
    requires v.Record? ==> n <= |v.fields|
    ensures v.List? && InlinedItems(v, n, defs, stack).Err? ==>
            InlinedItems(v, |v.items|, defs, stack) == InlinedItems(v, n, defs, stack)
    ensures v.Record? && InlinedFields(v, n, defs, stack).Err? ==>
            InlinedFields(v, |v.fields|, defs, stack) == InlinedFields(v, n, defs, stack)
    ensures v.Record? && InlinedNames(v, n, defs, stack).Err? ==>
            InlinedNames(v, |v.fields|, defs, stack) == InlinedNames(v, n, defs, stack)
    decreases if v.List? then |v.items| - n else if v.Record? then |v.fields| - n else 0
  {
    if (v.List? && n < |v.items|) || (v.Record? && n < |v.fields|) { FirstRefusal(v, n + 1, defs, stack); }
  }

  // ----- what comes out

  /** In schema position: keywords only, so no `$ref`, and no `integer`; the names of a map are any. */
  predicate Clean(v: Json) {
    match v
    case List(items) => forall i | 0 <= i < |items| :: Clean(items[i])
    case Record(fields) => (forall i | 0 <= i < |fields| :: CleanField(fields[i])) && NoInteger(fields)
    case _ => true
  }

  predicate CleanField(f: Field)
    decreases f
  {
    && IsKeyword(f.key)
    && if IsSchemaMap(f.key) && f.value.Record? then forall i | 0 <= i < |f.value.fields| ::
      Clean(f.value.fields[i].value)
       else Clean(f.value)
  }

  predicate NoInteger(fields: seq<Field>) {
    Get(fields, "type").Some? ==> !HasInteger(Get(fields, "type").value)
  }

  ghost predicate CleanFields(fields: seq<Field>) {
    forall f | f in fields :: CleanField(f)
  }

  lemma {:induction false} GetOfReplaced(fields: seq<Field>, key: Name, value: Json, other: Name)
    requires Get(fields, key).Some?
    ensures Get(Replaced(fields, key, value), other) == if other == key then Some(value) else Get(fields, other)
    ensures forall f | f in Replaced(fields, key, value) :: f in fields || f == Field(key, value)
  {
    var before := fields[..|fields| - 1];
    assert fields == before + [fields[|fields| - 1]];
    var r := Replaced(fields, key, value);
    assert r[..|r| - 1] == if fields[|fields| - 1].key == key then before else Replaced(before, key, value);
    if fields[|fields| - 1].key != key { GetOfReplaced(before, key, value, other); }
  }

  lemma GetOfPut(fields: seq<Field>, key: Name, value: Json, other: Name)
    ensures Get(Put(fields, key, value), other) == if other == key then Some(value) else Get(fields, other)
    ensures forall f | f in Put(fields, key, value) :: f in fields || f == Field(key, value)
  {
    if Get(fields, key).Some? {
      GetOfReplaced(fields, key, value, other);
    } else {
      assert (fields + [Field(key, value)])[..|fields|] == fields;
    }
  }

  lemma {:induction false} GetOfDelete(fields: seq<Field>, key: Name, other: Name)
    ensures Get(Delete(fields, key), other) == if other == key then None else Get(fields, other)
    ensures forall f | f in Delete(fields, key) :: f in fields
  {
    if fields != [] {
      var before, last := fields[..|fields| - 1], fields[|fields| - 1];
      GetOfDelete(before, key, other);
      var d := Delete(before, key);
      assert Delete(fields, key) == if last.key == key then d else d + [last];
      assert Get(fields, other) == if last.key == other then Some(last.value) else Get(before, other);
      assert (d + [last])[..|d|] == d;
      assert Get(d + [last], other) == if last.key == other then Some(last.value) else Get(d, other);
      hide Get, Delete;
      assert fields == before + [last];
    }
  }

  lemma GetOfMore(before: seq<Field>, last: Field, key: Name)
    ensures Get(before + [last], key) == if last.key == key then Some(last.value) else Get(before, key)
  {
    assert (before + [last])[..|before|] == before;
  }

  lemma {:induction false} GetOfMerged(a: seq<Field>, b: seq<Field>, key: Name)
    ensures Get(Merged(a, b), key) == if Get(b, key).Some? then Get(b, key) else Get(a, key)
    ensures forall f | f in Merged(a, b) :: f in a || f in b
  {
    if b != [] {
      hide Get, Put;
      var before, last := b[..|b| - 1], b[|b| - 1];
      assert b == before + [last];
      GetOfMerged(a, before, key);
      GetOfMore(before, last, key);
      GetOfPut(Merged(a, before), last.key, last.value, key);
    }
  }

  lemma {:induction false} NoneIsInteger(items: seq<Json>)
    ensures Text("integer") !in WithoutInteger(items)
    ensures forall t | t in WithoutInteger(items) :: t in items
  {
    if items != [] {
      NoneIsInteger(items[..|items| - 1]);
      assert items == items[..|items| - 1] + [items[|items| - 1]];
    }
  }

  lemma {:induction false} GetIsIn(fields: seq<Field>, key: Name)
    requires Get(fields, key).Some?
    ensures Field(key, Get(fields, key).value) in fields
  {
    if fields[|fields| - 1].key != key { GetIsIn(fields[..|fields| - 1], key); }
  }

  lemma TypesAreClean(typed: Json)
    requires Clean(typed) && HasInteger(typed)
    ensures CleanField(Field("bsonType", List((if typed.List? then WithoutInteger(typed.items) else [])
            + IntegerTypes())))
    ensures CleanField(Field("multipleOf", Number(1)))
  {
    if typed.List? { NoneIsInteger(typed.items); }
    var items := (if typed.List? then WithoutInteger(typed.items) else []) + IntegerTypes();
    forall i | 0 <= i < |items| ensures Clean(items[i]) {
      if items[i] !in IntegerTypes() {
        assert items[i] in typed.items;
        var k :| 0 <= k < |typed.items| && typed.items[k] == items[i];
      } else {
        assert items[i].Text?;
      }
    }
    assert Clean(List(items));
    assert IsKeyword("bsonType") && IsKeyword("multipleOf");
  }

  lemma ConvertedIsClean(node: seq<Field>)
    requires CleanFields(node)
    ensures CleanFields(Converted(node)) && NoInteger(Converted(node))
  {
    var typed := Get(node, "type");
    if typed.Some? && HasInteger(typed.value) {
      GetIsIn(node, "type");
      assert CleanField(Field("type", typed.value));
      TypesAreClean(typed.value);
      hide CleanField, Clean, HasInteger, IsKeyword;
      var others := if typed.value.List? then WithoutInteger(typed.value.items) else [];
      var bson := List(others + IntegerTypes());
      var typed := Put(Delete(node, "type"), "bsonType", bson);
      GetOfDelete(node, "type", "type");
      GetOfPut(Delete(node, "type"), "bsonType", bson, "type");
      GetOfPut(typed, "multipleOf", Number(1), "type");
    }
  }

  /** What `inline` gives has only keywords in schema position, no `$ref` and no `integer`, whatever it was given. */
  lemma {:induction false} InlinedIsClean(v: Json, defs: Defs, stack: set<Name>)
    requires Inlined(v, defs, stack).Ok?
    ensures Clean(Inlined(v, defs, stack).value)
    decreases defs.Keys - stack, v, 1
  {
    match v {
      case List(_) => ItemsAreClean(v, |v.items|, defs, stack);
      case Record(_) =>
        FieldsAreClean(v, |v.fields|, defs, stack);
        var fields := InlinedFields(v, |v.fields|, defs, stack).value;
        ConvertedIsClean(fields);
        if RefOf(v).Some? {
          var name := RefOf(v).value;
          InlinedIsClean(defs[name], defs, stack + {name});
          var target := Inlined(defs[name], defs, stack + {name}).value;
          GetOfMerged(if target.Record? then target.fields else [], Converted(fields), "type");
        }
      case _ =>
    }
  }

  lemma {:induction false} ItemsAreClean(v: Json, n: nat, defs: Defs, stack: set<Name>)
    requires v.List? && n <= |v.items| && InlinedItems(v, n, defs, stack).Ok?
    ensures forall item | item in InlinedItems(v, n, defs, stack).value :: Clean(item)
    decreases defs.Keys - stack, v, 0, n
  {
    if n > 0 {
      ItemsAreClean(v, n - 1, defs, stack);
      InlinedIsClean(v.items[n - 1], defs, stack);
    }
  }

  lemma {:induction false} FieldsAreClean(v: Json, n: nat, defs: Defs, stack: set<Name>)
    requires v.Record? && n <= |v.fields| && InlinedFields(v, n, defs, stack).Ok?
    ensures CleanFields(InlinedFields(v, n, defs, stack).value)
    decreases defs.Keys - stack, v, 0, n
  {
    if n > 0 {
      FieldsAreClean(v, n - 1, defs, stack);
      var f := v.fields[n - 1];
      if IsKeyword(f.key) {
        if IsSchemaMap(f.key) && f.value.Record? {
          NamesAreClean(f.value, |f.value.fields|, defs, stack);
        } else {
          InlinedIsClean(f.value, defs, stack);
          KeepsItsShape(f.value, defs, stack);
        }
      }
    }
  }

  /** Only a record becomes one. */
  lemma KeepsItsShape(v: Json, defs: Defs, stack: set<Name>)
    ensures Inlined(v, defs, stack).Ok? ==> Inlined(v, defs, stack).value.Record? == v.Record?
  {
  }

  lemma {:induction false} NamesAreClean(v: Json, n: nat, defs: Defs, stack: set<Name>)
    requires v.Record? && n <= |v.fields| && InlinedNames(v, n, defs, stack).Ok?
    ensures forall f | f in InlinedNames(v, n, defs, stack).value :: Clean(f.value)
    decreases defs.Keys - stack, v, 0, n
  {
    if n > 0 {
      NamesAreClean(v, n - 1, defs, stack);
      InlinedIsClean(v.fields[n - 1].value, defs, stack);
    }
  }

  // ----- what is refused

  /** The definitions a value refers to, where `inline` looks. */
  function Refs(v: Json): set<Name>
    decreases v, 1
  {
    match v
    case List(_) => RefsOfItems(v, |v.items|)
    case Record(_) => (if RefOf(v).Some? then {RefOf(v).value} else {}) + RefsOfFields(v, |v.fields|)
    case _ => {}
  }

  function RefsOfItems(v: Json, n: nat): set<Name>
    requires v.List? && n <= |v.items|
    decreases v, 0, n
  {
    if n == 0 then {} else RefsOfItems(v, n - 1) + Refs(v.items[n - 1])
  }

  function RefsOfFields(v: Json, n: nat): set<Name>
    requires v.Record? && n <= |v.fields|
    decreases v, 0, n
  {
    if n == 0 then {}
    else
      var f := v.fields[n - 1];
      RefsOfFields(v, n - 1) +
      if !IsKeyword(f.key) then {}
      else if IsSchemaMap(f.key) && f.value.Record? then RefsOfNames(f.value, |f.value.fields|)
      else Refs(f.value)
  }

  function RefsOfNames(v: Json, n: nat): set<Name>
    requires v.Record? && n <= |v.fields|
    decreases v, 0, n
  {
    if n == 0 then {} else RefsOfNames(v, n - 1) + Refs(v.fields[n - 1].value)
  }

  predicate Resolved(names: set<Name>, defs: Defs) {
    forall n | n in names :: n in defs && defs[n].Record?
  }

  ghost predicate AllResolve(defs: Defs) {
    forall n | n in defs :: Resolved(Refs(defs[n]), defs)
  }

  /** Followed from a name, some references lead back to one being inlined, or met on the way. */
  ghost predicate Loops(n: Name, defs: Defs, stack: set<Name>)
    decreases defs.Keys - stack
  {
    n in stack || (n in defs && exists m | m in Refs(defs[n]) :: Loops(m, defs, stack + {n}))
  }

  ghost predicate AnyLoops(names: set<Name>, defs: Defs, stack: set<Name>) {
    exists n | n in names :: Loops(n, defs, stack)
  }

  /** With every reference resolved, `inline` refuses exactly what loops. */
  lemma {:induction false} RefusesLoops(v: Json, defs: Defs, stack: set<Name>)
    requires AllResolve(defs) && Resolved(Refs(v), defs)
    ensures Inlined(v, defs, stack).Err? <==> AnyLoops(Refs(v), defs, stack)
    decreases defs.Keys - stack, v, 1
  {
    match v {
      case List(_) => ItemsRefuse(v, |v.items|, defs, stack);
      case Record(_) =>
        FieldsRefuse(v, |v.fields|, defs, stack);
        if RefOf(v).Some? {
          var name := RefOf(v).value;
          assert name in Refs(v);
          if name !in stack { RefusesLoops(defs[name], defs, stack + {name}); }
          assert Loops(name, defs, stack) <==> name in stack || AnyLoops(Refs(defs[name]), defs, stack + {name});
          assert AnyLoops(Refs(v), defs, stack) <==>
                 Loops(name, defs, stack) || AnyLoops(RefsOfFields(v, |v.fields|), defs, stack);
        } else {
          assert Refs(v) == RefsOfFields(v, |v.fields|);
        }
      case _ =>
    }
  }

  lemma AnyOfEither(a: set<Name>, b: set<Name>, defs: Defs, stack: set<Name>)
    ensures AnyLoops(a + b, defs, stack) <==> AnyLoops(a, defs, stack) || AnyLoops(b, defs, stack)
  {
  }

  lemma {:induction false} ItemsRefuse(v: Json, n: nat, defs: Defs, stack: set<Name>)
    requires v.List? && n <= |v.items| && AllResolve(defs) && Resolved(RefsOfItems(v, n), defs)
    ensures InlinedItems(v, n, defs, stack).Err? <==> AnyLoops(RefsOfItems(v, n), defs, stack)
    decreases defs.Keys - stack, v, 0, n
  {
    if n > 0 {
      ItemsRefuse(v, n - 1, defs, stack);
      RefusesLoops(v.items[n - 1], defs, stack);
      AnyOfEither(RefsOfItems(v, n - 1), Refs(v.items[n - 1]), defs, stack);
    }
  }

  lemma {:induction false} FieldsRefuse(v: Json, n: nat, defs: Defs, stack: set<Name>)
    requires v.Record? && n <= |v.fields| && AllResolve(defs) && Resolved(RefsOfFields(v, n), defs)
    ensures InlinedFields(v, n, defs, stack).Err? <==> AnyLoops(RefsOfFields(v, n), defs, stack)
    decreases defs.Keys - stack, v, 0, n
  {
    if n > 0 {
      FieldsRefuse(v, n - 1, defs, stack);
      var f := v.fields[n - 1];
      if IsKeyword(f.key) {
        if IsSchemaMap(f.key) && f.value.Record? {
          NamesRefuse(f.value, |f.value.fields|, defs, stack);
          AnyOfEither(RefsOfFields(v, n - 1), RefsOfNames(f.value, |f.value.fields|), defs, stack);
        } else {
          RefusesLoops(f.value, defs, stack);
          AnyOfEither(RefsOfFields(v, n - 1), Refs(f.value), defs, stack);
        }
      } else {
        assert RefsOfFields(v, n) == RefsOfFields(v, n - 1);
      }
    }
  }

  lemma {:induction false} NamesRefuse(v: Json, n: nat, defs: Defs, stack: set<Name>)
    requires v.Record? && n <= |v.fields| && AllResolve(defs) && Resolved(RefsOfNames(v, n), defs)
    ensures InlinedNames(v, n, defs, stack).Err? <==> AnyLoops(RefsOfNames(v, n), defs, stack)
    decreases defs.Keys - stack, v, 0, n
  {
    if n > 0 {
      NamesRefuse(v, n - 1, defs, stack);
      RefusesLoops(v.fields[n - 1].value, defs, stack);
      AnyOfEither(RefsOfNames(v, n - 1), Refs(v.fields[n - 1].value), defs, stack);
    }
  }

  /** Definitions each referring to the next. */
  ghost predicate IsPath(path: seq<Name>, defs: Defs) {
    && (forall i | 0 <= i < |path| - 1 :: path[i] in defs)
    && forall i | 0 < i < |path| :: path[i] in Refs(defs[path[i - 1]])
  }

  /** One of them is being inlined already, or comes again. */
  ghost predicate Returns(path: seq<Name>, stack: set<Name>) {
    (exists i | 0 <= i < |path| :: path[i] in stack) || exists i, j | 0 <= i < j < |path| :: path[i] == path[j]
  }

  lemma {:induction false} PathLoops(path: seq<Name>, defs: Defs, stack: set<Name>)
    requires path != [] && IsPath(path, defs) && Returns(path, stack)
    ensures Loops(path[0], defs, stack)
    decreases |path|
  {
    if path[0] !in stack {
      var rest := path[1..];
      assert |path| > 1;
      assert rest[0] in Refs(defs[path[0]]);
      forall i | 0 < i < |rest| ensures rest[i] in Refs(defs[rest[i - 1]])
        { assert path[i + 1] in Refs(defs[path[i]]); }
      if i :| 0 <= i < |path| && path[i] in stack {
        assert rest[i - 1] in stack + {path[0]};
      } else {
        var i, j :| 0 <= i < j < |path| && path[i] == path[j];
        if i == 0 { assert rest[j - 1] in stack + {path[0]}; } else { assert rest[i - 1] == rest[j - 1]; }
      }
      PathLoops(rest, defs, stack + {path[0]});
    }
  }

  lemma {:induction false} LoopsPath(n: Name, defs: Defs, stack: set<Name>) returns (path: seq<Name>)
    requires Loops(n, defs, stack)
    ensures path != [] && path[0] == n && IsPath(path, defs) && Returns(path, stack)
    decreases defs.Keys - stack
  {
    if n in stack {
      path := [n];
      assert path[0] in stack;
    } else {
      var m :| m in Refs(defs[n]) && Loops(m, defs, stack + {n});
      var rest := LoopsPath(m, defs, stack + {n});
      path := [n] + rest;
      forall i | 0 < i < |path| ensures path[i] in Refs(defs[path[i - 1]]) {
        if i > 1 { assert rest[i - 1] in Refs(defs[rest[i - 2]]); }
      }
      if i :| 0 <= i < |rest| && rest[i] in stack + {n} {
        assert path[i + 1] == rest[i] && (rest[i] in stack || path[0] == path[i + 1]);
      } else {
        var i, j :| 0 <= i < j < |rest| && rest[i] == rest[j];
        assert path[i + 1] == path[j + 1];
      }
    }
  }

  /** Some path of references from a value meets a definition twice. */
  ghost predicate ReachesCycle(v: Json, defs: Defs) {
    exists path: seq<Name> :: path != [] && path[0] in Refs(v) && IsPath(path, defs) && Returns(path, {})
  }

  /**
   Over definitions that all resolve, a schema is refused exactly when a cycle of references can be reached from it.
   */
  lemma RefusesExactlyCycles(v: Json, defs: Defs)
    requires AllResolve(defs) && Resolved(Refs(v), defs)
    ensures Inlined(v, defs, {}).Err? <==> ReachesCycle(v, defs)
  {
    RefusesLoops(v, defs, {});
    if AnyLoops(Refs(v), defs, {}) {
      var n :| n in Refs(v) && Loops(n, defs, {});
      var path := LoopsPath(n, defs, {});
      assert path[0] in Refs(v);
    }
    if ReachesCycle(v, defs) {
      var path: seq<Name> :| path != [] && path[0] in Refs(v) && IsPath(path, defs) && Returns(path, {});
      PathLoops(path, defs, {});
    }
  }

  // ----- what it says, keyword by keyword

  /** The names being inlined decide what is refused, never what comes out. */
  lemma {:induction false} StackOnlyRefuses(v: Json, defs: Defs, few: set<Name>, many: set<Name>)
    requires few <= many && Inlined(v, defs, many).Ok?
    ensures Inlined(v, defs, few) == Inlined(v, defs, many)
    decreases defs.Keys - many, v, 1
  {
    match v {
      case List(_) => ItemsAlike(v, |v.items|, defs, few, many);
      case Record(_) =>
        FieldsAlike(v, |v.fields|, defs, few, many);
        if RefOf(v).Some? {
          var name := RefOf(v).value;
          StackOnlyRefuses(defs[name], defs, few + {name}, many + {name});
        }
      case _ =>
    }
  }

  lemma {:induction false} ItemsAlike(v: Json, n: nat, defs: Defs, few: set<Name>, many: set<Name>)
    requires few <= many && v.List? && n <= |v.items| && InlinedItems(v, n, defs, many).Ok?
    ensures InlinedItems(v, n, defs, few) == InlinedItems(v, n, defs, many)
    decreases defs.Keys - many, v, 0, n
  {
    if n > 0 {
      ItemsAlike(v, n - 1, defs, few, many);
      StackOnlyRefuses(v.items[n - 1], defs, few, many);
    }
  }

  lemma {:induction false} FieldsAlike(v: Json, n: nat, defs: Defs, few: set<Name>, many: set<Name>)
    requires few <= many && v.Record? && n <= |v.fields| && InlinedFields(v, n, defs, many).Ok?
    ensures InlinedFields(v, n, defs, few) == InlinedFields(v, n, defs, many)
    decreases defs.Keys - many, v, 0, n
  {
    hide IsKeyword;
    if n > 0 {
      FieldsAlike(v, n - 1, defs, few, many);
      var f := v.fields[n - 1];
      if IsKeyword(f.key) {
        if IsSchemaMap(f.key) && f.value.Record? {
          NamesAlike(f.value, |f.value.fields|, defs, few, many);
        } else {
          StackOnlyRefuses(f.value, defs, few, many);
        }
      }
    }
  }

  lemma {:induction false} NamesAlike(v: Json, n: nat, defs: Defs, few: set<Name>, many: set<Name>)
    requires few <= many && v.Record? && n <= |v.fields| && InlinedNames(v, n, defs, many).Ok?
    ensures InlinedNames(v, n, defs, few) == InlinedNames(v, n, defs, many)
    decreases defs.Keys - many, v, 0, n
  {
    if n > 0 {
      NamesAlike(v, n - 1, defs, few, many);
      StackOnlyRefuses(v.fields[n - 1].value, defs, few, many);
    }
  }

  /** The value of a keyword, and what it becomes: names stay, and what stands under them is inlined. */
  ghost predicate Becomes(key: Name, from: Json, to: Json, defs: Defs) {
    if key in {"properties", "patternProperties", "dependencies"} && from.Record? then
      && to.Record? && |to.fields| == |from.fields|
      && forall i | 0 <= i < |from.fields| ::
        to.fields[i].key == from.fields[i].key && Inlined(from.fields[i].value, defs, {}) == Ok(to.fields[i].value)
    else Inlined(from, defs, {}) == Ok(to)
  }

  lemma {:induction false} NamesBecome(v: Json, n: nat, defs: Defs)
    requires v.Record? && n <= |v.fields| && InlinedNames(v, n, defs, {}).Ok?
    ensures var to := InlinedNames(v, n, defs, {}).value;
            |to| == n && forall i | 0 <= i < n ::
              to[i].key == v.fields[i].key && Inlined(v.fields[i].value, defs, {}) == Ok(to[i].value)
  {
    if n > 0 { NamesBecome(v, n - 1, defs); }
  }

  /** Of a record's own fields: the keywords stay, each with what its value becomes, and nothing else does. */
  lemma {:induction false} OwnFields(v: Json, n: nat, defs: Defs, key: Name)
    requires v.Record? && n <= |v.fields| && InlinedFields(v, n, defs, {}).Ok?
    ensures var had, has := Get(v.fields[..n], key), Get(InlinedFields(v, n, defs, {}).value, key);
            if IsKeyword(key) && had.Some? then has.Some? && Becomes(key, had.value, has.value, defs) else has == None
  {
    hide IsKeyword, Becomes;
    if n > 0 {
      OwnFields(v, n - 1, defs, key);
      var f := v.fields[n - 1];
      assert v.fields[..n][..n - 1] == v.fields[..n - 1];
      if IsKeyword(f.key) {
        var before := InlinedFields(v, n - 1, defs, {}).value;
        var now := InlinedFields(v, n, defs, {}).value;
        assert now[..|now| - 1] == before && now[|now| - 1].key == f.key;
        OneBecomes(f, now[|now| - 1].value, defs);
      }
    }
  }

  lemma OneBecomes(f: Field, to: Json, defs: Defs)
    requires Ok(to) == if IsSchemaMap(f.key) && f.value.Record? then InlinedMap(f.value, defs, {})
                       else Inlined(f.value, defs, {})
    ensures Becomes(f.key, f.value, to, defs)
  {
    if IsSchemaMap(f.key) && f.value.Record? { NamesBecome(f.value, |f.value.fields|, defs); }
  }

  /** What the definition a record refers to says under a keyword, inlined. */
  function FromTarget(v: Json, defs: Defs, key: Name): Option<Json> {
    if RefOf(v).None? || RefOf(v).value !in defs then None
    else match Inlined(defs[RefOf(v).value], defs, {})
      case Ok(Record(fields)) => Get(fields, key)
      case _ => None
  }

  /** Whether a `type` names `integer`, alone or in a list. */
  ghost predicate SaysInteger(v: Json)
    requires v.Record?
  {
    var typed := Get(v.fields, "type");
    typed.Some? && (typed.value == Text("integer") || (typed.value.List? && Text("integer") in typed.value.items))
  }

  lemma {:induction false} ItemsBecome(v: Json, n: nat, defs: Defs)
    requires v.List? && n <= |v.items| && InlinedItems(v, n, defs, {}).Ok?
    ensures var to := InlinedItems(v, n, defs, {}).value;
            |to| == n && forall i | 0 <= i < n :: Inlined(v.items[i], defs, {}) == Ok(to[i])
  {
    if n > 0 { ItemsBecome(v, n - 1, defs); }
  }

  lemma {:induction false} OthersStay(items: seq<Json>, x: Json)
    ensures x in WithoutInteger(items) <==> x in items && x != Text("integer")
  {
    if items != [] {
      OthersStay(items[..|items| - 1], x);
      assert items == items[..|items| - 1] + [items[|items| - 1]];
    }
  }

  /** What a record itself says under a keyword: its value inlined, or nothing. */
  ghost predicate IsOwn(v: Json, defs: Defs, key: Name, says: Option<Json>)
    requires v.Record?
  {
    if IsKeyword(key) && Get(v.fields, key).Some? then
      says.Some? && Becomes(key, Get(v.fields, key).value, says.value, defs)
    else says == None
  }

  /**
   The same where its `type` names `integer`, which MongoDB has not: no `type`, but under `bsonType` the three a
   whole number comes as and whatever else the type names, and a `multipleOf` of 1 unless it has one.
   */
  ghost predicate IsWhole(v: Json, defs: Defs, key: Name, says: Option<Json>)
    requires v.Record? && SaysInteger(v)
  {
    var typed := Get(v.fields, "type").value;
    if key == "type" then says == None
    else if key == "bsonType" then
      && says.Some? && says.value.List?
      && forall x :: x in says.value.items <==>
        || x == Text("int") || x == Text("long") || x == Text("double")
        || (x != Text("integer") && typed.List?
            && exists item | item in typed.items :: Inlined(item, defs, {}) == Ok(x))
    else if key == "multipleOf" && (Get(v.fields, key).None? || Get(v.fields, key) == Some(Null)) then
      says == Some(Number(1))
    else IsOwn(v, defs, key, says)
  }

  lemma TheThree()
    ensures IsKeyword("type") && IsKeyword("bsonType") && IsKeyword("multipleOf")
  {
  }

  /** A `type` becomes what it is inlined to. */
  lemma TypeIsInlined(from: Json, to: Json, defs: Defs)
    requires Becomes("type", from, to, defs) || Becomes("multipleOf", from, to, defs)
    ensures Inlined(from, defs, {}) == Ok(to)
  {
  }

  lemma ShapeStays(from: Json, to: Json, defs: Defs)
    requires Inlined(from, defs, {}) == Ok(to)
    ensures to.List? == from.List? && (!from.List? && !from.Record? ==> to == from)
    ensures (to == Text("integer") <==> from == Text("integer")) && (to == Null <==> from == Null)
    ensures from.List? ==>
              |to.items| == |from.items| && forall i | 0 <= i < |from.items| ::
                Inlined(from.items[i], defs, {}) == Ok(to.items[i])
  {
    if from.List? { ItemsBecome(from, |from.items|, defs); }
  }

  lemma ListBecomes(from: Json, to: Json, defs: Defs)
    requires Inlined(from, defs, {}) == Ok(to)
    ensures to.List? == from.List? && (HasInteger(to) <==> HasInteger(from))
    ensures from.List? ==> forall x :: x in to.items <==>
              exists item | item in from.items :: Inlined(item, defs, {}) == Ok(x)
  {
    hide Inlined;
    ShapeStays(from, to, defs);
    if from.List? {
      forall x | x in to.items
        ensures exists item | item in from.items :: Inlined(item, defs, {}) == Ok(x)
      {
        var i :| 0 <= i < |to.items| && to.items[i] == x;
        assert from.items[i] in from.items;
      }
      forall item, x | item in from.items && Inlined(item, defs, {}) == Ok(x) ensures x in to.items {
        var i :| 0 <= i < |from.items| && from.items[i] == item;
      }
      IntegerStays(from.items, to.items, defs);
    }
  }

  lemma IntegerStays(from: seq<Json>, to: seq<Json>, defs: Defs)
    requires |to| == |from| && forall i | 0 <= i < |from| :: Inlined(from[i], defs, {}) == Ok(to[i])
    ensures Text("integer") in to <==> Text("integer") in from
  {
    hide Inlined;
    forall i | 0 <= i < |from| ensures to[i] == Text("integer") <==> from[i] == Text("integer")
      { ShapeStays(from[i], to[i], defs); }
  }

  /** What `convertIntegerType` leaves under each keyword. */
  lemma ConvertedGets(own: seq<Field>, key: Name)
    requires Get(own, "type").Some? && HasInteger(Get(own, "type").value)
    ensures key == "type" ==> Get(Converted(own), key) == None
    ensures key == "bsonType" ==>
              var typed, has := Get(own, "type").value, Get(Converted(own), key);
              has == Some(List((if typed.List? then WithoutInteger(typed.items) else []) + IntegerTypes()))
    ensures key != "type" && key != "bsonType" ==>
              var has := Get(own, key);
              Get(Converted(own), key) ==
              if key == "multipleOf" && (has.None? || has == Some(Null)) then Some(Number(1)) else has
  {
    hide Get, Put, Delete;
    var typed := Get(own, "type").value;
    var bson := List((if typed.List? then WithoutInteger(typed.items) else []) + IntegerTypes());
    var without := Delete(own, "type");
    var with := Put(without, "bsonType", bson);
    GetOfDelete(own, "type", key);
    GetOfDelete(own, "type", "multipleOf");
    GetOfPut(without, "bsonType", bson, key);
    GetOfPut(without, "bsonType", bson, "multipleOf");
    GetOfPut(with, "multipleOf", Number(1), key);
  }

  lemma WholeSays(v: Json, own: seq<Field>, defs: Defs, key: Name)
    requires v.Record? && SaysInteger(v) && IsOwn(v, defs, key, Get(own, key))
    requires IsOwn(v, defs, "multipleOf", Get(own, "multipleOf"))
    requires var from := Get(v.fields, "type").value;
             && Get(own, "type").Some? && HasInteger(Get(own, "type").value)
             && var to := Get(own, "type").value;
             to.List? == from.List? && (from.List? ==> forall x :: x in to.items <==>
              exists item | item in from.items :: Inlined(item, defs, {}) == Ok(x))
    ensures IsWhole(v, defs, key, Get(Converted(own), key))
  {
    TheThree();
    hide IsKeyword, Inlined, Get, Becomes, Converted;
    ConvertedGets(own, key);
    if key == "bsonType" {
      var typed := Get(own, "type").value;
      var others := if typed.List? then WithoutInteger(typed.items) else [];
      forall x ensures x in others <==> typed.List? && x != Text("integer") && x in typed.items
        { if typed.List? { OthersStay(typed.items, x); } }
      assert forall x :: x in others + IntegerTypes() <==> x in others || x in IntegerTypes();
    } else if key == "multipleOf" && Get(v.fields, key).Some? {
      TypeIsInlined(Get(v.fields, key).value, Get(own, key).value, defs);
      ShapeStays(Get(v.fields, key).value, Get(own, key).value, defs);
    }
  }

  /** A record converted says, keyword by keyword, what it should. */
  lemma ConvertedSays(v: Json, defs: Defs, key: Name)
    requires v.Record? && Inlined(v, defs, {}).Ok?
    ensures var says := Get(Converted(InlinedFields(v, |v.fields|, defs, {}).value), key);
            if SaysInteger(v) then IsWhole(v, defs, key, says) else IsOwn(v, defs, key, says)
  {
    var own := InlinedFields(v, |v.fields|, defs, {}).value;
    TheThree();
    OwnFields(v, |v.fields|, defs, "type");
    OwnFields(v, |v.fields|, defs, "multipleOf");
    OwnFields(v, |v.fields|, defs, key);
    assert v.fields[..|v.fields|] == v.fields;
    hide IsKeyword, Inlined, InlinedFields, Get, Put, Delete, Becomes;
    if Get(v.fields, "type").Some? {
      var from, to := Get(v.fields, "type").value, Get(own, "type").value;
      TypeIsInlined(from, to, defs);
      ListBecomes(from, to, defs);
      if HasInteger(from) { WholeSays(v, own, defs, key); }
    }
  }

  /**
   Under each keyword, what is inlined says what the record itself says there, or, where that is nothing, what
   the definition it refers to does.
   */
  lemma SaysEach(v: Json, defs: Defs, key: Name) returns (says: Option<Json>)
    requires v.Record? && Inlined(v, defs, {}).Ok?
    ensures if SaysInteger(v) then IsWhole(v, defs, key, says) else IsOwn(v, defs, key, says)
    ensures var r := Inlined(v, defs, {}).value;
            r.Record? && Get(r.fields, key) == if says.Some? then says else FromTarget(v, defs, key)
  {
    ConvertedSays(v, defs, key);
    var own := Converted(InlinedFields(v, |v.fields|, defs, {}).value);
    says := Get(own, key);
    if RefOf(v).Some? {
      var name := RefOf(v).value;
      StackOnlyRefuses(defs[name], defs, {}, {} + {name});
      var target := Inlined(defs[name], defs, {}).value;
      KeepsItsShape(defs[name], defs, {});
      GetOfMerged(target.fields, own, key);
    }
  }
}
