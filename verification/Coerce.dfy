/**
 Strings turned into the ids and dates a collection stores: packages/mongo/src/collection/coerce.ts.
 */
module Coerce {
  // In filters, documents and patches. A plain object is its fields in order, each key once. What
  // reads a string as an id or as a date is a parameter. The prototype an object may be given is not
  // kept, only that its key is gone.

  import opened Wrappers

  type Text = string

  datatype BsonKind = ObjectIdKind | DateKind

  type FieldKinds = map<Text, BsonKind>

  /** A value as a caller writes one; `Instance` is whatever is neither a literal, a string nor a list. */
  datatype Value =
    | Str(s: Text)
    | ObjectId(hex: Text)
    | Date(ms: int)
    | Instance(n: int)
    | List(items: seq<Value>)
    | Plain(fields: seq<Field>)

  datatype Field = Field(key: Text, value: Value)

  type Fields = seq<Field>

  /** `HEX_24` and `ISO_DATE`, with the calendar: whether a string is an id, and the date it is. */
  datatype Readers = Readers(isId: Text -> bool, date: Text -> Option<int>)

  /** `coerceValue`. */
  function CoerceValue(r: Readers, kind: BsonKind, v: Value): Value {
    match v
    case List(items) => List(seq(|items|, i requires 0 <= i < |items| => CoerceValue(r, kind, items[i])))
    case Str(s) =>
      if kind.ObjectIdKind? then if r.isId(s) then ObjectId(s) else v
      else if r.date(s).Some? then Date(r.date(s).value)
      else v
    case _ => v
  }

  /** The names a plain object answers to without having them: what `Object.prototype` holds. */
  predicate IsInherited(key: Text) {
    key in {"constructor", "hasOwnProperty", "isPrototypeOf", "propertyIsEnumerable", "toLocaleString", "toString",
            "valueOf", "__defineGetter__", "__defineSetter__", "__lookupGetter__", "__lookupSetter__", PROTO}
  }

  const PROTO: Text := "__proto__"

  /** `out[key] = value`: a field of its own, unless the name is the one that sets a prototype. */
  function Assigned(out: Fields, f: Field): Fields {
    if f.key == PROTO then out else out + [f]
  }

  predicate NoProto(fields: Fields) {
    forall i | 0 <= i < |fields| :: fields[i].key != PROTO
  }

  /** The fields a new object has after each was assigned. */
  function Own(fields: Fields): (own: Fields)
    ensures |own| <= |fields| && (|own| == |fields| <==> NoProto(fields)) && (NoProto(fields) ==> own == fields)
    ensures forall i | 0 <= i < |own| :: own[i].key != PROTO && own[i] in fields
  {
    if fields == [] then []
    else
      assert fields == fields[..|fields| - 1] + [fields[|fields| - 1]];
      Assigned(Own(fields[..|fields| - 1]), fields[|fields| - 1])
  }

  /**
   `kinds[key]`: the field's kind, and for a name every object inherits something that is not
   `undefined` and not `'objectId'` either, so that its values are read as dates.
   */
  function KindOf(kinds: FieldKinds, key: Text): Option<BsonKind> {
    if key in kinds then Some(kinds[key]) else if IsInherited(key) then Some(DateKind) else None
  }

  predicate IsValueOperator(key: Text) {
    key in {"$eq", "$ne", "$gt", "$gte", "$lt", "$lte", "$in", "$nin", "$all", "$each"}
  }

  predicate IsFilterOperator(key: Text) {
    key in {"$and", "$or", "$nor"}
  }

  /** `kindsUnder`: by the rest of its path, the kind of each field whose path begins with this one. */
  function KindsUnder(kinds: FieldKinds, path: Text): Option<FieldKinds> {
    var prefix := path + ".";
    var under := map rest | rest in (set k | k in kinds && prefix <= k :: k[|prefix|..]) && prefix + rest in kinds ::
      kinds[prefix + rest];
    if under == map[] then None else Some(under)
  }

  /** `coerceFilter`. */
  function CoerceFilter(r: Readers, kinds: FieldKinds, filter: Fields): Fields
    decreases filter, 2
  {
    Own(EachCondition(r, kinds, filter))
  }

  function EachCondition(r: Readers, kinds: FieldKinds, filter: Fields): (out: Fields)
    ensures |out| == |filter|
    decreases filter, 1
  {
    seq(|filter|, i requires 0 <= i < |filter| => Field(filter[i].key,
      CoerceCondition(r, kinds, filter[i].key, filter[i].value)))
  }

  /** One key of a filter. */
  function CoerceCondition(r: Readers, kinds: FieldKinds, key: Text, value: Value): Value
    decreases value
  {
    if IsFilterOperator(key) && value.List? then List(CoerceFilters(r, kinds, value.items))
    else if key == "$not" && value.Plain? then Plain(CoerceFilter(r, kinds, value.fields))
    else if KindOf(kinds, key).None? then if value.Plain? then Plain(ElemMatched(r, kinds, key, value.fields))
      else value
    else if value.Plain? then Plain(CoerceOperators(r, KindOf(kinds, key).value, value.fields))
    else CoerceValue(r, KindOf(kinds, key).value, value)
  }

  function CoerceFilters(r: Readers, kinds: FieldKinds, items: seq<Value>): (out: seq<Value>)
    ensures |out| == |items|
    decreases items
  {
    seq(|items|, i requires 0 <= i < |items| =>
      if items[i].Plain? then Plain(CoerceFilter(r, kinds, items[i].fields)) else items[i])
  }

  /** `elemMatched`: what is under `$elemMatch`, filtered with the kinds inside the field. */
  function ElemMatched(r: Readers, kinds: FieldKinds, path: Text, value: Fields): (out: Fields)
    ensures |out| == |value|
    decreases value, 3
  {
    var under := KindsUnder(kinds, path);
    seq(|value|, i requires 0 <= i < |value| =>
      if under.Some? && value[i].key == "$elemMatch" && value[i].value.Plain?
      then Field(value[i].key, Plain(CoerceFilter(r, under.value, value[i].value.fields)))
      else value[i])
  }

  /** `coerceOperators`. */
  function CoerceOperators(r: Readers, kind: BsonKind, operators: Fields): Fields
    decreases operators, 1
  {
    Own(EachOperator(r, kind, operators))
  }

  function EachOperator(r: Readers, kind: BsonKind, operators: Fields): (out: Fields)
    ensures |out| == |operators|
    decreases operators, 0
  {
    seq(|operators|, i requires 0 <= i < |operators| =>
      Field(operators[i].key, CoerceOperator(r, kind, operators[i].key, operators[i].value)))
  }

  function CoerceOperator(r: Readers, kind: BsonKind, key: Text, value: Value): Value
    decreases value, 2
  {
    if key == "$not" && value.Plain? then Plain(CoerceOperators(r, kind, value.fields))
    else if IsValueOperator(key) then CoerceValue(r, kind, value)
    else value
  }

  /** `coerceFields`. */
  function CoerceFields(r: Readers, kinds: FieldKinds, values: Fields): Fields
    decreases values, 2
  {
    Own(EachField(r, kinds, values))
  }

  function EachField(r: Readers, kinds: FieldKinds, values: Fields): (out: Fields)
    ensures |out| == |values|
    decreases values, 1
  {
    seq(|values|, i requires 0 <= i < |values| => Field(values[i].key,
      CoerceField(r, kinds, values[i].key, values[i].value)))
  }

  predicate StartsWithDollar(key: Text) {
    key != [] && key[0] == '$'
  }

  function CoerceField(r: Readers, kinds: FieldKinds, key: Text, value: Value): Value
    decreases value, 1
  {
    if StartsWithDollar(key) && value.Plain? then Plain(CoerceFields(r, kinds, value.fields))
    else if KindOf(kinds, key).None? then CoerceNested(r, kinds, key, value)
    else if value.Plain? then Plain(CoerceOperators(r, KindOf(kinds, key).value, value.fields))
    else CoerceValue(r, KindOf(kinds, key).value, value)
  }

  /** `coerceNested`. */
  function CoerceNested(r: Readers, kinds: FieldKinds, path: Text, value: Value): Value
    decreases value, 0
  {
    match value
    case List(items) => List(seq(|items|, i requires 0 <= i < |items| => CoerceNested(r, kinds, path, items[i])))
    case Plain(fields) =>
      var under := KindsUnder(kinds, path);
      if under.Some? then Plain(CoerceFields(r, under.value, fields)) else value
    case _ => value
  }

  // ----- the loops

  /** `kindsUnder`: every kind looked at once. */
  method UnderOf(kinds: FieldKinds, path: Text) returns (under: Option<FieldKinds>)
    ensures under == KindsUnder(kinds, path)
  {
    var found: FieldKinds := map[];
    var prefix := path + ".";
    var left := kinds.Keys;
    while left != {}
      invariant left <= kinds.Keys
      invariant forall rest :: rest in found <==> prefix + rest in kinds.Keys - left
      invariant forall rest | rest in found :: prefix + rest in kinds && found[rest] == kinds[prefix + rest]
      decreases |left|
    {
      var key :| key in left;
      left := left - {key};
      if prefix <= key {
        assert key == prefix + key[|prefix|..];
        forall rest ensures prefix + rest == key <==> rest == key[|prefix|..]
          { SameRest(prefix, rest, key[|prefix|..]); }
        found := found[key[|prefix|..] := kinds[key]];
      } else {
        forall rest ensures prefix + rest != key { assert prefix <= prefix + rest; }
      }
    }
    UnderIs(kinds, path, found);
    under := if found == map[] then None else Some(found);
  }

  lemma SameRest(prefix: Text, a: Text, b: Text)
    ensures prefix + a == prefix + b <==> a == b
  {
    assert (prefix + a)[|prefix|..] == a && (prefix + b)[|prefix|..] == b;
  }

  /** The kinds under a path are those whose paths continue it, whole. */
  lemma UnderIs(kinds: FieldKinds, path: Text, found: FieldKinds)
    requires forall rest :: rest in found <==> path + "." + rest in kinds
    requires forall rest | rest in found :: found[rest] == kinds[path + "." + rest]
    ensures KindsUnder(kinds, path) == if found == map[] then None else Some(found)
  {
    var prefix := path + ".";
    var under := map rest | rest in (set k | k in kinds && prefix <= k :: k[|prefix|..]) && prefix + rest in kinds ::
      kinds[prefix + rest];
    forall rest ensures rest in under <==> rest in found {
      if rest in found {
        var k := prefix + rest;
        assert k in kinds && prefix <= k && k[|prefix|..] == rest;
      }
    }
    assert under == found;
  }

  lemma OwnMore(fields: Fields, i: nat)
    requires i < |fields|
    ensures Own(fields[..i + 1]) == Assigned(Own(fields[..i]), fields[i])
  {
    assert fields[..i + 1][..i] == fields[..i];
  }

  lemma Begins(fields: Fields)
    ensures Own(fields[..0]) == [] && fields[..|fields|] == fields
  {
  }

  lemma ConditionAt(r: Readers, kinds: FieldKinds, filter: Fields, i: nat)
    requires i < |filter|
    ensures var f := filter[i];
            EachCondition(r, kinds, filter)[i] == Field(f.key, CoerceCondition(r, kinds, f.key, f.value))
  {
    hide CoerceCondition;
  }

  lemma FieldAt(r: Readers, kinds: FieldKinds, values: Fields, i: nat)
    requires i < |values|
    ensures var f := values[i]; EachField(r, kinds, values)[i] == Field(f.key, CoerceField(r, kinds, f.key, f.value))
  {
    hide CoerceField;
  }

  /** `coerceFilter` as it runs: one local record filled key after key. */
  method FilterOf(r: Readers, kinds: FieldKinds, filter: Fields) returns (out: Fields)
    ensures out == CoerceFilter(r, kinds, filter)
    decreases filter, 1
  {
    out := [];
    ghost var each := EachCondition(r, kinds, filter);
    Begins(each);
    hide EachCondition, Own, CoerceOperators, CoerceValue, CoerceFilters, ElemMatched;
    for i := 0 to |filter|
      invariant out == Own(each[..i])
    {
      OwnMore(each, i);
      ConditionAt(r, kinds, filter, i);
      var key, value := filter[i].key, filter[i].value;
      if IsFilterOperator(key) && value.List? {
        out := Assigned(out, Field(key, List(CoerceFilters(r, kinds, value.items))));
        continue;
      }
      if key == "$not" && value.Plain? {
        var inner := FilterOf(r, kinds, value.fields);
        out := Assigned(out, Field(key, Plain(inner)));
        continue;
      }
      var kind := KindOf(kinds, key);
      if kind.None? {
        out := Assigned(out, Field(key, if value.Plain? then Plain(ElemMatched(r, kinds, key, value.fields))
          else value));
        continue;
      }
      out := Assigned(out, Field(key, if value.Plain? then Plain(CoerceOperators(r, kind.value, value.fields))
        else CoerceValue(r, kind.value, value)));
    }
  }

  /** `coerceFields` as it runs. */
  method FieldsOf(r: Readers, kinds: FieldKinds, values: Fields) returns (out: Fields)
    ensures out == CoerceFields(r, kinds, values)
    decreases values, 1
  {
    out := [];
    ghost var each := EachField(r, kinds, values);
    Begins(each);
    hide EachField, Own, CoerceOperators, CoerceValue, CoerceNested;
    for i := 0 to |values|
      invariant out == Own(each[..i])
    {
      OwnMore(each, i);
      FieldAt(r, kinds, values, i);
      var key, value := values[i].key, values[i].value;
      if StartsWithDollar(key) && value.Plain? {
        var inner := FieldsOf(r, kinds, value.fields);
        out := Assigned(out, Field(key, Plain(inner)));
        continue;
      }
      var kind := KindOf(kinds, key);
      if kind.None? {
        out := Assigned(out, Field(key, CoerceNested(r, kinds, key, value)));
        continue;
      }
      out := Assigned(out, Field(key, if value.Plain? then Plain(CoerceOperators(r, kind.value, value.fields))
        else CoerceValue(r, kind.value, value)));
    }
  }

  // ----- twice is once

  lemma {:induction false} ValueTwice(r: Readers, kind: BsonKind, v: Value)
    ensures CoerceValue(r, kind, CoerceValue(r, kind, v)) == CoerceValue(r, kind, v)
    ensures !v.Plain? ==> !CoerceValue(r, kind, v).Plain?
  {
    if v.List? {
      var once := CoerceValue(r, kind, v);
      forall i | 0 <= i < |v.items| ensures CoerceValue(r, kind, once.items[i]) == once.items[i]
        { ValueTwice(r, kind, v.items[i]); }
      assert CoerceValue(r, kind, once).items == once.items;
    }
  }

  lemma {:induction false} OperatorsTwice(r: Readers, kind: BsonKind, operators: Fields)
    ensures var once := CoerceOperators(r, kind, operators); CoerceOperators(r, kind, once) == once
    decreases operators, 1
  {
    var once, each := CoerceOperators(r, kind, operators), EachOperator(r, kind, operators);
    forall j | 0 <= j < |once| ensures EachOperator(r, kind, once)[j] == once[j] {
      var i :| 0 <= i < |each| && each[i] == once[j];
      OperatorTwice(r, kind, operators[i].key, operators[i].value);
    }
    assert EachOperator(r, kind, once) == once;
  }

  lemma {:induction false} OperatorTwice(r: Readers, kind: BsonKind, key: Text, value: Value)
    ensures var once := CoerceOperator(r, kind, key, value); CoerceOperator(r, kind, key, once) == once
    decreases value, 1
  {
    if key == "$not" && value.Plain? {
      OperatorsTwice(r, kind, value.fields);
    } else if IsValueOperator(key) {
      ValueTwice(r, kind, value);
    }
  }

  /** A filter coerced is coerced: through `$and`, `$or`, `$nor`, `$not`, `$elemMatch` and every operator. */
  lemma {:induction false} FilterTwice(r: Readers, kinds: FieldKinds, filter: Fields)
    ensures var once := CoerceFilter(r, kinds, filter); CoerceFilter(r, kinds, once) == once
    decreases filter, 2
  {
    var once, each := CoerceFilter(r, kinds, filter), EachCondition(r, kinds, filter);
    forall j | 0 <= j < |once| ensures EachCondition(r, kinds, once)[j] == once[j] {
      var i :| 0 <= i < |each| && each[i] == once[j];
      ConditionTwice(r, kinds, filter[i].key, filter[i].value);
    }
    assert EachCondition(r, kinds, once) == once;
  }

  lemma {:induction false} ConditionTwice(r: Readers, kinds: FieldKinds, key: Text, value: Value)
    ensures var once := CoerceCondition(r, kinds, key, value); CoerceCondition(r, kinds, key, once) == once
    decreases value
  {
    if IsFilterOperator(key) && value.List? {
      FiltersTwice(r, kinds, value.items);
    } else if key == "$not" && value.Plain? {
      FilterTwice(r, kinds, value.fields);
    } else if KindOf(kinds, key).None? {
      if value.Plain? { ElemTwice(r, kinds, key, value.fields); }
    } else if value.Plain? {
      OperatorsTwice(r, KindOf(kinds, key).value, value.fields);
    } else {
      ValueTwice(r, KindOf(kinds, key).value, value);
      assert IsFilterOperator(key) ==> !CoerceValue(r, KindOf(kinds, key).value, value).List?;
    }
  }

  lemma {:induction false} FiltersTwice(r: Readers, kinds: FieldKinds, items: seq<Value>)
    ensures var once := CoerceFilters(r, kinds, items); CoerceFilters(r, kinds, once) == once
    decreases items
  {
    var once := CoerceFilters(r, kinds, items);
    forall i | 0 <= i < |items| ensures CoerceFilters(r, kinds, once)[i] == once[i] {
      if items[i].Plain? { FilterTwice(r, kinds, items[i].fields); }
    }
    assert CoerceFilters(r, kinds, once) == once;
  }

  lemma {:induction false} ElemTwice(r: Readers, kinds: FieldKinds, path: Text, value: Fields)
    ensures var once := ElemMatched(r, kinds, path, value); ElemMatched(r, kinds, path, once) == once
    decreases value, 3
  {
    var once, under := ElemMatched(r, kinds, path, value), KindsUnder(kinds, path);
    forall i | 0 <= i < |value| ensures ElemMatched(r, kinds, path, once)[i] == once[i] {
      if under.Some? && value[i].key == "$elemMatch" && value[i].value.Plain? {
        FilterTwice(r, under.value, value[i].value.fields);
      }
    }
    assert ElemMatched(r, kinds, path, once) == once;
  }

  /** A document or a patch coerced is coerced: through operator patches, nested objects and lists. */
  lemma {:induction false} FieldsTwice(r: Readers, kinds: FieldKinds, values: Fields)
    ensures var once := CoerceFields(r, kinds, values); CoerceFields(r, kinds, once) == once
    decreases values, 2
  {
    var once, each := CoerceFields(r, kinds, values), EachField(r, kinds, values);
    forall j | 0 <= j < |once| ensures EachField(r, kinds, once)[j] == once[j] {
      var i :| 0 <= i < |each| && each[i] == once[j];
      FieldTwice(r, kinds, values[i].key, values[i].value);
    }
    assert EachField(r, kinds, once) == once;
  }

  lemma {:induction false} FieldTwice(r: Readers, kinds: FieldKinds, key: Text, value: Value)
    ensures var once := CoerceField(r, kinds, key, value); CoerceField(r, kinds, key, once) == once
    decreases value, 1
  {
    if StartsWithDollar(key) && value.Plain? {
      FieldsTwice(r, kinds, value.fields);
    } else if KindOf(kinds, key).None? {
      NestedTwice(r, kinds, key, value);
    } else if value.Plain? {
      OperatorsTwice(r, KindOf(kinds, key).value, value.fields);
    } else {
      ValueTwice(r, KindOf(kinds, key).value, value);
    }
  }

  lemma {:induction false} NestedTwice(r: Readers, kinds: FieldKinds, path: Text, value: Value)
    ensures var once := CoerceNested(r, kinds, path, value);
            CoerceNested(r, kinds, path, once) == once && once.Plain? == value.Plain?
    decreases value, 0
  {
    match value
    case List(items) =>
      var once := CoerceNested(r, kinds, path, value);
      forall i | 0 <= i < |items| ensures CoerceNested(r, kinds, path, once.items[i]) == once.items[i]
        { NestedTwice(r, kinds, path, items[i]); }
      assert CoerceNested(r, kinds, path, once).items == once.items;
    case Plain(fields) =>
      if KindsUnder(kinds, path).Some? { FieldsTwice(r, KindsUnder(kinds, path).value, fields); }
    case _ =>
  }

  // ----- relative kinds

  /** A field under a path has, there, the kind its whole path has. */
  lemma KindUnder(kinds: FieldKinds, path: Text, rest: Text)
    ensures KindsUnder(kinds, path).None? ==> path + "." + rest !in kinds
    ensures KindsUnder(kinds, path).Some? ==>
              var under := KindsUnder(kinds, path).value;
              (rest in under <==> path + "." + rest in kinds)
                && (rest in under ==> under[rest] == kinds[path + "." + rest])
  {
    var prefix := path + ".";
    var whole := prefix + rest;
    if whole in kinds {
      assert prefix <= whole && whole[|prefix|..] == rest;
      var under := map rest | rest in (set k | k in kinds && prefix <= k :: k[|prefix|..]) && prefix + rest in kinds ::
        kinds[prefix + rest];
      assert rest in under;
    }
  }

  /** `{ a: { $elemMatch: { b: … } } }` reads `b` as `{ 'a.b': … }` does. */
  lemma ElemMatchReadsTheSame(r: Readers, kinds: FieldKinds, a: Text, b: Text, v: Value)
    requires a + "." + b in kinds && KindOf(kinds, a).None? && !IsFilterOperator(a) && a != "$not"
    requires !IsFilterOperator(b) && b != "$not" && !IsFilterOperator(a + "." + b) && a + "." + b != "$not"
    ensures var whole := CoerceCondition(r, kinds, a + "." + b, v);
            (CoerceCondition(r, kinds, a, Plain([Field("$elemMatch", Plain([Field(b, v)]))]))
             == Plain([Field("$elemMatch", Plain([Field(b, whole)]))]))
            <==> b != PROTO
  {
    KindUnder(kinds, a, b);
    var under := KindsUnder(kinds, a).value;
    OneRead(r, kinds, a + "." + b, under, b, v);
    var inner := [Field("$elemMatch", Plain([Field(b, v)]))];
    var out := [Field("$elemMatch", Plain(CoerceFilter(r, under, [Field(b, v)])))];
    assert ElemMatched(r, kinds, a, inner) == out;
    hide *;
    assert forall f :: out == [Field("$elemMatch", Plain(f))] <==> out[0].value.fields == f;
  }

  lemma OneRead(r: Readers, kinds: FieldKinds, whole: Text, under: FieldKinds, b: Text, v: Value)
    requires whole in kinds && b in under && kinds[whole] == under[b]
    requires !IsFilterOperator(b) && b != "$not" && !IsFilterOperator(whole) && whole != "$not"
    ensures CoerceFilter(r, under, [Field(b, v)]) == [Field(b, CoerceCondition(r, kinds, whole, v))] <==> b != PROTO
  {
    var read := Field(b, CoerceCondition(r, kinds, whole, v));
    ConditionAt(r, under, [Field(b, v)], 0);
    assert EachCondition(r, under, [Field(b, v)]) == [read];
    assert NoProto([read]) <==> b != PROTO;
  }

  // ----- what has no kind

  /** No string in a value, through lists, reads as a date. */
  predicate DateFree(r: Readers, v: Value) {
    match v
    case List(items) => forall i | 0 <= i < |items| :: DateFree(r, items[i])
    case Str(s) => r.date(s).None?
    case _ => true
  }

  lemma {:induction false} DateKeeps(r: Readers, v: Value)
    ensures CoerceValue(r, DateKind, v) == v <==> DateFree(r, v)
  {
    if v.List? {
      var once := CoerceValue(r, DateKind, v);
      forall i | 0 <= i < |v.items| ensures once.items[i] == v.items[i]
        <==> DateFree(r, v.items[i]) { DateKeeps(r, v.items[i]); }
      assert once == v <==> once.items == v.items;
    }
  }

  lemma {:induction false} NestedKeeps(r: Readers, kinds: FieldKinds, path: Text, value: Value)
    requires KindsUnder(kinds, path).None?
    ensures CoerceNested(r, kinds, path, value) == value
  {
    if value.List? {
      forall i | 0 <= i < |value.items| ensures CoerceNested(r, kinds, path, value.items[i]) == value.items[i] {
        NestedKeeps(r, kinds, path, value.items[i]);
      }
      assert CoerceNested(r, kinds, path, value).items == value.items;
    }
  }

  /**
   An operator bag is rebuilt as it was: no operand of a value operator would be read as a date,
   through `$not`, and no key sets a prototype.
   */
  predicate OpsDateFree(r: Readers, under: FieldKinds, operators: Fields)
    decreases operators, 1
  {
    NoProto(operators) && forall i | 0 <= i < |operators| ::
      OpDateFree(r, under, operators[i].key, operators[i].value)
  }

  predicate OpDateFree(r: Readers, under: FieldKinds, key: Text, value: Value)
    decreases value, 2
  {
    if key == "$not" && value.Plain? then OpsDateFree(r, under, value.fields)
    else IsValueOperator(key) && key !in under ==> DateFree(r, value)
  }

  function Under(kinds: FieldKinds, path: Text): FieldKinds {
    if KindsUnder(kinds, path).Some? then KindsUnder(kinds, path).value else map[]
  }

  /** From `values` to `out` nothing changed but under a field that has a kind. */
  predicate Leaves(kinds: FieldKinds, values: Fields, out: Fields)
    decreases values, 1
  {
    |out| == |values| && forall i | 0 <= i < |values| ::
      out[i].key == values[i].key && LeavesField(kinds, values[i].key, values[i].value, out[i].value)
  }

  predicate LeavesField(kinds: FieldKinds, key: Text, value: Value, out: Value)
    decreases value, 1
  {
    if StartsWithDollar(key) && value.Plain? then out.Plain? && Leaves(kinds, value.fields, out.fields)
    else key in kinds || LeavesNested(kinds, key, value, out)
  }

  predicate LeavesNested(kinds: FieldKinds, path: Text, value: Value, out: Value)
    decreases value, 0
  {
    match value
    case List(items) =>
      out.List? && |out.items| == |items| && forall i | 0 <= i < |items| ::
        LeavesNested(kinds, path, items[i], out.items[i])
    case Plain(fields) => out.Plain? && Leaves(Under(kinds, path), fields, out.fields)
    case _ => out == value
  }

  /**
   No date written as a string stands where no kind is declared and the name is one every object
   inherits, and no object that is rebuilt there has a key that sets a prototype.
   */
  predicate Clear(r: Readers, kinds: FieldKinds, values: Fields)
    decreases values, 1
  {
    NoProto(values) && forall i | 0 <= i < |values| :: ClearField(r, kinds, values[i].key, values[i].value)
  }

  predicate ClearField(r: Readers, kinds: FieldKinds, key: Text, value: Value)
    decreases value, 1
  {
    if StartsWithDollar(key) && value.Plain? then Clear(r, kinds, value.fields)
    else if key in kinds then true
    else if !IsInherited(key) then ClearNested(r, kinds, key, value)
    else if value.Plain? then OpsDateFree(r, Under(kinds, key), value.fields)
    else DateFree(r, value)
  }

  predicate ClearNested(r: Readers, kinds: FieldKinds, path: Text, value: Value)
    decreases value, 0
  {
    match value
    case List(items) => forall i | 0 <= i < |items| :: ClearNested(r, kinds, path, items[i])
    case Plain(fields) => KindsUnder(kinds, path).Some? ==> Clear(r, KindsUnder(kinds, path).value, fields)
    case _ => true
  }

  lemma {:induction false} LeavesItself(kinds: FieldKinds, values: Fields)
    ensures Leaves(kinds, values, values)
    decreases values, 1
  {
    forall i | 0 <= i < |values| ensures LeavesField(kinds, values[i].key, values[i].value, values[i].value) {
      if StartsWithDollar(values[i].key) && values[i].value.Plain? {
        LeavesItself(kinds, values[i].value.fields);
      } else {
        NestedLeavesItself(kinds, values[i].key, values[i].value);
      }
    }
  }

  lemma {:induction false} NestedLeavesItself(kinds: FieldKinds, path: Text, value: Value)
    ensures LeavesNested(kinds, path, value, value)
    decreases value, 0
  {
    match value
    case List(items) =>
      forall i | 0 <= i < |items| ensures LeavesNested(kinds, path, items[i], items[i])
        { NestedLeavesItself(kinds, path, items[i]); }
    case Plain(fields) => LeavesItself(Under(kinds, path), fields);
    case _ =>
  }

  /** With no kinds, leaving what has none is leaving everything. */
  lemma {:induction false} LeavesAll(values: Fields, out: Fields)
    ensures Leaves(map[], values, out) <==> out == values
    decreases values, 1
  {
    LeavesItself(map[], values);
    if Leaves(map[], values, out) {
      forall i | 0 <= i < |values| ensures out[i] == values[i] {
        assert LeavesField(map[], values[i].key, values[i].value, out[i].value);
        if StartsWithDollar(values[i].key) && values[i].value.Plain? {
          LeavesAll(values[i].value.fields, out[i].value.fields);
        } else {
          NestedLeavesAll(values[i].key, values[i].value, out[i].value);
        }
      }
      assert out == values;
    }
  }

  lemma {:induction false} NestedLeavesAll(path: Text, value: Value, out: Value)
    requires LeavesNested(map[], path, value, out)
    ensures out == value
    decreases value, 0
  {
    match value
    case List(items) =>
      forall i | 0 <= i < |items| ensures out.items[i] == items[i] { NestedLeavesAll(path, items[i], out.items[i]); }
      assert out.items == items;
    case Plain(fields) =>
      NoneUnder(path);
      LeavesAll(fields, out.fields);
    case _ =>
  }

  lemma NoneUnder(path: Text)
    ensures KindsUnder(map[], path).None?
  {
    UnderIs(map[], path, map[]);
  }

  /** A value read as a date is left alone exactly when it holds none. */
  lemma {:induction false} DateLeaves(r: Readers, kinds: FieldKinds, path: Text, value: Value)
    requires !value.Plain?
    ensures LeavesNested(kinds, path, value, CoerceValue(r, DateKind, value)) <==> DateFree(r, value)
    decreases value
  {
    if value.List? {
      var out := CoerceValue(r, DateKind, value);
      forall i | 0 <= i < |value.items|
        ensures LeavesNested(kinds, path, value.items[i], out.items[i]) <==> DateFree(r, value.items[i])
      {
        assert out.items[i] == CoerceValue(r, DateKind, value.items[i]);
        if value.items[i].Plain? { NestedLeavesItself(kinds, path, value.items[i]); } else
          { DateLeaves(r, kinds, path, value.items[i]); }
      }
    }
  }

  lemma {:induction false} OpsLeave(r: Readers, under: FieldKinds, operators: Fields)
    ensures Leaves(under, operators, CoerceOperators(r, DateKind, operators)) <==> OpsDateFree(r, under, operators)
    decreases operators, 1
  {
    var out := EachOperator(r, DateKind, operators);
    assert NoProto(out) <==> NoProto(operators) by {
      assert forall i | 0 <= i < |operators| :: out[i].key == operators[i].key;
    }
    forall i | 0 <= i < |operators|
      ensures LeavesField(under, operators[i].key, operators[i].value, out[i].value)
              <==> OpDateFree(r, under, operators[i].key, operators[i].value)
    {
      OpLeaves(r, under, operators[i].key, operators[i].value);
    }
  }

  lemma {:induction false} OpLeaves(r: Readers, under: FieldKinds, key: Text, value: Value)
    ensures LeavesField(under, key, value, CoerceOperator(r, DateKind, key, value))
            <==> OpDateFree(r, under, key, value)
    decreases value, 1
  {
    if key == "$not" && value.Plain? {
      OpsLeave(r, under, value.fields);
    } else if IsValueOperator(key) && !value.Plain? {
      DateLeaves(r, under, key, value);
    } else {
      assert CoerceOperator(r, DateKind, key, value) == value;
      if StartsWithDollar(key) && value.Plain? { LeavesItself(under, value.fields); }
      else { NestedLeavesItself(under, key, value); }
    }
  }

  /**
   A document or a patch comes back unchanged wherever no kind is declared, at every depth, exactly
   when no date written as a string stands under a name every object inherits, and no object that is
   rebuilt has a key that sets a prototype.
   */
  lemma {:induction false} FieldsExactly(r: Readers, kinds: FieldKinds, values: Fields)
    ensures Leaves(kinds, values, CoerceFields(r, kinds, values)) <==> Clear(r, kinds, values)
    decreases values, 1
  {
    var out := EachField(r, kinds, values);
    assert NoProto(out) <==> NoProto(values) by {
      assert forall i | 0 <= i < |values| :: out[i].key == values[i].key;
    }
    forall i | 0 <= i < |values|
      ensures LeavesField(kinds, values[i].key, values[i].value, out[i].value)
              <==> ClearField(r, kinds, values[i].key, values[i].value)
    {
      FieldExactly(r, kinds, values[i].key, values[i].value);
    }
  }

  lemma {:induction false} FieldExactly(r: Readers, kinds: FieldKinds, key: Text, value: Value)
    ensures LeavesField(kinds, key, value, CoerceField(r, kinds, key, value)) <==> ClearField(r, kinds, key, value)
    decreases value, 1
  {
    if StartsWithDollar(key) && value.Plain? {
      FieldsExactly(r, kinds, value.fields);
    } else if key !in kinds {
      if !IsInherited(key) {
        NestedExactly(r, kinds, key, value);
      } else if value.Plain? {
        OpsLeave(r, Under(kinds, key), value.fields);
      } else {
        DateLeaves(r, kinds, key, value);
      }
    }
  }

  lemma {:induction false} NestedExactly(r: Readers, kinds: FieldKinds, path: Text, value: Value)
    ensures LeavesNested(kinds, path, value, CoerceNested(r, kinds, path, value))
            <==> ClearNested(r, kinds, path, value)
    decreases value, 0
  {
    match value
    case List(items) =>
      var out := CoerceNested(r, kinds, path, value);
      forall i | 0 <= i < |items|
        ensures LeavesNested(kinds, path, items[i], out.items[i]) <==> ClearNested(r, kinds, path, items[i])
      {
        NestedExactly(r, kinds, path, items[i]);
      }
    case Plain(fields) =>
      if KindsUnder(kinds, path).Some? {
        FieldsExactly(r, KindsUnder(kinds, path).value, fields);
      } else {
        LeavesItself(map[], fields);
      }
    case _ =>
  }

  // ----- the same of a filter

  /** From a filter to `out` nothing changed but under a field that has a kind. */
  predicate LeavesFilter(kinds: FieldKinds, filter: Fields, out: Fields)
    decreases filter, 1
  {
    |out| == |filter| && forall i | 0 <= i < |filter| ::
      out[i].key == filter[i].key && LeavesCondition(kinds, filter[i].key, filter[i].value, out[i].value)
  }

  predicate LeavesCondition(kinds: FieldKinds, key: Text, value: Value, out: Value)
    decreases value
  {
    if IsFilterOperator(key) && value.List? then
      && out.List? && |out.items| == |value.items|
      && forall i | 0 <= i < |value.items| ::
           if value.items[i].Plain? then out.items[i].Plain?
             && LeavesFilter(kinds, value.items[i].fields, out.items[i].fields)
           else out.items[i] == value.items[i]
    else if key == "$not" && value.Plain? then out.Plain? && LeavesFilter(kinds, value.fields, out.fields)
    else if key in kinds then true
    else if value.Plain? then out.Plain? && LeavesElem(kinds, key, value.fields, out.fields)
    else out == value
  }

  predicate LeavesElem(kinds: FieldKinds, path: Text, value: Fields, out: Fields)
    decreases value, 1
  {
    |out| == |value| && forall i | 0 <= i < |value| ::
      if KindsUnder(kinds, path).Some? && value[i].key == "$elemMatch" && value[i].value.Plain?
      then out[i].key == value[i].key && out[i].value.Plain?
           && LeavesFilter(KindsUnder(kinds, path).value, value[i].value.fields, out[i].value.fields)
      else out[i] == value[i]
  }

  predicate ClearFilter(r: Readers, kinds: FieldKinds, filter: Fields)
    decreases filter, 1
  {
    NoProto(filter) && forall i | 0 <= i < |filter| :: ClearCondition(r, kinds, filter[i].key, filter[i].value)
  }

  predicate ClearCondition(r: Readers, kinds: FieldKinds, key: Text, value: Value)
    decreases value
  {
    if IsFilterOperator(key) && value.List? then
      forall i | 0 <= i < |value.items| :: value.items[i].Plain? ==> ClearFilter(r, kinds, value.items[i].fields)
    else if key == "$not" && value.Plain? then ClearFilter(r, kinds, value.fields)
    else if key in kinds then true
    else if IsInherited(key) then if value.Plain? then OpsDateFree(r, map[], value.fields) else DateFree(r, value)
    else value.Plain? && KindsUnder(kinds, key).Some? ==>
      forall i | 0 <= i < |value.fields| && value.fields[i].key == "$elemMatch" && value.fields[i].value.Plain? ::
        ClearFilter(r, KindsUnder(kinds, key).value, value.fields[i].value.fields)
  }

  lemma {:induction false} FilterLeavesItself(kinds: FieldKinds, filter: Fields)
    ensures LeavesFilter(kinds, filter, filter)
    decreases filter
  {
    forall i | 0 <= i < |filter| ensures LeavesCondition(kinds, filter[i].key, filter[i].value, filter[i].value) {
      var key, value := filter[i].key, filter[i].value;
      if IsFilterOperator(key) && value.List? {
        forall j | 0 <= j < |value.items| && value.items[j].Plain?
          ensures LeavesFilter(kinds, value.items[j].fields, value.items[j].fields) {
          FilterLeavesItself(kinds, value.items[j].fields);
        }
      } else if key == "$not" && value.Plain? {
        FilterLeavesItself(kinds, value.fields);
      } else if value.Plain? {
        forall j | 0 <= j < |value.fields| && KindsUnder(kinds, key).Some? && value.fields[j].value.Plain?
          ensures LeavesFilter(KindsUnder(kinds, key).value, value.fields[j].value.fields, value.fields[j].value.fields)
        {
          FilterLeavesItself(KindsUnder(kinds, key).value, value.fields[j].value.fields);
        }
      }
    }
  }

  /** Operators read as a date's: nothing under `$elemMatch` changes, and the rest exactly where there are dates. */
  lemma OpsLeaveElem(r: Readers, kinds: FieldKinds, path: Text, operators: Fields)
    ensures LeavesElem(kinds, path, operators, CoerceOperators(r, DateKind, operators))
            <==> OpsDateFree(r, map[], operators)
  {
    var out := CoerceOperators(r, DateKind, operators);
    OpsLeave(r, map[], operators);
    LeavesAll(operators, out);
    ElemLeavesItself(kinds, path, operators);
    if |out| == |operators| { ElemMatchStays(r, operators); }
    if LeavesElem(kinds, path, operators, out) { assert out == operators; }
    hide *;
  }

  lemma ElemMatchStays(r: Readers, operators: Fields)
    requires |CoerceOperators(r, DateKind, operators)| == |operators|
    ensures forall i | 0 <= i < |operators| && operators[i].key == "$elemMatch" ::
              CoerceOperators(r, DateKind, operators)[i] == operators[i]
  {
    var each := EachOperator(r, DateKind, operators);
    assert CoerceOperators(r, DateKind, operators) == Own(each) == each;
    forall i | 0 <= i < |operators| && operators[i].key == "$elemMatch" ensures each[i] == operators[i] {
      assert CoerceOperator(r, DateKind, "$elemMatch", operators[i].value) == operators[i].value;
    }
  }

  lemma ElemLeavesItself(kinds: FieldKinds, path: Text, value: Fields)
    ensures LeavesElem(kinds, path, value, value)
  {
    if KindsUnder(kinds, path).Some? {
      forall i | 0 <= i < |value| && value[i].value.Plain?
        ensures LeavesFilter(KindsUnder(kinds, path).value, value[i].value.fields, value[i].value.fields)
      {
        FilterLeavesItself(KindsUnder(kinds, path).value, value[i].value.fields);
      }
    }
  }

  /** So does a filter, through `$and`, `$or`, `$nor`, `$not` and `$elemMatch`. */
  lemma {:induction false} FilterExactly(r: Readers, kinds: FieldKinds, filter: Fields)
    ensures LeavesFilter(kinds, filter, CoerceFilter(r, kinds, filter)) <==> ClearFilter(r, kinds, filter)
    decreases filter, 1
  {
    var out := EachCondition(r, kinds, filter);
    assert NoProto(out) <==> NoProto(filter) by {
      assert forall i | 0 <= i < |filter| :: out[i].key == filter[i].key;
    }
    forall i | 0 <= i < |filter|
      ensures LeavesCondition(kinds, filter[i].key, filter[i].value, out[i].value)
              <==> ClearCondition(r, kinds, filter[i].key, filter[i].value)
    {
      ConditionExactly(r, kinds, filter[i].key, filter[i].value);
    }
  }

  lemma {:induction false} ConditionExactly(r: Readers, kinds: FieldKinds, key: Text, value: Value)
    ensures LeavesCondition(kinds, key, value, CoerceCondition(r, kinds, key, value))
            <==> ClearCondition(r, kinds, key, value)
    decreases value
  {
    if IsFilterOperator(key) && value.List? {
      forall i | 0 <= i < |value.items| && value.items[i].Plain?
        ensures LeavesFilter(kinds, value.items[i].fields, CoerceFilter(r, kinds, value.items[i].fields))
                <==> ClearFilter(r, kinds, value.items[i].fields)
      {
        FilterExactly(r, kinds, value.items[i].fields);
      }
    } else if key == "$not" && value.Plain? {
      FilterExactly(r, kinds, value.fields);
    } else if key !in kinds {
      if IsInherited(key) {
        if value.Plain? { OpsLeaveElem(r, kinds, key, value.fields); } else { DateKeeps(r, value); }
      } else if value.Plain? && KindsUnder(kinds, key).Some? {
        var under := KindsUnder(kinds, key).value;
        forall i | 0 <= i < |value.fields| && value.fields[i].value.Plain?
          ensures LeavesFilter(under, value.fields[i].value.fields,
                  CoerceFilter(r, under, value.fields[i].value.fields))
                  <==> ClearFilter(r, under, value.fields[i].value.fields)
        {
          FilterExactly(r, under, value.fields[i].value.fields);
        }
      }
    }
  }

  /**
   One field under no kind, itself or below it, keeps its value exactly when its name is not inherited,
   or nothing in it reads as a date and no key sets a prototype; in a document, and in a filter.
   */
  lemma KindlessExactly(r: Readers, kinds: FieldKinds, key: Text, value: Value)
    requires key !in kinds && KindsUnder(kinds, key).None?
    ensures var dateFree := if value.Plain? then OpsDateFree(r, map[], value.fields) else DateFree(r, value);
            && (!(StartsWithDollar(key) && value.Plain?) ==>
              (CoerceField(r, kinds, key, value) == value <==> !IsInherited(key) || dateFree))
            && (!IsFilterOperator(key) && key != "$not" ==>
              (CoerceCondition(r, kinds, key, value) == value <==> !IsInherited(key) || dateFree))
  {
    if !IsInherited(key) {
      NestedKeeps(r, kinds, key, value);
      if value.Plain? { assert ElemMatched(r, kinds, key, value.fields) == value.fields; }
    } else if value.Plain? {
      OpsLeave(r, map[], value.fields);
      LeavesAll(value.fields, CoerceOperators(r, DateKind, value.fields));
    } else {
      DateKeeps(r, value);
    }
  }

  /** With no kinds at all, a document or a patch is what it was exactly when it is clear. */
  lemma NoKindsExactly(r: Readers, values: Fields)
    ensures CoerceFields(r, map[], values) == values <==> Clear(r, map[], values)
  {
    FieldsExactly(r, map[], values);
    LeavesAll(values, CoerceFields(r, map[], values));
  }

  /** With no kinds at all, a key `__proto__` is lost, whatever is under it. */
  lemma ProtoIsLost(r: Readers, value: Value)
    ensures CoerceFields(r, map[], [Field(PROTO, value)]) == CoerceFilter(r, map[], [Field(PROTO, value)]) == []
  {
    FieldAt(r, map[], [Field(PROTO, value)], 0);
    ConditionAt(r, map[], [Field(PROTO, value)], 0);
  }

  /** With no kinds at all, a field called `constructor` still has its dates read. */
  lemma ConstructorIsRead(r: Readers, s: Text)
    requires r.date(s).Some?
    ensures CoerceFields(r, map[], [Field("constructor", Str(s))]) == [Field("constructor", Date(r.date(s).value))]
    ensures CoerceFilter(r, map[], [Field("constructor", Str(s))]) == [Field("constructor", Date(r.date(s).value))]
  {
    assert KindOf(map[], "constructor") == Some(DateKind);
    var read := [Field("constructor", Date(r.date(s).value))];
    assert EachField(r, map[], [Field("constructor", Str(s))]) == read;
    assert EachCondition(r, map[], [Field("constructor", Str(s))]) == read;
  }
}
