/**
 What coercion makes of every place of a filter, a document or a patch.
 */
module Declared {
  // packages/mongo/src/collection/coerce.ts, by what its documentation says: a string standing where a
  // kind is declared becomes the id or the date it reads as, and nothing else changes. A place is
  // named by its whole path, `prefix` and the key, as the kinds of the collection are; the code takes
  // the kinds under a path apart instead, at every level.

  import opened Wrappers
  import opened Coerce

  // ----- one value

  /** A value of a field of this kind, and what is stored for it. */
  predicate Reads(r: Readers, kind: BsonKind, v: Value, w: Value) {
    match v
    case Str(s) =>
      if kind.ObjectIdKind? && r.isId(s) then w == ObjectId(s)
      else if kind.DateKind? && r.date(s).Some? then w == Date(r.date(s).value)
      else w == v
    case List(items) =>
      w.List? && |w.items| == |items| && forall i | 0 <= i < |items| :: Reads(r, kind, items[i], w.items[i])
    case _ => w == v
  }

  /** No string that reads as an id, or as a date, is left where that kind is declared. */
  predicate NoneLeft(r: Readers, kind: BsonKind, w: Value) {
    match w
    case Str(s) => if kind.ObjectIdKind? then !r.isId(s) else r.date(s).None?
    case List(items) => forall i | 0 <= i < |items| :: NoneLeft(r, kind, items[i])
    case _ => true
  }

  lemma {:induction false} ReadLeavesNone(r: Readers, kind: BsonKind, v: Value, w: Value)
    requires Reads(r, kind, v, w)
    ensures NoneLeft(r, kind, w)
    decreases v
  {
    if v.List? {
      forall i | 0 <= i < |w.items| ensures NoneLeft(r, kind, w.items[i]) {
        ReadLeavesNone(r, kind, v.items[i], w.items[i]);
      }
    }
  }

  lemma {:induction false} ValueIsRead(r: Readers, kind: BsonKind, v: Value, w: Value)
    ensures Reads(r, kind, v, w) <==> w == CoerceValue(r, kind, v)
    decreases v
  {
    if v.List? && w.List? && |w.items| == |v.items| {
      var c := CoerceValue(r, kind, v);
      forall i | 0 <= i < |v.items| ensures Reads(r, kind, v.items[i], w.items[i]) <==> w.items[i] == c.items[i] {
        ValueIsRead(r, kind, v.items[i], w.items[i]);
      }
      assert w == c <==> w.items == c.items;
    }
  }

  // ----- an operator bag under a field

  predicate ReadsOps(r: Readers, kind: BsonKind, operators: Fields, out: Fields)
    decreases operators, 0
  {
    if operators == [] then out == []
    else
      var f, init := operators[|operators| - 1], operators[..|operators| - 1];
      if f.key == PROTO then ReadsOps(r, kind, init, out)
      else
        && out != [] && out[|out| - 1].key == f.key && ReadsOp(r, kind, f.key, f.value, out[|out| - 1].value)
        && ReadsOps(r, kind, init, out[..|out| - 1])
  }

  predicate ReadsOp(r: Readers, kind: BsonKind, key: Text, value: Value, w: Value)
    decreases value, 2
  {
    if key == "$not" && value.Plain? then w.Plain? && ReadsOps(r, kind, value.fields, w.fields)
    else if key in {"$eq", "$ne", "$gt", "$gte", "$lt", "$lte", "$in", "$nin", "$all", "$each"}
    then Reads(r, kind, value, w)
    else w == value
  }

  // ----- documents and patches

  /** Some declared path goes on below this one. */
  predicate GoesOn(kinds: FieldKinds, prefix: Text) {
    exists path :: path in kinds && prefix <= path
  }

  /** The kind of a field by its whole path; a name every object inherits has, wrongly, a date's. */
  function KindAt(kinds: FieldKinds, prefix: Text, key: Text): Option<BsonKind> {
    if prefix + key in kinds then Some(kinds[prefix + key])
    else if IsInherited(key) then Some(DateKind)
    else None
  }

  predicate ReadsFields(r: Readers, kinds: FieldKinds, prefix: Text, values: Fields, out: Fields)
    decreases values, 0
  {
    if values == [] then out == []
    else
      var f, init := values[|values| - 1], values[..|values| - 1];
      if f.key == PROTO then ReadsFields(r, kinds, prefix, init, out)
      else
        && out != [] && out[|out| - 1].key == f.key
        && ReadsField(r, kinds, prefix, f.key, f.value, out[|out| - 1].value)
        && ReadsFields(r, kinds, prefix, init, out[..|out| - 1])
  }

  predicate ReadsField(r: Readers, kinds: FieldKinds, prefix: Text, key: Text, value: Value, w: Value)
    decreases value, 2
  {
    if "$" <= key && value.Plain? then w.Plain? && ReadsFields(r, kinds, prefix, value.fields, w.fields)
    else match KindAt(kinds, prefix, key)
      case None => ReadsNested(r, kinds, prefix + key + ".", value, w)
      case Some(kind) =>
        if value.Plain? then w.Plain? && ReadsOps(r, kind, value.fields, w.fields) else Reads(r, kind, value, w)
  }

  predicate ReadsNested(r: Readers, kinds: FieldKinds, prefix: Text, value: Value, w: Value)
    decreases value, 1
  {
    match value
    case List(items) =>
      w.List? && |w.items| == |items| && forall i | 0 <= i < |items| ::
        ReadsNested(r, kinds, prefix, items[i], w.items[i])
    case Plain(fields) =>
      if GoesOn(kinds, prefix) then w.Plain? && ReadsFields(r, kinds, prefix, fields, w.fields) else w == value
    case _ => w == value
  }

  // ----- filters

  predicate ReadsFilter(r: Readers, kinds: FieldKinds, prefix: Text, filter: Fields, out: Fields)
    decreases filter, 0
  {
    if filter == [] then out == []
    else
      var f, init := filter[|filter| - 1], filter[..|filter| - 1];
      if f.key == PROTO then ReadsFilter(r, kinds, prefix, init, out)
      else
        && out != [] && out[|out| - 1].key == f.key
        && ReadsCondition(r, kinds, prefix, f.key, f.value, out[|out| - 1].value)
        && ReadsFilter(r, kinds, prefix, init, out[..|out| - 1])
  }

  predicate ReadsCondition(r: Readers, kinds: FieldKinds, prefix: Text, key: Text, value: Value, w: Value)
    decreases value, 2
  {
    if key in {"$and", "$or", "$nor"} && value.List? then
      w.List? && ReadsFilters(r, kinds, prefix, value.items, w.items)
    else if key == "$not" && value.Plain? then w.Plain? && ReadsFilter(r, kinds, prefix, value.fields, w.fields)
    else match KindAt(kinds, prefix, key)
      case None => ReadsElements(r, kinds, prefix + key + ".", value, w)
      case Some(kind) =>
        if value.Plain? then w.Plain? && ReadsOps(r, kind, value.fields, w.fields) else Reads(r, kind, value, w)
  }

  predicate ReadsFilters(r: Readers, kinds: FieldKinds, prefix: Text, items: seq<Value>, out: seq<Value>)
    decreases items
  {
    |out| == |items| && forall i | 0 <= i < |items| ::
      if items[i].Plain? then out[i].Plain? && ReadsFilter(r, kinds, prefix, items[i].fields, out[i].fields)
      else out[i] == items[i]
  }

  /** Under a field of no kind, only what `$elemMatch` says of its elements' fields may change. */
  predicate ReadsElements(r: Readers, kinds: FieldKinds, prefix: Text, value: Value, w: Value)
    decreases value, 1
  {
    if !value.Plain? then w == value
    else
      w.Plain? && |w.fields| == |value.fields| && forall i | 0 <= i < |value.fields| ::
        && w.fields[i].key == value.fields[i].key
        && if GoesOn(kinds, prefix) && value.fields[i].key == "$elemMatch" && value.fields[i].value.Plain?
           then w.fields[i].value.Plain?
                && ReadsFilter(r, kinds, prefix, value.fields[i].value.fields, w.fields[i].value.fields)
           else w.fields[i].value == value.fields[i].value
  }

  // ----- the kinds taken apart are the kinds by their whole paths

  /** The kinds below a path, as those of the collection are. */
  ghost predicate Below(kinds: FieldKinds, prefix: Text, under: FieldKinds) {
    && (forall rest :: rest in under <==> prefix + rest in kinds)
    && (forall rest | rest in under :: under[rest] == kinds[prefix + rest])
  }

  lemma WholeIsBelow(kinds: FieldKinds)
    ensures Below(kinds, "", kinds)
  {
    assert forall rest: Text :: "" + rest == rest;
  }

  lemma KindIsAt(kinds: FieldKinds, prefix: Text, under: FieldKinds, key: Text)
    requires Below(kinds, prefix, under)
    ensures KindOf(under, key) == KindAt(kinds, prefix, key)
  {
  }

  lemma RestIsBelow(kinds: FieldKinds, prefix: Text, under: FieldKinds, key: Text, rest: Text)
    requires Below(kinds, prefix, under)
    ensures prefix + key + "." + rest in kinds <==>
            KindsUnder(under, key).Some? && rest in KindsUnder(under, key).value
    ensures prefix + key + "." + rest in kinds ==>
              KindsUnder(under, key).value[rest] == kinds[prefix + key + "." + rest]
  {
    KindUnder(under, key, rest);
    hide KindsUnder;
    assert prefix + key + "." + rest == prefix + (key + "." + rest);
  }

  lemma UnderIsBelow(kinds: FieldKinds, prefix: Text, under: FieldKinds, key: Text)
    requires Below(kinds, prefix, under)
    ensures KindsUnder(under, key).Some? <==> GoesOn(kinds, prefix + key + ".")
    ensures KindsUnder(under, key).Some? ==> Below(kinds, prefix + key + ".", KindsUnder(under, key).value)
  {
    var whole := prefix + key + ".";
    assert KindsUnder(under, key).Some? ==> KindsUnder(under, key).value != map[];
    hide KindsUnder;
    forall rest ensures whole + rest in kinds <==> KindsUnder(under, key).Some? && rest in KindsUnder(under, key).value
      ensures whole + rest in kinds ==> KindsUnder(under, key).value[rest] == kinds[whole + rest]
    {
      RestIsBelow(kinds, prefix, under, key, rest);
    }
    if KindsUnder(under, key).Some? {
      var rest :| rest in KindsUnder(under, key).value;
      assert whole <= whole + rest;
    }
    if GoesOn(kinds, whole) {
      var path :| path in kinds && whole <= path;
      assert path == whole + path[|whole|..];
    }
  }

  // ----- a field assigned after the others

  lemma LastAssigned(each: Fields)
    requires each != []
    ensures Own(each) == Assigned(Own(each[..|each| - 1]), each[|each| - 1])
  {
  }

  lemma LastIs(out: Fields, init: Fields, f: Field)
    ensures out == init + [f] <==> out != [] && out[..|out| - 1] == init && out[|out| - 1] == f
  {
    if out != [] { assert out == out[..|out| - 1] + [out[|out| - 1]]; }
  }

  // ----- what the code gives is what is read, and nothing else is

  lemma {:induction false} OpsAreRead(r: Readers, kind: BsonKind, operators: Fields, out: Fields)
    ensures ReadsOps(r, kind, operators, out) <==> out == CoerceOperators(r, kind, operators)
    decreases operators, 0
  {
    if operators != [] {
      var f, init, each := operators[|operators| - 1], operators[..|operators| - 1], EachOperator(r, kind, operators);
      LastAssigned(each);
      assert each[..|each| - 1] == EachOperator(r, kind, init);
      if f.key == PROTO {
        OpsAreRead(r, kind, init, out);
      } else {
        LastIs(out, CoerceOperators(r, kind, init), each[|each| - 1]);
        if out != [] {
          OpsAreRead(r, kind, init, out[..|out| - 1]);
          OpIsRead(r, kind, f.key, f.value, out[|out| - 1].value);
        }
      }
    }
  }

  lemma {:induction false} OpIsRead(r: Readers, kind: BsonKind, key: Text, value: Value, w: Value)
    ensures ReadsOp(r, kind, key, value, w) <==> w == CoerceOperator(r, kind, key, value)
    decreases value, 2
  {
    if key == "$not" && value.Plain? {
      if w.Plain? { OpsAreRead(r, kind, value.fields, w.fields); }
    } else {
      ValueIsRead(r, kind, value, w);
    }
  }

  lemma {:induction false} FieldsAreRead(r: Readers, kinds: FieldKinds, prefix: Text, under: FieldKinds,
      values: Fields, out: Fields)
    requires Below(kinds, prefix, under)
    ensures ReadsFields(r, kinds, prefix, values, out) <==> out == CoerceFields(r, under, values)
    decreases values, 0
  {
    if values != [] {
      var f, init, each := values[|values| - 1], values[..|values| - 1], EachField(r, under, values);
      LastAssigned(each);
      FieldAt(r, under, values, |values| - 1);
      InitOfFields(r, under, values);
      if f.key == PROTO {
        FieldsAreRead(r, kinds, prefix, under, init, out);
      } else {
        LastIs(out, CoerceFields(r, under, init), each[|each| - 1]);
        if out != [] {
          FieldsAreRead(r, kinds, prefix, under, init, out[..|out| - 1]);
          FieldIsRead(r, kinds, prefix, under, f.key, f.value, out[|out| - 1].value);
        }
      }
    }
  }

  lemma InitOfFields(r: Readers, under: FieldKinds, values: Fields)
    requires values != []
    ensures EachField(r, under, values)[..|values| - 1] == EachField(r, under, values[..|values| - 1])
  {
    hide CoerceField;
  }

  lemma InitOfFilter(r: Readers, under: FieldKinds, filter: Fields)
    requires filter != []
    ensures EachCondition(r, under, filter)[..|filter| - 1] == EachCondition(r, under, filter[..|filter| - 1])
  {
    hide CoerceCondition;
  }

  lemma {:induction false} FieldIsRead(r: Readers, kinds: FieldKinds, prefix: Text, under: FieldKinds, key: Text,
      value: Value, w: Value)
    requires Below(kinds, prefix, under)
    ensures ReadsField(r, kinds, prefix, key, value, w) <==> w == CoerceField(r, under, key, value)
    decreases value, 2
  {
    KindIsAt(kinds, prefix, under, key);
    if StartsWithDollar(key) && value.Plain? {
      if w.Plain? { FieldsAreRead(r, kinds, prefix, under, value.fields, w.fields); }
    } else if KindOf(under, key).None? {
      NestedIsRead(r, kinds, prefix, under, key, value, w);
    } else if value.Plain? {
      if w.Plain? { OpsAreRead(r, KindOf(under, key).value, value.fields, w.fields); }
    } else {
      ValueIsRead(r, KindOf(under, key).value, value, w);
    }
  }

  lemma {:induction false} NestedIsRead(r: Readers, kinds: FieldKinds, prefix: Text, under: FieldKinds, key: Text,
      value: Value, w: Value)
    requires Below(kinds, prefix, under)
    ensures ReadsNested(r, kinds, prefix + key + ".", value, w) <==> w == CoerceNested(r, under, key, value)
    decreases value, 1
  {
    match value
    case List(items) =>
      if w.List? && |w.items| == |items| {
        var c := CoerceNested(r, under, key, value);
        forall i | 0 <= i < |items|
          ensures ReadsNested(r, kinds, prefix + key + ".", items[i], w.items[i]) <==> w.items[i] == c.items[i]
        {
          NestedIsRead(r, kinds, prefix, under, key, items[i], w.items[i]);
        }
        assert w == c <==> w.items == c.items;
      }
    case Plain(fields) =>
      UnderIsBelow(kinds, prefix, under, key);
      if KindsUnder(under, key).Some? && w.Plain? {
        FieldsAreRead(r, kinds, prefix + key + ".", KindsUnder(under, key).value, fields, w.fields);
      }
    case _ =>
  }

  lemma {:induction false} FilterIsRead(r: Readers, kinds: FieldKinds, prefix: Text, under: FieldKinds,
      filter: Fields, out: Fields)
    requires Below(kinds, prefix, under)
    ensures ReadsFilter(r, kinds, prefix, filter, out) <==> out == CoerceFilter(r, under, filter)
    decreases filter, 0
  {
    if filter != [] {
      var f, init, each := filter[|filter| - 1], filter[..|filter| - 1], EachCondition(r, under, filter);
      LastAssigned(each);
      ConditionAt(r, under, filter, |filter| - 1);
      InitOfFilter(r, under, filter);
      if f.key == PROTO {
        FilterIsRead(r, kinds, prefix, under, init, out);
      } else {
        LastIs(out, CoerceFilter(r, under, init), each[|each| - 1]);
        if out != [] {
          FilterIsRead(r, kinds, prefix, under, init, out[..|out| - 1]);
          ConditionIsRead(r, kinds, prefix, under, f.key, f.value, out[|out| - 1].value);
        }
      }
    }
  }

  lemma {:induction false} ConditionIsRead(r: Readers, kinds: FieldKinds, prefix: Text, under: FieldKinds, key: Text,
      value: Value, w: Value)
    requires Below(kinds, prefix, under)
    ensures ReadsCondition(r, kinds, prefix, key, value, w) <==> w == CoerceCondition(r, under, key, value)
    decreases value, 2
  {
    KindIsAt(kinds, prefix, under, key);
    if IsFilterOperator(key) && value.List? {
      if w.List? { FiltersAreRead(r, kinds, prefix, under, value.items, w.items); }
    } else if key == "$not" && value.Plain? {
      if w.Plain? { FilterIsRead(r, kinds, prefix, under, value.fields, w.fields); }
    } else if KindOf(under, key).None? {
      ElementsAreRead(r, kinds, prefix, under, key, value, w);
    } else if value.Plain? {
      if w.Plain? { OpsAreRead(r, KindOf(under, key).value, value.fields, w.fields); }
    } else {
      ValueIsRead(r, KindOf(under, key).value, value, w);
    }
  }

  lemma {:induction false} FiltersAreRead(r: Readers, kinds: FieldKinds, prefix: Text, under: FieldKinds,
      items: seq<Value>, out: seq<Value>)
    requires Below(kinds, prefix, under)
    ensures ReadsFilters(r, kinds, prefix, items, out) <==> out == CoerceFilters(r, under, items)
    decreases items
  {
    var c := CoerceFilters(r, under, items);
    if |out| == |items| {
      forall i | 0 <= i < |items| && items[i].Plain? && out[i].Plain?
        ensures ReadsFilter(r, kinds, prefix, items[i].fields, out[i].fields) <==> out[i] == c[i]
      {
        FilterIsRead(r, kinds, prefix, under, items[i].fields, out[i].fields);
      }
      assert out == c <==> forall i | 0 <= i < |items| :: out[i] == c[i];
    }
  }

  lemma {:induction false} ElementsAreRead(r: Readers, kinds: FieldKinds, prefix: Text, under: FieldKinds, key: Text,
      value: Value, w: Value)
    requires Below(kinds, prefix, under)
    ensures ReadsElements(r, kinds, prefix + key + ".", value, w)
            <==> w == if value.Plain? then Plain(ElemMatched(r, under, key, value.fields)) else value
    decreases value, 1
  {
    UnderIsBelow(kinds, prefix, under, key);
    if value.Plain? && w.Plain? && |w.fields| == |value.fields| {
      var c := ElemMatched(r, under, key, value.fields);
      forall i | 0 <= i < |value.fields| && KindsUnder(under, key).Some? && value.fields[i].value.Plain?
                 && w.fields[i].value.Plain?
        ensures ReadsFilter(r, kinds, prefix + key + ".", value.fields[i].value.fields, w.fields[i].value.fields) <==>
                w.fields[i].value.fields == CoerceFilter(r, KindsUnder(under, key).value, value.fields[i].value.fields)
      {
        FilterIsRead(r, kinds, prefix + key + ".", KindsUnder(under, key).value, value.fields[i].value.fields,
                     w.fields[i].value.fields);
      }
      assert w.fields == c <==> forall i | 0 <= i < |c| :: w.fields[i] == c[i];
    }
  }

  /** A document or a patch coerced is the one that is read at every place, and changed nowhere else. */
  lemma FieldsReadExactly(r: Readers, kinds: FieldKinds, values: Fields, out: Fields)
    ensures ReadsFields(r, kinds, "", values, out) <==> out == CoerceFields(r, kinds, values)
  {
    WholeIsBelow(kinds);
    FieldsAreRead(r, kinds, "", kinds, values, out);
  }

  /** So is a filter. */
  lemma FilterReadsExactly(r: Readers, kinds: FieldKinds, filter: Fields, out: Fields)
    ensures ReadsFilter(r, kinds, "", filter, out) <==> out == CoerceFilter(r, kinds, filter)
  {
    WholeIsBelow(kinds);
    FilterIsRead(r, kinds, "", kinds, filter, out);
  }

  // ----- so no string that reads is left, anywhere

  predicate NoneLeftInOps(r: Readers, kind: BsonKind, operators: Fields)
    decreases operators, 0
  {
    forall i | 0 <= i < |operators| :: NoneLeftInOp(r, kind, operators[i].key, operators[i].value)
  }

  predicate NoneLeftInOp(r: Readers, kind: BsonKind, key: Text, w: Value)
    decreases w, 2
  {
    if key == "$not" && w.Plain? then NoneLeftInOps(r, kind, w.fields)
    else key in {"$eq", "$ne", "$gt", "$gte", "$lt", "$lte", "$in", "$nin", "$all", "$each"} ==> NoneLeft(r, kind, w)
  }

  predicate NoneLeftInFields(r: Readers, kinds: FieldKinds, prefix: Text, fields: Fields)
    decreases fields, 0
  {
    forall i | 0 <= i < |fields| :: NoneLeftInField(r, kinds, prefix, fields[i].key, fields[i].value)
  }

  predicate NoneLeftInField(r: Readers, kinds: FieldKinds, prefix: Text, key: Text, w: Value)
    decreases w, 2
  {
    if "$" <= key && w.Plain? then NoneLeftInFields(r, kinds, prefix, w.fields)
    else if prefix + key in kinds then
      if w.Plain? then NoneLeftInOps(r, kinds[prefix + key], w.fields) else NoneLeft(r, kinds[prefix + key], w)
    else IsInherited(key) || NoneLeftNested(r, kinds, prefix + key + ".", w)
  }

  predicate NoneLeftNested(r: Readers, kinds: FieldKinds, prefix: Text, w: Value)
    decreases w, 1
  {
    match w
    case List(items) => forall i | 0 <= i < |items| :: NoneLeftNested(r, kinds, prefix, items[i])
    case Plain(fields) => GoesOn(kinds, prefix) ==> NoneLeftInFields(r, kinds, prefix, fields)
    case _ => true
  }

  predicate NoneLeftInFilter(r: Readers, kinds: FieldKinds, prefix: Text, filter: Fields)
    decreases filter, 0
  {
    forall i | 0 <= i < |filter| :: NoneLeftInCondition(r, kinds, prefix, filter[i].key, filter[i].value)
  }

  predicate NoneLeftInCondition(r: Readers, kinds: FieldKinds, prefix: Text, key: Text, w: Value)
    decreases w, 2
  {
    if key in {"$and", "$or", "$nor"} && w.List? then
      forall i | 0 <= i < |w.items| && w.items[i].Plain? :: NoneLeftInFilter(r, kinds, prefix, w.items[i].fields)
    else if key == "$not" && w.Plain? then NoneLeftInFilter(r, kinds, prefix, w.fields)
    else if prefix + key in kinds then
      if w.Plain? then NoneLeftInOps(r, kinds[prefix + key], w.fields) else NoneLeft(r, kinds[prefix + key], w)
    else !IsInherited(key) && w.Plain? && GoesOn(kinds, prefix + key + ".") ==>
      forall i | 0 <= i < |w.fields| && w.fields[i].key == "$elemMatch" && w.fields[i].value.Plain? ::
        NoneLeftInFilter(r, kinds, prefix + key + ".", w.fields[i].value.fields)
  }

  lemma {:induction false} OpsLeaveNone(r: Readers, kind: BsonKind, operators: Fields, out: Fields)
    requires ReadsOps(r, kind, operators, out)
    ensures NoneLeftInOps(r, kind, out)
    decreases operators, 0
  {
    if operators != [] {
      var f, init := operators[|operators| - 1], operators[..|operators| - 1];
      if f.key == PROTO {
        OpsLeaveNone(r, kind, init, out);
      } else {
        OpsLeaveNone(r, kind, init, out[..|out| - 1]);
        var w := out[|out| - 1].value;
        if f.key == "$not" && f.value.Plain? {
          OpsLeaveNone(r, kind, f.value.fields, w.fields);
        } else if IsValueOperator(f.key) {
          ReadLeavesNone(r, kind, f.value, w);
        }
      }
    }
  }

  lemma {:induction false} FieldsLeaveNone(r: Readers, kinds: FieldKinds, prefix: Text, values: Fields, out: Fields)
    requires ReadsFields(r, kinds, prefix, values, out)
    ensures NoneLeftInFields(r, kinds, prefix, out)
    decreases values, 0
  {
    if values != [] {
      var f, init := values[|values| - 1], values[..|values| - 1];
      if f.key == PROTO {
        FieldsLeaveNone(r, kinds, prefix, init, out);
      } else {
        FieldsLeaveNone(r, kinds, prefix, init, out[..|out| - 1]);
        FieldLeavesNone(r, kinds, prefix, f.key, f.value, out[|out| - 1].value);
      }
    }
  }

  lemma {:induction false} FieldLeavesNone(r: Readers, kinds: FieldKinds, prefix: Text, key: Text, value: Value,
      w: Value)
    requires ReadsField(r, kinds, prefix, key, value, w)
    ensures NoneLeftInField(r, kinds, prefix, key, w)
    decreases value, 2
  {
    if StartsWithDollar(key) && value.Plain? {
      FieldsLeaveNone(r, kinds, prefix, value.fields, w.fields);
    } else if prefix + key in kinds {
      if value.Plain? { OpsLeaveNone(r, kinds[prefix + key], value.fields, w.fields); }
      else { ReadLeavesNone(r, kinds[prefix + key], value, w); }
    } else if !IsInherited(key) {
      NestedLeavesNone(r, kinds, prefix + key + ".", value, w);
    }
  }

  lemma {:induction false} NestedLeavesNone(r: Readers, kinds: FieldKinds, prefix: Text, value: Value, w: Value)
    requires ReadsNested(r, kinds, prefix, value, w)
    ensures NoneLeftNested(r, kinds, prefix, w) && (w.Plain? <==> value.Plain?)
    decreases value, 1
  {
    match value
    case List(items) =>
      forall i | 0 <= i < |items| ensures NoneLeftNested(r, kinds, prefix, w.items[i]) {
        NestedLeavesNone(r, kinds, prefix, items[i], w.items[i]);
      }
    case Plain(fields) =>
      if GoesOn(kinds, prefix) { FieldsLeaveNone(r, kinds, prefix, fields, w.fields); }
    case _ =>
  }

  lemma {:induction false} FilterLeavesNone(r: Readers, kinds: FieldKinds, prefix: Text, filter: Fields, out: Fields)
    requires ReadsFilter(r, kinds, prefix, filter, out)
    ensures NoneLeftInFilter(r, kinds, prefix, out)
    decreases filter, 0
  {
    if filter != [] {
      var f, init := filter[|filter| - 1], filter[..|filter| - 1];
      if f.key == PROTO {
        FilterLeavesNone(r, kinds, prefix, init, out);
      } else {
        FilterLeavesNone(r, kinds, prefix, init, out[..|out| - 1]);
        ConditionLeavesNone(r, kinds, prefix, f.key, f.value, out[|out| - 1].value);
      }
    }
  }

  lemma {:induction false} ConditionLeavesNone(r: Readers, kinds: FieldKinds, prefix: Text, key: Text, value: Value,
      w: Value)
    requires ReadsCondition(r, kinds, prefix, key, value, w)
    ensures NoneLeftInCondition(r, kinds, prefix, key, w)
    decreases value, 2
  {
    if IsFilterOperator(key) && value.List? {
      forall i | 0 <= i < |w.items| && w.items[i].Plain?
        ensures NoneLeftInFilter(r, kinds, prefix, w.items[i].fields)
      {
        FilterLeavesNone(r, kinds, prefix, value.items[i].fields, w.items[i].fields);
      }
    } else if key == "$not" && value.Plain? {
      FilterLeavesNone(r, kinds, prefix, value.fields, w.fields);
    } else if prefix + key in kinds {
      if value.Plain? { OpsLeaveNone(r, kinds[prefix + key], value.fields, w.fields); }
      else { ReadLeavesNone(r, kinds[prefix + key], value, w); }
    } else if !IsInherited(key) && value.Plain? && GoesOn(kinds, prefix + key + ".") {
      forall i | 0 <= i < |w.fields| && w.fields[i].key == "$elemMatch" && w.fields[i].value.Plain?
        ensures NoneLeftInFilter(r, kinds, prefix + key + ".", w.fields[i].value.fields)
      {
        FilterLeavesNone(r, kinds, prefix + key + ".", value.fields[i].value.fields, w.fields[i].value.fields);
      }
    }
  }

  /**
   At every place of the result where a kind is declared, a list item or an operand, through `$not`,
   `$and`, `$or`, `$nor`, `$elemMatch`, dotted paths, nested objects and operator patches: no string
   is left that reads as an id, or as a date.
   */
  lemma NoneIsLeft(r: Readers, kinds: FieldKinds, given: Fields)
    ensures NoneLeftInFields(r, kinds, "", CoerceFields(r, kinds, given))
    ensures NoneLeftInFilter(r, kinds, "", CoerceFilter(r, kinds, given))
  {
    FieldsReadExactly(r, kinds, given, CoerceFields(r, kinds, given));
    FilterReadsExactly(r, kinds, given, CoerceFilter(r, kinds, given));
    FieldsLeaveNone(r, kinds, "", given, CoerceFields(r, kinds, given));
    FilterLeavesNone(r, kinds, "", given, CoerceFilter(r, kinds, given));
  }
}
