/** What marshalling guarantees: the shape of the filter is kept, compared operands get their
    field's type, it fails on unfit operands only, and when a second pass changes nothing. */
module MarshalMeaning {
  import opened Common
  import opened Marshal

  // ------------------------------------------------------------------ reading

  /** The type that a typed literal names: a document with one key that stands for a type. */
  function TypedAs(v: Bson): Option<Token> {
    if !v.Doc? || |v.fields| != 1 then None
    else match v.fields[0].key
      case "$date" => Some(TDate)
      case "$oid" => Some(TObjectId)
      case "$decimal" => Some(TDecimal)
      case "$int" => Some(TInt)
      case "$long" => Some(TInt)
      case _ => None
  }

  lemma LiteralsAre(v: Bson)
    ensures IsLiteral(v) <==> TypedAs(v).Some?
    ensures IsLiteral(v) ==> LiteralToken(v.fields[0].key) == TypedAs(v)
  {
  }

  /** Some key of the document is an operator, and it is not a typed literal. */
  predicate Operators(v: Bson) {
    v.Doc? && TypedAs(v).None? && exists i :: 0 <= i < |v.fields| && v.fields[i].key != "" && v.fields[i].key[0] == '$'
  }

  lemma OperatorsAre(v: Bson)
    ensures Operators(v) <==> HasOperators(v) && !IsLiteral(v)
  {
    if HasOperators(v) {
      var i :| 0 <= i < |v.fields| && Dollar(v.fields[i].key);
      assert v.fields[i].key != "" && v.fields[i].key[0] == '$';
    }
    if Operators(v) {
      var i :| 0 <= i < |v.fields| && v.fields[i].key != "" && v.fields[i].key[0] == '$';
      assert Dollar(v.fields[i].key);
    }
  }

  /** The type the operands of a clause are compared in: none under an operator; of a field the one
      the map has for it, if any; an `_id` that is a string is left alone, and one that is not in the
      map may be an identifier. */
  function ExpectedType(types: TypeMap, field: string): Option<Token> {
    match (field != "" && field[0] == '$', field == "_id", field in types)
    case (true, _, _) => None
    case (false, true, false) => Some(TIdBestEffort)
    case (false, true, true) => if types["_id"] == TString then None else Some(types["_id"])
    case (false, false, true) => Some(types[field])
    case (false, false, false) => None
  }

  /** 24 hexadecimal digits, in lower case. */
  predicate IdText(s: string) { |s| == 24 && forall c :: c in s ==> c in "0123456789abcdef" }

  lemma IdTextIs(s: string)
    ensures Hex24(s) <==> IdText(s)
  {
    if Hex24(s) {
      forall c | c in s ensures c in "0123456789abcdef" {
        var i :| 0 <= i < |s| && s[i] == c;
        HexDigit(c);
      }
    }
    if IdText(s) {
      forall i | 0 <= i < 24 ensures '0' <= s[i] <= '9' || 'a' <= s[i] <= 'f' {
        assert s[i] in s;
        HexDigit(s[i]);
      }
    }
  }

  lemma HexDigit(c: char)
    ensures c in "0123456789abcdef" <==> '0' <= c <= '9' || 'a' <= c <= 'f'
  {
    var digits := "0123456789abcdef";
    if '0' <= c <= '9' { assert digits[c as int - '0' as int] == c; }
    if 'a' <= c <= 'f' { assert digits[c as int - 'a' as int + 10] == c; }
  }

  /** The value is of the type, or reads as one. */
  predicate CanBecome(p: Parsers, t: Token, v: Bson) {
    match t
    case TDate => v.Date? || (v.Text? && p.date(v.s).Some?)
    case TObjectId => v.Oid? || (v.Text? && IdText(v.s))
    case TDecimal => v.Decimal? || ((v.Integer? || v.Long? || v.Double? || v.Text?) && p.decimal(v).Some?)
    case TInt => v.Integer? || v.Long? || (v.Double? && Whole(v.r)) || (v.Text? && p.int_(v.s).Some?)
    case TLong => v.Integer? || v.Long? || (v.Double? && Whole(v.r)) || (v.Text? && p.int_(v.s).Some?)
    case _ => true
  }

  lemma CoercesExactly(p: Parsers, t: Token, v: Bson)
    ensures Coerce(p, t, v).Some? <==> CanBecome(p, t, v)
  {
    if v.Text? { IdTextIs(v.s); }
  }

  // ----------------------------------------------------------------- coercion

  predicate HasCoercer(t: Token) { t in {TDate, TObjectId, TDecimal, TInt, TLong} }

  /** A value of the type a token stands for. */
  predicate HasType(t: Token, v: Bson) {
    match t
    case TDate => v.Date?
    case TObjectId => v.Oid?
    case TDecimal => v.Decimal?
    case TInt => v.Integer? || v.Long?
    case TLong => v.Integer? || v.Long?
    case _ => true
  }

  /** The tokens say the same of a value: an int is a long. */
  predicate SameType(a: Token, b: Token) { a == b || (a in {TInt, TLong} && b in {TInt, TLong}) }

  lemma CoerceTypes(p: Parsers, t: Token, v: Bson)
    requires Coerce(p, t, v).Some?
    ensures HasType(t, Coerce(p, t, v).value)
    ensures !HasCoercer(t) && t != TIdBestEffort ==> Coerce(p, t, v).value == v
    ensures HasCoercer(t) && HasType(t, v) ==> Coerce(p, t, v).value == v
    ensures TypedAs(v).None? ==> !IsLiteral(Coerce(p, t, v).value)
    ensures v.Doc? || v.Arr? ==> Coerce(p, t, v).value == v
    ensures !v.Doc? ==> !Coerce(p, t, v).value.Doc?
    ensures !v.Arr? ==> !Coerce(p, t, v).value.Arr?
  {
  }

  /** A second coercion leaves a value alone exactly when there is no coercer to object, or the
      value has the coercer's type already. */
  lemma CoerceKeeps(p: Parsers, t: Token, lt: Token, v: Bson)
    requires HasCoercer(lt) && HasType(lt, v)
    ensures Coerce(p, t, v) == Some(v) <==> !HasCoercer(t) || SameType(lt, t)
  {
  }

  lemma CoerceTwice(p: Parsers, t: Token, v: Bson)
    requires Coerce(p, t, v).Some?
    ensures Coerce(p, t, Coerce(p, t, v).value) == Coerce(p, t, v)
  {
  }

  // ---------------------------------------------------- structure and types

  /** The same value in another type: a parsed date, identifier or number, or a whole number. */
  ghost predicate Represents(p: Parsers, v: Bson, w: Bson) {
    || w == v
    || (v.Text? && w.Date? && p.date(v.s) == Some(w.at))
    || (v.Text? && w.Oid? && IdText(v.s) && w.hex == v.s)
    || (w.Decimal? && p.decimal(v) == Some(w.digits))
    || (v.Text? && w.Integer? && p.int_(v.s) == Some(w.n))
    || (v.Double? && w.Integer? && w.n as real == v.r)
  }

  /** What an operand becomes: a literal the value it stands for, in its type; any other operand the
      same value in its field's type, and itself if it has that type or the field has none. */
  ghost predicate OperandConforms(p: Parsers, t: Option<Token>, v: Bson, w: Bson) {
    if TypedAs(v).Some? then HasType(TypedAs(v).value, w) && Represents(p, v.fields[0].val, w)
    else
      && Represents(p, v, w)
      && (t.Some? ==> HasType(t.value, w))
      && (t.None? || !MayChange(t.value, v) ==> w == v)
      && (t == Some(TIdBestEffort) && v.Text? && IdText(v.s) ==> w.Oid?)
  }

  /** Only a value of another type than the token's, or a string that looks like an id. */
  predicate MayChange(t: Token, v: Bson) {
    (HasCoercer(t) && !HasType(t, v)) || (t == TIdBestEffort && v.Text? && IdText(v.s))
  }

  ghost predicate OpConforms(p: Parsers, t: Option<Token>, a: Slot, b: Slot) {
    && a.key == b.key
    && if a.key in {"$in", "$nin"} && a.val.Arr? then
         b.val.Arr? && |b.val.items| == |a.val.items|
         && forall i :: 0 <= i < |a.val.items| ==> OperandConforms(p, t, a.val.items[i], b.val.items[i])
       else if a.key in {"$eq", "$ne", "$gt", "$gte", "$lt", "$lte"} then OperandConforms(p, t, a.val, b.val)
       else OperandConforms(p, None, a.val, b.val)
  }

  ghost predicate ValueConforms(p: Parsers, t: Option<Token>, v: Bson, w: Bson) {
    if Operators(v) then
      w.Doc? && |w.fields| == |v.fields| && forall i :: 0 <= i < |v.fields| ==> OpConforms(p, t, v.fields[i], w.fields[i])
    else OperandConforms(p, t, v, w)
  }

  /** Same keys in the same order at every level of logical nesting, and conforming values. */
  ghost predicate Conforms(p: Parsers, types: TypeMap, f: Bson, g: Bson)
    decreases f
  {
    if !f.Doc? then g == f
    else
      g.Doc? && |g.fields| == |f.fields|
      && forall i :: 0 <= i < |f.fields| ==>
        && g.fields[i].key == f.fields[i].key
        && if f.fields[i].key in {"$and", "$or", "$nor"} && f.fields[i].val.Arr? then
             g.fields[i].val.Arr? && SubsConform(p, types, f.fields[i].val.items, g.fields[i].val.items)
           else ValueConforms(p, ExpectedType(types, f.fields[i].key), f.fields[i].val, g.fields[i].val)
  }

  ghost predicate SubsConform(p: Parsers, types: TypeMap, fs: seq<Bson>, gs: seq<Bson>)
    decreases fs
  {
    |gs| == |fs| && forall i :: 0 <= i < |fs| ==> Conforms(p, types, fs[i], gs[i])
  }

  lemma OperandConformed(p: Parsers, v: Bson, t: Option<Token>, field: string)
    requires Operand(p, v, t, field).Ok?
    ensures OperandConforms(p, t, v, Operand(p, v, t, field).value)
  {
    if TypedAs(v).Some? {
      CoerceTypes(p, TypedAs(v).value, v.fields[0].val);
      if v.fields[0].val.Text? { IdTextIs(v.fields[0].val.s); }
    } else if t.Some? {
      CoerceTypes(p, t.value, v);
      if v.Text? { IdTextIs(v.s); }
    }
  }

  lemma {:induction false} OperandsConformed(p: Parsers, items: seq<Bson>, t: Option<Token>, field: string)
    requires Operands(p, items, t, field).Ok?
    ensures var ws := Operands(p, items, t, field).value;
      |ws| == |items| && forall i :: 0 <= i < |items| ==> OperandConforms(p, t, items[i], ws[i])
  {
    if items != [] {
      OperandConformed(p, items[0], t, field);
      OperandsConformed(p, items[1..], t, field);
      assert forall i :: 0 < i < |items| ==> items[i] == items[1..][i - 1];
    }
  }

  lemma OpConformed(p: Parsers, op: Slot, t: Option<Token>, field: string)
    requires OpValue(p, op, t, field).Ok?
    ensures OpConforms(p, t, op, Slot(op.key, OpValue(p, op, t, field).value))
  {
    if op.key in {"$in", "$nin"} && op.val.Arr? {
      OperandsConformed(p, op.val.items, t, field);
    } else if op.key in {"$eq", "$ne", "$gt", "$gte", "$lt", "$lte"} {
      OperandConformed(p, op.val, t, field);
    } else {
      OperandConformed(p, op.val, None, field);
      if IsLiteral(op.val) { CoerceTypes(p, TypedAs(op.val).value, op.val.fields[0].val); }
    }
  }

  lemma {:induction false} OpsConformed(p: Parsers, ops: seq<Slot>, t: Option<Token>, field: string)
    requires OpValues(p, ops, t, field).Ok?
    ensures var ws := OpValues(p, ops, t, field).value;
      |ws| == |ops| && forall i :: 0 <= i < |ops| ==> OpConforms(p, t, ops[i], ws[i])
  {
    if ops != [] {
      OpConformed(p, ops[0], t, field);
      OpsConformed(p, ops[1..], t, field);
      assert forall i :: 0 < i < |ops| ==> ops[i] == ops[1..][i - 1];
    }
  }

  lemma ValueConformed(p: Parsers, v: Bson, t: Option<Token>, field: string)
    requires FieldValue(p, v, t, field).Ok?
    ensures ValueConforms(p, t, v, FieldValue(p, v, t, field).value)
  {
    if Operators(v) { OpsConformed(p, v.fields, t, field); } else { OperandConformed(p, v, t, field); }
  }

  /** When marshalling succeeds, the filter keeps its keys and operators through every nesting of
      `$and`, `$or` and `$nor`, and its compared operands get the types of their fields. */
  lemma {:induction false} FilterConforms(p: Parsers, f: Bson, types: TypeMap)
    requires Filter(p, f, types).Ok?
    ensures Conforms(p, types, f, Filter(p, f, types).value)
    decreases f, 0
  {
    if f.Doc? { ClausesConform(p, f.fields, types); }
  }

  ghost predicate ClauseConforms(p: Parsers, types: TypeMap, a: Slot, b: Slot) {
    && b.key == a.key
    && if a.key in {"$and", "$or", "$nor"} && a.val.Arr? then b.val.Arr? && SubsConform(p, types, a.val.items, b.val.items)
       else ValueConforms(p, ExpectedType(types, a.key), a.val, b.val)
  }

  lemma {:induction false} ClausesConform(p: Parsers, fields: seq<Slot>, types: TypeMap)
    requires Clauses(p, fields, types).Ok?
    ensures var gs := Clauses(p, fields, types).value;
      |gs| == |fields| && forall i :: 0 <= i < |fields| ==> ClauseConforms(p, types, fields[i], gs[i])
    decreases fields, 1
  {
    if fields != [] {
      var field, v := fields[0].key, fields[0].val;
      if field in {"$and", "$or", "$nor"} && v.Arr? {
        SubsConformed(p, v.items, types);
      } else {
        ValueConformed(p, v, ExpectedType(types, field), field);
      }
      ClausesConform(p, fields[1..], types);
      assert forall i :: 0 < i < |fields| ==> fields[i] == fields[1..][i - 1];
    }
  }

  lemma {:induction false} SubsConformed(p: Parsers, items: seq<Bson>, types: TypeMap)
    requires Subs(p, items, types).Ok?
    ensures SubsConform(p, types, items, Subs(p, items, types).value)
    decreases items, 1
  {
    if items != [] {
      FilterConforms(p, items[0], types);
      SubsConformed(p, items[1..], types);
      assert forall i :: 0 < i < |items| ==> items[i] == items[1..][i - 1];
    }
  }

  // ---------------------------------------------------------- when it fails

  /** The operand can be brought to its type, or the literal is well formed. */
  ghost predicate Fits(p: Parsers, t: Option<Token>, v: Bson) {
    if TypedAs(v).Some? then CanBecome(p, TypedAs(v).value, v.fields[0].val) else t.Some? ==> CanBecome(p, t.value, v)
  }

  ghost predicate OpFits(p: Parsers, t: Option<Token>, op: Slot) {
    if op.key in {"$in", "$nin"} && op.val.Arr? then forall i :: 0 <= i < |op.val.items| ==> Fits(p, t, op.val.items[i])
    else Fits(p, if op.key in {"$eq", "$ne", "$gt", "$gte", "$lt", "$lte"} then t else None, op.val)
  }

  ghost predicate ValueFits(p: Parsers, t: Option<Token>, v: Bson) {
    if Operators(v) then forall i :: 0 <= i < |v.fields| ==> OpFits(p, t, v.fields[i]) else Fits(p, t, v)
  }

  ghost predicate AllFit(p: Parsers, types: TypeMap, f: Bson)
    decreases f
  {
    f.Doc? ==> forall i :: 0 <= i < |f.fields| ==>
      if f.fields[i].key in {"$and", "$or", "$nor"} && f.fields[i].val.Arr?
      then forall j :: 0 <= j < |f.fields[i].val.items| ==> AllFit(p, types, f.fields[i].val.items[j])
      else ValueFits(p, ExpectedType(types, f.fields[i].key), f.fields[i].val)
  }

  lemma OperandFits(p: Parsers, v: Bson, t: Option<Token>, field: string)
    ensures Operand(p, v, t, field).Ok? <==> Fits(p, t, v)
  {
    LiteralsAre(v);
    if TypedAs(v).Some? { CoercesExactly(p, TypedAs(v).value, v.fields[0].val); }
    if t.Some? { CoercesExactly(p, t.value, v); }
  }

  lemma {:induction false} OperandsFit(p: Parsers, items: seq<Bson>, t: Option<Token>, field: string)
    ensures Operands(p, items, t, field).Ok? <==> forall i :: 0 <= i < |items| ==> Fits(p, t, items[i])
  {
    if items != [] {
      OperandFits(p, items[0], t, field);
      OperandsFit(p, items[1..], t, field);
      assert forall i :: 0 <= i < |items[1..]| ==> items[1..][i] == items[i + 1];
      assert forall i :: 0 < i < |items| ==> items[i] == items[1..][i - 1];
    }
  }

  lemma OpFit(p: Parsers, op: Slot, t: Option<Token>, field: string)
    ensures OpValue(p, op, t, field).Ok? <==> OpFits(p, t, op)
  {
    if op.val.Arr? { OperandsFit(p, op.val.items, t, field); }
    OperandFits(p, op.val, t, field);
    OperandFits(p, op.val, None, field);
  }

  lemma {:induction false} OpsFit(p: Parsers, ops: seq<Slot>, t: Option<Token>, field: string)
    ensures OpValues(p, ops, t, field).Ok? <==> forall i :: 0 <= i < |ops| ==> OpFits(p, t, ops[i])
  {
    if ops != [] {
      OpsFit(p, ops[1..], t, field);
      OpFit(p, ops[0], t, field);
      assert forall i :: 0 <= i < |ops[1..]| ==> ops[1..][i] == ops[i + 1];
      assert forall i :: 0 < i < |ops| ==> ops[i] == ops[1..][i - 1];
    }
  }

  lemma ValueFit(p: Parsers, v: Bson, t: Option<Token>, field: string)
    ensures FieldValue(p, v, t, field).Ok? <==> ValueFits(p, t, v)
  {
    OperatorsAre(v);
    if Operators(v) { OpsFit(p, v.fields, t, field); } else { OperandFits(p, v, t, field); }
  }

  ghost predicate ClauseFits(p: Parsers, types: TypeMap, a: Slot) {
    if a.key in {"$and", "$or", "$nor"} && a.val.Arr? then forall j :: 0 <= j < |a.val.items| ==> AllFit(p, types, a.val.items[j])
    else ValueFits(p, ExpectedType(types, a.key), a.val)
  }

  lemma {:induction false} ClausesFit(p: Parsers, fields: seq<Slot>, types: TypeMap)
    ensures Clauses(p, fields, types).Ok? <==> forall i :: 0 <= i < |fields| ==> ClauseFits(p, types, fields[i])
    decreases fields, 1
  {
    if fields != [] {
      ClausesFit(p, fields[1..], types);
      ClauseFit(p, fields[0], types);
      assert forall i :: 0 <= i < |fields[1..]| ==> fields[1..][i] == fields[i + 1];
      assert forall i :: 0 < i < |fields| ==> fields[i] == fields[1..][i - 1];
    }
  }

  lemma {:induction false} ClauseFit(p: Parsers, a: Slot, types: TypeMap)
    ensures Clause(p, a.key, a.val, types).Ok? <==> ClauseFits(p, types, a)
    decreases a.val, 2
  {
    if a.key in {"$and", "$or", "$nor"} && a.val.Arr? {
      SubsFit(p, a.val.items, types);
    } else {
      ValueFit(p, a.val, ExpectedType(types, a.key), a.key);
    }
  }

  lemma {:induction false} SubsFit(p: Parsers, items: seq<Bson>, types: TypeMap)
    ensures Subs(p, items, types).Ok? <==> forall j :: 0 <= j < |items| ==> AllFit(p, types, items[j])
    decreases items, 1
  {
    if items != [] {
      FilterFits(p, items[0], types);
      SubsFit(p, items[1..], types);
      assert forall i :: 0 <= i < |items[1..]| ==> items[1..][i] == items[i + 1];
      assert forall i :: 0 < i < |items| ==> items[i] == items[1..][i - 1];
    }
  }

  /** Marshalling fails exactly when some literal is malformed or some compared operand cannot be
      brought to the type known of its field. */
  lemma {:induction false} FilterFits(p: Parsers, f: Bson, types: TypeMap)
    ensures Filter(p, f, types).Ok? <==> AllFit(p, types, f)
    decreases f, 0
  {
    if f.Doc? {
      ClausesFit(p, f.fields, types);
      assert (forall i :: 0 <= i < |f.fields| ==> ClauseFits(p, types, f.fields[i])) <==> AllFit(p, types, f);
    }
  }

  // ------------------------------------------------------------ second pass

  /** A literal in a compared position is of the type its field has, if that is one it could be
      coerced to. */
  ghost predicate Agrees(t: Option<Token>, v: Bson) {
    TypedAs(v).Some? && t.Some? ==> !HasCoercer(t.value) || SameType(TypedAs(v).value, t.value)
  }

  ghost predicate OpAgrees(t: Option<Token>, op: Slot) {
    if op.key in {"$in", "$nin"} && op.val.Arr? then forall i :: 0 <= i < |op.val.items| ==> Agrees(t, op.val.items[i])
    else op.key in {"$eq", "$ne", "$gt", "$gte", "$lt", "$lte"} ==> Agrees(t, op.val)
  }

  ghost predicate ValueAgrees(t: Option<Token>, v: Bson) {
    if Operators(v) then forall i :: 0 <= i < |v.fields| ==> OpAgrees(t, v.fields[i]) else Agrees(t, v)
  }

  ghost predicate LiteralsAgree(types: TypeMap, f: Bson)
    decreases f
  {
    f.Doc? ==> forall i :: 0 <= i < |f.fields| ==>
      if f.fields[i].key in {"$and", "$or", "$nor"} && f.fields[i].val.Arr?
      then forall j :: 0 <= j < |f.fields[i].val.items| ==> LiteralsAgree(types, f.fields[i].val.items[j])
      else ValueAgrees(ExpectedType(types, f.fields[i].key), f.fields[i].val)
  }

  lemma OperandTwice(p: Parsers, v: Bson, t: Option<Token>, field: string)
    requires Operand(p, v, t, field).Ok?
    ensures var w := Operand(p, v, t, field).value;
      && !IsLiteral(w)
      && (Operand(p, w, t, field) == Ok(w) <==> Agrees(t, v))
      && (TypedAs(v).None? && v.Doc? ==> w == v)
      && (TypedAs(v).Some? || !v.Doc? ==> !w.Doc?)
      && (v.Arr? <==> w.Arr?)
  {
    if TypedAs(v).Some? {
      var lt := TypedAs(v).value;
      CoerceTypes(p, lt, v.fields[0].val);
      var w := Operand(p, v, t, field).value;
      if t.Some? { CoerceKeeps(p, t.value, lt, w); }
    } else if t.Some? {
      CoerceTypes(p, t.value, v);
      CoerceTwice(p, t.value, v);
    }
  }

  lemma {:induction false} OperandsTwice(p: Parsers, items: seq<Bson>, t: Option<Token>, field: string)
    requires Operands(p, items, t, field).Ok?
    ensures var ws := Operands(p, items, t, field).value;
      Operands(p, ws, t, field) == Ok(ws) <==> forall i :: 0 <= i < |items| ==> Agrees(t, items[i])
  {
    if items != [] {
      OperandTwice(p, items[0], t, field);
      OperandsTwice(p, items[1..], t, field);
      var ws := Operands(p, items, t, field).value;
      assert ws[1..] == Operands(p, items[1..], t, field).value;
      ConsTwice(Operand(p, ws[0], t, field), Operands(p, ws[1..], t, field), ws);
      assert forall i :: 0 <= i < |items[1..]| ==> items[1..][i] == items[i + 1];
      assert forall i :: 0 < i < |items| ==> items[i] == items[1..][i - 1];
    }
  }

  lemma ConsTwice<T>(first: Result<T, Mismatch>, rest: Result<seq<T>, Mismatch>, all: seq<T>)
    requires all != []
    ensures first.Ok? && rest.Ok? ==> ([first.value] + rest.value == all <==> first.value == all[0] && rest.value == all[1..])
  {
    if first.Ok? && rest.Ok? {
      var s := [first.value] + rest.value;
      assert s[0] == first.value && s[1..] == rest.value;
      assert all == [all[0]] + all[1..];
    }
  }

  lemma OpTwice(p: Parsers, op: Slot, t: Option<Token>, field: string)
    requires OpValue(p, op, t, field).Ok?
    ensures var w := OpValue(p, op, t, field).value;
      OpValue(p, Slot(op.key, w), t, field) == Ok(w) <==> OpAgrees(t, op)
  {
    if op.key in {"$in", "$nin"} && op.val.Arr? {
      OperandsTwice(p, op.val.items, t, field);
    } else if op.key in {"$eq", "$ne", "$gt", "$gte", "$lt", "$lte"} {
      OperandTwice(p, op.val, t, field);
    } else {
      OperandTwice(p, op.val, None, field);
    }
  }

  lemma {:induction false} OpsTwice(p: Parsers, ops: seq<Slot>, t: Option<Token>, field: string)
    requires OpValues(p, ops, t, field).Ok?
    ensures var ws := OpValues(p, ops, t, field).value;
      OpValues(p, ws, t, field) == Ok(ws) <==> forall i :: 0 <= i < |ops| ==> OpAgrees(t, ops[i])
  {
    if ops != [] {
      OpTwice(p, ops[0], t, field);
      OpsTwice(p, ops[1..], t, field);
      var ws := OpValues(p, ops, t, field).value;
      assert ws[1..] == OpValues(p, ops[1..], t, field).value;
      var first := OpValue(p, ws[0], t, field);
      ConsTwice(if first.Ok? then Ok(Slot(ws[0].key, first.value)) else Err(first.error), OpValues(p, ws[1..], t, field), ws);
      assert forall i :: 0 <= i < |ops[1..]| ==> ops[1..][i] == ops[i + 1];
      assert forall i :: 0 < i < |ops| ==> ops[i] == ops[1..][i - 1];
    }
  }

  lemma ValueTwice(p: Parsers, v: Bson, t: Option<Token>, field: string)
    requires FieldValue(p, v, t, field).Ok?
    ensures var w := FieldValue(p, v, t, field).value;
      && (FieldValue(p, w, t, field) == Ok(w) <==> ValueAgrees(t, v))
      && (v.Arr? <==> w.Arr?)
  {
    if Operators(v) {
      var w := FieldValue(p, v, t, field).value;
      OpsConformed(p, v.fields, t, field);
      var k :| 0 <= k < |v.fields| && Dollar(v.fields[k].key);
      assert OpConforms(p, t, v.fields[k], w.fields[k]);
      assert HasOperators(w);
      assert OpConforms(p, t, v.fields[0], w.fields[0]);
      assert !IsLiteral(w);
      OpsTwice(p, v.fields, t, field);
    } else {
      OperandTwice(p, v, t, field);
    }
  }

  ghost predicate ClauseAgrees(types: TypeMap, a: Slot) {
    if a.key in {"$and", "$or", "$nor"} && a.val.Arr? then forall j :: 0 <= j < |a.val.items| ==>
      LiteralsAgree(types, a.val.items[j])
    else ValueAgrees(ExpectedType(types, a.key), a.val)
  }

  lemma {:induction false} ClausesTwice(p: Parsers, fields: seq<Slot>, types: TypeMap)
    requires Clauses(p, fields, types).Ok?
    ensures var gs := Clauses(p, fields, types).value;
      Clauses(p, gs, types) == Ok(gs) <==> forall i :: 0 <= i < |fields| ==> ClauseAgrees(types, fields[i])
    decreases fields, 1
  {
    if fields != [] {
      ClausesTwice(p, fields[1..], types);
      var gs := Clauses(p, fields, types).value;
      assert gs[1..] == Clauses(p, fields[1..], types).value;
      ClauseTwice(p, fields[0], types);
      var first := Clause(p, gs[0].key, gs[0].val, types);
      ConsTwice(if first.Ok? then Ok(Slot(gs[0].key, first.value)) else Err(first.error), Clauses(p, gs[1..], types), gs);
      assert forall i :: 0 <= i < |fields[1..]| ==> fields[1..][i] == fields[i + 1];
      assert forall i :: 0 < i < |fields| ==> fields[i] == fields[1..][i - 1];
    }
  }

  lemma {:induction false} ClauseTwice(p: Parsers, a: Slot, types: TypeMap)
    requires Clause(p, a.key, a.val, types).Ok?
    ensures var w := Clause(p, a.key, a.val, types).value; Clause(p, a.key, w, types) == Ok(w) <==> ClauseAgrees(types, a)
    decreases a.val, 2
  {
    if a.key in {"$and", "$or", "$nor"} && a.val.Arr? {
      SubsTwice(p, a.val.items, types);
    } else {
      ValueTwice(p, a.val, ExpectedType(types, a.key), a.key);
    }
  }

  lemma {:induction false} SubsTwice(p: Parsers, items: seq<Bson>, types: TypeMap)
    requires Subs(p, items, types).Ok?
    ensures var gs := Subs(p, items, types).value;
      Subs(p, gs, types) == Ok(gs) <==> forall j :: 0 <= j < |items| ==> LiteralsAgree(types, items[j])
    decreases items, 1
  {
    if items != [] {
      AgainExactly(p, items[0], types);
      SubsTwice(p, items[1..], types);
      var gs := Subs(p, items, types).value;
      assert gs[1..] == Subs(p, items[1..], types).value;
      ConsTwice(Filter(p, gs[0], types), Subs(p, gs[1..], types), gs);
      assert forall i :: 0 <= i < |items[1..]| ==> items[1..][i] == items[i + 1];
      assert forall i :: 0 < i < |items| ==> items[i] == items[1..][i - 1];
    }
  }

  /** Marshalling what was marshalled changes nothing, and does not fail, exactly when every typed
      literal agrees with the type of the field it is compared with. */
  lemma {:induction false} AgainExactly(p: Parsers, f: Bson, types: TypeMap)
    requires Filter(p, f, types).Ok?
    ensures Filter(p, Filter(p, f, types).value, types) == Filter(p, f, types) <==> LiteralsAgree(types, f)
    decreases f, 0
  {
    if f.Doc? {
      ClausesTwice(p, f.fields, types);
      assert (forall i :: 0 <= i < |f.fields| ==> ClauseAgrees(types, f.fields[i])) <==> LiteralsAgree(types, f);
    }
  }
}
