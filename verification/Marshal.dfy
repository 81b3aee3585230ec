/** Filters on their way to MongoDB: values are brought to the BSON types of their fields. */
module Marshal {
  import opened Common

  /** A raw document value. `Long` is the 64-bit integer class, a kind of integer. */
  datatype Bson =
    | Nil | Boolean(b: bool) | Integer(n: int) | Long(n: int) | Double(r: real) | Text(s: string) | Oid(hex: string) | Date(at: int)
    | Decimal(digits: string) | Arr(items: seq<Bson>) | Doc(fields: seq<Slot>) | Other(tag: string)

  datatype Slot = Slot(key: string, val: Bson)

  /** The tokens of a type map, and the one for an `_id` without a schema. */
  datatype Token =
    | TDate | TObjectId | TDecimal | TInt | TLong | TString | TBool | TDouble | TArray | TObject | TIdBestEffort

  type TypeMap = map<string, Token>

  /** What library parsers make of a string, and of a number printed as a decimal. */
  datatype Parsers = Parsers(date: string -> Option<int>, int_: string -> Option<int>, decimal: Bson -> Option<string>)

  datatype Mismatch = Mismatch(field: string, expected: Token)

  // ---------------------------------------------------------------- coercers

  predicate Hex24(s: string) { |s| == 24 && forall i :: 0 <= i < 24 ==> '0' <= s[i] <= '9' || 'a' <= s[i] <= 'f' }

  predicate Whole(r: real) { r.Floor as real == r }

  function Unless(v: Option<Bson>, field: string, t: Token): Result<Bson, Mismatch> {
    if v.Some? then Ok(v.value) else Err(Mismatch(field, t))
  }

  function CoerceDate(p: Parsers, v: Bson): Option<Bson> {
    match v
    case Date(_) => Some(v)
    case Text(s) => if p.date(s).Some? then Some(Date(p.date(s).value)) else None
    case _ => None
  }

  function CoerceOid(v: Bson): Option<Bson> {
    match v
    case Oid(_) => Some(v)
    case Text(s) => if Hex24(s) then Some(Oid(s)) else None
    case _ => None
  }

  function CoerceDecimal(p: Parsers, v: Bson): Option<Bson> {
    match v
    case Decimal(_) => Some(v)
    case Boolean(_) => None
    case _ =>
      if (v.Integer? || v.Long? || v.Double? || v.Text?) && p.decimal(v).Some? then Some(Decimal(p.decimal(v).value))
      else None
  }

  function CoerceInt(p: Parsers, v: Bson): Option<Bson> {
    match v
    case Integer(_) => Some(v)
    case Long(_) => Some(v)
    case Double(r) => if Whole(r) then Some(Integer(r.Floor)) else None
    case Text(s) => if p.int_(s).Some? then Some(Integer(p.int_(s).value)) else None
    case _ => None
  }

  function CoerceBestEffort(v: Bson): Bson { if v.Text? && Hex24(v.s) then Oid(v.s) else v }

  /** The token's coercer; the other tokens have none and leave the value alone. */
  function Coerce(p: Parsers, t: Token, v: Bson): Option<Bson> {
    match t
    case TDate => CoerceDate(p, v)
    case TObjectId => CoerceOid(v)
    case TDecimal => CoerceDecimal(p, v)
    case TInt => CoerceInt(p, v)
    case TLong => CoerceInt(p, v)
    case TIdBestEffort => Some(CoerceBestEffort(v))
    case _ => Some(v)
  }

  // ------------------------------------------------------------ typed literals

  /** What a typed literal such as {"$date": ...} stands for. */
  function LiteralToken(key: string): Option<Token> {
    if key == "$date" then Some(TDate) else if key == "$oid" then Some(TObjectId) else if key == "$decimal" then Some(TDecimal)
    else if key == "$int" || key == "$long" then Some(TInt) else None
  }

  predicate IsLiteral(v: Bson) { v.Doc? && |v.fields| == 1 && LiteralToken(v.fields[0].key).Some? }

  function Literal(p: Parsers, v: Bson): Result<Bson, Mismatch>
    requires IsLiteral(v)
  {
    var t := LiteralToken(v.fields[0].key).value;
    Unless(Coerce(p, t, v.fields[0].val), v.fields[0].key, t)
  }

  // -------------------------------------------------------------------- walk

  predicate ValueOp(op: string) { op in {"$eq", "$ne", "$gt", "$gte", "$lt", "$lte"} }

  predicate ListOp(op: string) { op in {"$in", "$nin"} }

  predicate LogicalOp(op: string) { op in {"$and", "$or", "$nor"} }

  predicate Dollar(key: string) { key != "" && key[0] == '$' }

  /** `_marshal_operand`: a literal wins over the field's type. */
  function Operand(p: Parsers, v: Bson, t: Option<Token>, field: string): Result<Bson, Mismatch> {
    if IsLiteral(v) then Literal(p, v)
    else if t.None? then Ok(v)
    else Unless(Coerce(p, t.value, v), field, t.value)
  }

  function Operands(p: Parsers, items: seq<Bson>, t: Option<Token>, field: string): Result<seq<Bson>, Mismatch> {
    if items == [] then Ok([])
    else
      var first :- Operand(p, items[0], t, field);
      var rest :- Operands(p, items[1..], t, field);
      Ok([first] + rest)
  }

  function OpValue(p: Parsers, op: Slot, t: Option<Token>, field: string): Result<Bson, Mismatch> {
    if ListOp(op.key) && op.val.Arr? then
      var items :- Operands(p, op.val.items, t, field);
      Ok(Arr(items))
    else if ValueOp(op.key) then Operand(p, op.val, t, field)
    else if IsLiteral(op.val) then Literal(p, op.val)
    else Ok(op.val)
  }

  function OpValues(p: Parsers, ops: seq<Slot>, t: Option<Token>, field: string): Result<seq<Slot>, Mismatch> {
    if ops == [] then Ok([])
    else
      var first :- OpValue(p, ops[0], t, field);
      var rest :- OpValues(p, ops[1..], t, field);
      Ok([Slot(ops[0].key, first)] + rest)
  }

  predicate HasOperators(v: Bson) { v.Doc? && exists i :: 0 <= i < |v.fields| && Dollar(v.fields[i].key) }

  /** `_marshal_field_value` */
  function FieldValue(p: Parsers, v: Bson, t: Option<Token>, field: string): Result<Bson, Mismatch> {
    if HasOperators(v) && !IsLiteral(v) then
      var ops :- OpValues(p, v.fields, t, field);
      Ok(Doc(ops))
    else Operand(p, v, t, field)
  }

  /** The type a field's operands are brought to; `_id` has rules of its own. */
  function TokenFor(types: TypeMap, field: string): Option<Token> {
    if Dollar(field) then None
    else if field == "_id" then
      if field !in types then Some(TIdBestEffort) else if types[field] == TString then None else Some(types[field])
    else if field in types then Some(types[field])
    else None
  }

  /** `marshal_filter` */
  function Filter(p: Parsers, f: Bson, types: TypeMap): Result<Bson, Mismatch>
    decreases f, 0
  {
    if !f.Doc? then Ok(f)
    else
      var fields :- Clauses(p, f.fields, types);
      Ok(Doc(fields))
  }

  function Clauses(p: Parsers, fields: seq<Slot>, types: TypeMap): Result<seq<Slot>, Mismatch>
    decreases fields, 1
  {
    if fields == [] then Ok([])
    else
      var first :- Clause(p, fields[0].key, fields[0].val, types);
      var rest :- Clauses(p, fields[1..], types);
      Ok([Slot(fields[0].key, first)] + rest)
  }

  function Clause(p: Parsers, field: string, v: Bson, types: TypeMap): Result<Bson, Mismatch>
    decreases v, 2
  {
    if LogicalOp(field) && v.Arr? then
      var subs :- Subs(p, v.items, types);
      Ok(Arr(subs))
    else FieldValue(p, v, TokenFor(types, field), field)
  }

  function Subs(p: Parsers, items: seq<Bson>, types: TypeMap): Result<seq<Bson>, Mismatch>
    decreases items, 1
  {
    if items == [] then Ok([])
    else
      var first :- Filter(p, items[0], types);
      var rest :- Subs(p, items[1..], types);
      Ok([first] + rest)
  }

  // ------------------------------------------------------- as it is written

  /** What was built, and what the specification says of the rest. */
  ghost function Joined<T>(out: seq<T>, rest: Result<seq<T>, Mismatch>): Result<seq<T>, Mismatch> {
    match rest case Ok(more) => Ok(out + more) case Err(e) => Err(e)
  }

  lemma JoinedUnit<T>(out: seq<T>, r: Result<seq<T>, Mismatch>)
    ensures Joined([], r) == r && Joined(out, Ok([])) == Ok(out)
  {
    if r.Ok? { assert [] + r.value == r.value; }
    assert out + [] == out;
  }

  lemma JoinedNext<T>(out: seq<T>, x: T, r: Result<seq<T>, Mismatch>)
    ensures Joined(out, Joined([x], r)) == Joined(out + [x], r)
  {
    if r.Ok? { assert out + ([x] + r.value) == out + [x] + r.value; }
  }

  method MarshalList(p: Parsers, items: seq<Bson>, t: Option<Token>, field: string) returns (r: Result<seq<Bson>, Mismatch>)
    ensures r == Operands(p, items, t, field)
  {
    var out: seq<Bson> := [];
    assert items[0..] == items;
    JoinedUnit(out, Operands(p, items, t, field));
    for i := 0 to |items|
      invariant Joined(out, Operands(p, items[i..], t, field)) == Operands(p, items, t, field)
    {
      assert items[i..][0] == items[i] && items[i..][1..] == items[i+1..];
      var one := Operand(p, items[i], t, field);
      if one.Err? {
        return Err(one.error);
      }
      JoinedNext(out, one.value, Operands(p, items[i+1..], t, field));
      out := out + [one.value];
    }
    assert items[|items|..] == [];
    JoinedUnit(out, Ok([]));
    return Ok(out);
  }

  method MarshalFieldValue(p: Parsers, v: Bson, t: Option<Token>, field: string) returns (r: Result<Bson, Mismatch>)
    ensures r == FieldValue(p, v, t, field)
  {
    if !HasOperators(v) || IsLiteral(v) {
      return Operand(p, v, t, field);
    }
    var ops, out: seq<Slot> := v.fields, [];
    assert ops[0..] == ops;
    JoinedUnit(out, OpValues(p, ops, t, field));
    for i := 0 to |ops|
      invariant Joined(out, OpValues(p, ops[i..], t, field)) == OpValues(p, ops, t, field)
    {
      assert ops[i..][0] == ops[i] && ops[i..][1..] == ops[i+1..];
      var op, operand := ops[i].key, ops[i].val;
      var one: Result<Bson, Mismatch>;
      if ListOp(op) && operand.Arr? {
        var items := MarshalList(p, operand.items, t, field);
        one := if items.Ok? then Ok(Arr(items.value)) else Err(items.error);
      } else if ValueOp(op) {
        one := Operand(p, operand, t, field);
      } else {
        one := if IsLiteral(operand) then Literal(p, operand) else Ok(operand);
      }
      assert one == OpValue(p, ops[i], t, field);
      if one.Err? {
        return Err(one.error);
      }
      JoinedNext(out, Slot(op, one.value), OpValues(p, ops[i+1..], t, field));
      out := out + [Slot(op, one.value)];
    }
    assert ops[|ops|..] == [];
    JoinedUnit(out, Ok([]));
    return Ok(Doc(out));
  }

  /** The walk fills a new dict, clause by clause. */
  method MarshalFilter(p: Parsers, f: Bson, types: TypeMap) returns (r: Result<Bson, Mismatch>)
    ensures r == Filter(p, f, types)
    decreases f
  {
    if !f.Doc? {
      return Ok(f);
    }
    var fields, out: seq<Slot> := f.fields, [];
    assert fields[0..] == fields;
    JoinedUnit(out, Clauses(p, fields, types));
    for i := 0 to |fields|
      invariant Joined(out, Clauses(p, fields[i..], types)) == Clauses(p, fields, types)
    {
      assert fields[i..][0] == fields[i] && fields[i..][1..] == fields[i+1..];
      var field, value := fields[i].key, fields[i].val;
      var one: Result<Bson, Mismatch>;
      if LogicalOp(field) && value.Arr? {
        var subs := MarshalSubs(p, value.items, types);
        one := if subs.Ok? then Ok(Arr(subs.value)) else Err(subs.error);
      } else {
        one := MarshalFieldValue(p, value, TokenFor(types, field), field);
      }
      if one.Err? {
        return Err(one.error);
      }
      JoinedNext(out, Slot(field, one.value), Clauses(p, fields[i+1..], types));
      out := out + [Slot(field, one.value)];
    }
    assert fields[|fields|..] == [];
    JoinedUnit(out, Ok([]));
    return Ok(Doc(out));
  }

  method MarshalSubs(p: Parsers, items: seq<Bson>, types: TypeMap) returns (r: Result<seq<Bson>, Mismatch>)
    ensures r == Subs(p, items, types)
    decreases items
  {
    var out: seq<Bson> := [];
    assert items[0..] == items;
    JoinedUnit(out, Subs(p, items, types));
    for i := 0 to |items|
      invariant Joined(out, Subs(p, items[i..], types)) == Subs(p, items, types)
    {
      assert items[i..][0] == items[i] && items[i..][1..] == items[i+1..];
      var one := MarshalFilter(p, items[i], types);
      if one.Err? {
        return Err(one.error);
      }
      JoinedNext(out, one.value, Subs(p, items[i+1..], types));
      out := out + [one.value];
    }
    assert items[|items|..] == [];
    JoinedUnit(out, Ok([]));
    return Ok(out);
  }
}
