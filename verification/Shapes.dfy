/**
 A declared shape has two meanings: the codec that decodes a value of it, and the
 SQL condition that finds stored values it refuses. This module holds both, a
 compiler from shapes to conditions, and an evaluator of conditions under SQL's
 three truth values in which a query can also fail.
 */
module Shapes {
  import opened Texts
  import opened Wrappers

  datatype Json =
    | JNull
    | JBool(b: bool)
    | JNum(n: real)
    | JStr(s: string)
    | JArr(items: seq<Json>)
    | JObj(members: map<string, Json>)

  /** What a SQL expression of type jsonb holds. */
  datatype Value = SqlNull | Has(json: Json)

  datatype Kind =
    | Text(max: Option<int>, email: bool, many: bool)
    | Enum(values: seq<string>, several: bool)
    | State(states: seq<string>)
    | Bool
    | Int(min: Option<real>, most: Option<real>)
    | Count
    | Duration
    | Number(min: Option<real>, most: Option<real>)
    | List(shortest: Option<int>, longest: Option<int>, of: Shape)
    | Object(fields: seq<Field>, rest: Option<Shape>)
    | Record(of: Shape)
    | Union(arms: seq<Shape>)
    | Tagged(tagName: string, tagged: seq<Arm>)
    | Nested(shape: Shape)
    | Anything

  datatype Shape = Shape(kind: Kind, optional: bool, defaulted: bool)
  datatype Field = Field(name: string, shape: Shape)
  datatype Arm = Arm(tag: string, fields: seq<Field>)

  /** The kinds that hold no other shape. */
  predicate IsPlain(k: Kind) {
    !k.List? && !k.Object? && !k.Record? && !k.Union? && !k.Nested? && !k.Tagged?
  }

  /**
   One `@` with something before and after it and no white space: the pattern both meanings use,
   each with its own white space.
   */
  predicate IsEmail(s: string, space: char -> bool) {
    exists at :: 0 < at < |s| - 1 && s[at] == '@'
      && forall i :: 0 <= i < |s| && i != at ==> s[i] != '@' && !space(s[i])
  }

  predicate IsWhole(n: real) {
    n.Floor as real == n
  }

  predicate Within(n: real, min: Option<real>, max: Option<real>) {
    (min.Some? ==> n >= min.value) && (max.Some? ==> n <= max.value)
  }

  // ---- the codec ----

  predicate TextOk(j: Json, max: Option<int>, email: bool, space: char -> bool) {
    j.JStr? && (max.Some? ==> |j.s| <= max.value) && (email ==> IsEmail(j.s, space))
  }

  predicate TextDecodes(j: Json, max: Option<int>, email: bool, many: bool, space: char -> bool) {
    if many then j.JArr? && forall i :: 0 <= i < |j.items| ==> TextOk(j.items[i], max, email, space)
    else TextOk(j, max, email, space)
  }

  predicate OneOf(j: Json, values: seq<string>) {
    j.JStr? && j.s in values
  }

  ghost predicate Decodes(k: Kind, j: Json)
    decreases k, 1
  {
    match k
    case Text(max, email, many) => TextDecodes(j, max, email, many, IsSpace)
    case Enum(values, several) =>
      if several then j.JArr? && forall i :: 0 <= i < |j.items| ==> OneOf(j.items[i], values)
      else OneOf(j, values)
    case State(states) => OneOf(j, states)
    case Bool => j.JBool?
    case Int(min, max) => j.JNum? && IsWhole(j.n) && Within(j.n, min, max)
    case Count => j.JNum? && IsWhole(j.n) && j.n >= 0.0
    case Duration => j.JNum? && IsWhole(j.n)
    case Number(min, max) => j.JNum? && Within(j.n, min, max)
    case List(min, max, of) =>
      j.JArr? && (min.Some? ==> |j.items| >= min.value) && (max.Some? ==> |j.items| <= max.value)
      && forall i :: 0 <= i < |j.items| ==> Accepts(of, j.items[i])
    case Object(fields, rest) =>
      j.JObj? && FieldsDecode(fields, j.members, None)
      && (rest.Some? ==> forall key :: key in j.members && key !in Names(fields) ==>
            Accepts(rest.value, j.members[key]))
      && (fields == [] && rest.None? ==> j.members == map[])
    case Record(of) => j.JObj? && forall key :: key in j.members ==> Accepts(of, j.members[key])
    case Union(arms) => exists i :: 0 <= i < |arms| && Accepts(arms[i], j)
    case Tagged(tagName, arms) =>
      exists i :: 0 <= i < |arms| && ArmDecodes(tagName, arms[i], j)
    case Nested(shape) => Accepts(shape, j)
    case Anything => true
  }

  /** The tag's literal takes the place of a field of its own name. */
  ghost predicate ArmDecodes(tagName: string, arm: Arm, j: Json)
    decreases arm, 1
  {
    j.JObj? && tagName in j.members && j.members[tagName] == JStr(arm.tag)
    && FieldsDecode(arm.fields, j.members, Some(tagName))
  }

  ghost predicate Accepts(s: Shape, j: Json)
    decreases s, 2
  {
    (s.optional && j.JNull?) || Decodes(s.kind, j)
  }

  /** A required field is present and not null; an optional or defaulted one may be absent or null. */
  ghost predicate FieldsDecode(fields: seq<Field>, members: map<string, Json>, but: Option<string>)
    decreases fields, 0
  {
    forall i :: 0 <= i < |fields| && but != Some(fields[i].name) ==> FieldDecodes(fields[i], members)
  }

  ghost predicate FieldDecodes(f: Field, members: map<string, Json>)
    decreases f, 3
  {
    if f.shape.optional || f.shape.defaulted
    then f.name in members ==> members[f.name].JNull? || Accepts(f.shape, members[f.name])
    else f.name in members && !members[f.name].JNull? && Accepts(f.shape, members[f.name])
  }

  function Names(fields: seq<Field>): set<string> {
    set f | f in fields :: f.name
  }

  function Decoded(v: Value): Json {
    if v.SqlNull? then JNull else v.json
  }

  // ---- SQL conditions ----

  datatype Type = TNull | TBoolean | TNumber | TString | TArray | TObject

  /** A jsonb expression: the column, the row an alias stands for, or a member of either. */
  datatype Sql = Column | Row(alias: nat) | Member(of: Sql, name: string)

  datatype Cond =
    | Const(value: bool)
    | IsNull(x: Sql)
    | IsJsonNull(x: Sql)
    | TypeIs(x: Sql, t: Type)
    | TypeIsNot(x: Sql, t: Type)
    | TextIn(x: Sql, texts: seq<string>)
    | TextEquals(x: Sql, text: string)
    | TextUpTo(x: Sql, length: int)
    | TextIsEmail(x: Sql)
    | NumWhole(x: Sql)
    | NumAtLeast(x: Sql, bound: real)
    | NumAtMost(x: Sql, bound: real)
    | LengthUnder(x: Sql, length: int)
    | LengthOver(x: Sql, length: int)
    | KeyNotIn(alias: nat, keys: seq<string>)
    | Not(c: Cond)
    | OrFalse(c: Cond)
    | All(cs: seq<Cond>)
    | Any(cs: seq<Cond>)
    | Case(when: Cond, yes: Cond, no: Cond)
    | ExistsItem(x: Sql, alias: nat, where_: Cond)
    | ExistsMember(x: Sql, alias: nat, where_: Cond)

  datatype Truth = True | False | Unknown | Fails

  datatype Binding = Binding(key: string, json: Json)

  /**
   `text` is how the database prints a value that is no string, and `space` what its
   patterns hold white space: its locale decides, and U+FEFF, for one, need not be in it.
   */
  datatype Scope = Scope(column: Value, rows: map<nat, Binding>, text: Json -> string, space: char -> bool)

  ghost function ValueOf(x: Sql, sc: Scope): Option<Value> {
    match x
    case Column => Some(sc.column)
    case Row(alias) => if alias in sc.rows then Some(Has(sc.rows[alias].json)) else None
    case Member(of, name) =>
      match ValueOf(of, sc)
      case None => None
      case Some(v) =>
        Some(if v.Has? && v.json.JObj? && name in v.json.members then Has(v.json.members[name]) else SqlNull)
  }

  function TypeOf(j: Json): Type {
    match j
    case JNull => TNull
    case JBool(_) => TBoolean
    case JNum(_) => TNumber
    case JStr(_) => TString
    case JArr(_) => TArray
    case JObj(_) => TObject
  }

  function Known(b: bool): Truth {
    if b then True else False
  }

  /** The text of a value (`#>> '{}'`): none for SQL NULL and JSON null. */
  ghost function TextOf(v: Value, sc: Scope): Option<string> {
    if v.SqlNull? || v.json.JNull? then None
    else if v.json.JStr? then Some(v.json.s)
    else Some(sc.text(v.json))
  }

  /**
   What reading something of an expression comes to: no such row, SQL NULL, a value it cannot be
   read of, or the reading.
   */
  datatype Reading<T> = Unbound | Null | Wrong | Got(value: T)

  function Answer<T>(r: Reading<T>, holds: bool): Truth {
    match r
    case Unbound => Fails
    case Null => Unknown
    case Wrong => Fails
    case Got(_) => Known(holds)
  }

  ghost function ReadText(x: Sql, sc: Scope): Reading<string> {
    match ValueOf(x, sc)
    case None => Unbound
    case Some(v) => if TextOf(v, sc).None? then Null else Got(TextOf(v, sc).value)
  }

  /** A cast to a number fails on any value that is not one. */
  ghost function ReadNumber(x: Sql, sc: Scope): Reading<real> {
    match ValueOf(x, sc)
    case None => Unbound
    case Some(v) => if TextOf(v, sc).None? then Null else if v.json.JNum? then Got(v.json.n) else Wrong
  }

  /** The length of a value fails on any value that is no array. */
  ghost function ReadLength(x: Sql, sc: Scope): Reading<int> {
    match ValueOf(x, sc)
    case None => Unbound
    case Some(v) => if v.SqlNull? then Null else if v.json.JArr? then Got(|v.json.items|) else Wrong
  }

  ghost function ReadType(x: Sql, sc: Scope): Reading<Type> {
    match ValueOf(x, sc)
    case None => Unbound
    case Some(v) => if v.SqlNull? then Null else Got(TypeOf(v.json))
  }

  /** AND and OR evaluate every operand, so one that fails makes the whole fail; CASE evaluates only its branch. */
  ghost function Eval(c: Cond, sc: Scope): Truth
    decreases c, 0
  {
    match c
    case Const(value) => Known(value)
    case IsNull(x) => if ValueOf(x, sc).None? then Fails else Known(ValueOf(x, sc).value.SqlNull?)
    case IsJsonNull(x) =>
      (var r := ReadType(x, sc); Answer(r, r.Got? && r.value == TNull))
    case TypeIs(x, t) =>
      (var r := ReadType(x, sc); Answer(r, r.Got? && r.value == t))
    case TypeIsNot(x, t) =>
      (var r := ReadType(x, sc); Answer(r, r.Got? && r.value != t))
    case TextIn(x, texts) =>
      (var r := ReadText(x, sc); Answer(r, r.Got? && r.value in texts))
    case TextEquals(x, text) =>
      (var r := ReadText(x, sc); Answer(r, r.Got? && r.value == text))
    case TextUpTo(x, length) =>
      (var r := ReadText(x, sc); Answer(r, r.Got? && |r.value| <= length))
    case TextIsEmail(x) =>
      (var r := ReadText(x, sc); Answer(r, r.Got? && IsEmail(r.value, sc.space)))
    case NumWhole(x) =>
      (var r := ReadNumber(x, sc); Answer(r, r.Got? && IsWhole(r.value)))
    case NumAtLeast(x, bound) =>
      (var r := ReadNumber(x, sc); Answer(r, r.Got? && r.value >= bound))
    case NumAtMost(x, bound) =>
      (var r := ReadNumber(x, sc); Answer(r, r.Got? && r.value <= bound))
    case LengthUnder(x, length) =>
      (var r := ReadLength(x, sc); Answer(r, r.Got? && r.value < length))
    case LengthOver(x, length) =>
      (var r := ReadLength(x, sc); Answer(r, r.Got? && r.value > length))
    case KeyNotIn(alias, keys) => if alias in sc.rows then Known(sc.rows[alias].key !in keys) else Fails
    case Not(c) =>
      (match Eval(c, sc) case True => False case False => True case other => other)
    case OrFalse(c) => if Eval(c, sc).Unknown? then False else Eval(c, sc)
    case All(cs) => Conjunction(Outcomes(cs, sc))
    case Any(cs) => Disjunction(Outcomes(cs, sc))
    case Case(when, yes, no) =>
      (match Eval(when, sc)
       case Fails => Fails
       case True => Eval(yes, sc)
       case _ => Eval(no, sc))
    case ExistsItem(x, alias, where_) =>
      (match ValueOf(x, sc)
       case None => Fails
       case Some(v) =>
         if v.SqlNull? then False
         else if !v.json.JArr? then Fails
         else Found(ItemOutcomes(v.json.items, sc, alias, where_)))
    case ExistsMember(x, alias, where_) =>
      (match ValueOf(x, sc)
       case None => Fails
       case Some(v) =>
         if v.SqlNull? then False
         else if !v.json.JObj? then Fails
         else Found(MemberOutcomes(v.json.members, sc, alias, where_)))
  }

  ghost function Outcomes(cs: seq<Cond>, sc: Scope): set<Truth>
    decreases cs, 0
  {
    if cs == [] then {} else {Eval(cs[0], sc)} + Outcomes(cs[1..], sc)
  }

  /** What the rows of an item query answer, each under its own binding. */
  ghost function ItemOutcomes(items: seq<Json>, sc: Scope, alias: nat, where_: Cond): set<Truth>
    decreases where_, 1
  {
    set i | 0 <= i < |items| :: Eval(where_, Bind(sc, alias, "", items[i]))
  }

  /** What the rows of a member query answer, each under its own binding. */
  ghost function MemberOutcomes(members: map<string, Json>, sc: Scope, alias: nat, where_: Cond): set<Truth>
    decreases where_, 1
  {
    set key | key in members :: Eval(where_, Bind(sc, alias, key, members[key]))
  }

  function Conjunction(operands: set<Truth>): Truth {
    if Fails in operands then Fails else if False in operands then False
    else if Unknown in operands then Unknown else True
  }

  function Disjunction(operands: set<Truth>): Truth {
    if Fails in operands then Fails else if True in operands then True
    else if Unknown in operands then Unknown else False
  }

  /** EXISTS: whether the condition is true of some row; a row it is unknown of is not found. */
  function Found(rows: set<Truth>): Truth {
    if Fails in rows then Fails else Known(True in rows)
  }

  ghost function Bind(sc: Scope, alias: nat, key: string, j: Json): Scope {
    sc.(rows := sc.rows[alias := Binding(key, j)])
  }

  // ---- the compiler ----

  function Absent(x: Sql): Cond {
    Any([IsNull(x), IsJsonNull(x)])
  }

  function Guarded(x: Sql, optional: bool, body: Cond): Cond {
    if optional then All([Not(Absent(x)), body]) else Any([Absent(x), body])
  }

  function Unless(c: Cond): Cond {
    Not(OrFalse(c))
  }

  function TextBody(x: Sql, max: Option<int>, email: bool): Cond {
    Unless(All([TypeIs(x, TString)]
               + ((if max.Some? then [TextUpTo(x, max.value)] else [])
                  + (if email then [TextIsEmail(x)] else []))))
  }

  function EnumBody(x: Sql, values: seq<string>): Cond {
    Unless(All([TypeIs(x, TString), if values == [] then Const(false) else TextIn(x, values)]))
  }

  function ItemsBody(x: Sql, depth: nat, item: Cond): Cond {
    Case(TypeIs(x, TArray), ExistsItem(x, depth, Guarded(Row(depth), false, item)), Const(true))
  }

  function Bounds(x: Sql, min: Option<real>, max: Option<real>): seq<Cond> {
    (if min.Some? then [NumAtLeast(x, min.value)] else [])
    + (if max.Some? then [NumAtMost(x, max.value)] else [])
  }

  function NumberBody(x: Sql, checks: seq<Cond>): Cond {
    Case(TypeIs(x, TNumber), Not(All(checks)), Const(true))
  }

  function LengthChecks(x: Sql, min: Option<int>, max: Option<int>): seq<Cond> {
    (if min.Some? then [LengthUnder(x, min.value)] else [])
    + (if max.Some? then [LengthOver(x, max.value)] else [])
  }

  /** The condition true where the value of `x` is no value of shape `s`. */
  function Violation(x: Sql, s: Shape, depth: nat): Cond
    decreases s, 1
  {
    Guarded(x, s.optional, Body(x, s.kind, depth))
  }

  function Body(x: Sql, k: Kind, depth: nat): Cond
    decreases k, 0
  {
    match k
    case Text(max, email, many) =>
      if many then ItemsBody(x, depth, TextBody(Row(depth), max, email)) else TextBody(x, max, email)
    case Enum(values, several) =>
      if several then ItemsBody(x, depth, EnumBody(Row(depth), values)) else EnumBody(x, values)
    case State(states) => EnumBody(x, states)
    case Bool => TypeIsNot(x, TBoolean)
    case Int(min, max) => NumberBody(x, [NumWhole(x)] + Bounds(x, min, max))
    case Count => NumberBody(x, [NumWhole(x), NumAtLeast(x, 0.0)])
    case Duration => NumberBody(x, [NumWhole(x)])
    case Number(min, max) => NumberBody(x, [Const(true)] + Bounds(x, min, max))
    case List(min, max, of) =>
      Case(TypeIs(x, TArray),
           Any(LengthChecks(x, min, max) + [ExistsItem(x, depth, Violation(Row(depth), of, depth + 1))]),
           Const(true))
    case Object(fields, rest) =>
      ObjectBody(x, FieldViolations(x, fields, depth + 1),
                 if rest.Some?
                 then [RestBody(x, NameList(fields), Violation(Row(depth), rest.value, depth + 1), depth)]
                 else [])
    case Record(of) =>
      Case(TypeIs(x, TObject), ExistsMember(x, depth, Violation(Row(depth), of, depth + 1)), Const(true))
    case Union(arms) => if arms == [] then Const(true) else All(ArmViolations(x, arms, depth + 1))
    case Tagged(tagName, arms) => if arms == [] then Const(true) else All(TaggedViolations(x, tagName, arms, depth + 1))
    case Nested(shape) => Violation(x, shape, depth + 1)
    case Anything => Const(false)
  }

  function NameList(fields: seq<Field>): (names: seq<string>)
    ensures forall name :: name in names <==> name in Names(fields)
  {
    if fields == [] then []
    else
      var names := NameList(fields[1..]);
      assert Names(fields) == {fields[0].name} + Names(fields[1..]);
      [fields[0].name] + names
  }

  function ObjectBody(x: Sql, violations: seq<Cond>, rest: seq<Cond>): Cond {
    if violations + rest == [] then TypeIsNot(x, TObject) else Any([TypeIsNot(x, TObject)] + violations + rest)
  }

  /** A member whose name is not declared, of which `each` holds. */
  function Undeclared(alias: nat, names: seq<string>, each: Cond): Cond {
    All((if names == [] then [] else [KeyNotIn(alias, names)]) + [each])
  }

  function RestBody(x: Sql, names: seq<string>, each: Cond, depth: nat): Cond {
    Case(TypeIs(x, TObject),
         ExistsMember(x, depth, Undeclared(depth, names, each)),
         Const(true))
  }

  function FieldViolations(x: Sql, fields: seq<Field>, depth: nat): (cs: seq<Cond>)
    ensures |cs| == |fields|
    decreases fields, 0
  {
    if fields == [] then []
    else
      var f := fields[0];
      [Guarded(Member(x, f.name), f.shape.optional || f.shape.defaulted, Body(Member(x, f.name), f.shape.kind, depth))]
      + FieldViolations(x, fields[1..], depth)
  }

  function ArmViolations(x: Sql, arms: seq<Shape>, depth: nat): (cs: seq<Cond>)
    ensures |cs| == |arms|
    decreases arms, 0
  {
    if arms == [] then [] else [Violation(x, arms[0], depth)] + ArmViolations(x, arms[1..], depth)
  }

  function TaggedArm(x: Sql, tagName: string, arm: Arm, depth: nat): Cond
    decreases arm, 1
  {
    Any([Unless(TextEquals(Member(x, tagName), arm.tag)),
         Guarded(x, false, ObjectBody(x, FieldViolations(x, arm.fields, depth + 1), []))])
  }

  function TaggedViolations(x: Sql, tagName: string, arms: seq<Arm>, depth: nat): (cs: seq<Cond>)
    ensures |cs| == |arms|
    decreases arms, 0
  {
    if arms == [] then [] else [TaggedArm(x, tagName, arms[0], depth)] + TaggedViolations(x, tagName, arms[1..], depth)
  }
}
