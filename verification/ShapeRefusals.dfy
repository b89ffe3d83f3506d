/** The compiled condition is true exactly of the values the codec refuses. */
module ShapeRefusals {
  import opened Wrappers
  import opened Shapes
  import opened Texts

  /** The database's patterns hold the same characters white space as JavaScript's. */
  ghost predicate SameSpace(space: char -> bool) {
    forall c :: space(c) <==> IsSpace(c)
  }

  /**
   The shapes on which the two meanings agree everywhere. Outside lie a bare json
   or an optional arm where null is refused, an object of no fields, tagged arms, and
   an email address where the database's white space is not JavaScript's.
   */
  ghost predicate InFragment(s: Shape, space: char -> bool)
    decreases s, 1
  {
    match s.kind
    case Text(_, email, _) => email ==> SameSpace(space)
    case List(_, _, of) => InFragment(of, space)
    case Object(fields, rest) =>
      (fields != [] || rest.Some?)
      && (forall i :: 0 <= i < |fields| ==> InFragment(fields[i].shape, space))
      && (rest.Some? ==> InFragment(rest.value, space))
    case Record(of) => InFragment(of, space)
    case Union(arms) =>
      forall i :: 0 <= i < |arms| ==> InFragment(arms[i], space) && (arms[i].optional ==> s.optional)
    case Tagged(_, _) => false
    case Nested(shape) => InFragment(shape, space) && (shape.optional ==> s.optional)
    case Anything => s.optional
    case _ => true
  }

  lemma {:induction false} OutcomesJoin(a: seq<Cond>, b: seq<Cond>, sc: Scope)
    ensures Outcomes(a + b, sc) == Outcomes(a, sc) + Outcomes(b, sc)
    decreases |a|
  {
    if a == [] {
      assert a + b == b;
    } else {
      OutcomesJoin(a[1..], b, sc);
      assert (a + b)[1..] == a[1..] + b;
    }
  }

  /** What a body must do: never fail, and on a value that is not null be true exactly when the codec refuses it. */
  ghost predicate BodyRight(body: Cond, v: Value, sc: Scope, decodes: bool) {
    !Eval(body, sc).Fails? && (!Decoded(v).JNull? ==> Eval(body, sc) == Known(!decodes))
  }

  lemma Two(a: Cond, b: Cond, sc: Scope)
    ensures Eval(All([a, b]), sc) == Conjunction({Eval(a, sc), Eval(b, sc)})
    ensures Eval(Any([a, b]), sc) == Disjunction({Eval(a, sc), Eval(b, sc)})
  {
    One(a, sc);
    One(b, sc);
    OutcomesJoin([a], [b], sc);
    assert [a] + [b] == [a, b];
    Joined([a, b], sc, {Eval(a, sc), Eval(b, sc)});
  }

  lemma Joined(cs: seq<Cond>, sc: Scope, outcomes: set<Truth>)
    requires Outcomes(cs, sc) == outcomes
    ensures Eval(All(cs), sc) == Conjunction(outcomes)
    ensures Eval(Any(cs), sc) == Disjunction(outcomes)
  {
  }

  lemma AbsentRight(x: Sql, v: Value, sc: Scope)
    requires ValueOf(x, sc) == Some(v)
    ensures Eval(Absent(x), sc) == Known(Decoded(v).JNull?)
  {
    Two(IsNull(x), IsJsonNull(x), sc);
  }

  lemma GuardedRight(x: Sql, optional: bool, body: Cond, v: Value, sc: Scope, decodes: bool)
    requires ValueOf(x, sc) == Some(v) && BodyRight(body, v, sc, decodes)
    ensures Eval(Guarded(x, optional, body), sc)
         == Known(if Decoded(v).JNull? then !optional else !decodes)
  {
    AbsentRight(x, v, sc);
    var absent := Absent(x);
    var present := Not(absent);
    assert Eval(present, sc) == Known(!Decoded(v).JNull?);
    Two(present, body, sc);
    Two(absent, body, sc);
  }

  // ---- bodies of values that hold no others ----

  lemma UnlessRight(c: Cond, sc: Scope)
    ensures Eval(Unless(c), sc) == if Eval(c, sc).Fails? then Fails else Known(!Eval(c, sc).True?)
  {
    var inner := OrFalse(c);
    assert Eval(inner, sc) == if Eval(c, sc).Unknown? then False else Eval(c, sc);
  }

  lemma One(c: Cond, sc: Scope)
    ensures Outcomes([c], sc) == {Eval(c, sc)}
  {
    assert [c][1..] == [];
  }

  lemma TextRight(x: Sql, v: Value, sc: Scope, max: Option<int>, email: bool)
    requires ValueOf(x, sc) == Some(v)
    ensures BodyRight(TextBody(x, max, email), v, sc, TextOk(Decoded(v), max, email, sc.space))
  {
    var str := TypeIs(x, TString);
    var short := if max.Some? then [TextUpTo(x, max.value)] else [];
    var mail := if email then [TextIsEmail(x)] else [];
    One(str, sc);
    if max.Some? { One(TextUpTo(x, max.value), sc); }
    if email { One(TextIsEmail(x), sc); }
    OutcomesJoin(short, mail, sc);
    OutcomesJoin([str], short + mail, sc);
    var all := All([str] + (short + mail));
    var outcomes := {Eval(str, sc)} + (Outcomes(short, sc) + Outcomes(mail, sc));
    Joined([str] + (short + mail), sc, outcomes);
    UnlessRight(all, sc);
    TextOutcomes(x, v, sc, max, email, Eval(str, sc), Outcomes(short, sc), Outcomes(mail, sc));
    assert TextBody(x, max, email) == Unless(all);
  }

  /** What a text's checks answer together: all true on the texts in range, and never a failure. */
  lemma TextOutcomes(
      x: Sql, v: Value, sc: Scope, max: Option<int>, email: bool, str: Truth, short: set<Truth>,
      mail: set<Truth>)
    requires ValueOf(x, sc) == Some(v) && str == Eval(TypeIs(x, TString), sc)
    requires short == if max.Some? then {Eval(TextUpTo(x, max.value), sc)} else {}
    requires mail == if email then {Eval(TextIsEmail(x), sc)} else {}
    ensures !Conjunction({str} + (short + mail)).Fails?
    ensures !Decoded(v).JNull? ==>
        (Conjunction({str} + (short + mail)).True? <==> TextOk(Decoded(v), max, email, sc.space))
  {
  }

  lemma EnumRight(x: Sql, v: Value, sc: Scope, values: seq<string>)
    requires ValueOf(x, sc) == Some(v)
    ensures BodyRight(EnumBody(x, values), v, sc, OneOf(Decoded(v), values))
  {
    Two(TypeIs(x, TString), if values == [] then Const(false) else TextIn(x, values), sc);
  }

  /** A number's checks each answer on a number; the cast they hold is never reached on anything else. */
  lemma NumberRight(x: Sql, v: Value, sc: Scope, checks: seq<Cond>, ok: bool)
    requires ValueOf(x, sc) == Some(v)
    requires v.Has? && v.json.JNum? ==> Conjunction(Outcomes(checks, sc)) == Known(ok)
    ensures BodyRight(NumberBody(x, checks), v, sc, Decoded(v).JNum? && ok)
  {
    var all := All(checks);
    CaseRight(x, TNumber, v, sc, Not(all));
    if v.Has? && v.json.JNum? {
      assert Eval(all, sc) == Known(ok);
    }
  }

  lemma BoundsRight(x: Sql, v: Value, sc: Scope, first: Cond, whole: bool, min: Option<real>, max: Option<real>)
    requires ValueOf(x, sc) == Some(v)
    requires first == if whole then NumWhole(x) else Const(true)
    ensures BodyRight(NumberBody(x, [first] + Bounds(x, min, max)), v, sc,
                      Decoded(v).JNum? && (whole ==> IsWhole(Decoded(v).n)) && Within(Decoded(v).n, min, max))
  {
    var low := if min.Some? then [NumAtLeast(x, min.value)] else [];
    var high := if max.Some? then [NumAtMost(x, max.value)] else [];
    One(first, sc);
    if min.Some? { One(NumAtLeast(x, min.value), sc); }
    if max.Some? { One(NumAtMost(x, max.value), sc); }
    OutcomesJoin(low, high, sc);
    OutcomesJoin([first], low + high, sc);
    NumberRight(x, v, sc, [first] + (low + high),
                v.Has? && v.json.JNum? && (whole ==> IsWhole(v.json.n)) && Within(v.json.n, min, max));
  }

  // ---- bodies over items and members ----

  lemma CaseRight(x: Sql, t: Type, v: Value, sc: Scope, yes: Cond)
    requires ValueOf(x, sc) == Some(v)
    ensures Eval(Case(TypeIs(x, t), yes, Const(true)), sc)
         == if v.Has? && TypeOf(v.json) == t then Eval(yes, sc) else True
  {
    var when := TypeIs(x, t);
    assert Eval(when, sc) == if v.SqlNull? then Unknown else Known(TypeOf(v.json) == t);
    assert Eval(Const(true), sc) == True;
  }

  ghost predicate AllGood(items: seq<Json>, good: Json -> bool) {
    forall i :: 0 <= i < |items| ==> good(items[i])
  }

  ghost predicate FindsTheBad(items: seq<Json>, sc: Scope, depth: nat, where_: Cond, good: Json -> bool) {
    forall i :: 0 <= i < |items| ==> Eval(where_, Bind(sc, depth, "", items[i])) == Known(!good(items[i]))
  }

  lemma ItemsFound(items: seq<Json>, sc: Scope, depth: nat, where_: Cond, good: Json -> bool)
    requires FindsTheBad(items, sc, depth, where_, good)
    ensures Found(ItemOutcomes(items, sc, depth, where_)) == Known(!AllGood(items, good))
  {
    var outcomes := ItemOutcomes(items, sc, depth, where_);
    assert forall o :: o in outcomes ==> o != Fails;
    if i :| 0 <= i < |items| && !good(items[i]) {
      assert Eval(where_, Bind(sc, depth, "", items[i])) in outcomes;
    } else {
      assert AllGood(items, good) && True !in outcomes;
    }
  }

  lemma ItemsEval(x: Sql, items: seq<Json>, sc: Scope, depth: nat, where_: Cond, found: Truth)
    requires ValueOf(x, sc) == Some(Has(JArr(items))) && Found(ItemOutcomes(items, sc, depth, where_)) == found
    ensures Eval(ExistsItem(x, depth, where_), sc) == found
  {
  }

  lemma ItemsRight(x: Sql, items: seq<Json>, sc: Scope, depth: nat, where_: Cond, good: Json -> bool)
    requires ValueOf(x, sc) == Some(Has(JArr(items)))
    requires FindsTheBad(items, sc, depth, where_, good)
    ensures Eval(ExistsItem(x, depth, where_), sc) == Known(!AllGood(items, good))
  {
    ItemsFound(items, sc, depth, where_, good);
    ItemsEval(x, items, sc, depth, where_, Known(!AllGood(items, good)));
  }

  /** The rows a member query finds are the members `found`. */
  lemma MembersRight(x: Sql, members: map<string, Json>, sc: Scope, depth: nat, where_: Cond, found: set<string>)
    requires ValueOf(x, sc) == Some(Has(JObj(members)))
    requires forall key :: key in members ==>
      Eval(where_, Bind(sc, depth, key, members[key])) == Known(key in found)
    ensures Eval(ExistsMember(x, depth, where_), sc) == Known(exists key :: key in members && key in found)
  {
    FoundRight(members, sc, depth, where_, found);
    var c := ExistsMember(x, depth, where_);
    assert Eval(c, sc) == Found(MemberOutcomes(members, sc, depth, where_));
  }

  lemma FoundRight(members: map<string, Json>, sc: Scope, depth: nat, where_: Cond, found: set<string>)
    requires forall key :: key in members ==>
      Eval(where_, Bind(sc, depth, key, members[key])) == Known(key in found)
    ensures Found(MemberOutcomes(members, sc, depth, where_)) == Known(exists key :: key in members && key in found)
  {
    if key :| key in members && key in found {
      assert Eval(where_, Bind(sc, depth, key, members[key])) in MemberOutcomes(members, sc, depth, where_);
    }
  }

  // ---- the theorem ----

  /** In the fragment only an optional shape decodes null. */
  lemma {:induction false} NullNeedsOptional(s: Shape, space: char -> bool)
    requires InFragment(s, space) && Accepts(s, JNull)
    ensures s.optional
  {
    match s.kind {
      case Union(arms) =>
        if !s.optional {
          var i :| 0 <= i < |arms| && Accepts(arms[i], JNull);
          NullNeedsOptional(arms[i], space);
        }
      case Nested(shape) =>
        if !s.optional { NullNeedsOptional(shape, space); }
      case _ =>
    }
  }

  /**
   The compiled condition, in any scope that binds its expression, is never unknown
   and never fails, and is true exactly when the codec refuses the value; SQL NULL
   counts as null.
   */
  lemma {:induction false} ViolationIsRefusal(x: Sql, s: Shape, depth: nat, sc: Scope)
    requires InFragment(s, sc.space) && ValueOf(x, sc).Some?
    ensures Eval(Violation(x, s, depth), sc) == Known(!Accepts(s, Decoded(ValueOf(x, sc).value)))
    decreases s, 4
  {
    var v := ValueOf(x, sc).value;
    BodyIsRefusal(x, s, depth, sc);
    GuardedRight(x, s.optional, Body(x, s.kind, depth), v, sc, Decodes(s.kind, Decoded(v)));
    if Accepts(s, JNull) { NullNeedsOptional(s, sc.space); }
  }

  lemma {:induction false} BodyIsRefusal(x: Sql, s: Shape, depth: nat, sc: Scope)
    requires InFragment(s, sc.space) && ValueOf(x, sc).Some?
    ensures BodyRight(Body(x, s.kind, depth), ValueOf(x, sc).value, sc, Decodes(s.kind, Decoded(ValueOf(x, sc).value)))
    decreases s, 3
  {
    var v := ValueOf(x, sc).value;
    match s.kind {
      case List(min, max, of) => ListIsRefusal(x, v, sc, depth, min, max, of);
      case Object(fields, rest) => ObjectIsRefusal(x, v, sc, depth, s, fields, rest);
      case Record(of) => RecordIsRefusal(x, v, sc, depth, of);
      case Union(arms) => UnionIsRefusal(x, v, sc, depth, arms);
      case Nested(shape) => ViolationIsRefusal(x, shape, depth + 1, sc);
      case _ => PlainIsRefusal(x, s.kind, v, sc, depth);
    }
  }

  lemma TextIsRefusal(x: Sql, v: Value, sc: Scope, depth: nat, max: Option<int>, email: bool, many: bool)
    requires ValueOf(x, sc) == Some(v)
    ensures BodyRight(Body(x, Text(max, email, many), depth), v, sc,
                      TextDecodes(Decoded(v), max, email, many, sc.space))
  {
    if many { ManyTextRight(x, v, sc, depth, max, email); } else { TextRight(x, v, sc, max, email); }
  }

  lemma SameSpaceAgrees(j: Json, max: Option<int>, email: bool, many: bool, space: char -> bool)
    requires email ==> SameSpace(space)
    ensures TextDecodes(j, max, email, many, space) <==> TextDecodes(j, max, email, many, IsSpace)
  {
    if email {
      assert forall s: string :: IsEmail(s, space) <==> IsEmail(s, IsSpace);
    }
  }

  lemma PlainIsRefusal(x: Sql, k: Kind, v: Value, sc: Scope, depth: nat)
    requires ValueOf(x, sc) == Some(v) && IsPlain(k)
    requires k.Text? && k.email ==> SameSpace(sc.space)
    ensures BodyRight(Body(x, k, depth), v, sc, Decodes(k, Decoded(v)))
  {
    match k {
      case Text(max, email, many) =>
        TextIsRefusal(x, v, sc, depth, max, email, many);
        SameSpaceAgrees(Decoded(v), max, email, many, sc.space);
      case Enum(values, several) =>
        if several { ManyEnumRight(x, v, sc, depth, values); } else { EnumRight(x, v, sc, values); }
      case State(states) => EnumRight(x, v, sc, states);
      case Bool =>
      case Int(min, max) => BoundsRight(x, v, sc, NumWhole(x), true, min, max);
      case Count =>
        BoundsRight(x, v, sc, NumWhole(x), true, Some(0.0), None);
        assert [NumWhole(x)] + Bounds(x, Some(0.0), None) == [NumWhole(x), NumAtLeast(x, 0.0)];
      case Duration =>
        BoundsRight(x, v, sc, NumWhole(x), true, None, None);
        assert [NumWhole(x)] + Bounds(x, None, None) == [NumWhole(x)];
      case Number(min, max) => BoundsRight(x, v, sc, Const(true), false, min, max);
      case Anything =>
    }
  }

  lemma ManyTextRight(x: Sql, v: Value, sc: Scope, depth: nat, max: Option<int>, email: bool)
    requires ValueOf(x, sc) == Some(v)
    ensures BodyRight(Body(x, Text(max, email, true), depth), v, sc,
                      TextDecodes(Decoded(v), max, email, true, sc.space))
  {
    var where_ := Guarded(Row(depth), false, TextBody(Row(depth), max, email));
    CaseRight(x, TArray, v, sc, ExistsItem(x, depth, where_));
    if v.Has? && v.json.JArr? {
      forall i | 0 <= i < |v.json.items|
        ensures Eval(where_, Bind(sc, depth, "", v.json.items[i]))
            == Known(!TextOk(v.json.items[i], max, email, sc.space))
      {
        var inner := Bind(sc, depth, "", v.json.items[i]);
        TextRight(Row(depth), Has(v.json.items[i]), inner, max, email);
        GuardedRight(Row(depth), false, TextBody(Row(depth), max, email), Has(v.json.items[i]), inner,
                     TextOk(v.json.items[i], max, email, sc.space));
      }
      ItemsRight(x, v.json.items, sc, depth, where_, j => TextOk(j, max, email, sc.space));
    }
  }

  lemma ManyEnumRight(x: Sql, v: Value, sc: Scope, depth: nat, values: seq<string>)
    requires ValueOf(x, sc) == Some(v)
    ensures BodyRight(Body(x, Enum(values, true), depth), v, sc, Decodes(Enum(values, true), Decoded(v)))
  {
    var where_ := Guarded(Row(depth), false, EnumBody(Row(depth), values));
    CaseRight(x, TArray, v, sc, ExistsItem(x, depth, where_));
    if v.Has? && v.json.JArr? {
      forall i | 0 <= i < |v.json.items|
        ensures Eval(where_, Bind(sc, depth, "", v.json.items[i])) == Known(!OneOf(v.json.items[i], values))
      {
        var inner := Bind(sc, depth, "", v.json.items[i]);
        EnumRight(Row(depth), Has(v.json.items[i]), inner, values);
        GuardedRight(Row(depth), false, EnumBody(Row(depth), values), Has(v.json.items[i]), inner,
                     OneOf(v.json.items[i], values));
      }
      ItemsRight(x, v.json.items, sc, depth, where_, j => OneOf(j, values));
    }
  }

  lemma LengthsRight(x: Sql, items: seq<Json>, sc: Scope, min: Option<int>, max: Option<int>)
    requires ValueOf(x, sc) == Some(Has(JArr(items)))
    ensures Outcomes(LengthChecks(x, min, max), sc) <= {True, False}
    ensures True in Outcomes(LengthChecks(x, min, max), sc)
       <==> !((min.Some? ==> |items| >= min.value) && (max.Some? ==> |items| <= max.value))
  {
    var short := if min.Some? then [LengthUnder(x, min.value)] else [];
    var long := if max.Some? then [LengthOver(x, max.value)] else [];
    if min.Some? { One(LengthUnder(x, min.value), sc); }
    if max.Some? { One(LengthOver(x, max.value), sc); }
    OutcomesJoin(short, long, sc);
  }

  lemma {:induction false} ListIsRefusal(x: Sql, v: Value, sc: Scope, depth: nat,
                                         min: Option<int>, max: Option<int>, of: Shape)
    requires ValueOf(x, sc) == Some(v) && InFragment(of, sc.space)
    ensures BodyRight(Body(x, List(min, max, of), depth), v, sc, Decodes(List(min, max, of), Decoded(v)))
    decreases of, 5
  {
    var where_ := Violation(Row(depth), of, depth + 1);
    var item := ExistsItem(x, depth, where_);
    var any := Any(LengthChecks(x, min, max) + [item]);
    CaseRight(x, TArray, v, sc, any);
    if v.Has? && v.json.JArr? {
      var items := v.json.items;
      forall i | 0 <= i < |items|
        ensures Eval(where_, Bind(sc, depth, "", items[i])) == Known(!Accepts(of, items[i]))
      {
        ViolationIsRefusal(Row(depth), of, depth + 1, Bind(sc, depth, "", items[i]));
      }
      ghost var good := (j: Json) => Accepts(of, j);
      ItemsRight(x, items, sc, depth, where_, good);
      LengthsRight(x, items, sc, min, max);
      AnyAppend(LengthChecks(x, min, max), item, sc);
    }
  }

  lemma AnyAppend(cs: seq<Cond>, c: Cond, sc: Scope)
    ensures Eval(Any(cs + [c]), sc) == Disjunction(Outcomes(cs, sc) + {Eval(c, sc)})
    ensures Eval(All(cs + [c]), sc) == Conjunction(Outcomes(cs, sc) + {Eval(c, sc)})
  {
    One(c, sc);
    OutcomesJoin(cs, [c], sc);
    Joined(cs + [c], sc, Outcomes(cs, sc) + {Eval(c, sc)});
  }

  lemma {:induction false} RecordIsRefusal(x: Sql, v: Value, sc: Scope, depth: nat, of: Shape)
    requires ValueOf(x, sc) == Some(v) && InFragment(of, sc.space)
    ensures BodyRight(Body(x, Record(of), depth), v, sc, Decodes(Record(of), Decoded(v)))
    decreases of, 5
  {
    var where_ := Violation(Row(depth), of, depth + 1);
    CaseRight(x, TObject, v, sc, ExistsMember(x, depth, where_));
    if v.Has? && v.json.JObj? {
      var members := v.json.members;
      var bad := set key | key in members && !Accepts(of, members[key]);
      forall key | key in members
        ensures Eval(where_, Bind(sc, depth, key, members[key])) == Known(key in bad)
      {
        ViolationIsRefusal(Row(depth), of, depth + 1, Bind(sc, depth, key, members[key]));
      }
      MembersRight(x, members, sc, depth, where_, bad);
    }
  }

  /** The members of a value, none when it is no object: what reading a member of it sees. */
  ghost function MembersOf(v: Value): map<string, Json> {
    if v.Has? && v.json.JObj? then v.json.members else map[]
  }

  lemma {:induction false} FieldsAreRefusals(x: Sql, v: Value, sc: Scope, depth: nat, fields: seq<Field>)
    requires ValueOf(x, sc) == Some(v) && forall i :: 0 <= i < |fields| ==> InFragment(fields[i].shape, sc.space)
    ensures Outcomes(FieldViolations(x, fields, depth), sc) <= {True, False}
    ensures True in Outcomes(FieldViolations(x, fields, depth), sc) <==> !FieldsDecode(fields, MembersOf(v), None)
    decreases fields, 0
  {
    if fields != [] {
      var f := fields[0];
      var (y, optional) := (Member(x, f.name), f.shape.optional || f.shape.defaulted);
      var w := ValueOf(y, sc).value;
      BodyIsRefusal(y, f.shape, depth, sc);
      GuardedRight(y, optional, Body(y, f.shape.kind, depth), w, sc, Decodes(f.shape.kind, Decoded(w)));
      FieldsAreRefusals(x, v, sc, depth, fields[1..]);
      var head := Guarded(y, optional, Body(y, f.shape.kind, depth));
      assert Eval(head, sc) == Known(!FieldDecodes(f, MembersOf(v)));
      assert FieldViolations(x, fields, depth) == [head] + FieldViolations(x, fields[1..], depth);
      One(head, sc);
      OutcomesJoin([head], FieldViolations(x, fields[1..], depth), sc);
      FieldsSplit(fields, MembersOf(v));
    }
  }

  lemma FieldsSplit(fields: seq<Field>, members: map<string, Json>)
    requires fields != []
    ensures FieldsDecode(fields, members, None)
       <==> FieldDecodes(fields[0], members) && FieldsDecode(fields[1..], members, None)
  {
    if FieldDecodes(fields[0], members) && FieldsDecode(fields[1..], members, None) {
      forall i | 0 <= i < |fields| ensures FieldDecodes(fields[i], members) {
        if i > 0 { assert fields[i] == fields[1..][i - 1]; }
      }
    } else if FieldsDecode(fields, members, None) {
      forall i | 0 <= i < |fields| - 1 ensures FieldDecodes(fields[1..][i], members) {
        assert fields[1..][i] == fields[i + 1];
      }
    }
  }

  lemma UndeclaredRight(alias: nat, fields: seq<Field>, each: Cond, sc: Scope, key: string, j: Json, bad: bool)
    requires Eval(each, Bind(sc, alias, key, j)) == Known(bad)
    ensures Eval(Undeclared(alias, NameList(fields), each), Bind(sc, alias, key, j))
         == Known(key !in Names(fields) && bad)
  {
    var names := NameList(fields);
    var guards := if names == [] then [] else [KeyNotIn(alias, names)];
    var inner := Bind(sc, alias, key, j);
    if names != [] { One(KeyNotIn(alias, names), inner); }
    AnyAppend(guards, each, inner);
  }

  lemma {:induction false} RestIsRefusal(x: Sql, v: Value, sc: Scope, depth: nat, fields: seq<Field>, rest: Shape)
    requires ValueOf(x, sc) == Some(v) && InFragment(rest, sc.space)
    ensures var c := RestBody(x, NameList(fields), Violation(Row(depth), rest, depth + 1), depth);
            !Eval(c, sc).Fails?
            && (v.Has? && v.json.JObj? ==>
                  Eval(c, sc) == Known(!forall key :: key in v.json.members && key !in Names(fields) ==>
                                          Accepts(rest, v.json.members[key])))
    decreases rest, 5
  {
    var each := Violation(Row(depth), rest, depth + 1);
    var where_ := Undeclared(depth, NameList(fields), each);
    CaseRight(x, TObject, v, sc, ExistsMember(x, depth, where_));
    if v.Has? && v.json.JObj? {
      var members := v.json.members;
      var bad := set key | key in members && key !in Names(fields) && !Accepts(rest, members[key]);
      forall key | key in members
        ensures Eval(where_, Bind(sc, depth, key, members[key])) == Known(key in bad)
      {
        ViolationIsRefusal(Row(depth), rest, depth + 1, Bind(sc, depth, key, members[key]));
        UndeclaredRight(depth, fields, each, sc, key, members[key], !Accepts(rest, members[key]));
      }
      MembersRight(x, members, sc, depth, where_, bad);
    }
  }

  lemma ObjectBodyRight(x: Sql, v: Value, sc: Scope, violations: seq<Cond>, rest: seq<Cond>)
    requires ValueOf(x, sc) == Some(v) && violations + rest != []
    ensures Eval(ObjectBody(x, violations, rest), sc)
         == Disjunction({if v.SqlNull? then Unknown else Known(!v.json.JObj?)}
                        + Outcomes(violations, sc) + Outcomes(rest, sc))
  {
    var not := TypeIsNot(x, TObject);
    One(not, sc);
    OutcomesJoin([not], violations, sc);
    OutcomesJoin([not] + violations, rest, sc);
    var any := Any([not] + violations + rest);
    assert ObjectBody(x, violations, rest) == any;
    assert Eval(any, sc) == Disjunction(Outcomes([not] + violations + rest, sc));
  }

  lemma {:induction false} ObjectIsRefusal(x: Sql, v: Value, sc: Scope, depth: nat, s: Shape,
                                           fields: seq<Field>, rest: Option<Shape>)
    requires ValueOf(x, sc) == Some(v) && InFragment(s, sc.space) && s.kind == Object(fields, rest)
    ensures BodyRight(Body(x, s.kind, depth), v, sc, Decodes(s.kind, Decoded(v)))
    decreases s, 2
  {
    var violations := FieldViolations(x, fields, depth + 1);
    FieldsAreRefusals(x, v, sc, depth + 1, fields);
    if rest.Some? {
      var c := RestBody(x, NameList(fields), Violation(Row(depth), rest.value, depth + 1), depth);
      RestIsRefusal(x, v, sc, depth, fields, rest.value);
      ClosedOrRest(x, v, sc, violations, c, FieldsDecode(fields, MembersOf(v), None),
                   v.Has? && v.json.JObj? && forall key :: key in v.json.members && key !in Names(fields) ==>
                     Accepts(rest.value, v.json.members[key]));
    } else {
      assert violations + [] != [];
      ObjectBodyRight(x, v, sc, violations, []);
    }
  }

  /** The outcomes of an object's checks, when its fields' checks and its rest's are right. */
  lemma ClosedOrRest(x: Sql, v: Value, sc: Scope, violations: seq<Cond>, c: Cond, fields: bool, rest: bool)
    requires ValueOf(x, sc) == Some(v)
    requires Outcomes(violations, sc) <= {True, False} && (True in Outcomes(violations, sc) <==> !fields)
    requires !Eval(c, sc).Fails? && (v.Has? && v.json.JObj? ==> Eval(c, sc) == Known(!rest))
    ensures BodyRight(ObjectBody(x, violations, [c]), v, sc, v.Has? && v.json.JObj? && fields && rest)
  {
    One(c, sc);
    ObjectBodyRight(x, v, sc, violations, [c]);
  }

  lemma {:induction false} UnionIsRefusal(x: Sql, v: Value, sc: Scope, depth: nat, arms: seq<Shape>)
    requires ValueOf(x, sc) == Some(v) && forall i :: 0 <= i < |arms| ==> InFragment(arms[i], sc.space)
    ensures BodyRight(Body(x, Union(arms), depth), v, sc, Decodes(Union(arms), Decoded(v)))
    decreases arms, 1
  {
    if arms != [] {
      var checks := ArmViolations(x, arms, depth + 1);
      ArmsAreRefusals(x, v, sc, depth + 1, arms);
      Joined(checks, sc, Outcomes(checks, sc));
    }
  }

  lemma {:induction false} ArmsAreRefusals(x: Sql, v: Value, sc: Scope, depth: nat, arms: seq<Shape>)
    requires ValueOf(x, sc) == Some(v) && forall i :: 0 <= i < |arms| ==> InFragment(arms[i], sc.space)
    ensures Outcomes(ArmViolations(x, arms, depth), sc) <= {True, False}
    ensures False in Outcomes(ArmViolations(x, arms, depth), sc)
       <==> exists i :: 0 <= i < |arms| && Accepts(arms[i], Decoded(v))
    decreases arms, 0
  {
    if arms != [] {
      var head := Violation(x, arms[0], depth);
      ViolationIsRefusal(x, arms[0], depth, sc);
      ArmsAreRefusals(x, v, sc, depth, arms[1..]);
      One(head, sc);
      OutcomesJoin([head], ArmViolations(x, arms[1..], depth), sc);
      if i :| 0 <= i < |arms| && Accepts(arms[i], Decoded(v)) {
        if i > 0 { assert arms[1..][i - 1] == arms[i]; }
      }
    }
  }
}
