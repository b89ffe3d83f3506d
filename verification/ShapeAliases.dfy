/** The row aliases a compiled condition makes never capture one from outside it. */
module ShapeAliases {
  import opened Wrappers
  import opened Shapes

  function Aliases(x: Sql): set<nat> {
    match x
    case Column => {}
    case Row(alias) => {alias}
    case Member(of, _) => Aliases(of)
  }

  /** Every alias a condition reads is in scope, and no query inside it takes an alias already in scope. */
  ghost predicate Scoped(c: Cond, bound: set<nat>)
    decreases c
  {
    match c
    case Const(_) => true
    case KeyNotIn(alias, _) => alias in bound
    case Not(c) => Scoped(c, bound)
    case OrFalse(c) => Scoped(c, bound)
    case All(cs) => forall i :: 0 <= i < |cs| ==> Scoped(cs[i], bound)
    case Any(cs) => forall i :: 0 <= i < |cs| ==> Scoped(cs[i], bound)
    case Case(when, yes, no) => Scoped(when, bound) && Scoped(yes, bound) && Scoped(no, bound)
    case ExistsItem(x, alias, where_) =>
      Aliases(x) <= bound && alias !in bound && Scoped(where_, bound + {alias})
    case ExistsMember(x, alias, where_) =>
      Aliases(x) <= bound && alias !in bound && Scoped(where_, bound + {alias})
    case _ => Aliases(c.x) <= bound
  }

  lemma GuardedIsScoped(x: Sql, optional: bool, body: Cond, bound: set<nat>)
    requires Aliases(x) <= bound && Scoped(body, bound)
    ensures Scoped(Guarded(x, optional, body), bound)
  {
    assert Scoped(IsNull(x), bound) && Scoped(IsJsonNull(x), bound);
    var absent := Absent(x);
    assert Scoped(absent, bound);
    var present := Not(absent);
    assert Scoped(present, bound);
  }

  lemma TextIsScoped(x: Sql, max: Option<int>, email: bool, bound: set<nat>)
    requires Aliases(x) <= bound
    ensures Scoped(TextBody(x, max, email), bound)
  {
    var all := TextBody(x, max, email).c.c;
    assert Scoped(all, bound);
    var known := OrFalse(all);
    assert Scoped(known, bound);
  }

  lemma EnumIsScoped(x: Sql, values: seq<string>, bound: set<nat>)
    requires Aliases(x) <= bound
    ensures Scoped(EnumBody(x, values), bound)
  {
    var all := EnumBody(x, values).c.c;
    assert Scoped(all, bound);
    var known := OrFalse(all);
    assert Scoped(known, bound);
  }

  lemma NumberIsScoped(x: Sql, checks: seq<Cond>, bound: set<nat>)
    requires Aliases(x) <= bound && forall i :: 0 <= i < |checks| ==> Scoped(checks[i], bound)
    ensures Scoped(NumberBody(x, checks), bound)
  {
    var all := All(checks);
    assert Scoped(all, bound);
    var not := Not(all);
    assert Scoped(not, bound);
  }

  /** Compiled at its depth, a condition never takes an alias from the queries around it, whatever the shape. */
  lemma {:induction false} NoAliasIsCaptured(x: Sql, s: Shape, depth: nat, bound: set<nat>)
    requires Aliases(x) <= bound && forall alias :: alias in bound ==> alias < depth
    ensures Scoped(Violation(x, s, depth), bound)
    decreases s, 1
  {
    BodyIsScoped(x, s.kind, depth, bound);
    GuardedIsScoped(x, s.optional, Body(x, s.kind, depth), bound);
  }

  lemma LeafIsScoped(x: Sql, k: Kind, depth: nat, bound: set<nat>)
    requires Aliases(x) <= bound && depth !in bound && IsPlain(k)
    ensures Scoped(Body(x, k, depth), bound)
  {
    var inner := bound + {depth};
    match k {
      case Text(max, email, many) =>
        TextIsScoped(x, max, email, bound);
        TextIsScoped(Row(depth), max, email, inner);
        ItemsAreScoped(x, depth, TextBody(Row(depth), max, email), bound);
      case Enum(values, several) =>
        EnumIsScoped(x, values, bound);
        EnumIsScoped(Row(depth), values, inner);
        ItemsAreScoped(x, depth, EnumBody(Row(depth), values), bound);
      case State(states) => EnumIsScoped(x, states, bound);
      case Int(min, max) => NumberIsScoped(x, [NumWhole(x)] + Bounds(x, min, max), bound);
      case Count => NumberIsScoped(x, [NumWhole(x), NumAtLeast(x, 0.0)], bound);
      case Duration => NumberIsScoped(x, [NumWhole(x)], bound);
      case Number(min, max) => NumberIsScoped(x, [Const(true)] + Bounds(x, min, max), bound);
      case Bool =>
      case Anything =>
    }
  }

  lemma ItemsAreScoped(x: Sql, depth: nat, item: Cond, bound: set<nat>)
    requires Aliases(x) <= bound && depth !in bound && Scoped(item, bound + {depth})
    ensures Scoped(ItemsBody(x, depth, item), bound)
  {
    GuardedIsScoped(Row(depth), false, item, bound + {depth});
    var query := ExistsItem(x, depth, Guarded(Row(depth), false, item));
    assert Scoped(query, bound);
  }

  lemma {:induction false} BodyIsScoped(x: Sql, k: Kind, depth: nat, bound: set<nat>)
    requires Aliases(x) <= bound && forall alias :: alias in bound ==> alias < depth
    ensures Scoped(Body(x, k, depth), bound)
    decreases k, 0
  {
    if IsPlain(k) {
      LeafIsScoped(x, k, depth, bound);
    } else if k.List? || k.Record? {
      NoAliasIsCaptured(Row(depth), k.of, depth + 1, bound + {depth});
      CollectionIsScoped(x, k, Violation(Row(depth), k.of, depth + 1), depth, bound);
    } else if k.Object? {
      FieldsAreScoped(x, k.fields, depth + 1, bound);
      if k.rest.Some? {
        NoAliasIsCaptured(Row(depth), k.rest.value, depth + 1, bound + {depth});
        RestIsScoped(x, NameList(k.fields), Violation(Row(depth), k.rest.value, depth + 1), depth, bound);
      }
      ObjectIsScoped(x, k, FieldViolations(x, k.fields, depth + 1), depth, bound);
    } else if k.Union? {
      ArmsAreScoped(x, k.arms, depth + 1, bound);
      AllIsScoped(ArmViolations(x, k.arms, depth + 1), bound);
    } else if k.Tagged? {
      TaggedAreScoped(x, k.tagName, k.tagged, depth + 1, bound);
      AllIsScoped(TaggedViolations(x, k.tagName, k.tagged, depth + 1), bound);
    } else {
      NoAliasIsCaptured(x, k.shape, depth + 1, bound);
    }
  }

  lemma AllIsScoped(cs: seq<Cond>, bound: set<nat>)
    requires forall i :: 0 <= i < |cs| ==> Scoped(cs[i], bound)
    ensures Scoped(if cs == [] then Const(true) else All(cs), bound)
  {
  }

  lemma CollectionIsScoped(x: Sql, k: Kind, each: Cond, depth: nat, bound: set<nat>)
    requires Aliases(x) <= bound && depth !in bound && Scoped(each, bound + {depth})
    requires (k.List? || k.Record?) && each == Violation(Row(depth), k.of, depth + 1)
    ensures Scoped(Body(x, k, depth), bound)
  {
    var item := if k.List? then ExistsItem(x, depth, each) else ExistsMember(x, depth, each);
    assert Scoped(item, bound);
    if k.List? {
      var any := Any(LengthChecks(x, k.shortest, k.longest) + [item]);
      assert Scoped(any, bound);
    }
  }

  lemma ObjectIsScoped(x: Sql, k: Kind, violations: seq<Cond>, depth: nat, bound: set<nat>)
    requires k.Object? && Aliases(x) <= bound
    requires violations == FieldViolations(x, k.fields, depth + 1)
    requires forall i :: 0 <= i < |violations| ==> Scoped(violations[i], bound)
    requires k.rest.Some? ==>
      Scoped(RestBody(x, NameList(k.fields), Violation(Row(depth), k.rest.value, depth + 1), depth), bound)
    ensures Scoped(Body(x, k, depth), bound)
  {
    var not := TypeIsNot(x, TObject);
    assert Scoped(not, bound);
  }

  lemma RestIsScoped(x: Sql, names: seq<string>, each: Cond, depth: nat, bound: set<nat>)
    requires Aliases(x) <= bound && depth !in bound && Scoped(each, bound + {depth})
    ensures Scoped(RestBody(x, names, each, depth), bound)
  {
    var where_ := Undeclared(depth, names, each);
    assert Scoped(where_, bound + {depth});
    var query := ExistsMember(x, depth, where_);
    assert Scoped(query, bound);
  }

  lemma {:induction false} FieldsAreScoped(x: Sql, fields: seq<Field>, depth: nat, bound: set<nat>)
    requires Aliases(x) <= bound && forall alias :: alias in bound ==> alias < depth
    ensures forall i :: 0 <= i < |fields| ==> Scoped(FieldViolations(x, fields, depth)[i], bound)
    decreases fields, 0
  {
    if fields != [] {
      var f := fields[0];
      var y := Member(x, f.name);
      BodyIsScoped(y, f.shape.kind, depth, bound);
      GuardedIsScoped(y, f.shape.optional || f.shape.defaulted, Body(y, f.shape.kind, depth), bound);
      FieldsAreScoped(x, fields[1..], depth, bound);
    }
  }

  lemma {:induction false} ArmsAreScoped(x: Sql, arms: seq<Shape>, depth: nat, bound: set<nat>)
    requires Aliases(x) <= bound && forall alias :: alias in bound ==> alias < depth
    ensures forall i :: 0 <= i < |arms| ==> Scoped(ArmViolations(x, arms, depth)[i], bound)
    decreases arms, 0
  {
    if arms != [] {
      NoAliasIsCaptured(x, arms[0], depth, bound);
      ArmsAreScoped(x, arms[1..], depth, bound);
    }
  }

  lemma {:induction false} TaggedAreScoped(x: Sql, tagName: string, arms: seq<Arm>, depth: nat, bound: set<nat>)
    requires Aliases(x) <= bound && forall alias :: alias in bound ==> alias < depth
    ensures forall i :: 0 <= i < |arms| ==> Scoped(TaggedViolations(x, tagName, arms, depth)[i], bound)
    decreases arms, 0
  {
    if arms != [] {
      FieldsAreScoped(x, arms[0].fields, depth + 1, bound);
      var body := ObjectBody(x, FieldViolations(x, arms[0].fields, depth + 1), []);
      assert Scoped(body, bound);
      GuardedIsScoped(x, false, body, bound);
      var known := OrFalse(TextEquals(Member(x, tagName), arms[0].tag));
      assert Scoped(known, bound);
      var untagged := Not(known);
      assert Scoped(untagged, bound);
      TaggedAreScoped(x, tagName, arms[1..], depth, bound);
    }
  }
}
