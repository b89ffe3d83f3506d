/** The shapes on which condition and codec differ, each with exactly the values they differ on. */
module ShapeDifferences {
  import opened Wrappers
  import opened Shapes
  import opened ShapeRefusals
  import opened Texts

  ghost predicate Agree(x: Sql, s: Shape, depth: nat, sc: Scope)
    requires ValueOf(x, sc).Some?
  {
    Eval(Violation(x, s, depth), sc) == Known(!Accepts(s, Decoded(ValueOf(x, sc).value)))
  }

  /** An object of no fields: the codec refuses any member, the condition none. */
  lemma EmptyObjectsAgreeWhen(x: Sql, optional: bool, depth: nat, sc: Scope)
    requires ValueOf(x, sc).Some?
    ensures var j := Decoded(ValueOf(x, sc).value);
            Agree(x, Shape(Object([], None), optional, false), depth, sc) <==> !(j.JObj? && j.members != map[])
  {
    var v := ValueOf(x, sc).value;
    var body := Body(x, Object([], None), depth);
    assert body == TypeIsNot(x, TObject);
    GuardedRight(x, optional, body, v, sc, Decoded(v).JObj?);
  }

  /** Any json: the codec takes null, the condition refuses it unless the field is optional. */
  lemma AnythingAgreesWhen(x: Sql, optional: bool, depth: nat, sc: Scope)
    requires ValueOf(x, sc).Some?
    ensures Agree(x, Shape(Anything, optional, false), depth, sc)
       <==> !(Decoded(ValueOf(x, sc).value).JNull? && !optional)
  {
    GuardedRight(x, optional, Const(false), ValueOf(x, sc).value, sc, true);
  }

  /** A union over shapes of the fragment: an optional arm takes null, the condition refuses it. */
  lemma UnionsAgreeWhen(x: Sql, arms: seq<Shape>, optional: bool, depth: nat, sc: Scope)
    requires ValueOf(x, sc).Some? && forall i :: 0 <= i < |arms| ==> InFragment(arms[i], sc.space)
    ensures Agree(x, Shape(Union(arms), optional, false), depth, sc)
       <==> !(Decoded(ValueOf(x, sc).value).JNull? && !optional && exists i :: 0 <= i < |arms| && arms[i].optional)
  {
    var v := ValueOf(x, sc).value;
    UnionIsRefusal(x, v, sc, depth, arms);
    GuardedRight(x, optional, Body(x, Union(arms), depth), v, sc, Decodes(Union(arms), Decoded(v)));
    if i :| 0 <= i < |arms| && arms[i].optional {
      assert Accepts(arms[i], JNull);
    }
    if Decodes(Union(arms), JNull) {
      var i :| 0 <= i < |arms| && Accepts(arms[i], JNull);
      NullNeedsOptional(arms[i], sc.space);
    }
  }

  // ---- email addresses ----

  /** One `@`, with something before and after it. */
  predicate OneAt(s: string) {
    exists at :: 0 < at < |s| - 1 && s[at] == '@' && forall i :: 0 <= i < |s| && i != at ==> s[i] != '@'
  }

  predicate HoldsSpace(s: string, space: char -> bool) {
    exists i :: 0 <= i < |s| && s[i] != '@' && space(s[i])
  }

  lemma EmailMeans(s: string, space: char -> bool)
    ensures IsEmail(s, space) <==> OneAt(s) && !HoldsSpace(s, space)
  {
  }

  /** A text that is an address but for its white space. */
  predicate Addressed(j: Json, max: Option<int>) {
    j.JStr? && (max.Some? ==> |j.s| <= max.value) && OneAt(j.s)
  }

  /** Condition and codec part on a text exactly where its two readings do. */
  lemma TextsAgreeAs(x: Sql, max: Option<int>, many: bool, optional: bool, depth: nat, sc: Scope, j: Json)
    requires ValueOf(x, sc).Some? && j == Decoded(ValueOf(x, sc).value)
    ensures Agree(x, Shape(Text(max, true, many), optional, false), depth, sc)
       <==> (TextDecodes(j, max, true, many, sc.space) <==> TextDecodes(j, max, true, many, IsSpace))
  {
    var v := ValueOf(x, sc).value;
    var s := Shape(Text(max, true, many), optional, false);
    TextIsRefusal(x, v, sc, depth, max, true, many);
    GuardedRight(x, optional, Body(x, s.kind, depth), v, sc, TextDecodes(j, max, true, many, sc.space));
    assert Decodes(s.kind, j) <==> TextDecodes(j, max, true, many, IsSpace);
  }

  /** An email field differs exactly on an address that holds white space of the one pattern and none of the other. */
  lemma EmailsAgreeWhen(x: Sql, max: Option<int>, optional: bool, depth: nat, sc: Scope, j: Json)
    requires ValueOf(x, sc).Some? && j == Decoded(ValueOf(x, sc).value)
    ensures Agree(x, Shape(Text(max, true, false), optional, false), depth, sc)
       <==> !(Addressed(j, max) && HoldsSpace(j.s, IsSpace) != HoldsSpace(j.s, sc.space))
  {
    TextsAgreeAs(x, max, false, optional, depth, sc, j);
    if j.JStr? {
      EmailMeans(j.s, IsSpace);
      EmailMeans(j.s, sc.space);
    }
  }

  predicate AllAddressed(items: seq<Json>, max: Option<int>) {
    forall i :: 0 <= i < |items| ==> Addressed(items[i], max)
  }

  predicate SomeHoldsSpace(items: seq<Json>, space: char -> bool) {
    exists i :: 0 <= i < |items| && items[i].JStr? && HoldsSpace(items[i].s, space)
  }

  lemma EmailListMeans(items: seq<Json>, max: Option<int>, space: char -> bool)
    ensures TextDecodes(JArr(items), max, true, true, space) <==>
        AllAddressed(items, max) && !SomeHoldsSpace(items, space)
  {
    forall i | 0 <= i < |items|
      ensures TextOk(items[i], max, true, space)
         <==> Addressed(items[i], max) && !(items[i].JStr? && HoldsSpace(items[i].s, space))
    {
      if items[i].JStr? { EmailMeans(items[i].s, space); }
    }
  }

  /**
   A list of emails differs exactly where all are addresses and some hold white space of the one
   pattern, none of the other.
   */
  lemma EmailListsAgreeWhen(x: Sql, max: Option<int>, optional: bool, depth: nat, sc: Scope, j: Json)
    requires ValueOf(x, sc).Some? && j == Decoded(ValueOf(x, sc).value)
    ensures Agree(x, Shape(Text(max, true, true), optional, false), depth, sc)
       <==> !(j.JArr? && AllAddressed(j.items, max)
              && SomeHoldsSpace(j.items, IsSpace) != SomeHoldsSpace(j.items, sc.space))
  {
    TextsAgreeAs(x, max, true, optional, depth, sc, j);
    if j.JArr? {
      EmailListMeans(j.items, max, IsSpace);
      EmailListMeans(j.items, max, sc.space);
    }
  }

  /** In a database whose white space leaves out U+FEFF, an address around one is stored and the codec refuses it. */
  lemma EmailIsLetBy(text: Json -> string)
    ensures var sc := Scope(Has(JStr("a\U{feff}b@c")), map[], text, c => IsSpace(c) && c != '\U{feff}');
      var s := Shape(Text(None, true, false), false, false);
      Eval(Violation(Column, s, 0), sc) == False && !Accepts(s, JStr("a\U{feff}b@c"))
  {
    var j := JStr("a\U{feff}b@c");
    var sc := Scope(Has(j), map[], text, c => IsSpace(c) && c != '\U{feff}');
    var s := Shape(Text(None, true, false), false, false);
    assert j.s[3] == '@' && OneAt(j.s);
    assert j.s[1] == '\U{feff}' && HoldsSpace(j.s, IsSpace);
    assert !HoldsSpace(j.s, sc.space);
    EmailsAgreeWhen(Column, None, false, 0, sc, j);
    EmailMeans(j.s, IsSpace);
    TextIsRefusal(Column, Has(j), sc, 0, None, true, false);
    EmailMeans(j.s, sc.space);
    GuardedRight(Column, false, Body(Column, s.kind, 0), Has(j), sc, true);
  }

  // ---- tagged arms ----

  lemma ArmBodyRight(x: Sql, v: Value, sc: Scope, depth: nat, fields: seq<Field>)
    requires ValueOf(x, sc) == Some(v)
    requires forall k :: 0 <= k < |fields| ==> InFragment(fields[k].shape, sc.space)
    ensures BodyRight(ObjectBody(x, FieldViolations(x, fields, depth), []), v, sc,
                      v.Has? && v.json.JObj? && FieldsDecode(fields, MembersOf(v), None))
  {
    FieldsAreRefusals(x, v, sc, depth, fields);
    if fields != [] {
      ObjectBodyRight(x, v, sc, FieldViolations(x, fields, depth), []);
    }
  }

  lemma TagRight(x: Sql, v: Value, sc: Scope, tagName: string, tag: string)
    requires ValueOf(x, sc) == Some(v)
    ensures Eval(Unless(TextEquals(Member(x, tagName), tag)), sc)
         == Known(!(tagName in MembersOf(v) && TextOf(Has(MembersOf(v)[tagName]), sc) == Some(tag)))
  {
    UnlessRight(TextEquals(Member(x, tagName), tag), sc);
  }

  lemma TaggedArmRight(x: Sql, v: Value, sc: Scope, depth: nat, tagName: string, arm: Arm)
    requires ValueOf(x, sc) == Some(v)
    requires forall k :: 0 <= k < |arm.fields| ==> InFragment(arm.fields[k].shape, sc.space)
    ensures !Eval(TaggedArm(x, tagName, arm, depth), sc).Fails?
    ensures v.Has? && !v.json.JNull? ==>
      Eval(TaggedArm(x, tagName, arm, depth), sc) == Known(!ArmFits(v.json, tagName, arm, sc))
  {
    var body := ObjectBody(x, FieldViolations(x, arm.fields, depth + 1), []);
    var untagged := Unless(TextEquals(Member(x, tagName), arm.tag));
    ArmBodyRight(x, v, sc, depth + 1, arm.fields);
    GuardedRight(x, false, body, v, sc, v.Has? && v.json.JObj? && FieldsDecode(arm.fields, MembersOf(v), None));
    TagRight(x, v, sc, tagName, arm.tag);
    Two(untagged, Guarded(x, false, body), sc);
  }

  /**
   What the tagged arms' conditions say of a value: none fails, and all hold unless some arm's
   tag prints so and its fields fit.
   */
  lemma {:induction false} TaggedRight(x: Sql, v: Value, sc: Scope, depth: nat, tagName: string, arms: seq<Arm>)
    requires ValueOf(x, sc) == Some(v)
    requires forall i, k :: 0 <= i < |arms| && 0 <= k < |arms[i].fields| ==>
        InFragment(arms[i].fields[k].shape, sc.space)
    ensures Fails !in Outcomes(TaggedViolations(x, tagName, arms, depth), sc)
    ensures v.Has? && !v.json.JNull? ==>
      Outcomes(TaggedViolations(x, tagName, arms, depth), sc) <= {True, False}
      && (False in Outcomes(TaggedViolations(x, tagName, arms, depth), sc)
          <==> exists i :: 0 <= i < |arms| && ArmFits(v.json, tagName, arms[i], sc))
    decreases |arms|
  {
    if arms != [] {
      var head := TaggedArm(x, tagName, arms[0], depth);
      TaggedArmRight(x, v, sc, depth, tagName, arms[0]);
      TaggedRight(x, v, sc, depth, tagName, arms[1..]);
      One(head, sc);
      OutcomesJoin([head], TaggedViolations(x, tagName, arms[1..], depth), sc);
      if i :| 0 <= i < |arms| && v.Has? && ArmFits(v.json, tagName, arms[i], sc) {
        if i > 0 { assert arms[1..][i - 1] == arms[i]; }
      }
    }
  }

  /** An arm as the condition sees it: the tag's member prints as the tag, and the fields fit. */
  ghost predicate ArmFits(j: Json, tagName: string, arm: Arm, sc: Scope) {
    j.JObj? && tagName in j.members && TextOf(Has(j.members[tagName]), sc) == Some(arm.tag)
    && FieldsDecode(arm.fields, j.members, None)
  }

  /** A tag that is no string but prints as the tag of an arm the object fits. */
  ghost predicate PrintsAsATag(j: Json, tagName: string, arms: seq<Arm>, sc: Scope) {
    j.JObj? && tagName in j.members && !j.members[tagName].JStr?
    && exists i :: 0 <= i < |arms| && ArmFits(j, tagName, arms[i], sc)
  }

  /** The arm declares a field under the tag's own name, and that field refuses the tag. */
  ghost predicate RefusesItsTag(j: Json, tagName: string, arm: Arm) {
    j.JObj? &&
    exists k :: 0 <= k < |arm.fields| && arm.fields[k].name == tagName && !FieldDecodes(arm.fields[k], j.members)
  }

  /** The arms that decode the object all declare a field under the tag's own name that refuses the tag. */
  ghost predicate TagFieldRefuses(j: Json, tagName: string, arms: seq<Arm>) {
    && (exists i :: 0 <= i < |arms| && ArmDecodes(tagName, arms[i], j))
    && (forall i :: 0 <= i < |arms| && ArmDecodes(tagName, arms[i], j) ==> RefusesItsTag(j, tagName, arms[i]))
  }

  /**
   Tagged arms differ on two families of objects: those whose tag is no string but prints as the
   tag of an arm they fit, which the condition lets by; and those whose arm declares a field
   under the tag's own name that refuses the tag, which the codec's literal replaces.
   */
  lemma TaggedArmsAgreeWhen(x: Sql, tagName: string, arms: seq<Arm>, optional: bool, depth: nat, sc: Scope, j: Json)
    requires ValueOf(x, sc).Some? && j == Decoded(ValueOf(x, sc).value)
    requires forall i, k :: 0 <= i < |arms| && 0 <= k < |arms[i].fields| ==>
        InFragment(arms[i].fields[k].shape, sc.space)
    ensures Agree(x, Shape(Tagged(tagName, arms), optional, false), depth, sc)
       <==> !PrintsAsATag(j, tagName, arms, sc) && !TagFieldRefuses(j, tagName, arms)
  {
    var v := ValueOf(x, sc).value;
    var fits := exists i :: 0 <= i < |arms| && ArmFits(j, tagName, arms[i], sc);
    TaggedRight(x, v, sc, depth + 1, tagName, arms);
    if arms != [] {
      var checks := TaggedViolations(x, tagName, arms, depth + 1);
      Joined(checks, sc, Outcomes(checks, sc));
    }
    GuardedRight(x, optional, Body(x, Tagged(tagName, arms), depth), v, sc, fits);
    TagsDecide(j, tagName, arms, sc);
  }

  lemma ArmByTag(j: Json, tagName: string, arm: Arm, sc: Scope)
    ensures ArmDecodes(tagName, arm, j) ==> j.JObj? && tagName in j.members && j.members[tagName].JStr?
    ensures j.JObj? && tagName in j.members && j.members[tagName].JStr? ==>
      (ArmFits(j, tagName, arm, sc) <==> ArmDecodes(tagName, arm, j) && !RefusesItsTag(j, tagName, arm))
  {
  }

  lemma TagsDecide(j: Json, tagName: string, arms: seq<Arm>, sc: Scope)
    ensures (Decodes(Tagged(tagName, arms), j) <==> exists i :: 0 <= i < |arms| && ArmFits(j, tagName, arms[i], sc))
       <==> !PrintsAsATag(j, tagName, arms, sc) && !TagFieldRefuses(j, tagName, arms)
  {
    forall i | 0 <= i < |arms|
      ensures ArmDecodes(tagName, arms[i], j) ==> j.JObj? && tagName in j.members && j.members[tagName].JStr?
      ensures j.JObj? && tagName in j.members && j.members[tagName].JStr? ==>
        (ArmFits(j, tagName, arms[i], sc) <==> ArmDecodes(tagName, arms[i], j) && !RefusesItsTag(j, tagName, arms[i]))
    {
      ArmByTag(j, tagName, arms[i], sc);
    }
  }

  // ---- two kinds whose stored shape is not their codec's ----

  const PLAIN_TEXT := Shape(Text(None, false, false), false, false)

  /** A stored file as the condition spells it. */
  const FILE := Shape(Object([Field("id", PLAIN_TEXT), Field("name", PLAIN_TEXT), Field("mime", PLAIN_TEXT),
                              Field("size", Shape(Int(None, None), true, false))], None), false, false)

  predicate TextMember(j: Json, name: string) {
    j.JObj? && name in j.members && j.members[name].JStr?
  }

  /** A stored file as its codec spells it: a size present is a whole number, never null. */
  predicate FileDecodes(j: Json) {
    TextMember(j, "id") && TextMember(j, "name") && TextMember(j, "mime")
    && ("size" in j.members ==> j.members["size"].JNum? && IsWhole(j.members["size"].n))
  }

  lemma TextFieldDecodes(name: string, members: map<string, Json>)
    ensures FieldDecodes(Field(name, PLAIN_TEXT), members) <==> TextMember(JObj(members), name)
  {
    if name in members {
      assert Accepts(PLAIN_TEXT, members[name]) <==> TextOk(members[name], None, false, IsSpace);
    }
  }

  /** The file condition finds exactly what the codec refuses, but for a file whose size is null: it lets that by. */
  lemma FilesAgreeWhen(x: Sql, depth: nat, sc: Scope, j: Json)
    requires ValueOf(x, sc).Some? && j == Decoded(ValueOf(x, sc).value)
    ensures Eval(Violation(x, Shape(Nested(FILE), false, false), depth), sc) == Known(!FileDecodes(j))
       <==> !(TextMember(j, "id") && TextMember(j, "name") && TextMember(j, "mime")
              && "size" in j.members && j.members["size"].JNull?)
  {
    var s := Shape(Nested(FILE), false, false);
    var fields := FILE.kind.fields;
    ViolationIsRefusal(x, s, depth, sc);
    assert Accepts(s, j) <==> Accepts(FILE, j);
    assert Accepts(FILE, j) <==> j.JObj? && FieldsDecode(fields, j.members, None);
    if j.JObj? {
      TextFieldDecodes("id", j.members);
      TextFieldDecodes("name", j.members);
      TextFieldDecodes("mime", j.members);
      var size := fields[3];
      assert FieldDecodes(size, j.members) <==> ("size" in j.members ==>
        j.members["size"].JNull? || (j.members["size"].JNum? && IsWhole(j.members["size"].n)));
      assert FieldsDecode(fields, j.members, None)
        <==> FieldDecodes(fields[0], j.members) && FieldDecodes(fields[1], j.members)
             && FieldDecodes(fields[2], j.members) && FieldDecodes(fields[3], j.members);
    }
  }

  /** A complete file of size null is stored, and its codec refuses it. */
  lemma NullSizeIsLetBy(text: Json -> string, space: char -> bool)
    ensures var j := JObj(map["id" := JStr("i"), "name" := JStr("n"), "mime" := JStr("m"), "size" := JNull]);
      var sc := Scope(Has(j), map[], text, space);
      Eval(Violation(Column, Shape(Nested(FILE), false, false), 0), sc) == False && !FileDecodes(j)
  {
    var j := JObj(map["id" := JStr("i"), "name" := JStr("n"), "mime" := JStr("m"), "size" := JNull]);
    FilesAgreeWhen(Column, 0, Scope(Has(j), map[], text, space), j);
    FilesAnswer(Column, 0, Scope(Has(j), map[], text, space));
  }

  lemma FilesAnswer(x: Sql, depth: nat, sc: Scope)
    requires ValueOf(x, sc).Some?
    ensures Eval(Violation(x, Shape(Nested(FILE), false, false), depth), sc) in {True, False}
  {
    ViolationIsRefusal(x, Shape(Nested(FILE), false, false), depth, sc);
  }

  /** A relation to one of several tables as the condition spells it. */
  function RefShape(tables: seq<string>): Shape {
    Shape(Object([Field("collection", Shape(Enum(tables, false), false, false)), Field("id", PLAIN_TEXT)], None),
          false, false)
  }

  /** And as its codec spells it. */
  predicate RefDecodes(tables: seq<string>, j: Json) {
    TextMember(j, "model") && j.members["model"].s in tables && TextMember(j, "id")
  }

  predicate NamesOneOf(j: Json, member: string, tables: seq<string>) {
    TextMember(j, member) && j.members[member].s in tables
  }

  /**
   The condition reads the table's name from `collection`, the codec from `model`: they agree
   only on values that name both or neither.
   */
  lemma RefsAgreeWhen(x: Sql, tables: seq<string>, depth: nat, sc: Scope, j: Json)
    requires ValueOf(x, sc).Some? && j == Decoded(ValueOf(x, sc).value)
    ensures Eval(Violation(x, Shape(Nested(RefShape(tables)), false, false), depth), sc)
        == Known(!RefDecodes(tables, j))
       <==> (TextMember(j, "id") ==> (NamesOneOf(j, "collection", tables) <==> NamesOneOf(j, "model", tables)))
  {
    var s := Shape(Nested(RefShape(tables)), false, false);
    var fields := RefShape(tables).kind.fields;
    ViolationIsRefusal(x, s, depth, sc);
    assert Accepts(s, j) <==> Accepts(RefShape(tables), j);
    assert Accepts(RefShape(tables), j) <==> j.JObj? && FieldsDecode(fields, j.members, None);
    if j.JObj? {
      TextFieldDecodes("id", j.members);
      var collection := fields[0];
      assert "collection" in j.members ==>
        (Accepts(collection.shape, j.members["collection"]) <==> OneOf(j.members["collection"], tables));
      assert FieldDecodes(collection, j.members) <==> NamesOneOf(j, "collection", tables);
      assert FieldsDecode(fields, j.members, None)
        <==> FieldDecodes(fields[0], j.members) && FieldDecodes(fields[1], j.members);
    }
  }

  /** A relation stored under the codec's own member is found in violation, and one under the other is let by. */
  lemma RefsDiffer(text: Json -> string, space: char -> bool)
    ensures var good := JObj(map["model" := JStr("t"), "id" := JStr("i")]);
      var s := Shape(Nested(RefShape(["t"])), false, false);
      RefDecodes(["t"], good) && Eval(Violation(Column, s, 0), Scope(Has(good), map[], text, space)) == True
    ensures var bad := JObj(map["collection" := JStr("t"), "id" := JStr("i")]);
      var s := Shape(Nested(RefShape(["t"])), false, false);
      !RefDecodes(["t"], bad) && Eval(Violation(Column, s, 0), Scope(Has(bad), map[], text, space)) == False
  {
    var good := JObj(map["model" := JStr("t"), "id" := JStr("i")]);
    var bad := JObj(map["collection" := JStr("t"), "id" := JStr("i")]);
    RefsAgreeWhen(Column, ["t"], 0, Scope(Has(good), map[], text, space), good);
    RefsAgreeWhen(Column, ["t"], 0, Scope(Has(bad), map[], text, space), bad);
    RefsAnswer(Column, ["t"], 0, Scope(Has(good), map[], text, space));
    RefsAnswer(Column, ["t"], 0, Scope(Has(bad), map[], text, space));
  }

  lemma RefsAnswer(x: Sql, tables: seq<string>, depth: nat, sc: Scope)
    requires ValueOf(x, sc).Some?
    ensures Eval(Violation(x, Shape(Nested(RefShape(tables)), false, false), depth), sc) in {True, False}
  {
    ViolationIsRefusal(x, Shape(Nested(RefShape(tables)), false, false), depth, sc);
  }
}
