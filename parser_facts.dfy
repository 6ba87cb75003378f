/** What the converter promises about the class tree it infers, stated
    against reference definitions that say per key and per value shape what
    the result must be, and proved of `Converter.Infer` (which
    `Converter.JsonToJavaClass` computes). */
module ConverterFacts {
  import opened JsonModel
  import opened Common
  import opened Converter

  // ---------------------------------------------------------------------
  // Reference definitions
  // ---------------------------------------------------------------------

  /** The Java type the inference table gives a value found under `key`:
      null is Object, a whole number Integer, any other number Float, strings
      and booleans their own types, an object the class named after the key,
      an empty array Object, and a non-empty array a list of what its first
      element would be. */
  function ExpectedType(key: string, value: Json): (r: string)
    decreases value
  {
    match value
    case JNull => JavaObject
    case JNum(x) => if x == x.Floor as real then JavaInteger else JavaFloat
    case JStr(_) => JavaString
    case JBool(_) => JavaBool
    case JObj(_) => UpperCaseFirst(key)
    case JArr(elems) =>
      if elems == [] then JavaObject
      else if elems[0].JObj? then ListType(UpperCaseFirst(key))
      else ListType(ExpectedType(key, elems[0]))
  }

  /** The field one member must yield: the key with its first letter
      lower-cased, the expected type, and one JsonProperty annotation carrying
      the original key exactly when that key starts with an upper-case letter. */
  function ExpectedField(m: Member): (r: JavaField) {
    JavaField(
      LowerCaseFirst(m.key),
      ExpectedType(m.key, m.value),
      if IsUpperCaseFirst(m.key) then [Annotation("JsonProperty", m.key)] else [])
  }

  /** One expected field per member, in member order. */
  function ExpectedFields(members: seq<Member>): (r: seq<JavaField>) {
    seq(|members|, j requires 0 <= j < |members| => ExpectedField(members[j]))
  }

  /** The object the converter builds an inner class from, if any: the value
      itself when it is an object, the first element of an array whose first
      element is an object. */
  function NestedObject(v: Json): (r: Option<Json>)
    ensures r.Some? ==> r.value.JObj?
  {
    match v
    case JObj(_) => Some(v)
    case JArr(elems) => if |elems| > 0 && elems[0].JObj? then Some(elems[0]) else None
    case _ => None
  }

  /** The inner class member `m` must contribute to a class named `parent`:
      the class inferred from its nested object under the key's upper-cased
      name, made non-public and pointed at `parent`. */
  function InnerOf(parent: string, m: Member): (r: seq<ClassDescription>) {
    match NestedObject(m.value)
    case None => []
    case Some(obj) =>
      match Infer(UpperCaseFirst(m.key), obj, false)
      case Ok(inner) => [inner.cls.(parentClass := Some(parent), isPublic := false)]
      case Err(_) => []
  }

  /** The inner classes members `i..` must contribute, in member order. */
  function ExpectedInner(parent: string, members: seq<Member>, i: nat): (r: seq<ClassDescription>)
    requires i <= |members|
    decreases |members| - i
  {
    if i == |members| then [] else InnerOf(parent, members[i]) + ExpectedInner(parent, members, i + 1)
  }

  /** `v` with every array, at every depth, cut down to its first element. */
  function FirstOnly(v: Json): (r: Json)
    decreases v, 1
  {
    match v
    case JObj(members) => JObj(FirstOnlyMembers(members))
    case JArr(elems) => if |elems| == 0 then v else JArr([FirstOnly(elems[0])])
    case _ => v
  }

  function FirstOnlyMembers(members: seq<Member>): (r: seq<Member>)
    decreases JObj(members), 0
  {
    seq(|members|, j requires 0 <= j < |members| => Member(members[j].key, FirstOnly(members[j].value)))
  }

  /** True when some key the converter visits starts with an upper-case
      letter: a key of the object, or of an object nested in it directly or
      as the first element of an array. */
  predicate NeedsJsonProperty(v: Json)
    decreases v
  {
    match v
    case JObj(members) =>
      exists j :: 0 <= j < |members| && (IsUpperCaseFirst(members[j].key) || NeedsJsonProperty(members[j].value))
    case JArr(elems) => |elems| > 0 && elems[0].JObj? && NeedsJsonProperty(elems[0])
    case _ => false
  }

  /** True when the converter meets an array it refuses: one whose first
      element is null or an array, anywhere it looks. */
  predicate Unsupported(v: Json)
    decreases v
  {
    match v
    case JObj(members) => exists j :: 0 <= j < |members| && Unsupported(members[j].value)
    case JArr(elems) =>
      |elems| > 0 && (elems[0].JNull? || elems[0].JArr? || (elems[0].JObj? && Unsupported(elems[0])))
    case _ => false
  }

  /** The invariant of an inferred class tree: no static classes, and every
      inner class, at any depth, is non-public and names its enclosing class
      as its parent. */
  predicate WellFormedTree(c: ClassDescription)
    decreases c
  {
    && c.staticClass == []
    && forall k :: 0 <= k < |c.innerClass| ==>
         && !c.innerClass[k].isPublic
         && c.innerClass[k].parentClass == Some(c.className)
         && WellFormedTree(c.innerClass[k])
  }

  /** The parts of a class the key loop never changes. */
  predicate SameHeader(a: ClassDescription, b: ClassDescription) {
    a.isPublic == b.isPublic && a.className == b.className
    && a.parentClass == b.parentClass && a.staticClass == b.staticClass
  }

  // ---------------------------------------------------------------------
  // Numbers
  // ---------------------------------------------------------------------

  /** The truncation test of the converter marks a number Float exactly when
      it has a non-zero fractional part. */
  lemma NumberTypeIsFractionTest(x: real)
    ensures NumberType(x) == (if x == x.Floor as real then JavaInteger else JavaFloat)
  {
    if x < 0.0 {
      var k := (-x).Floor;
      assert (-k) as real == x ==> x.Floor == -k;
      assert x == x.Floor as real ==> k == -(x.Floor);
    }
  }

  // ---------------------------------------------------------------------
  // Fields: one per key, in key order, with name, type and annotations
  // ---------------------------------------------------------------------

  /** One loop iteration appends exactly the expected field and leaves the
      class header alone. */
  lemma InferFieldAppendsField(st: Inferred, key: string, value: Json)
    requires InferField(st, key, value).Ok?
    ensures var c := InferField(st, key, value).value.cls;
      c.fields == st.cls.fields + [ExpectedField(Member(key, value))] && SameHeader(c, st.cls)
  {
    UpperOfLower(key);
    match value
    case JNum(x) => NumberTypeIsFractionTest(x);
    case JArr(elems) =>
      if |elems| > 0 {
        assert ExpectedType(key, value) == ListType(if elems[0].JObj? then UpperCaseFirst(key) else ExpectedType(key, elems[0]));
        if elems[0].JNum? {
          NumberTypeIsFractionTest(elems[0].n);
        }
      }
    case _ =>
  }

  lemma {:induction false} InferFromFields(members: seq<Member>, i: nat, st: Inferred)
    requires i <= |members| && InferFrom(members, i, st).Ok?
    ensures var c := InferFrom(members, i, st).value.cls;
      c.fields == st.cls.fields + ExpectedFields(members)[i..] && SameHeader(c, st.cls)
    decreases |members| - i
  {
    if i < |members| {
      var next := InferField(st, members[i].key, members[i].value).value;
      InferFieldAppendsField(st, members[i].key, members[i].value);
      InferFromFields(members, i + 1, next);
      assert ExpectedFields(members)[i..] == [ExpectedField(members[i])] + ExpectedFields(members)[i + 1..];
    }
  }

  /** JsonToJavaClass yields exactly one field per key, in key order, each
      named, typed and annotated as the reference table says; the root class is
      public, carries the given name, has no parent and no static classes. */
  lemma FieldsFollowKeys(name: string, members: seq<Member>, flag: bool)
    requires Infer(name, JObj(members), flag).Ok?
    ensures var c := Infer(name, JObj(members), flag).value.cls;
      && c.fields == ExpectedFields(members)
      && |c.fields| == |members|
      && c.isPublic && c.className == name && c.parentClass == None && c.staticClass == []
  {
    InferFromFields(members, 0, Inferred(NewClass(name), flag));
  }

  /** A key gets a JsonProperty annotation carrying the original key exactly
      when its first letter is upper-case, which is exactly when the field name
      differs from the key. */
  lemma AnnotationRule(name: string, members: seq<Member>, flag: bool, j: nat)
    requires Infer(name, JObj(members), flag).Ok? && j < |members|
    ensures |Infer(name, JObj(members), flag).value.cls.fields| == |members|
    ensures var f := Infer(name, JObj(members), flag).value.cls.fields[j];
      && (IsUpperCaseFirst(members[j].key) ==> f.annotations == [Annotation("JsonProperty", members[j].key)])
      && (!IsUpperCaseFirst(members[j].key) ==> f.annotations == [])
      && (f.fieldName != members[j].key <==> IsUpperCaseFirst(members[j].key))
  {
    FieldsFollowKeys(name, members, flag);
    LowerCaseFirstChangesIffUpper(members[j].key);
  }

  // ---------------------------------------------------------------------
  // The shape of the class tree
  // ---------------------------------------------------------------------

  lemma {:induction false} InferWellFormed(name: string, json: Json, flag: bool)
    requires json.JNull? || json.JObj?
    requires Infer(name, json, flag).Ok?
    ensures var c := Infer(name, json, flag).value.cls;
      WellFormedTree(c) && c.isPublic && c.className == name && c.parentClass == None
    decreases json, 1, 0
  {
    InferFromWellFormed(json.members, 0, Inferred(NewClass(name), flag));
  }

  lemma {:induction false} InferFromWellFormed(members: seq<Member>, i: nat, st: Inferred)
    requires i <= |members| && WellFormedTree(st.cls)
    requires InferFrom(members, i, st).Ok?
    ensures var c := InferFrom(members, i, st).value.cls; WellFormedTree(c) && SameHeader(c, st.cls)
    decreases JObj(members), 0, |members| - i
  {
    if i < |members| {
      InferFieldWellFormed(st, members[i].key, members[i].value);
      InferFromWellFormed(members, i + 1, InferField(st, members[i].key, members[i].value).value);
    }
  }

  lemma {:induction false} InferFieldWellFormed(st: Inferred, key: string, value: Json)
    requires WellFormedTree(st.cls)
    requires InferField(st, key, value).Ok?
    ensures var c := InferField(st, key, value).value.cls; WellFormedTree(c) && SameHeader(c, st.cls)
    decreases value, 2, 0
  {
    var flag := st.hasJsonProperty || IsUpperCaseFirst(key);
    var className := UpperCaseFirst(LowerCaseFirst(key));
    var obj := NestedObject(value);
    if obj.Some? {
      InferWellFormed(className, obj.value, flag);
      var inner := Infer(className, obj.value, flag).value.cls;
      var wired := inner.(parentClass := Some(st.cls.className), isPublic := false);
      assert WellFormedTree(wired);
      var c := InferField(st, key, value).value.cls;
      assert c.innerClass == st.cls.innerClass + [wired];
    }
  }

  /** Every class in the tree JsonToJavaClass returns obeys the tree
      invariant: the root is public, named `name` and without parent, no class
      has static classes, and each inner class is non-public with its
      enclosing class as parent. */
  lemma ClassTreeWellFormed(name: string, json: Json, flag: bool)
    requires json.JNull? || json.JObj?
    requires Infer(name, json, flag).Ok?
    ensures var c := Infer(name, json, flag).value.cls;
      WellFormedTree(c) && c.isPublic && c.className == name && c.parentClass == None
  {
    InferWellFormed(name, json, flag);
  }

  // ---------------------------------------------------------------------
  // The flag does not influence the class tree
  // ---------------------------------------------------------------------

  lemma {:induction false} InferFlagFree(name: string, json: Json, f: bool, g: bool)
    requires json.JNull? || json.JObj?
    ensures Infer(name, json, f).Ok? == Infer(name, json, g).Ok?
    ensures Infer(name, json, f).Ok? ==> Infer(name, json, f).value.cls == Infer(name, json, g).value.cls
    decreases json, 1, 0
  {
    if json.JObj? {
      InferFromFlagFree(json.members, 0, Inferred(NewClass(name), f), Inferred(NewClass(name), g));
    }
  }

  lemma {:induction false} InferFromFlagFree(members: seq<Member>, i: nat, s: Inferred, t: Inferred)
    requires i <= |members| && s.cls == t.cls
    ensures InferFrom(members, i, s).Ok? == InferFrom(members, i, t).Ok?
    ensures InferFrom(members, i, s).Ok? ==> InferFrom(members, i, s).value.cls == InferFrom(members, i, t).value.cls
    decreases JObj(members), 0, |members| - i
  {
    if i < |members| {
      InferFieldFlagFree(s, t, members[i].key, members[i].value);
      if InferField(s, members[i].key, members[i].value).Ok? {
        InferFromFlagFree(members, i + 1,
          InferField(s, members[i].key, members[i].value).value,
          InferField(t, members[i].key, members[i].value).value);
      }
    }
  }

  lemma {:induction false} InferFieldFlagFree(s: Inferred, t: Inferred, key: string, value: Json)
    requires s.cls == t.cls
    ensures InferField(s, key, value).Ok? == InferField(t, key, value).Ok?
    ensures InferField(s, key, value).Ok? ==> InferField(s, key, value).value.cls == InferField(t, key, value).value.cls
    decreases value, 2, 0
  {
    var className := UpperCaseFirst(LowerCaseFirst(key));
    var obj := NestedObject(value);
    if obj.Some? {
      InferFlagFree(className, obj.value, s.hasJsonProperty || IsUpperCaseFirst(key), t.hasJsonProperty || IsUpperCaseFirst(key));
    }
  }

  // ---------------------------------------------------------------------
  // Inner classes: one per nested object, in key order
  // ---------------------------------------------------------------------

  lemma InferFieldInner(st: Inferred, key: string, value: Json)
    requires InferField(st, key, value).Ok?
    ensures InferField(st, key, value).value.cls.innerClass
      == st.cls.innerClass + InnerOf(st.cls.className, Member(key, value))
  {
    UpperOfLower(key);
    var obj := NestedObject(value);
    if obj.Some? {
      InferFlagFree(UpperCaseFirst(key), obj.value, st.hasJsonProperty || IsUpperCaseFirst(key), false);
    }
  }

  lemma {:induction false} InferFromInner(members: seq<Member>, i: nat, st: Inferred)
    requires i <= |members| && InferFrom(members, i, st).Ok?
    ensures InferFrom(members, i, st).value.cls.innerClass
      == st.cls.innerClass + ExpectedInner(st.cls.className, members, i)
    decreases |members| - i
  {
    if i < |members| {
      var next := InferField(st, members[i].key, members[i].value).value;
      InferFieldInner(st, members[i].key, members[i].value);
      InferFieldAppendsField(st, members[i].key, members[i].value);
      InferFromInner(members, i + 1, next);
    }
  }

  /** The root's inner classes are exactly the classes inferred from its
      nested objects (an object value, or the first element of an array whose
      first element is an object), one per such key and in key order, each
      named after the upper-cased key, non-public, with the root as parent. */
  lemma InnerClassesFollowNestedObjects(name: string, members: seq<Member>, flag: bool)
    requires Infer(name, JObj(members), flag).Ok?
    ensures Infer(name, JObj(members), flag).value.cls.innerClass == ExpectedInner(name, members, 0)
  {
    InferFromInner(members, 0, Inferred(NewClass(name), flag));
  }

  // ---------------------------------------------------------------------
  // Array elements after the first are never looked at
  // ---------------------------------------------------------------------

  lemma {:induction false} InferFirstOnly(name: string, json: Json, flag: bool)
    requires json.JNull? || json.JObj?
    ensures FirstOnly(json).JNull? || FirstOnly(json).JObj?
    ensures Infer(name, json, flag) == Infer(name, FirstOnly(json), flag)
    decreases json, 1, 0
  {
    if json.JObj? {
      InferFromFirstOnly(json.members, 0, Inferred(NewClass(name), flag));
    }
  }

  lemma {:induction false} InferFromFirstOnly(members: seq<Member>, i: nat, st: Inferred)
    requires i <= |members|
    ensures InferFrom(members, i, st) == InferFrom(FirstOnlyMembers(members), i, st)
    decreases JObj(members), 0, |members| - i
  {
    if i < |members| {
      var pruned := FirstOnlyMembers(members);
      InferFieldFirstOnly(st, members[i].key, members[i].value);
      var r := InferField(st, members[i].key, members[i].value);
      assert r == InferField(st, pruned[i].key, pruned[i].value);
      if r.Ok? {
        InferFromFirstOnly(members, i + 1, r.value);
      }
    }
  }

  lemma {:induction false} InferFieldFirstOnly(st: Inferred, key: string, value: Json)
    ensures InferField(st, key, value) == InferField(st, key, FirstOnly(value))
    decreases value, 2, 0
  {
    var flag := st.hasJsonProperty || IsUpperCaseFirst(key);
    var className := UpperCaseFirst(LowerCaseFirst(key));
    match value
    case JObj(_) => InferFirstOnly(className, value, flag);
    case JArr(elems) =>
      if |elems| > 0 && elems[0].JObj? {
        InferFirstOnly(className, elems[0], flag);
      }
    case _ =>
  }

  /** Only the first element of each array the converter meets matters:
      cutting every such array down to its first element, at every depth,
      gives the same result, error or class tree and flag. */
  lemma OnlyFirstElementsMatter(name: string, json: Json, flag: bool)
    requires json.JNull? || json.JObj?
    ensures FirstOnly(json).JNull? || FirstOnly(json).JObj?
    ensures Infer(name, json, flag) == Infer(name, FirstOnly(json), flag)
  {
    InferFirstOnly(name, json, flag);
  }

  // ---------------------------------------------------------------------
  // The hasJsonProperty flag
  // ---------------------------------------------------------------------

  lemma {:induction false} InferFlag(name: string, json: Json, flag: bool)
    requires json.JNull? || json.JObj?
    requires Infer(name, json, flag).Ok?
    ensures Infer(name, json, flag).value.hasJsonProperty == (flag || NeedsJsonProperty(json))
    decreases json, 1, 0
  {
    InferFromFlag(json.members, 0, Inferred(NewClass(name), flag));
  }

  lemma {:induction false} InferFromFlag(members: seq<Member>, i: nat, st: Inferred)
    requires i <= |members| && InferFrom(members, i, st).Ok?
    ensures InferFrom(members, i, st).value.hasJsonProperty
      == (st.hasJsonProperty
          || exists j :: i <= j < |members| && (IsUpperCaseFirst(members[j].key) || NeedsJsonProperty(members[j].value)))
    decreases JObj(members), 0, |members| - i
  {
    if i < |members| {
      var next := InferField(st, members[i].key, members[i].value).value;
      InferFieldFlag(st, members[i].key, members[i].value);
      InferFromFlag(members, i + 1, next);
      if exists j :: i <= j < |members| && (IsUpperCaseFirst(members[j].key) || NeedsJsonProperty(members[j].value)) {
        var j :| i <= j < |members| && (IsUpperCaseFirst(members[j].key) || NeedsJsonProperty(members[j].value));
        if j > i {
          assert i + 1 <= j < |members|;
        }
      }
    }
  }

  lemma {:induction false} InferFieldFlag(st: Inferred, key: string, value: Json)
    requires InferField(st, key, value).Ok?
    ensures InferField(st, key, value).value.hasJsonProperty
      == (st.hasJsonProperty || IsUpperCaseFirst(key) || NeedsJsonProperty(value))
    decreases value, 2, 0
  {
    var flag := st.hasJsonProperty || IsUpperCaseFirst(key);
    var className := UpperCaseFirst(LowerCaseFirst(key));
    var obj := NestedObject(value);
    if obj.Some? {
      InferFlag(className, obj.value, flag);
    }
  }

  /** The flag JsonToJavaClass returns is the flag it was given, or-ed with
      whether some visited key starts upper-case: it is never cleared, and a
      conversion started with a cleared flag reports only its own keys. */
  lemma FlagRule(name: string, json: Json, flag: bool)
    requires json.JNull? || json.JObj?
    requires Infer(name, json, flag).Ok?
    ensures Infer(name, json, flag).value.hasJsonProperty == (flag || NeedsJsonProperty(json))
    ensures flag ==> Infer(name, json, flag).value.hasJsonProperty
  {
    InferFlag(name, json, flag);
  }

  // ---------------------------------------------------------------------
  // Errors
  // ---------------------------------------------------------------------

  lemma {:induction false} InferOk(name: string, json: Json, flag: bool)
    requires json.JObj?
    ensures Infer(name, json, flag).Ok? <==> !Unsupported(json)
    decreases json, 1, 0
  {
    InferFromOk(json.members, 0, Inferred(NewClass(name), flag));
  }

  lemma {:induction false} InferFromOk(members: seq<Member>, i: nat, st: Inferred)
    requires i <= |members|
    ensures InferFrom(members, i, st).Ok? <==> !exists j :: i <= j < |members| && Unsupported(members[j].value)
    decreases JObj(members), 0, |members| - i
  {
    if i < |members| {
      InferFieldOk(st, members[i].key, members[i].value);
      if InferField(st, members[i].key, members[i].value).Ok? {
        InferFromOk(members, i + 1, InferField(st, members[i].key, members[i].value).value);
        if exists j :: i <= j < |members| && Unsupported(members[j].value) {
          var j :| i <= j < |members| && Unsupported(members[j].value);
          if j > i {
            assert i + 1 <= j < |members|;
          }
        }
      }
    }
  }

  lemma {:induction false} InferFieldOk(st: Inferred, key: string, value: Json)
    ensures InferField(st, key, value).Ok? <==> !Unsupported(value)
    decreases value, 2, 0
  {
    var flag := st.hasJsonProperty || IsUpperCaseFirst(key);
    var className := UpperCaseFirst(LowerCaseFirst(key));
    var obj := NestedObject(value);
    if obj.Some? {
      InferOk(className, obj.value, flag);
    }
  }

  /** A nil map is refused before anything is built; a map is converted
      exactly when no array the converter looks at has a null or an array as
      its first element. */
  lemma ErrorCases(name: string, json: Json, flag: bool)
    requires json.JNull? || json.JObj?
    ensures json.JNull? ==> Infer(name, json, flag) == Err(NilJson)
    ensures json.JObj? ==> (Infer(name, json, flag).Ok? <==> !Unsupported(json))
  {
    if json.JObj? {
      InferOk(name, json, flag);
    }
  }

  /** The array-of-array guard as written lets every decoded array through. */
  lemma ArrayGuardNeverFires(value: Json)
    ensures !ArrayGuardAsWritten(value)
  {
    if GoTypeString(value).Some? {
      var t := GoTypeString(value).value;
      assert |t| < 4 || t[..4][0] != '[' || t[..4][2] != '[';
    }
  }

  /** The conversion as written never reports NestedArray, and it agrees with
      `Infer` on every document `Infer` does not refuse with NestedArray. */
  lemma {:induction false} AsWrittenAgrees(name: string, json: Json, f: bool)
    requires json.JNull? || json.JObj?
    ensures InferAsWritten(name, json, f) != Err(NestedArray)
    ensures Infer(name, json, f) != Err(NestedArray) ==> InferAsWritten(name, json, f) == Infer(name, json, f)
    decreases json, 1, 0
  {
    if json.JObj? {
      AsWrittenAgreesFrom(json.members, 0, Inferred(NewClass(name), f));
    }
  }

  lemma {:induction false} AsWrittenAgreesFrom(members: seq<Member>, i: nat, st: Inferred)
    requires i <= |members|
    ensures InferFromAsWritten(members, i, st) != Err(NestedArray)
    ensures InferFrom(members, i, st) != Err(NestedArray) ==> InferFromAsWritten(members, i, st) == InferFrom(members, i, st)
    decreases JObj(members), 0, |members| - i
  {
    if i < |members| {
      AsWrittenAgreesField(st, members[i].key, members[i].value);
      var w := InferFieldAsWritten(st, members[i].key, members[i].value);
      if w.Ok? {
        AsWrittenAgreesFrom(members, i + 1, w.value);
      }
    }
  }

  lemma {:induction false} AsWrittenAgreesField(st: Inferred, key: string, value: Json)
    ensures InferFieldAsWritten(st, key, value) != Err(NestedArray)
    ensures InferField(st, key, value) != Err(NestedArray) ==> InferFieldAsWritten(st, key, value) == InferField(st, key, value)
    decreases value, 2, 0
  {
    var flag := st.hasJsonProperty || IsUpperCaseFirst(key);
    var className := UpperCaseFirst(LowerCaseFirst(key));
    match value
    case JObj(_) =>
      AsWrittenAgrees(className, value, flag);
    case JArr(elems) =>
      ArrayGuardNeverFires(value);
      if |elems| > 0 && elems[0].JObj? {
        AsWrittenAgrees(className, elems[0], flag);
      }
    case _ =>
  }

  /** The two conversions differ exactly on the documents `Infer` refuses with
      NestedArray: there the code as written goes on converting. */
  lemma AsWrittenDiffersOnlyOnNestedArrays(name: string, json: Json, f: bool)
    requires json.JNull? || json.JObj?
    ensures InferAsWritten(name, json, f) != Infer(name, json, f) <==> Infer(name, json, f) == Err(NestedArray)
  {
    AsWrittenAgrees(name, json, f);
  }

  /** As written, an array whose first element is an array passes the guard
      and is typed as a list of what `parseType` makes of that element, as for
      a scalar element; the key is kept. */
  lemma NestedArrayFallsThrough(st: Inferred, key: string, first: Json, rest: seq<Json>)
    requires first.JArr?
    ensures InferFieldAsWritten(st, key, JArr([first] + rest)).Ok?
    ensures InferFieldAsWritten(st, key, JArr([first] + rest)).value.cls.fields ==
      st.cls.fields + [JavaField(LowerCaseFirst(key), ListType(ParseType(first)), KeyAnnotations(key))]
  {
    ArrayGuardNeverFires(JArr([first] + rest));
  }

  /** With the guard on the first element, an array of arrays is refused with
      NestedArray, and an array starting with null with NilElement. */
  lemma BadFirstElementRefused(st: Inferred, key: string, first: Json, rest: seq<Json>)
    ensures first.JArr? ==> InferField(st, key, JArr([first] + rest)) == Err(NestedArray)
    ensures first.JNull? ==> InferField(st, key, JArr([first] + rest)) == Err(NilElement)
  {
  }
}
