/** The converter of actions/converter/parser.go: it infers a tree of Java
    class descriptions from a decoded JSON object (`JsonToJavaClass`) and wraps
    the root class into a file description with its package and imports
    (`ClassToJavaFile`).

    The package-global `ImportConfig.hasJsonProperty` is threaded through every
    operation as an explicit value: each operation takes the flag as it stood
    and returns it as it stands afterwards. The panics of the Go code are the
    `Err` results of `Result`. */
module Converter {
  import opened JsonModel
  import opened Common

  const JavaFloat := "Float"
  const JavaInteger := "Integer"
  const JavaString := "String"
  const JavaBool := "Boolean"
  const JavaObject := "Object"

  const JsonPropertyAnnotation := "JsonProperty"
  const PackageName := "generated"

  const JsonPropertyImport := JavaImport("com.fasterxml.jackson.annotation.JsonProperty")
  const LombokImports := [
    JavaImport("lombok.AllArgsConstructor"),
    JavaImport("lombok.Builder"),
    JavaImport("lombok.Data"),
    JavaImport("lombok.NoArgsConstructor")
  ]
  const ListImport := JavaImport("java.util.List")

  /** The two halves of the file comment template around its `$time` mark. */
  const CommentHead := "/**\n* generated by simple-tool in "
  const CommentTail := "\n**/"

  datatype Annotation = Annotation(name: string, value: string)

  /** A field: its Java name, its Java type and its annotation list. */
  datatype JavaField = JavaField(fieldName: string, fieldType: string, annotations: seq<Annotation>)

  /** A class description. The back-reference to the enclosing class is kept
      as that class's name. */
  datatype ClassDescription = ClassDescription(
    isPublic: bool,
    className: string,
    fields: seq<JavaField>,
    parentClass: Option<string>,
    innerClass: seq<ClassDescription>,
    staticClass: seq<ClassDescription>)

  datatype JavaImport = JavaImport(importedClass: string)

  datatype JavaFileDescription = JavaFileDescription(
    packageName: string,
    classDesc: ClassDescription,
    imports: seq<JavaImport>,
    fileComment: string)

  /** The conditions under which the Go code panics. */
  datatype ConvError =
    | NilJson      // the map handed to JsonToJavaClass is nil
    | NestedArray  // an array whose first element is itself an array
    | NilElement   // an array whose first element is null

  datatype Result<T> = Ok(value: T) | Err(error: ConvError) {
    predicate IsFailure() { Err? }

    function PropagateFailure<U>(): Result<U>
      requires Err?
    {
      Err(error)
    }

    function Extract(): T
      requires Ok?
    {
      value
    }
  }

  /** A class built so far, with the `hasJsonProperty` flag as it stands. */
  datatype Inferred = Inferred(cls: ClassDescription, hasJsonProperty: bool)

  /** The class description JsonToJavaClass starts from. */
  function NewClass(name: string): (r: ClassDescription) {
    ClassDescription(true, name, [], None, [], [])
  }

  /** Go's `int(f)`: truncation toward zero. */
  function Trunc(x: real): (r: int) {
    if x >= 0.0 then x.Floor else -((-x).Floor)
  }

  /** The Java type of a number: Float when truncation changes it. */
  function NumberType(x: real): (r: string) {
    if Trunc(x) as real - x != 0.0 then JavaFloat else JavaInteger
  }

  /** The converter's `listType` helper, assumed to wrap a type as `List<T>`. */
  function ListType(t: string): (r: string) {
    "List<" + t + ">"
  }

  /** The converter's `parseType` helper, assumed to type a scalar array element
      the way a scalar field is typed, and to give Object for anything else.
      In `InferField` only scalars reach it; in `InferFieldAsWritten` an array
      does too, and is typed Object. */
  function ParseType(v: Json): (r: string) {
    match v
    case JNum(x) => NumberType(x)
    case JStr(_) => JavaString
    case JBool(_) => JavaBool
    case _ => JavaObject
  }

  /** The annotations processAnnotation adds to an empty list for `key`. */
  function KeyAnnotations(key: string): (r: seq<Annotation>) {
    if IsUpperCaseFirst(key) then [Annotation(JsonPropertyAnnotation, key)] else []
  }

  /** What JsonToJavaClass(name, json) returns, with the flag before and after
      the call. `json` has the Go parameter's type: a nil or non-nil map. */
  function Infer(name: string, json: Json, hasJsonProperty: bool): (r: Result<Inferred>)
    requires json.JNull? || json.JObj?
    decreases json, 1, 0
  {
    if json.JNull? then Err(NilJson)
    else InferFrom(json.members, 0, Inferred(NewClass(name), hasJsonProperty))
  }

  /** The rest of the key loop, from member `i` on, starting from `st`. */
  function InferFrom(members: seq<Member>, i: nat, st: Inferred): (r: Result<Inferred>)
    requires i <= |members|
    decreases JObj(members), 0, |members| - i
  {
    if i == |members| then Ok(st)
    else
      var next :- InferField(st, members[i].key, members[i].value);
      InferFrom(members, i + 1, next)
  }

  /** One iteration of the key loop: the field for `key`, and the inner class
      an object value (or an array whose first element is an object) adds to
      the current class. */
  function InferField(st: Inferred, key: string, value: Json): (r: Result<Inferred>)
    decreases value, 2, 0
  {
    var annotations := KeyAnnotations(key);
    var flag := st.hasJsonProperty || IsUpperCaseFirst(key);
    var fieldName := LowerCaseFirst(key);
    var cls := st.cls;
    var className := UpperCaseFirst(fieldName);
    match value
    case JNull => Ok(Inferred(cls.(fields := cls.fields + [JavaField(fieldName, JavaObject, annotations)]), flag))
    case JNum(x) => Ok(Inferred(cls.(fields := cls.fields + [JavaField(fieldName, NumberType(x), annotations)]), flag))
    case JStr(_) => Ok(Inferred(cls.(fields := cls.fields + [JavaField(fieldName, JavaString, annotations)]), flag))
    case JBool(_) => Ok(Inferred(cls.(fields := cls.fields + [JavaField(fieldName, JavaBool, annotations)]), flag))
    case JObj(_) =>
      var inner :- Infer(className, value, flag);
      Ok(Inferred(
        cls.(fields := cls.fields + [JavaField(fieldName, className, annotations)],
             innerClass := cls.innerClass + [inner.cls.(parentClass := Some(cls.className), isPublic := false)]),
        inner.hasJsonProperty))
    case JArr(elems) =>
      if |elems| == 0 then
        Ok(Inferred(cls.(fields := cls.fields + [JavaField(fieldName, JavaObject, annotations)]), flag))
      else
        match elems[0]
        case JNull => Err(NilElement)
        case JArr(_) => Err(NestedArray)
        case JObj(_) =>
          var inner :- Infer(className, elems[0], flag);
          Ok(Inferred(
            cls.(fields := cls.fields + [JavaField(fieldName, ListType(className), annotations)],
                 innerClass := cls.innerClass + [inner.cls.(parentClass := Some(cls.className), isPublic := false)]),
            inner.hasJsonProperty))
        case _ =>
          Ok(Inferred(cls.(fields := cls.fields + [JavaField(fieldName, ListType(ParseType(elems[0])), annotations)]), flag))
  }

  /** processAnnotation: a key whose first letter is upper-case gets a
      JsonProperty annotation carrying the original key and sets the flag;
      any other key changes nothing. */
  method ProcessAnnotation(key: string, annotations: seq<Annotation>, hasJsonProperty: bool)
    returns (annotations': seq<Annotation>, hasJsonProperty': bool)
    ensures IsUpperCaseFirst(key) ==>
      annotations' == annotations + [Annotation(JsonPropertyAnnotation, key)] && hasJsonProperty'
    ensures !IsUpperCaseFirst(key) ==> annotations' == annotations && hasJsonProperty' == hasJsonProperty
  {
    annotations', hasJsonProperty' := annotations, hasJsonProperty;
    if IsUpperCaseFirst(key) {
      hasJsonProperty' := true;
      annotations' := annotations' + [Annotation(JsonPropertyAnnotation, key)];
    }
  }

  /** JsonToJavaClass: walks the keys of `json` in order, appending one field
      per key and one inner class per nested object. */
  method JsonToJavaClass(name: string, json: Json, hasJsonProperty: bool) returns (r: Result<Inferred>)
    requires json.JNull? || json.JObj?
    ensures r == Infer(name, json, hasJsonProperty)
    decreases json
  {
    if json.JNull? {
      return Err(NilJson);
    }
    var members := json.members;
    var classDesc := ClassDescription(true, name, [], None, [], []);
    var flag := hasJsonProperty;
    var i := 0;
    while i < |members|
      invariant i <= |members|
      invariant InferFrom(members, i, Inferred(classDesc, flag)) == Infer(name, json, hasJsonProperty)
    {
      ghost var before := Inferred(classDesc, flag);
      var key := members[i].key;
      var value := members[i].value;
      var annotations;
      annotations, flag := ProcessAnnotation(key, [], flag);
      assert annotations == KeyAnnotations(key);
      key := LowerCaseFirst(key);
      if value.JNull? {
        classDesc := classDesc.(fields := classDesc.fields + [JavaField(key, JavaObject, annotations)]);
      } else if value.JNum? {
        var javaType := if Trunc(value.n) as real - value.n != 0.0 then JavaFloat else JavaInteger;
        classDesc := classDesc.(fields := classDesc.fields + [JavaField(key, javaType, annotations)]);
      } else if value.JStr? {
        classDesc := classDesc.(fields := classDesc.fields + [JavaField(key, JavaString, annotations)]);
      } else if value.JBool? {
        classDesc := classDesc.(fields := classDesc.fields + [JavaField(key, JavaBool, annotations)]);
      } else if value.JObj? {
        classDesc := classDesc.(fields := classDesc.fields + [JavaField(key, UpperCaseFirst(key), annotations)]);
        var objClass := JsonToJavaClass(UpperCaseFirst(key), value, flag);
        if objClass.Err? {
          return Err(objClass.error);
        }
        var inner := objClass.value.cls.(parentClass := Some(classDesc.className), isPublic := false);
        classDesc := classDesc.(innerClass := classDesc.innerClass + [inner]);
        flag := objClass.value.hasJsonProperty;
      } else {
        var nested := value.elems;
        if |nested| == 0 {
          classDesc := classDesc.(fields := classDesc.fields + [JavaField(key, JavaObject, annotations)]);
        } else {
          var elm := nested[0];
          if elm.JNull? {
            return Err(NilElement);
          } else if elm.JArr? {
            return Err(NestedArray);
          } else if elm.JObj? {
            classDesc := classDesc.(fields := classDesc.fields + [JavaField(key, ListType(UpperCaseFirst(key)), annotations)]);
            var elmClass := JsonToJavaClass(UpperCaseFirst(key), elm, flag);
            if elmClass.Err? {
              return Err(elmClass.error);
            }
            var inner := elmClass.value.cls.(parentClass := Some(classDesc.className), isPublic := false);
            classDesc := classDesc.(innerClass := classDesc.innerClass + [inner]);
            flag := elmClass.value.hasJsonProperty;
          } else {
            var typeString := ParseType(nested[0]);
            classDesc := classDesc.(fields := classDesc.fields + [JavaField(key, ListType(typeString), annotations)]);
          }
        }
      }
      assert InferField(before, members[i].key, value) == Ok(Inferred(classDesc, flag));
      i := i + 1;
    }
    return Ok(Inferred(classDesc, flag));
  }

  predicate IsListType(t: string) {
    |t| >= 5 && t[..5] == "List<"
  }

  /** The converter's `hasList` helper, assumed true when some field of the
      class or of any class nested in it has a list type. */
  predicate HasList(c: ClassDescription)
    decreases c
  {
    (exists f :: f in c.fields && IsListType(f.fieldType))
    || (exists k :: 0 <= k < |c.innerClass| && HasList(c.innerClass[k]))
  }

  /** ClassToJavaFile: a fixed package, the imports in a fixed order (the
      JsonProperty import only when the flag is set, the four lombok imports,
      java.util.List only when the class tree uses a list) and the file comment
      stamped with `timeString`, the formatted current time. */
  method ClassToJavaFile(description: ClassDescription, hasJsonProperty: bool, timeString: string)
    returns (file: JavaFileDescription)
    ensures file.packageName == PackageName && file.classDesc == description
    ensures |file.imports| == 4 + (if hasJsonProperty then 1 else 0) + (if HasList(description) then 1 else 0)
    ensures JsonPropertyImport in file.imports <==> hasJsonProperty
    ensures ListImport in file.imports <==> HasList(description)
    ensures hasJsonProperty ==> file.imports[0] == JsonPropertyImport
    ensures var k := if hasJsonProperty then 1 else 0; file.imports[k..k + 4] == LombokImports
    ensures HasList(description) ==> file.imports[|file.imports| - 1] == ListImport
    ensures file.fileComment == CommentHead + timeString + CommentTail
  {
    var imports: seq<JavaImport> := [];
    if hasJsonProperty {
      imports := imports + [JsonPropertyImport];
    }
    ghost var head := imports;
    imports := imports + [JavaImport("lombok.AllArgsConstructor")];
    imports := imports + [JavaImport("lombok.Builder")];
    imports := imports + [JavaImport("lombok.Data")];
    imports := imports + [JavaImport("lombok.NoArgsConstructor")];
    assert imports == head + LombokImports;
    if HasList(description) {
      imports := imports + [ListImport];
    }
    assert imports[|head|..|head| + 4] == LombokImports;
    var fileComment := CommentHead + timeString + CommentTail;
    file := JavaFileDescription(PackageName, description, imports, fileComment);
  }

  /** The Go type name `reflect.TypeOf(v).String()` gives for a decoded value;
      None for nil, whose type has no name. */
  function GoTypeString(v: Json): (r: Option<string>) {
    match v
    case JNull => None
    case JNum(_) => Some("float64")
    case JStr(_) => Some("string")
    case JBool(_) => Some("bool")
    case JObj(_) => Some("map[string]interface {}")
    case JArr(_) => Some("[]interface {}")
  }

  predicate HasPrefix(s: string, p: string) {
    |p| <= |s| && s[..|p|] == p
  }

  /** The array-of-array guard as written: it asks whether the type name of
      the array value itself starts with `[][]`. */
  predicate ArrayGuardAsWritten(value: Json) {
    GoTypeString(value).Some? && HasPrefix(GoTypeString(value).value, "[][]")
  }

  /** JsonToJavaClass as written, for comparison with `Infer`: the only
      array-of-array check is `ArrayGuardAsWritten`, so an array whose first
      element is itself an array is not refused but falls through to
      `parseType` and gets a list type. The trio repeats `Infer`, `InferFrom`
      and `InferField` except at two places of `InferFieldAsWritten`'s array
      branch: the `ArrayGuardAsWritten` test before the empty-array case, and
      the missing `JArr` case among the first-element cases, which sends an
      array element to the scalar case. */
  function InferAsWritten(name: string, json: Json, hasJsonProperty: bool): (r: Result<Inferred>)
    requires json.JNull? || json.JObj?
    decreases json, 1, 0
  {
    if json.JNull? then Err(NilJson)
    else InferFromAsWritten(json.members, 0, Inferred(NewClass(name), hasJsonProperty))
  }

  function InferFromAsWritten(members: seq<Member>, i: nat, st: Inferred): (r: Result<Inferred>)
    requires i <= |members|
    decreases JObj(members), 0, |members| - i
  {
    if i == |members| then Ok(st)
    else
      var next :- InferFieldAsWritten(st, members[i].key, members[i].value);
      InferFromAsWritten(members, i + 1, next)
  }

  function InferFieldAsWritten(st: Inferred, key: string, value: Json): (r: Result<Inferred>)
    decreases value, 2, 0
  {
    var annotations := KeyAnnotations(key);
    var flag := st.hasJsonProperty || IsUpperCaseFirst(key);
    var fieldName := LowerCaseFirst(key);
    var cls := st.cls;
    var className := UpperCaseFirst(fieldName);
    match value
    case JNull => Ok(Inferred(cls.(fields := cls.fields + [JavaField(fieldName, JavaObject, annotations)]), flag))
    case JNum(x) => Ok(Inferred(cls.(fields := cls.fields + [JavaField(fieldName, NumberType(x), annotations)]), flag))
    case JStr(_) => Ok(Inferred(cls.(fields := cls.fields + [JavaField(fieldName, JavaString, annotations)]), flag))
    case JBool(_) => Ok(Inferred(cls.(fields := cls.fields + [JavaField(fieldName, JavaBool, annotations)]), flag))
    case JObj(_) =>
      var inner :- InferAsWritten(className, value, flag);
      Ok(Inferred(
        cls.(fields := cls.fields + [JavaField(fieldName, className, annotations)],
             innerClass := cls.innerClass + [inner.cls.(parentClass := Some(cls.className), isPublic := false)]),
        inner.hasJsonProperty))
    case JArr(elems) =>
      if ArrayGuardAsWritten(value) then Err(NestedArray)
      else if |elems| == 0 then
        Ok(Inferred(cls.(fields := cls.fields + [JavaField(fieldName, JavaObject, annotations)]), flag))
      else
        match elems[0]
        case JNull => Err(NilElement)
        case JObj(_) =>
          var inner :- InferAsWritten(className, elems[0], flag);
          Ok(Inferred(
            cls.(fields := cls.fields + [JavaField(fieldName, ListType(className), annotations)],
                 innerClass := cls.innerClass + [inner.cls.(parentClass := Some(cls.className), isPublic := false)]),
            inner.hasJsonProperty))
        case _ =>
          Ok(Inferred(cls.(fields := cls.fields + [JavaField(fieldName, ListType(ParseType(elems[0])), annotations)]), flag))
  }
}
