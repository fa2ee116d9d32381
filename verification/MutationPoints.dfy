/** The mutation points of an endpoint (`eligible_points`, `_body_points`). */
module MutationPoints {
  import opened JsonValues
  import opened Strings
  import opened Bodies

  datatype Location = InPath | InQuery | InHeader | InCookie | InBody

  datatype MutationPoint = MutationPoint(
    key: string, name: string, location: Location, baseline: Json, schemaType: string, bodyPath: Path)

  /** A documented parameter; `sample` is its example, or the sample drawn from its schema. */
  datatype Parameter = Parameter(name: string, location: string, schema: map<string, Json>, sample: Json)

  /** What the request body definition of an endpoint comes down to. */
  datatype BodyDefinition = NoBody | BodyDefinition(mediaType: string, body: Json, schema: map<string, Json>)

  datatype Endpoint = Endpoint(
    endpointId: string, baseUrl: string, path: string, method_: string, authRequired: bool, tags: seq<string>,
    parameters: seq<Parameter>, body: BodyDefinition)

  const UNSAFE_HEADER_NAMES: set<string> :=
    {"authorization", "cookie", "host", "content-length", "transfer-encoding"}

  /** The host language's `str` and `str.lower`, left arbitrary. */
  datatype Text = Text(str: Json -> string, lower: string -> string)

  function LocationOf(name: string): Option<Location> {
    if name == "path" then Some(InPath)
    else if name == "query" then Some(InQuery)
    else if name == "header" then Some(InHeader)
    else if name == "cookie" then Some(InCookie)
    else None
  }

  function Truthy(value: Json): bool {
    match value
    case Null => false
    case Bool(b) => b
    case Num(n) => n != 0.0
    case Str(s) => s != ""
    case Arr(items) => items != []
    case Obj(fields) => fields != map[]
  }

  function FirstNotNull(values: seq<Json>): Json {
    if values == [] then Str("string")
    else if values[0] != Str("null") then values[0]
    else FirstNotNull(values[1..])
  }

  function SchemaType(schema: map<string, Json>, text: Text): string {
    var declared := if "type" in schema then schema["type"] else Null;
    var chosen := if declared.Arr? then FirstNotNull(declared.items) else declared;
    if Truthy(chosen) then (if chosen.Str? then chosen.s else text.str(chosen))
    else if "properties" in schema then "object"
    else if "items" in schema then "array"
    else "string"
  }

  /** No type is declared, or an empty one. */
  predicate Untyped(schema: map<string, Json>) {
    "type" !in schema
    || schema["type"] in {Null, Bool(false), Num(0.0), Str(""), Obj(map[]), Arr([Null]), Arr([Str("null"), Str("")])}
  }

  /** The declared type, if it is a text; of a list of types the first that is not `null`; without any,
      what the schema describes. */
  lemma {:induction false} SchemaTypeExactly(schema: map<string, Json>, text: Text)
    ensures "type" in schema && schema["type"].Str? && schema["type"].s != "" ==>
      SchemaType(schema, text) == schema["type"].s
    ensures Untyped(schema) && "properties" in schema ==> SchemaType(schema, text) == "object"
    ensures Untyped(schema) && "properties" !in schema && "items" in schema ==> SchemaType(schema, text) == "array"
    ensures Untyped(schema) && "properties" !in schema && "items" !in schema ==> SchemaType(schema, text) == "string"
  {
  }

  lemma {:induction false} FirstListedType(schema: map<string, Json>, text: Text, nulls: nat, name: string,
        rest: seq<Json>)
    requires "type" in schema && schema["type"] == Arr(seq(nulls, _ => Str("null")) + [Str(name)] + rest)
    requires name != "null" && name != ""
    ensures SchemaType(schema, text) == name
  {
    SkipNulls(nulls, Str(name), rest);
  }

  lemma {:induction false} SkipNulls(nulls: nat, first: Json, rest: seq<Json>)
    requires first != Str("null")
    ensures FirstNotNull(seq(nulls, _ => Str("null")) + [first] + rest) == first
  {
    var all := seq(nulls, _ => Str("null")) + [first] + rest;
    if nulls > 0 {
      assert all[1..] == seq(nulls - 1, _ => Str("null")) + [first] + rest;
      SkipNulls(nulls - 1, first, rest);
    }
  }

  function Member(schema: map<string, Json>, key: string): map<string, Json> {
    if key in schema && schema[key].Obj? then schema[key].fields else map[]
  }

  function ChildSchema(schema: map<string, Json>, step: Step): map<string, Json> {
    match step
    case Key(key) => Member(Member(schema, "properties"), key)
    case Index(_) => Member(schema, "items")
  }

  function SchemaAt(schema: map<string, Json>, path: Path): map<string, Json>
    decreases |path|
  {
    if path == [] then schema else SchemaAt(ChildSchema(schema, path[0]), path[1..])
  }

  function StepName(step: Step): string {
    match step
    case Key(key) => key
    case Index(index) => Decimal(index)
  }

  function PathName(path: Path): string {
    var joined := Join(seq(|path|, i requires 0 <= i < |path| => StepName(path[i])), '.');
    if joined == "" then "$body" else joined
  }

  /** The point for the scalar found at `path` below a value that itself sits at `at`. */
  function BodyPoint(value: Json, schema: map<string, Json>, text: Text, at: Path, path: Path): MutationPoint
    requires Has(value, path)
  {
    var name := PathName(at + path);
    MutationPoint("body:" + name, name, InBody, Get(value, path), SchemaType(SchemaAt(schema, path), text), at + path)
  }

  /** The point is that of a leaf below `at`. */
  ghost predicate IsLeafPoint(point: MutationPoint, value: Json, schema: map<string, Json>, text: Text, at: Path) {
    && at <= point.bodyPath && point.bodyPath[|at|..] in LeafPaths(value) && Has(value, point.bodyPath[|at|..])
    && point == BodyPoint(value, schema, text, at, point.bodyPath[|at|..])
  }

  /** What such a point says about its leaf. */
  lemma {:induction false} LeafPointExactly(point: MutationPoint, value: Json, schema: map<string, Json>, text: Text)
    requires IsLeafPoint(point, value, schema, text, [])
    ensures Has(value, point.bodyPath) && point.baseline == Get(value, point.bodyPath)
    ensures !point.baseline.Obj? && !point.baseline.Arr? && point.location.InBody?
    ensures point.name == PathName(point.bodyPath) && point.key == "body:" + PathName(point.bodyPath)
    ensures point.schemaType == SchemaType(SchemaAt(schema, point.bodyPath), text)
  {
    assert point.bodyPath[0..] == point.bodyPath;
    LeafIsScalar(value, point.bodyPath);
    assert [] + point.bodyPath == point.bodyPath;
  }

  /** A leaf is a scalar reached through the first three entries of each list on its way. */
  lemma {:induction false} LeafPathsExactly(value: Json, path: Path)
    ensures path in LeafPaths(value) <==>
      && Has(value, path) && !Get(value, path).Obj? && !Get(value, path).Arr?
      && forall i | 0 <= i < |path| && path[i].Index? :: path[i].index < 3
    decreases |path|
  {
    if path in LeafPaths(value) {
      LeafStep(value, path);
      LeafIsScalar(value, path);
    }
    if path != [] && HasStep(value, path[0]) {
      LeafPathsExactly(Child(value, path[0]), path[1..]);
      assert forall i | 1 <= i < |path| :: path[i] == path[1..][i - 1];
      assert forall i | 0 <= i < |path[1..]| :: path[1..][i] == path[i + 1];
      if path[1..] in LeafPaths(Child(value, path[0])) && (path[0].Index? ==> path[0].index < 3) {
        LeafStepBack(value, path);
      }
    }
  }

  /** The name joins keys and positions with dots; the schema of a leaf is found through `properties`
      and `items`. */
  lemma {:induction false} NamesAndSchemas(path: Path, step: Step, schema: map<string, Json>)
    requires path != [] && PathName(path) != "$body"
    ensures PathName([]) == "$body"
    ensures PathName(path + [step])
         == PathName(path) + "." + (match step case Key(key) => key case Index(index) => Decimal(index))
    ensures SchemaAt(schema, []) == schema
    ensures SchemaAt(schema, [step] + path)
         == SchemaAt(match step
                     case Key(key) =>
                       var properties := if "properties" in schema && schema["properties"].Obj?
                                         then schema["properties"].fields else map[];
                       if key in properties && properties[key].Obj? then properties[key].fields else map[]
                     case Index(_) =>
                       if "items" in schema && schema["items"].Obj? then schema["items"].fields else map[],
                     path)
  {
    assert ([step] + path)[1..] == path;
    var names := seq(|path|, i requires 0 <= i < |path| => StepName(path[i]));
    var more := seq(|path| + 1, i requires 0 <= i < |path| + 1 => StepName((path + [step])[i]));
    assert more == names + [StepName(step)];
    JoinMore(names, StepName(step));
  }

  lemma {:induction false} JoinMore(names: seq<string>, last: string)
    requires names != []
    ensures Join(names + [last], '.') == Join(names, '.') + "." + last
  {
    if |names| > 1 {
      assert (names + [last])[1..] == names[1..] + [last];
      JoinMore(names[1..], last);
    } else {
      assert (names + [last])[1..] == [last];
    }
  }

  /** `points` lists every leaf of the value exactly once, with its baseline and schema type. */
  ghost predicate ListsLeaves(points: seq<MutationPoint>, value: Json, schema: map<string, Json>, text: Text, at: Path)
  {
    && (forall i | 0 <= i < |points| :: IsLeafPoint(points[i], value, schema, text, at))
    && (forall path | path in LeafPaths(value) :: exists i :: 0 <= i < |points| && points[i].bodyPath == at + path)
    && (forall i, j | 0 <= i < j < |points| :: points[i].bodyPath != points[j].bodyPath)
  }

  lemma {:induction false} BodyPointOfChild(value: Json, schema: map<string, Json>, text: Text, at: Path, path: Path)
    requires path != [] && Has(value, path)
    ensures BodyPoint(value, schema, text, at, path)
         == BodyPoint(Child(value, path[0]), ChildSchema(schema, path[0]), text, at + [path[0]], path[1..])
  {
    assert at + path == (at + [path[0]]) + path[1..];
  }

  lemma {:induction false} LiftLeaf(point: MutationPoint, value: Json, schema: map<string, Json>, text: Text, at: Path,
        step: Step)
    requires HasStep(value, step) && (step.Index? ==> step.index < SAMPLED_ITEMS)
    requires IsLeafPoint(point, Child(value, step), ChildSchema(schema, step), text, at + [step])
    ensures IsLeafPoint(point, value, schema, text, at) && |point.bodyPath| > |at| && point.bodyPath[|at|] == step
  {
    var full := point.bodyPath;
    var rest := full[|at + [step]|..];
    assert full == at + [step] + rest;
    var path := full[|at|..];
    assert path == [step] + rest && path[1..] == rest;
    LeafStepBack(value, path);
    BodyPointOfChild(value, schema, text, at, path);
  }

  /** The points of one child, seen from the child's parent. */
  lemma {:induction false} LiftLeaves(points: seq<MutationPoint>, value: Json, schema: map<string, Json>, text: Text,
        at: Path, step: Step)
    requires HasStep(value, step) && (step.Index? ==> step.index < SAMPLED_ITEMS)
    requires ListsLeaves(points, Child(value, step), ChildSchema(schema, step), text, at + [step])
    ensures forall i | 0 <= i < |points| ::
         IsLeafPoint(points[i], value, schema, text, at) && |points[i].bodyPath| > |at|
             && points[i].bodyPath[|at|] == step
  {
    forall i | 0 <= i < |points|
      ensures IsLeafPoint(points[i], value, schema, text, at) && |points[i].bodyPath| > |at|
        && points[i].bodyPath[|at|] == step
    {
      LiftLeaf(points[i], value, schema, text, at, step);
    }
  }

  lemma {:induction false} LiftPath(points: seq<MutationPoint>, value: Json, at: Path, step: Step, path: Path)
    requires path in LeafPaths(value) && path != [] && path[0] == step
    requires exists i :: 0 <= i < |points| && points[i].bodyPath == (at + [step]) + path[1..]
    ensures exists i :: 0 <= i < |points| && points[i].bodyPath == at + path
  {
    var i :| 0 <= i < |points| && points[i].bodyPath == (at + [step]) + path[1..];
    assert at + path == (at + [step]) + path[1..];
  }

  lemma {:induction false} LiftCoverage(points: seq<MutationPoint>, value: Json, at: Path, step: Step)
    requires HasStep(value, step)
    requires forall path | path in LeafPaths(Child(value, step)) :: exists i ::
      0 <= i < |points| && points[i].bodyPath == (at + [step]) + path
    ensures forall path | path in LeafPaths(value) && path != [] && path[0] == step ::
         exists i :: 0 <= i < |points| && points[i].bodyPath == at + path
  {
    forall path | path in LeafPaths(value) && path != [] && path[0] == step
      ensures exists i :: 0 <= i < |points| && points[i].bodyPath == at + path
    {
      LeafStep(value, path);
      LiftPath(points, value, at, step, path);
    }
  }

  ghost function KeySteps(keys: set<string>): set<Step> {
    set key | key in keys :: Key(key)
  }

  ghost function IndexSteps(count: nat): set<Step> {
    set i: nat | i < count :: Index(i)
  }

  /** Enumerates the scalars of a body, depth first. */
  method BodyPoints(value: Json, schema: map<string, Json>, text: Text, at: Path) returns (output: seq<MutationPoint>)
    ensures ListsLeaves(output, value, schema, text, at)
    decreases value, 1
  {
    if value.Obj? {
      output := ObjectPoints(value, schema, text, at);
    } else if value.Arr? {
      output := ArrayPoints(value, schema, text, at);
    } else {
      var name := PathName(at);
      output := [MutationPoint("body:" + name, name, InBody, value, SchemaType(schema, text), at)];
      assert at + [] == at && at[|at|..] == [];
      assert output[0].bodyPath == at + [];
    }
  }

  /** A mapping's members, in any order. */
  method ObjectPoints(value: Json, schema: map<string, Json>, text: Text, at: Path) returns (output: seq<MutationPoint>)
    requires value.Obj?
    ensures ListsLeaves(output, value, schema, text, at)
    decreases value, 0
  {
    output := [];
    var remaining := value.fields.Keys;
    while remaining != {}
      invariant remaining <= value.fields.Keys
      invariant ListedSteps(output, value, schema, text, at, KeySteps(value.fields.Keys - remaining))
      decreases remaining
    {
      var key :| key in remaining;
      var child := BodyPoints(value.fields[key], ChildSchema(schema, Key(key)), text, at + [Key(key)]);
      AppendChild(output, child, value, schema, text, at, KeySteps(value.fields.Keys - remaining), Key(key));
      assert KeySteps(value.fields.Keys - remaining) + {Key(key)} == KeySteps(value.fields.Keys - (remaining - {key}));
      output := output + child;
      remaining := remaining - {key};
    }
    AllStepsListed(output, value, schema, text, at, KeySteps(value.fields.Keys - remaining));
  }

  /** A list's first entries, in order. */
  method ArrayPoints(value: Json, schema: map<string, Json>, text: Text, at: Path) returns (output: seq<MutationPoint>)
    requires value.Arr?
    ensures ListsLeaves(output, value, schema, text, at)
    decreases value, 0
  {
    output := [];
    var count := if |value.items| < SAMPLED_ITEMS then |value.items| else SAMPLED_ITEMS;
    for index := 0 to count
      invariant ListedSteps(output, value, schema, text, at, IndexSteps(index))
    {
      var child := BodyPoints(value.items[index], ChildSchema(schema, Index(index)), text, at + [Index(index)]);
      AppendChild(output, child, value, schema, text, at, IndexSteps(index), Index(index));
      assert IndexSteps(index) + {Index(index)} == IndexSteps(index + 1);
      output := output + child;
    }
    AllStepsListed(output, value, schema, text, at, IndexSteps(count));
  }

  /** The leaves below the steps in `done` are listed, and only those. */
  ghost predicate ListedSteps(points: seq<MutationPoint>, value: Json, schema: map<string, Json>, text: Text, at: Path,
        done: set<Step>)
  {
    && (forall i | 0 <= i < |points| ::
          IsLeafPoint(points[i], value, schema, text, at) && |points[i].bodyPath| > |at|
              && points[i].bodyPath[|at|] in done)
    && (forall path | path in LeafPaths(value) && path != [] && path[0] in done ::
         exists i :: 0 <= i < |points| && points[i].bodyPath == at + path)
    && (forall i, j | 0 <= i < j < |points| :: points[i].bodyPath != points[j].bodyPath)
  }

  lemma {:induction false} AppendChild(points: seq<MutationPoint>, child: seq<MutationPoint>, value: Json,
        schema: map<string, Json>, text: Text, at: Path, done: set<Step>, step: Step)
    requires ListedSteps(points, value, schema, text, at, done) && step !in done
    requires HasStep(value, step) && (step.Index? ==> step.index < SAMPLED_ITEMS)
    requires ListsLeaves(child, Child(value, step), ChildSchema(schema, step), text, at + [step])
    ensures ListedSteps(points + child, value, schema, text, at, done + {step})
  {
    LiftLeaves(child, value, schema, text, at, step);
    LiftCoverage(child, value, at, step);
    AppendListed(points, child, value, at, done, step);
  }

  lemma {:induction false} AppendListed(points: seq<MutationPoint>, child: seq<MutationPoint>, value: Json, at: Path,
        done: set<Step>, step: Step)
    requires forall path | path in LeafPaths(value) && path != [] && path[0] in done ::
               exists i :: 0 <= i < |points| && points[i].bodyPath == at + path
    requires forall path | path in LeafPaths(value) && path != [] && path[0] == step ::
               exists i :: 0 <= i < |child| && child[i].bodyPath == at + path
    ensures forall path | path in LeafPaths(value) && path != [] && path[0] in done + {step} ::
              exists i :: 0 <= i < |points + child| && (points + child)[i].bodyPath == at + path
  {
    var all := points + child;
    forall path | path in LeafPaths(value) && path != [] && path[0] in done + {step}
      ensures exists i :: 0 <= i < |all| && all[i].bodyPath == at + path
    {
      if path[0] == step {
        var i :| 0 <= i < |child| && child[i].bodyPath == at + path;
        assert all[|points| + i] == child[i];
      } else {
        var i :| 0 <= i < |points| && points[i].bodyPath == at + path;
        assert all[i] == points[i];
      }
    }
  }

  lemma {:induction false} AllStepsListed(points: seq<MutationPoint>, value: Json, schema: map<string, Json>,
        text: Text, at: Path, done: set<Step>)
    requires ListedSteps(points, value, schema, text, at, done) && !Scalar(value)
    requires forall step | HasStep(value, step) && (step.Index? ==> step.index < SAMPLED_ITEMS) :: step in done
    ensures ListsLeaves(points, value, schema, text, at)
  {
    forall path | path in LeafPaths(value) ensures exists i :: 0 <= i < |points| && points[i].bodyPath == at + path {
      LeafStep(value, path);
    }
  }
}
