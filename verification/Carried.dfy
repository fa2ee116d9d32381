/** What a built request carries for each mutation point: the baseline, or the override there is. */
module Carried {
  import opened JsonValues
  import opened Bodies
  import opened MutationPoints
  import opened Requests
  import PathTemplates

  /** How many points are at a location. */
  function CountAt(points: seq<MutationPoint>, location: Location): nat {
    if points == [] then 0
    else CountAt(points[..|points| - 1], location) + (if points[|points| - 1].location == location then 1 else 0)
  }

  lemma {:induction false} PairsCount(points: seq<MutationPoint>, location: Location, overrides: map<string, Json>,
        env: Environment)
    ensures |Pairs(points, location, overrides, env)| == CountAt(points, location)
  {
    if points != [] {
      PairsCount(points[..|points| - 1], location, overrides, env);
      OneMorePoint(points, |points| - 1, location, overrides, env);
      assert points[..|points|] == points;
    }
  }

  /** The text of a point: that of its override if there is one, and else that of its baseline. */
  predicate TextOf(text: string, point: MutationPoint, overrides: map<string, Json>, env: Environment) {
    && (point.key !in overrides ==> text == env.text.str(point.baseline))
    && (point.key in overrides ==> text == env.text.str(overrides[point.key]))
  }

  lemma {:induction false} PairAt(points: seq<MutationPoint>, location: Location, overrides: map<string, Json>,
        env: Environment, i: nat)
    requires i < |points| && points[i].location == location
    ensures CountAt(points[..i], location) < |Pairs(points, location, overrides, env)|
    ensures Pairs(points, location, overrides, env)[CountAt(points[..i], location)]
         == (points[i].name, Serialize(location, env.text.str(ValueOf(points[i], overrides))))
  {
    OneMorePoint(points, i, location, overrides, env);
    PairsCount(points[..i], location, overrides, env);
    PairsAppend(points[..i + 1], points[i + 1..], location, overrides, env);
    assert points == points[..i + 1] + points[i + 1..];
  }

  /** Each query point contributes its name and text, in the order of the points. */
  lemma {:induction false} QueryCarries(endpoint: Endpoint, points: seq<MutationPoint>, overrides: map<string, Json>,
        env: Environment, i: nat)
    requires IsDict(points) && i < |points| && points[i].location.InQuery?
    ensures var params := Request(endpoint, points, overrides, env).params;
            var k := CountAt(points[..i], InQuery);
            && |params| == CountAt(points, InQuery) && k < |params|
            && params[k].0 == points[i].name && TextOf(params[k].1, points[i], overrides, env)
  {
    PairsCount(points, InQuery, overrides, env);
    PairAt(points, InQuery, overrides, env, i);
  }

  /** Some point at `location` has the name. */
  predicate Placed(points: seq<MutationPoint>, location: Location, name: string) {
    exists p :: p in points && p.location == location && p.name == name
  }

  lemma {:induction false} MapCarries(points: seq<MutationPoint>, location: Location, overrides: map<string, Json>,
        env: Environment)
    requires IsDict(points) && !location.InBody?
    ensures var values := PathTemplates.AsMap(Pairs(points, location, overrides, env));
            && (forall p | p in points && p.location == location ::
                  p.name in values && values[p.name] == Serialize(location, env.text.str(ValueOf(p, overrides))))
            && forall name | name in values :: Placed(points, location, name)
  {
    var pairs := Pairs(points, location, overrides, env);
    var values := PathTemplates.AsMap(pairs);
    PairsHaveDistinctNames(points, location, overrides, env);
    PathTemplates.AsMapNames(pairs);
    forall p | p in points && p.location == location
      ensures p.name in values && values[p.name] == Serialize(location, env.text.str(ValueOf(p, overrides)))
    {
      var i :| 0 <= i < |points| && points[i] == p;
      PairAt(points, location, overrides, env, i);
    }
    forall name | name in values ensures Placed(points, location, name) {
      var k :| 0 <= k < |pairs| && pairs[k].0 == name;
      assert pairs[k] in pairs;
    }
  }

  /** The headers are those of the header points, each with its text made safe for the wire. */
  lemma {:induction false} HeadersCarry(endpoint: Endpoint, points: seq<MutationPoint>, overrides: map<string, Json>,
        env: Environment)
    requires IsDict(points)
    ensures var headers := Request(endpoint, points, overrides, env).headers;
            && (forall p | p in points && p.location.InHeader? ::
                  p.name in headers
                  && exists text :: TextOf(text, p, overrides, env) && headers[p.name] == WireSafe(text))
            && forall name | name in headers :: Placed(points, InHeader, name)
  {
    var headers := Request(endpoint, points, overrides, env).headers;
    MapCarries(points, InHeader, overrides, env);
    forall p | p in points && p.location.InHeader?
      ensures p.name in headers && exists text :: TextOf(text, p, overrides, env) && headers[p.name] == WireSafe(text)
    {
      assert TextOf(env.text.str(ValueOf(p, overrides)), p, overrides, env);
    }
  }

  /** The cookies are those of the cookie points, each with its text. */
  lemma {:induction false} CookiesCarry(endpoint: Endpoint, points: seq<MutationPoint>, overrides: map<string, Json>,
        env: Environment)
    requires IsDict(points)
    ensures var cookies := Request(endpoint, points, overrides, env).cookies;
            && (forall p | p in points && p.location.InCookie? ::
                  p.name in cookies && TextOf(cookies[p.name], p, overrides, env))
            && forall name | name in cookies :: Placed(points, InCookie, name)
  {
    MapCarries(points, InCookie, overrides, env);
  }

  /** Each placeholder of a path point is filled with its text, percent-encoded. */
  ghost predicate Fills(values: map<string, string>, points: seq<MutationPoint>, overrides: map<string, Json>,
        env: Environment)
  {
    && (forall p | p in points && p.location.InPath? ::
          p.name in values && exists text ::
              TextOf(text, p, overrides, env) && values[p.name] == PathTemplates.Quote(text))
    && forall name | name in values :: Placed(points, InPath, name)
  }

  lemma {:induction false} PathValues(points: seq<MutationPoint>, overrides: map<string, Json>, env: Environment)
    requires IsDict(points)
    ensures Fills(PathTemplates.AsMap(Pairs(points, InPath, overrides, env)), points, overrides, env)
  {
    MapCarries(points, InPath, overrides, env);
    forall p | p in points && p.location.InPath?
      ensures TextOf(env.text.str(ValueOf(p, overrides)), p, overrides, env)
    {
    }
  }

  /** The URL joins the base URL and the path, in which the placeholders are filled. */
  lemma {:induction false} PathCarries(endpoint: Endpoint, points: seq<MutationPoint>,
        template: seq<PathTemplates.Segment>, overrides: map<string, Json>, env: Environment)
    returns (values: map<string, string>)
    requires IsDict(points) && FillablePath(endpoint, points, template)
    ensures Fills(values, points, overrides, env)
    ensures Request(endpoint, points, overrides, env).url
         == env.join(endpoint.baseUrl, PathTemplates.Render(PathTemplates.Fill(template, values)))
  {
    values := PathTemplates.AsMap(Pairs(points, InPath, overrides, env));
    PathValues(points, overrides, env);
    PathPairsFill(endpoint, points, template, overrides, env);
  }

  // ---------- the body ----------

  lemma {:induction false} EditedHas(value: Json, edits: map<Path, Json>, at: Path, path: Path)
    requires Has(value, path)
    requires forall edit | edit in edits :: edit == at + path || Apart(edit, at + path)
    ensures Has(Edited(value, edits, at), path)
    ensures at + path in edits ==> Get(Edited(value, edits, at), path) == edits[at + path]
    ensures at + path !in edits && !Get(value, path).Obj? && !Get(value, path).Arr? ==>
      Get(Edited(value, edits, at), path) == Get(value, path)
    decreases |path|
  {
    if path == [] {
      assert at + path == at;
    } else {
      assert at <= at + path && at != at + path;
      assert at !in edits;
      assert (at + [path[0]]) + path[1..] == at + path;
      EditedStep(value, edits, at, path[0]);
      EditedHas(Child(value, path[0]), edits, at + [path[0]], path[1..]);
    }
  }

  /** At each body point the body holds its override if there is one, and else what is documented; the
      body is otherwise the documented one. */
  lemma {:induction false} BodyCarries(endpoint: Endpoint, points: seq<MutationPoint>, overrides: map<string, Json>,
        p: MutationPoint)
    requires IsDict(points) && PointsFit(endpoint, points) && p in points && p.location.InBody?
    ensures HasBody(endpoint) && Has(endpoint.body.body, p.bodyPath)
    ensures var body := EditedBody(endpoint, points, overrides);
            && Has(body, p.bodyPath)
            && (p.key in overrides ==> Get(body, p.bodyPath) == overrides[p.key])
            && (p.key !in overrides ==> Get(body, p.bodyPath) == Get(endpoint.body.body, p.bodyPath))
  {
    var edits := BodyEdits(points, overrides, overrides.Keys);
    LeafIsScalar(endpoint.body.body, p.bodyPath);
    assert [] + p.bodyPath == p.bodyPath;
    forall edit | edit in edits ensures edit == p.bodyPath || Apart(edit, p.bodyPath) {
      LeavesApart(endpoint.body.body, edit, p.bodyPath);
    }
    EditedHas(endpoint.body.body, edits, [], p.bodyPath);
    forall other | other in points && other.location.InBody? && other.bodyPath == p.bodyPath ensures other == p {
      SamePoint(points, p);
    }
  }

  lemma {:induction false} BodyUntouched(endpoint: Endpoint, points: seq<MutationPoint>, overrides: map<string, Json>)
    requires IsDict(points) && endpoint.body.BodyDefinition?
    requires forall p | p in points && p.location.InBody? :: p.key !in overrides
    ensures EditedBody(endpoint, points, overrides) == endpoint.body.body
  {
    assert BodyEdits(points, overrides, overrides.Keys) == map[];
    EditedNowhere(endpoint.body.body, map[], []);
  }

  /** Without a documented body none is sent. */
  lemma {:induction false} NothingSent(endpoint: Endpoint, points: seq<MutationPoint>, overrides: map<string, Json>,
        env: Environment)
    requires IsDict(points) && !endpoint.body.BodyDefinition?
    ensures var sent := Request(endpoint, points, overrides, env);
            sent.jsonBody == Null && sent.dataBody == None && sent.mediaType == None
  {
  }

  /** JSON media types send the body as JSON, form types its members as form data, others as one field. */
  lemma {:induction false} BodySent(endpoint: Endpoint, points: seq<MutationPoint>, overrides: map<string, Json>,
        env: Environment, prefix: string)
    requires IsDict(points) && endpoint.body.BodyDefinition?
    ensures var (sent, media) := (Request(endpoint, points, overrides, env), endpoint.body.mediaType);
            var body := EditedBody(endpoint, points, overrides);
            && sent.mediaType == Some(media)
            && (media == "application/json" || media == prefix + "+json" ==>
                  sent.jsonBody == body && sent.dataBody == None)
            && (media in {"application/x-www-form-urlencoded", "multipart/form-data"} ==>
                  sent.jsonBody == Null
                  && sent.dataBody == Some(if body.Obj? then body.fields else map["value" := body]))
            && (media in {"text/plain", "application/xml"} ==>
                  sent.jsonBody == Null && sent.dataBody == if body == Null then None else Some(map["value" := body]))
            && (media == "" ==> sent.jsonBody == Null && sent.dataBody == None)
  {
    assert (prefix + "+json")[|prefix + "+json"| - 5..] == "+json";
  }
}
