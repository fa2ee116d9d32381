/** Request construction with overrides at mutation points (`build_prepared_request`). */
module Requests {
  import opened JsonValues
  import opened Strings
  import opened Bodies
  import opened MutationPoints
  import PathTemplates

  datatype Prepared = Prepared(
    url: string, params: seq<(string, string)>, headers: map<string, string>, cookies: map<string, string>,
    jsonBody: Json, dataBody: Option<map<string, Json>>, mediaType: Option<string>)

  /** Text conversion, and joining a base URL with a path. */
  datatype Environment = Environment(text: Text, join: (string, string) -> string)

  // ---------- header values ----------

  predicate IsControl(c: char) {
    c as int < 32 || c as int == 127
  }

  function BlankControls(s: string): string {
    seq(|s|, i requires 0 <= i < |s| => if IsControl(s[i]) then ' ' else s[i])
  }

  function WireSafe(s: string): string {
    Strip(BlankControls(s))
  }

  /** A header value is accepted by an HTTP/1.1 client, and serialising it again changes nothing. */
  lemma {:induction false} WireSafeIsSafe(s: string)
    ensures forall c | c in WireSafe(s) :: !IsControl(c)
    ensures Stripped(WireSafe(s))
    ensures WireSafe(WireSafe(s)) == WireSafe(s)
  {
    StripStrips(BlankControls(s));
    forall i | 0 <= i < |WireSafe(s)| ensures !IsControl(WireSafe(s)[i]) {
      assert WireSafe(s)[i] in BlankControls(s);
    }
    assert BlankControls(WireSafe(s)) == WireSafe(s);
    StripNothing(WireSafe(s));
  }

  /** Its characters are those of the value, control characters as blanks, from the first to the last
      that is not white space. */
  lemma {:induction false} WireSafeKeeps(s: string) returns (lead: nat, trail: nat)
    ensures lead + |WireSafe(s)| + trail == |s|
    ensures forall i | 0 <= i < |WireSafe(s)| ::
      WireSafe(s)[i] == if s[lead + i] as int < 32 || s[lead + i] as int == 127 then ' ' else s[lead + i]
    ensures forall i | 0 <= i < lead :: IsControl(s[i]) || IsSpace(s[i])
    ensures forall i | |s| - trail <= i < |s| :: IsControl(s[i]) || IsSpace(s[i])
  {
    var blanked := BlankControls(s);
    lead := TrimStartDrops(blanked);
    trail := TrimEndDrops(TrimStart(blanked));
    forall i | 0 <= i < |WireSafe(s)| ensures WireSafe(s)[i] == blanked[lead + i] {
      assert TrimStart(blanked)[i] == blanked[lead + i];
    }
    forall i | 0 <= i < lead ensures IsControl(s[i]) || IsSpace(s[i]) {
      assert IsSpace(blanked[i]);
    }
    forall i | |s| - trail <= i < |s| ensures IsControl(s[i]) || IsSpace(s[i]) {
      assert TrimStart(blanked)[i - lead] == blanked[i];
    }
  }

  lemma {:induction false} TrimStartDrops(s: string) returns (lead: nat)
    ensures lead <= |s| && TrimStart(s) == s[lead..] && forall i | 0 <= i < lead :: IsSpace(s[i])
  {
    lead := 0;
    if s != "" && IsSpace(s[0]) {
      var rest := TrimStartDrops(s[1..]);
      lead := rest + 1;
      assert forall i | 1 <= i < lead :: s[i] == s[1..][i - 1];
    }
  }

  lemma {:induction false} TrimEndDrops(s: string) returns (trail: nat)
    ensures trail <= |s| && TrimEnd(s) == s[..|s| - trail] && forall i | |s| - trail <= i < |s| :: IsSpace(s[i])
  {
    trail := 0;
    if s != "" && IsSpace(s[|s| - 1]) {
      var rest := TrimEndDrops(s[..|s| - 1]);
      trail := rest + 1;
      assert forall i | |s| - trail <= i < |s| - 1 :: s[i] == s[..|s| - 1][i];
    }
  }

  // ---------- the points of an endpoint, keyed ----------

  function LocationName(location: Location): string {
    match location
    case InPath => "path"
    case InQuery => "query"
    case InHeader => "header"
    case InCookie => "cookie"
    case InBody => "body"
  }

  /** A point's key says where it is. */
  predicate WellKeyed(point: MutationPoint) {
    point.key == (if point.location.InBody? then "body:" + PathName(point.bodyPath)
                  else LocationName(point.location) + ":" + point.name)
  }

  /** `{point.key: point for point in points}`: a repeated key keeps its first position and its last point. */
  function Insert(dict: seq<MutationPoint>, point: MutationPoint): seq<MutationPoint> {
    if dict == [] then [point]
    else if dict[0].key == point.key then [point] + dict[1..]
    else [dict[0]] + Insert(dict[1..], point)
  }

  function Keyed(points: seq<MutationPoint>): seq<MutationPoint> {
    if points == [] then [] else Insert(Keyed(points[..|points| - 1]), points[|points| - 1])
  }

  ghost predicate DistinctKeys(points: seq<MutationPoint>) {
    forall i, j | 0 <= i < j < |points| :: points[i].key != points[j].key
  }

  ghost predicate IsDict(points: seq<MutationPoint>) {
    DistinctKeys(points) && forall i | 0 <= i < |points| :: WellKeyed(points[i])
  }

  lemma {:induction false} InsertKeepsDict(dict: seq<MutationPoint>, point: MutationPoint)
    requires DistinctKeys(dict)
    ensures DistinctKeys(Insert(dict, point))
    ensures forall p :: p in Insert(dict, point) <==> p == point || (p in dict && p.key != point.key)
  {
    if dict == [] {
    } else if dict[0].key == point.key {
      FirstApart(dict);
    } else {
      FirstApart(dict);
      InsertKeepsDict(dict[1..], point);
      PrependDistinct(dict[0], Insert(dict[1..], point));
    }
  }

  lemma {:induction false} FirstApart(dict: seq<MutationPoint>)
    requires DistinctKeys(dict) && dict != []
    ensures DistinctKeys(dict[1..]) && forall p :: p in dict <==> p == dict[0] || p in dict[1..]
    ensures forall p | p in dict[1..] :: p.key != dict[0].key
  {
    assert dict == [dict[0]] + dict[1..];
  }

  lemma {:induction false} PrependDistinct(first: MutationPoint, rest: seq<MutationPoint>)
    requires DistinctKeys(rest) && forall p | p in rest :: p.key != first.key
    ensures DistinctKeys([first] + rest)
  {
    forall i | 0 <= i < |rest| ensures rest[i].key != first.key {
      assert rest[i] in rest;
    }
  }

  /** A point after which no other has its key is in the dictionary. */
  ghost predicate HoldsLast(dict: seq<MutationPoint>, points: seq<MutationPoint>) {
    forall i | 0 <= i < |points| && (forall j | i < j < |points| :: points[j].key != points[i].key) :: points[i] in dict
  }

  lemma {:induction false} InsertHoldsLast(dict: seq<MutationPoint>, points: seq<MutationPoint>, last: MutationPoint)
    requires HoldsLast(dict, points) && DistinctKeys(dict)
    ensures HoldsLast(Insert(dict, last), points + [last])
  {
    var all := points + [last];
    InsertKeepsDict(dict, last);
    forall i | 0 <= i < |all| && (forall j | i < j < |all| :: all[j].key != all[i].key)
      ensures all[i] in Insert(dict, last)
    {
      if i < |points| {
        assert all[|points|].key != all[i].key;
        assert forall j | i < j < |points| :: all[j] == points[j];
        assert points[i] in dict;
      }
    }
  }

  /** The dictionary holds exactly one point per key: the last listed. */
  lemma {:induction false} KeyedHoldsLast(points: seq<MutationPoint>)
    ensures DistinctKeys(Keyed(points)) && HoldsLast(Keyed(points), points)
    ensures forall p | p in Keyed(points) :: p in points
    decreases |points|
  {
    if points != [] {
      var (init, last) := (points[..|points| - 1], points[|points| - 1]);
      KeyedHoldsLast(init);
      InsertKeepsDict(Keyed(init), last);
      InsertHoldsLast(Keyed(init), init, last);
      assert points == init + [last];
    }
  }

  predicate HasKey(points: seq<MutationPoint>, key: string) {
    exists m :: 0 <= m < |points| && points[m].key == key
  }

  /** Position `i` is the first with its key. */
  predicate FirstOfKey(points: seq<MutationPoint>, i: nat) {
    i < |points| && !HasKey(points[..i], points[i].key)
  }

  lemma {:induction false} HasKeyAppend(a: seq<MutationPoint>, b: seq<MutationPoint>, key: string)
    ensures HasKey(a + b, key) <==> HasKey(a, key) || HasKey(b, key)
  {
    if m :| 0 <= m < |a| && a[m].key == key {
      assert (a + b)[m].key == key;
    }
    if m :| 0 <= m < |b| && b[m].key == key {
      assert (a + b)[|a| + m].key == key;
    }
  }

  /** Inserting keeps the keys where they are; only a new key comes last. */
  lemma {:induction false} InsertKeys(dict: seq<MutationPoint>, point: MutationPoint)
    ensures if HasKey(dict, point.key)
            then |Insert(dict, point)| == |dict|
              && forall i | 0 <= i < |dict| :: Insert(dict, point)[i].key == dict[i].key
            else Insert(dict, point) == dict + [point]
  {
    if dict != [] {
      HasKeyAppend([dict[0]], dict[1..], point.key);
      assert dict == [dict[0]] + dict[1..];
      assert HasKey([dict[0]], point.key) <==> [dict[0]][0].key == point.key;
      if dict[0].key != point.key {
        InsertKeys(dict[1..], point);
      }
    }
  }

  lemma {:induction false} KeyedKeys(points: seq<MutationPoint>, key: string)
    ensures HasKey(Keyed(points), key) <==> HasKey(points, key)
  {
    if points != [] {
      var (init, last) := (points[..|points| - 1], points[|points| - 1]);
      var dict := Keyed(init);
      KeyedKeys(init, key);
      InsertKeys(dict, last);
      HasKeyAppend(init, [last], key);
      HasKeyAppend(dict, [last], key);
      assert points == init + [last];
      assert HasKey([last], key) <==> [last][0].key == key;
      if HasKey(dict, last.key) {
        SameKeys(dict, Keyed(points), key);
      }
    }
  }

  lemma {:induction false} SameKeys(a: seq<MutationPoint>, b: seq<MutationPoint>, key: string)
    requires |a| == |b| && forall i | 0 <= i < |a| :: b[i].key == a[i].key
    ensures HasKey(a, key) <==> HasKey(b, key)
  {
    if m :| 0 <= m < |a| && a[m].key == key {
      assert b[m].key == key;
    }
  }

  /** Each key of the dictionary, and the first place it occurs in the list. */
  lemma {:induction false} KeyedFirst(points: seq<MutationPoint>, i: nat) returns (a: nat)
    requires i < |Keyed(points)|
    ensures FirstOfKey(points, a) && points[a].key == Keyed(points)[i].key
    decreases |points|
  {
    var (init, last) := (points[..|points| - 1], points[|points| - 1]);
    InsertKeys(Keyed(init), last);
    KeyedKeys(init, last.key);
    if i < |Keyed(init)| {
      a := KeyedFirst(init, i);
      assert points[..a] == init[..a];
    } else {
      a := |init|;
    }
  }

  /** The keys of the dictionary come in the order in which they first occur. */
  lemma {:induction false} KeyedInOrder(points: seq<MutationPoint>, i: nat, j: nat) returns (a: nat, b: nat)
    requires i < j < |Keyed(points)|
    ensures a < b && FirstOfKey(points, a) && FirstOfKey(points, b)
    ensures points[a].key == Keyed(points)[i].key && points[b].key == Keyed(points)[j].key
    decreases |points|
  {
    var (init, last) := (points[..|points| - 1], points[|points| - 1]);
    InsertKeys(Keyed(init), last);
    KeyedKeys(init, last.key);
    if j < |Keyed(init)| {
      a, b := KeyedInOrder(init, i, j);
      assert points[..b] == init[..b];
    } else {
      a := KeyedFirst(init, i);
      b := |init|;
    }
    assert points[..a] == init[..a];
  }

  // ---------- the request ----------

  function ValueOf(point: MutationPoint, overrides: map<string, Json>): Json {
    if point.key in overrides then overrides[point.key] else point.baseline
  }

  /** How a point's text is written at its location. */
  function Serialize(location: Location, text: string): string {
    match location
    case InPath => PathTemplates.Quote(text)
    case InHeader => WireSafe(text)
    case _ => text
  }

  /** The name and serialised value of every point at `location`, in order. */
  function Pairs(points: seq<MutationPoint>, location: Location, overrides: map<string, Json>,
        env: Environment): seq<(string, string)>
  {
    if points == [] then []
    else
      var rest := Pairs(points[1..], location, overrides, env);
      if points[0].location == location
      then [(points[0].name, Serialize(location, env.text.str(ValueOf(points[0], overrides))))] + rest
      else rest
  }

  predicate IsJsonMedia(mediaType: string) {
    mediaType == "application/json" || (|mediaType| >= 5 && mediaType[|mediaType| - 5..] == "+json")
  }

  predicate IsFormMedia(mediaType: string) {
    mediaType == "application/x-www-form-urlencoded" || mediaType == "multipart/form-data"
  }

  /** The body as JSON content, if its media type says so. */
  function JsonSlot(mediaType: string, body: Json): Json {
    if mediaType != "" && IsJsonMedia(mediaType) then body else Null
  }

  /** The body as form data otherwise. */
  function DataSlot(mediaType: string, body: Json): Option<map<string, Json>> {
    if mediaType == "" || IsJsonMedia(mediaType) then None
    else if IsFormMedia(mediaType) then Some(if body.Obj? then body.fields else map["value" := body])
    else if body != Null then Some(map["value" := body])
    else None
  }

  function Attach(prepared: Prepared, mediaType: string, body: Json): Prepared {
    prepared.(jsonBody := JsonSlot(mediaType, body), dataBody := DataSlot(mediaType, body),
        mediaType := Some(mediaType))
  }

  /** The body takes part in the mutation: it has a media type and is present. */
  predicate HasBody(endpoint: Endpoint) {
    endpoint.body.BodyDefinition? && endpoint.body.mediaType != "" && endpoint.body.body != Null
  }

  /** Every body point names a leaf of the documented body. */
  ghost predicate PointsFit(endpoint: Endpoint, points: seq<MutationPoint>) {
    forall i | 0 <= i < |points| && points[i].location.InBody? ::
      HasBody(endpoint) && points[i].bodyPath in LeafPaths(endpoint.body.body)
  }

  /** The body edits the overrides ask for, limited to the override keys in `keys`. */
  ghost function BodyEdits(points: seq<MutationPoint>, overrides: map<string, Json>, keys: set<string>): map<Path, Json>
    requires IsDict(points) && keys <= overrides.Keys
  {
    map point | point in points && point.location.InBody? && point.key in keys :: point.bodyPath := overrides[point.key]
  }

  ghost function EditedBody(endpoint: Endpoint, points: seq<MutationPoint>, overrides: map<string, Json>): Json
    requires IsDict(points) && endpoint.body.BodyDefinition?
  {
    if HasBody(endpoint) then Edited(endpoint.body.body, BodyEdits(points, overrides, overrides.Keys), [])
    else endpoint.body.body
  }

  /** Everything but the body. */
  function Head(endpoint: Endpoint, points: seq<MutationPoint>, overrides: map<string, Json>,
        env: Environment): Prepared
  {
    var path := PathTemplates.ReplaceAll(endpoint.path, Pairs(points, InPath, overrides, env));
    Prepared(env.join(endpoint.baseUrl, path), Pairs(points, InQuery, overrides, env),
             PathTemplates.AsMap(Pairs(points, InHeader, overrides, env)),
             PathTemplates.AsMap(Pairs(points, InCookie, overrides, env)), Null, None, None)
  }

  ghost function Request(endpoint: Endpoint, points: seq<MutationPoint>, overrides: map<string, Json>,
        env: Environment): Prepared
    requires IsDict(points)
  {
    var head := Head(endpoint, points, overrides, env);
    if endpoint.body.BodyDefinition?
    then Attach(head, endpoint.body.mediaType, EditedBody(endpoint, points, overrides))
    else head
  }

  lemma {:induction false} ReplaceOneMore(path: string, values: seq<(string, string)>, last: (string, string))
    ensures PathTemplates.ReplaceAll(path, values + [last])
         == Replace(PathTemplates.ReplaceAll(path, values), PathTemplates.Placeholder(last.0), last.1)
    decreases |values|
  {
    if values != [] {
      assert (values + [last])[1..] == values[1..] + [last];
      ReplaceOneMore(Replace(path, PathTemplates.Placeholder(values[0].0), values[0].1), values[1..], last);
    }
  }

  function PointAt(points: seq<MutationPoint>, key: string): Option<MutationPoint> {
    if points == [] then None
    else if points[0].key == key then Some(points[0])
    else PointAt(points[1..], key)
  }

  lemma {:induction false} PointAtFinds(points: seq<MutationPoint>, key: string)
    ensures match PointAt(points, key)
            case Some(point) => point in points && point.key == key
            case None => forall point | point in points :: point.key != key
  {
    if points != [] && points[0].key != key {
      PointAtFinds(points[1..], key);
    }
  }

  lemma {:induction false} PairsAppend(points: seq<MutationPoint>, more: seq<MutationPoint>, location: Location,
        overrides: map<string, Json>, env: Environment)
    ensures Pairs(points + more, location, overrides, env)
         == Pairs(points, location, overrides, env) + Pairs(more, location, overrides, env)
    decreases |points|
  {
    if points == [] {
      assert points + more == more;
    } else {
      assert (points + more)[1..] == points[1..] + more;
      PairsAppend(points[1..], more, location, overrides, env);
    }
  }

  lemma {:induction false} OneMorePoint(points: seq<MutationPoint>, i: nat, location: Location,
        overrides: map<string, Json>, env: Environment)
    requires i < |points|
    ensures Pairs(points[..i + 1], location, overrides, env)
         == (if points[i].location == location
             then Pairs(points[..i], location, overrides, env)
                  + [(points[i].name, Serialize(location, env.text.str(ValueOf(points[i], overrides))))]
             else Pairs(points[..i], location, overrides, env))
  {
    assert points[..i + 1] == points[..i] + [points[i]];
    PairsAppend(points[..i], [points[i]], location, overrides, env);
  }

  /** Path, query, headers and cookies hold the serialised points. */
  predicate Serialized(path: string, params: seq<(string, string)>, headers: map<string, string>,
        cookies: map<string, string>, template: string, points: seq<MutationPoint>, overrides: map<string, Json>,
        env: Environment)
  {
    && path == PathTemplates.ReplaceAll(template, Pairs(points, InPath, overrides, env))
    && params == Pairs(points, InQuery, overrides, env)
    && headers == PathTemplates.AsMap(Pairs(points, InHeader, overrides, env))
    && cookies == PathTemplates.AsMap(Pairs(points, InCookie, overrides, env))
  }

  method SerializePoints(template: string, points: seq<MutationPoint>, overrides: map<string, Json>, env: Environment)
    returns (path: string, params: seq<(string, string)>, headers: map<string, string>, cookies: map<string, string>)
    ensures Serialized(path, params, headers, cookies, template, points, overrides, env)
  {
    path, params, headers, cookies := template, [], map[], map[];
    for i := 0 to |points|
      invariant Serialized(path, params, headers, cookies, template, points[..i], overrides, env)
    {
      path, params, headers, cookies := WritePoint(path, params, headers, cookies, template, points, i, overrides, env);
    }
    assert points[..|points|] == points;
  }

  /** Adds the i-th point to the part of the request it belongs to. */
  method WritePoint(path: string, params: seq<(string, string)>, headers: map<string, string>,
        cookies: map<string, string>, ghost template: string, points: seq<MutationPoint>, i: nat,
        overrides: map<string, Json>, env: Environment)
    returns (newPath: string, newParams: seq<(string, string)>, newHeaders: map<string, string>,
        newCookies: map<string, string>)
    requires i < |points| && Serialized(path, params, headers, cookies, template, points[..i], overrides, env)
    ensures Serialized(newPath, newParams, newHeaders, newCookies, template, points[..i + 1], overrides, env)
  {
    newPath, newParams, newHeaders, newCookies := path, params, headers, cookies;
    var name := points[i].name;
    var serialized := env.text.str(ValueOf(points[i], overrides));
    match points[i].location {
      case InPath => newPath := Replace(path, PathTemplates.Placeholder(name), PathTemplates.Quote(serialized));
      case InQuery => newParams := params + [(name, serialized)];
      case InHeader => newHeaders := headers[name := WireSafe(serialized)];
      case InCookie => newCookies := cookies[name := serialized];
      case InBody =>
    }
    PathNext(path, template, points, i, overrides, env);
    OneMorePoint(points, i, InQuery, overrides, env);
    MapNext(headers, points, i, InHeader, overrides, env);
    MapNext(cookies, points, i, InCookie, overrides, env);
  }

  lemma {:induction false} PathNext(path: string, template: string, points: seq<MutationPoint>, i: nat,
        overrides: map<string, Json>, env: Environment)
    requires i < |points| && path == PathTemplates.ReplaceAll(template, Pairs(points[..i], InPath, overrides, env))
    ensures (if points[i].location.InPath?
             then Replace(path, PathTemplates.Placeholder(points[i].name),
                 PathTemplates.Quote(env.text.str(ValueOf(points[i], overrides))))
             else path)
         == PathTemplates.ReplaceAll(template, Pairs(points[..i + 1], InPath, overrides, env))
  {
    OneMorePoint(points, i, InPath, overrides, env);
    ReplaceOneMore(template, Pairs(points[..i], InPath, overrides, env),
                   (points[i].name, PathTemplates.Quote(env.text.str(ValueOf(points[i], overrides)))));
  }

  lemma {:induction false} MapNext(values: map<string, string>, points: seq<MutationPoint>, i: nat, location: Location,
        overrides: map<string, Json>, env: Environment)
    requires i < |points| && values == PathTemplates.AsMap(Pairs(points[..i], location, overrides, env))
    ensures (if points[i].location == location
             then values[points[i].name := Serialize(location, env.text.str(ValueOf(points[i], overrides)))]
                 else values)
         == PathTemplates.AsMap(Pairs(points[..i + 1], location, overrides, env))
  {
    OneMorePoint(points, i, location, overrides, env);
    AsMapOneMore(Pairs(points[..i], location, overrides, env),
                 (points[i].name, Serialize(location, env.text.str(ValueOf(points[i], overrides)))));
  }

  lemma {:induction false} AsMapOneMore(values: seq<(string, string)>, last: (string, string))
    ensures PathTemplates.AsMap(values + [last]) == PathTemplates.AsMap(values)[last.0 := last.1]
  {
    assert (values + [last])[..|values|] == values;
  }

  /** Builds the request as the scanner does: one pass over the points, then one write into the
      body per override, in whatever order the overrides come. */
  method BuildPreparedRequest(endpoint: Endpoint, points: seq<MutationPoint>, overrides: map<string, Json>,
        env: Environment)
    returns (prepared: Prepared)
    requires IsDict(points) && PointsFit(endpoint, points)
    ensures prepared == Request(endpoint, points, overrides, env)
  {
    var path, params, headers, cookies := SerializePoints(endpoint.path, points, overrides, env);
    prepared := Prepared(env.join(endpoint.baseUrl, path), params, headers, cookies, Null, None, None);
    if endpoint.body.BodyDefinition? {
      var body := endpoint.body.body;
      if HasBody(endpoint) {
        body := ApplyOverrides(endpoint, points, overrides);
      }
      prepared := Attach(prepared, endpoint.body.mediaType, body);
    }
  }

  method ApplyOverrides(endpoint: Endpoint, points: seq<MutationPoint>, overrides: map<string, Json>)
    returns (body: Json)
    requires IsDict(points) && PointsFit(endpoint, points) && HasBody(endpoint)
    ensures body == EditedBody(endpoint, points, overrides)
  {
    body := endpoint.body.body;
    var remaining := overrides.Keys;
    assert BodyEdits(points, overrides, {}) == map[];
    EditedNowhere(body, map[], []);
    while remaining != {}
      invariant remaining <= overrides.Keys
      invariant body == Edited(endpoint.body.body, BodyEdits(points, overrides, overrides.Keys - remaining), [])
      decreases remaining
    {
      var key :| key in remaining;
      ghost var done := overrides.Keys - remaining;
      PointAtFinds(points, key);
      var found := PointAt(points, key);
      if found.Some? && found.value.location.InBody? {
        OneMoreEdit(endpoint, points, overrides, done, found.value);
        body := Put(body, found.value.bodyPath, overrides[key]);
      } else {
        OneMoreKey(points, overrides, done, key);
      }
      remaining := remaining - {key};
      assert done + {key} == overrides.Keys - remaining;
    }
    assert overrides.Keys - {} == overrides.Keys;
  }

  lemma {:induction false} OneMoreKey(points: seq<MutationPoint>, overrides: map<string, Json>, done: set<string>,
        key: string)
    requires IsDict(points) && done + {key} <= overrides.Keys
    requires forall point | point in points && point.key == key :: !point.location.InBody?
    ensures BodyEdits(points, overrides, done + {key}) == BodyEdits(points, overrides, done)
  {
  }

  lemma {:induction false} EditsApart(endpoint: Endpoint, points: seq<MutationPoint>, overrides: map<string, Json>,
        done: set<string>, point: MutationPoint)
    requires IsDict(points) && PointsFit(endpoint, points) && HasBody(endpoint)
    requires point in points && point.location.InBody? && point.key !in done && done <= overrides.Keys
    ensures point.bodyPath in LeafPaths(endpoint.body.body)
    ensures forall edit | edit in BodyEdits(points, overrides, done) :: Apart(edit, point.bodyPath)
  {
    forall edit | edit in BodyEdits(points, overrides, done) ensures Apart(edit, point.bodyPath) {
      var other :| other in points && other.location.InBody? && other.key in done && other.bodyPath == edit;
      LeavesApart(endpoint.body.body, edit, point.bodyPath);
    }
  }

  lemma {:induction false} EditsOneMore(points: seq<MutationPoint>, overrides: map<string, Json>, done: set<string>,
        point: MutationPoint)
    requires IsDict(points) && point in points && point.location.InBody? && done + {point.key} <= overrides.Keys
    ensures BodyEdits(points, overrides, done + {point.key})
         == BodyEdits(points, overrides, done)[point.bodyPath := overrides[point.key]]
  {
    SamePoint(points, point);
  }

  lemma {:induction false} OneMoreEdit(endpoint: Endpoint, points: seq<MutationPoint>, overrides: map<string, Json>,
        done: set<string>, point: MutationPoint)
    requires IsDict(points) && PointsFit(endpoint, points) && HasBody(endpoint)
    requires point in points && point.location.InBody? && point.key !in done && done + {point.key} <= overrides.Keys
    ensures Has(Edited(endpoint.body.body, BodyEdits(points, overrides, done), []), point.bodyPath)
    ensures Put(Edited(endpoint.body.body, BodyEdits(points, overrides, done), []), point.bodyPath,
      overrides[point.key])
         == Edited(endpoint.body.body, BodyEdits(points, overrides, done + {point.key}), [])
  {
    EditsApart(endpoint, points, overrides, done, point);
    EditsOneMore(points, overrides, done, point);
    LeafEdit(endpoint.body.body, BodyEdits(points, overrides, done), point.bodyPath, overrides[point.key]);
  }

  lemma {:induction false} LeafEdit(body: Json, edits: map<Path, Json>, path: Path, replacement: Json)
    requires path in LeafPaths(body) && forall edit | edit in edits :: Apart(edit, path)
    ensures Has(Edited(body, edits, []), path)
    ensures Put(Edited(body, edits, []), path, replacement) == Edited(body, edits[path := replacement], [])
  {
    LeafIsScalar(body, path);
    assert [] + path == path;
    PutIsEdit(body, edits, [], path, replacement);
  }

  lemma {:induction false} SamePoint(points: seq<MutationPoint>, point: MutationPoint)
    requires IsDict(points) && point in points
    ensures forall other | other in points && other.key == point.key :: other == point
  {
  }

  // ---------- single-point isolation ----------

  lemma {:induction false} PairsFrame(points: seq<MutationPoint>, location: Location, overrides: map<string, Json>,
        others: map<string, Json>, env: Environment)
    requires forall p | p in points && p.location == location :: ValueOf(p, overrides) == ValueOf(p, others)
    ensures Pairs(points, location, overrides, env) == Pairs(points, location, others, env)
  {
    if points != [] {
      PairsFrame(points[1..], location, overrides, others, env);
    }
  }

  /** Distinct keys at one location are distinct names. */
  lemma {:induction false} PairsHaveDistinctNames(points: seq<MutationPoint>, location: Location,
        overrides: map<string, Json>, env: Environment)
    requires IsDict(points) && !location.InBody?
    ensures PathTemplates.DistinctNames(Pairs(points, location, overrides, env))
    ensures forall pair | pair in Pairs(points, location, overrides, env) ::
              exists p :: p in points && p.location == location && p.name == pair.0
                          && pair.1 == Serialize(location, env.text.str(ValueOf(p, overrides)))
  {
    if points != [] {
      PairsHaveDistinctNames(points[1..], location, overrides, env);
      var rest := Pairs(points[1..], location, overrides, env);
      if points[0].location == location {
        forall i | 0 <= i < |rest| ensures rest[i].0 != points[0].name {
          assert rest[i] in rest;
          var p :| p in points[1..] && p.location == location && p.name == rest[i].0;
        }
      }
      assert forall p | p in points[1..] :: p in points;
    }
  }

  /** The two lists differ in the text of one pair only. */
  predicate ChangedAt(before: seq<(string, string)>, after: seq<(string, string)>, at: nat, name: string, text: string)
  {
    at < |before| && before[at].0 == name && after == before[at := (name, text)]
  }

  /** An override at one point changes exactly that point's pair. */
  lemma {:induction false} PairsChangeOne(points: seq<MutationPoint>, point: MutationPoint, payload: Json,
        env: Environment)
    returns (at: nat)
    requires DistinctKeys(points) && point in points
    ensures ChangedAt(Pairs(points, point.location, map[], env),
      Pairs(points, point.location, map[point.key := payload], env),
                      at, point.name, Serialize(point.location, env.text.str(payload)))
  {
    var i :| 0 <= i < |points| && points[i] == point;
    var (left, right) := (points[..i], points[i + 1..]);
    OthersDiffer(points, i);
    assert points == left + ([point] + right);
    at := PairsChangeBetween(left, point, right, payload, env);
  }

  lemma {:induction false} OthersDiffer(points: seq<MutationPoint>, i: nat)
    requires DistinctKeys(points) && i < |points|
    ensures forall p | p in points[..i] :: p.key != points[i].key
    ensures forall p | p in points[i + 1..] :: p.key != points[i].key
  {
  }

  lemma {:induction false} PairsChangeBetween(left: seq<MutationPoint>, point: MutationPoint, right: seq<MutationPoint>,
        payload: Json, env: Environment)
    returns (at: nat)
    requires (forall p | p in left :: p.key != point.key) && forall p | p in right :: p.key != point.key
    ensures var points := left + ([point] + right);
            ChangedAt(Pairs(points, point.location, map[], env),
                Pairs(points, point.location, map[point.key := payload], env),
                      at, point.name, Serialize(point.location, env.text.str(payload)))
  {
    var (l, r) := (Pairs(left, point.location, map[], env), Pairs(right, point.location, map[], env));
    at := |l|;
    PairsSplit(left, point, right, map[], env);
    PairsSplit(left, point, right, map[point.key := payload], env);
    PairsUntouched(left, point, payload, env);
    PairsUntouched(right, point, payload, env);
    ReplaceMiddle(l, r, (point.name, Serialize(point.location, env.text.str(point.baseline))),
                  (point.name, Serialize(point.location, env.text.str(payload))));
  }

  lemma {:induction false} PairsUntouched(points: seq<MutationPoint>, point: MutationPoint, payload: Json,
        env: Environment)
    requires forall p | p in points :: p.key != point.key
    ensures Pairs(points, point.location, map[point.key := payload], env) == Pairs(points, point.location, map[], env)
  {
    PairsFrame(points, point.location, map[point.key := payload], map[], env);
  }

  lemma {:induction false} ReplaceMiddle(left: seq<(string, string)>, right: seq<(string, string)>,
        old_: (string, string), new_: (string, string))
    ensures (left + ([old_] + right))[|left| := new_] == left + ([new_] + right)
  {
  }

  lemma {:induction false} PairsSplit(left: seq<MutationPoint>, point: MutationPoint, right: seq<MutationPoint>,
        overrides: map<string, Json>, env: Environment)
    ensures var location := point.location;
            Pairs(left + ([point] + right), location, overrides, env)
            == Pairs(left, location, overrides, env)
               + ([(point.name, Serialize(location, env.text.str(ValueOf(point, overrides))))]
                   + Pairs(right, location, overrides, env))
  {
    PairsAppend(left, [point] + right, point.location, overrides, env);
    assert ([point] + right)[1..] == right;
  }

  lemma {:induction false} PairsElsewhere(points: seq<MutationPoint>, point: MutationPoint, payload: Json,
        location: Location, env: Environment)
    requires IsDict(points) && point in points && point.location != location
    ensures Pairs(points, location, map[point.key := payload], env) == Pairs(points, location, map[], env)
  {
    PairsFrame(points, location, map[], map[point.key := payload], env);
  }

  lemma {:induction false} AsMapUpdate(values: seq<(string, string)>, at: nat, new_: string)
    requires at < |values| && PathTemplates.DistinctNames(values)
    ensures PathTemplates.AsMap(values[at := (values[at].0, new_)]) == PathTemplates.AsMap(values)[values[at].0 := new_]
    decreases |values|
  {
    var init := values[..|values| - 1];
    var updated := values[at := (values[at].0, new_)];
    if at < |init| {
      AsMapUpdate(init, at, new_);
      assert updated[..|values| - 1] == init[at := (init[at].0, new_)];
      assert values[|values| - 1].0 != values[at].0;
    } else {
      assert updated[..|values| - 1] == init;
    }
  }

  lemma {:induction false} BodyEditsOfOne(points: seq<MutationPoint>, point: MutationPoint, payload: Json)
    requires IsDict(points) && point in points
    ensures BodyEdits(points, map[point.key := payload], {point.key})
         == if point.location.InBody? then map[point.bodyPath := payload] else map[]
    ensures BodyEdits(points, map[], {}) == map[]
  {
    SamePoint(points, point);
  }

  /** A single override leaves the body alone, or writes the payload at one leaf of it. */
  lemma {:induction false} BodyChangesOne(endpoint: Endpoint, points: seq<MutationPoint>, point: MutationPoint,
        payload: Json)
    requires IsDict(points) && PointsFit(endpoint, points) && point in points && endpoint.body.BodyDefinition?
    ensures EditedBody(endpoint, points, map[]) == endpoint.body.body
    ensures point.location.InBody? ==>
              && Has(endpoint.body.body, point.bodyPath)
              && EditedBody(endpoint, points, map[point.key := payload])
                 == Put(endpoint.body.body, point.bodyPath, payload)
    ensures !point.location.InBody? ==> EditedBody(endpoint, points, map[point.key := payload]) == endpoint.body.body
  {
    BodyEditsOfOne(points, point, payload);
    assert map[point.key := payload].Keys == {point.key};
    var none: map<string, Json> := map[];
    assert none.Keys == {};
    EditedNowhere(endpoint.body.body, map[], []);
    if point.location.InBody? {
      LeafIsScalar(endpoint.body.body, point.bodyPath);
      PutIsEdit(endpoint.body.body, map[], [], point.bodyPath, payload);
      assert [] + point.bodyPath == point.bodyPath;
      assert map[][point.bodyPath := payload] == map[point.bodyPath := payload];
    }
  }

  /** The placeholder values of the path: of each path point, the quoted text of its baseline or override. */
  ghost predicate FillablePath(endpoint: Endpoint, points: seq<MutationPoint>, template: seq<PathTemplates.Segment>) {
    && endpoint.path == PathTemplates.Render(template) && PathTemplates.WellFormed(template)
    && forall p | p in points && p.location.InPath? :: PathTemplates.BraceFree(p.name)
  }

  function FilledUrl(endpoint: Endpoint, template: seq<PathTemplates.Segment>, values: map<string, string>,
        env: Environment): string
  {
    env.join(endpoint.baseUrl, PathTemplates.Render(PathTemplates.Fill(template, values)))
  }

  lemma {:induction false} PathPairsFill(endpoint: Endpoint, points: seq<MutationPoint>,
        template: seq<PathTemplates.Segment>, overrides: map<string, Json>, env: Environment)
    requires IsDict(points) && FillablePath(endpoint, points, template)
    ensures Head(endpoint, points, overrides, env).url
         == FilledUrl(endpoint, template, PathTemplates.AsMap(Pairs(points, InPath, overrides, env)), env)
  {
    PairsHaveDistinctNames(points, InPath, overrides, env);
    PathPairsBraceFree(endpoint, points, template, overrides, env);
    PathTemplates.ReplaceAllFills(template, Pairs(points, InPath, overrides, env));
  }

  lemma {:induction false} PathPairsBraceFree(endpoint: Endpoint, points: seq<MutationPoint>,
        template: seq<PathTemplates.Segment>, overrides: map<string, Json>, env: Environment)
    requires IsDict(points) && FillablePath(endpoint, points, template)
    ensures PathTemplates.BraceFreePairs(Pairs(points, InPath, overrides, env))
  {
    var pairs := Pairs(points, InPath, overrides, env);
    PairsHaveDistinctNames(points, InPath, overrides, env);
    forall i | 0 <= i < |pairs| ensures PathTemplates.BraceFree(pairs[i].0) && PathTemplates.BraceFree(pairs[i].1) {
      assert pairs[i] in pairs;
      var p :| p in points && p.location == InPath && p.name == pairs[i].0
               && pairs[i].1 == Serialize(InPath, env.text.str(ValueOf(p, overrides)));
      PathTemplates.QuotedIsSafe(PathTemplates.Encode(env.text.str(ValueOf(p, overrides))));
    }
  }

  /** The request without overrides, with its one place named by `point` changed to `payload`. */
  ghost predicate DiffersOnlyAt(before: Prepared, after: Prepared, endpoint: Endpoint, points: seq<MutationPoint>,
        point: MutationPoint, payload: Json, template: seq<PathTemplates.Segment>, env: Environment)
  {
    var text := env.text.str(payload);
    match point.location
    case InPath =>
      exists values: map<string, string> ::
        && point.name in values
        && before.url == FilledUrl(endpoint, template, values, env)
        && after == before.(url := FilledUrl(endpoint, template, values[point.name := PathTemplates.Quote(text)], env))
    case InQuery =>
      exists i :: 0 <= i < |before.params| && before.params[i].0 == point.name
        && after == before.(params := before.params[i := (point.name, text)])
    case InHeader => point.name in before.headers
      && after == before.(headers := before.headers[point.name := WireSafe(text)])
    case InCookie => point.name in before.cookies && after == before.(cookies := before.cookies[point.name := text])
    case InBody =>
      && HasBody(endpoint) && Has(endpoint.body.body, point.bodyPath)
      && before == Attach(before, endpoint.body.mediaType, endpoint.body.body)
      && after == Attach(before, endpoint.body.mediaType, Put(endpoint.body.body, point.bodyPath, payload))
  }

  /** Overriding one point changes that one placeholder, query entry, header, cookie or body
      leaf of the request, and nothing else. */
  lemma {:induction false} SinglePointIsolation(endpoint: Endpoint, points: seq<MutationPoint>, point: MutationPoint,
        payload: Json, template: seq<PathTemplates.Segment>, env: Environment)
    requires IsDict(points) && PointsFit(endpoint, points) && point in points
    requires point.location.InPath? ==> FillablePath(endpoint, points, template)
    ensures DiffersOnlyAt(Request(endpoint, points, map[], env),
      Request(endpoint, points, map[point.key := payload], env),
                          endpoint, points, point, payload, template, env)
  {
    RequestKeepsHead(endpoint, points, env);
    if point.location.InBody? {
      IsolatedBody(endpoint, points, point, payload, env);
    } else {
      IsolatedHead(endpoint, points, point, payload, env);
      HeadElsewhere(endpoint, points, point, payload, env);
      HeadChangesOne(endpoint, points, point, payload, template, env);
    }
  }

  /** The head changes in the point's own part only, and there at the point's name only. */
  lemma {:induction false} HeadChangesOne(endpoint: Endpoint, points: seq<MutationPoint>, point: MutationPoint,
        payload: Json, template: seq<PathTemplates.Segment>, env: Environment)
    requires IsDict(points) && point in points && !point.location.InBody?
    requires point.location.InPath? ==> FillablePath(endpoint, points, template)
    ensures var before := Head(endpoint, points, map[], env);
            var after := Head(endpoint, points, map[point.key := payload], env);
            DiffersOnlyAt(before, after, endpoint, points, point, payload, template, env)
  {
    HeadElsewhere(endpoint, points, point, payload, env);
    match point.location
    case InPath => IsolatedPath(endpoint, points, point, payload, template, env);
    case InQuery => var at := PairsChangeOne(points, point, payload, env);
    case InHeader => IsolatedName(points, point, payload, env);
    case InCookie => IsolatedName(points, point, payload, env);
  }

  /** Outside the body the request is its head; the body stays as it was. */
  lemma {:induction false} IsolatedHead(endpoint: Endpoint, points: seq<MutationPoint>, point: MutationPoint,
        payload: Json, env: Environment)
    requires IsDict(points) && PointsFit(endpoint, points) && point in points && !point.location.InBody?
    ensures var before := Request(endpoint, points, map[], env);
            var head := Head(endpoint, points, map[point.key := payload], env);
            && Request(endpoint, points, map[point.key := payload], env)
               == before.(url := head.url, params := head.params, headers := head.headers, cookies := head.cookies)
  {
    if endpoint.body.BodyDefinition? {
      BodyChangesOne(endpoint, points, point, payload);
    }
  }

  lemma {:induction false} RequestKeepsHead(endpoint: Endpoint, points: seq<MutationPoint>, env: Environment)
    requires IsDict(points)
    ensures var before := Request(endpoint, points, map[], env);
            var head := Head(endpoint, points, map[], env);
            before == before.(url := head.url, params := head.params, headers := head.headers, cookies := head.cookies)
  {
  }

  lemma {:induction false} HeadElsewhere(endpoint: Endpoint, points: seq<MutationPoint>, point: MutationPoint,
        payload: Json, env: Environment)
    requires IsDict(points) && point in points
    ensures var before := Head(endpoint, points, map[], env);
            var after := Head(endpoint, points, map[point.key := payload], env);
            && (!point.location.InPath? ==> after.url == before.url)
            && (!point.location.InQuery? ==> after.params == before.params)
            && (!point.location.InHeader? ==> after.headers == before.headers)
            && (!point.location.InCookie? ==> after.cookies == before.cookies)
  {
    forall location | location != point.location
      ensures Pairs(points, location, map[point.key := payload], env) == Pairs(points, location, map[], env)
    {
      PairsElsewhere(points, point, payload, location, env);
    }
  }

  lemma {:induction false} IsolatedBody(endpoint: Endpoint, points: seq<MutationPoint>, point: MutationPoint,
        payload: Json, env: Environment)
    requires IsDict(points) && PointsFit(endpoint, points) && point in points && point.location.InBody?
    ensures HasBody(endpoint) && Has(endpoint.body.body, point.bodyPath)
    ensures var head := Head(endpoint, points, map[], env);
            && Request(endpoint, points, map[], env) == Attach(head, endpoint.body.mediaType, endpoint.body.body)
            && Request(endpoint, points, map[point.key := payload], env)
               == Attach(head, endpoint.body.mediaType, Put(endpoint.body.body, point.bodyPath, payload))
  {
    HeadElsewhere(endpoint, points, point, payload, env);
    BodyChangesOne(endpoint, points, point, payload);
  }

  lemma {:induction false} IsolatedName(points: seq<MutationPoint>, point: MutationPoint, payload: Json,
        env: Environment)
    requires IsDict(points) && point in points && !point.location.InBody?
    ensures var before := PathTemplates.AsMap(Pairs(points, point.location, map[], env));
            && point.name in before
            && PathTemplates.AsMap(Pairs(points, point.location, map[point.key := payload], env))
               == before[point.name := Serialize(point.location, env.text.str(payload))]
  {
    var at := PairsChangeOne(points, point, payload, env);
    PairsHaveDistinctNames(points, point.location, map[], env);
    AsMapUpdate(Pairs(points, point.location, map[], env), at, Serialize(point.location, env.text.str(payload)));
    PathTemplates.AsMapNames(Pairs(points, point.location, map[], env));
  }

  lemma {:induction false} IsolatedPath(endpoint: Endpoint, points: seq<MutationPoint>, point: MutationPoint,
        payload: Json, template: seq<PathTemplates.Segment>, env: Environment)
    requires IsDict(points) && point in points && point.location.InPath?
    requires FillablePath(endpoint, points, template)
    ensures exists values: map<string, string> ::
              && point.name in values
              && Head(endpoint, points, map[], env).url == FilledUrl(endpoint, template, values, env)
              && Head(endpoint, points, map[point.key := payload], env).url
                 == FilledUrl(endpoint, template, values[point.name := PathTemplates.Quote(env.text.str(payload))], env)
  {
    IsolatedName(points, point, payload, env);
    PathPairsFill(endpoint, points, template, map[], env);
    PathPairsFill(endpoint, points, template, map[point.key := payload], env);
    var values := PathTemplates.AsMap(Pairs(points, InPath, map[], env));
    assert point.name in values;
  }

  /** An override whose key names no point changes nothing. */
  lemma {:induction false} UnknownKeyIgnored(endpoint: Endpoint, points: seq<MutationPoint>, key: string, payload: Json,
        env: Environment)
    requires IsDict(points) && PointsFit(endpoint, points) && forall p | p in points :: p.key != key
    ensures Request(endpoint, points, map[key := payload], env) == Request(endpoint, points, map[], env)
  {
    forall location ensures Pairs(points, location, map[key := payload], env) == Pairs(points, location, map[], env) {
      PairsFrame(points, location, map[key := payload], map[], env);
    }
    if endpoint.body.BodyDefinition? {
      var none: map<string, Json> := map[];
      assert BodyEdits(points, map[key := payload], map[key := payload].Keys) == map[];
      assert BodyEdits(points, none, none.Keys) == map[];
    }
  }

  // ---------- where the points come from ----------

  function ParameterPoint(parameter: Parameter, text: Text): Option<MutationPoint> {
    match LocationOf(parameter.location)
    case None => None
    case Some(location) =>
      if parameter.name == "" then None
      else if location.InHeader? && text.lower(parameter.name) in UNSAFE_HEADER_NAMES then None
      else if !Scalar(parameter.sample) then None
      else Some(MutationPoint(LocationName(location) + ":" + parameter.name, parameter.name, location, parameter.sample,
                              SchemaType(parameter.schema, text), []))
  }

  function ParameterPoints(parameters: seq<Parameter>, text: Text): seq<MutationPoint> {
    if parameters == [] then []
    else
      ParameterPoints(parameters[..|parameters| - 1], text)
      + (match ParameterPoint(parameters[|parameters| - 1], text)
         case Some(point) => [point]
         case None => [])
  }

  /** A parameter is a mutation point exactly if it is in one of the four places, has a name, is no
      header that the client sets itself, and has a scalar sample; the point then is keyed by its place
      and name, starts from the sample, and has the type its schema gives. */
  lemma {:induction false} ParameterPointExactly(parameter: Parameter, text: Text)
    ensures ParameterPoint(parameter, text).Some? <==>
      && parameter.location in {"path", "query", "header", "cookie"} && parameter.name != ""
      && (parameter.location == "header" ==>
            text.lower(parameter.name)
            !in {"authorization", "cookie", "host", "content-length", "transfer-encoding"})
      && !parameter.sample.Obj? && !parameter.sample.Arr?
    ensures ParameterPoint(parameter, text).Some? ==>
      var point := ParameterPoint(parameter, text).value;
      && point.key == parameter.location + ":" + parameter.name && point.name == parameter.name
      && point.baseline == parameter.sample && point.bodyPath == []
      && point.schemaType == SchemaType(parameter.schema, text)
      && (match point.location
          case InPath => parameter.location == "path"
          case InQuery => parameter.location == "query"
          case InHeader => parameter.location == "header"
          case InCookie => parameter.location == "cookie"
          case InBody => false)
  {
  }

  /** Each parameter gives its point, in order. */
  lemma {:induction false} ParameterPointsAppend(parameters: seq<Parameter>, last: Parameter, text: Text)
    ensures ParameterPoints([], text) == []
    ensures ParameterPoints(parameters + [last], text)
         == ParameterPoints(parameters, text)
            + (if ParameterPoint(last, text).Some? then [ParameterPoint(last, text).value] else [])
  {
    assert (parameters + [last])[..|parameters|] == parameters;
  }

  lemma {:induction false} ParameterPointsKeyed(parameters: seq<Parameter>, text: Text)
    ensures forall point | point in ParameterPoints(parameters, text) ::
              WellKeyed(point) && !point.location.InBody? && Scalar(point.baseline)
              && (point.location.InHeader? ==> text.lower(point.name) !in UNSAFE_HEADER_NAMES)
  {
    if parameters != [] {
      ParameterPointsKeyed(parameters[..|parameters| - 1], text);
    }
  }

  /** The documented parameters in order, then every leaf of the body once. */
  method EligiblePoints(endpoint: Endpoint, text: Text) returns (points: seq<MutationPoint>, leaves: seq<MutationPoint>)
    ensures points == ParameterPoints(endpoint.parameters, text) + leaves
    ensures if endpoint.body.BodyDefinition? && endpoint.body.mediaType != "" && endpoint.body.body != Null
            then ListsLeaves(leaves, endpoint.body.body, endpoint.body.schema, text, []) else leaves == []
    ensures forall i | 0 <= i < |points| :: WellKeyed(points[i])
    ensures PointsFit(endpoint, points)
  {
    points, leaves := [], [];
    for i := 0 to |endpoint.parameters|
      invariant points == ParameterPoints(endpoint.parameters[..i], text)
    {
      assert endpoint.parameters[..i + 1][..i] == endpoint.parameters[..i];
      match ParameterPoint(endpoint.parameters[i], text) {
        case Some(point) => points := points + [point];
        case None =>
      }
    }
    assert endpoint.parameters[..|endpoint.parameters|] == endpoint.parameters;
    ParameterPointsKeyed(endpoint.parameters, text);
    if HasBody(endpoint) {
      leaves := BodyPoints(endpoint.body.body, endpoint.body.schema, text, []);
      forall i | 0 <= i < |leaves|
        ensures leaves[i].location.InBody? && WellKeyed(leaves[i])
          && leaves[i].bodyPath in LeafPaths(endpoint.body.body)
      {
        assert leaves[i].bodyPath[0..] == leaves[i].bodyPath;
        assert [] + leaves[i].bodyPath == leaves[i].bodyPath;
      }
    }
    points := points + leaves;
  }

  lemma {:induction false} WellKeyedWithin(points: seq<MutationPoint>, some: seq<MutationPoint>)
    requires (forall i | 0 <= i < |points| :: WellKeyed(points[i])) && forall p | p in some :: p in points
    ensures forall i | 0 <= i < |some| :: WellKeyed(some[i])
  {
    forall i | 0 <= i < |some| ensures WellKeyed(some[i]) {
      assert some[i] in points;
    }
  }

  lemma {:induction false} FitWithin(endpoint: Endpoint, points: seq<MutationPoint>, some: seq<MutationPoint>)
    requires PointsFit(endpoint, points) && forall p | p in some :: p in points
    ensures PointsFit(endpoint, some)
  {
    forall i | 0 <= i < |some| && some[i].location.InBody?
      ensures HasBody(endpoint) && some[i].bodyPath in LeafPaths(endpoint.body.body)
    {
      assert some[i] in points;
    }
  }

  /** What the builder starts from always fits `SinglePointIsolation`. */
  lemma {:induction false} KeyedPointsFit(endpoint: Endpoint, points: seq<MutationPoint>)
    requires forall i | 0 <= i < |points| :: WellKeyed(points[i])
    requires PointsFit(endpoint, points)
    ensures IsDict(Keyed(points)) && PointsFit(endpoint, Keyed(points))
  {
    KeyedHoldsLast(points);
    WellKeyedWithin(points, Keyed(points));
    FitWithin(endpoint, points, Keyed(points));
  }
}
