/** Mutation points of a request body: leaf paths of a JSON tree, and writing at a path. */
module Bodies {
  import opened JsonValues

  /** One step of a body path: a mapping key or a list index. */
  datatype Step = Key(key: string) | Index(index: nat)
  type Path = seq<Step>

  /** Only the first entries of a list are mutated. */
  const SAMPLED_ITEMS: nat := 3

  predicate HasStep(value: Json, step: Step) {
    match step
    case Key(key) => value.Obj? && key in value.fields
    case Index(index) => value.Arr? && index < |value.items|
  }

  function Child(value: Json, step: Step): (child: Json)
    requires HasStep(value, step)
    ensures child < value
  {
    match step
    case Key(key) => value.fields[key]
    case Index(index) => value.items[index]
  }

  function SetChild(value: Json, step: Step, child: Json): Json
    requires HasStep(value, step)
  {
    match step
    case Key(key) => Obj(value.fields[key := child])
    case Index(index) => Arr(value.items[index := child])
  }

  predicate Has(value: Json, path: Path)
    decreases |path|
  {
    path == [] || (HasStep(value, path[0]) && Has(Child(value, path[0]), path[1..]))
  }

  function Get(value: Json, path: Path): Json
    requires Has(value, path)
    decreases |path|
  {
    if path == [] then value else Get(Child(value, path[0]), path[1..])
  }

  /** The value with `new_` written at `path`. */
  function Put(value: Json, path: Path, new_: Json): Json
    requires Has(value, path)
    decreases |path|
  {
    if path == [] then new_
    else SetChild(value, path[0], Put(Child(value, path[0]), path[1..], new_))
  }

  predicate Scalar(value: Json) {
    !value.Obj? && !value.Arr?
  }

  /** The paths of the scalars the scanner mutates. */
  ghost function LeafPaths(value: Json): set<Path> {
    match value
    case Obj(fields) => set key, path | key in fields && path in LeafPaths(fields[key]) :: [Key(key)] + path
    case Arr(items) =>
      set i: nat, path | i < |items| && i < SAMPLED_ITEMS && path in LeafPaths(items[i]) :: [Index(i)] + path
    case _ => {[]}
  }

  /** A path is a leaf path when its first step stays inside the sampled part and the rest is
      a leaf path of the child. */
  lemma {:induction false} LeafStep(value: Json, path: Path)
    requires path in LeafPaths(value)
    ensures Scalar(value) <==> path == []
    ensures path != [] ==> HasStep(value, path[0]) && path[1..] in LeafPaths(Child(value, path[0]))
    ensures path != [] && path[0].Index? ==> path[0].index < SAMPLED_ITEMS
  {
    match value
    case Obj(fields) =>
      var key, rest :| key in fields && rest in LeafPaths(fields[key]) && path == [Key(key)] + rest;
      assert path[1..] == rest;
    case Arr(items) =>
      var i: nat, rest :| i < |items| && i < SAMPLED_ITEMS && rest in LeafPaths(items[i]) && path == [Index(i)] + rest;
      assert path[1..] == rest;
    case _ =>
  }

  lemma {:induction false} LeafStepBack(value: Json, path: Path)
    requires path != [] && HasStep(value, path[0]) && path[1..] in LeafPaths(Child(value, path[0]))
    requires path[0].Index? ==> path[0].index < SAMPLED_ITEMS
    ensures path in LeafPaths(value)
  {
    assert path == [path[0]] + path[1..];
  }

  // ---------- lens laws ----------

  lemma {:induction false} LeafIsScalar(value: Json, path: Path)
    requires path in LeafPaths(value)
    ensures Has(value, path) && Scalar(Get(value, path))
    decreases |path|
  {
    LeafStep(value, path);
    if path != [] {
      LeafIsScalar(Child(value, path[0]), path[1..]);
    }
  }

  /** A write is read back, and writing what is there changes nothing. */
  lemma {:induction false} PutGet(value: Json, path: Path, new_: Json)
    requires Has(value, path)
    ensures Has(Put(value, path, new_), path) && Get(Put(value, path, new_), path) == new_
    ensures Put(value, path, Get(value, path)) == value
    decreases |path|
  {
    if path != [] {
      PutGet(Child(value, path[0]), path[1..], new_);
    }
  }

  lemma {:induction false} PutPut(value: Json, path: Path, first: Json, second: Json)
    requires Has(value, path)
    ensures Has(Put(value, path, first), path)
    ensures Put(Put(value, path, first), path, second) == Put(value, path, second)
    decreases |path|
  {
    if path != [] {
      PutPut(Child(value, path[0]), path[1..], first, second);
    }
  }

  predicate Apart(path: Path, other: Path) {
    !(path <= other) && !(other <= path)
  }

  lemma {:induction false} ApartStep(path: Path, other: Path)
    requires Apart(path, other)
    ensures path != [] && other != []
    ensures path[0] == other[0] ==> Apart(path[1..], other[1..])
  {
    if path[0] == other[0] {
      assert path == [path[0]] + path[1..] && other == [other[0]] + other[1..];
    }
  }

  /** A write leaves every path apart from it as it was, existing or not. */
  lemma {:induction false} PutElsewhere(value: Json, path: Path, new_: Json, other: Path)
    requires Has(value, path) && Apart(path, other)
    ensures Has(Put(value, path, new_), other) <==> Has(value, other)
    ensures Has(value, other) ==> Get(Put(value, path, new_), other) == Get(value, other)
    decreases |path|
  {
    ApartStep(path, other);
    if path[0] == other[0] {
      PutElsewhere(Child(value, path[0]), path[1..], new_, other[1..]);
    } else if HasStep(value, other[0]) {
      assert Child(Put(value, path, new_), other[0]) == Child(value, other[0]);
    }
  }

  lemma {:induction false} PutsCommute(value: Json, path: Path, new_: Json, other: Path, otherNew: Json)
    requires Has(value, path) && Has(value, other) && Apart(path, other)
    ensures Has(Put(value, path, new_), other) && Has(Put(value, other, otherNew), path)
    ensures Put(Put(value, path, new_), other, otherNew) == Put(Put(value, other, otherNew), path, new_)
    decreases |path|
  {
    ApartStep(path, other);
    PutElsewhere(value, path, new_, other);
    PutElsewhere(value, other, otherNew, path);
    if path[0] == other[0] {
      PutsCommute(Child(value, path[0]), path[1..], new_, other[1..], otherNew);
      PutAfterPut(value, path, new_, other, otherNew);
      PutAfterPut(value, other, otherNew, path, new_);
    } else {
      PutBesidePut(value, path, new_, other, otherNew);
      PutBesidePut(value, other, otherNew, path, new_);
      SetChildrenCommute(value, path[0], Put(Child(value, path[0]), path[1..], new_),
                         other[0], Put(Child(value, other[0]), other[1..], otherNew));
    }
  }

  lemma {:induction false} PutAfterPut(value: Json, path: Path, new_: Json, other: Path, otherNew: Json)
    requires path != [] && other != [] && path[0] == other[0]
    requires Has(value, path) && Has(Put(value, path, new_), other)
    ensures Has(Put(Child(value, path[0]), path[1..], new_), other[1..])
    ensures Put(Put(value, path, new_), other, otherNew)
         == SetChild(value, path[0], Put(Put(Child(value, path[0]), path[1..], new_), other[1..], otherNew))
  {
    PutsCommuteInside(value, path[0], Put(Child(value, path[0]), path[1..], new_),
                      Put(Put(Child(value, path[0]), path[1..], new_), other[1..], otherNew));
  }

  lemma {:induction false} PutBesidePut(value: Json, path: Path, new_: Json, other: Path, otherNew: Json)
    requires path != [] && other != [] && path[0] != other[0]
    requires Has(value, path) && Has(value, other) && Has(Put(value, path, new_), other)
    ensures HasStep(SetChild(value, path[0], Put(Child(value, path[0]), path[1..], new_)), other[0])
    ensures Put(Put(value, path, new_), other, otherNew)
         == SetChild(SetChild(value, path[0], Put(Child(value, path[0]), path[1..], new_)), other[0],
                     Put(Child(value, other[0]), other[1..], otherNew))
  {
    SetChildrenCommute(value, path[0], Put(Child(value, path[0]), path[1..], new_),
                       other[0], Put(Child(value, other[0]), other[1..], otherNew));
  }

  lemma {:induction false} PutsCommuteInside(value: Json, step: Step, first: Json, second: Json)
    requires HasStep(value, step)
    ensures HasStep(SetChild(value, step, first), step) && Child(SetChild(value, step, first), step) == first
    ensures SetChild(SetChild(value, step, first), step, second) == SetChild(value, step, second)
  {
  }

  lemma {:induction false} SetChildrenCommute(value: Json, step: Step, new_: Json, other: Step, otherNew: Json)
    requires step != other && HasStep(value, step) && HasStep(value, other)
    ensures HasStep(SetChild(value, step, new_), other) && HasStep(SetChild(value, other, otherNew), step)
    ensures Child(SetChild(value, step, new_), other) == Child(value, other)
    ensures Child(SetChild(value, other, otherNew), step) == Child(value, step)
    ensures SetChild(SetChild(value, step, new_), other, otherNew)
         == SetChild(SetChild(value, other, otherNew), step, new_)
  {
    match value
    case Obj(fields) =>
      assert fields[step.key := new_][other.key := otherNew] == fields[other.key := otherNew][step.key := new_];
    case Arr(items) =>
      assert items[step.index := new_][other.index := otherNew] == items[other.index := otherNew][step.index := new_];
  }

  lemma {:induction false} LeavesApart(value: Json, path: Path, other: Path)
    requires path in LeafPaths(value) && other in LeafPaths(value)
    ensures path == other || Apart(path, other)
    decreases |path|
  {
    LeafStep(value, path);
    LeafStep(value, other);
    if path != [] {
      if path[0] == other[0] {
        LeavesApart(Child(value, path[0]), path[1..], other[1..]);
        assert path == [path[0]] + path[1..] && other == [other[0]] + other[1..];
        assert path[1..] <= other[1..] <==> path <= other;
        assert other[1..] <= path[1..] <==> other <= path;
      }
    }
  }

  // ---------- several writes at once ----------

  /** All edits written simultaneously; `at` is the position of `value` in the whole body. */
  ghost function Edited(value: Json, edits: map<Path, Json>, at: Path): Json {
    if at in edits then edits[at]
    else match value
      case Obj(fields) => Obj(map key | key in fields :: Edited(fields[key], edits, at + [Key(key)]))
      case Arr(items) => Arr(seq(|items|, i requires 0 <= i < |items| => Edited(items[i], edits, at + [Index(i)])))
      case _ => value
  }

  lemma {:induction false} EditedNowhere(value: Json, edits: map<Path, Json>, at: Path)
    requires forall path | path in edits :: !(at <= path)
    ensures Edited(value, edits, at) == value
    decreases value
  {
    assert at !in edits;
    match value
    case Obj(fields) =>
      forall key | key in fields ensures Edited(fields[key], edits, at + [Key(key)]) == fields[key] {
        EditedNowhere(fields[key], edits, at + [Key(key)]);
      }
      assert (map key | key in fields :: Edited(fields[key], edits, at + [Key(key)])) == fields;
    case Arr(items) =>
      forall i | 0 <= i < |items| ensures Edited(items[i], edits, at + [Index(i)]) == items[i] {
        EditedNowhere(items[i], edits, at + [Index(i)]);
      }
      assert seq(|items|, i requires 0 <= i < |items| => Edited(items[i], edits, at + [Index(i)])) == items;
    case _ =>
  }

  ghost predicate AgreeBelow(edits: map<Path, Json>, others: map<Path, Json>, at: Path) {
    forall path | at <= path :: (path in edits <==> path in others) && (path in edits ==> edits[path] == others[path])
  }

  lemma {:induction false} AgreeDeeper(edits: map<Path, Json>, others: map<Path, Json>, at: Path, step: Step)
    requires AgreeBelow(edits, others, at)
    ensures AgreeBelow(edits, others, at + [step])
  {
    forall path | at + [step] <= path
      ensures (path in edits <==> path in others) && (path in edits ==> edits[path] == others[path])
    {
      assert path[..|at|] == (at + [step])[..|at|];
    }
  }

  /** Edits that agree below `at` edit alike. */
  lemma {:induction false} EditedAlike(value: Json, edits: map<Path, Json>, others: map<Path, Json>, at: Path)
    requires AgreeBelow(edits, others, at)
    ensures Edited(value, edits, at) == Edited(value, others, at)
    decreases value
  {
    assert at <= at;
    match value
    case Obj(fields) =>
      forall key | key in fields
        ensures Edited(fields[key], edits, at + [Key(key)]) == Edited(fields[key], others, at + [Key(key)])
      {
        AgreeDeeper(edits, others, at, Key(key));
        EditedAlike(fields[key], edits, others, at + [Key(key)]);
      }
    case Arr(items) =>
      forall i | 0 <= i < |items|
        ensures Edited(items[i], edits, at + [Index(i)]) == Edited(items[i], others, at + [Index(i)])
      {
        AgreeDeeper(edits, others, at, Index(i));
        EditedAlike(items[i], edits, others, at + [Index(i)]);
      }
    case _ =>
  }

  /** One more write on top of earlier ones, apart from all of them, is one more simultaneous
      edit: hence any order of writing gives the same body. */
  lemma {:induction false} PutIsEdit(value: Json, edits: map<Path, Json>, at: Path, path: Path, new_: Json)
    requires Has(value, path)
    requires forall edit | edit in edits :: Apart(edit, at + path)
    ensures Has(Edited(value, edits, at), path)
    ensures Put(Edited(value, edits, at), path, new_) == Edited(value, edits[at + path := new_], at)
    decreases |path|
  {
    assert at <= at + path;
    assert at !in edits;
    if path == [] {
      assert at + path == at;
    } else {
      var step := path[0];
      var child := Child(value, step);
      assert at + path == (at + [step]) + path[1..];
      PutIsEdit(child, edits, at + [step], path[1..], new_);
      assert at !in edits[at + path := new_] by {
        assert |at + path| > |at|;
      }
      forall other: Step | other != step && HasStep(value, other)
        ensures Edited(Child(value, other), edits[at + path := new_], at + [other])
             == Edited(Child(value, other), edits, at + [other])
      {
        assert (at + path)[|at|] == step && (at + [other])[|at|] == other;
        assert !(at + [other] <= at + path);
        EditedAlike(Child(value, other), edits[at + path := new_], edits, at + [other]);
      }
      EditedStep(value, edits, at, step);
      PutIsEditHere(value, edits, at, path, new_);
    }
  }

  lemma {:induction false} EditedStep(value: Json, edits: map<Path, Json>, at: Path, step: Step)
    requires at !in edits && HasStep(value, step)
    ensures HasStep(Edited(value, edits, at), step)
    ensures Child(Edited(value, edits, at), step) == Edited(Child(value, step), edits, at + [step])
  {
  }

  lemma {:induction false} PutIsEditHere(value: Json, edits: map<Path, Json>, at: Path, path: Path, new_: Json)
    requires path != [] && HasStep(value, path[0]) && Has(Edited(value, edits, at), path)
    requires at !in edits && at !in edits[at + path := new_]
    requires HasStep(Edited(value, edits, at), path[0])
    requires Put(Child(Edited(value, edits, at), path[0]), path[1..], new_)
          == Edited(Child(value, path[0]), edits[at + path := new_], at + [path[0]])
    requires forall other: Step | other != path[0] && HasStep(value, other) ::
      Edited(Child(value, other), edits[at + path := new_], at + [other])
          == Edited(Child(value, other), edits, at + [other])
    ensures Put(Edited(value, edits, at), path, new_) == Edited(value, edits[at + path := new_], at)
  {
    var before := Edited(value, edits, at);
    var after := Edited(value, edits[at + path := new_], at);
    match value
    case Obj(fields) =>
      forall key | key in fields ensures Put(before, path, new_).fields[key] == after.fields[key] {
        assert HasStep(value, Key(key));
        assert Child(value, Key(key)) == fields[key];
      }
      assert Put(before, path, new_).fields.Keys == after.fields.Keys;
      assert Put(before, path, new_).fields == after.fields;
    case Arr(items) =>
      forall i: nat | i < |items| ensures Put(before, path, new_).items[i] == after.items[i] {
        assert HasStep(value, Index(i));
        assert Child(value, Index(i)) == items[i];
      }
      assert Put(before, path, new_).items == after.items;
  }
}
